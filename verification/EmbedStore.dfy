/** The embedding row store: physical rows, a freelist, and reuse before growth. */
module EmbedStores {
  import opened Prelude
  import opened Records

  /** `live` with the k-th vector written to the k-th row, in order. */
  function Placed<V>(live: map<nat, V>, rows: seq<nat>, vectors: seq<V>): (r: map<nat, V>)
    requires |rows| == |vectors|
    ensures forall x :: x in r <==> x in live || x in rows
    ensures forall x :: x in live && x !in rows ==> r[x] == live[x]
  {
    if rows == [] then live
    else
      var k := |rows| - 1;
      assert forall x :: x in rows <==> x in rows[..k] || x == rows[k];
      Placed(live, rows[..k], vectors[..k])[rows[k] := vectors[k]]
  }

  /** Distinct rows hold the vectors they were given. */
  lemma {:induction false} PlacedAt<V>(live: map<nat, V>, rows: seq<nat>, vectors: seq<V>, i: nat)
    requires |rows| == |vectors| && Distinct(rows) && i < |rows|
    ensures Placed(live, rows, vectors)[rows[i]] == vectors[i]
    decreases |rows|
  {
    var k := |rows| - 1;
    if i < k {
      PlacedAt(live, rows[..k], vectors[..k], i);
      assert rows[..k][i] == rows[i];
      assert Placed(live, rows, vectors) == Placed(live, rows[..k], vectors[..k])[rows[k] := vectors[k]];
    }
  }

  lemma PlacedSnoc<V>(live: map<nat, V>, rows: seq<nat>, vectors: seq<V>, n: nat, row: nat)
    requires |rows| == n < |vectors|
    ensures Placed(live, rows + [row], vectors[..n + 1]) == Placed(live, rows, vectors[..n])[row := vectors[n]]
  {
    assert (rows + [row])[..n] == rows;
    assert vectors[..n + 1][..n] == vectors[..n];
  }

  /** Freelist entries are distinct rows of the file. */
  ghost predicate FreelistOk(rowCount: nat, freelist: seq<nat>) {
    Distinct(freelist) && forall i :: 0 <= i < |freelist| ==> freelist[i] < rowCount
  }

  /** The rows in use and what they hold. */
  ghost function LiveRows(mm: seq<Vector>, freelist: seq<nat>): map<nat, Vector> {
    map r: nat | 0 <= r < |mm| && r !in freelist :: mm[r]
  }

  lemma PopFree(mm: seq<Vector>, freelist: seq<nat>, v: Vector)
    requires FreelistOk(|mm|, freelist) && freelist != []
    ensures var k := |freelist| - 1;
            var row := freelist[k];
            && row !in LiveRows(mm, freelist)
            && FreelistOk(|mm|, freelist[..k])
            && LiveRows(mm[row := v], freelist[..k]) == LiveRows(mm, freelist)[row := v]
  {
    var k := |freelist| - 1;
    assert freelist == freelist[..k] + [freelist[k]];
    assert freelist[k] in freelist && freelist[k] !in freelist[..k];
  }

  lemma GrowTail(mm: seq<Vector>, v: Vector)
    ensures LiveRows(mm + [v], []) == LiveRows(mm, [])[|mm| := v]
  {
  }

  /** Rows in use and free rows are all there are. */
  lemma {:induction false} LiveCount(mm: seq<Vector>, freelist: seq<nat>)
    requires FreelistOk(|mm|, freelist)
    ensures |LiveRows(mm, freelist)| + |freelist| == |mm|
    decreases |mm| + |freelist|
  {
    hide LiveRows;
    if freelist != [] {
      var k := |freelist| - 1;
      PopFree(mm, freelist, mm[freelist[k]]);
      assert mm[freelist[k] := mm[freelist[k]]] == mm;
      LiveCount(mm, freelist[..k]);
      Added(LiveRows(mm, freelist), freelist[k], mm[freelist[k]]);
    } else if mm != [] {
      var k := |mm| - 1;
      assert mm == mm[..k] + [mm[k]];
      GrowTail(mm[..k], mm[k]);
      LiveCount(mm[..k], []);
      NoSuchRow(mm[..k]);
      Added(LiveRows(mm[..k], []), k, mm[k]);
    } else {
      NoRows();
    }
  }

  lemma Added(m: map<nat, Vector>, r: nat, v: Vector)
    requires r !in m
    ensures |m[r := v]| == |m| + 1
  {
    assert m[r := v].Keys == m.Keys + {r};
    assert |m| == |m.Keys| && |m[r := v]| == |m[r := v].Keys|;
  }

  lemma NoRows()
    ensures |LiveRows([], [])| == 0
  {
    assert LiveRows([], []) == map[];
  }

  lemma NoSuchRow(mm: seq<Vector>)
    ensures |mm| !in LiveRows(mm, [])
  {
  }

  /** `now` is `before` with the first vectors placed in distinct rows that were not in use. */
  ghost predicate AppendedSoFar(before: map<nat, Vector>, now: map<nat, Vector>, rows: seq<nat>, vectors: seq<Vector>) {
    && |rows| <= |vectors| && Distinct(rows)
    && (forall r :: r in rows ==> r !in before)
    && now == Placed(before, rows, vectors[..|rows|])
  }

  lemma NothingAppended(before: map<nat, Vector>, vectors: seq<Vector>)
    ensures AppendedSoFar(before, before, [], vectors)
  {
  }

  lemma AppendStep(before: map<nat, Vector>, now: map<nat, Vector>, rows: seq<nat>, vectors: seq<Vector>, row: nat)
    requires AppendedSoFar(before, now, rows, vectors) && |rows| < |vectors| && row !in now
    ensures AppendedSoFar(before, now[row := vectors[|rows|]], rows + [row], vectors)
  {
    hide Placed;
    PlacedSnoc(before, rows, vectors, |rows|, row);
    assert row !in rows;
  }

  class EmbedStore {
    const dim: nat
    var mm: seq<Vector>
    var freelist: seq<nat>
    /** How often a row that was not in use has been freed. */
    ghost var doubleFrees: nat

    ghost predicate Valid()
      reads this
    {
      FreelistOk(|mm|, freelist)
    }

    ghost function Live(): map<nat, Vector>
      reads this
    {
      LiveRows(mm, freelist)
    }

    constructor (dim: nat)
      ensures Valid() && Live() == map[] && |mm| == 0 && this.dim == dim
    {
      this.dim := dim;
      mm, freelist := [], [];
      doubleFrees := 0;
    }

    /** `append_batch`: pops the freelist first, then extends the tail. */
    method AppendBatch(embeddings: seq<Vector>) returns (rows: seq<nat>)
      requires Valid()
      modifies this`mm, this`freelist
      ensures Valid()
      ensures |rows| == |embeddings| && Distinct(rows)
      ensures forall r :: r in rows ==> r !in old(Live())
      ensures Live() == Placed(old(Live()), rows, embeddings)
      // Free rows are reused first, so that the file is never longer than it was or than it has to be.
      ensures |mm| == |old(mm)| + Max(0, |embeddings| - |old(freelist)|)
      ensures |mm| == Max(|old(mm)|, |Live()|)
    {
      hide LiveRows, Placed;
      ghost var before, free := Live(), |freelist|;
      NothingAppended(before, embeddings);
      rows := [];
      var consumed := 0;
      while freelist != [] && consumed < |embeddings|
        invariant FreelistOk(|mm|, freelist) && consumed == |rows|
        invariant AppendedSoFar(before, LiveRows(mm, freelist), rows, embeddings)
        invariant |mm| == |old(mm)| && |freelist| + consumed == free && consumed <= |embeddings|
      {
        var row := freelist[|freelist| - 1];
        PopFree(mm, freelist, embeddings[consumed]);
        AppendStep(before, LiveRows(mm, freelist), rows, embeddings, row);
        freelist, mm := freelist[..|freelist| - 1], mm[row := embeddings[consumed]];
        rows, consumed := rows + [row], consumed + 1;
      }
      while consumed < |embeddings|
        invariant FreelistOk(|mm|, freelist) && consumed == |rows|
        invariant consumed < |embeddings| ==> freelist == []
        invariant AppendedSoFar(before, LiveRows(mm, freelist), rows, embeddings)
        invariant consumed <= |embeddings| && |mm| == |old(mm)| + Max(0, consumed - free)
        invariant |freelist| == Max(0, free - consumed)
      {
        GrowTail(mm, embeddings[consumed]);
        NoSuchRow(mm);
        AppendStep(before, LiveRows(mm, freelist), rows, embeddings, |mm|);
        rows, mm := rows + [|mm|], mm + [embeddings[consumed]];
        consumed := consumed + 1;
      }
      assert embeddings[..|embeddings|] == embeddings;
      LiveCount(mm, freelist);
    }

    /** `free_row`: zeroes and recycles a row; freeing twice is a no-op; `!ok` is the `IndexError`. */
    method FreeRow(row: nat) returns (ok: bool)
      requires Valid()
      modifies this
      ensures Valid()
      ensures ok <==> row < |old(mm)|
      ensures Live() == old(Live()) - {row} && |mm| == |old(mm)|
      ensures doubleFrees == old(doubleFrees) + if row in old(Live()) then 0 else 1
    {
      doubleFrees := doubleFrees + if row in Live() then 0 else 1;
      ok := row < |mm|;
      if ok && row !in freelist {
        mm := mm[row := seq(dim, _ => 0.0)];
        freelist := freelist + [row];
      }
    }
  }
}
