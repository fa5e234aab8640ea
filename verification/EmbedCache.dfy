/** The disk cache in front of an embedder. */
module EmbedCaches {
  import opened Prelude

  /** A cached file: a vector, or something that does not load. */
  datatype Entry<V> = Vector(v: V) | Damaged

  /** How a write ends. Failed writes are swallowed; one may leave a torn file behind. */
  datatype Outcome = Saved | Untouched | Torn

  /** Cache files by directory and text hash; caches of several embedders live on one disk. */
  type Disk<V> = map<(string, string), Entry<V>>

  datatype Embedder<!V> = Embedder(name: string, encode: string -> V)

  function SafeChar(c: char): char { if c == '/' || c == ':' then '_' else c }

  /** The directory name of an embedder. */
  function SafeDirName(name: string): string {
    seq(|name|, i requires 0 <= i < |name| => SafeChar(name[i]))
  }

  /** Hashing loses nothing. */
  ghost predicate Injective(hash: string -> string) {
    forall s, t :: hash(s) == hash(t) ==> s == t
  }

  /** What loads from the embedder's directory is what the embedder gives. */
  ghost predicate SoundFor<V(!new)>(disk: Disk<V>, hash: string -> string, e: Embedder<V>) {
    forall t :: var key := (SafeDirName(e.name), hash(t));
                key in disk && disk[key].Vector? ==> disk[key].v == e.encode(t)
  }

  function Lookup<V>(disk: Disk<V>, key: (string, string)): Option<V> {
    if key in disk && disk[key].Vector? then Some(disk[key].v) else None
  }

  function Written<V>(disk: Disk<V>, key: (string, string), v: V, outcome: Outcome): Disk<V> {
    match outcome
    case Saved => disk[key := Vector(v)]
    case Untouched => disk
    case Torn => disk[key := Damaged]
  }

  /** The texts the cache has no vector for, in order and as often as asked. */
  function Misses<V>(disk: Disk<V>, dir: string, hash: string -> string, texts: seq<string>): seq<string> {
    if texts == [] then []
    else
      var k := |texts| - 1;
      Misses(disk, dir, hash, texts[..k]) + if Lookup(disk, (dir, hash(texts[k]))).None? then [texts[k]] else []
  }

  /** The disk after writing what the embedder gives for `misses`, the j-th write ending as `outcome(j)`. */
  function WrittenAll<V>(disk: Disk<V>, hash: string -> string, e: Embedder<V>, misses: seq<string>, outcome: nat -> Outcome)
    : Disk<V>
  {
    if misses == [] then disk
    else
      var k := |misses| - 1;
      Written(WrittenAll(disk, hash, e, misses[..k], outcome), (SafeDirName(e.name), hash(misses[k])),
              e.encode(misses[k]), outcome(k))
  }

  class Store<V(!new)> {
    var disk: Disk<V>

    constructor ()
      ensures disk == map[]
    {
      disk := map[];
    }
  }

  class EmbedCache<V(!new)> {
    const dir: Option<string>
    const hash: string -> string
    const store: Store<V>

    /** Without a usable directory the cache is off. */
    constructor (embedderName: string, usable: bool, hash: string -> string, store: Store<V>)
      ensures dir == (if usable then Some(SafeDirName(embedderName)) else None)
      ensures this.hash == hash && this.store == store
    {
      dir := if usable then Some(SafeDirName(embedderName)) else None;
      this.hash, this.store := hash, store;
    }

    method Get(text: string) returns (r: Option<V>)
      ensures r == if dir.None? then None else Lookup(store.disk, (dir.value, hash(text)))
    {
      if dir.None? {
        return None;
      }
      var key := (dir.value, hash(text));
      if key !in store.disk || store.disk[key].Damaged? {
        return None;
      }
      return Some(store.disk[key].v);
    }

    /** Afterwards a get of the text gives the vector if the write went through, nothing if it left a torn file, and
        what it gave before otherwise; no other key reads differently. */
    method Set(text: string, v: V, outcome: Outcome)
      modifies store
      ensures store.disk == if dir.None? then old(store.disk)
                            else Written(old(store.disk), (dir.value, hash(text)), v, outcome)
      ensures dir.Some? && outcome.Saved? ==> Lookup(store.disk, (dir.value, hash(text))) == Some(v)
      ensures dir.Some? && outcome.Torn? ==> Lookup(store.disk, (dir.value, hash(text))) == None
      ensures forall key :: outcome.Untouched? || dir.None? || key != (dir.value, hash(text)) ==>
                Lookup(store.disk, key) == Lookup(old(store.disk), key)
    {
      if dir.None? {
        return;
      }
      store.disk := Written(store.disk, (dir.value, hash(text)), v, outcome);
    }

    /** `encode_with_cache`: hits are filled in first, then the misses, which are also written back. `None` is the
        `ValueError` of stacking nothing, which only a cache that is on runs into. */
    method EncodeWithCache(e: Embedder<V>, texts: seq<string>, outcome: nat -> Outcome) returns (vectors: Option<seq<V>>)
      requires dir.Some? ==> dir.value == SafeDirName(e.name) && SoundFor(store.disk, hash, e)
      modifies store
      ensures vectors == if dir.Some? && texts == [] then None else Some(EncodeEach(e, texts))
      ensures store.disk == if dir.None? then old(store.disk)
                            else WrittenAll(old(store.disk), hash, e, Misses(old(store.disk), dir.value, hash, texts), outcome)
    {
      hide SoundFor, Misses, Written, SafeDirName, WrittenAll, FilledBut, EncodeEach;
      if dir.None? {
        return Some(EncodeEach(e, texts));
      }
      var out, missesIdx, missesTxt := FillHits(e, texts);
      FillMisses(e, texts, out, missesIdx, missesTxt, outcome);
      vectors := Stacked(e, texts, out);
    }

    /** The first loop. */
    method FillHits(e: Embedder<V>, texts: seq<string>)
      returns (out: array<Option<V>>, missesIdx: seq<nat>, missesTxt: seq<string>)
      requires dir.Some? && dir.value == SafeDirName(e.name) && SoundFor(store.disk, hash, e)
      ensures fresh(out) && FilledBut(out[..], e, texts, missesIdx)
      ensures missesTxt == Misses(store.disk, dir.value, hash, texts) && Picks(texts, missesIdx, missesTxt)
    {
      hide SoundFor, Misses, SafeDirName;
      out := new Option<V>[|texts|](_ => None);
      missesIdx, missesTxt := [], [];
      assert texts[..0] == [];
      MissesStep(store.disk, dir.value, hash, texts, 0);
      for i := 0 to |texts|
        invariant fresh(out) && out.Length == |texts|
        invariant Picks(texts, missesIdx, missesTxt)
        invariant forall k :: 0 <= k < i ==> out[k] == Some(e.encode(texts[k])) || k in missesIdx
        invariant missesTxt == Misses(store.disk, dir.value, hash, texts[..i])
      {
        MissesStep(store.disk, dir.value, hash, texts, i);
        var cached := Get(texts[i]);
        if cached.Some? {
          HitIsRight(store.disk, hash, e, texts[i]);
          out[i] := cached;
        } else {
          missesIdx := missesIdx + [i];
          missesTxt := missesTxt + [texts[i]];
        }
      }
      assert texts[..|texts|] == texts;
    }

    /** The second loop: vectors for the misses, each stored as well. */
    method FillMisses(e: Embedder<V>, texts: seq<string>, out: array<Option<V>>, missesIdx: seq<nat>,
                      missesTxt: seq<string>, outcome: nat -> Outcome)
      requires dir.Some? && dir.value == SafeDirName(e.name)
      requires FilledBut(out[..], e, texts, missesIdx) && Picks(texts, missesIdx, missesTxt)
      modifies store, out
      ensures FilledBut(out[..], e, texts, [])
      ensures store.disk == WrittenAll(old(store.disk), hash, e, missesTxt, outcome)
    {
      hide FilledBut, WrittenAll, Written, SafeDirName;
      var newEmbs := EncodeEach(e, missesTxt);
      ghost var was := store.disk;
      assert missesIdx[0..] == missesIdx && missesTxt[..0] == [];
      WrittenStep(was, hash, e, missesTxt, 0, outcome);
      for j := 0 to |missesIdx|
        invariant FilledBut(out[..], e, texts, missesIdx[j..])
        invariant store.disk == WrittenAll(was, hash, e, missesTxt[..j], outcome)
      {
        WrittenStep(was, hash, e, missesTxt, j, outcome);
        FillOne(out[..], e, texts, missesIdx, j);
        ghost var before := out[..];
        out[missesIdx[j]] := Some(newEmbs[j]);
        assert out[..] == before[missesIdx[j] := Some(newEmbs[j])];
        Set(missesTxt[j], newEmbs[j], outcome(j));
      }
      assert missesTxt[..|missesIdx|] == missesTxt && missesIdx[|missesIdx|..] == [];
    }

    /** `np.stack`, which needs at least one array. */
    method Stacked(e: Embedder<V>, texts: seq<string>, out: array<Option<V>>) returns (vectors: Option<seq<V>>)
      requires FilledBut(out[..], e, texts, [])
      ensures vectors == if texts == [] then None else Some(EncodeEach(e, texts))
    {
      if out.Length == 0 {
        return None;
      }
      assert forall k :: 0 <= k < out.Length ==> out[k] == out[..][k];
      var rows := [];
      for k := 0 to out.Length
        invariant rows == EncodeEach(e, texts[..k])
      {
        rows := rows + [out[k].value];
      }
      assert texts[..|texts|] == texts;
      return Some(rows);
    }
  }

  lemma HitIsRight<V(!new)>(disk: Disk<V>, hash: string -> string, e: Embedder<V>, t: string)
    requires SoundFor(disk, hash, e)
    ensures var r := Lookup(disk, (SafeDirName(e.name), hash(t)));
            r.Some? ==> r.value == e.encode(t)
  {
  }

  lemma MissesStep<V>(disk: Disk<V>, dir: string, hash: string -> string, texts: seq<string>, i: nat)
    ensures Misses(disk, dir, hash, []) == []
    ensures i < |texts| ==>
              Misses(disk, dir, hash, texts[..i + 1])
              == Misses(disk, dir, hash, texts[..i]) + if Lookup(disk, (dir, hash(texts[i]))).None? then [texts[i]] else []
  {
    if i < |texts| {
      assert texts[..i + 1][..i] == texts[..i];
    }
  }

  lemma WrittenStep<V>(disk: Disk<V>, hash: string -> string, e: Embedder<V>, misses: seq<string>, j: nat,
                       outcome: nat -> Outcome)
    ensures WrittenAll(disk, hash, e, [], outcome) == disk
    ensures j < |misses| ==>
              WrittenAll(disk, hash, e, misses[..j + 1], outcome)
              == Written(WrittenAll(disk, hash, e, misses[..j], outcome), (SafeDirName(e.name), hash(misses[j])),
                         e.encode(misses[j]), outcome(j))
  {
    if j < |misses| {
      assert misses[..j + 1][..j] == misses[..j];
    }
  }

  function EncodeEach<V>(e: Embedder<V>, texts: seq<string>): seq<V> {
    seq(|texts|, i requires 0 <= i < |texts| => e.encode(texts[i]))
  }

  ghost predicate Picks(texts: seq<string>, idx: seq<nat>, picked: seq<string>) {
    |idx| == |picked| && forall j :: 0 <= j < |idx| ==> idx[j] < |texts| && texts[idx[j]] == picked[j]
  }

  /** Every slot holds its text's vector, except those still listed. */
  ghost predicate FilledBut<V>(out: seq<Option<V>>, e: Embedder<V>, texts: seq<string>, left: seq<nat>) {
    && |out| == |texts|
    && (forall j :: 0 <= j < |left| ==> left[j] < |texts|)
    && forall k :: 0 <= k < |texts| ==> out[k] == Some(e.encode(texts[k])) || k in left
  }

  lemma FillOne<V>(out: seq<Option<V>>, e: Embedder<V>, texts: seq<string>, left: seq<nat>, j: nat)
    requires j < |left| && FilledBut(out, e, texts, left[j..])
    ensures left[j] < |out| == |texts|
    ensures FilledBut(out[left[j] := Some(e.encode(texts[left[j]]))], e, texts, left[j + 1..])
  {
    assert left[j..] == [left[j]] + left[j + 1..];
    assert left[j..][0] == left[j];
    var rest := left[j + 1..];
    forall i | 0 <= i < |rest| ensures rest[i] < |texts| {
      assert rest[i] == left[j..][i + 1];
    }
  }

  // ---------------------------------------------------------------- what stays true

  /** What a get of any text of the embedder gives after a write: the vector just saved, nothing after a torn write,
      and otherwise what it gave before. */
  lemma ReadBack<V>(disk: Disk<V>, hash: string -> string, dir: string, text: string, v: V, outcome: Outcome, other: string)
    requires Injective(hash)
    ensures Lookup(Written(disk, (dir, hash(text)), v, outcome), (dir, hash(other)))
            == if other != text || outcome.Untouched? then Lookup(disk, (dir, hash(other)))
               else if outcome.Saved? then Some(v)
               else None
  {
    assert hash(other) == hash(text) <==> other == text;
  }

  /** A write by embedder `a` keeps every sound cache of embedder `b` sound
      if and only if they do not share a directory, or give the same vectors. */
  lemma SharingExact<V(!new)>(hash: string -> string, a: Embedder<V>, b: Embedder<V>)
    requires Injective(hash)
    ensures (forall disk: Disk<V>, t :: SoundFor(disk, hash, b) ==>
               SoundFor(Written(disk, (SafeDirName(a.name), hash(t)), a.encode(t), Saved), hash, b))
            <==> SafeDirName(a.name) != SafeDirName(b.name) || forall t :: a.encode(t) == b.encode(t)
  {
    if SafeDirName(a.name) == SafeDirName(b.name) && exists t :: a.encode(t) != b.encode(t) {
      var t :| a.encode(t) != b.encode(t);
      var disk: Disk<V> := map[];
      var key := (SafeDirName(b.name), hash(t));
      var after := Written(disk, key, a.encode(t), Saved);
      assert key in after && after[key].v == a.encode(t);
      assert SoundFor(disk, hash, b) && !SoundFor(after, hash, b);
    }
  }

  /** Two names share a directory if and only if they differ only where both have a slash, a colon or an underscore. */
  lemma SharedDirExact(a: string, b: string)
    ensures SafeDirName(a) == SafeDirName(b)
            <==> |a| == |b| && forall i :: 0 <= i < |a| ==> a[i] == b[i] || (Masked(a[i]) && Masked(b[i]))
  {
    if SafeDirName(a) == SafeDirName(b) {
      assert |SafeDirName(a)| == |SafeDirName(b)|;
      forall i | 0 <= i < |a| ensures a[i] == b[i] || (Masked(a[i]) && Masked(b[i])) {
        assert SafeDirName(a)[i] == SafeDirName(b)[i];
      }
    }
  }

  predicate Masked(c: char) { c == '/' || c == ':' || c == '_' }

  /** Encoding through the cache leaves it sound, however the writes end. */
  lemma {:induction false} WritesKeepSound<V(!new)>(disk: Disk<V>, hash: string -> string, e: Embedder<V>,
                                                    misses: seq<string>, outcome: nat -> Outcome)
    requires Injective(hash) && SoundFor(disk, hash, e)
    ensures SoundFor(WrittenAll(disk, hash, e, misses, outcome), hash, e)
    decreases |misses|
  {
    if misses != [] {
      WritesKeepSound(disk, hash, e, misses[..|misses| - 1], outcome);
    }
  }

  /** It touches no other embedder's directory. */
  lemma {:induction false} WritesKeepOthers<V(!new)>(disk: Disk<V>, hash: string -> string, e: Embedder<V>,
                                                     misses: seq<string>, outcome: nat -> Outcome, key: (string, string))
    requires key.0 != SafeDirName(e.name)
    ensures Lookup(WrittenAll(disk, hash, e, misses, outcome), key) == Lookup(disk, key)
    decreases |misses|
  {
    if misses != [] {
      WritesKeepOthers(disk, hash, e, misses[..|misses| - 1], outcome, key);
    }
  }

  lemma {:induction false} SavedStays<V>(disk: Disk<V>, hash: string -> string, e: Embedder<V>, misses: seq<string>, t: string)
    requires t in misses || Lookup(disk, (SafeDirName(e.name), hash(t))).Some?
    ensures Lookup(WrittenAll(disk, hash, e, misses, _ => Saved), (SafeDirName(e.name), hash(t))).Some?
    decreases |misses|
  {
    if misses != [] {
      var k := |misses| - 1;
      if misses[k] != t {
        assert t in misses ==> t in misses[..k];
        SavedStays(disk, hash, e, misses[..k], t);
      }
    }
  }

  lemma {:induction false} MissesExact<V>(disk: Disk<V>, dir: string, hash: string -> string, texts: seq<string>, t: string)
    ensures t in Misses(disk, dir, hash, texts) <==> t in texts && Lookup(disk, (dir, hash(t))).None?
    decreases |texts|
  {
    if texts != [] {
      var k := |texts| - 1;
      MissesExact(disk, dir, hash, texts[..k], t);
      assert texts == texts[..k] + [texts[k]];
    }
  }

  /** Once every write went through, asking for the same texts again leaves nothing to embed. */
  lemma WarmCacheEmbedsNothing<V>(disk: Disk<V>, hash: string -> string, e: Embedder<V>, texts: seq<string>)
    ensures var dir := SafeDirName(e.name);
            var after := WrittenAll(disk, hash, e, Misses(disk, dir, hash, texts), _ => Saved);
            Misses(after, dir, hash, texts) == []
  {
    var dir := SafeDirName(e.name);
    var misses := Misses(disk, dir, hash, texts);
    var after := WrittenAll(disk, hash, e, misses, _ => Saved);
    if Misses(after, dir, hash, texts) != [] {
      var t := Misses(after, dir, hash, texts)[0];
      MissesExact(after, dir, hash, texts, t);
      MissesExact(disk, dir, hash, texts, t);
      SavedStays(disk, hash, e, misses, t);
      assert false;
    }
  }
}
