/** Line numbers of character offsets: `_line_start_offsets` and `_offset_to_line`. */
module Lines {

  /** Number of newline characters in `s`. */
  function Newlines(s: string): nat {
    if s == [] then 0 else Newlines(s[..|s| - 1]) + (if s[|s| - 1] == '\n' then 1 else 0)
  }

  /** The 1-indexed line the character at `offset` sits on: one more than the newlines before it. */
  function LineOf(text: string, offset: nat): nat
    requires offset <= |text|
  {
    1 + Newlines(text[..offset])
  }

  /** Where each line begins: 0, and one past every newline. */
  function LineStarts(text: string): (r: seq<nat>)
    ensures |r| == 1 + Newlines(text)
    ensures r[0] == 0
    ensures forall i :: 0 <= i < |r| ==> r[i] <= |text|
    ensures forall i, j :: 0 <= i < j < |r| ==> r[i] < r[j]
  {
    if text == [] then [0]
    else
      LineStarts(text[..|text| - 1]) + (if text[|text| - 1] == '\n' then [|text|] else [])
  }

  /** `str.find("\n", from)`, with the source's -1 for "none left". */
  function FindNewline(text: string, from: nat): (r: int)
    ensures r == -1 || from <= r < |text|
    ensures r >= 0 ==> text[r] == '\n'
    ensures forall k :: from <= k < (if r == -1 then |text| else r) ==> text[k] != '\n'
    decreases |text| - from
  {
    if from >= |text| then -1
    else if text[from] == '\n' then from
    else FindNewline(text, from + 1)
  }

  /** Skipping newline-free text adds no line start. */
  lemma {:induction false} SkipPlainText(text: string, a: nat, b: nat)
    requires a <= b <= |text|
    requires forall k :: a <= k < b ==> text[k] != '\n'
    ensures LineStarts(text[..b]) == LineStarts(text[..a])
    decreases b
  {
    if a < b {
      assert text[..b][..b - 1] == text[..b - 1];
      SkipPlainText(text, a, b - 1);
    }
  }

  method LineStartOffsets(text: string) returns (offsets: seq<nat>)
    ensures offsets == LineStarts(text)
  {
    offsets := [0];
    var i := FindNewline(text, 0);
    SkipPlainText(text, 0, if i == -1 then |text| else i);
    while i != -1
      invariant i == -1 || (0 <= i < |text| && text[i] == '\n')
      invariant offsets == LineStarts(text[..if i == -1 then |text| else i])
      decreases if i == -1 then 0 else |text| - i
    {
      assert text[..i + 1][..i] == text[..i];
      offsets := offsets + [i + 1];
      var next := FindNewline(text, i + 1);
      SkipPlainText(text, i + 1, if next == -1 then |text| else next);
      i := next;
    }
    assert text[..|text|] == text;
  }

  /** `bisect.bisect_right` on a sorted list: how many entries are at most `x`. */
  function BisectRight(s: seq<nat>, x: int, lo: nat, hi: nat): (r: nat)
    requires lo <= hi <= |s|
    requires forall i, j :: 0 <= i < j < |s| ==> s[i] < s[j]
    requires forall i :: 0 <= i < lo ==> s[i] <= x
    requires forall i :: hi <= i < |s| ==> s[i] > x
    ensures lo <= r <= hi
    ensures forall i :: 0 <= i < r ==> s[i] <= x
    ensures forall i :: r <= i < |s| ==> s[i] > x
    decreases hi - lo
  {
    if lo == hi then lo
    else
      var mid := (lo + hi) / 2;
      if x < s[mid] then BisectRight(s, x, lo, mid) else BisectRight(s, x, mid + 1, hi)
  }

  function OffsetToLine(lineStarts: seq<nat>, offset: int): nat
    requires forall i, j :: 0 <= i < j < |lineStarts| ==> lineStarts[i] < lineStarts[j]
  {
    var pos := BisectRight(lineStarts, offset, 0, |lineStarts|);
    if pos > 1 then pos else 1
  }

  /** The line starts of a prefix are the starts of the whole text that are no later than its end. */
  lemma {:induction false} StartsOfPrefix(text: string, k: nat)
    requires k <= |text|
    ensures LineStarts(text[..k]) <= LineStarts(text)
    ensures forall i :: |LineStarts(text[..k])| <= i < |LineStarts(text)| ==> LineStarts(text)[i] > k
    decreases |text|
  {
    if k == |text| {
      assert text[..k] == text;
    } else {
      var shorter := text[..|text| - 1];
      assert shorter[..k] == text[..k];
      StartsOfPrefix(shorter, k);
    }
  }

  /** On a sorted list the bisect result is pinned by the entries on its two sides. */
  lemma BisectIs(s: seq<nat>, x: int, k: nat)
    requires forall i, j :: 0 <= i < j < |s| ==> s[i] < s[j]
    requires k <= |s|
    requires forall i :: 0 <= i < k ==> s[i] <= x
    requires forall i :: k <= i < |s| ==> s[i] > x
    ensures BisectRight(s, x, 0, |s|) == k
  {
    var r := BisectRight(s, x, 0, |s|);
    assert r < |s| ==> s[r] > x;
    assert k < |s| ==> s[k] > x;
  }

  /** The bisect lookup answers exactly the newline count before the offset, plus one. */
  lemma OffsetToLineIsExact(text: string, offset: nat)
    requires offset <= |text|
    ensures OffsetToLine(LineStarts(text), offset) == LineOf(text, offset)
  {
    var starts := LineStarts(text);
    var before := LineStarts(text[..offset]);
    StartsOfPrefix(text, offset);
    assert forall i :: 0 <= i < |before| ==> starts[i] == before[i];
    BisectIs(starts, offset, |before|);
  }

  /** Moving one character forward moves at most one line forward. */
  lemma LineStep(text: string, o: nat)
    requires o < |text|
    ensures LineOf(text, o + 1) == LineOf(text, o) + (if text[o] == '\n' then 1 else 0)
  {
    assert text[..o + 1][..o] == text[..o];
  }

  lemma {:induction false} LineMonotone(text: string, a: nat, b: nat)
    requires a <= b <= |text|
    ensures LineOf(text, a) <= LineOf(text, b)
    decreases b
  {
    if a < b {
      LineStep(text, b - 1);
      LineMonotone(text, a, b - 1);
    }
  }

  /** No line between the lines of two offsets is skipped. */
  lemma {:induction false} LineBetween(text: string, a: nat, b: nat, line: nat) returns (o: nat)
    requires a <= b < |text|
    requires LineOf(text, a) <= line <= LineOf(text, b)
    ensures a <= o <= b && LineOf(text, o) == line
    decreases b
  {
    if LineOf(text, b) == line {
      o := b;
    } else {
      LineStep(text, b - 1);
      o := LineBetween(text, a, b - 1, line);
    }
  }
}
