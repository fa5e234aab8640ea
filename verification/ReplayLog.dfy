/** The append-only query log that rotates into shards once a file is full. */
module ReplayLogs {
  import opened Prelude

  /** Bytes as characters: a record is JSON escaped to ASCII, so its length is its size. */
  type Line = string

  datatype Log = Log(shards: seq<string>, active: string)

  function Encoded(line: Line): string { line + "\n" }

  predicate Overflows(active: string, line: Line, maxBytes: int) {
    maxBytes > 0 && |active| + |Encoded(line)| > maxBytes
  }

  /** `record`: rotate first if the line would not fit, then append. */
  function Recorded(log: Log, line: Line, maxBytes: int): Log {
    if Overflows(log.active, line, maxBytes) then Log(log.shards + [log.active], Encoded(line))
    else log.(active := log.active + Encoded(line))
  }

  function RecordedAll(log: Log, lines: seq<Line>, maxBytes: int): Log {
    if lines == [] then log else Recorded(RecordedAll(log, lines[..|lines| - 1], maxBytes), lines[|lines| - 1], maxBytes)
  }

  // ---------------------------------------------------------------- shard names

  /** A shard name: a time stamp and, when that name is taken, a counter. */
  datatype Name = Name(stamp: string, counter: nat)

  class ReplayLog {
    const maxBytes: int
    var active: string
    /** Shards in rotation order, with the names they got, and all file names taken. */
    var shards: seq<string>
    var names: seq<Name>
    var taken: set<Name>

    ghost predicate Valid() reads this {
      |names| == |shards| && (forall i :: 0 <= i < |names| ==> names[i] in taken)
      && forall i, j :: 0 <= i < j < |names| ==> names[i] != names[j]
    }

    ghost function Value(): Log reads this { Log(shards, active) }

    /** Opens on whatever the file already holds. */
    constructor (maxBytes: int, existing: string, taken: set<Name>)
      ensures Valid() && Value() == Log([], existing) && this.maxBytes == maxBytes && this.taken == taken
    {
      this.maxBytes, active := maxBytes, existing;
      shards, names, this.taken := [], [], taken;
    }

    method Record(line: Line, stamp: string)
      requires Valid()
      modifies this
      ensures Valid()
      ensures Value() == Recorded(old(Value()), line, maxBytes)
      ensures old(names) <= names && old(taken) <= taken
      ensures forall i :: |old(names)| <= i < |names| ==> names[i] !in old(taken)
    {
      var encoded := Encoded(line);
      if maxBytes > 0 && |active| + |encoded| > maxBytes {
        Rotate(stamp);
      }
      active := active + encoded;
    }

    method Rotate(stamp: string)
      requires Valid()
      modifies this
      ensures Valid()
      ensures shards == old(shards) + [old(active)] && active == ""
      ensures |names| == |old(names)| + 1 && old(names) <= names && names[|old(names)|] !in old(taken)
      ensures taken == old(taken) + {names[|old(names)|]}
    {
      var name := FreeName(stamp, taken);
      names, taken := names + [name], taken + {name};
      shards, active := shards + [active], "";
    }
  }

  /** The walk to a free name ends, at the first free one. */
  method FreeName(stamp: string, taken: set<Name>) returns (name: Name)
    ensures name !in taken && name.stamp == stamp
    ensures forall c: nat :: c < name.counter ==> Name(stamp, c) in taken
  {
    name := Name(stamp, 0);
    ghost var ahead := taken;
    while name in taken
      invariant name.stamp == stamp
      invariant forall c: nat :: c < name.counter ==> Name(stamp, c) in taken
      invariant forall n :: n in ahead <==> n in taken && !(n.stamp == stamp && n.counter < name.counter)
      decreases ahead
    {
      ahead := ahead - {name};
      name := Name(stamp, name.counter + 1);
    }
  }

  // ---------------------------------------------------------------- conservation

  function Concat(parts: seq<string>): string {
    if parts == [] then "" else Concat(parts[..|parts| - 1]) + parts[|parts| - 1]
  }

  function EncodedAll(lines: seq<Line>): string {
    if lines == [] then "" else EncodedAll(lines[..|lines| - 1]) + Encoded(lines[|lines| - 1])
  }

  /** How lines fall into files: a partition of the recorded lines, one part per file, in order. */
  ghost predicate Splits(parts: seq<seq<Line>>, lines: seq<Line>) {
    parts != [] && lines == Flat(parts)
  }

  function Flat(parts: seq<seq<Line>>): seq<Line> {
    if parts == [] then [] else Flat(parts[..|parts| - 1]) + parts[|parts| - 1]
  }

  function Files(log: Log): seq<string> { log.shards + [log.active] }

  /** File `i` holds its part of the lines whole, the first one behind what the log was opened on. */
  ghost predicate HoldsWhole(log: Log, parts: seq<seq<Line>>, existing: string) {
    && |Files(log)| == |parts|
    && forall i :: 0 <= i < |parts| ==> Files(log)[i] == (if i == 0 then existing else "") + EncodedAll(parts[i])
  }

  /** Every file started since the log was opened fits, or holds one record that is too large for any file;
      the file it was opened on outgrows neither the limit nor its old size. */
  ghost predicate Bounded(log: Log, parts: seq<seq<Line>>, existing: string, maxBytes: int) {
    && |Files(log)| == |parts| > 0
    && |Files(log)[0]| <= Max(maxBytes, |existing|)
    && forall i :: 0 < i < |parts| ==> |Files(log)[i]| <= maxBytes || |parts[i]| == 1
  }

  /** The parts after one more record. */
  function Extended(log: Log, parts: seq<seq<Line>>, line: Line, maxBytes: int): seq<seq<Line>> {
    if parts == [] || Overflows(log.active, line, maxBytes) then parts + [[line]] else parts[|parts| - 1 := parts[|parts| - 1] + [line]]
  }

  lemma FlatExtends(log: Log, parts: seq<seq<Line>>, line: Line, maxBytes: int)
    requires parts != []
    ensures Flat(Extended(log, parts, line, maxBytes)) == Flat(parts) + [line]
    ensures Extended(log, parts, line, maxBytes) != []
  {
    var n := |parts| - 1;
    assert parts[n := parts[n] + [line]][..n] == parts[..n];
    assert (parts + [[line]])[..|parts|] == parts;
  }

  lemma EncodedSnoc(lines: seq<Line>, line: Line)
    ensures EncodedAll(lines + [line]) == EncodedAll(lines) + Encoded(line)
    ensures EncodedAll([]) == ""
  {
    assert (lines + [line])[..|lines|] == lines;
  }

  lemma FilesExtend(log: Log, line: Line, maxBytes: int)
    ensures var next := Files(Recorded(log, line, maxBytes));
            next == if Overflows(log.active, line, maxBytes) then Files(log) + [Encoded(line)]
                    else Files(log)[|Files(log)| - 1 := log.active + Encoded(line)]
  {
  }

  lemma ConcatExtends(log: Log, line: Line, maxBytes: int)
    ensures Concat(Files(Recorded(log, line, maxBytes))) == Concat(Files(log)) + Encoded(line)
  {
    var files := Files(log);
    FilesExtend(log, line, maxBytes);
    assert (files + [Encoded(line)])[..|files|] == files;
    assert files[|files| - 1 := log.active + Encoded(line)][..|files| - 1] == files[..|files| - 1];
  }

  lemma WholeExtends(log: Log, parts: seq<seq<Line>>, existing: string, line: Line, maxBytes: int)
    requires HoldsWhole(log, parts, existing)
    ensures HoldsWhole(Recorded(log, line, maxBytes), Extended(log, parts, line, maxBytes), existing)
  {
    FilesExtend(log, line, maxBytes);
    EncodedSnoc([], line);
    EncodedSnoc(parts[|parts| - 1], line);
    assert Files(log)[|parts| - 1] == log.active;
    hide EncodedAll, Encoded, Recorded, Overflows, Files;
    assert [] + [line] == [line];
    var n := |parts| - 1;
    Joined(if n == 0 then existing else "", EncodedAll(parts[n]), Encoded(line));
  }

  lemma BoundExtends(log: Log, parts: seq<seq<Line>>, existing: string, line: Line, maxBytes: int)
    requires Bounded(log, parts, existing, maxBytes) && maxBytes > 0
    ensures Bounded(Recorded(log, line, maxBytes), Extended(log, parts, line, maxBytes), existing, maxBytes)
  {
    FilesExtend(log, line, maxBytes);
    hide Encoded, Recorded;
  }

  /** Shards in rotation order and then the active file are what the log was opened on followed by every recorded
      line in order; no line is split between files; files stay within the limit, and none is closed early. */
  ghost predicate Conserved(log: Log, parts: seq<seq<Line>>, existing: string, lines: seq<Line>, maxBytes: int) {
    && Concat(Files(log)) == existing + EncodedAll(lines)
    && Splits(parts, lines)
    && HoldsWhole(log, parts, existing)
    && (maxBytes > 0 ==> Bounded(log, parts, existing, maxBytes))
    && Tight(log, parts, maxBytes)
  }

  lemma RecordConserves(log: Log, parts: seq<seq<Line>>, existing: string, lines: seq<Line>, line: Line, maxBytes: int)
    requires Conserved(log, parts, existing, lines, maxBytes)
    ensures Conserved(Recorded(log, line, maxBytes), Extended(log, parts, line, maxBytes), existing, lines + [line], maxBytes)
  {
    hide Concat, HoldsWhole, Bounded, Tight, Extended, Recorded, Flat, Encoded, Files, EncodedAll;
    FlatExtends(log, parts, line, maxBytes);
    ConcatExtends(log, line, maxBytes);
    WholeExtends(log, parts, existing, line, maxBytes);
    TightExtends(log, parts, line, maxBytes);
    if maxBytes > 0 {
      BoundExtends(log, parts, existing, line, maxBytes);
    }
    EncodedSnoc(lines, line);
    Joined(existing, EncodedAll(lines), Encoded(line));
  }

  /** A file is closed only when the next line would not have fit: no two neighbours could have been one. */
  ghost predicate Tight(log: Log, parts: seq<seq<Line>>, maxBytes: int) {
    && |Files(log)| == |parts|
    && (forall i :: 0 < i < |parts| ==> parts[i] != [])
    && forall i :: 0 < i < |parts| ==> maxBytes > 0 && |Files(log)[i - 1]| + |parts[i][0]| + 1 > maxBytes
  }

  lemma TightExtends(log: Log, parts: seq<seq<Line>>, line: Line, maxBytes: int)
    requires Tight(log, parts, maxBytes) && parts != []
    ensures Tight(Recorded(log, line, maxBytes), Extended(log, parts, line, maxBytes), maxBytes)
  {
    FilesExtend(log, line, maxBytes);
    hide Recorded, Files;
    var files, more := Files(log), Files(Recorded(log, line, maxBytes));
    assert files[|files| - 1] == log.active by {
      ActiveIsLast(log);
    }
    forall i | 0 < i < |Extended(log, parts, line, maxBytes)|
      ensures Extended(log, parts, line, maxBytes)[i] != []
      ensures maxBytes > 0 && |more[i - 1]| + |Extended(log, parts, line, maxBytes)[i][0]| + 1 > maxBytes
    {
      if i < |parts| {
        assert more[i - 1] == files[i - 1];
        assert parts[i] != [];
        assert Extended(log, parts, line, maxBytes)[i][0] == parts[i][0];
      }
    }
  }

  lemma ActiveIsLast(log: Log)
    ensures Files(log)[|Files(log)| - 1] == log.active
  {
  }

  lemma Joined(a: string, b: string, c: string)
    ensures a + b + c == a + (b + c)
  {
  }

  lemma NothingConserves(existing: string, maxBytes: int)
    ensures Conserved(Log([], existing), [[]], existing, [], maxBytes)
  {
    assert Files(Log([], existing)) == [existing];
  }

  /** Over any run of records the log is conserved. */
  lemma {:induction false} LogConserves(existing: string, lines: seq<Line>, maxBytes: int) returns (parts: seq<seq<Line>>)
    ensures Conserved(RecordedAll(Log([], existing), lines, maxBytes), parts, existing, lines, maxBytes)
    decreases |lines|
  {
    hide Conserved, Recorded;
    if lines == [] {
      parts := [[]];
      NothingConserves(existing, maxBytes);
    } else {
      var k := |lines| - 1;
      var before := LogConserves(existing, lines[..k], maxBytes);
      var log := RecordedAll(Log([], existing), lines[..k], maxBytes);
      RecordConserves(log, before, existing, lines[..k], lines[k], maxBytes);
      assert lines == lines[..k] + [lines[k]];
      parts := Extended(log, before, lines[k], maxBytes);
    }
  }

  // ---------------------------------------------------------------- how shards list

  function Digits(n: nat): string {
    if n < 10 then [('0' as int + n) as char] else Digits(n / 10) + [('0' as int + n % 10) as char]
  }

  /** The file name of a shard; `suffix` is the rest of the log's own name, from its first dot on. */
  function FileName(stem: string, name: Name, suffix: string): string {
    stem + "-" + name.stamp + Tail(name, suffix)
  }

  predicate LexLess(a: string, b: string) {
    if b == "" then false
    else if a == "" then true
    else a[0] < b[0] || (a[0] == b[0] && LexLess(a[1..], b[1..]))
  }

  lemma {:induction false} LexSamePrefix(p: string, a: string, b: string)
    ensures LexLess(p + a, p + b) == LexLess(a, b)
    decreases |p|
  {
    if p == "" {
      assert p + a == a && p + b == b;
    } else {
      assert (p + a)[1..] == p[1..] + a && (p + b)[1..] == p[1..] + b;
      LexSamePrefix(p[1..], a, b);
    }
  }

  lemma {:induction false} LexDecided(a: string, b: string, x: string, y: string)
    requires |a| == |b| && LexLess(a, b)
    ensures LexLess(a + x, b + y)
    decreases |a|
  {
    assert (a + x)[1..] == a[1..] + x && (b + y)[1..] == b[1..] + y;
    if a[0] == b[0] {
      LexDecided(a[1..], b[1..], x, y);
    }
  }

  /** What a name adds behind the time stamp. */
  function Tail(name: Name, suffix: string): string {
    (if name.counter == 0 then "" else "-" + Digits(name.counter)) + suffix + ".gz"
  }

  /** A shard lists after one rotated before it if and only if their time stamps differ, or both carry counters and these
      sort as texts in the order they were counted. */
  lemma ListingOrderExact(stem: string, suffix: string, first: Name, second: Name)
    requires suffix != "" && suffix[0] == '.'
    requires |first.stamp| == |second.stamp|
    requires LexLess(first.stamp, second.stamp) || (first.stamp == second.stamp && first.counter < second.counter)
    ensures LexLess(FileName(stem, first, suffix), FileName(stem, second, suffix))
            <==> || first.stamp != second.stamp
                 || (first.counter >= 1 && LexLess(Digits(first.counter), Digits(second.counter)))
  {
    var x, y := Tail(first, suffix), Tail(second, suffix);
    if first.stamp == second.stamp {
      LexSamePrefix(stem + "-" + first.stamp, x, y);
      LexIrreflexive(first.stamp);
      var rest := suffix + ".gz";
      if first.counter == 0 {
        assert x[0] == '.' && y[0] == '-';
      } else {
        var a, b := Digits(first.counter), Digits(second.counter);
        assert x == "-" + (a + rest) && y == "-" + (b + rest);
        LexSamePrefix("-", a + rest, b + rest);
        CountersDiffer(first.counter, second.counter);
        LexBeforeDot(a, b, rest);
      }
    } else {
      LexSamePrefix(stem + "-", first.stamp, second.stamp);
      LexDecided(stem + "-" + first.stamp, stem + "-" + second.stamp, x, y);
    }
  }

  predicate AllDigits(s: string) {
    forall i :: 0 <= i < |s| ==> '0' <= s[i] <= '9'
  }

  /** Digits sort the same with a dot and more behind them: the dot comes before every digit. */
  lemma {:induction false} LexBeforeDot(a: string, b: string, rest: string)
    requires AllDigits(a) && AllDigits(b) && a != b && rest != "" && rest[0] == '.'
    ensures LexLess(a + rest, b + rest) <==> LexLess(a, b)
    decreases |a|
  {
    if a == "" {
      assert a + rest == rest && (b + rest)[0] == b[0];
    } else if b == "" {
      assert b + rest == rest && (a + rest)[0] == a[0];
    } else {
      assert (a + rest)[1..] == a[1..] + rest && (b + rest)[1..] == b[1..] + rest;
      if a[0] == b[0] {
        assert a == [a[0]] + a[1..] && b == [b[0]] + b[1..];
        LexBeforeDot(a[1..], b[1..], rest);
      }
    }
  }

  function Value(s: string): int {
    if s == "" then 0 else 10 * Value(s[..|s| - 1]) + (s[|s| - 1] as int - '0' as int)
  }

  lemma {:induction false} DigitsValue(n: nat)
    ensures AllDigits(Digits(n)) && Digits(n) != "" && Value(Digits(n)) == n
    decreases n
  {
    if n >= 10 {
      DigitsValue(n / 10);
      assert Digits(n)[..|Digits(n)| - 1] == Digits(n / 10);
    } else {
      assert Digits(n)[..0] == "";
    }
  }

  lemma CountersDiffer(a: nat, b: nat)
    requires a < b
    ensures Digits(a) != Digits(b) && AllDigits(Digits(a)) && AllDigits(Digits(b))
  {
    DigitsValue(a);
    DigitsValue(b);
  }

  /** Counters of the same width list in order; so the first break is from 9 to 10. */
  lemma {:induction false} SameWidthInOrder(a: nat, b: nat)
    requires a < b && |Digits(a)| == |Digits(b)|
    ensures LexLess(Digits(a), Digits(b))
    decreases b
  {
    if b >= 10 {
      WideEnough(a);
      var x, y := [('0' as int + a % 10) as char], [('0' as int + b % 10) as char];
      if a / 10 == b / 10 {
        LexSamePrefix(Digits(a / 10), x, y);
        assert LexLess(x, y);
      } else {
        SameWidthInOrder(a / 10, b / 10);
        LexDecided(Digits(a / 10), Digits(b / 10), x, y);
      }
    }
  }

  lemma WideEnough(a: nat)
    ensures |Digits(a)| > 1 ==> a >= 10
  {
  }

  lemma NineThenTen()
    ensures !LexLess(Digits(9), Digits(10)) && LexLess(Digits(1), Digits(2)) && LexLess(Digits(1), Digits(10))
  {
    assert Digits(1) == "1" && Digits(2) == "2" && Digits(9) == "9";
    assert Digits(10) == Digits(1) + "0" == "10";
    assert "1"[1..] == "" && "10"[1..] == "0";
  }

  lemma {:induction false} LexIrreflexive(a: string)
    ensures !LexLess(a, a)
    decreases |a|
  {
    if a != "" {
      LexIrreflexive(a[1..]);
    }
  }
}
