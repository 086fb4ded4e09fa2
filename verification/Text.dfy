/** The C string work `hosts.c` and `knownhosts.c` share: decimal numbers, lines, fields. */
module Text {
  import opened Bytes

  // --------------------------------------------------------------- numbers --

  predicate IsDigit(b: byte) {
    0x30 <= b <= 0x39
  }

  predicate IsDigits(ds: bytes) {
    ds != [] && forall i :: 0 <= i < |ds| ==> IsDigit(ds[i])
  }

  /** The number the leading digits of `s` spell when `v` was read before them. */
  function Number(v: nat, s: bytes): nat
    decreases |s|
  {
    if s == [] || !IsDigit(s[0]) then v else Number(v * 10 + (s[0] - 0x30), s[1..])
  }

  function Value(ds: bytes): nat {
    Number(0, ds)
  }

  predicate IsSpace(b: byte) {
    b == SPACE || 9 <= b <= 13
  }

  /** `atoi`, unbounded: a C library that saturates gives the same answer to every range
    * check made here. */
  function Atoi(s: bytes): int
    decreases |s|
  {
    if s == [] then 0
    else if IsSpace(s[0]) then Atoi(s[1..])
    else if s[0] == '-' as int then 0 - Value(s[1..])
    else if s[0] == '+' as int then Value(s[1..])
    else Value(s)
  }

  function Decimal(n: nat): (ds: bytes)
    ensures IsDigits(ds)
  {
    if n < 10 then [0x30 + n] else Decimal(n / 10) + [0x30 + n % 10]
  }

  /** `%d`. */
  function PrintInt(n: int): (s: bytes)
    ensures s != [] && forall b :: b in s ==> IsDigit(b) || b == '-' as int
  {
    if n < 0 then ['-' as int] + Decimal(-n) else Decimal(n)
  }

  lemma {:induction false} NumberAppends(v: nat, ds: bytes, d: byte)
    requires (forall i :: 0 <= i < |ds| ==> IsDigit(ds[i])) && IsDigit(d)
    ensures Number(v, ds + [d]) == Number(v, ds) * 10 + (d - 0x30)
    decreases |ds|
  {
    if ds == [] {
      assert ([] + [d])[1..] == [];
    } else {
      assert (ds + [d])[0] == ds[0] && (ds + [d])[1..] == ds[1..] + [d];
      NumberAppends(v * 10 + (ds[0] - 0x30), ds[1..], d);
    }
  }

  lemma {:induction false} NumberConcat(v: nat, a: bytes, b: bytes)
    requires forall i :: 0 <= i < |a| ==> IsDigit(a[i])
    ensures Number(v, a + b) == Number(Number(v, a), b)
    decreases |a|
  {
    if a == [] {
      assert a + b == b;
    } else {
      assert (a + b)[0] == a[0] && (a + b)[1..] == a[1..] + b;
      NumberConcat(v * 10 + (a[0] - 0x30), a[1..], b);
    }
  }

  lemma {:induction false} DecimalValue(n: nat)
    ensures Value(Decimal(n)) == n
  {
    if n < 10 {
      var d: byte := 0x30 + n;
      assert Decimal(n) == [d] && [d][1..] == [];
      assert Number(0, [d]) == Number(n, []) == n;
    } else {
      DecimalValue(n / 10);
      NumberAppends(0, Decimal(n / 10), 0x30 + n % 10);
    }
  }

  /** Every number printed with `%d` is read back by `atoi`. */
  lemma IntRoundTrip(n: int)
    ensures Atoi(PrintInt(n)) == n
  {
    if n < 0 {
      DecimalValue(-n);
      assert PrintInt(n)[1..] == Decimal(-n);
    } else {
      DecimalValue(n);
    }
  }

  /** No number is printed with a zero in front. */
  lemma {:induction false} DecimalIsCanonical(n: nat)
    ensures n > 0 ==> Decimal(n)[0] != 0x30
    ensures n == 0 ==> Decimal(n) == [0x30]
  {
    if n >= 10 {
      DecimalIsCanonical(n / 10);
    }
  }

  lemma {:induction false} NumberStops(v: nat, ds: bytes, junk: bytes)
    requires (forall i :: 0 <= i < |ds| ==> IsDigit(ds[i])) && (junk == [] || !IsDigit(junk[0]))
    ensures Number(v, ds + junk) == Number(v, ds)
    decreases |ds|
  {
    if ds == [] {
      assert ds + junk == junk;
    } else {
      assert (ds + junk)[0] == ds[0] && (ds + junk)[1..] == ds[1..] + junk;
      NumberStops(v * 10 + (ds[0] - 0x30), ds[1..], junk);
    }
  }

  /** `atoi` skips white space, takes a sign, and reads digits up to anything else. */
  lemma {:induction false} AtoiReads(spaces: bytes, sign: bytes, ds: bytes, junk: bytes)
    requires forall b :: b in spaces ==> b == 32 || 9 <= b <= 13
    requires sign == [] || sign == ['+' as int] || sign == ['-' as int]
    requires IsDigits(ds) && (junk == [] || !IsDigit(junk[0]))
    ensures Atoi(spaces + sign + ds + junk) == if sign == ['-' as int] then 0 - Value(ds) else Value(ds)
    decreases |spaces|
  {
    var s := spaces + sign + ds + junk;
    if spaces != [] {
      assert s[0] == spaces[0] && spaces[0] in spaces;
      assert s[1..] == spaces[1..] + sign + ds + junk;
      assert forall b :: b in spaces[1..] ==> b in spaces;
      AtoiReads(spaces[1..], sign, ds, junk);
    } else {
      NumberStops(0, ds, junk);
      if sign == [] {
        assert s == ds + junk && s[0] == ds[0];
      } else {
        assert s[0] == sign[0] && s[1..] == ds + junk;
      }
    }
  }

  /** Without a digit in first place there is no number, and the answer is 0. */
  lemma AtoiOfNone(s: bytes)
    requires s == [] || !(IsSpace(s[0]) || IsDigit(s[0]) || s[0] == '+' as int || s[0] == '-' as int)
    ensures Atoi(s) == 0
  {
  }

  function Pow10(k: nat): nat {
    if k == 0 then 1 else 10 * Pow10(k - 1)
  }

  lemma {:induction false} DecimalLength(n: nat, k: nat)
    requires k >= 1 && n < Pow10(k)
    ensures |Decimal(n)| <= k
    decreases k
  {
    if n >= 10 {
      assert k >= 2;
      DecimalLength(n / 10, k - 1);
    }
  }

  // ----------------------------------------------------------------- lines --

  predicate IsBreak(b: byte) {
    b == LF || b == CR
  }

  /** None of the bytes that end a field or a record. */
  predicate Storable(s: bytes) {
    TAB !in s && CR !in s && LF !in s
  }

  /** A line that starts with it is a comment. */
  const HASH: byte := '#' as int

  predicate NoBreak(s: bytes) {
    forall i :: 0 <= i < |s| ==> !IsBreak(s[i])
  }

  /** A C string ends at its first NUL. */
  function CString(s: bytes): (t: bytes)
    ensures NUL !in t
    decreases |s|
  {
    if s == [] || s[0] == NUL then [] else [s[0]] + CString(s[1..])
  }

  lemma {:induction false} CStringWhole(s: bytes)
    requires NUL !in s
    ensures CString(s) == s
    decreases |s|
  {
    if s != [] {
      assert s[0] in s;
      CStringWhole(s[1..]);
    }
  }

  /** What a buffer holds up to its first NUL. */
  lemma {:induction false} CStringOf(buffer: bytes, t: bytes)
    requires |t| < |buffer| && buffer[..|t|] == t && buffer[|t|] == NUL && NUL !in t
    ensures CString(buffer) == t
    decreases |t|
  {
    if t != [] {
      assert buffer[0] == t[0] && t[0] in t;
      assert buffer[1..][..|t| - 1] == buffer[..|t|][1..] == t[1..];
      CStringOf(buffer[1..], t[1..]);
    }
  }

  function LineEnd(text: bytes, at: nat): (end: nat)
    requires at <= |text|
    ensures at <= end <= |text|
    decreases |text| - at
  {
    if at == |text| || IsBreak(text[at]) then at else LineEnd(text, at + 1)
  }

  function SkipBreaks(text: bytes, at: nat): (next: nat)
    requires at <= |text|
    ensures at <= next <= |text|
    decreases |text| - at
  {
    if at == |text| || !IsBreak(text[at]) then at else SkipBreaks(text, at + 1)
  }

  lemma {:induction false} LineEndStops(text: bytes, at: nat)
    requires at <= |text|
    ensures NoBreak(text[at..LineEnd(text, at)])
    ensures LineEnd(text, at) < |text| ==> IsBreak(text[LineEnd(text, at)])
    decreases |text| - at
  {
    if at < |text| && !IsBreak(text[at]) {
      LineEndStops(text, at + 1);
      assert text[at..LineEnd(text, at)] == [text[at]] + text[at + 1..LineEnd(text, at + 1)];
    }
  }

  /** The lines from `at` on, as both parsers walk them: a run of breaks ends one line. */
  function LinesFrom(text: bytes, at: nat): seq<bytes>
    requires at <= |text|
    decreases |text| - at
  {
    if at == |text| then [] else
    var end := LineEnd(text, at);
    [text[at..end]] + LinesFrom(text, SkipBreaks(text, end))
  }

  function Lines(text: bytes): seq<bytes> {
    LinesFrom(text, 0)
  }

  lemma {:induction false} LineEndShift(a: bytes, b: bytes, at: nat)
    requires at <= |b|
    ensures LineEnd(a + b, |a| + at) == |a| + LineEnd(b, at)
    decreases |b| - at
  {
    if at < |b| {
      LineEndShift(a, b, at + 1);
    }
  }

  lemma {:induction false} SkipBreaksShift(a: bytes, b: bytes, at: nat)
    requires at <= |b|
    ensures SkipBreaks(a + b, |a| + at) == |a| + SkipBreaks(b, at)
    decreases |b| - at
  {
    if at < |b| {
      SkipBreaksShift(a, b, at + 1);
    }
  }

  lemma ShiftedSlice(a: bytes, b: bytes, i: nat, j: nat)
    requires i <= j <= |b|
    ensures (a + b)[|a| + i..|a| + j] == b[i..j]
  {
  }

  lemma LinesStep(text: bytes, at: nat, end: nat, next: nat, line: bytes, rest: seq<bytes>)
    requires LineIs(text, at, end, next, line) && LinesFrom(text, next) == rest
    ensures LinesFrom(text, at) == [line] + rest
  {
  }

  /** The first line from `at` on, and where the next one starts. */
  predicate LineIs(text: bytes, at: nat, end: nat, next: nat, line: bytes) {
    && at < |text| && end == LineEnd(text, at) && next == SkipBreaks(text, end) && line == text[at..end]
  }

  lemma LineShift(a: bytes, b: bytes, at: nat, end: nat, next: nat, line: bytes)
    requires LineIs(b, at, end, next, line)
    ensures LineIs(a + b, |a| + at, |a| + end, |a| + next, line)
  {
    LineEndShift(a, b, at);
    SkipBreaksShift(a, b, end);
    ShiftedSlice(a, b, at, end);
  }

  lemma LinesStepShift(a: bytes, b: bytes, at: nat, end: nat, next: nat, line: bytes)
    requires LineIs(b, at, end, next, line) && LinesFrom(a + b, |a| + next) == LinesFrom(b, next)
    ensures LinesFrom(a + b, |a| + at) == LinesFrom(b, at)
  {
    var rest := LinesFrom(b, next);
    LineShift(a, b, at, end, next, line);
    LinesStep(b, at, end, next, line, rest);
    LinesStep(a + b, |a| + at, |a| + end, |a| + next, line, rest);
  }

  lemma {:induction false} LinesFromShift(a: bytes, b: bytes, at: nat)
    requires at <= |b|
    ensures LinesFrom(a + b, |a| + at) == LinesFrom(b, at)
    decreases |b| - at
  {
    if at < |b| {
      var end := LineEnd(b, at);
      var next := SkipBreaks(b, end);
      LinesFromShift(a, b, next);
      LinesStepShift(a, b, at, end, next, b[at..end]);
    }
  }

  lemma {:induction false} LineEndFound(text: bytes, at: nat, end: nat)
    requires at <= end < |text| && NoBreak(text[at..end]) && IsBreak(text[end])
    ensures LineEnd(text, at) == end
    decreases end - at
  {
    if at < end {
      assert text[at] == text[at..end][0];
      assert text[at + 1..end] == text[at..end][1..];
      LineEndFound(text, at + 1, end);
    }
  }

  lemma {:induction false} SkipBreaksFound(text: bytes, at: nat, end: nat)
    requires at <= end <= |text| && forall i :: at <= i < end ==> text[i] == 10 || text[i] == 13
    requires end == |text| || (text[end] != 10 && text[end] != 13)
    ensures SkipBreaks(text, at) == end
    decreases end - at
  {
    if at < end {
      SkipBreaksFound(text, at + 1, end);
    }
  }

  lemma BreaksInPlace(line: bytes, breaks: bytes, rest: bytes, i: nat)
    requires i < |breaks| && forall b :: b in breaks ==> b == 10 || b == 13
    ensures var text := line + breaks + rest; text[|line| + i] == 10 || text[|line| + i] == 13
  {
    assert (line + breaks + rest)[|line| + i] == breaks[i] && breaks[i] in breaks;
  }

  /** `text` is a line up to `end`, breaks up to `next`, and no break there. */
  predicate LineThenBreaks(text: bytes, end: nat, next: nat) {
    && end < next <= |text| && NoBreak(text[0..end])
    && (forall i :: end <= i < next ==> text[i] == 10 || text[i] == 13)
    && (next < |text| ==> text[next] != 10 && text[next] != 13)
  }

  lemma Assembled(line: bytes, breaks: bytes, rest: bytes)
    requires NoBreak(line) && breaks != [] && forall b :: b in breaks ==> b == 10 || b == 13
    requires rest == [] || (rest[0] != 10 && rest[0] != 13)
    ensures var text := line + breaks + rest;
      LineThenBreaks(text, |line|, |line| + |breaks|) && text[0..|line|] == line
  {
    var text, end := line + breaks + rest, |line| + |breaks|;
    assert text[0..|line|] == line;
    forall i | |line| <= i < end
      ensures text[i] == 10 || text[i] == 13
    {
      BreaksInPlace(line, breaks, rest, i - |line|);
    }
    assert end < |text| ==> text[end] == rest[0];
  }

  lemma LineFound(text: bytes, end: nat, next: nat)
    requires LineThenBreaks(text, end, next)
    ensures LineEnd(text, 0) == end && SkipBreaks(text, end) == next
  {
    LineEndFound(text, 0, end);
    SkipBreaksFound(text, end, next);
  }

  /** A line ended by any run of line feeds and carriage returns, in front of text that starts
    * with neither, is the first line. */
  lemma FirstLine(line: bytes, breaks: bytes, rest: bytes)
    requires NoBreak(line) && breaks != [] && forall b :: b in breaks ==> b == 10 || b == 13
    requires rest == [] || (rest[0] != 10 && rest[0] != 13)
    ensures Lines(line + breaks + rest) == [line] + Lines(rest)
  {
    Assembled(line, breaks, rest);
    LineFound(line + breaks + rest, |line|, |line| + |breaks|);
    LinesFromShift(line + breaks, rest, 0);
  }

  /** The last line needs no end. */
  lemma LastLine(line: bytes)
    requires NoBreak(line)
    ensures Lines(line) == if line == [] then [] else [line]
  {
    LineEndAtEnd(line, 0);
    assert line[0..|line|] == line && LinesFrom(line, |line|) == [] && [line] + [] == [line];
  }

  lemma {:induction false} LineEndAtEnd(line: bytes, at: nat)
    requires NoBreak(line) && at <= |line|
    ensures LineEnd(line, at) == |line|
    decreases |line| - at
  {
    if at < |line| {
      LineEndAtEnd(line, at + 1);
    }
  }

  // ---------------------------------------------------------------- fields --

  /** Index of the first `b`, or the length. */
  function FindByte(s: bytes, b: byte): (i: nat)
    ensures i <= |s|
    decreases |s|
  {
    if s == [] || s[0] == b then 0 else FindByte(s[1..], b) + 1
  }

  lemma {:induction false} FindByteIsFirst(s: bytes, b: byte)
    ensures FindByte(s, b) < |s| ==> s[FindByte(s, b)] == b
    ensures b !in s[..FindByte(s, b)]
    decreases |s|
  {
    if s != [] && s[0] != b {
      FindByteIsFirst(s[1..], b);
      var i := FindByte(s[1..], b);
      assert s[..i + 1] == [s[0]] + s[1..][..i];
    }
  }

  /** At most `max` fields between tabs; the last takes whatever is left. */
  function Split(line: bytes, max: nat): (fields: seq<bytes>)
    requires max >= 1
    ensures 1 <= |fields| <= max
    decreases max
  {
    var i := FindByte(line, TAB);
    if max == 1 || i == |line| then [line] else [line[..i]] + Split(line[i + 1..], max - 1)
  }

  lemma {:induction false} FindByteAfter(a: bytes, b: byte, rest: bytes)
    requires b !in a
    ensures FindByte(a + [b] + rest, b) == |a|
    decreases |a|
  {
    if a != [] {
      assert a[0] in a;
      assert (a + [b] + rest)[1..] == a[1..] + [b] + rest;
      FindByteAfter(a[1..], b, rest);
    }
  }

  lemma SplitFirst(a: bytes, rest: bytes, max: nat)
    requires TAB !in a && max >= 2
    ensures Split(a + [TAB] + rest, max) == [a] + Split(rest, max - 1)
  {
    FindByteAfter(a, TAB, rest);
    assert (a + [TAB] + rest)[..|a|] == a && (a + [TAB] + rest)[|a| + 1..] == rest;
  }

  lemma {:induction false} FindByteAbsent(s: bytes, b: byte)
    requires b !in s
    ensures FindByte(s, b) == |s|
    decreases |s|
  {
    if s != [] {
      assert s[0] in s;
      FindByteAbsent(s[1..], b);
    }
  }

  function JoinTabs(fields: seq<bytes>): bytes
    requires fields != []
  {
    if |fields| == 1 then fields[0] else fields[0] + [TAB] + JoinTabs(fields[1..])
  }

  lemma {:induction false} SplitJoin(fields: seq<bytes>, max: nat)
    requires 1 <= |fields| <= max && forall i :: 0 <= i < |fields| ==> TAB !in fields[i]
    ensures Split(JoinTabs(fields), max) == fields
    decreases |fields|
  {
    if |fields| == 1 {
      FindByteAbsent(fields[0], TAB);
      assert fields == [fields[0]];
    } else {
      var first, rest := fields[0], fields[1..];
      SplitJoin(rest, max - 1);
      SplitFirst(first, JoinTabs(rest), max);
      assert fields == [first] + rest;
    }
  }

  lemma SixJoined(a: bytes, b: bytes, c: bytes, d: bytes, e: bytes, f: bytes)
    ensures JoinTabs([a, b, c, d, e, f]) == a + [TAB] + b + [TAB] + c + [TAB] + d + [TAB] + e + [TAB] + f
  {
    ThreeJoined(d, e, f);
    var abc, rest := [a, b, c], [d, e, f];
    assert [a, b, c, d, e, f][1..] == [b, c, d, e, f] && [b, c, d, e, f][1..] == [c, d, e, f];
    assert [c, d, e, f][1..] == rest;
    assert JoinTabs([c, d, e, f]) == c + [TAB] + JoinTabs(rest);
    assert JoinTabs([b, c, d, e, f]) == b + [TAB] + JoinTabs([c, d, e, f]);
    assert JoinTabs([a, b, c, d, e, f]) == a + [TAB] + JoinTabs([b, c, d, e, f]);
  }

  lemma ThreeJoined(a: bytes, b: bytes, c: bytes)
    ensures JoinTabs([a, b, c]) == a + [TAB] + b + [TAB] + c
  {
    assert [a, b, c][1..] == [b, c] && [b, c][1..] == [c];
    assert JoinTabs([b, c]) == b + [TAB] + c;
  }

  lemma FirstOfMore(f: bytes, more: bytes, max: nat)
    requires TAB !in f && (more == [] || more[0] == TAB) && max >= 2
    ensures Split(f + more, max)[0] == f
  {
    if more == [] {
      assert f + more == f;
      FindByteAbsent(f, TAB);
    } else {
      assert f + more == f + [TAB] + more[1..];
      SplitFirst(f, more[1..], max);
    }
  }

  /** `found` starts with `fields`. */
  predicate StartsWith(found: seq<bytes>, fields: seq<bytes>) {
    |found| >= |fields| && forall i :: 0 <= i < |fields| ==> found[i] == fields[i]
  }

  lemma StartsWithMore(first: bytes, found: seq<bytes>, rest: seq<bytes>)
    requires StartsWith(found, rest)
    ensures StartsWith([first] + found, [first] + rest)
  {
  }

  lemma JoinFirst(first: bytes, rest: seq<bytes>, more: bytes)
    requires rest != []
    ensures JoinTabs([first] + rest) + more == first + [TAB] + (JoinTabs(rest) + more)
  {
    assert ([first] + rest)[1..] == rest;
    ConcatAssociates(first + [TAB], JoinTabs(rest), more);
  }

  /** The first fields of a line, with or without more after them. */
  lemma {:induction false} SplitJoinMore(fields: seq<bytes>, more: bytes, max: nat)
    requires 1 <= |fields| < max && forall i :: 0 <= i < |fields| ==> TAB !in fields[i]
    requires more == [] || more[0] == TAB
    ensures StartsWith(Split(JoinTabs(fields) + more, max), fields)
    decreases |fields|
  {
    if |fields| == 1 {
      FirstOfMore(fields[0], more, max);
    } else {
      var first, rest := fields[0], fields[1..];
      var tail := JoinTabs(rest) + more;
      SplitJoinMore(rest, more, max - 1);
      SplitFirst(first, tail, max);
      StartsWithMore(first, Split(tail, max - 1), rest);
      assert fields == [first] + rest;
      JoinFirst(first, rest, more);
    }
  }

  lemma {:induction false} JoinedBytes(fields: seq<bytes>, b: byte)
    requires fields != [] && b != TAB && forall i :: 0 <= i < |fields| ==> b !in fields[i]
    ensures b !in JoinTabs(fields)
    decreases |fields|
  {
    if |fields| > 1 {
      JoinedBytes(fields[1..], b);
    }
  }

  lemma NoBreakBytes(s: bytes)
    requires LF !in s && CR !in s
    ensures NoBreak(s)
  {
    forall i | 0 <= i < |s|
      ensures !IsBreak(s[i])
    {
      assert s[i] in s;
    }
  }

  function CopyField(from: bytes, size: nat): (to: bytes)
    requires size >= 1
    ensures |to| < size && to <= from
  {
    from[..Min(|from|, size - 1)]
  }

  /** `LineEnd` and `SkipBreaks` as the parsers find them. */
  method ScanLine(text: bytes, line: nat) returns (end: nat, next: nat)
    requires line < |text|
    ensures end == LineEnd(text, line) && next == SkipBreaks(text, end)
    ensures line < next <= |text|
  {
    end := line;
    while end < |text| && text[end] != LF && text[end] != CR
      invariant line <= end <= |text| && LineEnd(text, end) == LineEnd(text, line)
    {
      end := end + 1;
    }
    next := end;
    while next < |text| && (text[next] == LF || text[next] == CR)
      invariant end <= next <= |text| && SkipBreaks(text, next) == SkipBreaks(text, end)
    {
      next := next + 1;
    }
  }

  /** `split`: one pass over the line, cutting at tabs. */
  method SplitFields(line: bytes, max: nat) returns (fields: seq<bytes>)
    requires max >= 1
    ensures fields == Split(line, max)
  {
    var start, at := 0, 0;
    fields := [];
    assert line[0..] == line;
    while at < |line| && |fields| + 1 < max
      invariant 0 <= start <= at <= |line| && |fields| + 1 <= max && TAB !in line[start..at]
      invariant SplitResumes(line, max, fields, start)
    {
      if line[at] == TAB {
        SplitResumesAt(line, max, fields, start, at);
        fields := fields + [line[start..at]];
        start := at + 1;
      } else {
        assert line[start..at + 1] == line[start..at] + [line[at]];
      }
      at := at + 1;
    }
    if at == |line| {
      assert line[start..at] == line[start..];
      FindByteAbsent(line[start..], TAB);
    }
    fields := fields + [line[start..]];
  }

  /** `fields` is what splitting has found before `start`. */
  predicate SplitResumes(line: bytes, max: nat, fields: seq<bytes>, start: nat) {
    start <= |line| && |fields| < max && fields + Split(line[start..], max - |fields|) == Split(line, max)
  }

  lemma CutAt(line: bytes, start: nat, at: nat)
    requires start <= at < |line| && line[at] == TAB
    ensures line[start..] == line[start..at] + [TAB] + line[at + 1..]
  {
  }

  lemma SplitResumesAt(line: bytes, max: nat, fields: seq<bytes>, start: nat, at: nat)
    requires SplitResumes(line, max, fields, start) && |fields| + 1 < max
    requires start <= at < |line| && line[at] == TAB && TAB !in line[start..at]
    ensures SplitResumes(line, max, fields + [line[start..at]], at + 1)
  {
    var field, rest := line[start..at], line[at + 1..];
    CutAt(line, start, at);
    SplitFirst(field, rest, max - |fields|);
    ConcatAssociates(fields, [field], Split(rest, max - |fields| - 1));
  }

  /** `all` is `before` and as many of `more` as there is room for. */
  predicate Filled<T(==)>(all: seq<T>, before: seq<T>, more: seq<T>, room: int)
    requires |before| <= room
  {
    all == before + more[..Min(|more|, room - |before|)]
  }

  lemma FilledOneMore<T>(all: seq<T>, before: seq<T>, x: T, more: seq<T>, room: int)
    requires |before| < room && Filled(all, before + [x], more, room)
    ensures Filled(all, before, [x] + more, room)
  {
    var n := Min(|more|, room - |before| - 1);
    assert ([x] + more)[..n + 1] == [x] + more[..n];
  }

  lemma FilledUp<T>(all: seq<T>, before: seq<T>, x: T, more: seq<T>, room: int)
    requires |before| == room && Filled(all, before, more, room)
    ensures Filled(all, before, [x] + more, room)
  {
  }
}
