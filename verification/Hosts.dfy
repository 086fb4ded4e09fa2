/** The saved servers of `src/psp/hosts.c` as values: records, and the text they are kept in. */
module Hosts {
  import opened Bytes
  import opened Text

  const HOSTS_MAX := 24
  const NAME_LEN := 24
  const ADDRESS_LEN := 96
  const USER_LEN := 32
  const PASSWORD_LEN := 64

  datatype Host = Host(name: bytes, address: bytes, user: bytes, password: bytes, port: int, profile: int) {
    /** The fields fit their arrays and are C strings. */
    predicate WellFormed() {
      && |name| < NAME_LEN && |address| < ADDRESS_LEN && |user| < USER_LEN && |password| < PASSWORD_LEN
      && NUL !in name && NUL !in address && NUL !in user && NUL !in password
    }

    /** A record the file can hold. */
    predicate Good() {
      WellFormed() && HostProblem(this).None?
    }

    /** A record the next load would skip as a comment. */
    predicate LooksLikeComment() {
      name != [] && name[0] == HASH
    }
  }

  datatype Problem = NeedsAddress | NeedsUser | BadPort | BadProfile | UnstorableField

  function HostProblem(h: Host): Option<Problem> {
    if h.address == [] then Some(NeedsAddress)
    else if h.user == [] then Some(NeedsUser)
    else if h.port < 1 || h.port > 65535 then Some(BadPort)
    else if h.profile < 0 || h.profile > 10 then Some(BadProfile)
    else if !(Storable(h.name) && Storable(h.address) && Storable(h.user) && Storable(h.password))
    then Some(UnstorableField)
    else None
  }

  /** What a host needs to be saved, in full. */
  lemma AcceptedExactlyWhen(h: Host)
    ensures HostProblem(h).None? <==>
      && h.address != [] && h.user != []
      && 1 <= h.port <= 65535 && 0 <= h.profile <= 10
      && forall b :: b in h.name || b in h.address || b in h.user || b in h.password ==> b != 9 && b != 10 && b != 13
  {
  }

  // ----------------------------------------------------------------- print --

  function Fields(h: Host): seq<bytes> {
    [h.name, h.address, PrintInt(h.port), h.user, h.password, PrintInt(h.profile)]
  }

  /** One record without its line break. */
  function PrintFields(h: Host): bytes {
    JoinTabs(Fields(h))
  }

  function Print(hs: seq<Host>): bytes {
    if hs == [] then [] else PrintFields(hs[0]) + [LF] + Print(hs[1..])
  }

  /** The line of a record, field by field. */
  lemma RecordLine(h: Host)
    ensures PrintFields(h) == h.name + [TAB] + h.address + [TAB] + PrintInt(h.port) + [TAB] + h.user + [TAB]
      + h.password + [TAB] + PrintInt(h.profile)
  {
    SixJoined(h.name, h.address, PrintInt(h.port), h.user, h.password, PrintInt(h.profile));
  }

  lemma FileOfOne(h: Host, rest: seq<Host>)
    ensures Print([]) == [] && Print([h] + rest) == PrintFields(h) + [10] + Print(rest)
  {
    assert ([h] + rest)[1..] == rest;
  }

  // ----------------------------------------------------------------- parse --

  function FromFields(fields: seq<bytes>): (h: Host)
    requires |fields| >= 6
  {
    Host(CopyField(fields[0], NAME_LEN), CopyField(fields[1], ADDRESS_LEN), CopyField(fields[3], USER_LEN),
         CopyField(fields[4], PASSWORD_LEN), Atoi(fields[2]), Atoi(fields[5]))
  }

  /** The record a line holds, if it holds a usable one. */
  function TakeLine(line: bytes): Option<Host> {
    if line == [] || line[0] == HASH then None else
    var fields := Split(line, 8);
    if |fields| < 6 then None else
    var h := FromFields(fields);
    if HostProblem(h).Some? then None else Some(h)
  }

  /** The list after these lines, when `hs` came before them. */
  function Collect(hs: seq<Host>, lines: seq<bytes>): seq<Host>
    decreases |lines|
  {
    if lines == [] then hs
    else if |hs| < HOSTS_MAX && TakeLine(lines[0]).Some?
    then Collect(hs + [TakeLine(lines[0]).value], lines[1..])
    else Collect(hs, lines[1..])
  }

  function Parse(text: bytes): seq<Host> {
    Collect([], Lines(text))
  }

  /** The records of all the lines that hold one, in order. */
  function Records(lines: seq<bytes>): seq<Host> {
    if lines == [] then []
    else (match TakeLine(lines[0]) case Some(x) => [x] case None => []) + Records(lines[1..])
  }

  /** A file gives the first 24 of them. */
  lemma FileIsRead(text: bytes)
    ensures Parse(text) == Records(Lines(text))[..Min(|Records(Lines(text))|, 24)]
  {
    var none: seq<Host> := [];
    CollectFills(none, Lines(text));
  }

  lemma OneLine(xs: seq<Host>, line: bytes, rest: seq<bytes>)
    ensures var found := TakeLine(line);
      Records([line] + rest) == (match found case Some(x) => [x] case None => []) + Records(rest)
    ensures var found := TakeLine(line);
      Collect(xs, [line] + rest)
      == if |xs| < 24 && found.Some? then Collect(xs + [found.value], rest) else Collect(xs, rest)
  {
    assert ([line] + rest)[1..] == rest;
  }

  lemma {:induction false} CollectFills(xs: seq<Host>, lines: seq<bytes>)
    requires |xs| <= 24
    ensures Filled(Collect(xs, lines), xs, Records(lines), 24)
    decreases |lines|
  {
    if lines == [] {
      assert xs + [] == xs;
    } else {
      var line, rest := lines[0], lines[1..];
      var found := TakeLine(line);
      assert lines == [line] + rest;
      OneLine(xs, line, rest);
      if found.None? {
        CollectFills(xs, rest);
        assert [] + Records(rest) == Records(rest);
      } else if |xs| < 24 {
        CollectFills(xs + [found.value], rest);
        FilledOneMore(Collect(xs, lines), xs, found.value, Records(rest), 24);
      } else {
        CollectFills(xs, rest);
        FilledUp(Collect(xs, lines), xs, found.value, Records(rest), 24);
      }
    }
  }

  /** A line of six fields or more, whoever wrote it: the first six in their order, texts cut
    * to their arrays and numbers as `atoi` reads them, if that makes a host that can be saved
    * and the line is no comment. */
  lemma LineIsRead(n: bytes, a: bytes, p: bytes, u: bytes, w: bytes, f: bytes, more: bytes)
    requires TAB !in n && TAB !in a && TAB !in p && TAB !in u && TAB !in w && TAB !in f
    requires more == [] || more[0] == TAB
    ensures var line := n + [TAB] + a + [TAB] + p + [TAB] + u + [TAB] + w + [TAB] + f + more;
      var h := Host(n[..Min(|n|, 23)], a[..Min(|a|, 95)], u[..Min(|u|, 31)], w[..Min(|w|, 63)], Atoi(p), Atoi(f));
      TakeLine(line) == if (n != [] && n[0] == '#' as int) || HostProblem(h).Some? then None else Some(h)
  {
    var fs := [n, a, p, u, w, f];
    SixJoined(n, a, p, u, w, f);
    FieldsAreRead(fs, more, JoinTabs(fs) + more);
  }

  lemma FieldsAreRead(fs: seq<bytes>, more: bytes, line: bytes)
    requires |fs| == 6 && (forall i :: 0 <= i < 6 ==> TAB !in fs[i]) && (more == [] || more[0] == TAB)
    requires line == JoinTabs(fs) + more
    ensures var h := Host(fs[0][..Min(|fs[0]|, 23)], fs[1][..Min(|fs[1]|, 95)], fs[3][..Min(|fs[3]|, 31)],
                          fs[4][..Min(|fs[4]|, 63)], Atoi(fs[2]), Atoi(fs[5]));
      TakeLine(line) == if (fs[0] != [] && fs[0][0] == '#' as int) || HostProblem(h).Some? then None else Some(h)
  {
    SplitJoinMore(fs, more, 8);
    assert fs == [fs[0]] + fs[1..];
    JoinFirst(fs[0], fs[1..], more);
    StartOfLine(fs[0], JoinTabs(fs[1..]) + more, line);
    TakenFromSix(line, Split(line, 8), fs);
  }

  lemma StartOfLine(n: bytes, rest: bytes, line: bytes)
    requires line == n + [TAB] + rest
    ensures line != [] && line[0] == if n == [] then TAB else n[0]
  {
  }

  lemma TakenFromSix(line: bytes, found: seq<bytes>, fs: seq<bytes>)
    requires line != [] && found == Split(line, 8) && |fs| == 6 && StartsWith(found, fs)
    ensures var h := Host(fs[0][..Min(|fs[0]|, 23)], fs[1][..Min(|fs[1]|, 95)], fs[3][..Min(|fs[3]|, 31)],
                          fs[4][..Min(|fs[4]|, 63)], Atoi(fs[2]), Atoi(fs[5]));
      TakeLine(line) == if line[0] == '#' as int || HostProblem(h).Some? then None else Some(h)
  {
    assert found[0] == fs[0] && found[1] == fs[1] && found[2] == fs[2];
    assert found[3] == fs[3] && found[4] == fs[4] && found[5] == fs[5];
  }

  /** A line with fewer fields is no record. */
  lemma {:induction false} ShortLineIsNone(fields: seq<bytes>)
    requires 1 <= |fields| <= 5 && forall i :: 0 <= i < |fields| ==> TAB !in fields[i]
    ensures TakeLine(JoinTabs(fields)).None?
  {
    SplitJoin(fields, 8);
  }

  // ------------------------------------------------------------ round trip --

  lemma TakenFromFields(line: bytes, fields: seq<bytes>)
    requires line != [] && line[0] != HASH && Split(line, 8) == fields && |fields| == 6
    ensures TakeLine(line) == if HostProblem(FromFields(fields)).Some? then None else Some(FromFields(fields))
  {
  }

  lemma CopyWhole(s: bytes, size: nat)
    requires |s| < size
    ensures CopyField(s, size) == s
  {
  }

  lemma FieldsBack(h: Host)
    requires h.WellFormed()
    ensures FromFields(Fields(h)) == h
  {
    CopyWhole(h.name, NAME_LEN);
    CopyWhole(h.address, ADDRESS_LEN);
    CopyWhole(h.user, USER_LEN);
    CopyWhole(h.password, PASSWORD_LEN);
    IntRoundTrip(h.port);
    IntRoundTrip(h.profile);
  }

  lemma PrintedFirst(h: Host)
    ensures PrintFields(h) != [] && PrintFields(h)[0] == if h.name == [] then TAB else h.name[0]
  {
    assert PrintFields(h) == h.name + [TAB] + JoinTabs(Fields(h)[1..]);
  }

  /** A good record is read back as it was, unless its name makes it a comment. */
  lemma RecordRoundTrip(h: Host)
    requires h.Good()
    ensures TakeLine(PrintFields(h)) == if h.LooksLikeComment() then None else Some(h)
  {
    PrintedFirst(h);
    if !h.LooksLikeComment() {
      SplitJoin(Fields(h), 8);
      FieldsBack(h);
      TakenFromFields(PrintFields(h), Fields(h));
    }
  }

  lemma PrintedLine(h: Host)
    requires h.Good()
    ensures PrintFields(h) != [] && NoBreak(PrintFields(h)) && NUL !in PrintFields(h)
  {
    JoinedBytes(Fields(h), NUL);
    JoinedBytes(Fields(h), LF);
    JoinedBytes(Fields(h), CR);
    NoBreakBytes(PrintFields(h));
    assert PrintFields(h) == h.name + [TAB] + JoinTabs(Fields(h)[1..]);
  }

  lemma PrintedStart(hs: seq<Host>)
    requires forall h :: h in hs ==> h.Good()
    ensures Print(hs) == [] || !IsBreak(Print(hs)[0])
  {
    if hs != [] {
      PrintedLine(hs[0]);
      assert Print(hs)[0] == PrintFields(hs[0])[0];
    }
  }

  /** What a reload keeps of a list. */
  function WithoutComments(hs: seq<Host>): seq<Host> {
    if hs == [] then []
    else if hs[0].LooksLikeComment() then WithoutComments(hs[1..])
    else [hs[0]] + WithoutComments(hs[1..])
  }

  lemma FirstPrinted(hs: seq<Host>)
    requires hs != [] && forall h :: h in hs ==> h.Good()
    ensures Lines(Print(hs)) == [PrintFields(hs[0])] + Lines(Print(hs[1..]))
  {
    PrintedLine(hs[0]);
    PrintedStart(hs[1..]);
    FirstLine(PrintFields(hs[0]), [LF], Print(hs[1..]));
  }

  lemma CollectOne(before: seq<Host>, h: Host, lines: seq<bytes>)
    requires h.Good() && |before| < HOSTS_MAX
    ensures Collect(before, [PrintFields(h)] + lines)
      == Collect(if h.LooksLikeComment() then before else before + [h], lines)
  {
    RecordRoundTrip(h);
    assert ([PrintFields(h)] + lines)[1..] == lines;
  }

  lemma {:induction false} CollectPrinted(before: seq<Host>, hs: seq<Host>)
    requires (forall h :: h in hs ==> h.Good()) && |before| + |hs| <= HOSTS_MAX
    ensures Collect(before, Lines(Print(hs))) == before + WithoutComments(hs)
    decreases |hs|
  {
    if hs != [] {
      FirstPrinted(hs);
      CollectOne(before, hs[0], Lines(Print(hs[1..])));
      if hs[0].LooksLikeComment() {
        CollectPrinted(before, hs[1..]);
      } else {
        CollectPrinted(before + [hs[0]], hs[1..]);
        ConcatAssociates(before, [hs[0]], WithoutComments(hs[1..]));
      }
    }
  }

  /** Saving and reloading any list keeps exactly the records whose names do not start with
    * `#`, in order and unchanged. */
  lemma ListRoundTrip(hs: seq<Host>)
    requires (forall h :: h in hs ==> h.Good()) && |hs| <= HOSTS_MAX
    ensures Parse(Print(hs)) == WithoutComments(hs)
  {
    CollectPrinted([], hs);
    assert [] + WithoutComments(hs) == WithoutComments(hs);
  }

  lemma {:induction false} WithoutCommentsWhole(hs: seq<Host>)
    ensures |WithoutComments(hs)| <= |hs|
    ensures WithoutComments(hs) == hs <==> forall h :: h in hs ==> !h.LooksLikeComment()
  {
    if hs != [] {
      WithoutCommentsWhole(hs[1..]);
      assert hs == [hs[0]] + hs[1..];
    }
  }

  /** So a list comes back whole exactly when no name in it starts with `#`. */
  lemma ListComesBackWhole(hs: seq<Host>)
    requires (forall h :: h in hs ==> h.Good()) && |hs| <= HOSTS_MAX
    ensures Parse(Print(hs)) == hs <==> forall h :: h in hs ==> !h.LooksLikeComment()
  {
    ListRoundTrip(hs);
    WithoutCommentsWhole(hs);
  }

  /** The smallest record that is accepted and then lost. */
  lemma AcceptedThenDropped()
    ensures var h := Host([HASH], ['a' as int], ['u' as int], [], 22, 0);
      HostProblem(h).None? && h.Good() && Parse(Print([h])) == []
  {
    var h := Host([HASH], ['a' as int], ['u' as int], [], 22, 0);
    ListRoundTrip([h]);
    assert [h][1..] == [];
  }

  // ------------------------------------------------- what parsing produces --

  lemma {:induction false} SplitSublines(line: bytes, max: nat, i: nat)
    requires max >= 1 && i < |Split(line, max)|
    ensures forall b :: b in Split(line, max)[i] ==> b in line
    decreases max
  {
    var at := FindByte(line, TAB);
    if max > 1 && at < |line| && i > 0 {
      SplitSublines(line[at + 1..], max - 1, i - 1);
    }
  }

  /** A line without NUL gives only good records, and never one that looks like a comment. */
  lemma TakenIsGood(line: bytes)
    requires NUL !in line && TakeLine(line).Some?
    ensures TakeLine(line).value.Good() && !TakeLine(line).value.LooksLikeComment()
  {
    var fields, h := Split(line, 8), TakeLine(line).value;
    SplitSublines(line, 8, 0);
    SplitSublines(line, 8, 1);
    SplitSublines(line, 8, 3);
    SplitSublines(line, 8, 4);
    assert fields[0] == line[..FindByte(line, TAB)];
    if h.name != [] {
      assert h.name[0] == line[0];
    }
  }

  lemma {:induction false} LineBytes(text: bytes, at: nat)
    requires at <= |text| && NUL !in text
    ensures forall line :: line in LinesFrom(text, at) ==> NUL !in line
    decreases |text| - at
  {
    if at < |text| {
      LineBytes(text, SkipBreaks(text, LineEnd(text, at)));
    }
  }

  predicate Reloadable(hs: seq<Host>) {
    |hs| <= HOSTS_MAX && forall h :: h in hs ==> h.Good() && !h.LooksLikeComment()
  }

  lemma {:induction false} CollectedIsReloadable(hs: seq<Host>, lines: seq<bytes>)
    requires Reloadable(hs) && forall line :: line in lines ==> NUL !in line
    ensures Reloadable(Collect(hs, lines))
    decreases |lines|
  {
    if lines != [] {
      assert lines[0] in lines;
      if |hs| < HOSTS_MAX && TakeLine(lines[0]).Some? {
        TakenIsGood(lines[0]);
        CollectedIsReloadable(hs + [TakeLine(lines[0]).value], lines[1..]);
      } else {
        CollectedIsReloadable(hs, lines[1..]);
      }
    }
  }

  /** Whatever was in the file, what was understood of it survives being written back. */
  lemma ReparseIsStable(file: bytes)
    ensures Reloadable(Parse(CString(file)))
    ensures Parse(Print(Parse(CString(file)))) == Parse(CString(file))
  {
    LineBytes(CString(file), 0);
    CollectedIsReloadable([], Lines(CString(file)));
    ListComesBackWhole(Parse(CString(file)));
  }

  // ------------------------------------------------------------------ size --

  const RECORD_MAX := 225

  lemma RecordSize(h: Host)
    requires h.Good()
    ensures |PrintFields(h)| + 1 <= RECORD_MAX
  {
    assert Pow10(2) == 100 && Pow10(5) == 1000 * Pow10(2);
    DecimalLength(h.port, 5);
    DecimalLength(h.profile, 2);
    var fs := Fields(h);
    assert |JoinTabs(fs)| == |fs[0]| + 1 + |JoinTabs(fs[1..])|;
    assert |JoinTabs(fs[1..])| == |fs[1]| + 1 + |JoinTabs(fs[1..][1..])| && fs[1..][1..] == fs[2..];
    assert |JoinTabs(fs[2..])| == |fs[2]| + 1 + |JoinTabs(fs[2..][1..])| && fs[2..][1..] == fs[3..];
    assert |JoinTabs(fs[3..])| == |fs[3]| + 1 + |JoinTabs(fs[3..][1..])| && fs[3..][1..] == fs[4..];
    assert |JoinTabs(fs[4..])| == |fs[4]| + 1 + |fs[5]|;
  }

  lemma {:induction false} PrintSize(hs: seq<Host>)
    requires forall h :: h in hs ==> h.Good()
    ensures |Print(hs)| <= RECORD_MAX * |hs| && NUL !in Print(hs)
  {
    if hs != [] {
      assert hs[0] in hs;
      RecordSize(hs[0]);
      PrintedLine(hs[0]);
      PrintSize(hs[1..]);
    }
  }

  lemma {:induction false} PrintAppend(hs: seq<Host>, h: Host)
    ensures Print(hs + [h]) == Print(hs) + PrintFields(h) + [LF]
    decreases |hs|
  {
    if hs == [] {
      assert [h][1..] == [] && Print([h]) == PrintFields(h) + [LF] + [];
    } else {
      assert (hs + [h])[0] == hs[0] && (hs + [h])[1..] == hs[1..] + [h];
      PrintAppend(hs[1..], h);
    }
  }
}
