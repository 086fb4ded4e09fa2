/** The remembered keys of `src/psp/knownhosts.c` as values: entries, lookups and their file. */
module KnownHosts {
  import opened Bytes
  import opened Text

  const KNOWN_MAX := 48
  const ADDRESS_LEN := 96
  const FINGERPRINT_LEN := 72
  const FILE_MAX := KNOWN_MAX * (ADDRESS_LEN + FINGERPRINT_LEN + 16)

  datatype Known = Known(address: bytes, port: int, fingerprint: bytes) {
    /** What every entry in memory is: C strings that fit, neither empty, a C int. */
    predicate Kept() {
      && 0 < |address| < ADDRESS_LEN && 0 < |fingerprint| < FINGERPRINT_LEN
      && NUL !in address && LF !in address && CR !in address && TAB !in address
      && NUL !in fingerprint && LF !in fingerprint && CR !in fingerprint
      && -0x8000_0000 <= port < 0x8000_0000
    }
  }

  predicate AllKept(ks: seq<Known>) {
    |ks| <= KNOWN_MAX && forall k :: k in ks ==> k.Kept()
  }

  /** Keys an entry survives a reload under: not a comment, and a real port. */
  predicate Lasting(address: bytes, port: int) {
    address != [] && address[0] != HASH && 1 <= port <= 65535
  }

  // ------------------------------------------------------------- lookups --

  function Find(ks: seq<Known>, address: bytes, port: int): (at: nat)
    ensures at <= |ks|
    ensures at < |ks| ==> ks[at].address == address && ks[at].port == port
    ensures forall i :: 0 <= i < at ==> !(ks[i].address == address && ks[i].port == port)
  {
    if ks == [] || (ks[0].port == port && ks[0].address == address) then 0
    else Find(ks[1..], address, port) + 1
  }

  function Lookup(ks: seq<Known>, address: bytes, port: int): Option<bytes> {
    var at := Find(ks, address, port);
    if at < |ks| then Some(ks[at].fingerprint) else None
  }

  // ------------------------------------------------------------ mutations --

  /** The list after remembering, or nothing when it is refused. */
  function Remember(ks: seq<Known>, address: bytes, port: int, fingerprint: bytes): Option<seq<Known>> {
    if address == [] || fingerprint == [] then None
    else if !Storable(address) || !Storable(fingerprint) then None
    else
      var at := Find(ks, address, port);
      var entry := Known(CopyField(address, ADDRESS_LEN), port, CopyField(fingerprint, FINGERPRINT_LEN));
      if at < |ks| then Some(ks[at := entry])
      else if |ks| >= KNOWN_MAX then None
      else Some(ks + [entry])
  }

  function Forget(ks: seq<Known>, address: bytes, port: int): seq<Known> {
    var at := Find(ks, address, port);
    if at < |ks| then ks[..at] + ks[at + 1..] else ks
  }

  // ----------------------------------------------------------------- file --

  function Fields(k: Known): seq<bytes> {
    [k.address, PrintInt(k.port), k.fingerprint]
  }

  function PrintFields(k: Known): bytes {
    JoinTabs(Fields(k))
  }

  function Print(ks: seq<Known>): bytes {
    if ks == [] then [] else PrintFields(ks[0]) + [LF] + Print(ks[1..])
  }

  /** The line of an entry, field by field. */
  lemma EntryLine(k: Known)
    ensures PrintFields(k) == k.address + [TAB] + PrintInt(k.port) + [TAB] + k.fingerprint
  {
    ThreeJoined(k.address, PrintInt(k.port), k.fingerprint);
  }

  lemma FileOfOne(k: Known, rest: seq<Known>)
    ensures Print([]) == [] && Print([k] + rest) == PrintFields(k) + [10] + Print(rest)
  {
    assert ([k] + rest)[1..] == rest;
  }

  /** The entry a line holds, if it holds a sound one. */
  function TakeLine(line: bytes): Option<Known> {
    if line == [] || line[0] == HASH then None else
    var tab1 := FindByte(line, TAB);
    if tab1 == |line| then None else
    var address, rest := line[..tab1], line[tab1 + 1..];
    var tab2 := FindByte(rest, TAB);
    if tab2 == |rest| then None else
    var fingerprint := rest[tab2 + 1..];
    if address == [] || fingerprint == [] then None
    else if |address| >= ADDRESS_LEN || |fingerprint| >= FINGERPRINT_LEN then None
    else
      var port := Atoi(rest[..tab2]);
      if port < 1 || port > 65535 then None else Some(Known(address, port, fingerprint))
  }

  function Collect(ks: seq<Known>, lines: seq<bytes>): seq<Known>
    decreases |lines|
  {
    if lines == [] then ks
    else if |ks| < KNOWN_MAX && TakeLine(lines[0]).Some?
    then Collect(ks + [TakeLine(lines[0]).value], lines[1..])
    else Collect(ks, lines[1..])
  }

  function Parse(text: bytes): seq<Known> {
    Collect([], Lines(text))
  }

  /** The records of all the lines that hold one, in order. */
  function Records(lines: seq<bytes>): seq<Known> {
    if lines == [] then []
    else (match TakeLine(lines[0]) case Some(x) => [x] case None => []) + Records(lines[1..])
  }

  /** A file gives the first 48 of them. */
  lemma FileIsRead(text: bytes)
    ensures Parse(text) == Records(Lines(text))[..Min(|Records(Lines(text))|, 48)]
  {
    var none: seq<Known> := [];
    CollectFills(none, Lines(text));
  }

  lemma OneLine(xs: seq<Known>, line: bytes, rest: seq<bytes>)
    ensures var found := TakeLine(line);
      Records([line] + rest) == (match found case Some(x) => [x] case None => []) + Records(rest)
    ensures var found := TakeLine(line);
      Collect(xs, [line] + rest)
      == if |xs| < 48 && found.Some? then Collect(xs + [found.value], rest) else Collect(xs, rest)
  {
    assert ([line] + rest)[1..] == rest;
  }

  lemma {:induction false} CollectFills(xs: seq<Known>, lines: seq<bytes>)
    requires |xs| <= 48
    ensures Filled(Collect(xs, lines), xs, Records(lines), 48)
    decreases |lines|
  {
    if lines == [] {
      assert xs + [] == xs;
    } else {
      var line, rest := lines[0], lines[1..];
      var found := TakeLine(line);
      assert lines == [line] + rest;
      OneLine(xs, line, rest);
      if found.None? {
        CollectFills(xs, rest);
        assert [] + Records(rest) == Records(rest);
      } else if |xs| < 48 {
        CollectFills(xs + [found.value], rest);
        FilledOneMore(Collect(xs, lines), xs, found.value, Records(rest), 48);
      } else {
        CollectFills(xs, rest);
        FilledUp(Collect(xs, lines), xs, found.value, Records(rest), 48);
      }
    }
  }

  /** A line of three fields, whoever wrote it; the third goes on to the end of the line. */
  lemma LineIsRead(a: bytes, p: bytes, f: bytes)
    requires TAB !in a && TAB !in p
    ensures TakeLine(a + [TAB] + p + [TAB] + f) ==
      if 1 <= |a| <= 95 && a[0] != '#' as int && 1 <= |f| <= 71 && 1 <= Atoi(p) <= 65535
      then Some(Known(a, Atoi(p), f)) else None
  {
    var line, rest := a + [TAB] + p + [TAB] + f, p + [TAB] + f;
    assert line == a + [TAB] + rest;
    FindByteAfter(a, TAB, rest);
    FindByteAfter(p, TAB, f);
    assert line[..|a|] == a && line[|a| + 1..] == rest && rest[..|p|] == p && rest[|p| + 1..] == f;
    assert line[0] == if a == [] then TAB else a[0];
  }

  /** A line with fewer fields is no entry. */
  lemma ShortLineIsNone(a: bytes, p: bytes)
    requires TAB !in a && TAB !in p
    ensures TakeLine(a).None? && TakeLine(a + [TAB] + p).None?
  {
    FindByteAbsent(a, TAB);
    FindByteAbsent(p, TAB);
    var line := a + [TAB] + p;
    assert line == a + [TAB] + p + [] && line[|a| + 1..] == p;
    FindByteAfter(a, TAB, p);
  }

  // ------------------------------------------------------------ round trip --

  lemma EntryRoundTrip(k: Known)
    requires k.Kept()
    ensures TakeLine(PrintFields(k)) == if Lasting(k.address, k.port) then Some(k) else None
  {
    var line, port := PrintFields(k), PrintInt(k.port);
    var rest := port + [TAB] + k.fingerprint;
    assert Fields(k)[1..] == [port, k.fingerprint] && [port, k.fingerprint][1..] == [k.fingerprint];
    assert JoinTabs(Fields(k)[1..]) == rest && line == k.address + [TAB] + rest;
    FindByteAfter(k.address, TAB, rest);
    FindByteAfter(port, TAB, k.fingerprint);
    assert line[..|k.address|] == k.address && line[|k.address| + 1..] == rest;
    assert rest[..|port|] == port && rest[|port| + 1..] == k.fingerprint;
    IntRoundTrip(k.port);
    assert line[0] == k.address[0];
  }

  lemma PrintedLine(k: Known)
    requires k.Kept()
    ensures PrintFields(k) != [] && NoBreak(PrintFields(k)) && NUL !in PrintFields(k)
  {
    JoinedBytes(Fields(k), NUL);
    JoinedBytes(Fields(k), LF);
    JoinedBytes(Fields(k), CR);
    NoBreakBytes(PrintFields(k));
    assert PrintFields(k) == k.address + [TAB] + JoinTabs(Fields(k)[1..]);
  }

  /** What a reload keeps of a list. */
  function LastingOnly(ks: seq<Known>): seq<Known> {
    if ks == [] then []
    else if Lasting(ks[0].address, ks[0].port) then [ks[0]] + LastingOnly(ks[1..])
    else LastingOnly(ks[1..])
  }

  lemma FirstPrinted(ks: seq<Known>)
    requires ks != [] && forall k :: k in ks ==> k.Kept()
    ensures Lines(Print(ks)) == [PrintFields(ks[0])] + Lines(Print(ks[1..]))
  {
    PrintedLine(ks[0]);
    if ks[1..] != [] {
      PrintedLine(ks[1]);
      assert Print(ks[1..])[0] == PrintFields(ks[1])[0];
    }
    FirstLine(PrintFields(ks[0]), [LF], Print(ks[1..]));
  }

  lemma CollectOne(before: seq<Known>, k: Known, lines: seq<bytes>)
    requires k.Kept() && |before| < KNOWN_MAX
    ensures Collect(before, [PrintFields(k)] + lines)
      == Collect(if Lasting(k.address, k.port) then before + [k] else before, lines)
  {
    EntryRoundTrip(k);
    assert ([PrintFields(k)] + lines)[1..] == lines;
  }

  lemma {:induction false} CollectPrinted(before: seq<Known>, ks: seq<Known>)
    requires (forall k :: k in ks ==> k.Kept()) && |before| + |ks| <= KNOWN_MAX
    ensures Collect(before, Lines(Print(ks))) == before + LastingOnly(ks)
    decreases |ks|
  {
    if ks != [] {
      FirstPrinted(ks);
      CollectOne(before, ks[0], Lines(Print(ks[1..])));
      if Lasting(ks[0].address, ks[0].port) {
        CollectPrinted(before + [ks[0]], ks[1..]);
        ConcatAssociates(before, [ks[0]], LastingOnly(ks[1..]));
      } else {
        CollectPrinted(before, ks[1..]);
      }
    }
  }

  /** Saving and reloading keeps exactly the entries with a real port whose address does not
    * start with `#`, in order and unchanged. */
  lemma ListRoundTrip(ks: seq<Known>)
    requires AllKept(ks)
    ensures Parse(Print(ks)) == LastingOnly(ks)
  {
    CollectPrinted([], ks);
    assert [] + LastingOnly(ks) == LastingOnly(ks);
  }

  /** So a reload changes no answer about a lasting key, and knows nothing of the others. */
  lemma {:induction false} ReloadKeepsAnswers(ks: seq<Known>, address: bytes, port: int)
    ensures Lookup(LastingOnly(ks), address, port)
      == if Lasting(address, port) then Lookup(ks, address, port) else None
  {
    if ks != [] {
      ReloadKeepsAnswers(ks[1..], address, port);
      if Lasting(ks[0].address, ks[0].port) {
        assert LastingOnly(ks)[1..] == LastingOnly(ks[1..]);
      }
    }
  }

  // ------------------------------------------------- what parsing produces --

  lemma TakenIsKept(line: bytes)
    requires NUL !in line && NoBreak(line) && TakeLine(line).Some?
    ensures TakeLine(line).value.Kept() && Lasting(TakeLine(line).value.address, TakeLine(line).value.port)
  {
    var k := TakeLine(line).value;
    FindByteIsFirst(line, TAB);
    assert k.address[0] == line[0];
    assert forall b :: b in k.address || b in k.fingerprint ==> b in line;
    assert forall b :: b in line ==> !IsBreak(b);
  }

  lemma {:induction false} LineBytes(text: bytes, at: nat)
    requires at <= |text| && NUL !in text
    ensures forall line :: line in LinesFrom(text, at) ==> NUL !in line && NoBreak(line)
    decreases |text| - at
  {
    if at < |text| {
      LineEndStops(text, at);
      LineBytes(text, SkipBreaks(text, LineEnd(text, at)));
    }
  }

  lemma {:induction false} CollectedIsKept(ks: seq<Known>, lines: seq<bytes>)
    requires AllKept(ks) && forall line :: line in lines ==> NUL !in line && NoBreak(line)
    ensures AllKept(Collect(ks, lines))
    decreases |lines|
  {
    if lines != [] {
      assert lines[0] in lines;
      if |ks| < KNOWN_MAX && TakeLine(lines[0]).Some? {
        TakenIsKept(lines[0]);
        CollectedIsKept(ks + [TakeLine(lines[0]).value], lines[1..]);
      } else {
        CollectedIsKept(ks, lines[1..]);
      }
    }
  }

  lemma ParsedIsKept(file: bytes)
    ensures AllKept(Parse(CString(file)))
  {
    LineBytes(CString(file), 0);
    CollectedIsKept([], Lines(CString(file)));
  }

  lemma RememberedIsKept(ks: seq<Known>, address: bytes, port: int, fingerprint: bytes)
    requires AllKept(ks) && NUL !in address && NUL !in fingerprint && -0x8000_0000 <= port < 0x8000_0000
    requires Remember(ks, address, port, fingerprint).Some?
    ensures AllKept(Remember(ks, address, port, fingerprint).value)
  {
  }

  lemma ForgottenIsKept(ks: seq<Known>, address: bytes, port: int)
    requires AllKept(ks)
    ensures AllKept(Forget(ks, address, port))
  {
  }

  // ------------------------------------------------------------------ size --

  const ENTRY_MAX := 180

  lemma EntrySize(k: Known)
    requires k.Kept()
    ensures |PrintFields(k)| + 1 <= ENTRY_MAX
  {
    assert Pow10(3) == 1000 && Pow10(6) == 1000 * Pow10(3) && Pow10(9) == 1000 * Pow10(6) && Pow10(10) == 10 * Pow10(9);
    DecimalLength(if k.port < 0 then -k.port else k.port, 10);
    var fs := Fields(k);
    assert |JoinTabs(fs)| == |fs[0]| + 1 + |JoinTabs(fs[1..])|;
    assert |JoinTabs(fs[1..])| == |fs[1]| + 1 + |fs[2]|;
  }

  lemma {:induction false} PrintSize(ks: seq<Known>)
    requires forall k :: k in ks ==> k.Kept()
    ensures |Print(ks)| <= ENTRY_MAX * |ks| && NUL !in Print(ks)
  {
    if ks != [] {
      assert ks[0] in ks;
      EntrySize(ks[0]);
      PrintedLine(ks[0]);
      PrintSize(ks[1..]);
    }
  }

  lemma {:induction false} PrintAppend(ks: seq<Known>, k: Known)
    ensures Print(ks + [k]) == Print(ks) + PrintFields(k) + [LF]
    decreases |ks|
  {
    if ks == [] {
      assert [k][1..] == [] && Print([k]) == PrintFields(k) + [LF] + [];
    } else {
      assert (ks + [k])[0] == ks[0] && (ks + [k])[1..] == ks[1..] + [k];
      PrintAppend(ks[1..], k);
    }
  }
}
