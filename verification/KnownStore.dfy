/** `src/psp/knownhosts.c` on the card, and `check_hostkey` of `src/psp/main.c` on top. */
module KnownStore {
  import opened Bytes
  import opened Text
  import opened Card
  import opened KnownHosts
  import opened Trust
  import CardLaws

  class Store {
    const card: MemoryCard
    const entries: array<Known>
    var count: nat

    ghost predicate Valid()
      reads this, entries, card
    {
      && card.Valid() && entries.Length == KNOWN_MAX && count <= KNOWN_MAX
      && forall i :: 0 <= i < count ==> entries[i].Kept()
    }

    ghost function List(): (ks: seq<Known>)
      requires Valid()
      reads this, entries, card
      ensures |ks| == count && AllKept(ks)
    {
      entries[..count]
    }

    ghost function View(): World
      requires Valid()
      reads this, entries, card
    {
      World(List(), card.files)
    }

    constructor (card: MemoryCard)
      requires card.Valid()
      ensures Valid() && this.card == card && fresh(entries) && List() == []
    {
      this.card := card;
      entries := new Known[KNOWN_MAX](_ => Known([], 0, []));
      count := 0;
    }

    // ------------------------------------------------------------- lookups --

    /** `find`: the index of the first entry for a key, or -1. */
    method FindEntry(address: bytes, port: int) returns (at: int)
      requires Valid()
      ensures at == if Find(List(), address, port) < count then Find(List(), address, port) else -1
    {
      var i := 0;
      while i < count
        invariant i <= count
        invariant Find(List(), address, port) == i + Find(List()[i..], address, port)
      {
        if entries[i].port == port && entries[i].address == address {
          return i;
        }
        assert List()[i..][1..] == List()[i + 1..];
        i := i + 1;
      }
      return -1;
    }

    method LookupEntry(address: bytes, port: int) returns (known: Option<bytes>)
      requires Valid()
      ensures known == Lookup(List(), address, port)
    {
      var at := FindEntry(address, port);
      return if at < 0 then None else Some(entries[at].fingerprint);
    }

    // ---------------------------------------------------------------- load --

    method Take(line: bytes)
      requires Valid() && NUL !in line && NoBreak(line)
      modifies this`count, entries
      ensures Valid()
      ensures List() == if old(count) < KNOWN_MAX && TakeLine(line).Some?
                        then old(List()) + [TakeLine(line).value] else old(List())
    {
      if line == [] || line[0] == HASH || count >= KNOWN_MAX {
        return;
      }
      var tab1 := FindByte(line, TAB);
      if tab1 == |line| {
        return;
      }
      var address, rest := line[..tab1], line[tab1 + 1..];
      var tab2 := FindByte(rest, TAB);
      if tab2 == |rest| {
        return;
      }
      var fingerprint := rest[tab2 + 1..];
      if address == [] || fingerprint == [] {
        return;
      }
      if |address| >= ADDRESS_LEN || |fingerprint| >= FINGERPRINT_LEN {
        return;
      }
      var port := Atoi(rest[..tab2]);
      if port < 1 || port > 65535 {
        return;
      }
      TakenIsKept(line);
      entries[count] := Known(address, port, fingerprint);
      count := count + 1;
    }

    method ParseInto(text: bytes)
      requires Valid() && NUL !in text
      modifies this`count, entries
      ensures Valid() && List() == Collect(old(List()), Lines(text))
    {
      var line := 0;
      while line < |text|
        invariant line <= |text| && Valid()
        invariant Collect(List(), LinesFrom(text, line)) == Collect(old(List()), Lines(text))
      {
        var end, next := ScanLine(text, line);
        LineEndStops(text, line);
        Take(text[line..end]);
        line := next;
      }
    }

    method Load() returns (result: int)
      requires Valid()
      modifies this`count, entries, card
      ensures Valid() && card.faults >= old(card.faults)
      ensures forall i :: |old(card.past)| <= i < |card.past| ==> card.past[i] == card.files
      ensures result == 0 || result == -1
      ensures Starts(old(card.files), View(), card.faults == old(card.faults))
      ensures result == -1 ==> KNOWN_PATH in old(card.files)
      ensures result == 0 && KNOWN_PATH in old(card.files) ==> View() == Restarted(old(card.files))
      ensures card.faults == old(card.faults) ==>
        (result == 0 <==> !ReadBack(old(card.files), KNOWN_PATH, FILE_MAX - 1).Refused?)
      ensures card.faults > old(card.faults) ==>
        (result == -1 <==> KNOWN_PATH in old(card.files)) && (result == 0 ==> Temp(KNOWN_PATH) in old(card.files))
      ensures result == -1 ==> List() == []
    {
      count := 0;
      var buffer := new byte[FILE_MAX](_ => NUL);
      var len := card.CardfileRead(KNOWN_PATH, buffer, FILE_MAX - 1);
      if len == -2 {
        return -1;
      }
      if len < 0 {
        return 0;
      }
      ParseInto(CString(buffer[..len]));
      return 0;
    }

    // ---------------------------------------------------------------- save --

    /** The loop of `save`.  Its check that the record fits never fails. */
    method BuildText() returns (text: bytes)
      requires Valid()
      ensures text == Print(List()) && |text| < FILE_MAX
    {
      text := [];
      for i := 0 to count
        invariant text == Print(entries[..i]) && |text| < FILE_MAX
      {
        var line := PrintFields(entries[i]) + [LF];
        assert entries[..i + 1] == entries[..i] + [entries[i]];
        PrintAppend(entries[..i], entries[i]);
        PrintSize(entries[..i + 1]);
        text := text + line;
      }
    }

    method Save() returns (result: int)
      requires Valid()
      modifies card
      ensures Valid() && old(card.past) <= card.past
      ensures result == 0 || result == -1
      ensures result == 0 <==> card.faults == old(card.faults)
      ensures SaveReturned(old(card.files), List(), card.files, result == 0)
      ensures forall i :: |old(card.past)| <= i < |card.past| ==>
        MidWrite(old(card.files), KNOWN_PATH, Print(List()), card.past[i])
      ensures result != 0 && KNOWN_PATH !in old(card.files) && card.faults == old(card.faults) + 1 ==>
        Reload(card.files) == Reload(old(card.files)) || Reload(card.files) == []
    {
      var text := BuildText();
      ghost var d := card.files;
      result := card.CardfileWrite(KNOWN_PATH, text);
      if result != 0 && KNOWN_PATH !in d && card.faults == old(card.faults) + 1 {
        CardLaws.FailedFirstSave(d, KNOWN_PATH, FILE_MAX - 1, card.files);
      }
    }

    // ------------------------------------------------------------ mutation --

    method RememberEntry(address: bytes, port: int, fingerprint: bytes) returns (result: int)
      requires Valid() && NUL !in address && NUL !in fingerprint && -0x8000_0000 <= port < 0x8000_0000
      modifies this`count, entries, card
      ensures Valid() && old(card.past) <= card.past
      ensures match Remember(old(List()), address, port, fingerprint)
        case None => result == -1 && View() == old(View()) && card.past == old(card.past)
        case Some(ks) =>
          && List() == ks
          && result == (if card.faults == old(card.faults) then 0 else -1)
          && SaveReturned(old(card.files), ks, card.files, result == 0)
          && forall i :: |old(card.past)| <= i < |card.past| ==>
               MidWrite(old(card.files), KNOWN_PATH, Print(ks), card.past[i])
    {
      if address == [] || fingerprint == [] {
        return -1;
      }
      if !Storable(address) || !Storable(fingerprint) {
        return -1;
      }
      var at := FindEntry(address, port);
      if at < 0 {
        if count >= KNOWN_MAX {
          return -1;
        }
        at := count;
        Put(at, address, port, fingerprint);
        count := count + 1;
      } else {
        Put(at, address, port, fingerprint);
      }
      assert List() == Remember(old(List()), address, port, fingerprint).value;
      result := Save();
    }

    /** The two cutting copies and the port. */
    method Put(at: nat, address: bytes, port: int, fingerprint: bytes)
      requires Valid() && at < KNOWN_MAX && address != [] && fingerprint != []
      requires Storable(address) && Storable(fingerprint)
      requires NUL !in address && NUL !in fingerprint && -0x8000_0000 <= port < 0x8000_0000
      modifies entries
      ensures Valid() && entries[at].Kept()
      ensures entries[..] == old(entries[..])[at :=
        Known(CopyField(address, ADDRESS_LEN), port, CopyField(fingerprint, FINGERPRINT_LEN))]
    {
      entries[at] := Known(CopyField(address, ADDRESS_LEN), port, CopyField(fingerprint, FINGERPRINT_LEN));
    }

    method ForgetEntry(address: bytes, port: int) returns (result: int)
      requires Valid()
      modifies this`count, entries, card
      ensures Valid() && old(card.past) <= card.past
      ensures Lookup(old(List()), address, port).None? ==>
        result == 0 && View() == old(View()) && card.past == old(card.past)
      ensures Lookup(old(List()), address, port).Some? ==>
        && List() == Forget(old(List()), address, port)
        && result == (if card.faults == old(card.faults) then 0 else -1)
        && SaveReturned(old(card.files), List(), card.files, result == 0)
        && forall i :: |old(card.past)| <= i < |card.past| ==>
             MidWrite(old(card.files), KNOWN_PATH, Print(List()), card.past[i])
      ensures Finishes(old(View()), Forgotten(address, port), View(), card.faults == old(card.faults))
      ensures forall i, w, read :: |old(card.past)| <= i < |card.past| && Starts(card.past[i], w, read) ==>
        LosesPower(old(View()), Forgotten(address, port), w, read)
    {
      var at := FindEntry(address, port);
      if at < 0 {
        return 0;
      }
      ShiftDown(at);
      result := Save();
    }

    /** The loop of `knownhosts_forget`, and the zeroed last slot. */
    method ShiftDown(at: nat)
      requires Valid() && at < count
      modifies this`count, entries
      ensures Valid() && List() == old(List())[..at] + old(List())[at + 1..]
    {
      ghost var was := List();
      ghost var shifted := was[..at] + was[at + 1..];
      var i := at;
      while i + 1 < count
        modifies entries
        invariant at <= i < count
        invariant forall j :: 0 <= j < i ==> entries[j] == shifted[j]
        invariant forall j :: i <= j < count ==> entries[j] == was[j]
      {
        entries[i] := entries[i + 1];
        i := i + 1;
      }
      count := count - 1;
      entries[count] := Known([], 0, []);
    }

    // --------------------------------------------------------------- policy --

    /** `check_hostkey`.  `answer` is what the user would say if asked.  What it leaves is a
      * step of `Trust.Next`, and so is a power cut at any point of it. */
    method CheckHostkey(address: bytes, port: int, fingerprint: bytes, answer: bool) returns (accepted: bool)
      requires Valid() && Connect(address, port, fingerprint, answer).WellFormed()
      modifies this`count, entries, card
      ensures Valid() && old(card.past) <= card.past
      ensures accepted == Accepts(old(List()), Connect(address, port, fingerprint, answer))
      ensures accepted == match Lookup(old(List()), address, port)
        case None => answer
        case Some(known) => known == fingerprint
      ensures var e := Connect(address, port, fingerprint, answer);
        Finishes(old(View()), e, View(), card.faults == old(card.faults))
      ensures forall i, w, read :: |old(card.past)| <= i < |card.past| && Starts(card.past[i], w, read) ==>
        LosesPower(old(View()), Connect(address, port, fingerprint, answer), w, read)
    {
      var known := LookupEntry(address, port);
      if known.Some? {
        return known.value == fingerprint;
      }
      if !answer {
        return false;
      }
      var result := RememberEntry(address, port, fingerprint);
      return true;
    }
  }
}
