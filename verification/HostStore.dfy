/** `src/psp/hosts.c` on the card: the array of hosts, changed in place and saved each time. */
module HostStore {
  import opened Bytes
  import opened Text
  import opened Card
  import opened Hosts
  import CardLaws

  const HOSTS_PATH := "pspssh.hosts"
  const FILE_MAX := 16384
  /** The buffer `save` builds the text in. */
  const SAVE_MAX := HOSTS_MAX * (NAME_LEN + ADDRESS_LEN + USER_LEN + PASSWORD_LEN + 32)

  // ------------------------------------------------------------ durability --

  /** What `hosts_load` makes of a card; nothing when it refuses the file. */
  function Reload(d: Disk): Option<seq<Host>> {
    match ReadBack(d, HOSTS_PATH, FILE_MAX - 1)
    case Contents(text) => Some(Parse(CString(text)))
    case Absent => Some([])
    case Refused => None
  }

  /** There is a host file and it loads as `hs`. */
  predicate Saved(d: Disk, hs: seq<Host>) {
    HOSTS_PATH in d && Reload(d) == Some(hs)
  }

  /** A save of `hs` begun on `d`, whose card went through `states` and ended as `d'`. */
  predicate Durable(d: Disk, states: seq<Disk>, d': Disk, hs: seq<Host>, ok: bool) {
    && (ok ==> Saved(d', WithoutComments(hs)))
    && (HOSTS_PATH in d && Reload(d).Some? ==>
          && (!ok ==> Saved(d', Reload(d).value))
          && forall i :: 0 <= i < |states| ==>
               Reload(states[i]) == Reload(d) || Reload(states[i]) == Some(WithoutComments(hs)))
  }

  predicate AllGood(hs: seq<Host>) {
    |hs| <= HOSTS_MAX && forall h :: h in hs ==> h.Good()
  }

  lemma SavedText(d: Disk, hs: seq<Host>)
    requires AllGood(hs) && HOSTS_PATH in d && d[HOSTS_PATH] == Print(hs)
    ensures Saved(d, WithoutComments(hs)) && |Print(hs)| < SAVE_MAX < FILE_MAX - 1
  {
    PrintSize(hs);
    CStringWhole(Print(hs));
    ListRoundTrip(hs);
  }

  /** A crash anywhere in a save of an existing host file reloads as the list before or the
    * list after. */
  lemma CrashKeepsAList(d: Disk, hs: seq<Host>, crashed: Disk)
    requires AllGood(hs) && HOSTS_PATH in d && Reload(d).Some?
    requires MidWrite(d, HOSTS_PATH, Print(hs), crashed)
    ensures Reload(crashed) == Reload(d) || Reload(crashed) == Some(WithoutComments(hs))
    ensures HOSTS_PATH in Adopt(crashed, HOSTS_PATH, FILE_MAX - 1)
  {
    PrintSize(hs);
    CardLaws.CrashIsAtomic(d, HOSTS_PATH, Print(hs), FILE_MAX - 1, crashed);
    CStringWhole(Print(hs));
    ListRoundTrip(hs);
  }

  /** There is a host file and it is not refused. */
  predicate Loadable(d: Disk) {
    HOSTS_PATH in d && |d[HOSTS_PATH]| < FILE_MAX - 1
  }

  lemma LoadableReloads(d: Disk)
    ensures Loadable(d) <==> HOSTS_PATH in d && Reload(d).Some?
  {
  }

  /** Power-ons one after another: on each a list is being saved when the power goes, or
    * not, and leaves the card in the state `crashes[i]`; the next one loads what it finds,
    * unless a read error stops it. */
  ghost predicate Sessions(ds: seq<Disk>, lists: seq<seq<Host>>, crashes: seq<Disk>, loads: seq<bool>) {
    && |ds| == |lists| + 1 && |crashes| == |lists| && |loads| == |lists|
    && forall i :: 0 <= i < |lists| ==> Session(ds[i], lists[i], crashes[i], loads[i], ds[i + 1])
  }

  ghost predicate Session(d: Disk, hs: seq<Host>, crashed: Disk, read: bool, d': Disk) {
    && Reloadable(hs) && MidWrite(d, HOSTS_PATH, Print(hs), crashed)
    && CardLaws.Starts(crashed, HOSTS_PATH, FILE_MAX - 1, d', read)
  }

  /** The power went between remove and rename and the next load was stopped. */
  predicate Stopped(d: Disk, hs: seq<Host>, crashed: Disk, read: bool) {
    CardLaws.StoppedInBetween(d, HOSTS_PATH, Print(hs), crashed, read)
  }

  lemma OneSession(d: Disk, hs: seq<Host>, crashed: Disk, read: bool, d': Disk)
    requires Session(d, hs, crashed, read, d') && Loadable(d)
    ensures Reload(d') == Reload(d) || Reload(d') == Some(hs)
    ensures HOSTS_PATH !in d' <==> Stopped(d, hs, crashed, read)
  {
    PrintSize(hs);
    LoadableReloads(d);
    CrashKeepsAList(d, hs, crashed);
    WithoutCommentsWhole(hs);
    CardLaws.InPlaceExactlyWhenRead(d, HOSTS_PATH, Print(hs), FILE_MAX - 1, crashed, d', read);
  }

  /** Every load that is not stopped finds the list the one before it could find, or the one
    * being saved since, and the file is in place again, but for exactly the sessions that
    * end between remove and rename with the next load stopped.  After the first of those
    * the list can still be found, under the temporary name. */
  lemma {:induction false} SessionsLoseNothing(ds: seq<Disk>, lists: seq<seq<Host>>, crashes: seq<Disk>,
                                               loads: seq<bool>, k: nat)
    requires Sessions(ds, lists, crashes, loads) && k < |ds|
    requires Loadable(ds[0])
    requires forall i :: 0 <= i < k - 1 ==> !Stopped(ds[i], lists[i], crashes[i], loads[i])
    ensures Reload(ds[k]).Some?
    ensures k > 0 ==> Reload(ds[k]) == Reload(ds[k - 1]) || Reload(ds[k]) == Some(lists[k - 1])
    ensures HOSTS_PATH in ds[k] <==> k == 0 || !Stopped(ds[k - 1], lists[k - 1], crashes[k - 1], loads[k - 1])
    decreases k
  {
    if k > 0 {
      SessionsLoseNothing(ds, lists, crashes, loads, k - 1);
      LoadableReloads(ds[k - 1]);
      assert Session(ds[k - 1], lists[k - 1], crashes[k - 1], loads[k - 1], ds[k - 1 + 1]);
      OneSession(ds[k - 1], lists[k - 1], crashes[k - 1], loads[k - 1], ds[k]);
    } else {
      LoadableReloads(ds[0]);
    }
  }

  /** After one of those a list that was whole on the card can be lost: if the power goes in
    * the next save too, the load after it finds an empty one. */
  lemma UnreadListIsLost(d: Disk, hs: seq<Host>, next: seq<Host>)
    requires Reloadable(hs) && HOSTS_PATH in d
    ensures exists crashed, torn ::
      && Session(d, hs, crashed, false, crashed) && Stopped(d, hs, crashed, false) && Reload(crashed) == Some(hs)
      && MidWrite(crashed, HOSTS_PATH, Print(next), torn) && Reload(torn) == Some([])
  {
    var max, text := FILE_MAX - 1, Print(hs);
    PrintSize(hs);
    CardLaws.UnreadTempIsLost(d, HOSTS_PATH, text, Print(next), max);
    var crashed, torn :|
      && MidWrite(d, HOSTS_PATH, text, crashed) && ReadBack(crashed, HOSTS_PATH, max) == Contents(text)
      && CardLaws.StoppedInBetween(d, HOSTS_PATH, text, crashed, false)
      && CardLaws.Starts(crashed, HOSTS_PATH, max, crashed, false)
      && MidWrite(crashed, HOSTS_PATH, Print(next), torn) && ReadBack(torn, HOSTS_PATH, max) == Contents([]);
    CStringWhole(text);
    ListComesBackWhole(hs);
    assert Reload(torn) == Some([]);
  }

  // ------------------------------------------------------------- the store --

  class Store {
    const card: MemoryCard
    const entries: array<Host>
    var count: nat

    ghost predicate Valid()
      reads this, entries, card
    {
      && card.Valid() && entries.Length == HOSTS_MAX && count <= HOSTS_MAX
      && forall i :: 0 <= i < count ==> entries[i].Good()
    }

    ghost function List(): (hs: seq<Host>)
      requires Valid()
      reads this, entries, card
      ensures |hs| == count && AllGood(hs)
    {
      entries[..count]
    }

    constructor (card: MemoryCard)
      requires card.Valid()
      ensures Valid() && this.card == card && fresh(entries) && List() == []
    {
      this.card := card;
      entries := new Host[HOSTS_MAX](_ => Host([], [], [], [], 22, 0));
      count := 0;
    }

    // ---------------------------------------------------------------- load --

    method Take(line: bytes)
      requires Valid() && NUL !in line
      modifies this`count, entries
      ensures Valid()
      ensures List() == if old(count) < HOSTS_MAX && TakeLine(line).Some?
                        then old(List()) + [TakeLine(line).value] else old(List())
    {
      if line == [] || line[0] == HASH || count >= HOSTS_MAX {
        return;
      }
      var fields := SplitFields(line, 8);
      if |fields| < 6 {
        return;
      }
      var entry := FromFields(fields);
      if HostProblem(entry).Some? {
        return;
      }
      TakenIsGood(line);
      Push(entry);
    }

    method Push(entry: Host)
      requires Valid() && count < HOSTS_MAX && entry.Good()
      modifies this`count, entries
      ensures Valid() && List() == old(List()) + [entry]
    {
      entries[count] := entry;
      count := count + 1;
    }

    /** `parse`: `text` is the buffer up to its terminator. */
    method ParseInto(text: bytes)
      requires Valid() && NUL !in text
      modifies this`count, entries
      ensures Valid() && List() == Collect(old(List()), Lines(text))
    {
      var line := 0;
      while line < |text|
        invariant line <= |text| && Valid()
        invariant Collect(List(), LinesFrom(text, line)) == Collect(old(List()), Lines(text))
      {
        var end, next := ScanLine(text, line);
        Take(text[line..end]);
        line := next;
      }
    }

    method Load() returns (result: int)
      requires Valid()
      modifies this`count, entries, card
      ensures Valid() && card.faults >= old(card.faults)
      ensures forall i :: |old(card.past)| <= i < |card.past| ==> card.past[i] == card.files
      ensures CardLaws.Starts(old(card.files), HOSTS_PATH, FILE_MAX - 1, card.files, card.faults == old(card.faults))
      ensures result == 0 || result == -1
      ensures card.faults == old(card.faults) ==> (result == 0 <==> Reload(old(card.files)).Some?)
      ensures card.faults == old(card.faults) && result == 0 ==> Some(List()) == Reload(old(card.files))
      ensures result == -1 ==> List() == [] && HOSTS_PATH in old(card.files)
      ensures HOSTS_PATH in old(card.files) && |old(card.files)[HOSTS_PATH]| >= FILE_MAX - 1 ==> result == -1
      ensures result == 0 && HOSTS_PATH in old(card.files) ==> Some(List()) == Reload(old(card.files))
      ensures card.faults > old(card.faults) ==>
        && List() == [] && (result == -1 <==> HOSTS_PATH in old(card.files))
        && (result == 0 ==> Temp(HOSTS_PATH) in old(card.files))
    {
      count := 0;
      var buffer := new byte[FILE_MAX](_ => NUL);
      var len := card.CardfileRead(HOSTS_PATH, buffer, FILE_MAX - 1);
      if len == -2 {
        return -1;
      }
      if len < 0 {
        return 0;
      }
      ParseInto(CString(buffer[..len]));
      return 0;
    }

    // ---------------------------------------------------------------- save --

    method Save() returns (result: int)
      requires Valid()
      modifies card
      ensures Valid() && old(card.past) <= card.past && card.faults >= old(card.faults)
      ensures result == 0 || result == -1
      ensures result == 0 <==> card.faults == old(card.faults)
      ensures Durable(old(card.files), card.past[|old(card.past)|..], card.files, List(), result == 0)
      ensures result != 0 && HOSTS_PATH !in old(card.files) && card.faults == old(card.faults) + 1 ==>
        Reload(card.files) == Reload(old(card.files)) || Reload(card.files) == Some([])
    {
      var text := BuildText();
      ghost var d := card.files;
      result := card.CardfileWrite(HOSTS_PATH, text);
      if result != 0 && HOSTS_PATH !in d && card.faults == old(card.faults) + 1 {
        CardLaws.FailedFirstSave(d, HOSTS_PATH, FILE_MAX - 1, card.files);
      }
      SaveIsDurable(d, card.past[|old(card.past)|..], card.files, List(), result == 0);
    }

    /** The loop of `save`.  Its check that the record fits never fails. */
    method BuildText() returns (text: bytes)
      requires Valid()
      ensures text == Print(List()) && |text| < SAVE_MAX
    {
      text := [];
      for i := 0 to count
        invariant text == Print(entries[..i]) && |text| < SAVE_MAX
      {
        var line := PrintFields(entries[i]) + [LF];
        assert entries[..i + 1] == entries[..i] + [entries[i]];
        PrintAppend(entries[..i], entries[i]);
        PrintSize(entries[..i + 1]);
        text := text + line;
      }
    }

    // ------------------------------------------------------------ mutation --

    method Add(entry: Host) returns (index: int)
      requires Valid() && entry.WellFormed()
      modifies this`count, entries, card
      ensures Valid() && old(card.past) <= card.past
      ensures var refused := old(count) >= HOSTS_MAX || HostProblem(entry).Some?;
        && (refused ==>
              && index == -1 && List() == old(List())
              && card.past == old(card.past) && card.files == old(card.files))
        && (!refused ==>
              && List() == old(List()) + [entry]
              && index == (if card.faults == old(card.faults) then old(count) else -1)
              && Durable(old(card.files), card.past[|old(card.past)|..], card.files, List(), index >= 0))
    {
      if count >= HOSTS_MAX {
        return -1;
      }
      if HostProblem(entry).Some? {
        return -1;
      }
      Push(entry);
      var result := Save();
      return if result != 0 then -1 else count - 1;
    }

    method Replace(index: int, entry: Host) returns (result: int)
      requires Valid() && entry.WellFormed()
      modifies entries, card
      ensures Valid() && old(card.past) <= card.past
      ensures var refused := index < 0 || index >= count || HostProblem(entry).Some?;
        && (refused ==>
              && result == -1 && List() == old(List())
              && card.past == old(card.past) && card.files == old(card.files))
        && (!refused ==>
              && List() == old(List())[index := entry]
              && result == (if card.faults == old(card.faults) then 0 else -1)
              && Durable(old(card.files), card.past[|old(card.past)|..], card.files, List(), result == 0))
    {
      if index < 0 || index >= count {
        return -1;
      }
      if HostProblem(entry).Some? {
        return -1;
      }
      entries[index] := entry;
      assert List() == old(List())[index := entry];
      result := Save();
    }

    method Remove(index: int) returns (result: int)
      requires Valid()
      modifies this`count, entries, card
      ensures Valid() && old(card.past) <= card.past
      ensures var refused := index < 0 || index >= old(count);
        && (refused ==>
              && result == -1 && List() == old(List())
              && card.past == old(card.past) && card.files == old(card.files))
        && (!refused ==>
              && List() == old(List())[..index] + old(List())[index + 1..]
              && result == (if card.faults == old(card.faults) then 0 else -1)
              && Durable(old(card.files), card.past[|old(card.past)|..], card.files, List(), result == 0))
    {
      if index < 0 || index >= count {
        return -1;
      }
      ShiftDown(index);
      result := Save();
    }

    /** The loop of `hosts_remove`, and the wiped last slot. */
    method ShiftDown(index: nat)
      requires Valid() && index < count
      modifies this`count, entries
      ensures Valid() && count == old(count) - 1
      ensures List() == old(List())[..index] + old(List())[index + 1..]
    {
      ghost var was := List();
      ghost var shifted := was[..index] + was[index + 1..];
      var i := index;
      while i + 1 < count
        modifies entries
        invariant index <= i < count
        invariant forall j :: 0 <= j < i ==> entries[j] == shifted[j]
        invariant forall j :: i <= j < count ==> entries[j] == was[j]
      {
        entries[i] := entries[i + 1];
        i := i + 1;
      }
      count := count - 1;
      entries[count] := Host([], [], [], [], 0, 0);
    }
  }

  /** A start whose load is refused, and a server added all the same: the file then holds
    * that server and nothing of what was in it. */
  method AddAfterRefusal(store: Store, entry: Host) returns (loaded: int, index: int)
    requires store.Valid() && entry.WellFormed()
    modifies store`count, store.entries, store.card
    ensures store.Valid()
    ensures loaded == -1 ==> HOSTS_PATH in old(store.card.files)
    ensures loaded == -1 && index >= 0 ==> Saved(store.card.files, WithoutComments([entry]))
  {
    loaded := store.Load();
    index := store.Add(entry);
    assert [] + [entry] == [entry];
  }

  lemma SaveIsDurable(d: Disk, states: seq<Disk>, d': Disk, hs: seq<Host>, ok: bool)
    requires AllGood(hs)
    requires forall i :: 0 <= i < |states| ==> MidWrite(d, HOSTS_PATH, Print(hs), states[i])
    requires ok ==> d' == DiskAt(d, HOSTS_PATH, Print(hs), Installed)
    requires !ok && HOSTS_PATH in d ==> HOSTS_PATH in d' && d'[HOSTS_PATH] == d[HOSTS_PATH]
    ensures Durable(d, states, d', hs, ok)
  {
    if ok {
      SavedText(d', hs);
    }
    if HOSTS_PATH in d && Reload(d).Some? {
      forall i | 0 <= i < |states| {
        CrashKeepsAList(d, hs, states[i]);
      }
    }
  }
}
