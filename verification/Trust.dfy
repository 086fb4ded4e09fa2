/** Trust on first use over whole runs: `check_hostkey` in `src/psp/main.c` on top of
  * `knownhosts.c`, through failed saves, power cuts and restarts.
  */
module Trust {
  import opened Bytes
  import opened Text
  import opened Card
  import opened KnownHosts
  import CardLaws
  import KnownMap

  const KNOWN_PATH := "pspssh.known"

  /** The keys in memory and the card they are saved on. */
  datatype World = World(memory: seq<Known>, disk: Disk)

  /** What `knownhosts_load` takes from a card. */
  function Reload(d: Disk): seq<Known> {
    match ReadBack(d, KNOWN_PATH, FILE_MAX - 1)
    case Contents(text) => Parse(CString(text))
    case _ => []
  }

  function Restarted(d: Disk): World {
    World(Reload(d), Adopt(d, KNOWN_PATH, FILE_MAX - 1))
  }

  /** After a load that a read error stopped: nothing remembered, the card as it was. */
  function Unread(d: Disk): World {
    World([], d)
  }

  /** A start on the card `d`, its load done or, at a read error, stopped. */
  predicate Starts(d: Disk, w: World, read: bool) {
    w == if read then Restarted(d) else Unread(d)
  }

  datatype Event =
    | Connect(address: bytes, port: int, fingerprint: bytes, trusted: bool)   // with the user's answer
    | Forgotten(address: bytes, port: int)
    | Restart
  {
    /** Arguments are C strings and C ints. */
    predicate WellFormed() {
      match this
      case Connect(address, port, fingerprint, _) =>
        NUL !in address && NUL !in fingerprint && -0x8000_0000 <= port < 0x8000_0000
      case Forgotten(_, _) => true
      case Restart => true
    }
  }

  // --------------------------------------------------------------- policy --

  /** The answer `check_hostkey` gives. */
  predicate Accepts(ks: seq<Known>, e: Event)
    requires e.Connect?
  {
    match Lookup(ks, e.address, e.port)
    case Some(known) => known == e.fingerprint
    case None => e.trusted
  }

  /** At any point of a run, and whatever the size of the list and of the parts: a connection to
    * a key that is not remembered is accepted if and only if the user trusts it, one to a key
    * that is if and only if it presents its fingerprint. */
  lemma AnswerIsThePolicy(w: World, e: Event)
    requires e.Connect?
    ensures Lookup(w.memory, e.address, e.port).None? ==> (Accepts(w.memory, e) <==> e.trusted)
    ensures Lookup(w.memory, e.address, e.port).Some? ==>
      (Accepts(w.memory, e) <==> Lookup(w.memory, e.address, e.port).value == e.fingerprint)
  {
  }

  /** The list the event saves, if it gets as far as saving one. */
  function ToSave(ks: seq<Known>, e: Event): Option<seq<Known>> {
    match e
    case Connect(address, port, fingerprint, trusted) =>
      if Lookup(ks, address, port).None? && trusted then Remember(ks, address, port, fingerprint) else None
    case Forgotten(address, port) =>
      if Lookup(ks, address, port).Some? then Some(Forget(ks, address, port)) else None
    case Restart => None
  }

  /** How a save of `ks` that returned can have left the card. */
  predicate SaveReturned(d: Disk, ks: seq<Known>, d': Disk, ok: bool) {
    if ok then d' == DiskAt(d, KNOWN_PATH, Print(ks), Installed)
    else KNOWN_PATH in d ==> KNOWN_PATH in d' && d'[KNOWN_PATH] == d[KNOWN_PATH]
  }

  /** The event runs to its end, its save succeeding or not. */
  predicate Finishes(w: World, e: Event, w': World, ok: bool) {
    match ToSave(w.memory, e)
    case Some(ks) => w'.memory == ks && SaveReturned(w.disk, ks, w'.disk, ok)
    case None => w' == w
  }

  /** The power goes during the event, and the next start loads from what is on the card. */
  ghost predicate LosesPower(w: World, e: Event, w': World, read: bool) {
    match ToSave(w.memory, e)
    case Some(ks) =>
      exists crashed :: MidWrite(w.disk, KNOWN_PATH, Print(ks), crashed) && Starts(crashed, w', read)
    case None => Starts(w.disk, w', read)
  }

  /** How an event ended: finished, with its save done or failed, or in another start, with
    * its load done or stopped. */
  datatype Ending = Finished(saved: bool) | Started(read: bool)

  ghost predicate Next(w: World, e: Event, end: Ending, w': World) {
    match end
    case Finished(saved) => !e.Restart? && Finishes(w, e, w', saved)
    case Started(read) => LosesPower(w, e, w', read)
  }

  // -------------------------------------------------------------- pinning --

  /** Both in memory and on the card, the key is bound to this fingerprint. */
  predicate Pinned(w: World, address: bytes, port: int, fingerprint: bytes) {
    && Lookup(w.memory, address, port) == Some(fingerprint)
    && KNOWN_PATH in w.disk && Lookup(Reload(w.disk), address, port) == Some(fingerprint)
  }

  predicate Concerns(e: Event, address: bytes, port: int) {
    e.Forgotten? && e.address == address && e.port == port
  }

  lemma {:induction false} OnlyLastingAreKept(ks: seq<Known>, lines: seq<bytes>)
    requires forall k :: k in ks ==> Lasting(k.address, k.port)
    requires forall line :: line in lines ==> NUL !in line && NoBreak(line)
    ensures forall k :: k in Collect(ks, lines) ==> Lasting(k.address, k.port)
    decreases |lines|
  {
    if lines != [] {
      assert lines[0] in lines;
      if |ks| < KNOWN_MAX && TakeLine(lines[0]).Some? {
        TakenIsKept(lines[0]);
        OnlyLastingAreKept(ks + [TakeLine(lines[0]).value], lines[1..]);
      } else {
        OnlyLastingAreKept(ks, lines[1..]);
      }
    }
  }

  /** A key found after a load is one that lasts. */
  lemma LoadedKeysLast(d: Disk, address: bytes, port: int)
    requires Lookup(Reload(d), address, port).Some?
    ensures Lasting(address, port)
  {
    var text := CString(ReadBack(d, KNOWN_PATH, FILE_MAX - 1).text);
    LineBytes(text, 0);
    OnlyLastingAreKept([], Lines(text));
    assert Reload(d)[Find(Reload(d), address, port)] in Reload(d);
  }

  lemma ReloadIsKept(d: Disk)
    ensures AllKept(Reload(d))
  {
    if ReadBack(d, KNOWN_PATH, FILE_MAX - 1).Contents? {
      ParsedIsKept(ReadBack(d, KNOWN_PATH, FILE_MAX - 1).text);
    }
  }

  /** What a load finds once `ks` is on the card. */
  lemma ReloadOfPrinted(d: Disk, ks: seq<Known>)
    requires AllKept(ks) && KNOWN_PATH in d && d[KNOWN_PATH] == Print(ks)
    ensures Reload(d) == LastingOnly(ks)
  {
    PrintSize(ks);
    CStringWhole(Print(ks));
    ListRoundTrip(ks);
  }

  /** Events other than forgetting this very key leave what a lookup of it finds. */
  lemma OtherEventsKeepAnswer(ks: seq<Known>, e: Event, address: bytes, port: int)
    requires Lookup(ks, address, port).Some? && ToSave(ks, e).Some? && !Concerns(e, address, port)
    ensures Lookup(ToSave(ks, e).value, address, port) == Lookup(ks, address, port)
  {
    var at, there := Find(ks, address, port), Find(ks, e.address, e.port);
    var ks' := ToSave(ks, e).value;
    if e.Connect? {
      assert ks' == ks + [ks'[|ks|]];
      assert ks'[at] == ks[at];
    } else {
      assert there != at;
      var at' := if at < there then at else at - 1;
      assert ks'[at'] == ks[at];
      forall i | 0 <= i < at'
        ensures !(ks'[i].address == address && ks'[i].port == port)
      {
        assert ks'[i] == if i < there then ks[i] else ks[i + 1];
      }
    }
  }

  lemma SavesAreKept(w: World, e: Event)
    requires AllKept(w.memory) && e.WellFormed() && ToSave(w.memory, e).Some?
    ensures AllKept(ToSave(w.memory, e).value)
  {
    if e.Connect? {
      RememberedIsKept(w.memory, e.address, e.port, e.fingerprint);
    } else {
      ForgottenIsKept(w.memory, e.address, e.port);
    }
  }

  lemma NextIsKept(w: World, e: Event, end: Ending, w': World)
    requires AllKept(w.memory) && e.WellFormed() && Next(w, e, end, w')
    ensures AllKept(w'.memory)
  {
    match ToSave(w.memory, e)
    case Some(ks) =>
      SavesAreKept(w, e);
      if end.Started? {
        var crashed :| MidWrite(w.disk, KNOWN_PATH, Print(ks), crashed) && Starts(crashed, w', end.read);
        ReloadIsKept(crashed);
      }
    case None =>
      ReloadIsKept(w.disk);
  }

  /** Through anything but being forgotten itself a pinned key stays pinned, if and only if
    * the event does not end in a start whose load is stopped. */
  lemma PinHolds(w: World, e: Event, end: Ending, w': World, address: bytes, port: int, fingerprint: bytes)
    requires AllKept(w.memory) && e.WellFormed() && Next(w, e, end, w')
    requires Pinned(w, address, port, fingerprint) && !Concerns(e, address, port)
    ensures Pinned(w', address, port, fingerprint) <==> end != Started(false)
  {
    match end
    case Finished(saved) =>
      FinishedIsPinned(w, e, w', saved, address, port, fingerprint);
    case Started(read) =>
      if read {
        RestartedIsPinned(w, e, w', address, port, fingerprint);
      }
  }

  lemma FinishedIsPinned(w: World, e: Event, w': World, saved: bool, address: bytes, port: int, fingerprint: bytes)
    requires AllKept(w.memory) && e.WellFormed() && Finishes(w, e, w', saved)
    requires Pinned(w, address, port, fingerprint) && !Concerns(e, address, port)
    ensures Pinned(w', address, port, fingerprint)
  {
    if ToSave(w.memory, e).Some? {
      LoadedKeysLast(w.disk, address, port);
      OtherEventsKeepAnswer(w.memory, e, address, port);
      if saved {
        SavedIsPinned(w, e, w', address, port);
      } else {
        UnsavedIsPinned(w, w', w'.memory, address, port, fingerprint);
      }
    }
  }

  lemma RestartedIsPinned(w: World, e: Event, w': World, address: bytes, port: int, fingerprint: bytes)
    requires AllKept(w.memory) && e.WellFormed() && LosesPower(w, e, w', true)
    requires Pinned(w, address, port, fingerprint) && !Concerns(e, address, port)
    ensures Pinned(w', address, port, fingerprint)
  {
    match ToSave(w.memory, e)
    case None =>
      LoadedIsPinned(w.disk, address, port, fingerprint);
    case Some(ks) =>
      SavesAreKept(w, e);
      LoadedKeysLast(w.disk, address, port);
      OtherEventsKeepAnswer(w.memory, e, address, port);
      ReloadKeepsAnswers(ks, address, port);
      var crashed :| MidWrite(w.disk, KNOWN_PATH, Print(ks), crashed) && Starts(crashed, w', true);
      CrashedLookup(w.disk, ks, crashed, address, port, fingerprint);
  }

  lemma UnsavedIsPinned(w: World, w': World, ks: seq<Known>, address: bytes, port: int, fingerprint: bytes)
    requires Pinned(w, address, port, fingerprint) && SaveReturned(w.disk, ks, w'.disk, false)
    requires w'.memory == ks && Lookup(ks, address, port) == Some(fingerprint)
    ensures Pinned(w', address, port, fingerprint)
  {
  }

  lemma CrashedLookup(d: Disk, ks: seq<Known>, crashed: Disk, address: bytes, port: int, fingerprint: bytes)
    requires AllKept(ks) && KNOWN_PATH in d && MidWrite(d, KNOWN_PATH, Print(ks), crashed)
    requires Lookup(Reload(d), address, port) == Lookup(LastingOnly(ks), address, port) == Some(fingerprint)
    ensures Pinned(Restarted(crashed), address, port, fingerprint)
  {
    PrintSize(ks);
    CardLaws.CrashIsAtomic(d, KNOWN_PATH, Print(ks), FILE_MAX - 1, crashed);
    var d' := Restarted(crashed).disk;
    if d'[KNOWN_PATH] == Print(ks) {
      ReloadOfPrinted(d', ks);
    } else {
      assert Reload(d') == Reload(d);
    }
    assert Reload(crashed) == Reload(d');
  }

  /** The parts of a connection that fit their fields and the file's format. */
  predicate Fits(e: Event)
    requires e.Connect?
  {
    && 0 < |e.address| < ADDRESS_LEN && Storable(e.address)
    && 0 < |e.fingerprint| < FINGERPRINT_LEN && Storable(e.fingerprint)
  }

  /** When a first sight is remembered: not "either way it is answered", but exactly when it
    * is trusted, there is room, and its parts fit.  Whether the save succeeds does not matter
    * to memory. */
  lemma FirstSightRemembered(w: World, e: Event, w': World, ok: bool)
    requires AllKept(w.memory) && e.WellFormed() && e.Connect? && Finishes(w, e, w', ok)
    requires Lookup(w.memory, e.address, e.port).None?
    ensures Lookup(w'.memory, e.address, e.port) == Some(e.fingerprint)
      <==> e.trusted && |w.memory| < KNOWN_MAX && Fits(e)
  {
    KnownMap.FindDefinesMap(w.memory, e.address, e.port);
    KnownMap.RememberRefusals(w.memory, e.address, e.port, e.fingerprint);
    if ToSave(w.memory, e).Some? {
      KnownMap.RememberedIsFound(w.memory, e.address, e.port, e.fingerprint);
    }
  }

  /** A connection that can set a pin: first seen, trusted, room for it, parts that fit, and a
    * key that lasts. */
  predicate PinningSight(ks: seq<Known>, e: Event) {
    && e.Connect? && e.trusted && Lookup(ks, e.address, e.port).None? && |ks| < KNOWN_MAX
    && Lasting(e.address, e.port) && Fits(e)
  }

  /** A first sight whose save, if it comes to one, succeeds pins its key exactly then. */
  lemma FirstSightPins(w: World, e: Event, w': World)
    requires AllKept(w.memory) && e.WellFormed() && e.Connect? && Finishes(w, e, w', true)
    requires Lookup(w.memory, e.address, e.port).None?
    ensures Pinned(w', e.address, e.port, e.fingerprint) <==> PinningSight(w.memory, e)
  {
    FirstSightRemembered(w, e, w', true);
    if ToSave(w.memory, e).Some? {
      SavedIsPinned(w, e, w', e.address, e.port);
    }
    if Pinned(w', e.address, e.port, e.fingerprint) {
      LoadedKeysLast(w'.disk, e.address, e.port);
    }
  }

  /** After a save that succeeds, whatever is remembered of a lasting key is pinned. */
  lemma SavedIsPinned(w: World, e: Event, w': World, address: bytes, port: int)
    requires AllKept(w.memory) && e.WellFormed() && ToSave(w.memory, e).Some? && Finishes(w, e, w', true)
    ensures Lasting(address, port) && Lookup(w'.memory, address, port).Some? ==>
      Pinned(w', address, port, Lookup(w'.memory, address, port).value)
  {
    var ks := ToSave(w.memory, e).value;
    SavesAreKept(w, e);
    ReloadOfPrinted(w'.disk, ks);
    ReloadKeepsAnswers(ks, address, port);
  }

  /** Whatever a load finds is pinned. */
  lemma LoadedIsPinned(d: Disk, address: bytes, port: int, fingerprint: bytes)
    ensures Lookup(Restarted(d).memory, address, port) == Some(fingerprint)
      <==> Pinned(Restarted(d), address, port, fingerprint)
  {
    assert Reload(Restarted(d).disk) == Reload(d);
  }

  /** A connection the policy refuses, a changed key or an untrusted first sight, changes
    * neither memory nor card. */
  lemma RefusalStoresNothing(w: World, e: Event, w': World, ok: bool)
    requires e.Connect? && !Accepts(w.memory, e) && Finishes(w, e, w', ok)
    ensures w' == w
  {
  }

  // ------------------------------------------------- where the promises end --

  /** A key can be in the file twice, and a load finds both: forgetting it then brings the
    * second fingerprint to light. */
  lemma DuplicateLoads(address: bytes, port: int, first: bytes, second: bytes)
    requires Known(address, port, first).Kept() && Known(address, port, second).Kept() && Lasting(address, port)
    ensures var ks := [Known(address, port, first), Known(address, port, second)];
      && Reload(map[KNOWN_PATH := Print(ks)]) == ks
      && Lookup(Forget(ks, address, port), address, port) == Some(second)
  {
    var ks := [Known(address, port, first), Known(address, port, second)];
    ReloadOfPrinted(map[KNOWN_PATH := Print(ks)], ks);
    assert ks[1..] == [ks[1]] && ks[1..][1..] == [];
    assert LastingOnly(ks[1..]) == [ks[1]];
    assert Forget(ks, address, port) == [ks[1]];
  }

  /** A key whose forgetting was saved is unknown after the next load too, exactly unless a
    * lasting key was there twice. */
  lemma ForgottenAfterRestart(w: World, e: Event, w': World)
    requires AllKept(w.memory) && e.Forgotten? && Finishes(w, e, w', true)
    requires Lookup(w.memory, e.address, e.port).Some?
    ensures Lookup(Restarted(w'.disk).memory, e.address, e.port).None? <==>
      !Lasting(e.address, e.port) || KnownMap.OnlyOnce(w.memory, e.address, e.port)
  {
    SavesAreKept(w, e);
    ReloadOfPrinted(w'.disk, w'.memory);
    ReloadKeepsAnswers(w'.memory, e.address, e.port);
    KnownMap.ForgottenIsUnknown(w.memory, e.address, e.port);
  }

  /** A save that fails changes nothing for the next start: a first sight whose save failed is
    * as new then as it was. */
  lemma FailedSaveIsForgotten(w: World, e: Event, w': World)
    requires KNOWN_PATH in w.disk && ToSave(w.memory, e).Some? && Finishes(w, e, w', false)
    ensures Restarted(w'.disk).memory == Restarted(w.disk).memory
  {
  }

  /** After a stopped load a key that was pinned is new: another fingerprint for it, trusted,
    * takes its place in memory and on the card. */
  lemma UnreadKeyIsReplaced(w: World, address: bytes, port: int, fingerprint: bytes, other: bytes)
    requires AllKept(w.memory) && Pinned(w, address, port, fingerprint)
    requires Connect(address, port, other, true).WellFormed()
    requires 0 < |other| < FINGERPRINT_LEN && Storable(other)
    ensures exists blank, w' ::
      && Next(w, Restart, Started(false), blank)
      && Next(blank, Connect(address, port, other, true), Finished(true), w')
      && Pinned(w', address, port, other)
  {
    var e, ks := Connect(address, port, other, true), [Known(address, port, other)];
    var blank, at := Unread(w.disk), Find(w.memory, address, port);
    var w' := World(ks, DiskAt(w.disk, KNOWN_PATH, Print(ks), Installed));
    LoadedKeysLast(w.disk, address, port);
    assert w.memory[at] in w.memory && w.memory[at].Kept();
    assert Next(w, Restart, Started(false), blank);
    RememberAlone(address, port, other);
    assert ToSave(blank.memory, e) == Some(ks);
    assert Finishes(blank, e, w', true);
    FirstSightPins(blank, e, w');
    assert Next(blank, e, Finished(true), w');
  }

  lemma RememberAlone(address: bytes, port: int, fingerprint: bytes)
    requires Fits(Connect(address, port, fingerprint, true))
    ensures Remember([], address, port, fingerprint) == Some([Known(address, port, fingerprint)])
  {
    var k := Known(address, port, fingerprint);
    assert CopyField(address, ADDRESS_LEN) == address && CopyField(fingerprint, FINGERPRINT_LEN) == fingerprint;
    assert Find([], address, port) == 0 && [] + [k] == [k];
  }

  // ----------------------------------------------------------------- runs --

  /** Worlds one event apart, with how each event ended. */
  ghost predicate IsRun(ws: seq<World>, es: seq<Event>, ends: seq<Ending>) {
    && |ws| == |es| + 1 && |ends| == |es| && AllKept(ws[0].memory)
    && forall i :: 0 <= i < |es| ==> es[i].WellFormed() && Next(ws[i], es[i], ends[i], ws[i + 1])
  }

  lemma StepOfRun(ws: seq<World>, es: seq<Event>, ends: seq<Ending>, k: nat)
    requires IsRun(ws, es, ends) && k < |es|
    ensures es[k].WellFormed() && Next(ws[k], es[k], ends[k], ws[k + 1])
  {
  }

  lemma {:induction false} RunIsKept(ws: seq<World>, es: seq<Event>, ends: seq<Ending>, k: nat)
    requires IsRun(ws, es, ends) && k < |ws|
    ensures AllKept(ws[k].memory)
    decreases k
  {
    if k > 0 {
      RunIsKept(ws, es, ends, k - 1);
      StepOfRun(ws, es, ends, k - 1);
      NextIsKept(ws[k - 1], es[k - 1], ends[k - 1], ws[k]);
    }
  }

  /** From `from` up to `later` the key is not forgotten. */
  predicate NotForgotten(es: seq<Event>, from: nat, later: nat, address: bytes, port: int)
    requires later <= |es|
  {
    forall i :: from <= i < later ==> !Concerns(es[i], address, port)
  }

  /** From `from` up to `later` no start has its load stopped. */
  predicate LoadsDone(ends: seq<Ending>, from: nat, later: nat)
    requires later <= |ends|
  {
    forall i :: from <= i < later ==> ends[i] != Started(false)
  }

  lemma {:induction false} PinHoldsOverRun(ws: seq<World>, es: seq<Event>, ends: seq<Ending>, from: nat, later: nat,
                                           address: bytes, port: int, fingerprint: bytes)
    requires IsRun(ws, es, ends) && from <= later < |ws| && Pinned(ws[from], address, port, fingerprint)
    requires NotForgotten(es, from, later, address, port) && LoadsDone(ends, from, later)
    ensures Pinned(ws[later], address, port, fingerprint)
    decreases later
  {
    if later > from {
      var k := later - 1;
      PinHoldsOverRun(ws, es, ends, from, k, address, port, fingerprint);
      RunIsKept(ws, es, ends, k);
      StepOfRun(ws, es, ends, k);
      PinHolds(ws[k], es[k], ends[k], ws[later], address, port, fingerprint);
    }
  }

  /** Over a run the pin ends, if the key is not forgotten, exactly at the first start whose
    * load is stopped. */
  lemma StoppedLoadUnpins(ws: seq<World>, es: seq<Event>, ends: seq<Ending>, from: nat, later: nat,
                          address: bytes, port: int, fingerprint: bytes)
    requires IsRun(ws, es, ends) && from <= later < |es| && Pinned(ws[from], address, port, fingerprint)
    requires NotForgotten(es, from, later + 1, address, port) && LoadsDone(ends, from, later)
    ensures Pinned(ws[later + 1], address, port, fingerprint) <==> ends[later] != Started(false)
  {
    PinHoldsOverRun(ws, es, ends, from, later, address, port, fingerprint);
    RunIsKept(ws, es, ends, later);
    StepOfRun(ws, es, ends, later);
    PinHolds(ws[later], es[later], ends[later], ws[later + 1], address, port, fingerprint);
  }

  /** A connection to a pinned key is accepted exactly when it presents the pinned
    * fingerprint, for as long as the key is not forgotten and no load is stopped. */
  lemma PinnedKeyDecides(ws: seq<World>, es: seq<Event>, ends: seq<Ending>, from: nat, later: nat, fingerprint: bytes)
    requires IsRun(ws, es, ends) && from <= later < |es| && es[later].Connect?
    requires Pinned(ws[from], es[later].address, es[later].port, fingerprint)
    requires NotForgotten(es, from, later, es[later].address, es[later].port) && LoadsDone(ends, from, later)
    ensures Accepts(ws[later].memory, es[later]) <==> es[later].fingerprint == fingerprint
  {
    PinHoldsOverRun(ws, es, ends, from, later, es[later].address, es[later].port, fingerprint);
  }

  /** An event whose save failed left what is remembered of this key as it was. */
  predicate Settles(w: World, end: Ending, w': World, address: bytes, port: int) {
    end == Finished(false) ==> Lookup(w'.memory, address, port) == Lookup(w.memory, address, port)
  }

  /** Whatever is remembered of this key is pinned. */
  predicate Bound(w: World, address: bytes, port: int) {
    match Lookup(w.memory, address, port)
    case Some(fingerprint) => Pinned(w, address, port, fingerprint)
    case None => true
  }

  lemma StartIsBound(d: Disk, w: World, read: bool, address: bytes, port: int)
    requires Starts(d, w, read)
    ensures Bound(w, address, port)
  {
    if read && Lookup(w.memory, address, port).Some? {
      LoadedIsPinned(d, address, port, Lookup(w.memory, address, port).value);
    }
  }

  lemma StepIsBound(w: World, e: Event, end: Ending, w': World, address: bytes, port: int)
    requires AllKept(w.memory) && e.WellFormed() && Next(w, e, end, w') && Lasting(address, port)
    requires Bound(w, address, port) && Settles(w, end, w', address, port)
    ensures Bound(w', address, port)
  {
    match ToSave(w.memory, e)
    case None =>
      if end.Started? {
        StartIsBound(w.disk, w', end.read, address, port);
      }
    case Some(ks) =>
      if end.Started? {
        var crashed :| MidWrite(w.disk, KNOWN_PATH, Print(ks), crashed) && Starts(crashed, w', end.read);
        StartIsBound(crashed, w', end.read, address, port);
      } else if end.saved {
        SavedIsPinned(w, e, w', address, port);
      } else {
        assert Lookup(w'.memory, address, port) == Lookup(w.memory, address, port);
      }
  }

  /** In a run from any card, whatever is remembered of a lasting key is pinned, as long as
    * each change of it was saved. */
  lemma {:induction false} RunIsBound(d: Disk, read: bool, ws: seq<World>, es: seq<Event>, ends: seq<Ending>,
                                      k: nat, address: bytes, port: int)
    requires IsRun(ws, es, ends) && Starts(d, ws[0], read) && k < |ws| && Lasting(address, port)
    requires forall i :: 0 <= i < k ==> Settles(ws[i], ends[i], ws[i + 1], address, port)
    ensures Bound(ws[k], address, port)
    decreases k
  {
    if k == 0 {
      StartIsBound(d, ws[0], read, address, port);
    } else {
      RunIsBound(d, read, ws, es, ends, k - 1, address, port);
      RunIsKept(ws, es, ends, k - 1);
      StepOfRun(ws, es, ends, k - 1);
      StepIsBound(ws[k - 1], es[k - 1], ends[k - 1], ws[k - 1 + 1], address, port);
    }
  }

  /** A connection that is accepted and comes to its end leaves its key remembered, given room
    * and parts that fit if the key is new. */
  predicate Admitted(ks: seq<Known>, e: Event, end: Ending) {
    && e.Connect? && Accepts(ks, e) && end.Finished?
    && (Lookup(ks, e.address, e.port).None? ==> |ks| < KNOWN_MAX && Fits(e))
  }

  lemma AdmittedIsRemembered(w: World, e: Event, end: Ending, w': World)
    requires AllKept(w.memory) && e.WellFormed() && Next(w, e, end, w') && Admitted(w.memory, e, end)
    ensures Lookup(w'.memory, e.address, e.port) == Some(e.fingerprint)
  {
    if Lookup(w.memory, e.address, e.port).None? {
      FirstSightRemembered(w, e, w', end.saved);
    }
  }

  predicate SameKey(e: Event, e': Event) {
    e.Connect? && e'.Connect? && e'.address == e.address && e'.port == e.port
  }

  /** Trust on first use.  In a run from any card, once a connection to a key is accepted,
    * then until that key is forgotten connections to it are accepted exactly when they
    * present the same fingerprint, whatever the user answers, whichever saves for other keys
    * fail and whenever the power goes.  It asks that what is remembered of this key is saved
    * when it changes, that there is room for it if it is new, and that no load is stopped. */
  lemma AcceptedAgree(d: Disk, read: bool, ws: seq<World>, es: seq<Event>, ends: seq<Ending>, i: nat, j: nat)
    requires IsRun(ws, es, ends) && Starts(d, ws[0], read)
    requires i < j < |es| && SameKey(es[i], es[j]) && Lasting(es[i].address, es[i].port)
    requires Admitted(ws[i].memory, es[i], ends[i])
    requires forall k :: 0 <= k <= i ==> Settles(ws[k], ends[k], ws[k + 1], es[i].address, es[i].port)
    requires NotForgotten(es, i, j, es[i].address, es[i].port) && LoadsDone(ends, i, j)
    ensures Accepts(ws[j].memory, es[j]) <==> es[j].fingerprint == es[i].fingerprint
  {
    RunIsKept(ws, es, ends, i);
    StepOfRun(ws, es, ends, i);
    AdmittedIsRemembered(ws[i], es[i], ends[i], ws[i + 1]);
    RunIsBound(d, read, ws, es, ends, i + 1, es[i].address, es[i].port);
    PinnedKeyDecides(ws, es, ends, i + 1, j, es[i].fingerprint);
  }

  /** From a trusted first sight that was saved, in a run that started anyhow. */
  lemma TrustOnFirstUse(ws: seq<World>, es: seq<Event>, ends: seq<Ending>, from: nat, later: nat)
    requires IsRun(ws, es, ends) && from < later < |es| && SameKey(es[from], es[later])
    requires PinningSight(ws[from].memory, es[from]) && ends[from] == Finished(true)
    requires NotForgotten(es, from, later, es[from].address, es[from].port) && LoadsDone(ends, from, later)
    ensures Accepts(ws[from].memory, es[from])
    ensures Accepts(ws[later].memory, es[later]) <==> es[later].fingerprint == es[from].fingerprint
  {
    RunIsKept(ws, es, ends, from);
    StepOfRun(ws, es, ends, from);
    FirstSightPins(ws[from], es[from], ws[from + 1]);
    PinnedKeyDecides(ws, es, ends, from + 1, later, es[from].fingerprint);
  }

  // -------------------------------------------------------- one power-on --

  lemma {:induction false} RememberedUntilStart(ws: seq<World>, es: seq<Event>, ends: seq<Ending>,
                                                from: nat, later: nat, address: bytes, port: int)
    requires IsRun(ws, es, ends) && from <= later < |ws| && Lookup(ws[from].memory, address, port).Some?
    requires NotForgotten(es, from, later, address, port)
    requires forall k :: from <= k < later ==> ends[k].Finished?
    ensures Lookup(ws[later].memory, address, port) == Lookup(ws[from].memory, address, port)
    decreases later
  {
    if later > from {
      var k := later - 1;
      RememberedUntilStart(ws, es, ends, from, k, address, port);
      StepOfRun(ws, es, ends, k);
      if ToSave(ws[k].memory, es[k]).Some? {
        OtherEventsKeepAnswer(ws[k].memory, es[k], address, port);
      }
    }
  }

  /** Within one power-on memory decides alone: the same holds whether or not a save ever
    * succeeds, whatever the card holds, and for keys that do not last as well. */
  lemma OnePowerOn(ws: seq<World>, es: seq<Event>, ends: seq<Ending>, i: nat, j: nat)
    requires IsRun(ws, es, ends) && i < j < |es| && SameKey(es[i], es[j])
    requires Admitted(ws[i].memory, es[i], ends[i])
    requires NotForgotten(es, i, j, es[i].address, es[i].port)
    requires forall k :: i <= k < j ==> ends[k].Finished?
    ensures Accepts(ws[j].memory, es[j]) <==> es[j].fingerprint == es[i].fingerprint
  {
    RunIsKept(ws, es, ends, i);
    StepOfRun(ws, es, ends, i);
    AdmittedIsRemembered(ws[i], es[i], ends[i], ws[i + 1]);
    RememberedUntilStart(ws, es, ends, i + 1, j, es[i].address, es[i].port);
  }

  /** An address that starts with `#` is never pinned: trusted, saved, and after a restart as
    * new as before. */
  lemma CommentAddressIsForgotten(w: World, e: Event, w': World)
    requires AllKept(w.memory) && e.WellFormed() && e.Connect? && Finishes(w, e, w', true)
    requires Lookup(w.memory, e.address, e.port).None? && !Lasting(e.address, e.port) && e.address != []
    requires ToSave(w.memory, e).Some?
    ensures Lookup(Restarted(w'.disk).memory, e.address, e.port).None?
  {
    var ks := ToSave(w.memory, e).value;
    SavesAreKept(w, e);
    ReloadOfPrinted(w'.disk, ks);
    ReloadKeepsAnswers(ks, e.address, e.port);
  }
}
