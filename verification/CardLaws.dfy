/** What `src/psp/cardfile.c` promises about a battery pull. */
module CardLaws {
  import opened Bytes
  import opened Card

  /** The old content or the new content, nothing in between. */
  predicate OldOrNew(d: Disk, path: Path, text: bytes, max: int, crashed: Disk) {
    ReadBack(crashed, path, max) == ReadBack(d, path, max) || ReadBack(crashed, path, max) == Contents(text)
  }

  /** Every file but the one written and its temporary copy is as it was. */
  ghost predicate OthersKept(d: Disk, path: Path, d': Disk) {
    forall p :: p != path && p != Temp(path) ==> (p in d' <==> p in d) && (p in d ==> d'[p] == d[p])
  }

  /** A crash at any step of replacing an existing file: the next read finds the old content
    * or the new, puts the file back under its own name, and leaves every other file alone. */
  lemma CrashIsAtomic(d: Disk, path: Path, text: bytes, max: int, crashed: Disk)
    requires path in d && |text| < max && MidWrite(d, path, text, crashed)
    ensures OldOrNew(d, path, text, max, crashed)
    ensures path in Adopt(crashed, path, max)
    ensures Adopt(crashed, path, max)[path] == d[path] || Adopt(crashed, path, max)[path] == text
    ensures OthersKept(d, path, Adopt(crashed, path, max))
  {
  }

  /** That is exactly when it holds: with no file to replace, only the empty text is safe. */
  lemma AtomicExactlyWhenReplacing(d: Disk, path: Path, text: bytes, max: int)
    requires |text| < max
    ensures (forall crashed :: MidWrite(d, path, text, crashed) ==> OldOrNew(d, path, text, max, crashed))
        <==> path in d || text == []
  {
    if path in d {
      forall crashed | MidWrite(d, path, text, crashed) {
        CrashIsAtomic(d, path, text, max, crashed);
      }
    } else if text != [] {
      Reached(d, path, text, Writing(0));
      Reached(d, path, text, Discarded);
      var begun, dropped := DiskAt(d, path, text, Writing(0)), DiskAt(d, path, text, Discarded);
      assert ReadBack(begun, path, max) == Contents([]);
      assert ReadBack(dropped, path, max) == Absent;
      assert !OldOrNew(d, path, text, max, begun) || !OldOrNew(d, path, text, max, dropped);
    }
  }

  /** A first save that loses power adopts whatever prefix had been written. */
  lemma TornFirstSave(d: Disk, path: Path, text: bytes, n: nat, max: int)
    requires path !in d && n <= |text| < max
    ensures exists crashed :: MidWrite(d, path, text, crashed) && ReadBack(crashed, path, max) == Contents(text[..n])
  {
    Reached(d, path, text, Writing(n));
    assert ReadBack(DiskAt(d, path, text, Writing(n)), path, max) == Contents(text[..n]);
  }

  /** The start after a crash: its read adopts what was left, or is stopped by a read error
    * and leaves the card as it is. */
  predicate Starts(crashed: Disk, path: Path, max: int, d': Disk, read: bool) {
    d' == if read then Adopt(crashed, path, max) else crashed
  }

  /** The power went in the moment neither file was in place, and the read at the next start
    * was stopped. */
  predicate StoppedInBetween(d: Disk, path: Path, text: bytes, crashed: Disk, read: bool) {
    crashed == DiskAt(d, path, text, Cleared) && !read
  }

  /** After a crash in a write over an existing file and the start that follows, that file is
    * in place, but for exactly that. */
  lemma InPlaceExactlyWhenRead(d: Disk, path: Path, text: bytes, max: int, crashed: Disk, d': Disk, read: bool)
    requires path in d && |text| < max
    requires MidWrite(d, path, text, crashed) && Starts(crashed, path, max, d', read)
    ensures path !in d' <==> StoppedInBetween(d, path, text, crashed, read)
  {
    var s: Stage :| s.Possible(text) && crashed == DiskAt(d, path, text, s);
    CrashIsAtomic(d, path, text, max, crashed);
  }

  /** Where the promise ends: power lost between remove and rename, the temporary file not
    * readable at the next start, power lost again early in the next save.  The text was whole
    * on the card and is gone, and so is the one before it. */
  lemma UnreadTempIsLost(d: Disk, path: Path, text: bytes, next: bytes, max: int)
    requires path in d && |text| < max && 0 < max
    ensures exists crashed, torn ::
      && MidWrite(d, path, text, crashed) && ReadBack(crashed, path, max) == Contents(text)
      && StoppedInBetween(d, path, text, crashed, false) && Starts(crashed, path, max, crashed, false)
      && MidWrite(crashed, path, next, torn) && ReadBack(torn, path, max) == Contents([])
  {
    var crashed := DiskAt(d, path, text, Cleared);
    var torn := DiskAt(crashed, path, next, Writing(0));
    Reached(d, path, text, Cleared);
    Reached(crashed, path, next, Writing(0));
  }

  /** A first save that fails, the card failing one call, leaves to be read what was there to be
    * read before, or nothing. */
  lemma FailedFirstSave(d: Disk, path: Path, max: int, d': Disk)
    requires path !in d && (d' == d || d' == d - {Temp(path)})
    ensures ReadBack(d', path, max) == ReadBack(d, path, max) || ReadBack(d', path, max) == Absent
  {
  }

  // ------------------------------------------------------------------ rounds --

  /** One power-on: a write begun on `d`, completed or not, and the read at the next. */
  ghost predicate Round(d: Disk, path: Path, text: bytes, max: int, d': Disk) {
    exists crashed :: MidWrite(d, path, text, crashed) && d' == Adopt(crashed, path, max)
  }

  ghost predicate Rounds(ds: seq<Disk>, path: Path, texts: seq<bytes>, max: int) {
    && |ds| == |texts| + 1
    && forall i :: 0 <= i < |texts| ==> |texts[i]| < max && Round(ds[i], path, texts[i], max, ds[i + 1])
  }

  /** The content after some rounds: the first content, or one of the texts written. */
  predicate Written(first: bytes, texts: seq<bytes>, content: bytes) {
    content == first || content in texts
  }

  lemma RoundIsAtomic(d: Disk, path: Path, text: bytes, max: int, d': Disk)
    requires path in d && |text| < max && Round(d, path, text, max, d')
    ensures path in d' && (d'[path] == d[path] || d'[path] == text)
    ensures OthersKept(d, path, d')
  {
    var crashed :| MidWrite(d, path, text, crashed) && d' == Adopt(crashed, path, max);
    CrashIsAtomic(d, path, text, max, crashed);
  }

  lemma RoundAt(ds: seq<Disk>, path: Path, texts: seq<bytes>, max: int, k: nat)
    requires Rounds(ds, path, texts, max) && k < |texts|
    ensures |texts[k]| < max && Round(ds[k], path, texts[k], max, ds[k + 1])
  {
  }

  lemma {:induction false} RoundsUpTo(ds: seq<Disk>, path: Path, texts: seq<bytes>, max: int, k: nat)
    requires Rounds(ds, path, texts, max) && path in ds[0] && k < |ds|
    ensures path in ds[k] && Written(ds[0][path], texts, ds[k][path]) && OthersKept(ds[0], path, ds[k])
    ensures k > 0 ==> path in ds[k - 1] && (ds[k][path] == ds[k - 1][path] || ds[k][path] == texts[k - 1])
    decreases k
  {
    if k > 0 {
      RoundsUpTo(ds, path, texts, max, k - 1);
      RoundAt(ds, path, texts, max, k - 1);
      RoundIsAtomic(ds[k - 1], path, texts[k - 1], max, ds[k]);
    }
  }

  /** However often the power goes, every read finds one of the texts whole, and each round
    * either took or left the content as it was. */
  lemma EveryRoundIsAtomic(ds: seq<Disk>, path: Path, texts: seq<bytes>, max: int)
    requires Rounds(ds, path, texts, max) && path in ds[0]
    ensures forall i :: 0 <= i < |ds| ==> path in ds[i]
    ensures forall i :: 0 <= i < |texts| ==> ds[i + 1][path] == ds[i][path] || ds[i + 1][path] == texts[i]
    ensures Written(ds[0][path], texts, ds[|texts|][path])
    ensures OthersKept(ds[0], path, ds[|texts|])
  {
    forall i | 0 <= i < |ds|
      ensures path in ds[i]
    {
      RoundsUpTo(ds, path, texts, max, i);
    }
    forall i | 0 <= i < |texts|
      ensures ds[i + 1][path] == ds[i][path] || ds[i + 1][path] == texts[i]
    {
      RoundsUpTo(ds, path, texts, max, i + 1);
    }
    RoundsUpTo(ds, path, texts, max, |texts|);
  }
}
