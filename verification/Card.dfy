/** `src/psp/cardfile.c`: small files replaced whole on a card that can lose power.
  *
  * The card keeps every state it has been in.  A crash leaves it in one of those, so a
  * claim about all of them is a claim about a crash at any step.
  */
module Card {
  import opened Bytes

  type Path = string
  type Disk = map<Path, bytes>

  function Temp(path: Path): (t: Path)
    ensures t != path
  {
    assert |path + ".tmp"| == |path| + 4;
    path + ".tmp"
  }

  // --------------------------------------------------------- what a read finds --

  datatype Outcome = Contents(text: bytes) | Absent | Refused

  /** What reading `path` back gives, adopting what an interrupted write left behind. */
  function ReadBack(d: Disk, path: Path, max: int): Outcome {
    if path in d then
      if |d[path]| < max then Contents(d[path]) else Refused
    else if Temp(path) in d && |d[Temp(path)]| < max then Contents(d[Temp(path)])
    else Absent
  }

  /** The card after that read. */
  function Adopt(d: Disk, path: Path, max: int): Disk {
    if path !in d && Temp(path) in d && |d[Temp(path)]| < max
    then (d - {Temp(path)})[path := d[Temp(path)]] else d
  }

  // ------------------------------------------------------ the states of a write --

  /** How far a write has got. */
  datatype Stage =
    | Untouched
    | Writing(done: nat)   // the temporary file holds this many bytes
    | Discarded            // a write failed and the temporary file was removed
    | Cleared              // the temporary file is whole and the old file is gone
    | Installed
  {
    predicate Possible(text: bytes) {
      (Writing? ==> done <= |text|) && (Discarded? ==> text != [])
    }
  }

  function DiskAt(d: Disk, path: Path, text: bytes, s: Stage): Disk
    requires s.Possible(text)
  {
    match s
    case Untouched => d
    case Writing(n) => d[Temp(path) := text[..n]]
    case Discarded => d - {Temp(path)}
    case Cleared => (d - {path})[Temp(path) := text]
    case Installed => (d - {Temp(path)})[path := text]
  }

  /** `d'` is a state the card can be in during a write of `text` begun on `d`. */
  ghost predicate MidWrite(d: Disk, path: Path, text: bytes, d': Disk) {
    exists s: Stage :: s.Possible(text) && d' == DiskAt(d, path, text, s)
  }

  lemma Reached(d: Disk, path: Path, text: bytes, s: Stage)
    requires s.Possible(text)
    ensures MidWrite(d, path, text, DiskAt(d, path, text, s))
  {
  }

  // ---------------------------------------------------------------- the card --

  class MemoryCard {
    var files: Disk

    /** Every state since the card was put in, the present one last. */
    ghost var past: seq<Disk>
    /** How many calls the device has failed that it could have carried out. */
    ghost var faults: nat

    ghost predicate Valid()
      reads this
    {
      past != [] && past[|past| - 1] == files
    }

    constructor (d: Disk)
      ensures Valid() && files == d && past == [d] && faults == 0
    {
      files, past, faults := d, [d], 0;
    }

    // The device.  What it may do is chosen freely here; what it did is in the contract.

    method OpenTruncate(path: Path) returns (ok: bool)
      requires Valid()
      modifies this
      ensures Valid() && past == old(past) + [files]
      ensures files == if ok then old(files)[path := []] else old(files)
      ensures faults == if ok then old(faults) else old(faults) + 1
    {
      ok := *;
      if ok {
        files := files[path := []];
      } else {
        faults := faults + 1;
      }
      past := past + [files];
    }

    /** Appends some of `chunk` and says how much; zero or less is a failure. */
    method Write(path: Path, chunk: bytes) returns (n: int)
      requires Valid() && path in files && chunk != []
      modifies this
      ensures Valid() && past == old(past) + [files]
      ensures n <= |chunk|
      ensures files == if n <= 0 then old(files) else old(files)[path := old(files)[path] + chunk[..n]]
      ensures faults == if n <= 0 then old(faults) + 1 else old(faults)
    {
      n := *;
      if n > |chunk| {
        n := |chunk|;
      }
      if n > 0 {
        files := files[path := files[path] + chunk[..n]];
      } else {
        faults := faults + 1;
      }
      past := past + [files];
    }

    method Remove(path: Path) returns (ok: bool)
      requires Valid()
      modifies this
      ensures Valid() && past == old(past) + [files]
      ensures ok ==> path in old(files)
      ensures files == if ok then old(files) - {path} else old(files)
      ensures faults == if ok || path !in old(files) then old(faults) else old(faults) + 1
    {
      ok := *;
      if path !in files {
        ok := false;
      } else if ok {
        files := files - {path};
      } else {
        faults := faults + 1;
      }
      past := past + [files];
    }

    /** Cannot replace an existing file. */
    method Rename(from: Path, to: Path) returns (ok: bool)
      requires Valid()
      modifies this
      ensures Valid() && past == old(past) + [files] && faults == old(faults)
      ensures ok <==> from in old(files) && to !in old(files)
      ensures files == if ok then (old(files) - {from})[to := old(files)[from]] else old(files)
    {
      ok := from in files && to !in files;
      if ok {
        files := (files - {from})[to := files[from]];
      }
      past := past + [files];
    }

    /** Some of what is left of the file, into `buffer` at `at`; zero only at the end. */
    method Read(path: Path, buffer: array<byte>, at: int, room: int) returns (n: int)
      requires Valid() && path in files && 0 <= at <= |files[path]| && 0 < room && at + room <= buffer.Length
      modifies buffer, `faults
      ensures Valid()
      ensures n <= room && at + n <= |files[path]| && (n == 0 <==> at == |files[path]| && faults == old(faults))
      ensures faults == if n < 0 then old(faults) + 1 else old(faults)
      ensures n >= 0 ==> buffer[..at] == old(buffer[..at]) && buffer[at..at + n] == files[path][at..at + n]
    {
      n := *;
      if n < 0 {
        faults := faults + 1;
        return;
      }
      var most := Min(room, |files[path]| - at);
      if n == 0 || n > most {
        n := most;
      }
      forall j | at <= j < at + n {
        buffer[j] := files[path][j];
      }
    }

    // ------------------------------------------------------------ cardfile.c --

    method ReadFile(path: Path, buffer: array<byte>, max: int) returns (len: int)
      requires Valid() && 0 < max < buffer.Length
      modifies buffer, `faults
      ensures Valid() && faults >= old(faults) && -2 <= len < max
      ensures len == -1 <==> path !in files
      ensures len == -2 <==> path in files && (|files[path]| >= max || faults > old(faults))
      ensures len != -2 ==> faults == old(faults)
      ensures len >= 0 ==> len == |files[path]| && buffer[..len] == files[path] && buffer[len] == NUL
    {
      if path !in files {
        return -1;
      }
      var total := 0;
      while true
        modifies buffer, `faults
        invariant Valid() && faults == old(faults) && 0 <= total <= |files[path]| && total < max
        invariant buffer[..total] == files[path][..total]
        decreases max - total
      {
        var n := Read(path, buffer, total, max - total);
        if n < 0 {
          return -2;
        }
        if n == 0 {
          break;
        }
        assert buffer[..total + n] == buffer[..total] + buffer[total..total + n];
        assert files[path][..total + n] == files[path][..total] + files[path][total..total + n];
        total := total + n;
        if total >= max {
          return -2;
        }
      }
      assert files[path][..total] == files[path];
      buffer[total] := NUL;
      return total;
    }

    method CardfileRead(path: Path, buffer: array<byte>, max: int) returns (len: int)
      requires Valid() && 0 < max < buffer.Length
      modifies this, buffer
      ensures Valid() && -2 <= len < max && faults >= old(faults)
      ensures past[|past| - 1] == files && old(past) <= past
      ensures forall i :: |old(past)| <= i < |past| ==> past[i] == files
      ensures len >= 0 ==>
        && ReadBack(old(files), path, max) == Contents(buffer[..len]) && buffer[len] == NUL
        && files == Adopt(old(files), path, max)
      ensures len < 0 ==> files == old(files)
      ensures len < 0 && faults == old(faults) ==>
        ReadBack(old(files), path, max) == if len == -1 then Absent else Refused
      ensures len >= 0 ==> faults == old(faults)
      ensures len == -2 <==> path in old(files) && (|old(files)[path]| >= max || faults > old(faults))
      ensures len == -1 <==>
        (path !in old(files)
         && (Temp(path) !in old(files) || |old(files)[Temp(path)]| >= max || faults > old(faults)))
      ensures faults > old(faults) ==> path in old(files) || Temp(path) in old(files)
    {
      len := ReadFile(path, buffer, max);
      if len != -1 {
        return;
      }
      var temp := Temp(path);
      len := ReadFile(temp, buffer, max);
      if len < 0 {
        return -1;
      }
      var renamed := Rename(temp, path);
    }

    /** The first half of a write: the whole text under the temporary name, or nothing. */
    method FillTemp(path: Path, text: bytes) returns (ok: bool)
      requires Valid()
      modifies this
      ensures Valid() && old(past) <= past && faults >= old(faults)
      ensures forall i :: |old(past)| <= i < |past| ==> MidWrite(old(files), path, text, past[i])
      ensures ok <==> faults == old(faults)
      ensures ok ==> files == old(files)[Temp(path) := text]
      ensures faults <= old(faults) + 2
      ensures !ok && faults == old(faults) + 1 ==> files == old(files) || files == old(files) - {Temp(path)}
      ensures faults == old(faults) + 2 ==> exists n :: 0 <= n <= |text| && files == old(files)[Temp(path) := text[..n]]
      ensures forall p :: p in files && p != Temp(path) ==> p in old(files) && files[p] == old(files)[p]
      ensures forall p :: p in old(files) && p != Temp(path) ==> p in files
    {
      ghost var d := files;
      var temp := Temp(path);
      var isOpen := OpenTruncate(temp);
      if !isOpen {
        Reached(d, path, text, Untouched);
        return false;
      }
      Reached(d, path, text, Writing(0));
      var written := 0;
      while written < |text|
        invariant 0 <= written <= |text| && Valid() && old(past) <= past && faults == old(faults)
        invariant files == d[temp := text[..written]]
        invariant forall i :: |old(past)| <= i < |past| ==> MidWrite(d, path, text, past[i])
      {
        var n := Write(temp, text[written..]);
        if n <= 0 {
          Reached(d, path, text, Writing(written));
          var gone := Remove(temp);
          assert gone ==> files == d - {temp};
          Reached(d, path, text, Discarded);
          return false;
        }
        assert text[..written] + text[written..][..n] == text[..written + n];
        written := written + n;
        Reached(d, path, text, Writing(written));
      }
      assert text[..written] == text;
      return true;
    }

    method CardfileWrite(path: Path, text: bytes) returns (result: int)
      requires Valid()
      modifies this
      ensures Valid() && old(past) <= past && faults >= old(faults)
      ensures forall i :: |old(past)| <= i < |past| ==> MidWrite(old(files), path, text, past[i])
      ensures result == 0 || result == -1
      ensures result == 0 <==> faults == old(faults)
      ensures result == 0 ==> files == DiskAt(old(files), path, text, Installed)
      ensures result != 0 ==> (path in files <==> path in old(files))
      ensures result != 0 && path in old(files) ==> files[path] == old(files)[path]
      ensures result != 0 && path !in old(files) && faults == old(faults) + 1 ==>
        files == old(files) || files == old(files) - {Temp(path)}
    {
      ghost var d := files;
      var ok := FillTemp(path, text);
      if !ok {
        return -1;
      }
      var moved := SwapIn(path, text, d);
      result := if moved then 0 else -1;
    }

    /** The second half: the old file makes way for the whole new one. */
    method SwapIn(path: Path, text: bytes, ghost d: Disk) returns (moved: bool)
      requires Valid() && files == d[Temp(path) := text]
      modifies this
      ensures Valid() && old(past) <= past && faults >= old(faults)
      ensures forall i :: |old(past)| <= i < |past| ==> MidWrite(d, path, text, past[i])
      ensures moved <==> faults == old(faults)
      ensures moved ==> files == DiskAt(d, path, text, Installed)
      ensures path !in d ==> moved
      ensures !moved ==> (path in files <==> path in d)
      ensures !moved && path in d ==> files[path] == d[path]
    {
      assert text[..|text|] == text;
      Reached(d, path, text, Writing(|text|));
      var gone := Remove(path);
      assert gone ==> files == DiskAt(d, path, text, Cleared);
      Reached(d, path, text, Cleared);
      moved := Rename(Temp(path), path);
      assert moved ==> files == DiskAt(d, path, text, Installed);
      Reached(d, path, text, Installed);
    }
  }
}
