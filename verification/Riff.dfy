/** `tools/add-at3-loop.py`: a loop chunk put in front of the audio of a RIFF file. */
module Riff {
  import opened Bytes
  import opened LittleEndian
  import opened Pieces

  /** A chunk as `chunks` yields it: a four-byte name and what there is of its payload. */
  datatype Chunk = Chunk(id: bytes, payload: bytes)

  const RIFF: bytes := ['R' as int, 'I' as int, 'F' as int, 'F' as int]
  const WAVE: bytes := ['W' as int, 'A' as int, 'V' as int, 'E' as int]
  const FMT: bytes := ['f' as int, 'm' as int, 't' as int, ' ' as int]
  const FACT: bytes := ['f' as int, 'a' as int, 'c' as int, 't' as int]
  const DATA: bytes := ['d' as int, 'a' as int, 't' as int, 'a' as int]
  const SMPL: bytes := ['s' as int, 'm' as int, 'p' as int, 'l' as int]

  // ---------------------------------------------------------------- reading --

  /** Python's `data[a:b]`. */
  function Slice(data: bytes, a: nat, b: nat): (s: bytes)
    ensures |s| <= |data|
  {
    if a >= |data| || b <= a then [] else data[a..Min(b, |data|)]
  }

  /** Where the chunk after the one at `at` starts, past the padding of an odd size. */
  function NextAt(data: bytes, at: nat): (next: nat)
    requires at + 8 <= |data|
    ensures next >= at + 8
  {
    var size := Word4(data, at + 4);
    at + 8 + size + size % 2
  }

  function ChunkAt(data: bytes, at: nat): Chunk
    requires at + 8 <= |data|
  {
    Chunk(data[at..at + 4], Slice(data, at + 8, at + 8 + Word4(data, at + 4)))
  }

  function ChunksFrom(data: bytes, at: nat): seq<Chunk>
    decreases |data| - at
  {
    if at + 8 > |data| then [] else [ChunkAt(data, at)] + ChunksFrom(data, NextAt(data, at))
  }

  function Chunks(data: bytes): seq<Chunk> {
    ChunksFrom(data, 12)
  }

  method ReadChunks(data: bytes) returns (cs: seq<Chunk>)
    ensures cs == Chunks(data)
  {
    var at := 12;
    cs := [];
    while at + 8 <= |data|
      invariant 0 <= at && cs + ChunksFrom(data, at) == Chunks(data)
      decreases |data| - at
    {
      cs := cs + [ChunkAt(data, at)];
      at := NextAt(data, at);
    }
  }

  // ---------------------------------------------------------------- writing --

  ghost function EmitOne(c: Chunk): bytes {
    c.id + Pack4(|c.payload|) + c.payload + if |c.payload| % 2 == 1 then [NUL] else []
  }

  ghost function Emit(cs: seq<Chunk>): bytes {
    if cs == [] then [] else EmitOne(cs[0]) + Emit(cs[1..])
  }

  /** What any writer here puts out: a four-byte name and a size that fits its field. */
  predicate Sound(c: Chunk) {
    |c.id| == 4 && |c.payload| < LIMIT32
  }

  lemma {:induction false} ChunksAreSound(data: bytes, at: nat)
    ensures forall c :: c in ChunksFrom(data, at) ==> Sound(c)
    decreases |data| - at
  {
    if at + 8 <= |data| {
      ChunksAreSound(data, NextAt(data, at));
    }
  }

  lemma EmittedChunk(before: bytes, c: Chunk, rest: bytes)
    requires Sound(c)
    ensures var data, at := before + EmitOne(c) + rest, |before|;
      at + 8 <= |data| && ChunkAt(data, at) == c && NextAt(data, at) == at + |EmitOne(c)|
  {
    var size := Pack4(|c.payload|);
    var pad := if |c.payload| % 2 == 1 then [NUL] else [];
    ChunkPieces(before, c.id, size, c.payload, pad + rest);
    Word4Read(before + EmitOne(c) + rest, |before| + 4, |c.payload|);
  }

  lemma ChunkPieces(before: bytes, id: bytes, size: bytes, payload: bytes, rest: bytes)
    requires |id| == |size| == 4
    ensures var data, at := before + (id + size + payload) + rest, |before|;
      && data[at..at + 4] == id && At(data, at + 4, size) && data[at + 8..at + 8 + |payload|] == payload
  {
  }

  lemma ChunksStep(data: bytes, at: nat, c: Chunk, next: nat)
    requires at + 8 <= |data| && ChunkAt(data, at) == c && NextAt(data, at) == next
    ensures ChunksFrom(data, at) == [c] + ChunksFrom(data, next)
  {
  }

  lemma ReadOneEmitted(before: bytes, c: Chunk, rest: bytes, tail: seq<Chunk>)
    requires Sound(c)
    requires ChunksFrom(before + EmitOne(c) + rest, |before + EmitOne(c)|) == tail
    ensures ChunksFrom(before + EmitOne(c) + rest, |before|) == [c] + tail
  {
    EmittedChunk(before, c, rest);
    ChunksStep(before + EmitOne(c) + rest, |before|, c, |before + EmitOne(c)|);
  }

  /** Reading what was emitted gives the chunks back, odd sizes and empty ones included. */
  lemma {:induction false} ReadEmitted(before: bytes, cs: seq<Chunk>)
    requires forall c :: c in cs ==> Sound(c)
    ensures ChunksFrom(before + Emit(cs), |before|) == cs
    decreases |cs|
  {
    if cs == [] {
      assert before + Emit(cs) == before;
    } else {
      var c, tail := cs[0], cs[1..];
      var one, rest := EmitOne(c), Emit(tail);
      ReadEmitted(before + one, tail);
      ReadOneEmitted(before, c, rest, tail);
      ConcatAssociates(before, one, rest);
      FirstAndRest(cs);
    }
  }

  lemma FirstAndRest(cs: seq<Chunk>)
    requires cs != []
    ensures [cs[0]] + cs[1..] == cs
  {
  }

  lemma {:induction false} EmitAppend(cs: seq<Chunk>, c: Chunk)
    ensures Emit(cs + [c]) == Emit(cs) + EmitOne(c)
    decreases |cs|
  {
    if cs == [] {
      assert [c][1..] == [];
    } else {
      assert (cs + [c])[1..] == cs[1..] + [c];
      EmitAppend(cs[1..], c);
    }
  }

  // --------------------------------------------------------------- the loop --

  ghost function LoopChunk(total: nat, rate: nat): (c: Chunk)
    requires 0 < rate
    ensures |c.payload| == 60
  {
    Chunk(SMPL,
      Pack4(0) + Pack4(0) + Pack4(1000000000 / rate) + Pack4(60) + Pack4(0) + Pack4(0) + Pack4(0)
        + Pack4(1) + Pack4(0)
        + (Pack4(0) + Pack4(0) + Pack4(0) + Pack4(Max(total - 1, 0)) + Pack4(0) + Pack4(0)))
  }

  /** The words of the loop, as many as there are: one loop, forward and for ever, from the
    * first sample to the last, and the sample period in nanoseconds. */
  lemma LoopCoversEverything(total: nat, rate: nat)
    requires total < LIMIT32 && 0 < rate
    ensures var p := LoopChunk(total, rate).payload;
      && |p| == 60
      && Word4(p, 0) == 0 && Word4(p, 4) == 0
      && Word4(p, 8) == 1000000000 / rate         // nanoseconds a sample
      && Word4(p, 12) == 60                       // middle C
      && Word4(p, 16) == 0 && Word4(p, 20) == 0 && Word4(p, 24) == 0
      && Word4(p, 28) == 1                        // one loop
      && Word4(p, 32) == 0 && Word4(p, 36) == 0
      && Word4(p, 40) == 0                        // forward
      && Word4(p, 44) == 0                        // from the first sample
      && Word4(p, 48) == Max(total - 1, 0)        // to the last
      && Word4(p, 52) == 0
      && Word4(p, 56) == 0                        // for ever
  {
    var period, last := 1000000000 / rate, Max(total - 1, 0);
    var p := LoopChunk(total, rate).payload;
    PeriodFits(rate);
    LoopPlaces(p, Pack4(0), Pack4(period), Pack4(60), Pack4(1), Pack4(last));
    Word4Read(p, 0, 0);
    Word4Read(p, 4, 0);
    Word4Read(p, 8, period);
    Word4Read(p, 12, 60);
    Word4Read(p, 16, 0);
    Word4Read(p, 20, 0);
    Word4Read(p, 24, 0);
    Word4Read(p, 28, 1);
    Word4Read(p, 32, 0);
    Word4Read(p, 36, 0);
    Word4Read(p, 40, 0);
    Word4Read(p, 44, 0);
    Word4Read(p, 48, last);
    Word4Read(p, 52, 0);
    Word4Read(p, 56, 0);
  }

  lemma PeriodFits(rate: nat)
    requires 0 < rate
    ensures 0 <= 1000000000 / rate <= 1000000000
  {
    QuotientFits(1000000000, rate, 1000000000 / rate);
  }

  lemma QuotientFits(n: nat, rate: nat, q: nat)
    requires 0 < rate && q * rate <= n
    ensures q <= n
  {
    assert q * (rate - 1) >= 0;
  }

  lemma SixPlaces(a: bytes, b: bytes, c: bytes, d: bytes, e: bytes, f: bytes, p: bytes)
    requires |a| == |b| == |c| == |d| == |e| == |f| == 4 && p == a + b + c + d + e + f
    ensures |p| == 24 && At(p, 0, a) && At(p, 4, b) && At(p, 8, c) && At(p, 12, d) && At(p, 16, e) && At(p, 20, f)
  {
  }

  lemma ThreePlaces(front: bytes, a: bytes, b: bytes, c: bytes, p: bytes)
    requires |a| == |b| == |c| == 4 && p == front + a + b + c
    ensures |p| == |front| + 12 && At(p, 0, front)
    ensures At(p, |front|, a) && At(p, |front| + 4, b) && At(p, |front| + 8, c)
  {
  }

  lemma NinePlaces(z: bytes, period: bytes, unity: bytes, one: bytes, p: bytes)
    requires |z| == |period| == |unity| == |one| == 4
    requires p == z + z + period + unity + z + z + z + one + z
    ensures |p| == 36 && At(p, 0, z) && At(p, 4, z) && At(p, 8, period) && At(p, 12, unity) && At(p, 16, z)
    ensures At(p, 20, z) && At(p, 24, z) && At(p, 28, one) && At(p, 32, z)
  {
    var six := z + z + period + unity + z + z;
    SixPlaces(z, z, period, unity, z, z, six);
    ThreePlaces(six, z, one, z, p);
    AtWithin(p, 0, six, 0, z);
    AtWithin(p, 0, six, 4, z);
    AtWithin(p, 0, six, 8, period);
    AtWithin(p, 0, six, 12, unity);
    AtWithin(p, 0, six, 16, z);
    AtWithin(p, 0, six, 20, z);
  }

  lemma LoopPlaces(p: bytes, z: bytes, period: bytes, unity: bytes, one: bytes, last: bytes)
    requires |z| == |period| == |unity| == |one| == |last| == 4
    requires p == z + z + period + unity + z + z + z + one + z + (z + z + z + last + z + z)
    ensures At(p, 0, z) && At(p, 4, z) && At(p, 8, period) && At(p, 12, unity) && At(p, 16, z) && At(p, 20, z)
    ensures At(p, 24, z) && At(p, 28, one) && At(p, 32, z) && At(p, 36, z) && At(p, 40, z) && At(p, 44, z)
    ensures At(p, 48, last) && At(p, 52, z) && At(p, 56, z)
  {
    var front, rest := z + z + period + unity + z + z + z + one + z, z + z + z + last + z + z;
    NinePlaces(z, period, unity, one, front);
    SixPlaces(z, z, z, last, z, z, rest);
    assert At(p, 0, front) && At(p, 36, rest);
    AtWithin(p, 0, front, 0, z);
    AtWithin(p, 0, front, 4, z);
    AtWithin(p, 0, front, 8, period);
    AtWithin(p, 0, front, 12, unity);
    AtWithin(p, 0, front, 16, z);
    AtWithin(p, 0, front, 20, z);
    AtWithin(p, 0, front, 24, z);
    AtWithin(p, 0, front, 28, one);
    AtWithin(p, 0, front, 32, z);
    AtWithin(p, 36, rest, 0, z);
    AtWithin(p, 36, rest, 4, z);
    AtWithin(p, 36, rest, 8, z);
    AtWithin(p, 36, rest, 12, last);
    AtWithin(p, 36, rest, 16, z);
    AtWithin(p, 36, rest, 20, z);
  }

  /** The chunk list with the loop in front of every `data`. */
  function WithLoop(cs: seq<Chunk>, loop: Chunk): seq<Chunk> {
    if cs == [] then []
    else if cs[0].id == DATA then [loop, cs[0]] + WithLoop(cs[1..], loop)
    else [cs[0]] + WithLoop(cs[1..], loop)
  }

  lemma {:induction false} WithLoopAppend(cs: seq<Chunk>, c: Chunk, loop: Chunk)
    ensures WithLoop(cs + [c], loop) == WithLoop(cs, loop) + if c.id == DATA then [loop, c] else [c]
    decreases |cs|
  {
    if cs == [] {
      assert [c][1..] == [] && [loop, c] + [] == [loop, c] && [c] + [] == [c];
    } else {
      assert (cs + [c])[1..] == cs[1..] + [c];
      WithLoopAppend(cs[1..], c, loop);
    }
  }

  /** Taking the loops out again gives the original list. */
  function WithoutLoops(cs: seq<Chunk>): seq<Chunk> {
    if cs == [] then [] else (if cs[0].id == SMPL then [] else [cs[0]]) + WithoutLoops(cs[1..])
  }

  lemma {:induction false} OnlyLoopsAdded(cs: seq<Chunk>, loop: Chunk)
    requires loop.id == SMPL && forall c :: c in cs ==> c.id != SMPL
    ensures WithoutLoops(WithLoop(cs, loop)) == cs
    decreases |cs|
  {
    if cs != [] {
      assert cs[0] in cs;
      OnlyLoopsAdded(cs[1..], loop);
      var rest := WithLoop(cs[1..], loop);
      if cs[0].id == DATA {
        assert ([loop, cs[0]] + rest)[1..] == [cs[0]] + rest;
      }
      assert ([cs[0]] + rest)[1..] == rest;
    }
  }

  // ---------------------------------------------------------------- the tool --

  datatype Failure = NotRiffWave | AlreadyLooped | NoFormat | BadChunk | TooLarge

  datatype Found = Found(rate: Option<nat>, total: Option<nat>) | Stopped(failure: Failure)

  /** The first pass, over the chunks from `i` on.  A `fmt ` or `fact` too short to unpack
    * stops the tool, as does a loop that is there already. */
  function Scan(cs: seq<Chunk>, rate: Option<nat>, total: Option<nat>): Found {
    if cs == [] then Found(rate, total)
    else if cs[0].id == FMT then
      if |cs[0].payload| < 8 then Stopped(BadChunk) else Scan(cs[1..], Some(Word4(cs[0].payload, 4)), total)
    else if cs[0].id == FACT then
      if |cs[0].payload| < 4 then Stopped(BadChunk) else Scan(cs[1..], rate, Some(Word4(cs[0].payload, 0)))
    else if cs[0].id == SMPL then Stopped(AlreadyLooped)
    else Scan(cs[1..], rate, total)
  }

  datatype Output = Ok(data: bytes) | Failed(failure: Failure)

  method Rewrite(data: bytes) returns (r: Output)
    ensures var found := Scan(Chunks(data), None, None);
      if !(Slice(data, 0, 4) == RIFF && Slice(data, 8, 12) == WAVE) then r == Failed(NotRiffWave)
      else if found.Stopped? then r == Failed(found.failure)
      else if found.rate.None? || found.total.None? then r == Failed(NoFormat)
      else if r.Ok? then
        && |r.data| >= 12 && r.data[..4] == RIFF && r.data[8..12] == WAVE
        && Word4(r.data, 4) == |r.data| - 8
        && Chunks(r.data) == Looped(Chunks(data), found.rate.value, found.total.value)
        && !(found.rate.value == 0 && HasData(Chunks(data)))
      else if found.rate.value == 0 && HasData(Chunks(data)) then r == Failed(BadChunk)
      else
        && r == Failed(TooLarge)
        && |Emit(Looped(Chunks(data), found.rate.value, found.total.value))| + 4 >= LIMIT32
    ensures r.Ok? ==> forall c :: c in Chunks(data) ==> c.id != SMPL
    ensures r.Ok? ==> exists rate: nat, total: nat ::
      && Knows(Chunks(data), FMT, 4, None, Some(rate)) && Knows(Chunks(data), FACT, 0, None, Some(total))
      && r.data[12..] == Emit(Looped(Chunks(data), rate, total))
  {
    if Slice(data, 0, 4) != RIFF || Slice(data, 8, 12) != WAVE {
      return Failed(NotRiffWave);
    }
    var cs := ReadChunks(data);
    var rate: Option<nat>, total: Option<nat> := None, None;
    for i := 0 to |cs|
      invariant Scan(cs[i..], rate, total) == Scan(cs, None, None)
      invariant total.Some? ==> total.value < LIMIT32
      invariant forall j :: 0 <= j < i ==> cs[j].id != SMPL
    {
      var id, payload := cs[i].id, cs[i].payload;
      assert cs[i..][0] == cs[i] && cs[i..][1..] == cs[i + 1..];
      if id == FMT {
        if |payload| < 8 {
          return Failed(BadChunk);
        }
        rate := Some(Word4(payload, 4));
      } else if id == FACT {
        if |payload| < 4 {
          return Failed(BadChunk);
        }
        total := Some(Word4(payload, 0));
      } else if id == SMPL {
        assert cs[i] in cs;
        return Failed(AlreadyLooped);
      }
    }
    if rate.None? || total.None? {
      return Failed(NoFormat);
    }
    ChunksAreSound(data, 12);
    ScanTable(cs, None, None);
    r := WriteAll(cs, rate.value, total.value);
  }

  /** The chunks the second pass writes; without a `data` the loop is never made. */
  ghost function Looped(cs: seq<Chunk>, rate: nat, total: nat): seq<Chunk> {
    if rate > 0 then WithLoop(cs, LoopChunk(total, rate)) else cs
  }

  predicate HasData(cs: seq<Chunk>) {
    exists c :: c in cs && c.id == DATA
  }

  lemma {:induction false} WithLoopIsSound(cs: seq<Chunk>, loop: Chunk)
    requires Sound(loop) && forall c :: c in cs ==> Sound(c)
    ensures forall c :: c in WithLoop(cs, loop) ==> Sound(c)
    decreases |cs|
  {
    if cs != [] {
      assert cs[0] in cs;
      WithLoopIsSound(cs[1..], loop);
    }
  }

  method EmitChunk(c: Chunk) returns (s: bytes)
    requires Sound(c)
    ensures s == EmitOne(c)
  {
    var size := StructPack4(|c.payload|);
    s := c.id + size + c.payload;
    if |c.payload| % 2 == 1 {
      s := s + [NUL];
    }
  }

  /** `smpl_chunk`, before its header is put on. */
  method MakeLoop(total: nat, rate: nat) returns (c: Chunk)
    requires 0 < rate && total < LIMIT32
    ensures c == LoopChunk(total, rate)
  {
    var zero := StructPack4(0);
    var one := StructPack4(1);
    var period := StructPack4(1000000000 / rate);
    var unity := StructPack4(60);
    var end := StructPack4(Max(total - 1, 0));
    c := Chunk(SMPL, zero + zero + period + unity + zero + zero + zero + one + zero
                       + (zero + zero + zero + end + zero + zero));
  }

  lemma EmitTwo(cs: seq<Chunk>, a: Chunk, b: Chunk)
    ensures Emit(cs + [a, b]) == Emit(cs) + EmitOne(a) + EmitOne(b)
  {
    EmitAppend(cs, a);
    EmitAppend(cs + [a], b);
    assert cs + [a] + [b] == cs + [a, b];
  }

  /** What one more chunk adds. */
  lemma LoopedMore(cs: seq<Chunk>, c: Chunk, rate: nat, total: nat)
    ensures rate > 0 && c.id == DATA ==>
      Emit(Looped(cs + [c], rate, total))
        == Emit(Looped(cs, rate, total)) + EmitOne(LoopChunk(total, rate)) + EmitOne(c)
    ensures rate == 0 || c.id != DATA ==>
      Emit(Looped(cs + [c], rate, total)) == Emit(Looped(cs, rate, total)) + EmitOne(c)
  {
    if rate > 0 {
      WithLoopAppend(cs, c, LoopChunk(total, rate));
      if c.id == DATA {
        EmitTwo(Looped(cs, rate, total), LoopChunk(total, rate), c);
      }
    }
    EmitAppend(Looped(cs, rate, total), c);
  }

  /** The loop of the second pass; nothing when the sample period would divide by zero. */
  method EmitLooped(cs: seq<Chunk>, rate: nat, total: nat) returns (body: Option<bytes>)
    requires total < LIMIT32 && forall c :: c in cs ==> Sound(c)
    ensures body.None? <==> rate == 0 && HasData(cs)
    ensures body.Some? ==> body.value == Emit(Looped(cs, rate, total))
  {
    var out: bytes := [];
    for i := 0 to |cs|
      invariant out == Emit(Looped(cs[..i], rate, total))
      invariant rate == 0 ==> !HasData(cs[..i])
    {
      assert cs[..i + 1] == cs[..i] + [cs[i]] && cs[i] in cs;
      LoopedMore(cs[..i], cs[i], rate, total);
      if cs[i].id == DATA {
        if rate == 0 {
          return None;
        }
        var loop := MakeLoop(total, rate);
        var emitted := EmitChunk(loop);
        out := out + emitted;
      }
      var emitted := EmitChunk(cs[i]);
      out := out + emitted;
    }
    assert cs[..|cs|] == cs;
    return Some(out);
  }

  /** A header in front of emitted chunks reads back as those chunks. */
  lemma Assembled(cs: seq<Chunk>, size: nat)
    requires (forall c :: c in cs ==> Sound(c)) && size == |Emit(cs)| + 4 && size < LIMIT32
    ensures var out := RIFF + Pack4(size) + WAVE + Emit(cs);
      && |out| >= 12 && out[..4] == RIFF && out[8..12] == WAVE
      && Word4(out, 4) == |out| - 8 && Chunks(out) == cs
  {
    var out := RIFF + Pack4(size) + WAVE + Emit(cs);
    HeaderParts(RIFF, Pack4(size), WAVE, Emit(cs));
    Word4Read(out, 4, size);
    ReadEmitted(RIFF + Pack4(size) + WAVE, cs);
  }

  lemma HeaderParts(a: bytes, b: bytes, c: bytes, rest: bytes)
    requires |a| == |b| == |c| == 4
    ensures var out := a + b + c + rest;
      |a + b + c| == 12 && out[..4] == a && out[8..12] == c && At(out, 4, b) && |out| == 12 + |rest|
  {
  }

  /** The second pass, and the size patched into the header. */
  method WriteAll(cs: seq<Chunk>, rate: nat, total: nat) returns (r: Output)
    requires total < LIMIT32 && forall c :: c in cs ==> Sound(c)
    ensures r.Failed? <==> (rate == 0 && HasData(cs)) || |Emit(Looped(cs, rate, total))| + 4 >= LIMIT32
    ensures r.Failed? ==> r.failure == if rate == 0 && HasData(cs) then BadChunk else TooLarge
    ensures r.Ok? ==>
      && |r.data| >= 12 && r.data[..4] == RIFF && r.data[8..12] == WAVE
      && Word4(r.data, 4) == |r.data| - 8
      && Chunks(r.data) == Looped(cs, rate, total)
      && r.data[12..] == Emit(Looped(cs, rate, total))
  {
    var body := EmitLooped(cs, rate, total);
    if body.None? {
      return Failed(BadChunk);
    }
    var size := |body.value| + 4;
    if size >= LIMIT32 {
      return Failed(TooLarge);
    }
    if rate > 0 {
      WithLoopIsSound(cs, LoopChunk(total, rate));
    }
    Assembled(Looped(cs, rate, total), size);
    var packed := StructPack4(size);
    var out := RIFF + packed + WAVE + body.value;
    assert out[12..] == body.value;
    return Ok(out);
  }

  // ------------------------------------------------------- the file, byte by byte --

  /** Where a chunk's payload and its padding are in a file, and what its size field says. */
  ghost predicate ChunkBytes(data: bytes, at: nat, id: bytes, payload: bytes) {
    && at + 8 + |payload| + |payload| % 2 <= |data| && |id| == 4
    && data[at..at + 4] == id && data[at + 8..at + 8 + |payload|] == payload
    && Little(data[at + 4], data[at + 5], data[at + 6], data[at + 7]) == |payload|
  }

  /** The reader: a name, a little-endian size, the payload, one byte of padding after an odd
    * one, and the next chunk. */
  lemma ReadTable(data: bytes, at: nat, id: bytes, payload: bytes)
    requires ChunkBytes(data, at, id, payload)
    ensures ChunksFrom(data, at)
      == [Chunk(id, payload)] + ChunksFrom(data, at + 8 + |payload| + |payload| % 2)
  {
    WordBytes(data, at + 4);
    ChunksStep(data, at, Chunk(id, payload), at + 8 + |payload| + |payload| % 2);
  }

  /** A last chunk whose size runs past the end has what there is; fewer than eight bytes are
    * no chunk. */
  lemma ShortTable(data: bytes, at: nat)
    ensures at + 8 > |data| ==> ChunksFrom(data, at) == []
    ensures at + 8 <= |data| && at + 8 + Word4(data, at + 4) > |data| ==>
      ChunksFrom(data, at) == [Chunk(data[at..at + 4], data[at + 8..])]
  {
    if at + 8 <= |data| && at + 8 + Word4(data, at + 4) > |data| {
      var next := NextAt(data, at);
      assert ChunksFrom(data, next) == [];
      assert ChunkAt(data, at) == Chunk(data[at..at + 4], data[at + 8..]);
    }
  }

  /** The first chunk is looked for after the twelve bytes of the header. */
  lemma FirstTable(data: bytes)
    ensures Chunks(data) == ChunksFrom(data, 12)
  {
  }

  /** The writer: the same, with a zero for padding. */
  lemma WriteTable(c: Chunk, rest: seq<Chunk>)
    requires Sound(c)
    ensures Emit([]) == [] && Emit([c] + rest) == EmitOne(c) + Emit(rest)
    ensures ChunkBytes(EmitOne(c), 0, c.id, c.payload) && |EmitOne(c)| == 8 + |c.payload| + |c.payload| % 2
    ensures |c.payload| % 2 == 1 ==> EmitOne(c)[8 + |c.payload|] == 0
  {
    assert ([c] + rest)[1..] == rest;
    var s, size := EmitOne(c), Pack4(|c.payload|);
    ChunkPieces([], c.id, size, c.payload, if |c.payload| % 2 == 1 then [NUL] else []);
    assert [] + (c.id + size + c.payload) + (if |c.payload| % 2 == 1 then [NUL] else []) == s;
    Word4Read(s, 4, |c.payload|);
    WordBytes(s, 4);
  }

  lemma HeaderNames()
    ensures RIFF == [82, 73, 70, 70] && WAVE == [87, 65, 86, 69]
    ensures FMT == [102, 109, 116, 32] && FACT == [102, 97, 99, 116]
    ensures DATA == [100, 97, 116, 97] && SMPL == [115, 109, 112, 108]
  {
  }

  /** Every loop stands right in front of a `data`, and every `data` has one there. */
  lemma {:induction false} LoopsPrecedeData(cs: seq<Chunk>, loop: Chunk, k: nat)
    requires loop.id == SMPL && (forall c :: c in cs ==> c.id != SMPL) && k < |WithLoop(cs, loop)|
    ensures var all := WithLoop(cs, loop);
      && (all[k].id == SMPL ==> all[k] == loop && k + 1 < |all| && all[k + 1].id == DATA)
      && (all[k].id == DATA ==> k > 0 && all[k - 1] == loop)
    decreases |cs|
  {
    var rest := WithLoop(cs[1..], loop);
    assert cs[0] in cs;
    if cs[0].id == DATA {
      if k >= 2 {
        LoopsPrecedeData(cs[1..], loop, k - 2);
        StartsPlain(cs[1..], loop);
      }
    } else if k >= 1 {
      LoopsPrecedeData(cs[1..], loop, k - 1);
      StartsPlain(cs[1..], loop);
    }
  }

  lemma StartsPlain(cs: seq<Chunk>, loop: Chunk)
    requires loop.id == SMPL
    ensures var all := WithLoop(cs, loop); all != [] ==> all[0].id != DATA
  {
    assert SMPL[0] != DATA[0];
  }

  /** The last chunk of this name. */
  predicate IsLast(cs: seq<Chunk>, i: nat, id: bytes) {
    i < |cs| && cs[i].id == id && forall j :: i < j < |cs| ==> cs[j].id != id
  }

  /** `word` is what the scan knows: the word at this place of the last chunk of this name, or
    * what it knew before when there is none. */
  ghost predicate Knows(cs: seq<Chunk>, id: bytes, place: nat, before: Option<nat>, word: Option<nat>) {
    && (forall i: nat :: IsLast(cs, i, id) ==>
          |cs[i].payload| >= place + 4 && word == Some(Word4(cs[i].payload, place)))
    && ((forall i :: 0 <= i < |cs| ==> cs[i].id != id) ==> word == before)
  }

  lemma KnowsMore(cs: seq<Chunk>, id: bytes, place: nat, before: Option<nat>, next: Option<nat>, word: Option<nat>)
    requires cs != [] && Knows(cs[1..], id, place, next, word)
    requires if cs[0].id == id then |cs[0].payload| >= place + 4 && next == Some(Word4(cs[0].payload, place))
      else next == before
    ensures Knows(cs, id, place, before, word)
  {
    var rest := cs[1..];
    forall i: nat | IsLast(cs, i, id)
      ensures |cs[i].payload| >= place + 4 && word == Some(Word4(cs[i].payload, place))
    {
      if i > 0 {
        assert rest[i - 1] == cs[i] && IsLast(rest, i - 1, id);
      } else {
        assert forall j :: 0 <= j < |rest| ==> rest[j] == cs[j + 1];
      }
    }
    if forall i :: 0 <= i < |cs| ==> cs[i].id != id {
      assert forall j :: 0 <= j < |rest| ==> rest[j] == cs[j + 1];
    }
  }

  /** The rate is the second word of the last `fmt `, the total the first of the last `fact`;
    * without such a chunk there is none, and there is no `smpl`. */
  lemma {:induction false} ScanTable(cs: seq<Chunk>, rate: Option<nat>, total: Option<nat>)
    requires Scan(cs, rate, total).Found?
    ensures Knows(cs, FMT, 4, rate, Scan(cs, rate, total).rate)
    ensures Knows(cs, FACT, 0, total, Scan(cs, rate, total).total)
    ensures forall i :: 0 <= i < |cs| ==> cs[i].id != SMPL
  {
    if cs != [] {
      var head, rest, found := cs[0], cs[1..], Scan(cs, rate, total);
      HeaderNames();
      var rate' := if head.id == FMT then Some(Word4(head.payload, 4)) else rate;
      var total' := if head.id == FACT then Some(Word4(head.payload, 0)) else total;
      ScanTable(rest, rate', total');
      KnowsMore(cs, FMT, 4, rate, rate', found.rate);
      KnowsMore(cs, FACT, 0, total, total', found.total);
      assert forall i :: 0 < i < |cs| ==> cs[i] == rest[i - 1];
    }
  }

  /** When the scan stops, and why: at the first chunk that is a `smpl`, or a `fmt ` or `fact`
    * too short for its word. */
  lemma {:induction false} ScanStops(cs: seq<Chunk>, rate: Option<nat>, total: Option<nat>)
    ensures Scan(cs, rate, total).Stopped? <==> exists i :: 0 <= i < |cs| && Stops(cs[i]).Some?
    ensures Scan(cs, rate, total).Stopped? ==>
      exists i :: 0 <= i < |cs| && Stops(cs[i]) == Some(Scan(cs, rate, total).failure)
        && forall j :: 0 <= j < i ==> Stops(cs[j]).None?
  {
    if cs != [] {
      var head, rest := cs[0], cs[1..];
      HeaderNames();
      assert forall i :: 0 < i < |cs| ==> cs[i] == rest[i - 1];
      assert forall i :: 0 <= i < |rest| ==> rest[i] == cs[i + 1];
      if Stops(head).None? {
        var rate' := if head.id == FMT then Some(Word4(head.payload, 4)) else rate;
        var total' := if head.id == FACT then Some(Word4(head.payload, 0)) else total;
        ScanStops(rest, rate', total');
        if Scan(rest, rate', total').Stopped? {
          var i :| 0 <= i < |rest| && Stops(rest[i]) == Some(Scan(rest, rate', total').failure)
            && forall j :: 0 <= j < i ==> Stops(rest[j]).None?;
          assert Stops(cs[i + 1]) == Some(Scan(cs, rate, total).failure);
        }
      } else {
        assert Stops(cs[0]) == Some(Scan(cs, rate, total).failure);
      }
    }
  }

  function Stops(c: Chunk): Option<Failure> {
    if c.id == SMPL then Some(AlreadyLooped)
    else if (c.id == FMT && |c.payload| < 8) || (c.id == FACT && |c.payload| < 4) then Some(BadChunk)
    else None
  }
}
