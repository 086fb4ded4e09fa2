/** What the byte parser of `src/psp/term.c` promises over whole byte strings. */
module ParserLaws {
  import opened Bytes
  import opened Screen
  import opened Text

  // -------------------------------------------------------------- chunking --

  /** A stream may be cut anywhere, inside an escape sequence or not. */
  lemma {:induction false} RunConcat(t: Term, a: bytes, b: bytes)
    requires t.Valid()
    ensures Run(t, a + b) == Run(Run(t, a), b)
    decreases |a|
  {
    if a == [] {
      assert a + b == b;
    } else {
      assert (a + b)[0] == a[0] && (a + b)[1..] == a[1..] + b;
      RunConcat(Step(t, a[0]), a[1..], b);
    }
  }

  /** Feeding packets one after the other is feeding their concatenation. */
  function RunPackets(t: Term, packets: seq<bytes>): (t': Term)
    requires t.Valid()
    ensures t'.Valid()
    decreases |packets|
  {
    if packets == [] then t else RunPackets(Run(t, packets[0]), packets[1..])
  }

  function Flatten(packets: seq<bytes>): bytes {
    if packets == [] then [] else packets[0] + Flatten(packets[1..])
  }

  /** Two ways of cutting the same stream into packets end in the same state. */
  lemma {:induction false} AnyChunking(t: Term, packets: seq<bytes>, others: seq<bytes>)
    requires t.Valid() && Flatten(packets) == Flatten(others)
    ensures RunPackets(t, packets) == RunPackets(t, others)
  {
    PacketsAreOneStream(t, packets);
    PacketsAreOneStream(t, others);
  }

  lemma {:induction false} PacketsAreOneStream(t: Term, packets: seq<bytes>)
    requires t.Valid()
    ensures RunPackets(t, packets) == Run(t, Flatten(packets))
    decreases |packets|
  {
    if packets != [] {
      RunConcat(t, packets[0], Flatten(packets[1..]));
      PacketsAreOneStream(Run(t, packets[0]), packets[1..]);
    }
  }

  lemma RunOne(t: Term, ch: byte)
    requires t.Valid()
    ensures Run(t, [ch]) == Step(t, ch)
  {
    assert Run(Step(t, ch), [ch][1..]) == Step(t, ch);
  }

  // ------------------------------------------------------------------- OSC --

  lemma {:induction false} PayloadIsSwallowed(t: Term, payload: bytes)
    requires t.Valid() && t.mode == InOsc
    requires BEL !in payload && ESC !in payload
    ensures Run(t, payload) == t
    decreases |payload|
  {
    if payload != [] {
      assert payload[0] in payload;
      PayloadIsSwallowed(t, payload[1..]);
    }
  }

  /** A window title, ended by BEL or by ST, leaves no trace at all: not a cell, not the
    * cursor, not the bell, not even a parser register. */
  lemma SilentOsc(t: Term, payload: bytes, end: bytes)
    requires t.Valid() && t.mode == Ground
    requires BEL !in payload && ESC !in payload
    requires end == [BEL] || end == [ESC, '\\' as int]
    ensures Run(t, [ESC, ']' as int] + payload + end) == t
  {
    var begin := [ESC, ']' as int];
    var inside := t.(mode := InOsc);
    assert Run(t, begin) == inside by {
      assert begin == [ESC] + [']' as int];
      RunConcat(t, [ESC], [']' as int]);
      RunOne(t, ESC);
      RunOne(Step(t, ESC), ']' as int);
    }
    assert Run(inside, end) == t by {
      if end == [BEL] {
        RunOne(inside, BEL);
      } else {
        assert end == [ESC] + ['\\' as int];
        RunConcat(inside, [ESC], ['\\' as int]);
        RunOne(inside, ESC);
        RunOne(Step(inside, ESC), '\\' as int);
      }
    }
    PayloadIsSwallowed(inside, payload);
    RunConcat(t, begin, payload);
    RunConcat(t, begin + payload, end);
  }

  /** An ESC inside the string swallows whatever follows it, BEL included. */
  lemma OscEscapeHidesBell(t: Term)
    requires t.Valid() && t.mode == InOsc
    ensures Run(t, [ESC, BEL]) == t
  {
    assert [ESC, BEL] == [ESC] + [BEL];
    RunConcat(t, [ESC], [BEL]);
    RunOne(t, ESC);
    RunOne(Step(t, ESC), BEL);
  }

  // ---------------------------------------------------------- confinement --

  /** Same region, and every row outside it untouched. */
  predicate Confined(t: Term, t': Term)
    requires t.Valid() && t'.Valid()
  {
    && t'.rows == t.rows && t'.cols == t.cols && t'.top == t.top && t'.bottom == t.bottom
    && t'.mode == Ground && t.top <= t'.row <= t.bottom
    && forall r :: 0 <= r < t.rows && !(t.top <= r <= t.bottom) ==> t'.grid[r] == t.grid[r]
  }

  lemma FeedIsConfined(t: Term)
    requires t.Valid() && t.mode == Ground && t.top <= t.row <= t.bottom
    ensures Confined(t, LineFeed(t))
  {
  }

  lemma CharIsConfined(t: Term, ch: byte)
    requires t.Valid() && t.mode == Ground && t.top <= t.row <= t.bottom
    ensures Confined(t, PutChar(t, ch))
  {
    if t.col >= t.cols {
      FeedIsConfined(t.(col := 0));
    }
  }

  lemma StepIsConfined(t: Term, ch: byte)
    requires t.Valid() && t.mode == Ground && t.top <= t.row <= t.bottom && ch != ESC
    ensures Confined(t, Step(t, ch))
  {
    if ch == LF {
      FeedIsConfined(t);
    } else if ch >= SPACE && ch != 0x7f {
      CharIsConfined(t, ch);
    }
  }

  /** Text that starts inside the scroll region stays inside it. */
  lemma {:induction false} TextIsConfined(t: Term, data: bytes)
    requires t.Valid() && t.mode == Ground && t.top <= t.row <= t.bottom
    requires ESC !in data
    ensures Confined(t, Run(t, data))
    decreases |data|
  {
    if data != [] {
      assert data[0] in data;
      StepIsConfined(t, data[0]);
      TextIsConfined(Step(t, data[0]), data[1..]);
    }
  }

  // ------------------------------------------------------- CSI parameters --

  /** Digits accumulate in one slot, saturating at 9999 however many there are. */
  lemma {:induction false} DigitsSaturate(t: Term, ds: bytes, v: nat)
    requires t.Valid() && t.mode == InCsi && IsDigits(ds)
    requires t.params[Max(t.count, 1) - 1] == Min(v, 9999)
    ensures var k := Max(t.count, 1);
      Run(t, ds) == t.(count := k, seen := true, params := t.params[k - 1 := Min(Number(v, ds), 9999)])
    decreases |ds|
  {
    var t' := Step(t, ds[0]);
    var v' := v * 10 + (ds[0] - 0x30);
    assert t'.params[Max(t'.count, 1) - 1] == Min(v', 9999);
    if |ds| > 1 {
      DigitsSaturate(t', ds[1..], v');
    } else {
      assert Run(t', ds[1..]) == t';
    }
  }

  function JoinParams(ps: seq<bytes>): bytes
    requires ps != []
  {
    if |ps| == 1 then ps[0] else JoinParams(ps[..|ps| - 1]) + [';' as int] + ps[|ps| - 1]
  }

  predicate AreParams(ps: seq<bytes>) {
    1 <= |ps| <= MAX_PARAMS && forall i :: 0 <= i < |ps| ==> IsDigits(ps[i])
  }

  /** The register file holding exactly these parameters. */
  function Loaded(t: Term, ps: seq<bytes>): (t': Term)
    requires t.Valid() && AreParams(ps)
    ensures t'.Valid()
  {
    t.(count := |ps|, seen := true,
       params := seq(MAX_PARAMS, i requires 0 <= i < MAX_PARAMS =>
         if i < |ps| then Min(Value(ps[i]), 9999) else 0))
  }

  predicate JustBegun(t: Term) {
    t.Valid() && t.mode == InCsi && t.count == 0 && forall i :: 0 <= i < MAX_PARAMS ==> t.params[i] == 0
  }

  /** One to eight parameters are read back as printed, each cut off at 9999. */
  lemma {:induction false} ParamsRoundTrip(t: Term, ps: seq<bytes>)
    requires JustBegun(t) && AreParams(ps)
    ensures Run(t, JoinParams(ps)) == Loaded(t, ps)
    decreases |ps|
  {
    var n := |ps| - 1;
    if n == 0 {
      DigitsSaturate(t, ps[0], 0);
      assert Run(t, ps[0]).params == Loaded(t, ps).params;
    } else {
      ParamsRoundTrip(t, ps[..n]);
      var u := Loaded(t, ps[..n]);
      RunOne(u, ';' as int);
      var w := Step(u, ';' as int);
      DigitsSaturate(w, ps[n], 0);
      assert Run(w, ps[n]).params == Loaded(t, ps).params;
      RunConcat(t, JoinParams(ps[..n]), [';' as int]);
      RunConcat(t, JoinParams(ps[..n]) + [';' as int], ps[n]);
    }
  }

  /** One more parameter when all eight slots are taken: its digits run on from the last. */
  lemma OneMoreParam(t: Term, ps: seq<bytes>, q: bytes)
    requires t.Valid() && t.mode == InCsi && AreParams(ps) && |ps| == MAX_PARAMS && IsDigits(q)
    ensures Run(Loaded(t, ps), [';' as int] + q) == Loaded(t, ps[7 := ps[7] + q])
  {
    var u, semi, last := Loaded(t, ps), [';' as int], ps[7];
    RunOne(u, ';' as int);
    DigitsSaturate(u, q, Value(last));
    NumberConcat(0, last, q);
    assert Run(u, q).params == Loaded(t, ps[7 := last + q]).params;
    RunConcat(u, semi, q);
  }

  lemma {:induction false} FlattenMore(xs: seq<bytes>, x: bytes)
    ensures Flatten(xs + [x]) == Flatten(xs) + x
    decreases |xs|
  {
    if xs == [] {
      assert [x][1..] == [] && x + [] == x;
    } else {
      assert (xs + [x])[1..] == xs[1..] + [x];
      FlattenMore(xs[1..], x);
      ConcatAssociates(xs[0], Flatten(xs[1..]), x);
    }
  }

  lemma {:induction false} FlatDigits(ps: seq<bytes>)
    requires ps != [] && forall i :: 0 <= i < |ps| ==> IsDigits(ps[i])
    ensures IsDigits(Flatten(ps))
    decreases |ps|
  {
    if |ps| == 1 {
      assert Flatten(ps) == ps[0] + Flatten(ps[1..]) == ps[0];
    } else {
      FlatDigits(ps[1..]);
    }
  }

  /** What eight slots make of any number of parameters: the first seven as they are, all the
    * later ones run together in the eighth. */
  function Eight(ps: seq<bytes>): (qs: seq<bytes>)
    requires |ps| >= MAX_PARAMS && forall i :: 0 <= i < |ps| ==> IsDigits(ps[i])
    ensures AreParams(qs) && |qs| == MAX_PARAMS
  {
    FlatDigits(ps[7..]);
    ps[..7] + [Flatten(ps[7..])]
  }

  lemma EightOfOneMore(ps: seq<bytes>, q: bytes)
    requires |ps| >= MAX_PARAMS && (forall i :: 0 <= i < |ps| ==> IsDigits(ps[i])) && IsDigits(q)
    ensures var qs := Eight(ps); Eight(ps + [q]) == qs[7 := qs[7] + q]
  {
    assert (ps + [q])[7..] == ps[7..] + [q] && (ps + [q])[..7] == ps[..7];
    FlattenMore(ps[7..], q);
  }

  /** Eight parameters and more, any number, are read as that. */
  lemma {:induction false} LateParamsJoinEighth(t: Term, ps: seq<bytes>)
    requires JustBegun(t) && |ps| >= MAX_PARAMS && forall i :: 0 <= i < |ps| ==> IsDigits(ps[i])
    ensures Run(t, JoinParams(ps)) == Loaded(t, Eight(ps))
    decreases |ps|
  {
    var n := |ps| - 1;
    if n < MAX_PARAMS {
      var last := ps[7..];
      assert last[1..] == [] && last[0] + Flatten(last[1..]) == last[0] == ps[7];
      assert Eight(ps) == ps[..7] + [ps[7]] == ps;
      ParamsRoundTrip(t, ps);
    } else {
      var front, q := ps[..n], ps[n];
      assert front + [q] == ps;
      LateParamsJoinEighth(t, front);
      EightOfOneMore(front, q);
      OneMoreParam(t, Eight(front), q);
      RunConcat(t, JoinParams(front), [';' as int] + q);
      ConcatAssociates(JoinParams(front), [';' as int], q);
    }
  }

  lemma {:induction false} NumberGrows(v: nat, ds: bytes)
    requires forall i :: 0 <= i < |ds| ==> IsDigit(ds[i])
    ensures Number(v, ds) >= if ds == [] then v else 10 * v
    decreases |ds|
  {
    if ds != [] {
      NumberGrows(v * 10 + (ds[0] - 0x30), ds[1..]);
    }
  }

  /** So a longer sequence is truncated to eight parameters, as promised, exactly when the
    * eighth is already at the limit or it and all later ones are zero. */
  lemma TruncatedExactlyWhen(t: Term, ps: seq<bytes>)
    requires JustBegun(t) && |ps| > MAX_PARAMS && forall i :: 0 <= i < |ps| ==> IsDigits(ps[i])
    ensures Run(t, JoinParams(ps)) == Loaded(t, ps[..8])
      <==> Value(ps[7]) >= 9999 || forall i :: 7 <= i < |ps| ==> Value(ps[i]) == 0
  {
    var v, rest, all := Value(ps[7]), Flatten(ps[8..]), Flatten(ps[7..]);
    LateParamsJoinEighth(t, ps);
    FlatDigits(ps[8..]);
    assert ps[7..][1..] == ps[8..] && all == ps[7] + rest;
    NumberConcat(0, ps[7], rest);
    NumberGrows(v, rest);
    FlatZero(ps[7..]);
    assert Value(all) == 0 <==> forall i :: 7 <= i < |ps| ==> Value(ps[i]) == 0 by {
      assert forall i :: 7 <= i < |ps| ==> ps[7..][i - 7] == ps[i];
      assert forall i :: 0 <= i < |ps[7..]| ==> ps[7..][i] == ps[7 + i];
    }
    LoadedEighth(t, Eight(ps), ps[..8]);
  }

  lemma LoadedEighth(t: Term, ps: seq<bytes>, qs: seq<bytes>)
    requires t.Valid() && AreParams(ps) && AreParams(qs) && |ps| == |qs| == MAX_PARAMS && ps[..7] == qs[..7]
    ensures Loaded(t, ps) == Loaded(t, qs) <==> Min(Value(ps[7]), 9999) == Min(Value(qs[7]), 9999)
  {
    assert Loaded(t, ps).params[7] == Min(Value(ps[7]), 9999) && Loaded(t, qs).params[7] == Min(Value(qs[7]), 9999);
    assert forall i :: 0 <= i < 7 ==> ps[i] == ps[..7][i] == qs[i];
    if Min(Value(ps[7]), 9999) == Min(Value(qs[7]), 9999) {
      assert Loaded(t, ps).params == Loaded(t, qs).params;
    }
  }

  lemma {:induction false} FlatZero(ps: seq<bytes>)
    requires forall i :: 0 <= i < |ps| ==> IsDigits(ps[i])
    ensures Value(Flatten(ps)) == 0 <==> forall i :: 0 <= i < |ps| ==> Value(ps[i]) == 0
    decreases |ps|
  {
    if ps != [] {
      var rest := Flatten(ps[1..]);
      FlatZero(ps[1..]);
      NumberConcat(0, ps[0], rest);
      if ps[1..] != [] {
        FlatDigits(ps[1..]);
      }
      NumberGrows(Value(ps[0]), rest);
      assert forall i :: 0 < i < |ps| ==> ps[1..][i - 1] == ps[i];
      assert forall i :: 0 <= i < |ps[1..]| ==> ps[1..][i] == ps[1 + i];
    }
  }

  /** ESC [ as the parser sees it from the ground state. */
  function BeginCsi(t: Term): (t': Term)
    requires t.Valid()
    ensures JustBegun(t')
  {
    EscByte(t.(mode := SawEsc), '[' as int)
  }

  function Csi(ps: seq<bytes>, final: char): bytes
    requires ps != [] && 0x40 <= final as int <= 0x7e
  {
    [ESC, '[' as int] + JoinParams(ps) + [final as int]
  }

  lemma BeginRun(t: Term)
    requires t.Valid() && t.mode == Ground
    ensures Run(t, [ESC, '[' as int]) == BeginCsi(t)
  {
    assert [ESC, '[' as int] == [ESC] + ['[' as int];
    RunConcat(t, [ESC], ['[' as int]);
    RunOne(t, ESC);
    RunOne(Step(t, ESC), '[' as int);
  }

  lemma FinalRun(t: Term, final: byte, d: Term)
    requires t.Valid() && t.mode == InCsi && 0x40 <= final <= 0x7e && d == Dispatch(t, final)
    ensures Run(t, [final]) == d.(mode := Ground)
  {
    var u := Step(t, final);
    FinalStep(t, final, d, u);
    RunOne(t, final);
  }

  lemma FinalStep(t: Term, final: byte, d: Term, u: Term)
    requires t.Valid() && t.mode == InCsi && 0x40 <= final <= 0x7e && d == Dispatch(t, final) && u == Step(t, final)
    ensures u == d.(mode := Ground)
  {
    assert u == CsiByte(t, final);
  }

  /** A whole control sequence does what its final byte says, with these parameters. */
  lemma CsiRun(t: Term, ps: seq<bytes>, final: char)
    requires t.Valid() && t.mode == Ground && AreParams(ps) && 0x40 <= final as int <= 0x7e
    ensures Run(t, Csi(ps, final)) == Dispatch(Loaded(BeginCsi(t), ps), final as int).(mode := Ground)
  {
    var begin := [ESC, '[' as int];
    var u := Loaded(BeginCsi(t), ps);
    BeginRun(t);
    RunConcat(t, begin, JoinParams(ps));
    ParamsRoundTrip(BeginCsi(t), ps);
    RunConcat(t, begin + JoinParams(ps), [final as int]);
    FinalRun(u, final as int, Dispatch(u, final as int));
  }

  /** `t'` is `t` up to the parser's own registers. */
  predicate SameScreen(t: Term, t': Term) {
    t' == t.(params := t'.params, count := t'.count, seen := t'.seen, marker := t'.marker)
  }

  lemma AddressDispatch(u: Term)
    requires u.Valid() && u.count == 2 && u.seen
    ensures Dispatch(u, 'H' as int) ==
      u.(row := Min(Max(u.params[0], 1), u.rows) - 1, col := Min(Max(u.params[1], 1), u.cols) - 1)
  {
  }

  /** `ESC [ r ; c H` for numbers of any size, zero counting as one. */
  lemma CursorAddress(t: Term, r: bytes, c: bytes)
    requires t.Valid() && t.mode == Ground && IsDigits(r) && IsDigits(c)
    ensures var t' := Run(t, Csi([r, c], 'H'));
      && SameScreen(t.(row := t'.row, col := t'.col), t')
      && t'.row == Min(Max(Value(r), 1), t.rows) - 1
      && t'.col == Min(Max(Value(c), 1), t.cols) - 1
  {
    CsiRun(t, [r, c], 'H');
    AddressDispatch(Loaded(BeginCsi(t), [r, c]));
  }

  /** A leading empty parameter is not one: after `ESC [ ; 5 H` the 5 is the row. */
  lemma LeadingEmptyParamIsLost(t: Term, c: bytes)
    requires t.Valid() && t.mode == Ground && IsDigits(c)
    ensures Run(t, [ESC, '[' as int, ';' as int] + c + ['H' as int]) == Run(t, Csi([c], 'H')).(seen := true)
  {
    var begin, semi := [ESC, '[' as int], [';' as int];
    var u := BeginCsi(t);
    BeginRun(t);
    CsiRun(t, [c], 'H');
    RunOne(u, semi[0]);
    RunConcat(t, begin, semi);
    var w := Run(t, begin + semi);
    DigitsSaturate(w, c, 0);
    assert Run(w, c).params == Loaded(u, [c]).params;
    RunConcat(t, begin + semi, c);
    RunConcat(t, begin + semi + c, ['H' as int]);
    RunOne(Run(w, c), 'H' as int);
    assert [ESC, '[' as int, ';' as int] == begin + semi;
  }
}
