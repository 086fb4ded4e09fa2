/** What whole control sequences of `src/psp/term.c` do to the pen, the region, the cursor
  * and the cells. */
module SequenceLaws {
  import opened Bytes
  import opened Screen
  import opened ParserLaws
  import opened Text
  import ScreenLaws

  function Printed(params: seq<Param>): (ps: seq<bytes>)
    requires 1 <= |params| <= MAX_PARAMS
    ensures AreParams(ps) && |ps| == |params|
  {
    seq(|params|, i requires 0 <= i < |params| => Decimal(params[i]))
  }

  lemma PrintedAreLoaded(t: Term, params: seq<Param>)
    requires t.Valid() && 1 <= |params| <= MAX_PARAMS
    ensures var u := Loaded(t, Printed(params));
      u.count == |params| && forall i :: 0 <= i < |params| ==> u.params[i] == params[i]
  {
    forall i | 0 <= i < |params|
      ensures Min(Value(Printed(params)[i]), 9999) == params[i]
    {
      DecimalValue(params[i]);
    }
  }

  // ------------------------------------------------------------------- pen --

  /** The SGR parameters that ask for this pen, as a shell would send them. */
  function PenCode(p: Pen): (code: seq<Param>)
    ensures |code| == 5
  {
    [0, if p.bold then 1 else 22, if p.reverse then 7 else 27,
     if p.fg < 8 then 30 + p.fg else 90 + (p.fg - 8),
     if p.bg < 8 then 40 + p.bg else 100 + (p.bg - 8)]
  }

  lemma SgrStep(pen: Pen, params: seq<Param>, n: int, i: int, next: Pen)
    requires 0 <= i < n <= |params| && params[i] != 38 && params[i] != 48 && next == SgrOne(pen, params[i])
    ensures Sgr(pen, params, n, i) == Sgr(next, params, n, i + 1)
  {
  }

  lemma SgrOfPenCode(pen: Pen, p: Pen, params: seq<Param>)
    requires |params| >= 5 && forall i :: 0 <= i < 5 ==> params[i] == PenCode(p)[i]
    ensures Sgr(pen, params, 5, 0) == p
  {
    var a := DEFAULT_PEN;
    var b := a.(bold := p.bold);
    var c := b.(reverse := p.reverse);
    var d := c.(fg := p.fg);
    SgrStep(pen, params, 5, 0, a);
    SgrStep(a, params, 5, 1, b);
    SgrStep(b, params, 5, 2, c);
    SgrStep(c, params, 5, 3, d);
    SgrStep(d, params, 5, 4, p);
  }

  lemma SgrDispatch(u: Term)
    requires u.Valid() && u.count > 0
    ensures Dispatch(u, 'm' as int) == u.(pen := Sgr(u.pen, u.params, u.count, 0))
  {
  }

  /** Every pen can be asked for, whatever the pen was before, and asking changes nothing
    * else on the screen. */
  lemma PenRoundTrip(t: Term, p: Pen)
    requires t.Valid() && t.mode == Ground
    ensures SameScreen(t.(pen := p), Run(t, Csi(Printed(PenCode(p)), 'm')))
  {
    var u := Loaded(BeginCsi(t), Printed(PenCode(p)));
    CsiRun(t, Printed(PenCode(p)), 'm');
    PrintedAreLoaded(BeginCsi(t), PenCode(p));
    SgrOfPenCode(t.pen, p, u.params);
    SgrDispatch(u);
  }

  /** `ESC [ 38 ; 5 ; n m` takes one colour from the palette, folded onto sixteen, and `48`
    * the same for the background. */
  lemma IndexedColour(t: Term, n: Param)
    requires t.Valid() && t.mode == Ground
    ensures var colour := if n <= 15 then n else if n >= 244 then 15 else 7;
      && SameScreen(t.(pen := t.pen.(fg := colour)), Run(t, Csi(Printed([38, 5, n]), 'm')))
      && SameScreen(t.(pen := t.pen.(bg := colour)), Run(t, Csi(Printed([48, 5, n]), 'm')))
  {
    IndexedRun(t, 38, n);
    IndexedRun(t, 48, n);
  }

  lemma IndexedRun(t: Term, p: Param, n: Param)
    requires t.Valid() && t.mode == Ground && (p == 38 || p == 48)
    ensures SameScreen(t.(pen := if p == 38 then t.pen.(fg := Fold(n)) else t.pen.(bg := Fold(n))),
                       Run(t, Csi(Printed([p, 5, n]), 'm')))
  {
    var u := Loaded(BeginCsi(t), Printed([p, 5, n]));
    CsiRun(t, Printed([p, 5, n]), 'm');
    PrintedAreLoaded(BeginCsi(t), [p, 5, n]);
    SgrDispatch(u);
    assert Indexed(u.params, 3, 0);
  }

  // ---------------------------------------------------------------- region --

  lemma RegionDispatch(u: Term, top: int, bottom: int)
    requires u.Valid() && u.count == 2 && u.seen && u.params[0] == top && u.params[1] == bottom
    requires 1 <= top < bottom <= u.rows
    ensures Dispatch(u, 'r' as int) == u.(top := top - 1, bottom := bottom - 1, row := top - 1, col := 0)
  {
  }

  /** After `ESC [ top ; bottom r` any text without ESC leaves the rows outside alone, and
    * the cursor inside. */
  lemma RegionConfines(t: Term, top: bytes, bottom: bytes, text: bytes)
    requires t.Valid() && t.mode == Ground && IsDigits(top) && IsDigits(bottom) && ESC !in text
    requires 1 <= Value(top) < Value(bottom) <= t.rows
    ensures var t' := Run(t, Csi([top, bottom], 'r') + text);
      && t'.rows == t.rows && t'.top == Value(top) - 1 && t'.bottom == Value(bottom) - 1
      && t'.top <= t'.row <= t'.bottom
      && forall r :: 0 <= r < t.rows && !(t'.top <= r <= t'.bottom) ==> t'.grid[r] == t.grid[r]
  {
    var region := Csi([top, bottom], 'r');
    var u := Loaded(BeginCsi(t), [top, bottom]);
    CsiRun(t, [top, bottom], 'r');
    RegionDispatch(u, Value(top), Value(bottom));
    TextIsConfined(Run(t, region), text);
    RunConcat(t, region, text);
  }

  // ------------------------------------------------------- save and restore --

  /** Nowhere in these bytes is the cursor saved again or the terminal reset. */
  predicate NeverSaves(t: Term, data: bytes)
    requires t.Valid()
    decreases |data|
  {
    data == []
    || (!(t.mode == InCsi && data[0] == 's' as int) && !(t.mode == SawEsc && data[0] == 'c' as int)
        && NeverSaves(Step(t, data[0]), data[1..]))
  }

  predicate SameSaved(t: Term, t': Term) {
    t'.savedCol == t.savedCol && t'.savedRow == t.savedRow && t'.cols == t.cols && t'.rows == t.rows
  }

  lemma LinesKeepSaved(t: Term, n: nat)
    requires t.Valid()
    ensures SameSaved(t, InsertLines(t, n)) && SameSaved(t, DeleteLines(t, n))
  {
  }

  lemma SettingsKeepSaved(t: Term)
    requires t.Valid()
    ensures SameSaved(t, ApplySgr(t)) && SameSaved(t, SetRegion(t))
  {
  }

  lemma DispatchKeepsSaved(t: Term, final: byte)
    requires t.Valid() && final != 's' as int
    ensures SameSaved(t, Dispatch(t, final))
  {
    var n, u := ParamAt(t, 0, 1), Dispatch(t, final);
    match final as char
    case 'L' => LinesKeepSaved(t, n);
    case 'M' => LinesKeepSaved(t, n);
    case 'm' => SettingsKeepSaved(t);
    case 'r' => SettingsKeepSaved(t);
    case _ => assert SameSaved(t, u);
  }

  lemma CsiKeepsSaved(t: Term, ch: byte)
    requires t.Valid() && ch != 's' as int
    ensures SameSaved(t, CsiByte(t, ch))
  {
    if 0x40 <= ch <= 0x7e {
      DispatchKeepsSaved(t, ch);
    }
  }

  lemma EscKeepsSaved(t: Term, ch: byte)
    requires t.Valid() && ch != 'c' as int
    ensures SameSaved(t, EscByte(t, ch))
  {
  }

  lemma GroundKeepsSaved(t: Term, ch: byte)
    requires t.Valid()
    ensures SameSaved(t, GroundByte(t, ch))
  {
  }

  lemma StepKeepsSaved(t: Term, ch: byte)
    requires t.Valid() && !(t.mode == InCsi && ch == 's' as int) && !(t.mode == SawEsc && ch == 'c' as int)
    ensures SameSaved(t, Step(t, ch))
  {
    match t.mode
    case Ground => GroundKeepsSaved(t, ch);
    case SawEsc => EscKeepsSaved(t, ch);
    case InCsi => CsiKeepsSaved(t, ch);
    case _ =>
  }

  lemma {:induction false} SavedIsKept(t: Term, data: bytes)
    requires t.Valid() && NeverSaves(t, data)
    ensures SameSaved(t, Run(t, data))
    decreases |data|
  {
    if data != [] {
      var u := Step(t, data[0]);
      StepKeepsSaved(t, data[0]);
      SavedIsKept(u, data[1..]);
    }
  }

  /** A control sequence with no parameters. */
  function Bare(final: char): bytes
    requires 0x40 <= final as int <= 0x7e
  {
    [ESC, '[' as int, final as int]
  }

  lemma BareRun(t: Term, final: char)
    requires t.Valid() && t.mode == Ground && 0x40 <= final as int <= 0x7e
    ensures Run(t, Bare(final)) == Dispatch(BeginCsi(t), final as int).(mode := Ground)
  {
    var begin := [ESC, '[' as int];
    BeginRun(t);
    FinalRun(BeginCsi(t), final as int, Dispatch(BeginCsi(t), final as int));
    RunConcat(t, begin, [final as int]);
    assert Bare(final) == begin + [final as int];
  }

  /** `ESC [ s`, anything that does not save again or reset, and `ESC [ u`: the cursor is back
    * where it was, except that a pending wrap is gone. */
  lemma SaveRestore(t: Term, data: bytes)
    requires t.Valid() && t.mode == Ground
    requires NeverSaves(Run(t, Bare('s')), data) && Run(Run(t, Bare('s')), data).mode == Ground
    ensures var u, t' := Run(Run(t, Bare('s')), data), Run(t, Bare('s') + data + Bare('u'));
      && SameScreen(u.(row := t'.row, col := t'.col), t')
      && t'.row == t.row && t'.col == Min(t.col, t.cols - 1)
  {
    var saved := Run(t, Bare('s'));
    var u := Run(saved, data);
    BareRun(t, 's');
    SavedIsKept(saved, data);
    BareRun(u, 'u');
    RunConcat(t, Bare('s'), data);
    RunConcat(t, Bare('s') + data, Bare('u'));
  }

  // ----------------------------------------------------------------- erase --

  lemma EraseDispatch(u: Term, mode: Param)
    requires u.Valid() && (u.count == 0 ==> mode == 0) && (u.count > 0 ==> u.params[0] == mode)
    ensures Dispatch(u, 'J' as int) == Erase(u, Display(mode)) && Dispatch(u, 'K' as int) == Erase(u, Line(mode))
  {
  }

  lemma EraseOfSameScreen(t: Term, u: Term, e: Extent)
    requires t.Valid() && u.Valid() && SameScreen(t, u)
    ensures SameScreen(Erase(t, e), Erase(u, e))
  {
  }

  lemma EraseInMode(t: Term, u: Term, e: Extent)
    requires t.Valid() && u.Valid() && t.mode == Ground && SameScreen(t.(mode := InCsi), u)
    ensures SameScreen(Erase(t, e), Erase(u, e).(mode := Ground))
  {
    EraseOfSameScreen(t.(mode := InCsi), u, e);
    assert Erase(t.(mode := InCsi), e) == Erase(t, e).(mode := InCsi);
  }

  /** `ESC [ mode J` and `ESC [ mode K`. */
  lemma EraseRun(t: Term, mode: Param)
    requires t.Valid() && t.mode == Ground
    ensures SameScreen(Erase(t, Display(mode)), Run(t, Csi(Printed([mode]), 'J')))
    ensures SameScreen(Erase(t, Line(mode)), Run(t, Csi(Printed([mode]), 'K')))
  {
    var u := Loaded(BeginCsi(t), Printed([mode]));
    CsiRun(t, Printed([mode]), 'J');
    CsiRun(t, Printed([mode]), 'K');
    PrintedAreLoaded(BeginCsi(t), [mode]);
    EraseDispatch(u, mode);
    EraseInMode(t, u, Display(mode));
    EraseInMode(t, u, Line(mode));
  }

  /** With no parameter they are mode 0. */
  lemma BareEraseRun(t: Term)
    requires t.Valid() && t.mode == Ground
    ensures SameScreen(Erase(t, Display(0)), Run(t, Bare('J'))) && SameScreen(Erase(t, Line(0)), Run(t, Bare('K')))
  {
    var u := BeginCsi(t);
    BareRun(t, 'J');
    BareRun(t, 'K');
    EraseDispatch(u, 0);
    EraseInMode(t, u, Display(0));
    EraseInMode(t, u, Line(0));
  }

  /** As a server sends them, `ESC [ J` blanks exactly the cells at or after the cursor in
    * reading order, `ESC [ 1 J` those at or before it, and neither does anything else. */
  lemma EraseSequencesCut(t: Term, r: int, c: int)
    requires t.Valid() && t.mode == Ground && 0 <= r < t.rows && 0 <= c < t.cols
    ensures var after, before := Run(t, Bare('J')), Run(t, Csi(Printed([1]), 'J'));
      && SameScreen(t.(grid := after.grid), after) && SameScreen(t.(grid := before.grid), before)
      && after.grid[r][c] ==
        (if ScreenLaws.Place(t, r, c) >= ScreenLaws.Place(t, t.row, t.col) then t.pen.Blank() else t.grid[r][c])
      && before.grid[r][c] ==
        (if ScreenLaws.Place(t, r, c) <= ScreenLaws.Place(t, t.row, Min(t.col, t.cols - 1))
         then t.pen.Blank() else t.grid[r][c])
  {
    BareEraseRun(t);
    EraseRun(t, 1);
    ScreenLaws.EraseCutsAtCursor(t, r, c);
  }

  lemma EraseTwice(t: Term, first: Param, second: Param)
    requires t.Valid() && t.mode == Ground
    ensures SameScreen(Erase(Erase(t, Display(first)), Display(second)),
                       Run(t, Csi(Printed([first]), 'J') + Csi(Printed([second]), 'J')))
    ensures SameScreen(Erase(Erase(t, Line(first)), Line(second)),
                       Run(t, Csi(Printed([first]), 'K') + Csi(Printed([second]), 'K')))
  {
    EraseTwiceWith(t, first, second, 'J');
    EraseTwiceWith(t, first, second, 'K');
  }

  lemma EraseTwiceWith(t: Term, first: Param, second: Param, final: char)
    requires t.Valid() && t.mode == Ground && (final == 'J' || final == 'K')
    ensures SameScreen(Erase(Erase(t, Reach(final, first)), Reach(final, second)),
                       Run(t, Csi(Printed([first]), final) + Csi(Printed([second]), final)))
  {
    var a, b := Csi(Printed([first]), final), Csi(Printed([second]), final);
    var u := Run(t, a);
    EraseRun(t, first);
    EraseRun(u, second);
    EraseOfSameScreen(Erase(t, Reach(final, first)), u, Reach(final, second));
    RunConcat(t, a, b);
  }

  function Reach(final: char, mode: Param): Extent {
    if final == 'J' then Display(mode) else Line(mode)
  }

  /** The two halves of the screen erased in either order, as sequences, leave it blank in the
    * pen's background and change nothing else shown; so does mode 2. */
  lemma EraseSequencesMakeWhole(t: Term)
    requires t.Valid() && t.mode == Ground
    ensures var blank := t.(grid := BlankGrid(t.pen, t.cols, t.rows));
      && SameScreen(blank, Run(t, Csi(Printed([0]), 'J') + Csi(Printed([1]), 'J')))
      && SameScreen(blank, Run(t, Csi(Printed([1]), 'J') + Csi(Printed([0]), 'J')))
      && SameScreen(blank, Run(t, Csi(Printed([2]), 'J')))
  {
    EraseTwice(t, 0, 1);
    EraseTwice(t, 1, 0);
    EraseRun(t, 2);
    ScreenLaws.ErasesMakeWhole(t);
  }

  /** The same for the two halves of the cursor's line. */
  lemma EraseSequencesMakeLine(t: Term)
    requires t.Valid() && t.mode == Ground
    ensures var blank := t.(grid := t.grid[t.row := BlankRow(t.pen, t.cols)]);
      && SameScreen(blank, Run(t, Csi(Printed([0]), 'K') + Csi(Printed([1]), 'K')))
      && SameScreen(blank, Run(t, Csi(Printed([1]), 'K') + Csi(Printed([0]), 'K')))
  {
    EraseTwice(t, 0, 1);
    EraseTwice(t, 1, 0);
    ScreenLaws.ErasesMakeLine(t);
  }
}
