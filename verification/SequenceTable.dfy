/** What every control sequence of `src/psp/term.c` does, as a table on the fields and cells. */
module SequenceTable {
  import opened Bytes
  import opened Screen
  import opened ParserLaws
  import opened SequenceLaws
  import opened ByteTable
  import opened Text
  import ScreenLaws

  // ---------------------------------------------------- from registers to screen --

  /** `u` is `t` with a control sequence's parameters read, the first of them `n`. */
  predicate Ready(t: Term, u: Term, n: int) {
    && t.Valid() && u.Valid() && t.mode == Ground && SameScreen(t.(mode := InCsi), u) && n >= 1
    && ParamAt(u, 0, 1) == n
  }

  function Count(ds: bytes): int {
    Min(Max(Value(ds), 1), 9999)
  }

  lemma OneIsReady(t: Term, ds: bytes, final: char)
    requires t.Valid() && t.mode == Ground && IsDigits(ds) && 0x40 <= final as int <= 0x7e
    ensures var u := Loaded(BeginCsi(t), [ds]);
      Ready(t, u, Count(ds)) && Run(t, Csi([ds], final)) == Dispatch(u, final as int).(mode := Ground)
  {
    CsiRun(t, [ds], final);
  }

  lemma NoneIsReady(t: Term, final: char)
    requires t.Valid() && t.mode == Ground && 0x40 <= final as int <= 0x7e
    ensures var u := BeginCsi(t);
      Ready(t, u, 1) && Run(t, Bare(final)) == Dispatch(u, final as int).(mode := Ground)
  {
    BareRun(t, final);
  }

  // ---------------------------------------------------------------- cursor --

  const MOVES := "ABCDEFGdHf"

  /** Where the cursor is after a move by `n`; it stays on the screen, and a pending wrap ends. */
  function CursorAfter(t: Term, final: char, n: int): Term
    requires final in MOVES
  {
    var here := Min(t.col, t.cols - 1);
    match final
    case 'A' => t.(row := Max(t.row - n, 0), col := here)
    case 'B' => t.(row := Min(t.row + n, t.rows - 1), col := here)
    case 'C' => t.(col := Min(t.col + n, t.cols - 1))
    case 'D' => t.(col := Min(Max(t.col - n, 0), t.cols - 1))
    case 'E' => t.(row := Min(t.row + n, t.rows - 1), col := 0)
    case 'F' => t.(row := Max(t.row - n, 0), col := 0)
    case 'G' => t.(col := Min(n - 1, t.cols - 1))
    case 'd' => t.(row := Min(n - 1, t.rows - 1), col := here)
    case _ => t.(row := Min(n - 1, t.rows - 1), col := 0)
  }

  lemma RowReady(t: Term, u: Term, final: char, n: int)
    requires Ready(t, u, n) && final in "ABd"
    ensures SameScreen(CursorAfter(t, final, n), Dispatch(u, final as int).(mode := Ground))
  {
  }

  lemma LineReady(t: Term, u: Term, final: char, n: int)
    requires Ready(t, u, n) && final in "EF"
    ensures SameScreen(CursorAfter(t, final, n), Dispatch(u, final as int).(mode := Ground))
  {
  }

  lemma ColumnReady(t: Term, u: Term, final: char, n: int)
    requires Ready(t, u, n) && final in "CDG"
    ensures SameScreen(CursorAfter(t, final, n), Dispatch(u, final as int).(mode := Ground))
  {
  }

  lemma PositionReady(t: Term, u: Term, final: char, n: int)
    requires Ready(t, u, n) && final in "Hf" && u.count <= 1
    ensures SameScreen(CursorAfter(t, final, n), Dispatch(u, final as int).(mode := Ground))
  {
  }

  lemma CursorReady(t: Term, u: Term, final: char, n: int, t': Term)
    requires Ready(t, u, n) && final in MOVES && u.count <= 1 && t' == Dispatch(u, final as int).(mode := Ground)
    ensures SameScreen(CursorAfter(t, final, n), t')
  {
    if final in "ABd" {
      RowReady(t, u, final, n);
    } else if final in "EF" {
      LineReady(t, u, final, n);
    } else if final in "CDG" {
      ColumnReady(t, u, final, n);
    } else {
      PositionReady(t, u, final, n);
    }
  }

  /** Cursor up, down, forward, back, next and previous line, column, row and position, with
    * one parameter, zero counting as one, and with none. */
  lemma CursorTable(t: Term, ds: bytes, final: char)
    requires t.Valid() && t.mode == Ground && IsDigits(ds) && final in MOVES
    ensures SameScreen(CursorAfter(t, final, Count(ds)), Run(t, Csi([ds], final)))
    ensures SameScreen(CursorAfter(t, final, 1), Run(t, Bare(final)))
  {
    OneIsReady(t, ds, final);
    NoneIsReady(t, final);
    CursorReady(t, Loaded(BeginCsi(t), [ds]), final, Count(ds), Run(t, Csi([ds], final)));
    CursorReady(t, BeginCsi(t), final, 1, Run(t, Bare(final)));
  }

  /** `ESC [ r ; c f`, as `H`. */
  lemma PositionTable(t: Term, r: bytes, c: bytes)
    requires t.Valid() && t.mode == Ground && IsDigits(r) && IsDigits(c)
    ensures SameScreen(t.(row := Min(Count(r), t.rows) - 1, col := Min(Count(c), t.cols) - 1), Run(t, Csi([r, c], 'f')))
    ensures SameScreen(t.(row := Min(Count(r), t.rows) - 1, col := Min(Count(c), t.cols) - 1), Run(t, Csi([r, c], 'H')))
  {
    var u := Loaded(BeginCsi(t), [r, c]);
    CsiRun(t, [r, c], 'f');
    CsiRun(t, [r, c], 'H');
    assert u.params[0] == Min(Value(r), 9999) && u.params[1] == Min(Value(c), 9999);
    AddressDispatch(u);
    AddressDispatchF(u);
  }

  lemma AddressDispatchF(u: Term)
    requires u.Valid()
    ensures Dispatch(u, 'f' as int) == Dispatch(u, 'H' as int)
  {
  }

  // ------------------------------------------------------------------ cells --

  const EDITS := "@PXSTLM"

  /** What the cell at (`r`, `c`) is after an edit by `n`. */
  function CellAfter(t: Term, final: char, n: int, r: int, c: int): Cell
    requires t.Valid() && final in EDITS && n >= 1 && 0 <= r < t.rows && 0 <= c < t.cols
  {
    var was := t.grid[r][c];
    match final
    case '@' =>                                      // open a gap at the cursor
      if r != t.row || c < t.col then was else if c < t.col + n then Wiped(t.pen) else t.grid[r][c - n]
    case 'P' =>                                      // close one
      if r != t.row || c < t.col then was else if c + n < t.cols then t.grid[r][c + n] else Wiped(t.pen)
    case 'X' =>                                      // wipe in place
      if r == t.row && t.col <= c < t.col + n then Wiped(t.pen) else was
    case 'S' =>                                      // the region up
      if r < t.top || r > t.bottom then was else if r + n <= t.bottom then t.grid[r + n][c] else Wiped(t.pen)
    case 'T' =>                                      // the region down
      if r < t.top || r > t.bottom then was else if r - n >= t.top then t.grid[r - n][c] else Wiped(t.pen)
    case 'L' =>                                      // open rows at the cursor, inside the region
      if t.row < t.top || r < t.row || r > t.bottom then was
      else if r - n >= t.row then t.grid[r - n][c] else Wiped(t.pen)
    case _ =>                                        // close them
      if t.row < t.top || r < t.row || r > t.bottom then was
      else if r + n <= t.bottom then t.grid[r + n][c] else Wiped(t.pen)
  }

  ghost predicate Edited(t: Term, t': Term, final: char, n: int)
    requires t.Valid() && t'.Valid() && final in EDITS && n >= 1
  {
    && SameScreen(t.(grid := t'.grid), t')
    && forall r, c :: 0 <= r < t.rows && 0 <= c < t.cols ==> t'.grid[r][c] == CellAfter(t, final, n, r, c)
  }

  /** The operation behind each of them. */
  function EditOf(u: Term, final: char, n: int): (u': Term)
    requires u.Valid() && final in EDITS && n >= 1
    ensures u'.Valid()
  {
    match final
    case '@' => InsertChars(u, n)
    case 'P' => DeleteChars(u, n)
    case 'X' => Erase(u, Span(n))
    case 'S' => ScrollUp(u, n)
    case 'T' => ScrollDown(u, n)
    case 'L' => InsertLines(u, n)
    case _ => DeleteLines(u, n)
  }

  lemma EditDispatch(u: Term, final: char, n: int)
    requires u.Valid() && final in EDITS && n >= 1 && ParamAt(u, 0, 1) == n
    ensures Dispatch(u, final as int) == EditOf(u, final, n)
  {
  }

  lemma CharEdit(t: Term, final: char, n: int, r: int, c: int)
    requires t.Valid() && final in "@PX" && n >= 1 && 0 <= r < t.rows && 0 <= c < t.cols
    ensures EditOf(t, final, n).grid[r][c] == CellAfter(t, final, n, r, c)
  {
    PenTable(t.pen, 0);
  }

  lemma RegionEdit(t: Term, final: char, n: int, r: int, c: int)
    requires t.Valid() && final in "ST" && n >= 1 && 0 <= r < t.rows && 0 <= c < t.cols
    ensures EditOf(t, final, n).grid[r][c] == CellAfter(t, final, n, r, c)
  {
    PenTable(t.pen, 0);
  }

  lemma LineEdit(t: Term, final: char, n: int, r: int, c: int)
    requires t.Valid() && final in "LM" && n >= 1 && 0 <= r < t.rows && 0 <= c < t.cols
    ensures EditOf(t, final, n).grid[r][c] == CellAfter(t, final, n, r, c)
  {
    PenTable(t.pen, 0);
  }

  lemma ScrollsOfSameScreen(t: Term, u: Term, n: nat)
    requires t.Valid() && u.Valid() && t.mode == Ground && SameScreen(t.(mode := InCsi), u)
    ensures SameScreen(ScrollUp(t, n), ScrollUp(u, n).(mode := Ground))
    ensures SameScreen(ScrollDown(t, n), ScrollDown(u, n).(mode := Ground))
  {
  }

  /** No edit looks at the parser. */
  lemma EditOfSameScreen(t: Term, u: Term, final: char, n: int, v: Term, w: Term)
    requires t.Valid() && u.Valid() && t.mode == Ground && SameScreen(t.(mode := InCsi), u) && final in EDITS && n >= 1
    requires v == EditOf(t, final, n) && w == EditOf(u, final, n)
    ensures SameScreen(v, w.(mode := Ground))
  {
    match final
    case '@' => ScreenLaws.CharsOfSameScreen(t, u, n);
    case 'P' => ScreenLaws.CharsOfSameScreen(t, u, n);
    case 'X' => EraseInMode(t, u, Span(n));
    case 'S' => ScrollsOfSameScreen(t, u, n);
    case 'T' => ScrollsOfSameScreen(t, u, n);
    case 'L' => ScreenLaws.LinesOfSameScreen(t, u, n);
    case _ => ScreenLaws.LinesOfSameScreen(t, u, n);
  }

  lemma EditIsCells(t: Term, final: char, n: int, v: Term)
    requires t.Valid() && final in EDITS && n >= 1 && v == EditOf(t, final, n)
    ensures OnlyCells(t, v)
  {
  }

  lemma EditReady(t: Term, u: Term, final: char, n: int, t': Term)
    requires Ready(t, u, n) && final in EDITS && t' == Dispatch(u, final as int).(mode := Ground)
    ensures t'.Valid() && Edited(t, t', final, n)
  {
    var v := EditOf(t, final, n);
    EditDispatch(u, final, n);
    EditOfSameScreen(t, u, final, n, v, EditOf(u, final, n));
    EditIsCells(t, final, n, v);
    forall r, c | 0 <= r < t.rows && 0 <= c < t.cols
      ensures v.grid[r][c] == CellAfter(t, final, n, r, c)
    {
      if final in "@PX" {
        CharEdit(t, final, n, r, c);
      } else if final in "ST" {
        RegionEdit(t, final, n, r, c);
      } else {
        LineEdit(t, final, n, r, c);
      }
    }
  }

  /** Insert, delete and erase characters, scroll up and down, insert and delete lines: cell by
    * cell, with one parameter, zero counting as one, and with none. */
  lemma EditTable(t: Term, ds: bytes, final: char)
    requires t.Valid() && t.mode == Ground && IsDigits(ds) && final in EDITS
    ensures Edited(t, Run(t, Csi([ds], final)), final, Count(ds))
    ensures Edited(t, Run(t, Bare(final)), final, 1)
  {
    OneIsReady(t, ds, final);
    NoneIsReady(t, final);
    EditReady(t, Loaded(BeginCsi(t), [ds]), final, Count(ds), Run(t, Csi([ds], final)));
    EditReady(t, BeginCsi(t), final, 1, Run(t, Bare(final)));
  }

  /** Whether an erase of the display or of the line in this mode takes the cell. */
  predicate Takes(t: Term, final: char, mode: int, r: int, c: int) {
    if final == 'J' then
      if mode == 1 then r < t.row || (r == t.row && c <= t.col)
      else if mode == 2 || mode == 3 then true
      else r > t.row || (r == t.row && c >= t.col)
    else
      if mode == 1 then r == t.row && c <= t.col
      else if mode == 2 then r == t.row
      else r == t.row && c >= t.col
  }

  ghost predicate Erased(t: Term, t': Term, final: char, mode: int)
    requires t.Valid() && t'.Valid()
  {
    && SameScreen(t.(grid := t'.grid), t')
    && forall r, c :: 0 <= r < t.rows && 0 <= c < t.cols ==>
         t'.grid[r][c] == if Takes(t, final, mode, r, c) then Wiped(t.pen) else t.grid[r][c]
  }

  lemma EraseCells(t: Term, t': Term, final: char, mode: Param)
    requires t.Valid() && t'.Valid() && (final == 'J' || final == 'K')
    requires SameScreen(Erase(t, Reach(final, mode)), t')
    ensures Erased(t, t', final, mode)
  {
    PenTable(t.pen, 0);
    assert t'.grid == Erase(t, Reach(final, mode)).grid;
  }

  /** Erase in display and in line, for every mode; with no parameter it is mode 0. */
  lemma EraseTable(t: Term, mode: Param, final: char)
    requires t.Valid() && t.mode == Ground && (final == 'J' || final == 'K')
    ensures Erased(t, Run(t, Csi(Printed([mode]), final)), final, mode)
    ensures Erased(t, Run(t, Bare(final)), final, 0)
  {
    EraseRun(t, mode);
    BareEraseRun(t);
    EraseCells(t, Run(t, Csi(Printed([mode]), final)), final, mode);
    EraseCells(t, Run(t, Bare(final)), final, 0);
  }

  // ----------------------------------------------------------------- region --

  /** The region asked for when it is in order and on the screen, else all of it; the cursor at
    * the start of its first row. */
  function RegionAfter(t: Term, top: int, bottom: int): Term {
    if 1 <= top < bottom <= t.rows then t.(top := top - 1, bottom := bottom - 1, row := top - 1, col := 0)
    else t.(top := 0, bottom := t.rows - 1, row := 0, col := 0)
  }

  lemma RegionReady(t: Term, u: Term, n: int, bottom: int)
    requires Ready(t, u, n)
    requires if u.count <= 1 then bottom == t.rows
      else bottom == if u.params[1] > 0 then u.params[1] else t.rows
    ensures SameScreen(RegionAfter(t, n, bottom), Dispatch(u, 'r' as int).(mode := Ground))
  {
  }

  /** `ESC [ top ; bottom r`, with a zero for either meaning the edge, `ESC [ top r` and
    * `ESC [ r`. */
  lemma RegionTable(t: Term, top: bytes, bottom: bytes)
    requires t.Valid() && t.mode == Ground && IsDigits(top) && IsDigits(bottom)
    ensures SameScreen(RegionAfter(t, Count(top), if Value(bottom) > 0 then Min(Value(bottom), 9999) else t.rows),
                       Run(t, Csi([top, bottom], 'r')))
    ensures SameScreen(RegionAfter(t, Count(top), t.rows), Run(t, Csi([top], 'r')))
    ensures SameScreen(RegionAfter(t, 1, t.rows), Run(t, Bare('r')))
  {
    var u := Loaded(BeginCsi(t), [top, bottom]);
    CsiRun(t, [top, bottom], 'r');
    assert u.params[0] == Min(Value(top), 9999) && u.params[1] == Min(Value(bottom), 9999);
    RegionReady(t, u, Count(top), if Value(bottom) > 0 then Min(Value(bottom), 9999) else t.rows);
    OneIsReady(t, top, 'r');
    RegionReady(t, Loaded(BeginCsi(t), [top]), Count(top), t.rows);
    NoneIsReady(t, 'r');
    RegionReady(t, BeginCsi(t), 1, t.rows);
  }

  // -------------------------------------------------------------------- SGR --

  /** The pen after one SGR parameter. */
  function PenAfter(p: Pen, code: Param): Pen {
    match code
    case 0 => Pen(7, 0, false, false)
    case 1 => Pen(p.fg, p.bg, true, p.reverse)
    case 2 => Pen(p.fg, p.bg, false, p.reverse)
    case 22 => Pen(p.fg, p.bg, false, p.reverse)
    case 7 => Pen(p.fg, p.bg, p.bold, true)
    case 27 => Pen(p.fg, p.bg, p.bold, false)
    case 39 => Pen(7, p.bg, p.bold, p.reverse)
    case 49 => Pen(p.fg, 0, p.bold, p.reverse)
    case _ =>
      if 30 <= code <= 37 then Pen(code - 30, p.bg, p.bold, p.reverse)
      else if 40 <= code <= 47 then Pen(p.fg, code - 40, p.bold, p.reverse)
      else if 90 <= code <= 97 then Pen(code - 82, p.bg, p.bold, p.reverse)
      else if 100 <= code <= 107 then Pen(p.fg, code - 92, p.bold, p.reverse)
      else p
  }

  /** `ESC [ code m` for every code, and `ESC [ m`, which is code 0. */
  lemma PenCodeTable(t: Term, code: Param)
    requires t.Valid() && t.mode == Ground
    ensures SameScreen(t.(pen := PenAfter(t.pen, code)), Run(t, Csi(Printed([code]), 'm')))
    ensures SameScreen(t.(pen := PenAfter(t.pen, 0)), Run(t, Bare('m')))
  {
    var u := Loaded(BeginCsi(t), Printed([code]));
    CsiRun(t, Printed([code]), 'm');
    PrintedAreLoaded(BeginCsi(t), [code]);
    SgrDispatch(u);
    SgrOnce(t.pen, u.params, code);
    BareRun(t, 'm');
    BareSgr(BeginCsi(t));
  }

  lemma SgrOnce(p: Pen, params: seq<Param>, code: Param)
    requires |params| == MAX_PARAMS && params[0] == code
    ensures Sgr(p, params, 1, 0) == PenAfter(p, code)
  {
    assert Sgr(p, params, 1, 0) == Sgr(SgrOne(p, code), params, 1, 1) == SgrOne(p, code);
  }

  lemma BareSgr(u: Term)
    requires u.Valid() && u.count == 0
    ensures var u' := Dispatch(u, 'm' as int);
      u' == u.(pen := Pen(7, 0, false, false), params := u'.params, count := u'.count)
  {
    var params := u.params[0 := 0];
    SgrOnce(u.pen, params, 0);
  }

  /** Several codes act one after the other, an indexed colour as one of them. */
  lemma {:induction false} SgrInTurn(p: Pen, params: seq<Param>, count: int, i: int)
    requires 0 <= i < count <= |params|
    ensures !((params[i] == 38 || params[i] == 48) && i + 2 < count && params[i + 1] == 5) ==>
      Sgr(p, params, count, i) == Sgr(PenAfter(p, params[i]), params, count, i + 1)
    ensures (params[i] == 38 || params[i] == 48) && i + 2 < count && params[i + 1] == 5 ==>
      var n := params[i + 2];
      var colour := if n <= 15 then n else if n >= 244 then 15 else 7;
      Sgr(p, params, count, i) ==
        Sgr(if params[i] == 38 then Pen(colour, p.bg, p.bold, p.reverse) else Pen(p.fg, colour, p.bold, p.reverse),
            params, count, i + 3)
  {
    assert SgrOne(p, params[i]) == PenAfter(p, params[i]);
  }

  // ------------------------------------------------------------- the others --

  const FINALS := "@ABCDEFGHJKLMPSTXdfmrsu"

  /** A final byte that is not in the table does nothing that shows. */
  lemma UnknownTable(t: Term, ps: seq<bytes>, final: char)
    requires t.Valid() && t.mode == Ground && AreParams(ps) && 0x40 <= final as int <= 0x7e && final !in FINALS
    ensures SameScreen(t, Run(t, Csi(ps, final)))
  {
    CsiRun(t, ps, final);
    UnknownDispatch(Loaded(BeginCsi(t), ps), final);
  }

  lemma UnknownDispatch(u: Term, final: char)
    requires u.Valid() && 0x40 <= final as int <= 0x7e && final !in FINALS
    ensures Dispatch(u, final as int) == u
  {
  }

  /** Inside a sequence a private marker or an intermediate byte touches no register but the
    * marker, which nothing reads. */
  lemma MarkerTable(t: Term, b: byte)
    requires t.Valid() && t.mode == InCsi && !(0x30 <= b <= 0x39) && b != ';' as int && !(0x40 <= b <= 0x7e)
    ensures Run(t, [b]) == t.(marker := if b as char in "?>!" then b else t.marker)
  {
    RunOne(t, b);
  }
}
