/** What the terminal shows, as a value, and what each of its operations means.
  *
  * Every operation on the grid is given here in closed form: a cell of the result is
  * described by its own position and the cells of the grid before.  The class in
  * Terminal.dfy reaches the same grids with the loops of `src/psp/term.c`.
  */
module Screen {
  import opened Bytes

  const MAX_COLS := 80
  const MAX_ROWS := 40
  const MAX_PARAMS := 8

  type Colour = x: int | 0 <= x < 16
  type Param = x: int | 0 <= x <= 9999

  const DEFAULT_FG: Colour := 7
  const DEFAULT_BG: Colour := 0

  datatype Cell = Cell(ch: byte, fg: Colour, bg: Colour)

  type Row = seq<Cell>
  type Grid = seq<Row>

  datatype Pen = Pen(fg: Colour, bg: Colour, bold: bool, reverse: bool) {
    /** The foreground with bit 3 set when bold. */
    function Bright(): Colour {
      if bold && fg < 8 then fg + 8 else fg
    }

    function Blank(): Cell {
      Cell(SPACE, DEFAULT_FG, if reverse then fg else bg)
    }

    function Ink(ch: byte): Cell {
      Cell(ch, if reverse then bg else Bright(), if reverse then Bright() else bg)
    }
  }

  const DEFAULT_PEN := Pen(DEFAULT_FG, DEFAULT_BG, false, false)

  datatype Mode = Ground | SawEsc | InCsi | InOsc | SawOscEsc | SkipOne

  /** Everything `term.c` keeps.  Column `cols` is a legal cursor position: the row is
    * full and the wrap waits for the next character. */
  datatype Term = Term(
    cols: int, rows: int, grid: Grid,
    col: int, row: int, savedCol: int, savedRow: int,
    top: int, bottom: int, pen: Pen,
    mode: Mode, params: seq<Param>, count: int, seen: bool, marker: byte, bell: bool)
  {
    predicate Valid() {
      && 0 < cols <= MAX_COLS && 0 < rows <= MAX_ROWS
      && |grid| == rows && (forall r :: 0 <= r < rows ==> |grid[r]| == cols)
      && 0 <= col <= cols && 0 <= row < rows
      && 0 <= savedCol <= cols && 0 <= savedRow < rows
      && 0 <= top <= bottom < rows
      && |params| == MAX_PARAMS && 0 <= count <= MAX_PARAMS
    }
  }

  // ------------------------------------------------------------------- rows --

  function BlankRow(pen: Pen, cols: int): (r: Row)
    requires 0 <= cols
    ensures |r| == cols
  {
    seq(cols, _ => pen.Blank())
  }

  function BlankGrid(pen: Pen, cols: int, rows: int): (g: Grid)
    requires 0 <= cols && 0 <= rows
    ensures |g| == rows && forall r :: 0 <= r < rows ==> g[r] == BlankRow(pen, cols)
  {
    seq(rows, _ => BlankRow(pen, cols))
  }

  function DeleteCells(row: Row, at: int, n: int, blank: Cell): (r: Row)
    requires 0 <= at && 0 <= n
    ensures |r| == |row|
  {
    seq(|row|, c requires 0 <= c < |row| =>
      if c < at then row[c] else if c + n < |row| then row[c + n] else blank)
  }

  function InsertCells(row: Row, at: int, n: int, blank: Cell): (r: Row)
    requires 0 <= at && 0 <= n
    ensures |r| == |row|
  {
    seq(|row|, c requires 0 <= c < |row| =>
      if c < at then row[c] else if c - n >= at then row[c - n] else blank)
  }

  // ------------------------------------------------------------------- grid --

  function RowShiftedUp(g: Grid, top: int, bottom: int, n: int, fill: Row, r: int): Row
    requires 0 <= top <= bottom < |g| && 0 <= n && 0 <= r < |g|
  {
    if top <= r <= bottom then if r + n <= bottom then g[r + n] else fill else g[r]
  }

  function RowShiftedDown(g: Grid, top: int, bottom: int, n: int, fill: Row, r: int): Row
    requires 0 <= top <= bottom < |g| && 0 <= n && 0 <= r < |g|
  {
    if top <= r <= bottom then if r - n >= top then g[r - n] else fill else g[r]
  }

  /** Rows `top..bottom` move up by `n`; blank rows come in below. */
  function ShiftUp(g: Grid, top: int, bottom: int, n: int, fill: Row): (s: Grid)
    requires 0 <= top <= bottom < |g| && 0 <= n
    ensures |s| == |g|
  {
    seq(|g|, r requires 0 <= r < |g| => RowShiftedUp(g, top, bottom, n, fill, r))
  }

  /** Rows `top..bottom` move down by `n`; blank rows come in above. */
  function ShiftDown(g: Grid, top: int, bottom: int, n: int, fill: Row): (s: Grid)
    requires 0 <= top <= bottom < |g| && 0 <= n
    ensures |s| == |g|
  {
    seq(|g|, r requires 0 <= r < |g| => RowShiftedDown(g, top, bottom, n, fill, r))
  }

  function ScrollUp(t: Term, n: int): (t': Term)
    requires t.Valid() && 0 <= n
    ensures t'.Valid()
  {
    t.(grid := ShiftUp(t.grid, t.top, t.bottom, n, BlankRow(t.pen, t.cols)))
  }

  function ScrollDown(t: Term, n: int): (t': Term)
    requires t.Valid() && 0 <= n
    ensures t'.Valid()
  {
    t.(grid := ShiftDown(t.grid, t.top, t.bottom, n, BlankRow(t.pen, t.cols)))
  }

  function LineFeed(t: Term): (t': Term)
    requires t.Valid()
    ensures t'.Valid()
  {
    if t.row == t.bottom then ScrollUp(t, 1)
    else if t.row < t.rows - 1 then t.(row := t.row + 1)
    else t
  }

  /** The cell under a cursor that is not waiting to wrap. */
  function Write(t: Term, ch: byte): (t': Term)
    requires t.Valid() && t.col < t.cols
    ensures t'.Valid()
  {
    t.(grid := t.grid[t.row := t.grid[t.row][t.col := t.pen.Ink(ch)]], col := t.col + 1)
  }

  function PutChar(t: Term, ch: byte): (t': Term)
    requires t.Valid()
    ensures t'.Valid()
  {
    if t.col >= t.cols then Write(LineFeed(t.(col := 0)), ch) else Write(t, ch)
  }

  /** Where a tab stops: the next multiple of eight, but never past the last column. */
  function TabStop(t: Term): int {
    Min((t.col + 8) / 8 * 8, t.cols - 1)
  }

  /** Spaces in the pen's colours from the cursor up to column `col`. */
  function TabTo(t: Term, col: int): (t': Term)
    requires t.Valid() && t.col <= col <= t.cols
    ensures t'.Valid()
  {
    t.(grid := t.grid[t.row := seq(t.cols, c requires 0 <= c < t.cols =>
         if t.col <= c < col then t.pen.Ink(SPACE) else t.grid[t.row][c])],
       col := col)
  }

  function Tab(t: Term): (t': Term)
    requires t.Valid()
    ensures t'.Valid()
  {
    if t.col >= TabStop(t) then t else TabTo(t, TabStop(t))
  }

  /** Which cells an erase reaches, from the cursor at (`row`, `col`). */
  datatype Extent = Display(mode: int) | Line(mode: int) | Span(n: int) {
    predicate Hits(row: int, col: int, r: int, c: int) {
      match this
      case Display(mode) =>
        if mode == 2 || mode == 3 then true
        else if mode == 1 then r < row || (r == row && c <= col)
        else r > row || (r == row && c >= col)
      case Line(mode) =>
        r == row && if mode == 1 then c <= col else mode == 2 || c >= col
      case Span(n) =>
        r == row && col <= c < col + n
    }
  }

  function EraseRow(row: Row, e: Extent, atRow: int, atCol: int, r: int, blank: Cell): (row': Row)
    ensures |row'| == |row|
  {
    seq(|row|, c requires 0 <= c < |row| => if e.Hits(atRow, atCol, r, c) then blank else row[c])
  }

  function Erase(t: Term, e: Extent): (t': Term)
    requires t.Valid()
    ensures t'.Valid()
  {
    t.(grid := seq(t.rows, r requires 0 <= r < t.rows =>
         EraseRow(t.grid[r], e, t.row, t.col, r, t.pen.Blank())))
  }

  function DeleteChars(t: Term, n: int): (t': Term)
    requires t.Valid() && 0 <= n
    ensures t'.Valid()
  {
    t.(grid := t.grid[t.row := DeleteCells(t.grid[t.row], t.col, n, t.pen.Blank())])
  }

  function InsertChars(t: Term, n: int): (t': Term)
    requires t.Valid() && 0 <= n
    ensures t'.Valid()
  {
    t.(grid := t.grid[t.row := InsertCells(t.grid[t.row], t.col, n, t.pen.Blank())])
  }

  /** `scroll_region_down` with the region's top moved to the cursor. */
  function InsertLines(t: Term, n: int): (t': Term)
    requires t.Valid() && 0 <= n
    ensures t'.Valid()
  {
    if t.top <= t.row <= t.bottom then ScrollDown(t.(top := t.row), n).(top := t.top) else t
  }

  function DeleteLines(t: Term, n: int): (t': Term)
    requires t.Valid() && 0 <= n
    ensures t'.Valid()
  {
    if t.top <= t.row <= t.bottom then ScrollUp(t.(top := t.row), n).(top := t.top) else t
  }

  // ------------------------------------------------------------------ reset --

  function SizeOr(n: int, limit: int): int {
    if 0 < n <= limit then n else limit
  }

  /** The size is clamped to the grid exactly when it is not below one. */
  lemma SizeIsClamped(n: int, limit: int)
    requires 1 <= limit
    ensures SizeOr(n, limit) == Max(1, Min(n, limit)) <==> n >= 1 || limit == 1
    ensures n < 1 ==> SizeOr(n, limit) == limit
  {
  }

  function Reset(params: seq<Param>, c: int, r: int): (t': Term)
    requires |params| == MAX_PARAMS
    ensures t'.Valid()
  {
    var cols, rows := SizeOr(c, MAX_COLS), SizeOr(r, MAX_ROWS);
    Term(cols, rows, BlankGrid(DEFAULT_PEN, cols, rows),
         0, 0, 0, 0, 0, rows - 1, DEFAULT_PEN,
         Ground, params, 0, false, 0, false)
  }

  // -------------------------------------------------------------------- CSI --

  function ParamAt(t: Term, index: int, fallback: int): (p: int)
    requires t.Valid() && 0 <= index
    ensures 1 <= fallback ==> 1 <= p
  {
    if index >= t.count || (index == 0 && !t.seen) then fallback
    else if t.params[index] > 0 then t.params[index] else fallback
  }

  function ParamOrZero(t: Term, index: int): int
    requires t.Valid() && 0 <= index
  {
    if index >= t.count then 0 else t.params[index]
  }

  function MoveTo(t: Term, row: int, col: int): (t': Term)
    requires t.Valid()
    ensures t'.Valid()
  {
    t.(row := if row < 0 then 0 else if row >= t.rows then t.rows - 1 else row,
       col := if col < 0 then 0 else if col >= t.cols then t.cols - 1 else col)
  }

  /** A 256-colour index folded onto sixteen. */
  function Fold(p: Param): Colour {
    if p <= 15 then p else if p >= 244 then 15 else 7
  }

  predicate Indexed(params: seq<Param>, count: int, i: int)
    requires 0 <= i < count <= |params|
  {
    (params[i] == 38 || params[i] == 48) && i + 2 < count && params[i + 1] == 5
  }

  /** One SGR parameter, when it does not start a 256-colour sequence. */
  function SgrOne(pen: Pen, p: Param): Pen {
    if p == 0 then DEFAULT_PEN
    else if p == 1 then pen.(bold := true)
    else if p == 2 || p == 22 then pen.(bold := false)
    else if p == 7 then pen.(reverse := true)
    else if p == 27 then pen.(reverse := false)
    else if 30 <= p <= 37 then pen.(fg := p - 30)
    else if p == 39 then pen.(fg := DEFAULT_FG)
    else if 40 <= p <= 47 then pen.(bg := p - 40)
    else if p == 49 then pen.(bg := DEFAULT_BG)
    else if 90 <= p <= 97 then pen.(fg := p - 90 + 8)
    else if 100 <= p <= 107 then pen.(bg := p - 100 + 8)
    else pen
  }

  function Sgr(pen: Pen, params: seq<Param>, count: int, i: int): Pen
    requires 0 <= i && count <= |params|
    decreases count - i
  {
    if i >= count then pen
    else if Indexed(params, count, i) then
      var colour := Fold(params[i + 2]);
      Sgr(if params[i] == 38 then pen.(fg := colour) else pen.(bg := colour), params, count, i + 3)
    else Sgr(SgrOne(pen, params[i]), params, count, i + 1)
  }

  function ApplySgr(t: Term): (t': Term)
    requires t.Valid()
    ensures t'.Valid()
  {
    var u := if t.count == 0 then t.(params := t.params[0 := 0], count := 1) else t;
    u.(pen := Sgr(u.pen, u.params, u.count, 0))
  }

  function SetRegion(t: Term): (t': Term)
    requires t.Valid()
    ensures t'.Valid()
  {
    var top := ParamAt(t, 0, 1) - 1;
    var bottom := if t.count > 1 then ParamAt(t, 1, t.rows) - 1 else t.rows - 1;
    if top < 0 || bottom >= t.rows || top >= bottom
    then t.(top := 0, bottom := t.rows - 1, col := 0, row := 0)
    else t.(top := top, bottom := bottom, col := 0, row := top)
  }

  function Dispatch(t: Term, final: byte): (t': Term)
    requires t.Valid()
    ensures t'.Valid()
  {
    var n := ParamAt(t, 0, 1);
    match final as char
    case 'A' => MoveTo(t, t.row - n, t.col)
    case 'B' => MoveTo(t, t.row + n, t.col)
    case 'C' => MoveTo(t, t.row, t.col + n)
    case 'D' => MoveTo(t, t.row, t.col - n)
    case 'E' => MoveTo(t, t.row + n, 0)
    case 'F' => MoveTo(t, t.row - n, 0)
    case 'G' => MoveTo(t, t.row, n - 1)
    case 'd' => MoveTo(t, n - 1, t.col)
    case 'H' => MoveTo(t, n - 1, ParamAt(t, 1, 1) - 1)
    case 'f' => MoveTo(t, n - 1, ParamAt(t, 1, 1) - 1)
    case 'J' => Erase(t, Display(ParamOrZero(t, 0)))
    case 'K' => Erase(t, Line(ParamOrZero(t, 0)))
    case 'L' => InsertLines(t, n)
    case 'M' => DeleteLines(t, n)
    case 'P' => DeleteChars(t, n)
    case '@' => InsertChars(t, n)
    case 'S' => ScrollUp(t, n)
    case 'T' => ScrollDown(t, n)
    case 'X' => Erase(t, Span(n))
    case 'm' => ApplySgr(t)
    case 'r' => SetRegion(t)
    case 's' => t.(savedCol := t.col, savedRow := t.row)
    case 'u' => MoveTo(t, t.savedRow, t.savedCol)
    case _ => t
  }

  // ------------------------------------------------------------------- feed --

  function GroundByte(t: Term, ch: byte): (t': Term)
    requires t.Valid()
    ensures t'.Valid()
  {
    if ch == ESC then t.(mode := SawEsc)
    else if ch == LF then LineFeed(t)
    else if ch == CR then t.(col := 0)
    else if ch == BS then t.(col := Max(t.col - 1, 0))
    else if ch == TAB then Tab(t)
    else if ch == BEL then t.(bell := true)
    else if ch >= SPACE && ch != 0x7f then PutChar(t, ch)
    else t
  }

  /** Up one line, scrolling the region when already at its top. */
  function ReverseIndex(t: Term): (t': Term)
    requires t.Valid()
    ensures t'.Valid()
  {
    if t.row == t.top then ScrollDown(t, 1)
    else if t.row > 0 then t.(row := t.row - 1)
    else t
  }

  function EscByte(t: Term, ch: byte): (t': Term)
    requires t.Valid()
    ensures t'.Valid()
  {
    match ch as char
    case '[' => t.(mode := InCsi, count := 0, seen := false, marker := 0, params := seq(MAX_PARAMS, _ => 0))
    case ']' => t.(mode := InOsc)
    case '(' => t.(mode := SkipOne)
    case ')' => t.(mode := SkipOne)
    case '#' => t.(mode := SkipOne)
    case '%' => t.(mode := SkipOne)
    case 'M' => ReverseIndex(t).(mode := Ground)
    case 'D' => LineFeed(t).(mode := Ground)
    case 'E' => LineFeed(t.(col := 0)).(mode := Ground)
    case 'c' => Reset(t.params, t.cols, t.rows)
    case _ => t.(mode := Ground)
  }

  function CsiDigit(t: Term, d: int): (t': Term)
    requires t.Valid() && 0 <= d <= 9
    ensures t'.Valid()
  {
    var count := if t.count == 0 then 1 else t.count;
    t.(count := count, seen := true,
       params := t.params[count - 1 := Min(t.params[count - 1] * 10 + d, 9999)])
  }

  function CsiByte(t: Term, ch: byte): (t': Term)
    requires t.Valid()
    ensures t'.Valid()
  {
    if 0x30 <= ch <= 0x39 then CsiDigit(t, ch - 0x30)
    else if ch == ';' as int then t.(count := Min(t.count + 1, MAX_PARAMS), seen := true)
    else if ch == '?' as int || ch == '>' as int || ch == '!' as int then t.(marker := ch)
    else if 0x40 <= ch <= 0x7e then Dispatch(t, ch).(mode := Ground)
    else t
  }

  /** One byte from the far side. */
  function Step(t: Term, ch: byte): (t': Term)
    requires t.Valid()
    ensures t'.Valid()
  {
    match t.mode
    case Ground => GroundByte(t, ch)
    case SawEsc => EscByte(t, ch)
    case InCsi => CsiByte(t, ch)
    case InOsc => if ch == BEL then t.(mode := Ground) else if ch == ESC then t.(mode := SawOscEsc) else t
    case SawOscEsc => t.(mode := if ch == '\\' as int then Ground else InOsc)
    case SkipOne => t.(mode := Ground)
  }

  function Run(t: Term, data: bytes): (t': Term)
    requires t.Valid()
    ensures t'.Valid()
    decreases |data|
  {
    if data == [] then t else Run(Step(t, data[0]), data[1..])
  }
}
