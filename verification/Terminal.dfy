/** `src/psp/term.c` as it is written: a fixed 40 by 80 grid changed in place by loops.
  * Every method is proved to take the state to the one its function in `Screen` describes.
  */
module Terminal {
  import opened Bytes
  import opened Screen

  const CURSOR_MOVES := ['A', 'B', 'C', 'D', 'E', 'F', 'G', 'd', 'H', 'f', 'u']
  const ERASES := ['J', 'K', 'X']
  const EDITS := ['L', 'M', 'P', '@', 'S', 'T']

  class Emulator {
    const grid: array2<Cell>
    const params: array<Param>

    var cols: int
    var rows: int
    var cursorCol: int
    var cursorRow: int
    var savedCol: int
    var savedRow: int
    var scrollTop: int
    var scrollBottom: int
    var pen: Pen
    var state: Mode
    var paramCount: int
    var paramSeen: bool
    var privateMarker: byte
    var bellRang: bool

    /** The visible part of `grid`, row by row. */
    ghost var shown: Grid

    ghost predicate Valid()
      reads this, grid, params
    {
      && grid.Length0 == MAX_ROWS && grid.Length1 == MAX_COLS && params.Length == MAX_PARAMS
      && View().Valid()
      && Mirrors(shown)
    }

    ghost predicate Mirrors(g: Grid)
      requires grid.Length0 == MAX_ROWS && grid.Length1 == MAX_COLS
      reads this, grid
    {
      && 0 <= rows <= MAX_ROWS && 0 <= cols <= MAX_COLS
      && |g| == rows && (forall r :: 0 <= r < rows ==> |g[r]| == cols)
      && forall r, c :: 0 <= r < rows && 0 <= c < cols ==> grid[r, c] == g[r][c]
    }

    ghost function View(): Term
      reads this, params
    {
      Term(cols, rows, shown, cursorCol, cursorRow, savedCol, savedRow, scrollTop, scrollBottom,
           pen, state, params[..], paramCount, paramSeen, privateMarker, bellRang)
    }

    constructor (c: int, r: int)
      ensures Valid() && fresh(grid) && fresh(params)
      ensures View() == Reset(params[..], c, r)
    {
      grid := new Cell[MAX_ROWS, MAX_COLS]((_, _) => DEFAULT_PEN.Blank());
      params := new Param[MAX_PARAMS](_ => 0);
      cols, rows := SizeOr(c, MAX_COLS), SizeOr(r, MAX_ROWS);
      cursorCol, cursorRow, savedCol, savedRow := 0, 0, 0, 0;
      scrollTop, scrollBottom := 0, SizeOr(r, MAX_ROWS) - 1;
      pen := DEFAULT_PEN;
      state, paramCount, paramSeen, privateMarker, bellRang := Ground, 0, false, 0, false;
      shown := BlankGrid(DEFAULT_PEN, SizeOr(c, MAX_COLS), SizeOr(r, MAX_ROWS));
    }

    /** `blank_row`: the visible columns of one row, visible or not. */
    method BlankRowAt(row: int)
      requires grid.Length0 == MAX_ROWS && grid.Length1 == MAX_COLS
      requires 0 <= row < MAX_ROWS && 0 <= cols <= MAX_COLS
      modifies grid
      ensures forall r, c :: 0 <= r < MAX_ROWS && 0 <= c < MAX_COLS ==>
        grid[r, c] == if r == row && c < cols then pen.Blank() else old(grid[r, c])
    {
      for col := 0 to cols
        invariant forall r, c :: 0 <= r < MAX_ROWS && 0 <= c < MAX_COLS ==>
          grid[r, c] == if r == row && c < col then pen.Blank() else old(grid[r, c])
      {
        grid[row, col] := pen.Blank();
      }
    }

    /** The loop of `term_reset` over every row, shown or not. */
    method BlankEveryRow()
      requires grid.Length0 == MAX_ROWS && grid.Length1 == MAX_COLS && 0 <= cols <= MAX_COLS
      modifies grid
      ensures forall r, c :: 0 <= r < MAX_ROWS && 0 <= c < cols ==> grid[r, c] == pen.Blank()
    {
      for row := 0 to MAX_ROWS
        invariant forall r, c :: 0 <= r < row && 0 <= c < cols ==> grid[r, c] == pen.Blank()
      {
        BlankRowAt(row);
      }
    }

    /** The assignments of `term_reset` outside the grid. */
    method ResetFields(c: int, r: int)
      modifies this
      ensures shown == old(shown) && cols == SizeOr(c, MAX_COLS) && rows == SizeOr(r, MAX_ROWS)
      ensures cursorCol == cursorRow == savedCol == savedRow == 0 && pen == DEFAULT_PEN
      ensures scrollTop == 0 && scrollBottom == rows - 1 && state == Ground
      ensures paramCount == 0 && !paramSeen && privateMarker == 0 && !bellRang
    {
      cols := if c > 0 && c <= MAX_COLS then c else MAX_COLS;
      rows := if r > 0 && r <= MAX_ROWS then r else MAX_ROWS;
      pen := DEFAULT_PEN;
      cursorCol, cursorRow, savedCol, savedRow := 0, 0, 0, 0;
      scrollTop, scrollBottom := 0, rows - 1;
      ResetParser();
    }

    method ResetParser()
      modifies `state, `paramCount, `paramSeen, `privateMarker, `bellRang
      ensures state == Ground && paramCount == 0 && !paramSeen && privateMarker == 0 && !bellRang
    {
      state, paramCount, paramSeen, privateMarker, bellRang := Ground, 0, false, 0, false;
    }

    method TermReset(c: int, r: int)
      requires Valid()
      modifies this, grid
      ensures Valid() && View() == Reset(params[..], c, r)
    {
      ResetFields(c, r);
      BlankEveryRow();
      shown := BlankGrid(pen, cols, rows);
    }

    /** The cell at a position inside the grid; nothing outside it. */
    method TermAt(col: int, row: int) returns (cell: Option<Cell>)
      requires Valid()
      ensures cell.Some? <==> 0 <= col < cols && 0 <= row < rows
      ensures cell.Some? ==> cell.value == View().grid[row][col]
    {
      if col < 0 || row < 0 || col >= cols || row >= rows {
        return None;
      }
      return Some(grid[row, col]);
    }

    method TakeBell() returns (rang: bool)
      requires Valid()
      modifies this`bellRang
      ensures Valid() && rang == old(bellRang) && View() == old(View()).(bell := false)
    {
      rang := bellRang;
      bellRang := false;
    }

    // --------------------------------------------------------------- scroll --

    method CopyRow(source: int, target: int)
      requires rows <= grid.Length0 && cols <= grid.Length1
      requires 0 <= source < rows && 0 <= target < rows && source != target
      modifies grid
      ensures forall c :: 0 <= c < cols ==> grid[target, c] == old(grid[source, c])
      ensures forall r, c :: 0 <= r < rows && r != target && 0 <= c < cols ==> grid[r, c] == old(grid[r, c])
    {
      forall c | 0 <= c < cols {
        grid[target, c] := grid[source, c];
      }
    }

    /** The inner loop of `scroll_region_up`: one line. */
    method RowsUpOne()
      requires Valid()
      modifies grid
      ensures Mirrors(ShiftUp(shown, scrollTop, scrollBottom, 1, BlankRow(pen, cols)))
    {
      var row := scrollTop;
      while row < scrollBottom
        invariant scrollTop <= row <= scrollBottom
        invariant forall r, c :: scrollTop <= r < row && 0 <= c < cols ==>
          grid[r, c] == shown[r + 1][c]
        invariant forall r, c :: 0 <= r < rows && !(scrollTop <= r < row) && 0 <= c < cols ==>
          grid[r, c] == shown[r][c]
      {
        CopyRow(row + 1, row);
        row := row + 1;
      }
      BlankRowAt(scrollBottom);
    }

    method ScrollRegionUp(lines: int)
      requires Valid() && 0 <= lines
      modifies grid, `shown
      ensures Valid() && View() == ScrollUp(old(View()), lines)
    {
      ghost var before, fill := shown, BlankRow(pen, cols);
      ShiftUpNone(before, scrollTop, scrollBottom, fill);
      for i := 0 to lines
        invariant Valid()
        invariant shown == ShiftUp(before, scrollTop, scrollBottom, i, fill)
      {
        RowsUpOne();
        shown := ShiftUp(shown, scrollTop, scrollBottom, 1, fill);
        ShiftUpOnce(before, scrollTop, scrollBottom, i, fill);
      }
    }

    /** The inner loop of `scroll_region_down`: one line. */
    method RowsDownOne()
      requires Valid()
      modifies grid
      ensures Mirrors(ShiftDown(shown, scrollTop, scrollBottom, 1, BlankRow(pen, cols)))
    {
      var row := scrollBottom;
      while row > scrollTop
        invariant scrollTop <= row <= scrollBottom
        invariant forall r, c :: row < r <= scrollBottom && 0 <= c < cols ==>
          grid[r, c] == shown[r - 1][c]
        invariant forall r, c :: 0 <= r < rows && !(row < r <= scrollBottom) && 0 <= c < cols ==>
          grid[r, c] == shown[r][c]
      {
        CopyRow(row - 1, row);
        row := row - 1;
      }
      BlankRowAt(scrollTop);
    }

    method ScrollRegionDown(lines: int)
      requires Valid() && 0 <= lines
      modifies grid, `shown
      ensures Valid() && View() == ScrollDown(old(View()), lines)
    {
      ghost var before, fill := shown, BlankRow(pen, cols);
      ShiftDownNone(before, scrollTop, scrollBottom, fill);
      for i := 0 to lines
        invariant Valid()
        invariant shown == ShiftDown(before, scrollTop, scrollBottom, i, fill)
      {
        RowsDownOne();
        shown := ShiftDown(shown, scrollTop, scrollBottom, 1, fill);
        ShiftDownOnce(before, scrollTop, scrollBottom, i, fill);
      }
    }

    method LineFeedHere()
      requires Valid()
      modifies grid, `shown, `cursorRow
      ensures Valid() && View() == LineFeed(old(View()))
    {
      if cursorRow == scrollBottom {
        ScrollRegionUp(1);
      } else if cursorRow < rows - 1 {
        cursorRow := cursorRow + 1;
      }
    }

    // ---------------------------------------------------------------- write --

    /** The cell under the cursor takes the character and the pen's colours. */
    method Ink(ch: byte)
      requires Valid() && cursorCol < cols
      modifies grid, `shown, `cursorCol
      ensures Valid() && View() == Write(old(View()), ch)
    {
      grid[cursorRow, cursorCol] := pen.Ink(ch);
      shown := shown[cursorRow := shown[cursorRow][cursorCol := pen.Ink(ch)]];
      cursorCol := cursorCol + 1;
    }

    method PutCharacter(ch: byte)
      requires Valid()
      modifies grid, `shown, `cursorCol, `cursorRow
      ensures Valid() && View() == PutChar(old(View()), ch)
    {
      if cursorCol >= cols {
        cursorCol := 0;
        LineFeedHere();
      }
      Ink(ch);
    }

    method TabForward()
      requires Valid()
      modifies grid, `shown, `cursorCol, `cursorRow
      ensures Valid() && View() == Tab(old(View()))
    {
      var next := (cursorCol + 8) / 8 * 8;
      if next >= cols {
        next := cols - 1;
      }
      ghost var start := View();
      TabToNone(start);
      while cursorCol < next
        invariant Valid() && next == TabStop(start)
        invariant View() == TabTo(start, cursorCol)
        invariant start.col <= cursorCol && (start.col < next ==> cursorCol <= next)
        invariant start.col >= next ==> cursorCol == start.col
      {
        TabToNext(start, cursorCol);
        PutCharacter(SPACE);
      }
    }

    // ---------------------------------------------------------------- erase --

    /** The cells of the cursor's row from column `from` up to `to`. */
    method BlankCells(from: int, to: int)
      requires grid.Length0 == MAX_ROWS && grid.Length1 == MAX_COLS
      requires 0 <= cursorRow < MAX_ROWS && 0 <= from <= to <= cols <= MAX_COLS
      modifies grid
      ensures forall r, c :: 0 <= r < MAX_ROWS && 0 <= c < MAX_COLS ==>
        grid[r, c] == if r == cursorRow && from <= c < to then pen.Blank() else old(grid[r, c])
    {
      var col := from;
      while col < to
        invariant from <= col <= to
        invariant forall r, c :: 0 <= r < MAX_ROWS && 0 <= c < MAX_COLS ==>
          grid[r, c] == if r == cursorRow && from <= c < col then pen.Blank() else old(grid[r, c])
      {
        grid[cursorRow, col] := pen.Blank();
        col := col + 1;
      }
    }

    /** Whole rows from `from` up to `to`. */
    method BlankRows(from: int, to: int)
      requires grid.Length0 == MAX_ROWS && grid.Length1 == MAX_COLS
      requires 0 <= from <= to <= MAX_ROWS && 0 <= cols <= MAX_COLS
      modifies grid
      ensures forall r, c :: 0 <= r < MAX_ROWS && 0 <= c < MAX_COLS ==>
        grid[r, c] == if from <= r < to && c < cols then pen.Blank() else old(grid[r, c])
    {
      for row := from to to
        invariant forall r, c :: 0 <= r < MAX_ROWS && 0 <= c < MAX_COLS ==>
          grid[r, c] == if from <= r < row && c < cols then pen.Blank() else old(grid[r, c])
      {
        BlankRowAt(row);
      }
    }

    method EraseInDisplay(mode: int)
      requires Valid()
      modifies grid, `shown
      ensures Valid() && View() == Erase(old(View()), Display(mode))
    {
      if mode == 2 || mode == 3 {
        BlankRows(0, rows);
      } else if mode == 1 {
        BlankRows(0, cursorRow);
        BlankCells(0, Min(cursorCol + 1, cols));
      } else {
        BlankCells(cursorCol, cols);
        BlankRows(cursorRow + 1, rows);
      }
      shown := Erase(View(), Display(mode)).grid;
    }

    method EraseInLine(mode: int)
      requires Valid()
      modifies grid, `shown
      ensures Valid() && View() == Erase(old(View()), Line(mode))
    {
      if mode == 1 {
        BlankCells(0, Min(cursorCol + 1, cols));
      } else if mode == 2 {
        BlankRowAt(cursorRow);
      } else {
        BlankCells(cursorCol, cols);
      }
      shown := Erase(View(), Line(mode)).grid;
    }

    method EraseSpan(n: int)
      requires Valid() && 1 <= n
      modifies grid, `shown
      ensures Valid() && View() == Erase(old(View()), Span(n))
    {
      BlankCells(cursorCol, Min(cursorCol + n, cols));
      shown := Erase(View(), Span(n)).grid;
    }

    method DeleteCharsHere(n: int)
      requires Valid() && 0 <= n
      modifies grid, `shown
      ensures Valid() && View() == DeleteChars(old(View()), n)
    {
      ghost var edited := DeleteCells(shown[cursorRow], cursorCol, n, pen.Blank());
      for col := cursorCol to cols
        modifies grid
        invariant forall r, c :: 0 <= r < rows && 0 <= c < cols ==>
          grid[r, c] == if r == cursorRow && c < col then edited[c] else shown[r][c]
      {
        if col + n < cols {
          grid[cursorRow, col] := grid[cursorRow, col + n];
        } else {
          grid[cursorRow, col] := pen.Blank();
        }
      }
      shown := DeleteChars(View(), n).grid;
    }

    method InsertCharsHere(n: int)
      requires Valid() && 0 <= n
      modifies grid, `shown
      ensures Valid() && View() == InsertChars(old(View()), n)
    {
      ghost var edited := InsertCells(shown[cursorRow], cursorCol, n, pen.Blank());
      for col := cols downto cursorCol
        modifies grid
        invariant forall r, c :: 0 <= r < rows && 0 <= c < cols ==>
          grid[r, c] == if r == cursorRow && c >= col then edited[c] else shown[r][c]
      {
        if col - n >= cursorCol {
          grid[cursorRow, col] := grid[cursorRow, col - n];
        } else {
          grid[cursorRow, col] := pen.Blank();
        }
      }
      shown := InsertChars(View(), n).grid;
    }

    method InsertLinesHere(n: int)
      requires Valid() && 0 <= n
      modifies grid, `shown, `scrollTop
      ensures Valid() && View() == InsertLines(old(View()), n)
    {
      var keepTop := scrollTop;
      if cursorRow >= scrollTop && cursorRow <= scrollBottom {
        scrollTop := cursorRow;
        ScrollRegionDown(n);
        scrollTop := keepTop;
      }
    }

    method DeleteLinesHere(n: int)
      requires Valid() && 0 <= n
      modifies grid, `shown, `scrollTop
      ensures Valid() && View() == DeleteLines(old(View()), n)
    {
      var keepTop := scrollTop;
      if cursorRow >= scrollTop && cursorRow <= scrollBottom {
        scrollTop := cursorRow;
        ScrollRegionUp(n);
        scrollTop := keepTop;
      }
    }

    // ------------------------------------------------------------------ CSI --

    function ParamHere(index: int, fallback: int): (p: int)
      requires Valid() && 0 <= index
      reads this, grid, params
      ensures p == ParamAt(View(), index, fallback)
    {
      if index >= paramCount || (index == 0 && !paramSeen) then fallback
      else if params[index] > 0 then params[index] else fallback
    }

    function ParamOrZeroHere(index: int): (p: int)
      requires Valid() && 0 <= index
      reads this, grid, params
      ensures p == ParamOrZero(View(), index)
    {
      if index >= paramCount then 0 else params[index]
    }

    /** Assigns the cursor and clamps it onto the grid. */
    method Place(row: int, col: int)
      requires Valid()
      modifies `cursorRow, `cursorCol
      ensures Valid() && View() == MoveTo(old(View()), row, col)
    {
      cursorRow := if row < 0 then 0 else if row >= rows then rows - 1 else row;
      cursorCol := if col < 0 then 0 else if col >= cols then cols - 1 else col;
    }

    method ApplySgrHere()
      requires Valid()
      modifies params, `paramCount, `pen
      ensures Valid() && View() == ApplySgr(old(View()))
    {
      if paramCount == 0 {
        params[0] := 0;
        paramCount := 1;
      }
      var i := 0;
      var p := pen;
      while i < paramCount
        invariant 0 <= i
        invariant Sgr(p, params[..], paramCount, i) == Sgr(pen, params[..], paramCount, 0)
      {
        if (params[i] == 38 || params[i] == 48) && i + 2 < paramCount && params[i + 1] == 5 {
          var colour := Fold(params[i + 2]);
          p := if params[i] == 38 then p.(fg := colour) else p.(bg := colour);
          i := i + 3;
        } else {
          p := SgrOne(p, params[i]);
          i := i + 1;
        }
      }
      pen := p;
    }

    method SetRegionHere()
      requires Valid()
      modifies `scrollTop, `scrollBottom, `cursorCol, `cursorRow
      ensures Valid() && View() == SetRegion(old(View()))
    {
      var top := ParamHere(0, 1) - 1;
      var bottom := if paramCount > 1 then ParamHere(1, rows) - 1 else rows - 1;
      if top < 0 || bottom >= rows || top >= bottom {
        top, bottom := 0, rows - 1;
      }
      scrollTop, scrollBottom, cursorCol, cursorRow := top, bottom, 0, top;
    }

    /** The sequences that only move the cursor. */
    method DispatchMove(final: byte)
      requires Valid() && final as char in CURSOR_MOVES
      modifies `cursorRow, `cursorCol
      ensures Valid() && View() == Dispatch(old(View()), final)
    {
      var n := ParamHere(0, 1);
      match final as char
      case 'A' => Place(cursorRow - n, cursorCol);
      case 'B' => Place(cursorRow + n, cursorCol);
      case 'C' => Place(cursorRow, cursorCol + n);
      case 'D' => Place(cursorRow, cursorCol - n);
      case 'E' => Place(cursorRow + n, 0);
      case 'F' => Place(cursorRow - n, 0);
      case 'G' => Place(cursorRow, n - 1);
      case 'd' => Place(n - 1, cursorCol);
      case 'u' => Place(savedRow, savedCol);
      case _ => Place(n - 1, ParamHere(1, 1) - 1);
    }

    /** The sequences that rearrange or erase cells. */
    method DispatchErase(final: byte)
      requires Valid() && final as char in ERASES
      modifies grid, `shown
      ensures Valid() && View() == Dispatch(old(View()), final)
    {
      match final as char
      case 'J' => EraseInDisplay(ParamOrZeroHere(0));
      case 'K' => EraseInLine(ParamOrZeroHere(0));
      case _ => EraseSpan(ParamHere(0, 1));
    }

    method DispatchEdit(final: byte)
      requires Valid() && final as char in EDITS
      modifies grid, `shown, `scrollTop
      ensures Valid() && View() == Dispatch(old(View()), final)
    {
      var n := ParamHere(0, 1);
      match final as char
      case 'L' => InsertLinesHere(n);
      case 'M' => DeleteLinesHere(n);
      case 'P' => DeleteCharsHere(n);
      case '@' => InsertCharsHere(n);
      case 'S' => ScrollRegionUp(n);
      case _ => ScrollRegionDown(n);
    }

    method DispatchCsi(final: byte)
      requires Valid()
      modifies this, grid, params
      ensures Valid() && View() == Dispatch(old(View()), final)
    {
      if final as char in CURSOR_MOVES {
        DispatchMove(final);
      } else if final as char in ERASES {
        DispatchErase(final);
      } else if final as char in EDITS {
        DispatchEdit(final);
      } else if final == 'm' as int {
        ApplySgrHere();
      } else if final == 'r' as int {
        SetRegionHere();
      } else if final == 's' as int {
        savedCol, savedRow := cursorCol, cursorRow;
      }
    }

    // ----------------------------------------------------------------- feed --

    method FeedGround(ch: byte)
      requires Valid() && state == Ground
      modifies this, grid, params
      ensures Valid() && View() == GroundByte(old(View()), ch)
    {
      if ch == ESC {
        state := SawEsc;
      } else if ch == LF {
        LineFeedHere();
      } else if ch == CR {
        cursorCol := 0;
      } else if ch == BS {
        if cursorCol > 0 {
          cursorCol := cursorCol - 1;
        }
      } else if ch == TAB {
        TabForward();
      } else if ch == BEL {
        bellRang := true;
      } else if ch >= SPACE && ch != 0x7f {
        PutCharacter(ch);
      }
    }

    method ReverseIndexHere()
      requires Valid()
      modifies grid, `shown, `cursorRow
      ensures Valid() && View() == ReverseIndex(old(View()))
    {
      if cursorRow == scrollTop {
        ScrollRegionDown(1);
      } else if cursorRow > 0 {
        cursorRow := cursorRow - 1;
      }
    }

    method BeginCsi()
      requires Valid()
      modifies this, params
      ensures Valid() && View() == EscByte(old(View()), '[' as int)
    {
      state, paramCount, paramSeen, privateMarker := InCsi, 0, false, 0;
      for i := 0 to MAX_PARAMS
        modifies params
        invariant forall j :: 0 <= j < i ==> params[j] == 0
      {
        params[i] := 0;
      }
    }

    method NextLine()
      requires Valid()
      modifies grid, `shown, `cursorRow, `cursorCol
      ensures Valid() && View() == LineFeed(old(View()).(col := 0))
    {
      cursorCol := 0;
      LineFeedHere();
    }

    /** `ESC M`, `ESC D` and `ESC E`: the sequences that move a line. */
    method LineMove(ch: byte)
      requires Valid() && state == SawEsc && ch as char in ['M', 'D', 'E']
      modifies grid, `shown, `cursorRow, `cursorCol, `state
      ensures Valid() && View() == EscByte(old(View()), ch)
    {
      if ch == 'M' as int {
        ReverseIndexHere();
      } else if ch == 'D' as int {
        LineFeedHere();
      } else {
        NextLine();
      }
      state := Ground;
    }

    method FeedEsc(ch: byte)
      requires Valid() && state == SawEsc
      modifies this, grid, params
      ensures Valid() && View() == EscByte(old(View()), ch)
    {
      match ch as char
      case '[' => BeginCsi();
      case ']' => state := InOsc;
      case '(' => state := SkipOne;
      case ')' => state := SkipOne;
      case '#' => state := SkipOne;
      case '%' => state := SkipOne;
      case 'M' => LineMove(ch);
      case 'D' => LineMove(ch);
      case 'E' => LineMove(ch);
      case 'c' => TermReset(cols, rows);
      case _ => state := Ground;
    }

    method TakeDigit(d: int)
      requires Valid() && 0 <= d <= 9
      modifies params, `paramCount, `paramSeen
      ensures Valid() && View() == CsiDigit(old(View()), d)
    {
      if paramCount == 0 {
        paramCount := 1;
      }
      var at := paramCount - 1;
      params[at] := Min(params[at] * 10 + d, 9999);
      paramSeen := true;
    }

    method FeedCsi(ch: byte)
      requires Valid() && state == InCsi
      modifies this, grid, params
      ensures Valid() && View() == CsiByte(old(View()), ch)
    {
      if 0x30 <= ch <= 0x39 {
        TakeDigit(ch - 0x30);
      } else if ch == ';' as int {
        if paramCount < MAX_PARAMS {
          paramCount := paramCount + 1;
        }
        paramSeen := true;
      } else if ch == '?' as int || ch == '>' as int || ch == '!' as int {
        privateMarker := ch;
      } else if 0x40 <= ch <= 0x7e {
        DispatchCsi(ch);
        state := Ground;
      }
    }

    method FeedByte(ch: byte)
      requires Valid()
      modifies this, grid, params
      ensures Valid() && View() == Step(old(View()), ch)
    {
      match state
      case Ground => FeedGround(ch);
      case SawEsc => FeedEsc(ch);
      case InCsi => FeedCsi(ch);
      case InOsc =>
        if ch == BEL {
          state := Ground;
        } else if ch == ESC {
          state := SawOscEsc;
        }
      case SawOscEsc => state := if ch == '\\' as int then Ground else InOsc;
      case SkipOne => state := Ground;
    }

    /** `term_feed`: every byte string, in any state the parser was left in. */
    method TermFeed(data: bytes)
      requires Valid()
      modifies this, grid, params
      ensures Valid() && View() == Run(old(View()), data)
    {
      for i := 0 to |data|
        invariant Valid()
        invariant Run(View(), data[i..]) == Run(old(View()), data)
      {
        assert data[i..][0] == data[i] && data[i..][1..] == data[i + 1..];
        FeedByte(data[i]);
      }
    }
  }

  lemma TabToNext(t: Term, col: int)
    requires t.Valid() && t.col <= col < t.cols
    ensures PutChar(TabTo(t, col), SPACE) == TabTo(t, col + 1)
  {
    var before, after := TabTo(t, col).grid, TabTo(t, col + 1).grid;
    assert before[t.row][col := t.pen.Ink(SPACE)] == after[t.row];
    assert before[t.row := after[t.row]] == after;
  }

  lemma TabToNone(t: Term)
    requires t.Valid()
    ensures TabTo(t, t.col) == t
  {
    assert TabTo(t, t.col).grid[t.row] == t.grid[t.row];
    assert TabTo(t, t.col).grid == t.grid;
  }

  lemma ShiftUpNone(g: Grid, top: int, bottom: int, fill: Row)
    requires 0 <= top <= bottom < |g|
    ensures ShiftUp(g, top, bottom, 0, fill) == g
  {
  }

  lemma ShiftUpOnce(g: Grid, top: int, bottom: int, n: int, fill: Row)
    requires 0 <= top <= bottom < |g| && 0 <= n
    ensures ShiftUp(ShiftUp(g, top, bottom, n, fill), top, bottom, 1, fill)
      == ShiftUp(g, top, bottom, n + 1, fill)
  {
  }

  lemma ShiftDownNone(g: Grid, top: int, bottom: int, fill: Row)
    requires 0 <= top <= bottom < |g|
    ensures ShiftDown(g, top, bottom, 0, fill) == g
  {
  }

  lemma ShiftDownOnce(g: Grid, top: int, bottom: int, n: int, fill: Row)
    requires 0 <= top <= bottom < |g| && 0 <= n
    ensures ShiftDown(ShiftDown(g, top, bottom, n, fill), top, bottom, 1, fill)
      == ShiftDown(g, top, bottom, n + 1, fill)
  {
  }
}
