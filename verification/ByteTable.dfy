/** What every byte and every sequence of `src/psp/term.c` does, as a table.
  *
  * The entries say it on the fields and cells, in terms of what was there before and of
  * nothing else: no operation of the emulator or of its specification is named in them.
  */
module ByteTable {
  import opened Bytes
  import opened Screen
  import opened ParserLaws
  import opened SequenceLaws
  import opened Text

  // --------------------------------------------------------------- colours --

  /** An erased cell: a space, colour 7 on what the pen paints behind its characters. */
  function Wiped(p: Pen): Cell {
    Cell(32, 7, if p.reverse then p.fg else p.bg)
  }

  /** The colour a pen writes with: bold is the bright half of the palette. */
  function Lit(p: Pen): Colour {
    if p.bold && p.fg <= 7 then p.fg + 8 else p.fg
  }

  /** A written cell. */
  function Drawn(p: Pen, ch: byte): Cell {
    if p.reverse then Cell(ch, p.bg, Lit(p)) else Cell(ch, Lit(p), p.bg)
  }

  lemma PenTable(p: Pen, ch: byte)
    ensures p.Blank() == Wiped(p) && p.Ink(ch) == Drawn(p, ch)
    ensures DEFAULT_PEN == Pen(7, 0, false, false)
  {
  }

  // ---------------------------------------------------------- text, controls --

  /** Rows `top` to `bottom` moved up by `n`, wiped ones coming in. */
  ghost predicate RowsUp(t: Term, t': Term, top: int, bottom: int, n: nat)
    requires t.Valid() && t'.Valid() && 0 <= top && bottom < t.rows
  {
    t'.rows == t.rows && t'.cols == t.cols && forall r, c :: 0 <= r < t.rows && 0 <= c < t.cols ==>
      t'.grid[r][c] ==
        if r < top || r > bottom then t.grid[r][c] else if r + n <= bottom then t.grid[r + n][c] else Wiped(t.pen)
  }

  ghost predicate RowsDown(t: Term, t': Term, top: int, bottom: int, n: nat)
    requires t.Valid() && t'.Valid() && 0 <= top && bottom < t.rows
  {
    t'.rows == t.rows && t'.cols == t.cols && forall r, c :: 0 <= r < t.rows && 0 <= c < t.cols ==>
      t'.grid[r][c] ==
        if r < top || r > bottom then t.grid[r][c] else if r - n >= top then t.grid[r - n][c] else Wiped(t.pen)
  }

  /** Only the cells differ. */
  predicate OnlyCells(t: Term, t': Term) {
    t' == t.(grid := t'.grid)
  }

  lemma UpTable(t: Term, top: int, bottom: int, n: nat)
    requires t.Valid() && 0 <= top <= bottom < t.rows
    ensures var t' := ScrollUp(t.(top := top, bottom := bottom), n).(top := t.top, bottom := t.bottom);
      t'.Valid() && OnlyCells(t, t') && RowsUp(t, t', top, bottom, n)
  {
    PenTable(t.pen, 0);
  }

  lemma DownTable(t: Term, top: int, bottom: int, n: nat)
    requires t.Valid() && 0 <= top <= bottom < t.rows
    ensures var t' := ScrollDown(t.(top := top, bottom := bottom), n).(top := t.top, bottom := t.bottom);
      t'.Valid() && OnlyCells(t, t') && RowsDown(t, t', top, bottom, n)
  {
    PenTable(t.pen, 0);
  }

  /** A line feed: at the bottom of the region its rows go up by one; elsewhere the cursor goes
    * down, but not past the last row. */
  ghost predicate FedLine(t: Term, t': Term)
    requires t.Valid() && t'.Valid()
  {
    if t.row == t.bottom then OnlyCells(t, t') && RowsUp(t, t', t.top, t.bottom, 1)
    else t' == t.(row := Min(t.row + 1, t.rows - 1))
  }

  lemma FeedTable(t: Term)
    requires t.Valid()
    ensures FedLine(t, LineFeed(t))
  {
    if t.row == t.bottom {
      UpTable(t, t.top, t.bottom, 1);
      assert ScrollUp(t, 1) == ScrollUp(t.(top := t.top, bottom := t.bottom), 1).(top := t.top, bottom := t.bottom);
    }
  }

  /** The control bytes, in text: LF, CR, BS, BEL, and those that do nothing. */
  lemma ControlTable(t: Term, b: byte)
    requires t.Valid() && t.mode == Ground && (b < 32 || b == 127) && b != 27 && b != 9
    ensures var t' := Run(t, [b]);
      match b
      case 10 => FedLine(t, t')
      case 13 => t' == t.(col := 0)
      case 8 => t' == t.(col := if t.col > 0 then t.col - 1 else 0)
      case 7 => t' == t.(bell := true)
      case _ => t' == t
  {
    RunOne(t, b);
    FeedTable(t);
  }

  /** HT: spaces in the pen's colours up to the next multiple of eight or the last column,
    * whichever is first, and the cursor there; nothing from the last column on. */
  lemma TabTable(t: Term)
    requires t.Valid() && t.mode == Ground
    ensures var t', stop := Run(t, [9]), Min(t.col - t.col % 8 + 8, t.cols - 1);
      if t.col >= t.cols - 1 then t' == t
      else
        && t' == t.(grid := t'.grid, col := stop) && t.col < stop <= t.col + 8
        && forall r, c :: 0 <= r < t.rows && 0 <= c < t.cols ==>
             t'.grid[r][c] == if r == t.row && t.col <= c < stop then Drawn(t.pen, 32) else t.grid[r][c]
  {
    RunOne(t, 9);
    PenTable(t.pen, 32);
  }

  lemma WriteTable(t: Term, ch: byte, t': Term)
    requires t.Valid() && t.col < t.cols && t' == Write(t, ch)
    ensures t' == t.(grid := t'.grid, col := t.col + 1)
    ensures forall r, c :: 0 <= r < t.rows && 0 <= c < t.cols ==>
      t'.grid[r][c] == if r == t.row && c == t.col then Drawn(t.pen, ch) else t.grid[r][c]
  {
    PenTable(t.pen, ch);
  }

  /** A character, the cursor inside its row: one cell, in the pen's colours. */
  lemma CharTable(t: Term, ch: byte)
    requires t.Valid() && t.mode == Ground && ch >= 32 && ch != 127 && t.col < t.cols
    ensures var t' := Run(t, [ch]);
      && t' == t.(grid := t'.grid, col := t.col + 1)
      && forall r, c :: 0 <= r < t.rows && 0 <= c < t.cols ==>
           t'.grid[r][c] == if r == t.row && c == t.col then Drawn(t.pen, ch) else t.grid[r][c]
  {
    RunOne(t, ch);
    WriteTable(t, ch, Run(t, [ch]));
  }

  /** With the wrap pending a line break comes first. */
  lemma WrapTable(t: Term, ch: byte)
    requires t.Valid() && t.mode == Ground && ch >= 32 && ch != 127 && t.col == t.cols
    ensures Run(t, [ch]) == Run(t, [13, 10, ch])
  {
    var back := t.(col := 0);
    RunOne(t, ch);
    RunOne(t, 13);
    RunOne(back, 10);
    RunOne(LineFeed(back), ch);
    RunConcat(t, [13], [10]);
    RunConcat(t, [13, 10], [ch]);
    assert [13, 10] == [13] + [10] && [13, 10, ch] == [13, 10] + [ch];
  }

  // ---------------------------------------------------------------- escapes --

  lemma EscapeRun(t: Term, b: byte)
    requires t.Valid() && t.mode == Ground
    ensures Run(t, [27, b]) == EscByte(t.(mode := SawEsc), b)
  {
    assert [27, b] == [27] + [b];
    RunConcat(t, [27], [b]);
    RunOne(t, 27);
    RunOne(t.(mode := SawEsc), b);
  }

  /** `ESC M`: up, the region's rows going down when at its top. */
  lemma ReverseTable(t: Term)
    requires t.Valid() && t.mode == Ground
    ensures var t' := Run(t, [27, 'M' as int]);
      if t.row == t.top then OnlyCells(t, t') && RowsDown(t, t', t.top, t.bottom, 1)
      else t' == t.(row := Max(t.row - 1, 0))
  {
    EscapeRun(t, 'M' as int);
    if t.row == t.top {
      DownTable(t, t.top, t.bottom, 1);
      assert ReverseIndex(t.(mode := SawEsc)).(mode := Ground)
          == ScrollDown(t.(top := t.top, bottom := t.bottom), 1).(top := t.top, bottom := t.bottom);
    }
  }

  lemma FeedInMode(t: Term)
    requires t.Valid() && t.mode == Ground
    ensures LineFeed(t.(mode := SawEsc)).(mode := Ground) == LineFeed(t)
  {
  }

  /** `ESC D` is a line feed. */
  lemma IndexTable(t: Term)
    requires t.Valid() && t.mode == Ground
    ensures Run(t, [27, 'D' as int]) == Run(t, [10])
  {
    EscapeRun(t, 'D' as int);
    FeedInMode(t);
    RunOne(t, 10);
  }

  lemma ReturnAndFeed(t: Term)
    requires t.Valid() && t.mode == Ground
    ensures Run(t, [13, 10]) == LineFeed(t.(col := 0))
  {
    assert [13, 10] == [13] + [10];
    RunConcat(t, [13], [10]);
    RunOne(t, 13);
    RunOne(t.(col := 0), 10);
  }

  /** `ESC E` is a carriage return and a line feed. */
  lemma NextLineTable(t: Term)
    requires t.Valid() && t.mode == Ground
    ensures Run(t, [27, 'E' as int]) == Run(t, [13, 10])
  {
    EscapeRun(t, 'E' as int);
    FeedInMode(t.(col := 0));
    ReturnAndFeed(t);
  }

  /** A terminal just reset: empty, of that size, everything else at its start. */
  predicate Pristine(t: Term, cols: int, rows: int) {
    && t.cols == cols && t.rows == rows && t.col == 0 && t.row == 0 && t.savedCol == 0 && t.savedRow == 0
    && t.top == 0 && t.bottom == rows - 1 && t.pen == Pen(7, 0, false, false) && t.mode == Ground
    && t.count == 0 && !t.seen && t.marker == 0 && !t.bell
    && |t.grid| == rows && (forall r :: 0 <= r < rows ==> |t.grid[r]| == cols)
    && forall r, c :: 0 <= r < rows && 0 <= c < cols ==> t.grid[r][c] == Cell(32, 7, 0)
  }

  /** A reset to a size in range is that size; either number out of range becomes its maximum. */
  lemma ResetTable(params: seq<Param>, c: int, r: int)
    requires |params| == MAX_PARAMS
    ensures Pristine(Reset(params, c, r), if 1 <= c <= 80 then c else 80, if 1 <= r <= 40 then r else 40)
  {
    PenTable(DEFAULT_PEN, 0);
  }

  /** `ESC c` resets and keeps the size. */
  lemma ResetSequence(t: Term)
    requires t.Valid() && t.mode == Ground
    ensures Pristine(Run(t, [27, 'c' as int]), t.cols, t.rows)
  {
    var u := Reset(t.params, t.cols, t.rows);
    EscapeRun(t, 'c' as int);
    ResetEscape(t);
    ResetTable(t.params, t.cols, t.rows);
    assert Pristine(u, t.cols, t.rows);
  }

  lemma ResetEscape(t: Term)
    requires t.Valid()
    ensures EscByte(t.(mode := SawEsc), 'c' as int) == Reset(t.params, t.cols, t.rows)
  {
  }

  /** A character set selection is swallowed with the byte after it, whatever that is. */
  lemma CharsetTable(t: Term, b: byte, any: byte)
    requires t.Valid() && t.mode == Ground && b as char in "()#%"
    ensures Run(t, [27, b, any]) == t
  {
    EscapeRun(t, b);
    assert [27, b, any] == [27, b] + [any];
    RunConcat(t, [27, b], [any]);
    RunOne(t.(mode := SkipOne), any);
  }

  /** Any other escape is swallowed. */
  lemma OtherEscapeTable(t: Term, b: byte)
    requires t.Valid() && t.mode == Ground && b as char !in "[]()#%MDEc"
    ensures Run(t, [27, b]) == t
  {
    EscapeRun(t, b);
  }
}
