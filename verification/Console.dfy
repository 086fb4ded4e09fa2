/** The boot log of `src/psp/console.c`: a 22 by 80 grid that passes for endless paper. */
module Console {
  import opened Bytes

  const ROWS := 22
  const COLS := 80
  const WHITE := 0xffe8e8e8

  datatype Glyph = Glyph(ch: byte, colour: int)

  const BLANK := Glyph(SPACE, WHITE)

  // ----------------------------------------------------------------- paper --

  /** A log that never scrolls: rows of eighty glyphs, written at column `col` of the last. */
  datatype Paper = Paper(rows: seq<seq<Glyph>>, col: int) {
    predicate Valid() {
      rows != [] && 0 <= col <= COLS && forall i :: 0 <= i < |rows| ==> |rows[i]| == COLS
    }
  }

  function BlankLine(): (r: seq<Glyph>)
    ensures |r| == COLS
  {
    seq(COLS, _ => BLANK)
  }

  function Fresh(): (p: Paper)
    ensures p.Valid()
  {
    Paper([BlankLine()], 0)
  }

  function NewLine(p: Paper): (p': Paper)
    requires p.Valid()
    ensures p'.Valid()
  {
    Paper(p.rows + [BlankLine()], 0)
  }

  function Spaces(n: int, pen: int): (gs: seq<Glyph>)
    requires 0 <= n
    ensures |gs| == n
  {
    seq(n, _ => Glyph(SPACE, pen))
  }

  /** Glyphs over columns `col` to `col + |gs|` of the last row. */
  function Overwrite(p: Paper, gs: seq<Glyph>): (p': Paper)
    requires p.Valid() && p.col + |gs| <= COLS
    ensures p'.Valid()
  {
    var last := |p.rows| - 1;
    Paper(p.rows[last := p.rows[last][..p.col] + gs + p.rows[last][p.col + |gs|..]], p.col + |gs|)
  }

  function Type(p: Paper, ch: byte, pen: int): (p': Paper)
    requires p.Valid()
    ensures p'.Valid()
  {
    if ch == LF then NewLine(p)
    else if ch == CR then p.(col := 0)
    else if ch == TAB then
      var stop := (p.col + 8) / 8 * 8;
      if stop >= COLS
      then NewLine(Overwrite(p, Spaces(COLS - p.col, pen)))
      else Overwrite(p, Spaces(stop - p.col, pen))
    else Overwrite(if p.col >= COLS then NewLine(p) else p, [Glyph(ch, pen)])
  }

  function TypeAll(p: Paper, text: bytes, pen: int): (p': Paper)
    requires p.Valid()
    ensures p'.Valid()
    decreases |text|
  {
    if text == [] then p else TypeAll(Type(p, text[0], pen), text[1..], pen)
  }

  /** The last 22 rows of the paper, blank below while it is shorter. */
  function Window(p: Paper): (g: seq<seq<Glyph>>)
    requires p.Valid()
    ensures |g| == ROWS && forall r :: 0 <= r < ROWS ==> |g[r]| == COLS
  {
    seq(ROWS, r requires 0 <= r < ROWS => WindowRow(p, r))
  }

  function WindowRow(p: Paper, r: int): (row: seq<Glyph>)
    requires p.Valid() && 0 <= r
    ensures |row| == COLS
  {
    var i := Max(|p.rows| - ROWS, 0) + r;
    if i < |p.rows| then p.rows[i] else BlankLine()
  }

  /** The grid row the cursor is on. */
  function CursorRow(p: Paper): int {
    Min(|p.rows|, ROWS) - 1
  }

  lemma NewLineWindow(p: Paper)
    requires p.Valid()
    ensures Window(NewLine(p)) == if |p.rows| >= ROWS then Window(p)[1..] + [BlankLine()] else Window(p)
  {
  }

  lemma InkInWindow(p: Paper, g: Glyph)
    requires p.Valid() && p.col < COLS
    ensures var row := CursorRow(p);
      Window(Overwrite(p, [g])) == Window(p)[row := Window(p)[row][p.col := g]]
  {
    var last := |p.rows| - 1;
    assert Overwrite(p, [g]).rows[last] == p.rows[last][p.col := g];
  }

  // ------------------------------------------------------------------ grid --

  class Log {
    const cells: array2<byte>
    const colours: array2<int>
    var cursorCol: int
    var cursorRow: int
    var pen: int

    /** Everything logged since the last reset. */
    ghost var paper: Paper

    ghost predicate Sized()
    {
      cells.Length0 == ROWS && cells.Length1 == COLS && colours.Length0 == ROWS && colours.Length1 == COLS
    }

    ghost predicate Mirrors(g: seq<seq<Glyph>>)
      requires Sized() && |g| == ROWS && forall r :: 0 <= r < ROWS ==> |g[r]| == COLS
      reads cells, colours
    {
      && (forall r, c :: 0 <= r < ROWS && 0 <= c < COLS ==> cells[r, c] == g[r][c].ch)
      && (forall r, c :: 0 <= r < ROWS && 0 <= c < COLS ==> colours[r, c] == g[r][c].colour)
    }

    /** The grid is the last 22 rows of the paper, the cursor on the last of them. */
    ghost predicate Valid()
      reads this, cells, colours
    {
      && Sized() && paper.Valid()
      && cursorCol == paper.col
      && cursorRow == CursorRow(paper)
      && Mirrors(Window(paper))
    }

    constructor ()
      ensures Valid() && paper == Fresh() && pen == WHITE && fresh(cells) && fresh(colours)
    {
      cells := new byte[ROWS, COLS]((_, _) => SPACE);
      colours := new int[ROWS, COLS]((_, _) => WHITE);
      cursorCol, cursorRow, pen := 0, 0, WHITE;
      paper := Fresh();
    }

    method BlankRow(row: int)
      requires Sized() && 0 <= row < ROWS
      modifies cells, colours
      ensures forall c :: 0 <= c < COLS ==> cells[row, c] == SPACE && colours[row, c] == WHITE
      ensures forall r, c :: 0 <= r < ROWS && r != row && 0 <= c < COLS ==>
        cells[r, c] == old(cells[r, c]) && colours[r, c] == old(colours[r, c])
    {
      for col := 0 to COLS
        invariant forall c :: 0 <= c < col ==> cells[row, c] == SPACE && colours[row, c] == WHITE
        invariant forall r, c :: 0 <= r < ROWS && r != row && 0 <= c < COLS ==>
          cells[r, c] == old(cells[r, c]) && colours[r, c] == old(colours[r, c])
      {
        cells[row, col] := SPACE;
        colours[row, col] := WHITE;
      }
    }

    method Reset()
      requires Sized()
      modifies this, cells, colours
      ensures Valid() && paper == Fresh() && pen == WHITE
    {
      for row := 0 to ROWS
        modifies cells, colours
        invariant forall r, c :: 0 <= r < row && 0 <= c < COLS ==> cells[r, c] == SPACE && colours[r, c] == WHITE
      {
        BlankRow(row);
      }
      cursorCol, cursorRow, pen := 0, 0, WHITE;
      paper := Fresh();
    }

    method ScrollUp()
      requires Sized()
      modifies cells, colours
      ensures forall r, c :: 0 <= r < ROWS && 0 <= c < COLS ==>
        && cells[r, c] == (if r < ROWS - 1 then old(cells[r + 1, c]) else SPACE)
        && colours[r, c] == (if r < ROWS - 1 then old(colours[r + 1, c]) else WHITE)
    {
      for row := 0 to ROWS - 1
        invariant forall r, c :: 0 <= r < row && 0 <= c < COLS ==>
          cells[r, c] == old(cells[r + 1, c]) && colours[r, c] == old(colours[r + 1, c])
        invariant forall r, c :: row <= r < ROWS && 0 <= c < COLS ==>
          cells[r, c] == old(cells[r, c]) && colours[r, c] == old(colours[r, c])
      {
        forall c | 0 <= c < COLS {
          cells[row, c] := cells[row + 1, c];
        }
        forall c | 0 <= c < COLS {
          colours[row, c] := colours[row + 1, c];
        }
      }
      BlankRow(ROWS - 1);
    }

    method Newline()
      requires Valid()
      modifies this, cells, colours
      ensures Valid() && paper == NewLine(old(paper)) && pen == old(pen)
    {
      ghost var was := Window(paper);
      NewLineWindow(paper);
      cursorCol := 0;
      cursorRow := cursorRow + 1;
      if cursorRow >= ROWS {
        cursorRow := ROWS - 1;
        ScrollUp();
        assert Mirrors(was[1..] + [BlankLine()]);
      }
      paper := NewLine(paper);
    }

    /** The glyph at the cursor. */
    method Ink(ch: byte)
      requires Valid() && cursorCol < COLS
      modifies this, cells, colours
      ensures Valid() && paper == Overwrite(old(paper), [Glyph(ch, pen)]) && pen == old(pen)
    {
      cells[cursorRow, cursorCol] := ch;
      colours[cursorRow, cursorCol] := pen;
      cursorCol := cursorCol + 1;
      InkInWindow(paper, Glyph(ch, pen));
      paper := Overwrite(paper, [Glyph(ch, pen)]);
    }

    method TabForward()
      requires Valid()
      modifies this, cells, colours
      ensures Valid() && paper == Type(old(paper), TAB, pen) && pen == old(pen)
    {
      var next := (cursorCol + 8) / 8 * 8;
      ghost var start := paper;
      OverwriteNone(paper);
      while cursorCol < next && cursorCol < COLS
        invariant Valid() && pen == old(pen) && start.col <= cursorCol <= next
        invariant paper == Overwrite(start, Spaces(cursorCol - start.col, pen))
      {
        OverwriteMore(start, cursorCol - start.col, pen);
        Ink(SPACE);
      }
      if cursorCol >= COLS {
        Newline();
      }
    }

    method Put(ch: byte)
      requires Valid()
      modifies this, cells, colours
      ensures Valid() && paper == Type(old(paper), ch, pen) && pen == old(pen)
    {
      if ch == LF {
        Newline();
      } else if ch == CR {
        cursorCol := 0;
        paper := paper.(col := 0);
      } else if ch == TAB {
        TabForward();
      } else {
        if cursorCol >= COLS {
          Newline();
        }
        Ink(ch);
      }
    }

    /** What `console_printf` does with its formatted text, up to the drawing. */
    method PutAll(text: bytes)
      requires Valid()
      modifies this, cells, colours
      ensures Valid() && paper == TypeAll(old(paper), text, pen) && pen == old(pen)
    {
      for i := 0 to |text|
        invariant Valid() && pen == old(pen)
        invariant TypeAll(paper, text[i..], pen) == TypeAll(old(paper), text, pen)
      {
        assert text[i..][0] == text[i] && text[i..][1..] == text[i + 1..];
        Put(text[i]);
      }
    }
  }

  lemma OverwriteNone(p: Paper)
    requires p.Valid()
    ensures Overwrite(p, []) == p
  {
    var last := |p.rows| - 1;
    assert p.rows[last][..p.col] + [] + p.rows[last][p.col..] == p.rows[last];
  }

  lemma OverwriteMore(p: Paper, n: int, pen: int)
    requires p.Valid() && 0 <= n && p.col + n < COLS
    ensures Overwrite(Overwrite(p, Spaces(n, pen)), [Glyph(SPACE, pen)]) == Overwrite(p, Spaces(n + 1, pen))
  {
    var last := |p.rows| - 1;
    assert Overwrite(Overwrite(p, Spaces(n, pen)), [Glyph(SPACE, pen)]).rows[last]
        == Overwrite(p, Spaces(n + 1, pen)).rows[last];
  }
}
