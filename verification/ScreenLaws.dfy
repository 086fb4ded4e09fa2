/** What the editing operations of `src/psp/term.c` promise about each other. */
module ScreenLaws {
  import opened Bytes
  import opened Screen
  import opened ParserLaws
  import opened Text

  // ---------------------------------------------------------------- shifts --

  /** Scrolling by `n` and then by `m` is scrolling once by the sum, so scrolling one
    * line `n` times is one shift by `n`. */
  lemma ScrollsAdd(t: Term, n: nat, m: nat)
    requires t.Valid()
    ensures ScrollUp(ScrollUp(t, n), m) == ScrollUp(t, n + m)
    ensures ScrollDown(ScrollDown(t, n), m) == ScrollDown(t, n + m)
  {
    assert ScrollUp(ScrollUp(t, n), m).grid == ScrollUp(t, n + m).grid;
    assert ScrollDown(ScrollDown(t, n), m).grid == ScrollDown(t, n + m).grid;
  }

  /** Once the count reaches the region's height nothing of it is left. */
  lemma ScrollOut(t: Term, n: nat, r: int)
    requires t.Valid() && n >= t.bottom - t.top + 1 && 0 <= r < t.rows
    ensures ScrollUp(t, n).grid[r] == ScrollDown(t, n).grid[r]
      == if t.top <= r <= t.bottom then BlankRow(t.pen, t.cols) else t.grid[r]
  {
  }

  /** On the cursor's row, of the columns from the cursor on, the last `n` are blank; the
    * rest is as it was. */
  predicate LastColumnsBlank(t: Term, t': Term, n: int)
    requires t.Valid() && t'.Valid()
  {
    t'.rows == t.rows && t'.cols == t.cols && forall r, c :: 0 <= r < t.rows && 0 <= c < t.cols ==>
      t'.grid[r][c] == if r == t.row && c >= Max(t.col, t.cols - n) then t.pen.Blank() else t.grid[r][c]
  }

  /** Of the rows from the cursor to the region's bottom the last `n` are blank; the rest is
    * as it was. */
  predicate LastLinesBlank(t: Term, t': Term, n: int)
    requires t.Valid() && t'.Valid()
  {
    t'.rows == t.rows && forall r :: 0 <= r < t.rows ==>
      t'.grid[r] == if Max(t.row, t.bottom + 1 - n) <= r <= t.bottom then BlankRow(t.pen, t.cols) else t.grid[r]
  }

  /** Inserting `n` characters and deleting them again costs the last `n` columns. */
  lemma InsertDeleteChars(t: Term, n: nat)
    requires t.Valid()
    ensures var t' := DeleteChars(InsertChars(t, n), n);
      t' == t.(grid := t'.grid) && LastColumnsBlank(t, t', n)
  {
  }

  /** Inserting `n` lines and deleting them again costs the last `n` lines of the region. */
  lemma InsertDeleteLines(t: Term, n: nat)
    requires t.Valid() && t.top <= t.row <= t.bottom
    ensures var t' := DeleteLines(InsertLines(t, n), n);
      t' == t.(grid := t'.grid) && LastLinesBlank(t, t', n)
  {
  }

  lemma DispatchChars(u: Term)
    requires u.Valid()
    ensures Dispatch(u, '@' as int) == InsertChars(u, ParamAt(u, 0, 1))
    ensures Dispatch(u, 'P' as int) == DeleteChars(u, ParamAt(u, 0, 1))
  {
  }

  lemma FirstParam(t: Term, ds: bytes)
    requires t.Valid() && IsDigits(ds)
    ensures ParamAt(Loaded(BeginCsi(t), [ds]), 0, 1) == Min(Max(Value(ds), 1), 9999)
    ensures SameScreen(t.(mode := InCsi), Loaded(BeginCsi(t), [ds]))
  {
  }

  /** Editing a row does not look at the parser's registers. */
  lemma CharsOfSameScreen(t: Term, u: Term, n: nat)
    requires t.Valid() && u.Valid() && t.mode == Ground && SameScreen(t.(mode := InCsi), u)
    ensures SameScreen(InsertChars(t, n), InsertChars(u, n).(mode := Ground))
    ensures SameScreen(DeleteChars(t, n), DeleteChars(u, n).(mode := Ground))
  {
  }

  /** `ESC [ n @` and `ESC [ n P` from the ground state, up to the parser's registers. */
  lemma CharSequences(t: Term, ds: bytes)
    requires t.Valid() && t.mode == Ground && IsDigits(ds)
    ensures var n := Min(Max(Value(ds), 1), 9999);
      && SameScreen(InsertChars(t, n), Run(t, Csi([ds], '@')))
      && SameScreen(DeleteChars(t, n), Run(t, Csi([ds], 'P')))
  {
    var u := Loaded(BeginCsi(t), [ds]);
    FirstParam(t, ds);
    CsiRun(t, [ds], '@');
    CsiRun(t, [ds], 'P');
    DispatchChars(u);
    CharsOfSameScreen(t, u, Min(Max(Value(ds), 1), 9999));
  }

  /** The same, as a server sends it: `ESC [ n @` and then `ESC [ n P`, any digits. */
  lemma InsertDeleteSequences(t: Term, ds: bytes)
    requires t.Valid() && t.mode == Ground && IsDigits(ds)
    ensures var t' := Run(t, Csi([ds], '@') + Csi([ds], 'P'));
      SameScreen(t.(grid := t'.grid), t') && LastColumnsBlank(t, t', Max(Value(ds), 1))
  {
    var n, insert, delete := Max(Value(ds), 1), Csi([ds], '@'), Csi([ds], 'P');
    var u := Run(t, insert);
    var v := Run(u, delete);
    RunConcat(t, insert, delete);
    CharSequences(t, ds);
    CharSequences(u, ds);
    InsertThenDelete(t, u, v, n);
  }

  lemma InsertThenDelete(t: Term, u: Term, v: Term, n: nat)
    requires t.Valid() && u.Valid() && v.Valid() && 1 <= n
    requires SameScreen(InsertChars(t, Min(n, 9999)), u) && SameScreen(DeleteChars(u, Min(n, 9999)), v)
    ensures SameScreen(t.(grid := v.grid), v) && LastColumnsBlank(t, v, n)
  {
    DeleteOfSameScreen(InsertChars(t, Min(n, 9999)), u, Min(n, 9999));
    InsertDeleteChars(t, Min(n, 9999));
  }

  lemma DeleteOfSameScreen(t: Term, u: Term, n: nat)
    requires t.Valid() && u.Valid() && SameScreen(t, u)
    ensures DeleteChars(t, n).grid == DeleteChars(u, n).grid && SameScreen(DeleteChars(t, n), DeleteChars(u, n))
  {
  }

  lemma DispatchLines(u: Term)
    requires u.Valid()
    ensures Dispatch(u, 'L' as int) == InsertLines(u, ParamAt(u, 0, 1))
    ensures Dispatch(u, 'M' as int) == DeleteLines(u, ParamAt(u, 0, 1))
  {
  }

  lemma LinesOfSameScreen(t: Term, u: Term, n: nat)
    requires t.Valid() && u.Valid() && t.mode == Ground && SameScreen(t.(mode := InCsi), u)
    ensures SameScreen(InsertLines(t, n), InsertLines(u, n).(mode := Ground))
    ensures SameScreen(DeleteLines(t, n), DeleteLines(u, n).(mode := Ground))
  {
  }

  /** `ESC [ n L` and `ESC [ n M` from the ground state, up to the parser's registers. */
  lemma LineSequences(t: Term, ds: bytes)
    requires t.Valid() && t.mode == Ground && IsDigits(ds)
    ensures var n := Min(Max(Value(ds), 1), 9999);
      && SameScreen(InsertLines(t, n), Run(t, Csi([ds], 'L')))
      && SameScreen(DeleteLines(t, n), Run(t, Csi([ds], 'M')))
  {
    var u := Loaded(BeginCsi(t), [ds]);
    FirstParam(t, ds);
    CsiRun(t, [ds], 'L');
    CsiRun(t, [ds], 'M');
    DispatchLines(u);
    LinesOfSameScreen(t, u, Min(Max(Value(ds), 1), 9999));
  }

  /** Lines inserted and deleted again as a server sends it, any digits. */
  lemma InsertDeleteLineSequences(t: Term, ds: bytes)
    requires t.Valid() && t.mode == Ground && IsDigits(ds) && t.top <= t.row <= t.bottom
    ensures var t' := Run(t, Csi([ds], 'L') + Csi([ds], 'M'));
      SameScreen(t.(grid := t'.grid), t') && LastLinesBlank(t, t', Max(Value(ds), 1))
  {
    var n, insert, delete := Max(Value(ds), 1), Csi([ds], 'L'), Csi([ds], 'M');
    var u := Run(t, insert);
    var v := Run(u, delete);
    RunConcat(t, insert, delete);
    LineSequences(t, ds);
    LineSequences(u, ds);
    InsertThenDeleteLines(t, u, v, n);
  }

  lemma InsertThenDeleteLines(t: Term, u: Term, v: Term, n: nat)
    requires t.Valid() && u.Valid() && v.Valid() && 1 <= n && t.top <= t.row <= t.bottom
    requires SameScreen(InsertLines(t, Min(n, 9999)), u) && SameScreen(DeleteLines(u, Min(n, 9999)), v)
    ensures SameScreen(t.(grid := v.grid), v) && LastLinesBlank(t, v, n)
  {
    DeleteLinesOfSameScreen(InsertLines(t, Min(n, 9999)), u, Min(n, 9999));
    InsertDeleteLines(t, Min(n, 9999));
  }

  lemma DeleteLinesOfSameScreen(t: Term, u: Term, n: nat)
    requires t.Valid() && u.Valid() && SameScreen(t, u)
    ensures DeleteLines(t, n).grid == DeleteLines(u, n).grid && SameScreen(DeleteLines(t, n), DeleteLines(u, n))
  {
  }

  // ---------------------------------------------------------------- erases --

  /** Position of a cell in reading order. */
  function Place(t: Term, r: int, c: int): int {
    r * t.cols + c
  }

  lemma PlaceOrder(t: Term, r: int, c: int, r': int, c': int)
    requires t.Valid() && 0 <= c < t.cols && 0 <= c' <= t.cols
    ensures Place(t, r, c) >= Place(t, r', c') <==> r > r' || (r == r' && c >= c')
    ensures c' < t.cols ==> (Place(t, r, c) <= Place(t, r', c') <==> r < r' || (r == r' && c <= c'))
  {
    RowMajor(t.cols, r, c, r', c');
  }

  lemma WholeRows(cols: int, more: int)
    requires cols > 0 && more >= 1
    ensures more * cols >= cols
  {
    assert (more - 1) * cols >= 0;
  }

  lemma RowMajor(cols: int, r: int, c: int, r': int, c': int)
    requires 0 <= c < cols && 0 <= c' <= cols
    ensures r * cols + c >= r' * cols + c' <==> r > r' || (r == r' && c >= c')
    ensures c' < cols ==> (r * cols + c <= r' * cols + c' <==> r < r' || (r == r' && c <= c'))
  {
    assert r * cols - r' * cols == (r - r') * cols == -((r' - r) * cols);
    if r > r' {
      WholeRows(cols, r - r');
    } else if r < r' {
      WholeRows(cols, r' - r);
    }
  }

  /** ED 0 blanks exactly the cells at or after the cursor in reading order, ED 1 exactly
    * those at or before it.  A cursor waiting to wrap counts as being after its row for
    * the first and on its last column for the second. */
  lemma EraseCutsAtCursor(t: Term, r: int, c: int)
    requires t.Valid() && 0 <= r < t.rows && 0 <= c < t.cols
    ensures Erase(t, Display(0)).grid[r][c] ==
      if Place(t, r, c) >= Place(t, t.row, t.col) then t.pen.Blank() else t.grid[r][c]
    ensures Erase(t, Display(1)).grid[r][c] ==
      if Place(t, r, c) <= Place(t, t.row, Min(t.col, t.cols - 1)) then t.pen.Blank() else t.grid[r][c]
  {
    PlaceOrder(t, r, c, t.row, t.col);
    PlaceOrder(t, r, c, t.row, Min(t.col, t.cols - 1));
  }

  lemma ErasedRows(t: Term, r: int)
    requires t.Valid() && 0 <= r < t.rows
    ensures Erase(Erase(t, Display(0)), Display(1)).grid[r] == BlankRow(t.pen, t.cols)
    ensures Erase(Erase(t, Display(1)), Display(0)).grid[r] == BlankRow(t.pen, t.cols)
    ensures Erase(t, Display(2)).grid[r] == BlankRow(t.pen, t.cols)
  {
  }

  /** The two halves of the screen, erased in either order, are the whole screen. */
  lemma ErasesMakeWhole(t: Term)
    requires t.Valid()
    ensures Erase(Erase(t, Display(0)), Display(1)) == t.(grid := BlankGrid(t.pen, t.cols, t.rows))
    ensures Erase(Erase(t, Display(1)), Display(0)) == t.(grid := BlankGrid(t.pen, t.cols, t.rows))
    ensures Erase(t, Display(2)) == t.(grid := BlankGrid(t.pen, t.cols, t.rows))
  {
    forall r | 0 <= r < t.rows {
      ErasedRows(t, r);
    }
    assert Erase(Erase(t, Display(0)), Display(1)).grid == BlankGrid(t.pen, t.cols, t.rows);
    assert Erase(Erase(t, Display(1)), Display(0)).grid == BlankGrid(t.pen, t.cols, t.rows);
    assert Erase(t, Display(2)).grid == BlankGrid(t.pen, t.cols, t.rows);
  }

  lemma ErasedLines(t: Term, r: int)
    requires t.Valid() && 0 <= r < t.rows
    ensures Erase(Erase(t, Line(0)), Line(1)).grid[r] == Erase(t, Line(2)).grid[r]
    ensures Erase(Erase(t, Line(1)), Line(0)).grid[r] == Erase(t, Line(2)).grid[r]
    ensures Erase(t, Line(2)).grid[r] == if r == t.row then BlankRow(t.pen, t.cols) else t.grid[r]
  {
  }

  /** The same for the two halves of the cursor's line. */
  lemma ErasesMakeLine(t: Term)
    requires t.Valid()
    ensures Erase(Erase(t, Line(0)), Line(1)) == t.(grid := t.grid[t.row := BlankRow(t.pen, t.cols)])
    ensures Erase(Erase(t, Line(1)), Line(0)) == t.(grid := t.grid[t.row := BlankRow(t.pen, t.cols)])
  {
    forall r | 0 <= r < t.rows {
      ErasedLines(t, r);
    }
    assert Erase(Erase(t, Line(0)), Line(1)).grid == t.grid[t.row := BlankRow(t.pen, t.cols)];
    assert Erase(Erase(t, Line(1)), Line(0)).grid == t.grid[t.row := BlankRow(t.pen, t.cols)];
  }
}
