/** The boot log's paper holds its text cut at the right edge, row by row. */
module ConsoleLaws {
  import opened Bytes
  import opened Console
  import TextWindow

  predicate IsPlain(line: bytes) {
    LF !in line && CR !in line && TAB !in line
  }

  function LogStream(lines: seq<bytes>): bytes
    requires lines != []
    decreases |lines|
  {
    var last := |lines| - 1;
    if last == 0 then lines[0] else LogStream(lines[..last]) + [LF] + lines[last]
  }

  function Padded(text: bytes, pen: int): (row: seq<Glyph>)
    requires |text| <= COLS
    ensures |row| == COLS
  {
    seq(COLS, c requires 0 <= c < COLS => if c < |text| then Glyph(text[c], pen) else BLANK)
  }

  predicate Fits(doc: seq<bytes>) {
    doc != [] && forall i :: 0 <= i < |doc| ==> |doc[i]| <= COLS
  }

  function PaperOf(doc: seq<bytes>, pen: int): (p: Paper)
    requires Fits(doc)
    ensures p.Valid()
  {
    Paper(seq(|doc|, i requires 0 <= i < |doc| => Padded(doc[i], pen)), |doc[|doc| - 1]|)
  }

  lemma NewLinePaper(doc: seq<bytes>, pen: int)
    requires Fits(doc)
    ensures Fits(doc + [[]]) && NewLine(PaperOf(doc, pen)) == PaperOf(doc + [[]], pen)
  {
    assert BlankLine() == Padded([], pen);
    assert NewLine(PaperOf(doc, pen)).rows == PaperOf(doc + [[]], pen).rows;
  }

  lemma InkPaper(doc: seq<bytes>, ch: byte, pen: int)
    requires Fits(doc) && |doc[|doc| - 1]| < COLS
    ensures var doc' := TextWindow.PutOn(doc, ch, COLS);
      Fits(doc') && Overwrite(PaperOf(doc, pen), [Glyph(ch, pen)]) == PaperOf(doc', pen)
  {
    var last, p := |doc| - 1, PaperOf(doc, pen);
    var doc' := TextWindow.PutOn(doc, ch, COLS);
    assert Overwrite(p, [Glyph(ch, pen)]).rows[last] == Padded(doc'[last], pen);
    assert Overwrite(p, [Glyph(ch, pen)]).rows == PaperOf(doc', pen).rows;
  }

  lemma TypePaper(doc: seq<bytes>, ch: byte, pen: int)
    requires Fits(doc) && ch != LF && ch != CR && ch != TAB
    ensures var doc' := TextWindow.PutOn(doc, ch, COLS);
      Fits(doc') && Type(PaperOf(doc, pen), ch, pen) == PaperOf(doc', pen)
  {
    if |doc[|doc| - 1]| >= COLS {
      NewLinePaper(doc, pen);
      InkPaper(doc + [[]], ch, pen);
      assert [] + [ch] == [ch];
      assert TextWindow.PutOn(doc + [[]], ch, COLS) == TextWindow.PutOn(doc, ch, COLS);
    } else {
      InkPaper(doc, ch, pen);
    }
  }

  lemma {:induction false} TypeAllConcat(p: Paper, a: bytes, b: bytes, pen: int)
    requires p.Valid()
    ensures TypeAll(p, a + b, pen) == TypeAll(TypeAll(p, a, pen), b, pen)
    decreases |a|
  {
    if a == [] {
      assert a + b == b;
    } else {
      assert (a + b)[0] == a[0] && (a + b)[1..] == a[1..] + b;
      TypeAllConcat(Type(p, a[0], pen), a[1..], b, pen);
    }
  }

  lemma {:induction false} LinePaper(doc: seq<bytes>, line: bytes, pen: int)
    requires Fits(doc) && IsPlain(line)
    ensures var doc' := TextWindow.Typed(doc, line, COLS);
      Fits(doc') && TypeAll(PaperOf(doc, pen), line, pen) == PaperOf(doc', pen)
    decreases |line|
  {
    if line != [] {
      assert line[0] in line;
      TypePaper(doc, line[0], pen);
      LinePaper(TextWindow.PutOn(doc, line[0], COLS), line[1..], pen);
    }
  }

  /** From a reset log, lines of glyphs leave exactly their hard-wrapped rows on the paper,
    * so (by `Log.Valid`) the grid is the last 22 of those. */
  lemma {:induction false} LogOfText(lines: seq<bytes>, pen: int)
    requires lines != [] && forall i :: 0 <= i < |lines| ==> IsPlain(lines[i])
    ensures var doc := TextWindow.Document(lines, COLS);
      Fits(doc) && TypeAll(Fresh(), LogStream(lines), pen) == PaperOf(doc, pen)
    decreases |lines|
  {
    var last := |lines| - 1;
    var none: seq<bytes> := [];
    assert [] + lines[last] == lines[last];
    if last == 0 {
      assert Padded([], pen) == BlankLine();
      assert Fresh().rows == PaperOf([[]], pen).rows;
      LinePaper([[]], lines[0], pen);
      TextWindow.TypedWraps(none, [], lines[0], COLS);
      assert none + [[]] == [[]] && none + TextWindow.Wrap(lines[0], COLS) == TextWindow.Wrap(lines[0], COLS);
    } else {
      var before, doc := LogStream(lines[..last]), TextWindow.Document(lines[..last], COLS);
      LogOfText(lines[..last], pen);
      NewLinePaper(doc, pen);
      LinePaper(doc + [[]], lines[last], pen);
      TextWindow.TypedWraps(doc, [], lines[last], COLS);
      TypeAllConcat(Fresh(), before, [LF], pen);
      TypeAllConcat(Fresh(), before + [LF], lines[last], pen);
      assert TypeAll(PaperOf(doc, pen), [LF], pen) == NewLine(PaperOf(doc, pen)) by {
        assert [LF][1..] == [];
      }
    }
  }

  // ------------------------------------------------------- byte by byte --

  /** The paper with nothing changed above its last row, and of that row only the
    * cells from `from` up to `upto`. */
  ghost predicate LastRowBecomes(p: Paper, p': Paper, from: int, upto: int, glyph: Glyph)
    requires p.Valid() && p'.Valid()
  {
    var last := |p.rows| - 1;
    && |p'.rows| == |p.rows| && (forall i :: 0 <= i < last ==> p'.rows[i] == p.rows[i])
    && forall c :: 0 <= c < 80 ==> p'.rows[last][c] == if from <= c < upto then glyph else p.rows[last][c]
  }

  /** One blank row more, the cursor at its start. */
  ghost predicate RowAdded(p: Paper, p': Paper)
    requires p.Valid() && p'.Valid()
  {
    && |p'.rows| == |p.rows| + 1 && p'.col == 0 && (forall i :: 0 <= i < |p.rows| ==> p'.rows[i] == p.rows[i])
    && forall c :: 0 <= c < 80 ==> p'.rows[|p.rows|][c] == Glyph(32, 0xffe8e8e8)
  }

  /** A line feed starts a row; a carriage return goes back to the start of this one and leaves
    * what is on it to be written over. */
  lemma BreakTable(p: Paper, pen: int)
    requires p.Valid()
    ensures RowAdded(p, Type(p, 10, pen))
    ensures Type(p, 13, pen).rows == p.rows && Type(p, 13, pen).col == 0
  {
  }

  /** A glyph lands at the cursor, on a row of its own when this one is full. */
  lemma GlyphTable(p: Paper, ch: byte, pen: int)
    requires p.Valid() && ch != 10 && ch != 13 && ch != 9
    ensures var p' := Type(p, ch, pen);
      if p.col < 80 then p'.col == p.col + 1 && LastRowBecomes(p, p', p.col, p.col + 1, Glyph(ch, pen))
      else p' == Type(Type(p, 10, pen), ch, pen)
  {
  }

  /** A tab writes spaces in the pen's colour up to the next multiple of eight; when that is the
    * edge, or past it, up to the edge, and a new row follows. */
  lemma TabTable(p: Paper, pen: int)
    requires p.Valid()
    ensures var p', stop := Type(p, 9, pen), p.col - p.col % 8 + 8;
      if stop < 80 then p'.col == stop && LastRowBecomes(p, p', p.col, stop, Glyph(32, pen))
      else exists q: Paper :: q.Valid() && LastRowBecomes(p, q, p.col, 80, Glyph(32, pen)) && RowAdded(q, p')
  {
    if p.col - p.col % 8 + 8 >= 80 {
      var q := Overwrite(p, Spaces(80 - p.col, pen));
      assert LastRowBecomes(p, q, p.col, 80, Glyph(32, pen)) && RowAdded(q, NewLine(q));
    }
  }

  /** The window is the last 22 rows, or all of them with blank ones below. */
  lemma WindowTable(p: Paper, r: int, c: int)
    requires p.Valid() && 0 <= r < 22 && 0 <= c < 80
    ensures |p.rows| >= 22 ==> Window(p)[r] == p.rows[|p.rows| - 22 + r] && CursorRow(p) == 21
    ensures |p.rows| < 22 ==> CursorRow(p) == |p.rows| - 1
    ensures |p.rows| < 22 ==> Window(p)[r][c] == if r < |p.rows| then p.rows[r][c] else Glyph(32, 0xffe8e8e8)
  {
  }
}
