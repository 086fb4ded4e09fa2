/** The screen as a window on hard-wrapped text.
  *
  * The reference here knows nothing of cursors, pending wraps or scroll regions: it cuts
  * each line into rows of at most `c` characters and looks at the last `r` rows.
  */
module TextWindow {
  import opened Bytes
  import opened Screen
  import opened ParserLaws

  predicate IsText(line: bytes) {
    forall i :: 0 <= i < |line| ==> line[i] >= SPACE && line[i] != 0x7f
  }

  /** A line cut into rows; an empty line is one empty row. */
  function Wrap(line: bytes, c: int): seq<bytes>
    requires 0 < c
    decreases |line|
  {
    if |line| <= c then [line] else [line[..c]] + Wrap(line[c..], c)
  }

  function Document(lines: seq<bytes>, c: int): seq<bytes>
    requires 0 < c && lines != []
    decreases |lines|
  {
    var last := |lines| - 1;
    if last == 0 then Wrap(lines[0], c) else Document(lines[..last], c) + Wrap(lines[last], c)
  }

  /** The lines as they are sent, with CR LF between them. */
  function Stream(lines: seq<bytes>): bytes
    requires lines != []
    decreases |lines|
  {
    var last := |lines| - 1;
    if last == 0 then lines[0] else Stream(lines[..last]) + [CR, LF] + lines[last]
  }

  function Inked(text: bytes, c: int): Row
    requires |text| <= c
  {
    seq(c, i requires 0 <= i < c => if i < |text| then DEFAULT_PEN.Ink(text[i]) else DEFAULT_PEN.Blank())
  }

  /** The screen holds the last rows of `doc`, padded with blanks, cursor at the end. */
  predicate Shows(t: Term, doc: seq<bytes>) {
    && t.Valid() && t.mode == Ground && t.pen == DEFAULT_PEN && t.top == 0 && t.bottom == t.rows - 1
    && doc != [] && (forall i :: 0 <= i < |doc| ==> |doc[i]| <= t.cols)
    && t.row == Min(|doc|, t.rows) - 1 && t.col == |doc[|doc| - 1]|
    && forall r :: 0 <= r < t.rows ==> t.grid[r] == RowOf(doc, t.cols, t.rows, r)
  }

  /** Row `r` of a window of `rows` rows on the end of `doc`. */
  function RowOf(doc: seq<bytes>, c: int, rows: int, r: int): Row
    requires 0 <= r && 0 < c && forall i :: 0 <= i < |doc| ==> |doc[i]| <= c
  {
    var i := Max(|doc| - rows, 0) + r;
    if i < |doc| then Inked(doc[i], c) else BlankRow(DEFAULT_PEN, c)
  }

  // ------------------------------------------------ one character, one line --

  function PutOn(doc: seq<bytes>, ch: byte, c: int): (doc': seq<bytes>)
    requires doc != []
    ensures doc' != []
  {
    var last := |doc| - 1;
    if |doc[last]| >= c then doc + [[ch]] else doc[..last] + [doc[last] + [ch]]
  }

  function Typed(doc: seq<bytes>, line: bytes, c: int): seq<bytes>
    requires doc != []
    decreases |line|
  {
    if line == [] then doc else Typed(PutOn(doc, line[0], c), line[1..], c)
  }

  lemma WriteShows(t: Term, doc: seq<bytes>, ch: byte)
    requires Shows(t, doc) && t.col < t.cols
    ensures Shows(Write(t, ch), PutOn(doc, ch, t.cols))
  {
    var last := |doc| - 1;
    var doc' := PutOn(doc, ch, t.cols);
    assert forall i :: 0 <= i < last ==> doc'[i] == doc[i];
    assert t.grid[t.row] == RowOf(doc, t.cols, t.rows, t.row) == Inked(doc[last], t.cols);
    assert Write(t, ch).grid[t.row] == Inked(doc'[last], t.cols);
    forall r | 0 <= r < t.rows
      ensures Write(t, ch).grid[r] == RowOf(doc', t.cols, t.rows, r)
    {
      assert t.grid[r] == RowOf(doc, t.cols, t.rows, r);
    }
  }

  lemma EmptyRow(c: int)
    requires 0 < c
    ensures Inked([], c) == BlankRow(DEFAULT_PEN, c)
  {
  }

  /** The rows of a window after one more row, when the window is full and when it is not. */
  lemma RowsMoveUp(doc: seq<bytes>, c: int, rows: int, r: int)
    requires 0 <= r < rows && 0 < c && forall i :: 0 <= i < |doc| ==> |doc[i]| <= c
    ensures |doc| >= rows && r < rows - 1 ==> RowOf(doc + [[]], c, rows, r) == RowOf(doc, c, rows, r + 1)
    ensures |doc| >= rows && r == rows - 1 ==> RowOf(doc + [[]], c, rows, r) == BlankRow(DEFAULT_PEN, c)
    ensures |doc| < rows ==> RowOf(doc + [[]], c, rows, r) == RowOf(doc, c, rows, r)
  {
    EmptyRow(c);
  }

  lemma FeedRow(t: Term, r: int)
    requires t.Valid() && t.top == 0 && t.bottom == t.rows - 1 && 0 <= r < t.rows
    ensures var t' := LineFeed(t.(col := 0));
      t'.grid[r] == if t.row != t.bottom then t.grid[r]
                    else if r < t.bottom then t.grid[r + 1] else BlankRow(t.pen, t.cols)
  {
  }

  lemma NewRowShows(t: Term, doc: seq<bytes>)
    requires Shows(t, doc)
    ensures Shows(LineFeed(t.(col := 0)), doc + [[]])
  {
    var t' := LineFeed(t.(col := 0));
    forall r | 0 <= r < t.rows
      ensures t'.grid[r] == RowOf(doc + [[]], t.cols, t.rows, r)
    {
      FeedRow(t, r);
      RowsMoveUp(doc, t.cols, t.rows, r);
    }
  }

  lemma CharShows(t: Term, doc: seq<bytes>, ch: byte)
    requires Shows(t, doc)
    ensures Shows(PutChar(t, ch), PutOn(doc, ch, t.cols))
  {
    if t.col >= t.cols {
      NewRowShows(t, doc);
      WriteShows(LineFeed(t.(col := 0)), doc + [[]], ch);
      assert [] + [ch] == [ch];
      assert PutOn(doc + [[]], ch, t.cols) == PutOn(doc, ch, t.cols);
    } else {
      WriteShows(t, doc, ch);
    }
  }

  lemma {:induction false} LineShows(t: Term, doc: seq<bytes>, line: bytes)
    requires Shows(t, doc) && IsText(line)
    ensures Shows(Run(t, line), Typed(doc, line, t.cols)) && Run(t, line).cols == t.cols
    decreases |line|
  {
    if line != [] {
      CharShows(t, doc, line[0]);
      LineShows(Step(t, line[0]), PutOn(doc, line[0], t.cols), line[1..]);
    }
  }

  /** Typing a line one character at a time is cutting it into rows. */
  lemma {:induction false} TypedWraps(above: seq<bytes>, done: bytes, rest: bytes, c: int)
    requires 0 < c && |done| <= c
    ensures Typed(above + [done], rest, c) == above + Wrap(done + rest, c)
    decreases |rest|
  {
    if rest == [] {
      assert done + rest == done;
    } else {
      var ch := rest[0];
      if |done| == c {
        assert above + [done] + [[ch]] == (above + [done]) + [[ch]];
        TypedWraps(above + [done], [ch], rest[1..], c);
        assert [ch] + rest[1..] == rest;
        assert (done + rest)[..c] == done && (done + rest)[c..] == rest;
        assert above + [done] + Wrap(rest, c) == above + ([done] + Wrap(rest, c));
      } else {
        assert PutOn(above + [done], ch, c) == above + [done + [ch]];
        TypedWraps(above, done + [ch], rest[1..], c);
        assert done + [ch] + rest[1..] == done + rest;
      }
    }
  }

  // --------------------------------------------------------------- theorem --

  lemma ResetShowsNothing(params: seq<Param>, c: int, r: int)
    requires |params| == MAX_PARAMS
    ensures Shows(Reset(params, c, r), [[]])
  {
    var t := Reset(params, c, r);
    EmptyRow(t.cols);
  }

  lemma ReturnFeedRun(t: Term)
    requires t.Valid() && t.mode == Ground
    ensures Run(t, [CR, LF]) == LineFeed(t.(col := 0))
  {
    assert [CR, LF] == [CR] + [LF];
    RunConcat(t, [CR], [LF]);
    RunOne(t, CR);
    RunOne(Step(t, CR), LF);
  }

  lemma FirstLineShows(t: Term, line: bytes)
    requires Shows(t, [[]]) && IsText(line)
    ensures Shows(Run(t, line), Wrap(line, t.cols)) && Run(t, line).cols == t.cols
  {
    var none: seq<bytes> := [];
    LineShows(t, [[]], line);
    TypedWraps(none, [], line, t.cols);
    assert none + [[]] == [[]] && none + Wrap(line, t.cols) == Wrap(line, t.cols) && [] + line == line;
  }

  lemma RunInTurn(t: Term, a: bytes, b: bytes, c: bytes)
    requires t.Valid()
    ensures Run(t, a + b + c) == Run(Run(Run(t, a), b), c)
  {
    RunConcat(t, a, b);
    RunConcat(t, a + b, c);
  }

  /** A line break and one more line, after a screen that shows `doc`. */
  lemma NextLineShows(t: Term, doc: seq<bytes>, line: bytes)
    requires Shows(t, doc) && IsText(line)
    ensures var t' := Run(Run(t, [CR, LF]), line); Shows(t', doc + Wrap(line, t.cols)) && t'.cols == t.cols
  {
    var u := LineFeed(t.(col := 0));
    NewRowShows(t, doc);
    ReturnFeedRun(t);
    LineShows(u, doc + [[]], line);
    TypedWraps(doc, [], line, t.cols);
    assert [] + line == line;
  }

  lemma OneMoreLineShows(t: Term, before: bytes, doc: seq<bytes>, line: bytes)
    requires t.Valid() && Shows(Run(t, before), doc) && Run(t, before).cols == t.cols && IsText(line)
    ensures var t' := Run(t, before + [CR, LF] + line); Shows(t', doc + Wrap(line, t.cols)) && t'.cols == t.cols
  {
    NextLineShows(Run(t, before), doc, line);
    RunInTurn(t, before, [CR, LF], line);
  }

  lemma {:induction false} StreamShows(t: Term, lines: seq<bytes>)
    requires Shows(t, [[]]) && lines != []
    requires forall i :: 0 <= i < |lines| ==> IsText(lines[i])
    ensures Shows(Run(t, Stream(lines)), Document(lines, t.cols)) && Run(t, Stream(lines)).cols == t.cols
    decreases |lines|
  {
    var last := |lines| - 1;
    if last == 0 {
      FirstLineShows(t, lines[0]);
    } else {
      var front, line := lines[..last], lines[last];
      StreamShows(t, front);
      OneMoreLineShows(t, Stream(front), Document(front, t.cols), line);
    }
  }

  /** After a reset to any size, any text leaves the screen equal to the last rows of the
    * text cut at the right edge, with the cursor at the end of the last row. */
  lemma WindowOfText(params: seq<Param>, c: int, r: int, lines: seq<bytes>)
    requires |params| == MAX_PARAMS && lines != []
    requires forall i :: 0 <= i < |lines| ==> IsText(lines[i])
    ensures Shows(Run(Reset(params, c, r), Stream(lines)), Document(lines, SizeOr(c, MAX_COLS)))
  {
    ResetShowsNothing(params, c, r);
    StreamShows(Reset(params, c, r), lines);
  }

  lemma FullLineIsOneRow(above: seq<bytes>, line: bytes, next: bytes, c: int)
    requires 0 < c == |line| && |next| <= c && above != []
    ensures Document(above + [line, next], c) == Document(above, c) + [line, next]
  {
    var lines := above + [line, next];
    assert lines[..|lines| - 1] == above + [line];
    assert (above + [line])[..|above|] == above;
    assert Document(lines, c) == Document(above, c) + [line] + [next];
  }

  lemma AllText(above: seq<bytes>, line: bytes, next: bytes)
    requires (forall i :: 0 <= i < |above| ==> IsText(above[i])) && IsText(line) && IsText(next)
    ensures var lines := above + [line, next]; forall i :: 0 <= i < |lines| ==> IsText(lines[i])
  {
  }

  lemma StreamOfTwoMore(above: seq<bytes>, line: bytes, next: bytes)
    requires above != []
    ensures Stream(above + [line, next]) == Stream(above) + [CR, LF] + line + [CR, LF] + next
  {
    var lines := above + [line, next];
    assert lines[..|lines| - 1] == above + [line];
    assert (above + [line])[..|above|] == above;
  }

  /** On the screen, below any text and at any size: a line that exactly fills its row, a line
    * break and the next line take two rows, with no blank row between them. */
  lemma FullLineLeavesNoBlankRow(params: seq<Param>, c: int, r: int, above: seq<bytes>, line: bytes, next: bytes)
    requires |params| == MAX_PARAMS && above != []
    requires (forall i :: 0 <= i < |above| ==> IsText(above[i])) && IsText(line) && IsText(next)
    requires |line| == SizeOr(c, MAX_COLS) && |next| <= |line|
    ensures Shows(Run(Reset(params, c, r), Stream(above) + [CR, LF] + line + [CR, LF] + next),
                  Document(above, SizeOr(c, MAX_COLS)) + [line, next])
  {
    AllText(above, line, next);
    StreamOfTwoMore(above, line, next);
    FullLineIsOneRow(above, line, next, SizeOr(c, MAX_COLS));
    WindowOfText(params, c, r, above + [line, next]);
  }

  lemma TwoLines(line: bytes, next: bytes, c: int)
    requires 0 < c && |line| <= c && |next| <= c
    ensures Stream([line, next]) == line + [CR, LF] + next && Document([line, next], c) == [line, next]
  {
    var lines := [line, next];
    assert lines[..1] == [line];
    assert Stream([line]) == line && Document([line], c) == [line] && Wrap(next, c) == [next];
    assert [line] + [next] == lines;
  }

  /** The same at the top of the screen. */
  lemma FullFirstLineLeavesNoBlankRow(params: seq<Param>, c: int, r: int, line: bytes, next: bytes)
    requires |params| == MAX_PARAMS && IsText(line) && IsText(next)
    requires |line| == SizeOr(c, MAX_COLS) && |next| <= |line|
    ensures Shows(Run(Reset(params, c, r), line + [CR, LF] + next), [line, next])
  {
    TwoLines(line, next, SizeOr(c, MAX_COLS));
    WindowOfText(params, c, r, [line, next]);
  }
}
