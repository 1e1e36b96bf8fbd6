// src/tui/tui.cpp, wrap_line: greedy wrapping of a line of styled spans.
module WrapLine {
  import opened Bytes
  import opened Glyphs

  datatype Style = Style(color: int, bold: bool, dim: bool, italic: bool)

  datatype Span = Span(text: Bytes, style: Style)

  datatype Line = Line(spans: seq<Span>, gutter: bool)

  datatype Cell = Cell(glyph: Bytes, style: Style)

  type Word = seq<Cell>

  type Row = seq<Cell>

  const SPACE: byte := 0x20
  const TAB: byte := 0x09

  // ---- the input as words ----

  predicate Blank(c: Cell) { c.glyph == [SPACE] || c.glyph == [TAB] }

  function GlyphsOf(text: Bytes, style: Style): seq<Cell>
    decreases |text|
  {
    if text == [] then [] else [Cell(text[..HeadGlyph(text)], style)] + GlyphsOf(text[HeadGlyph(text)..], style)
  }

  function LineCells(spans: seq<Span>): seq<Cell> {
    if spans == [] then []
    else LineCells(spans[..|spans| - 1]) + GlyphsOf(spans[|spans| - 1].text, spans[|spans| - 1].style)
  }

  // The words ended by a blank, and the one still open.
  datatype Reading = Reading(words: seq<Word>, open: Word)

  function Flushed(r: Reading): seq<Word> { if r.open == [] then r.words else r.words + [r.open] }

  function ReadCells(cells: seq<Cell>): Reading {
    if cells == [] then Reading([], [])
    else
      var r, c := ReadCells(cells[..|cells| - 1]), cells[|cells| - 1];
      if Blank(c) then Reading(Flushed(r), []) else Reading(r.words, r.open + [c])
  }

  function Words(cells: seq<Cell>): seq<Word> { Flushed(ReadCells(cells)) }

  // ---- wrapping ----

  function CellWidth(c: Cell): (n: nat)
    ensures n <= 2
    ensures c.glyph != [] ==> n >= 1
  {
    if c.glyph == [] then 0 else GlyphWidth(c.glyph[0])
  }

  function Width(cells: seq<Cell>): nat {
    if cells == [] then 0 else Width(cells[..|cells| - 1]) + CellWidth(cells[|cells| - 1])
  }

  // The rows pushed and the row being filled.
  datatype Wrapping = Wrapping(rows: seq<Row>, row: Row)

  function Pushed(w: Wrapping): Wrapping { if w.row == [] then w else Wrapping(w.rows + [w.row], []) }

  function PlaceGlyph(w: Wrapping, c: Cell, limit: nat): Wrapping {
    var v := if Width(w.row) > 0 && Width(w.row) + CellWidth(c) > limit then Pushed(w) else w;
    v.(row := v.row + [c])
  }

  function PlaceGlyphs(w: Wrapping, cells: seq<Cell>, limit: nat): Wrapping {
    if cells == [] then w else PlaceGlyph(PlaceGlyphs(w, cells[..|cells| - 1], limit), cells[|cells| - 1], limit)
  }

  predicate Joins(w: Wrapping, word: Word, limit: nat) { Width(w.row) > 0 && Width(w.row) + 1 + Width(word) <= limit }

  function Space(style: Style): Cell { Cell([SPACE], style) }

  function PlaceWord(w: Wrapping, word: Word, limit: nat): Wrapping
    requires word != []
  {
    if Joins(w, word, limit) then w.(row := w.row + [Space(word[0].style)] + word)
    else
      var v := if Width(w.row) > 0 then Pushed(w) else w;
      if Width(word) > limit then PlaceGlyphs(v, word, limit) else v.(row := v.row + word)
  }

  predicate NoEmptyWord(words: seq<Word>) { forall i :: 0 <= i < |words| ==> words[i] != [] }

  function PlaceWords(words: seq<Word>, limit: nat): Wrapping
    requires NoEmptyWord(words)
  {
    if words == [] then Wrapping([], []) else PlaceWord(PlaceWords(words[..|words| - 1], limit), words[|words| - 1], limit)
  }

  function SafeLimit(limit: int): (safe: nat)
    ensures safe >= 1
  {
    var columns := if limit <= 0 then 100 else limit;
    if columns - 1 > 1 then columns - 1 else 1
  }

  // Adjacent cells of one style become one span.
  function AppendGlyph(row: seq<Span>, c: Cell): seq<Span> {
    if row != [] && row[|row| - 1].style == c.style
    then row[..|row| - 1] + [Span(row[|row| - 1].text + c.glyph, c.style)]
    else row + [Span(c.glyph, c.style)]
  }

  function Merged(cells: seq<Cell>): seq<Span> {
    if cells == [] then [] else AppendGlyph(Merged(cells[..|cells| - 1]), cells[|cells| - 1])
  }

  function Rendered(rows: seq<Row>, gutter: bool): seq<Line> {
    if rows == [] then [] else Rendered(rows[..|rows| - 1], gutter) + [Line(Merged(rows[|rows| - 1]), gutter)]
  }

  lemma {:induction false} ReadIsWhole(cells: seq<Cell>)
    ensures NoEmptyWord(ReadCells(cells).words) && NoEmptyWord(Words(cells))
  {
    if cells != [] { ReadIsWhole(cells[..|cells| - 1]); }
  }

  function Wrapped(spans: seq<Span>, limit: int): seq<Row> {
    var words := Words(LineCells(spans));
    ReadIsWhole(LineCells(spans));
    Pushed(PlaceWords(words, SafeLimit(limit))).rows
  }

  predicate Solid(cells: seq<Cell>) { forall i :: 0 <= i < |cells| ==> cells[i].glyph != [] }

  // The state of wrap_line and its closures.
  class Wrapper {
    const limit: nat
    const gutter: bool
    var rows: seq<Line>
    var row: seq<Span>
    var width: nat
    var word: Word
    ghost var state: Wrapping

    ghost predicate Valid()
      reads this
    {
      && rows == Rendered(state.rows, gutter) && row == Merged(state.row) && width == Width(state.row)
      && Solid(state.row) && Solid(word)
    }

    constructor (limit: nat, gutter: bool)
      ensures Valid() && state == Wrapping([], []) && word == []
      ensures this.limit == limit && this.gutter == gutter
    {
      this.limit, this.gutter := limit, gutter;
      rows, row, width, word, state := [], [], 0, [], Wrapping([], []);
    }

    method AppendCell(c: Cell)
      requires Valid() && c.glyph != []
      modifies this
      ensures Valid() && state == old(state).(row := old(state).row + [c]) && word == old(word)
    {
      MergedSnoc(state.row, c);
      hide Merged, Width, Rendered;
      if row != [] && row[|row| - 1].style == c.style {
        row := row[..|row| - 1] + [Span(row[|row| - 1].text + c.glyph, c.style)];
      } else {
        row := row + [Span(c.glyph, c.style)];
      }
      width := width + GlyphWidth(c.glyph[0]);
      state := state.(row := state.row + [c]);
    }

    method PushRow()
      requires Valid()
      modifies this
      ensures Valid() && state == Pushed(old(state)) && word == old(word)
    {
      MergedEmpty(state.row);
      if row != [] {
        rows := rows + [Line(row, gutter)];
        row, width := [], 0;
        state := Pushed(state);
        assert state.rows[..|state.rows| - 1] == old(state).rows;
      }
    }

    method AddWord()
      requires Valid() && word != []
      modifies this
      ensures Valid() && word == old(word) && state == PlaceWord(old(state), old(word), limit)
    {
      var wordWidth := 0;
      for i := 0 to |word|
        invariant wordWidth == Width(word[..i]) && Valid() && state == old(state) && word == old(word)
      {
        assert word[..i + 1][..i] == word[..i];
        wordWidth := wordWidth + GlyphWidth(word[i].glyph[0]);
      }
      assert word[..|word|] == word;
      var hasContent := width > 0;
      if hasContent && width + 1 + wordWidth <= limit {
        AppendCell(Space(word[0].style));
        AppendWord();
        ConcatAssoc(old(state).row, [Space(word[0].style)], word);
        return;
      }
      if hasContent { PushRow(); }
      if wordWidth > limit {
        HardWrap();
        return;
      }
      AppendWord();
    }

    // The loops of add_word that append a word to the row.
    method AppendWord()
      requires Valid()
      modifies this
      ensures Valid() && state == old(state).(row := old(state).row + word) && word == old(word)
    {
      assert old(state).row + word[..0] == old(state).row;
      for i := 0 to |word|
        invariant Valid() && word == old(word) && state == old(state).(row := old(state).row + word[..i])
      {
        assert word[..i + 1] == word[..i] + [word[i]];
        ConcatAssoc(old(state).row, word[..i], [word[i]]);
        AppendCell(word[i]);
      }
      assert word[..|word|] == word;
    }

    method HardWrap()
      requires Valid()
      modifies this
      ensures Valid() && state == PlaceGlyphs(old(state), word, limit) && word == old(word)
    {
      for i := 0 to |word|
        invariant Valid() && word == old(word) && state == PlaceGlyphs(old(state), word[..i], limit)
      {
        assert word[..i + 1][..i] == word[..i];
        hide PlaceGlyph;
        assert word[i].glyph != [];
        HardCell(word[i]);
      }
      assert word[..|word|] == word;
    }

    method HardCell(c: Cell)
      requires Valid() && c.glyph != []
      modifies this
      ensures Valid() && state == PlaceGlyph(old(state), c, limit) && word == old(word)
    {
      hide Merged, Rendered;
      var glyphWidth := GlyphWidth(c.glyph[0]);
      if width > 0 && width + glyphWidth > limit { PushRow(); }
      AppendCell(c);
    }

    method FlushWord()
      requires Valid()
      modifies this
      ensures Valid() && word == []
      ensures state == if old(word) == [] then old(state) else PlaceWord(old(state), old(word), limit)
    {
      if word != [] {
        AddWord();
        word := [];
      }
    }

    // The wrapper has read `cells`.
    ghost predicate HasRead(cells: seq<Cell>)
      reads this
    {
      var r := ReadCells(cells);
      NoEmptyWord(r.words) && word == r.open && state == PlaceWords(r.words, limit)
    }

    // One step of the scan: a blank ends the word, anything else extends it.
    method Take(c: Cell, ghost before: seq<Cell>)
      requires Valid() && c.glyph != [] && HasRead(before)
      modifies this
      ensures Valid() && HasRead(before + [c])
    {
      assert (before + [c])[..|before|] == before;
      if c.glyph == [SPACE] || c.glyph == [TAB] {
        ghost var words := ReadCells(before).words;
        ghost var open := word;
        FlushWord();
        if open != [] { assert (words + [open])[..|words|] == words; }
      } else {
        word := word + [c];
      }
    }
  }

  method WrapSpans(line: Line, limit: int) returns (rows: seq<Line>)
    ensures rows == if Wrapped(line.spans, limit) == [] then [Line([Span([], Style(0, false, false, false))], false)]
                    else Rendered(Wrapped(line.spans, limit), line.gutter)
  {
    var w := new Wrapper(SafeLimit(limit), line.gutter);
    ghost var seen: seq<Cell> := [];
    for k := 0 to |line.spans|
      invariant fresh(w) && w.Valid() && w.limit == SafeLimit(limit) && w.gutter == line.gutter
      invariant seen == LineCells(line.spans[..k]) && w.HasRead(seen)
    {
      assert line.spans[..k + 1][..k] == line.spans[..k];
      seen := ReadSpan(w, line.spans[k], seen);
    }
    assert line.spans[..|line.spans|] == line.spans;
    ReadIsWhole(seen);
    rows := Finish(w, seen, line);
  }

  method ReadSpan(w: Wrapper, span: Span, ghost before: seq<Cell>) returns (ghost seen: seq<Cell>)
    requires w.Valid() && w.HasRead(before)
    modifies w
    ensures w.Valid() && seen == before + GlyphsOf(span.text, span.style) && w.HasRead(seen)
  {
    var i := 0;
    seen := before;
    assert span.text[0..] == span.text;
    while i < |span.text|
      invariant i <= |span.text| && w.Valid() && w.HasRead(seen)
      invariant seen + GlyphsOf(span.text[i..], span.style) == before + GlyphsOf(span.text, span.style)
    {
      var n := HeadGlyph(span.text[i..]);
      var c := Cell(span.text[i..][..n], span.style);
      NextGlyph(span, i, seen);
      w.Take(c, seen);
      seen := seen + [c];
      i := i + n;
    }
    assert seen + [] == seen;
  }

  lemma NextGlyph(span: Span, i: nat, seen: seq<Cell>)
    requires i < |span.text|
    ensures var n := HeadGlyph(span.text[i..]);
            seen + GlyphsOf(span.text[i..], span.style)
            == (seen + [Cell(span.text[i..][..n], span.style)]) + GlyphsOf(span.text[i + n..], span.style)
  {
    var n := HeadGlyph(span.text[i..]);
    assert span.text[i..][n..] == span.text[i + n..];
    ConcatAssoc(seen, [Cell(span.text[i..][..n], span.style)], GlyphsOf(span.text[i + n..], span.style));
  }

  method Finish(w: Wrapper, ghost seen: seq<Cell>, line: Line) returns (rows: seq<Line>)
    requires w.Valid() && w.HasRead(seen) && w.gutter == line.gutter && NoEmptyWord(Words(seen))
    modifies w
    ensures var done := Pushed(PlaceWords(Words(seen), w.limit)).rows;
            rows == if done == [] then [Line([Span([], Style(0, false, false, false))], false)]
                    else Rendered(done, line.gutter)
  {
    ghost var r := ReadCells(seen);
    if r.open != [] { assert (r.words + [r.open])[..|r.words|] == r.words; }
    w.FlushWord();
    w.PushRow();
    rows := w.rows;
    if rows == [] { rows := [Line([Span([], Style(0, false, false, false))], false)]; }
  }

  lemma MergedSnoc(cells: seq<Cell>, c: Cell)
    ensures Merged(cells + [c]) == AppendGlyph(Merged(cells), c)
    ensures Width(cells + [c]) == Width(cells) + CellWidth(c)
  {
    assert (cells + [c])[..|cells|] == cells;
  }

  lemma MergedEmpty(cells: seq<Cell>)
    ensures Merged(cells) == [] <==> cells == []
  {
  }

  // ---- every row fits ----

  // Within the limit, or a single two-column glyph when the limit is one column.
  predicate Fits(row: Row, limit: nat) { Width(row) <= limit || (|row| == 1 && limit == 1) }

  predicate AllFit(rows: seq<Row>, limit: nat) { forall i :: 0 <= i < |rows| ==> rows[i] != [] && Fits(rows[i], limit) }

  predicate WellFilled(w: Wrapping, limit: nat) { AllFit(w.rows, limit) && Fits(w.row, limit) && Solid(w.row) }

  lemma {:induction false} WidthAppend(a: seq<Cell>, b: seq<Cell>)
    ensures Width(a + b) == Width(a) + Width(b)
  {
    if b == [] {
      assert a + b == a;
    } else {
      assert (a + b)[..|a + b| - 1] == a + b[..|b| - 1];
      WidthAppend(a, b[..|b| - 1]);
    }
  }

  lemma {:induction false} SolidWidth(cells: seq<Cell>)
    requires Solid(cells)
    ensures Width(cells) >= |cells|
  {
    if cells != [] { SolidWidth(cells[..|cells| - 1]); }
  }

  lemma PushedFits(w: Wrapping, limit: nat)
    requires WellFilled(w, limit)
    ensures WellFilled(Pushed(w), limit) && Pushed(w).row == []
  {
    assert Width([]) == 0;
    hide Width;
  }

  lemma PlaceGlyphFits(w: Wrapping, c: Cell, limit: nat)
    requires limit >= 1 && WellFilled(w, limit) && c.glyph != []
    ensures WellFilled(PlaceGlyph(w, c, limit), limit)
  {
    PushedFits(w, limit);
    SolidWidth(w.row);
    WidthAppend(w.row, [c]);
    WidthAppend([], [c]);
    assert Width([c]) == CellWidth(c) && Width([]) == 0;
    assert [] + [c] == [c];
    hide Width;
    if w.row == [] { assert w.row + [c] == [c]; }
  }

  lemma {:induction false} PlaceGlyphsFit(w: Wrapping, cells: seq<Cell>, limit: nat)
    requires limit >= 1 && WellFilled(w, limit) && Solid(cells)
    ensures WellFilled(PlaceGlyphs(w, cells, limit), limit)
  {
    if cells != [] {
      PlaceGlyphsFit(w, cells[..|cells| - 1], limit);
      hide PlaceGlyph, WellFilled;
      PlaceGlyphFits(PlaceGlyphs(w, cells[..|cells| - 1], limit), cells[|cells| - 1], limit);
    }
  }

  lemma PlaceWordFits(w: Wrapping, word: Word, limit: nat)
    requires limit >= 1 && WellFilled(w, limit) && word != [] && Solid(word)
    ensures WellFilled(PlaceWord(w, word, limit), limit)
  {
    var space := Space(word[0].style);
    if Joins(w, word, limit) {
      WidthAppend(w.row, [space]);
      WidthAppend(w.row + [space], word);
      assert Width([space]) == 1;
      hide Width;
    } else {
      PushedFits(w, limit);
      SolidWidth(w.row);
      var v := if Width(w.row) > 0 then Pushed(w) else w;
      assert v.row == [] && WellFilled(v, limit);
      assert [] + word == word;
      hide Width, Pushed;
      if Width(word) > limit { PlaceGlyphsFit(v, word, limit); hide PlaceGlyphs; }
    }
  }

  predicate AllSolid(words: seq<Word>) { forall i :: 0 <= i < |words| ==> words[i] != [] && Solid(words[i]) }

  lemma {:induction false} PlaceWordsFit(words: seq<Word>, limit: nat)
    requires limit >= 1 && NoEmptyWord(words) && AllSolid(words)
    ensures WellFilled(PlaceWords(words, limit), limit)
  {
    if words == [] {
      assert Width([]) == 0;
    } else {
      PlaceWordsFit(words[..|words| - 1], limit);
      hide PlaceWord, WellFilled;
      PlaceWordFits(PlaceWords(words[..|words| - 1], limit), words[|words| - 1], limit);
    }
  }

  lemma {:induction false} GlyphsSolid(text: Bytes, style: Style)
    ensures Solid(GlyphsOf(text, style))
    decreases |text|
  {
    if text != [] { GlyphsSolid(text[HeadGlyph(text)..], style); }
  }

  lemma {:induction false} LineSolid(spans: seq<Span>)
    ensures Solid(LineCells(spans))
  {
    if spans != [] {
      LineSolid(spans[..|spans| - 1]);
      GlyphsSolid(spans[|spans| - 1].text, spans[|spans| - 1].style);
      hide GlyphsOf;
    }
  }

  lemma {:induction false} ReadSolid(cells: seq<Cell>)
    requires Solid(cells)
    ensures AllSolid(ReadCells(cells).words) && Solid(ReadCells(cells).open) && AllSolid(Words(cells))
  {
    if cells != [] { ReadSolid(cells[..|cells| - 1]); }
  }

  // For every input, each row is within the safe limit, or is one wide glyph at limit 1.
  lemma RowsFit(spans: seq<Span>, limit: int)
    ensures AllFit(Wrapped(spans, limit), SafeLimit(limit))
  {
    var cells := LineCells(spans);
    ReadIsWhole(cells);
    LineSolid(spans);
    ReadSolid(cells);
    PlaceWordsFit(Words(cells), SafeLimit(limit));
    PushedFits(PlaceWords(Words(cells), SafeLimit(limit)), SafeLimit(limit));
    hide LineCells, Words, PlaceWords, Pushed, Solid, AllFit;
  }

  // ---- the glyphs keep their order ----

  // The cells that are not blank, in order.
  function Visible(cells: seq<Cell>): seq<Cell> {
    if cells == [] then []
    else Visible(cells[..|cells| - 1]) + if Blank(cells[|cells| - 1]) then [] else [cells[|cells| - 1]]
  }

  lemma {:induction false} VisibleAppend(a: seq<Cell>, b: seq<Cell>)
    ensures Visible(a + b) == Visible(a) + Visible(b)
  {
    if b == [] {
      assert a + b == a;
      assert Visible(a) + [] == Visible(a);
    } else {
      assert (a + b)[..|a + b| - 1] == a + b[..|b| - 1];
      VisibleAppend(a, b[..|b| - 1]);
      ConcatAssoc(Visible(a), Visible(b[..|b| - 1]), if Blank(b[|b| - 1]) then [] else [b[|b| - 1]]);
    }
  }

  // Everything a wrapping holds, row after row.
  function Held(w: Wrapping): seq<Cell> { Flatten(w.rows) + w.row }

  lemma PushedHolds(w: Wrapping)
    ensures Held(Pushed(w)) == Held(w)
  {
    if w.row != [] {
      FlattenSnoc(w.rows, w.row);
      assert Held(Pushed(w)) == Flatten(w.rows + [w.row]) + [];
    }
  }

  lemma {:induction false} PlaceGlyphsHold(w: Wrapping, cells: seq<Cell>, limit: nat)
    ensures Held(PlaceGlyphs(w, cells, limit)) == Held(w) + cells
  {
    if cells == [] {
      assert Held(w) + [] == Held(w);
    } else {
      var init, c := cells[..|cells| - 1], cells[|cells| - 1];
      PlaceGlyphsHold(w, init, limit);
      var v := PlaceGlyphs(w, init, limit);
      PushedHolds(v);
      var u := if Width(v.row) > 0 && Width(v.row) + CellWidth(c) > limit then Pushed(v) else v;
      ConcatAssoc(Flatten(u.rows), u.row, [c]);
      ConcatAssoc(Held(w), init, [c]);
      assert cells == init + [c];
      hide Flatten, Width, CellWidth, Pushed;
    }
  }

  lemma PlaceWordHolds(w: Wrapping, word: Word, limit: nat)
    requires word != []
    ensures Visible(Held(PlaceWord(w, word, limit))) == Visible(Held(w)) + Visible(word)
  {
    if Joins(w, word, limit) {
      var space := Space(word[0].style);
      assert Held(PlaceWord(w, word, limit)) == Flatten(w.rows) + (w.row + [space] + word);
      ConcatAssoc(w.row, [space], word);
      ConcatAssoc(Flatten(w.rows), w.row, [space] + word);
      VisibleAppend(Held(w), [space] + word);
      VisibleAppend([space], word);
      assert Visible([space]) == [];
      assert [] + Visible(word) == Visible(word);
      hide Flatten, Visible;
    } else {
      PushedHolds(w);
      var v := if Width(w.row) > 0 then Pushed(w) else w;
      PlaceGlyphsHold(v, word, limit);
      ConcatAssoc(Flatten(v.rows), v.row, word);
      VisibleAppend(Held(w), word);
      hide Flatten, Visible, Width, Pushed, PlaceGlyphs;
    }
  }

  lemma {:induction false} PlaceWordsHold(words: seq<Word>, limit: nat)
    requires NoEmptyWord(words)
    ensures Visible(Held(PlaceWords(words, limit))) == Visible(Flatten(words))
  {
    if words == [] {
      assert Held(Wrapping([], [])) == [];
    } else {
      var init, word := words[..|words| - 1], words[|words| - 1];
      PlaceWordsHold(init, limit);
      PlaceWordHolds(PlaceWords(init, limit), word, limit);
      assert words == init + [word];
      hide PlaceWord, Visible, Flatten, Held;
      FlattenSnoc(init, word);
      VisibleAppend(Flatten(init), word);
    }
  }

  lemma {:induction false} WordsAreVisible(cells: seq<Cell>)
    ensures Visible(Flatten(ReadCells(cells).words) + ReadCells(cells).open) == Visible(cells)
  {
    if cells == [] {
      assert Flatten<Cell>([]) + [] == [];
    } else {
      var init, c := cells[..|cells| - 1], cells[|cells| - 1];
      WordsAreVisible(init);
      var r := ReadCells(init);
      if Blank(c) {
        FlushedText(r);
        assert Flatten(Flushed(r)) + [] == Flatten(Flushed(r));
        assert Visible(cells) == Visible(init) + [];
      } else {
        ConcatAssoc(Flatten(r.words), r.open, [c]);
        VisibleAppend(Flatten(r.words) + r.open, [c]);
        assert cells == init + [c];
        VisibleAppend(init, [c]);
      }
      hide Visible, Flatten;
    }
  }

  lemma FlushedText(r: Reading)
    ensures Flatten(Flushed(r)) == Flatten(r.words) + r.open
  {
    if r.open == [] {
      assert Flatten(r.words) + [] == Flatten(r.words);
    } else {
      FlattenSnoc(r.words, r.open);
    }
  }

  // The styled glyphs that are not blank come out in the order they went in.
  lemma GlyphsKeepOrder(spans: seq<Span>, limit: int)
    ensures Visible(Flatten(Wrapped(spans, limit))) == Visible(LineCells(spans))
  {
    var cells := LineCells(spans);
    var w := PlaceWords(Words(cells), SafeLimit(limit)) by { ReadIsWhole(cells); }
    ReadIsWhole(cells);
    PlaceWordsHold(Words(cells), SafeLimit(limit));
    PushedHolds(w);
    assert Pushed(w).row == [];
    assert Flatten(Pushed(w).rows) + [] == Flatten(Pushed(w).rows);
    WordsAreVisible(cells);
    FlushedText(ReadCells(cells));
    hide PlaceWords, ReadCells, Flatten, Visible, Pushed, LineCells;
  }

  // ---- the rows are as few as can be ----

  // The words of one row, with a space before each but the first.
  function RowOf(words: seq<Word>): Row
    requires NoEmptyWord(words)
  {
    if words == [] then []
    else if |words| == 1 then words[0]
    else RowOf(words[..|words| - 1]) + [Space(words[|words| - 1][0].style)] + words[|words| - 1]
  }

  // Its width.
  function Extent(words: seq<Word>): nat {
    if words == [] then 0
    else if |words| == 1 then Width(words[0])
    else Extent(words[..|words| - 1]) + 1 + Width(words[|words| - 1])
  }

  lemma ExtentSnoc(words: seq<Word>, word: Word)
    ensures Extent(words + [word]) == Extent(words) + Width(word) + if words == [] then 0 else 1
  {
    assert (words + [word])[..|words|] == words;
  }

  lemma {:induction false} ExtentIsWidth(words: seq<Word>)
    requires NoEmptyWord(words)
    ensures Width(RowOf(words)) == Extent(words)
  {
    if |words| > 1 {
      var init, word := words[..|words| - 1], words[|words| - 1];
      ExtentIsWidth(init);
      var space := Space(word[0].style);
      WidthAppend(RowOf(init) + [space], word);
      WidthAppend(RowOf(init), [space]);
      assert Width([space]) == 1 by { assert Width([]) == 0; }
      hide Width;
    }
  }

  // Any way of splitting the words into rows within the limit.
  predicate IsSplit(split: seq<seq<Word>>, words: seq<Word>, limit: nat) {
    Flatten(split) == words && forall i :: 0 <= i < |split| ==> Extent(split[i]) <= limit
  }

  // The greedy rows.
  function Greedy(words: seq<Word>, limit: nat): seq<seq<Word>> {
    if words == [] then []
    else
      var g, word := Greedy(words[..|words| - 1], limit), words[|words| - 1];
      if g != [] && Extent(g[|g| - 1]) + 1 + Width(word) <= limit
      then g[..|g| - 1] + [g[|g| - 1] + [word]]
      else g + [[word]]
  }

  // The split is not ahead of the greedy rows: it uses more of them, or as many and the last
  // one at least as full.
  predicate NotAhead(split: seq<seq<Word>>, g: seq<seq<Word>>) {
    || |split| > |g|
    || (|split| == |g| && (g != [] ==> Extent(split[|g| - 1]) >= Extent(g[|g| - 1])))
  }

  lemma {:induction false} GreedyStaysAhead(split: seq<seq<Word>>, words: seq<Word>, limit: nat)
    requires IsSplit(split, words, limit)
    ensures NotAhead(split, Greedy(words, limit))
    decreases |split| + |words|
  {
    if words != [] {
      assert split != [];
      var rest, last := split[..|split| - 1], split[|split| - 1];
      assert split == rest + [last];
      FlattenSnoc(rest, last);
      if last == [] {
        assert Flatten(rest) + [] == Flatten(rest);
        GreedyStaysAhead(rest, words, limit);
      } else {
        LastWord(rest, last, words, limit);
      }
    }
  }

  lemma LastWord(rest: seq<seq<Word>>, last: seq<Word>, words: seq<Word>, limit: nat)
    requires last != [] && words == Flatten(rest) + last && IsSplit(rest, Flatten(rest), limit) && Extent(last) <= limit
    ensures NotAhead(rest + [last], Greedy(words, limit))
    decreases |rest| + 1 + |words|, 0
  {
    var init, word := words[..|words| - 1], words[|words| - 1];
    var shorter := last[..|last| - 1];
    assert last == shorter + [word];
    assert init == Flatten(rest) + shorter;
    ExtentSnoc(shorter, word);
    var g := Greedy(init, limit);
    if shorter == [] {
      assert init == Flatten(rest);
      GreedyStaysAhead(rest, init, limit);
      hide Flatten;
      OpensOrJoins(g, word, limit);
    } else {
      FlattenSnoc(rest, shorter);
      GreedyStaysAhead(rest + [shorter], init, limit);
      hide Flatten;
      OpensOrJoins(g, word, limit);
    }
  }

  // What one word does to the greedy rows.
  lemma OpensOrJoins(g: seq<seq<Word>>, word: Word, limit: nat)
    ensures var h := if g != [] && Extent(g[|g| - 1]) + 1 + Width(word) <= limit
                     then g[..|g| - 1] + [g[|g| - 1] + [word]] else g + [[word]];
            && h != []
            && Extent(h[|h| - 1])
               == if |h| == |g| then Extent(g[|g| - 1]) + Width(word) + (if g[|g| - 1] == [] then 0 else 1)
                                     else Width(word)
  {
    if g != [] { ExtentSnoc(g[|g| - 1], word); }
  }

  predicate Groups(g: seq<seq<Word>>, limit: nat) {
    forall i :: 0 <= i < |g| ==> g[i] != [] && NoEmptyWord(g[i]) && Extent(g[i]) <= limit
  }

  predicate Narrow(words: seq<Word>, limit: nat) {
    forall i :: 0 <= i < |words| ==> words[i] != [] && Solid(words[i]) && Width(words[i]) <= limit
  }

  function RowsOf(g: seq<seq<Word>>, limit: nat): seq<Row>
    requires Groups(g, limit)
  {
    if g == [] then [] else RowsOf(g[..|g| - 1], limit) + [RowOf(g[|g| - 1])]
  }

  lemma {:induction false} GreedyIsSplit(words: seq<Word>, limit: nat)
    requires Narrow(words, limit)
    ensures Groups(Greedy(words, limit), limit) && Flatten(Greedy(words, limit)) == words
    ensures words != [] ==> Greedy(words, limit) != []
  {
    if words != [] {
      var init, word := words[..|words| - 1], words[|words| - 1];
      GreedyIsSplit(init, limit);
      var g := Greedy(init, limit);
      assert words == init + [word];
      assert word != [] && Width(word) <= limit;
      hide Greedy, Flatten, Narrow, Width, Solid;
      GrowSplit(g, word, limit);
    }
  }

  lemma GrowSplit(g: seq<seq<Word>>, word: Word, limit: nat)
    requires Groups(g, limit) && word != [] && Width(word) <= limit
    ensures Groups(g + [[word]], limit) && Flatten(g + [[word]]) == Flatten(g) + [word]
    ensures g != [] && Extent(g[|g| - 1]) + 1 + Width(word) <= limit ==>
              var h := g[..|g| - 1] + [g[|g| - 1] + [word]];
              Groups(h, limit) && Flatten(h) == Flatten(g) + [word]
  {
    FlattenSnoc(g, [word]);
    assert Extent([word]) == Width(word);
    if g != [] {
      var init, last := g[..|g| - 1], g[|g| - 1];
      ExtentSnoc(last, word);
      assert g == init + [last];
      FlattenSnoc(init, last);
      FlattenSnoc(init, last + [word]);
      ConcatAssoc(Flatten(init), last, [word]);
      hide Flatten, Extent, Width;
    }
  }

  lemma RowOfSnoc(words: seq<Word>, word: Word)
    requires NoEmptyWord(words) && word != [] && words != []
    ensures RowOf(words + [word]) == RowOf(words) + [Space(word[0].style)] + word
  {
    assert (words + [word])[..|words|] == words;
  }

  // The wrapping after some words is their greedy rows.
  predicate IsGreedy(w: Wrapping, g: seq<seq<Word>>, limit: nat)
    requires Groups(g, limit)
  {
    if g == [] then w == Wrapping([], [])
    else w.rows == RowsOf(g[..|g| - 1], limit) && w.row == RowOf(g[|g| - 1])
  }

  lemma PlaceIsGreedy(w: Wrapping, g: seq<seq<Word>>, word: Word, limit: nat)
    requires Groups(g, limit) && IsGreedy(w, g, limit) && word != [] && Width(word) <= limit
    requires g != [] ==> Extent(g[|g| - 1]) > 0
    ensures var h := if g != [] && Extent(g[|g| - 1]) + 1 + Width(word) <= limit
                     then g[..|g| - 1] + [g[|g| - 1] + [word]] else g + [[word]];
            Groups(h, limit) && IsGreedy(PlaceWord(w, word, limit), h, limit)
  {
    GrowSplit(g, word, limit);
    if g == [] {
      assert Width([]) == 0;
      assert [] + word == word;
    } else {
      var init, last := g[..|g| - 1], g[|g| - 1];
      ExtentIsWidth(last);
      RowOfSnoc(last, word);
      assert (g + [[word]])[..|g|] == g && (init + [last + [word]])[..|init|] == init;
      ConcatAssoc(RowOf(last), [Space(word[0].style)], word);
      assert [] + word == word;
      hide Extent, Width;
    }
  }

  lemma {:induction false} WordsAreGreedy(words: seq<Word>, limit: nat)
    requires Narrow(words, limit) && NoEmptyWord(words)
    ensures Groups(Greedy(words, limit), limit) && IsGreedy(PlaceWords(words, limit), Greedy(words, limit), limit)
    ensures words != [] ==> Greedy(words, limit) != [] && Extent(Last(Greedy(words, limit))) > 0
  {
    if words != [] {
      var init, word := words[..|words| - 1], words[|words| - 1];
      WordsAreGreedy(init, limit);
      SolidWidth(word);
      var g := Greedy(init, limit);
      hide PlaceWord, Narrow, Width, Extent, Solid;
      PlaceIsGreedy(PlaceWords(init, limit), g, word, limit);
      OpensOrJoins(g, word, limit);
    }
  }

  function Last(g: seq<seq<Word>>): seq<Word>
    requires g != []
  {
    g[|g| - 1]
  }

  // When no word is wider than a row, the rows are the words joined by spaces, and no split of
  // the words into rows within the limit has fewer.
  lemma FewestRows(spans: seq<Span>, limit: int)
    requires Narrow(Words(LineCells(spans)), SafeLimit(limit))
    ensures var words, safe := Words(LineCells(spans)), SafeLimit(limit);
            var g := Greedy(words, safe);
            && Groups(g, safe) && IsSplit(g, words, safe)
            && Wrapped(spans, limit) == RowsOf(g, safe)
            && |Wrapped(spans, limit)| == |g|
            && forall split: seq<seq<Word>> :: IsSplit(split, words, safe) ==> |split| >= |g|
  {
    var words, safe := Words(LineCells(spans)), SafeLimit(limit);
    var g := Greedy(words, safe);
    ReadIsWhole(LineCells(spans));
    GreedyIsSplit(words, safe);
    WordsAreGreedy(words, safe);
    forall split: seq<seq<Word>> | IsSplit(split, words, safe) ensures |split| >= |g| {
      GreedyStaysAhead(split, words, safe);
    }
    var w := PlaceWords(words, safe);
    hide Greedy, PlaceWords, Words, LineCells, IsSplit, Narrow;
    RowsPushed(w, g, safe);
    RowsCount(g, safe);
  }

  lemma RowsPushed(w: Wrapping, g: seq<seq<Word>>, limit: nat)
    requires Groups(g, limit) && IsGreedy(w, g, limit) && (g != [] ==> Extent(Last(g)) > 0)
    ensures Pushed(w).rows == RowsOf(g, limit)
  {
    if g != [] {
      ExtentIsWidth(g[|g| - 1]);
      assert Width([]) == 0;
      hide RowOf, Width, Extent;
    }
  }

  lemma {:induction false} RowsCount(g: seq<seq<Word>>, limit: nat)
    requires Groups(g, limit)
    ensures |RowsOf(g, limit)| == |g|
  {
    if g != [] { RowsCount(g[..|g| - 1], limit); }
  }

  // ---- the spans of a row ----

  datatype Ink = Ink(b: byte, style: Style)

  function Inked(text: Bytes, style: Style): seq<Ink> {
    if text == [] then [] else Inked(text[..|text| - 1], style) + [Ink(text[|text| - 1], style)]
  }

  function SpanInk(spans: seq<Span>): seq<Ink> {
    if spans == [] then [] else SpanInk(spans[..|spans| - 1]) + Inked(spans[|spans| - 1].text, spans[|spans| - 1].style)
  }

  function CellInk(cells: seq<Cell>): seq<Ink> {
    if cells == [] then [] else CellInk(cells[..|cells| - 1]) + Inked(cells[|cells| - 1].glyph, cells[|cells| - 1].style)
  }

  lemma {:induction false} InkedAppend(a: Bytes, b: Bytes, style: Style)
    ensures Inked(a + b, style) == Inked(a, style) + Inked(b, style)
  {
    if b == [] {
      assert a + b == a;
      assert Inked(a, style) + [] == Inked(a, style);
    } else {
      assert (a + b)[..|a + b| - 1] == a + b[..|b| - 1];
      InkedAppend(a, b[..|b| - 1], style);
      ConcatAssoc(Inked(a, style), Inked(b[..|b| - 1], style), [Ink(b[|b| - 1], style)]);
    }
  }

  // Merging cells into spans changes no byte and no style, and leaves no two neighbours alike.
  lemma {:induction false} MergingKeepsInk(cells: seq<Cell>)
    ensures SpanInk(Merged(cells)) == CellInk(cells)
    ensures forall i :: 0 < i < |Merged(cells)| ==> Merged(cells)[i - 1].style != Merged(cells)[i].style
  {
    if cells != [] {
      var init, c := cells[..|cells| - 1], cells[|cells| - 1];
      MergingKeepsInk(init);
      hide Merged;
      AppendKeepsInk(Merged(init), c);
    }
  }

  lemma AppendKeepsInk(row: seq<Span>, c: Cell)
    ensures SpanInk(AppendGlyph(row, c)) == SpanInk(row) + Inked(c.glyph, c.style)
  {
    if row != [] && row[|row| - 1].style == c.style {
      var init, last := row[..|row| - 1], row[|row| - 1];
      InkedAppend(last.text, c.glyph, c.style);
      SpanInkSnoc(init, Span(last.text + c.glyph, c.style));
      ConcatAssoc(SpanInk(init), Inked(last.text, c.style), Inked(c.glyph, c.style));
    } else {
      SpanInkSnoc(row, Span(c.glyph, c.style));
    }
  }

  lemma SpanInkSnoc(spans: seq<Span>, s: Span)
    ensures SpanInk(spans + [s]) == SpanInk(spans) + Inked(s.text, s.style)
  {
    assert (spans + [s])[..|spans|] == spans;
  }
}
