// src/tui/tui.cpp, wrap_line: which cells of the line stand together in the rows.
module WrapWords {
  import opened Bytes
  import opened Utf8
  import opened Glyphs
  import opened WrapLine
  import P = PromptEditor

  // ---- the words are the runs of the line ----

  predicate NoBlank(cells: seq<Cell>) { forall i :: 0 <= i < |cells| ==> !Blank(cells[i]) }

  // The word is a run of cells without a blank that starts at `s` and cannot be extended.
  predicate RunAt(cells: seq<Cell>, s: nat, word: Word) {
    && s + |word| <= |cells| && word == cells[s..s + |word|] && word != [] && NoBlank(word)
    && (s == 0 || Blank(cells[s - 1]))
    && (s + |word| == |cells| || Blank(cells[s + |word|]))
  }

  predicate Within(words: seq<Word>, at: seq<nat>, k: nat, i: nat)
    requires k < |words| == |at|
  {
    at[k] <= i < at[k] + |words[k]|
  }

  // The words are the runs of the line, all of them, from left to right.
  ghost predicate RunsAre(cells: seq<Cell>, words: seq<Word>, at: seq<nat>) {
    && |at| == |words|
    && (forall k :: 0 <= k < |words| ==> RunAt(cells, at[k], words[k]))
    && (forall k :: 0 < k < |words| ==> at[k - 1] + |words[k - 1]| < at[k])
    && (forall i :: 0 <= i < |cells| && !Blank(cells[i]) ==> exists k :: 0 <= k < |words| && Within(words, at, k, i))
  }

  lemma RunsThenBlank(cells: seq<Cell>, words: seq<Word>, at: seq<nat>, c: Cell)
    requires RunsAre(cells, words, at) && Blank(c)
    ensures RunsAre(cells + [c], words, at)
  {
    hide Blank;
    var all := cells + [c];
    forall k | 0 <= k < |words| ensures RunAt(all, at[k], words[k]) {
      assert RunAt(cells, at[k], words[k]);
      assert all[at[k]..at[k] + |words[k]|] == cells[at[k]..at[k] + |words[k]|];
    }
    hide RunAt, Within;
  }

  lemma RunsThenRun(cells: seq<Cell>, words: seq<Word>, at: seq<nat>, open: Word)
    requires RunsAre(cells, words, at) && open != [] && NoBlank(open)
    requires cells == [] || Blank(cells[|cells| - 1])
    ensures RunsAre(cells + open, words + [open], at + [|cells|])
  {
    hide Blank;
    var all, m, more, starts := cells + open, |cells|, words + [open], at + [|cells|];
    forall k | 0 <= k < |more| ensures RunAt(all, starts[k], more[k]) {
      if k < |words| {
        RunStays(cells, open, at[k], words[k]);
      } else {
        assert all[m..m + |open|] == open;
      }
    }
    forall k | 0 < k < |more| ensures starts[k - 1] + |more[k - 1]| < starts[k] {
      if k == |words| { RunStays(cells, open, at[k - 1], words[k - 1]); }
    }
    forall i | 0 <= i < |all| && !Blank(all[i]) ensures exists k :: 0 <= k < |more| && Within(more, starts, k, i) {
      if i < m {
        assert !Blank(cells[i]);
        var k :| 0 <= k < |words| && Within(words, at, k, i);
        assert Within(more, starts, k, i);
      } else {
        assert Within(more, starts, |words|, i);
      }
    }
  }

  lemma RunStays(cells: seq<Cell>, open: Word, s: nat, word: Word)
    requires RunAt(cells, s, word) && cells != [] && Blank(cells[|cells| - 1])
    ensures RunAt(cells + open, s, word) && s + |word| < |cells|
  {
    hide Blank;
    assert (cells + open)[s..s + |word|] == cells[s..s + |word|];
    assert word[|word| - 1] == cells[s + |word| - 1];
  }

  // The words read so far are the runs of the line up to the open word.
  ghost predicate ReadsRuns(cells: seq<Cell>, r: Reading, at: seq<nat>) {
    var m := |cells| - |r.open|;
    && 0 <= m && r.open == cells[m..] && NoBlank(r.open) && (m == 0 || Blank(cells[m - 1]))
    && RunsAre(cells[..m], r.words, at)
  }

  lemma {:induction false} ReadRuns(cells: seq<Cell>) returns (at: seq<nat>)
    ensures ReadsRuns(cells, ReadCells(cells), at)
  {
    if cells == [] {
      at := [];
    } else {
      var init, c := cells[..|cells| - 1], cells[|cells| - 1];
      at := ReadRuns(init);
      var r := ReadCells(init);
      assert cells == init + [c];
      hide Blank, ReadsRuns, Flushed;
      if Blank(c) {
        at := BlankReads(init, r, at, c);
      } else {
        MoreOpen(init, r, at, c);
      }
    }
  }

  lemma BlankReads(cells: seq<Cell>, r: Reading, before: seq<nat>, c: Cell) returns (at: seq<nat>)
    requires ReadsRuns(cells, r, before) && Blank(c)
    ensures ReadsRuns(cells + [c], Reading(Flushed(r), []), at)
  {
    var all := cells + [c];
    at := FlushRuns(cells, r, before);
    RunsThenBlank(cells, Flushed(r), at, c);
    hide Blank, RunsAre, Flushed;
    assert all[|all|..] == [] && all[..|all|] == all;
  }

  lemma MoreOpen(cells: seq<Cell>, r: Reading, at: seq<nat>, c: Cell)
    requires ReadsRuns(cells, r, at) && !Blank(c)
    ensures ReadsRuns(cells + [c], Reading(r.words, r.open + [c]), at)
  {
    hide Blank, RunsAre;
    var m := |cells| - |r.open|;
    assert (cells + [c])[m..] == r.open + [c] && (cells + [c])[..m] == cells[..m];
  }

  lemma FlushRuns(cells: seq<Cell>, r: Reading, before: seq<nat>) returns (at: seq<nat>)
    requires ReadsRuns(cells, r, before)
    ensures RunsAre(cells, Flushed(r), at)
  {
    hide Blank, RunsAre, NoBlank;
    var m := |cells| - |r.open|;
    assert cells[..m] + cells[m..] == cells;
    if r.open == [] {
      assert cells[..m] == cells;
      at := before;
    } else {
      RunsThenRun(cells[..m], r.words, before, r.open);
      at := before + [|cells[..m]|];
    }
  }

  // The words of a line are exactly its maximal runs of cells that are not blank.
  lemma WordsAreRuns(cells: seq<Cell>) returns (at: seq<nat>)
    ensures RunsAre(cells, Words(cells), at)
  {
    at := ReadRuns(cells);
    hide ReadCells, RunsAre;
    at := FlushRuns(cells, ReadCells(cells), at);
  }

  // ---- the rows ----

  // What stands on the screen: the cells of the rows, None where one row ends and the next begins.
  function Screen(rows: seq<Row>): seq<Option<Cell>> {
    if rows == [] then []
    else if |rows| == 1 then Shown(rows[0])
    else Screen(rows[..|rows| - 1]) + [None] + Shown(rows[|rows| - 1])
  }

  function Shown(row: Row): seq<Option<Cell>> { seq(|row|, i requires 0 <= i < |row| => Some(row[i])) }

  // A space in the style of cell `j`.
  predicate SpaceFor(cells: seq<Cell>, j: nat, o: Option<Cell>) {
    j < |cells| && o == Some(Cell([SPACE], cells[j].style))
  }

  // Cell `i` belongs to a run that is wider than a row.
  ghost predicate InWideRun(cells: seq<Cell>, i: nat, limit: nat) {
    exists s: nat, e: nat :: Spans(cells, s, e, i) && Width(cells[s..e]) > limit
  }

  predicate Spans(cells: seq<Cell>, s: nat, e: nat, i: nat) { s <= i < e <= |cells| && NoBlank(cells[s..e]) }

  // `vis` lists the cells before `e` that are not blank.
  predicate Visibles(cells: seq<Cell>, e: nat, vis: seq<nat>) {
    && e <= |cells|
    && (forall k :: 0 <= k < |vis| ==> vis[k] < e && !Blank(cells[vis[k]]))
    && (forall k :: 0 < k < |vis| ==> vis[k - 1] < vis[k])
    && (forall i :: 0 <= i < e && !Blank(cells[i]) ==> i in vis)
  }

  // Neighbours in the line stay neighbours on the screen, unless a row ends inside a run that is
  // wider than a row. Between cells that were apart there is one space, or the end of a row.
  ghost predicate KeptApart(cells: seq<Cell>, limit: nat, screen: seq<Option<Cell>>, i: nat, j: nat, p: nat, q: nat) {
    && p < q < |screen|
    && if j == i + 1 then q == p + 1 || (q == p + 2 && screen[p + 1] == None && InWideRun(cells, i, limit))
       else q == p + 2 && (screen[p + 1] == None || SpaceFor(cells, j, screen[p + 1]))
  }

  // The cells listed stand on the screen at `place`, from its first place to its last.
  ghost predicate Placed(cells: seq<Cell>, limit: nat, screen: seq<Option<Cell>>, vis: seq<nat>, place: seq<nat>) {
    && |place| == |vis| && (vis == [] <==> screen == [])
    && (vis != [] ==> place[0] == 0 && place[|vis| - 1] == |screen| - 1)
    && (forall k :: 0 <= k < |vis| ==> CellAt(cells, screen, vis[k], place[k]))
    && (forall k :: 0 < k < |vis| ==> KeptApart(cells, limit, screen, vis[k - 1], vis[k], place[k - 1], place[k]))
  }

  predicate CellAt(cells: seq<Cell>, screen: seq<Option<Cell>>, i: nat, p: nat) {
    i < |cells| && p < |screen| && screen[p] == Some(cells[i])
  }

  // What may come between two cells.
  ghost predicate Parted(cells: seq<Cell>, limit: nat, i: nat, j: nat, gap: seq<Option<Cell>>) {
    if j == i + 1 then gap == [] || (gap == [None] && InWideRun(cells, i, limit))
    else |gap| == 1 && (gap[0] == None || SpaceFor(cells, j, gap[0]))
  }

  lemma OneMorePlaced(cells: seq<Cell>, limit: nat, screen: seq<Option<Cell>>, vis: seq<nat>, place: seq<nat>,
                      i: nat, gap: seq<Option<Cell>>)
    requires Placed(cells, limit, screen, vis, place) && i < |cells|
    requires if vis == [] then gap == [] else vis[|vis| - 1] < i && Parted(cells, limit, vis[|vis| - 1], i, gap)
    ensures Placed(cells, limit, screen + gap + [Some(cells[i])], vis + [i], place + [|screen| + |gap|])
  {
    hide InWideRun, SpaceFor;
    var all, more, at := screen + gap + [Some(cells[i])], vis + [i], place + [|screen| + |gap|];
    forall k | 0 <= k < |more| ensures CellAt(cells, all, more[k], at[k]) {
      if k < |vis| { assert CellAt(cells, screen, vis[k], place[k]); }
    }
    forall k | 0 < k < |more| ensures KeptApart(cells, limit, all, more[k - 1], more[k], at[k - 1], at[k]) {
      if k < |vis| { assert KeptApart(cells, limit, screen, vis[k - 1], vis[k], place[k - 1], place[k]); }
    }
    hide CellAt, KeptApart;
  }

  // ---- placing a run ----

  function OnScreen(w: Wrapping): seq<Option<Cell>> { Screen(Pushed(w).rows) }

  // The end of a row comes before the next cell of the row being filled.
  function Break(w: Wrapping): seq<Option<Cell>> { if w.row == [] && w.rows != [] then [None] else [] }

  lemma ScreenSnoc(rows: seq<Row>, row: Row)
    ensures Screen(rows + [row]) == if rows == [] then Shown(row) else Screen(rows) + [None] + Shown(row)
  {
    assert (rows + [row])[..|rows|] == rows;
  }

  lemma CellShown(w: Wrapping, c: Cell)
    ensures OnScreen(w.(row := w.row + [c])) == OnScreen(w) + Break(w) + [Some(c)]
  {
    ScreenSnoc(w.rows, w.row + [c]);
    ScreenSnoc(w.rows, w.row);
    assert Shown(w.row + [c]) == Shown(w.row) + [Some(c)];
    assert w.row == [] ==> Shown(w.row) + [Some(c)] == [Some(c)];
    hide Screen, Shown;
    if w.rows != [] { ConcatAssoc(Screen(w.rows) + [None], Shown(w.row), [Some(c)]); }
    assert OnScreen(w) + [] == OnScreen(w);
    if w.row == [] && w.rows == [] { assert Pushed(w).rows == [] && Screen([]) == [] by { ScreenOfNothing(); } }
  }

  lemma ScreenOfNothing()
    ensures Screen([]) == []
  {
  }

  lemma PushedShown(w: Wrapping)
    ensures OnScreen(Pushed(w)) == OnScreen(w)
  {
    hide Screen;
  }

  lemma ScreenNotEmpty(w: Wrapping)
    requires forall i :: 0 <= i < |w.rows| ==> w.rows[i] != []
    ensures OnScreen(w) == [] <==> w.rows == [] && w.row == []
  {
  }

  lemma {:induction false} Rising(vis: seq<nat>, a: nat, b: nat)
    requires a <= b < |vis| && forall k :: 0 < k < |vis| ==> vis[k - 1] < vis[k]
    ensures vis[a] <= vis[b]
  {
    if a < b { Rising(vis, a, b - 1); }
  }

  lemma LastVisible(cells: seq<Cell>, e: nat, vis: seq<nat>)
    requires Visibles(cells, e, vis) && e > 0 && !Blank(cells[e - 1])
    ensures vis != [] && vis[|vis| - 1] == e - 1
  {
    hide Blank;
    var k :| 0 <= k < |vis| && vis[k] == e - 1;
    Rising(vis, k, |vis| - 1);
  }

  lemma VisibleMore(cells: seq<Cell>, i: nat, vis: seq<nat>)
    requires Visibles(cells, i, vis) && i < |cells| && !Blank(cells[i])
    ensures Visibles(cells, i + 1, vis + [i])
  {
    hide Blank;
    var more := vis + [i];
    forall j | 0 <= j < i + 1 && !Blank(cells[j]) ensures j in more {
      if j < i { assert j in vis; } else { assert more[|vis|] == i; }
    }
  }

  lemma {:induction false} VisibleSame(cells: seq<Cell>, e: nat, f: nat, vis: seq<nat>)
    requires Visibles(cells, e, vis) && e <= f <= |cells| && forall i :: e <= i < f ==> Blank(cells[i])
    ensures Visibles(cells, f, vis)
  {
    hide Blank;
  }

  // What a wrapping shows, and the cells before `e` on it.
  ghost predicate Reached(cells: seq<Cell>, limit: nat, screen: seq<Option<Cell>>, e: nat, vis: seq<nat>, place: seq<nat>) {
    Placed(cells, limit, screen, vis, place) && Visibles(cells, e, vis)
  }

  // The next cell that is not blank, after what may come before it.
  lemma CellReached(cells: seq<Cell>, limit: nat, screen: seq<Option<Cell>>, i: nat, vis: seq<nat>, place: seq<nat>,
                    gap: seq<Option<Cell>>)
    requires Reached(cells, limit, screen, i, vis, place) && i < |cells| && !Blank(cells[i])
    requires if vis == [] then gap == [] else Parted(cells, limit, vis[|vis| - 1], i, gap)
    ensures Reached(cells, limit, screen + gap + [Some(cells[i])], i + 1, vis + [i], place + [|screen| + |gap|])
  {
    assert vis != [] ==> vis[|vis| - 1] < i;
    VisibleMore(cells, i, vis);
    hide Visibles, Placed, Parted, Blank;
    OneMorePlaced(cells, limit, screen, vis, place, i, gap);
  }

  lemma NotBlankAt(cells: seq<Cell>, s: nat, n: nat, k: nat)
    requires s + n <= |cells| && NoBlank(cells[s..s + n]) && k < n
    ensures !Blank(cells[s + k]) && NoBlank(cells[s..s + k]) && cells[s..s + k + 1] == cells[s..s + k] + [cells[s + k]]
  {
    hide Blank;
    assert cells[s + k] == cells[s..s + n][k];
    assert cells[s..s + k] == cells[s..s + n][..k];
  }

  // A run goes on the row, after `pre` at its end.
  lemma {:induction false} RowTakesRun(cells: seq<Cell>, limit: nat, w: Wrapping, screen: seq<Option<Cell>>,
                                       pre: seq<Option<Cell>>, s: nat, n: nat, vis: seq<nat>, place: seq<nat>)
    returns (v: seq<nat>, p: seq<nat>)
    requires Reached(cells, limit, screen, s, vis, place) && OnScreen(w) == screen + pre
    requires n >= 1 && s + n <= |cells| && NoBlank(cells[s..s + n])
    requires if vis == [] then pre + Break(w) == [] else Parted(cells, limit, vis[|vis| - 1], s, pre + Break(w))
    ensures Reached(cells, limit, OnScreen(w.(row := w.row + cells[s..s + n])), s + n, v, p)
    decreases n
  {
    hide *;
    NotBlankAt(cells, s, n, n - 1);
    var c := cells[s + n - 1];
    if n == 1 {
      CellReached(cells, limit, screen, s, vis, place, pre + Break(w));
      CellShown(w, c);
      ConcatAssoc(screen, pre, Break(w));
      assert cells[s..s + 1] == [c];
      v, p := vis + [s], place + [|screen| + |pre + Break(w)|];
    } else {
      var u := w.(row := w.row + cells[s..s + (n - 1)]);
      v, p := RowTakesRun(cells, limit, w, screen, pre, s, n - 1, vis, place);
      ConcatAssoc(w.row, cells[s..s + (n - 1)], [c]);
      NotBlankAt(cells, s, n, n - 2);
      NoBreak(u);
      NextReached(cells, limit, u, s + n - 1, v, p);
      v, p := v + [s + n - 1], p + [|OnScreen(u)|];
    }
  }

  lemma NoBreak(u: Wrapping)
    ensures u.row != [] ==> Break(u) == []
  {
  }

  // A cell whose neighbour is the last one placed.
  lemma NextReached(cells: seq<Cell>, limit: nat, u: Wrapping, i: nat, v: seq<nat>, p: seq<nat>)
    requires Reached(cells, limit, OnScreen(u), i, v, p) && 0 < i < |cells|
    requires !Blank(cells[i]) && !Blank(cells[i - 1])
    requires Break(u) == [] || InWideRun(cells, i - 1, limit)
    ensures Reached(cells, limit, OnScreen(u.(row := u.row + [cells[i]])), i + 1, v + [i], p + [|OnScreen(u)| + |Break(u)|])
  {
    LastVisible(cells, i, v) by { assert Visibles(cells, i, v); }
    assert Parted(cells, limit, i - 1, i, Break(u));
    hide *;
    CellReached(cells, limit, OnScreen(u), i, v, p, Break(u));
    CellShown(u, cells[i]);
  }

  // A run too wide for a row is broken up.
  lemma {:induction false} RowsTakeRun(cells: seq<Cell>, limit: nat, w: Wrapping, s: nat, n: nat, e: nat,
                                       vis: seq<nat>, place: seq<nat>) returns (v: seq<nat>, p: seq<nat>)
    requires Reached(cells, limit, OnScreen(w), s, vis, place) && w.row == []
    requires 1 <= n && s + n <= e <= |cells| && NoBlank(cells[s..e]) && Width(cells[s..e]) > limit
    requires if vis == [] then Break(w) == [] else Parted(cells, limit, vis[|vis| - 1], s, Break(w))
    ensures Reached(cells, limit, OnScreen(PlaceGlyphs(w, cells[s..s + n], limit)), s + n, v, p)
    ensures PlaceGlyphs(w, cells[s..s + n], limit).row != []
    decreases n
  {
    hide *;
    RunPrefix(cells, s, n, e);
    NotBlankAt(cells, s, n, n - 1);
    var i := s + n - 1;
    GlyphsSnoc(w, cells[s..i], cells[i], limit);
    if n == 1 {
      CellReached(cells, limit, OnScreen(w), s, vis, place, Break(w));
      CellShown(w, cells[s]);
      GlyphsNone(w, limit);
      assert cells[s..i] == [];
      GlyphPlaced(w, cells[s], limit);
      v, p := vis + [s], place + [|OnScreen(w)| + |Break(w)|];
    } else {
      v, p := RowsTakeRun(cells, limit, w, s, n - 1, e, vis, place);
      var u := PlaceGlyphs(w, cells[s..i], limit);
      NotBlankAt(cells, s, n, n - 2);
      WideRunHolds(cells, limit, s, e, i - 1);
      PushedShown(u);
      NoBreak(u);
      GlyphPlaced(u, cells[i], limit);
      var x := if PlaceGlyph(u, cells[i], limit).rows == u.rows then u else Pushed(u);
      NextReached(cells, limit, x, i, v, p);
      v, p := v + [i], p + [|OnScreen(x)| + |Break(x)|];
    }
  }

  lemma RunPrefix(cells: seq<Cell>, s: nat, n: nat, e: nat)
    requires s + n <= e <= |cells| && NoBlank(cells[s..e])
    ensures NoBlank(cells[s..s + n])
  {
    assert cells[s..s + n] == cells[s..e][..n];
    hide Blank;
  }

  lemma WideRunHolds(cells: seq<Cell>, limit: nat, s: nat, e: nat, i: nat)
    requires s <= i < e <= |cells| && NoBlank(cells[s..e]) && Width(cells[s..e]) > limit
    ensures InWideRun(cells, i, limit)
  {
    assert Spans(cells, s, e, i);
  }

  lemma GlyphsSnoc(w: Wrapping, run: seq<Cell>, c: Cell, limit: nat)
    ensures PlaceGlyphs(w, run + [c], limit) == PlaceGlyph(PlaceGlyphs(w, run, limit), c, limit)
  {
    assert (run + [c])[..|run|] == run;
  }

  lemma GlyphsNone(w: Wrapping, limit: nat)
    ensures PlaceGlyphs(w, [], limit) == w
  {
  }

  // A glyph goes on the row, or on a new one.
  lemma GlyphPlaced(w: Wrapping, c: Cell, limit: nat)
    ensures var v := PlaceGlyph(w, c, limit);
            var x := if v.rows == w.rows then w else Pushed(w);
            v == x.(row := x.row + [c]) && (w.row == [] ==> x == w)
  {
    assert Width([]) == 0;
    hide Width;
  }

  // ---- placing a word ----

  function Longer(w: Wrapping, run: seq<Cell>): Wrapping { w.(row := w.row + run) }

  lemma WordReached(cells: seq<Cell>, limit: nat, w: Wrapping, s: nat, word: Word, vis: seq<nat>, place: seq<nat>)
    returns (v: seq<nat>, p: seq<nat>)
    requires Reached(cells, limit, OnScreen(w), s, vis, place) && WellFilled(w, limit)
    requires RunAt(cells, s, word)
    ensures Reached(cells, limit, OnScreen(PlaceWord(w, word, limit)), s + |word|, v, p)
  {
    RunIs(cells, s, word);
    ScreenOfFilled(cells, limit, w, s, vis, place);
    WordGoes(w, word, limit);
    hide *;
    if Joins(w, word, limit) {
      SpaceIs(cells, s, word);
      v, p := WordJoins(cells, limit, w, s, word, Space(word[0].style), vis, place);
    } else {
      var u := if Width(w.row) > 0 then Pushed(w) else w;
      PushedShown(w);
      v, p := WordOpens(cells, limit, u, s, word, vis, place);
    }
  }

  lemma LongerIs(w: Wrapping, run: seq<Cell>)
    ensures Longer(w, run) == w.(row := w.row + run)
  {
  }

  lemma RunIs(cells: seq<Cell>, s: nat, word: Word)
    requires RunAt(cells, s, word)
    ensures s + |word| <= |cells| && |word| >= 1 && word == cells[s..s + |word|] && NoBlank(cells[s..s + |word|])
    ensures s == 0 || Blank(cells[s - 1])
  {
  }

  lemma WordJoins(cells: seq<Cell>, limit: nat, w: Wrapping, s: nat, word: Word, space: Cell,
                  vis: seq<nat>, place: seq<nat>)
    returns (v: seq<nat>, p: seq<nat>)
    requires Reached(cells, limit, OnScreen(w), s, vis, place) && w.row != [] && vis != []
    requires RunAt(cells, s, word) && SpaceFor(cells, s, Some(space))
    ensures Reached(cells, limit, OnScreen(Longer(Longer(w, [space]), word)), s + |word|, v, p)
  {
    var n, u := |word|, w.(row := w.row + [space]);
    var pre: seq<Option<Cell>> := [Some(space)];
    hide *;
    RunIs(cells, s, word);
    ReachedIs(cells, limit, OnScreen(w), s, vis, place);
    LongerIs(w, [space]);
    LongerIs(u, word);
    ApartFromLast(cells, limit, s, vis, pre);
    CellShown(w, space);
    NoBreak(w);
    NoBreak(u);
    Nothing(OnScreen(w));
    Nothing(pre);
    v, p := RowTakesRun(cells, limit, u, OnScreen(w), pre, s, n, vis, place);
  }

  lemma WordOpens(cells: seq<Cell>, limit: nat, u: Wrapping, s: nat, word: Word, vis: seq<nat>, place: seq<nat>)
    returns (v: seq<nat>, p: seq<nat>)
    requires Reached(cells, limit, OnScreen(u), s, vis, place) && u.row == []
    requires Break(u) == if vis == [] then [] else [None]
    requires RunAt(cells, s, word)
    ensures Reached(cells, limit, OnScreen(if Width(word) > limit then PlaceGlyphs(u, word, limit) else Longer(u, word)),
                    s + |word|, v, p)
  {
    hide *;
    RunIs(cells, s, word);
    OpensApart(cells, limit, u, s, vis, place);
    if Width(word) > limit {
      v, p := RowsTakeRun(cells, limit, u, s, |word|, s + |word|, vis, place);
    } else {
      v, p := WordOpensRow(cells, limit, u, s, word, vis, place);
    }
  }

  lemma OpensApart(cells: seq<Cell>, limit: nat, u: Wrapping, s: nat, vis: seq<nat>, place: seq<nat>)
    requires Reached(cells, limit, OnScreen(u), s, vis, place) && Break(u) == if vis == [] then [] else [None]
    requires s <= |cells| && (s == 0 || Blank(cells[s - 1]))
    ensures vis != [] ==> Parted(cells, limit, vis[|vis| - 1], s, Break(u))
  {
    hide *;
    ReachedIs(cells, limit, OnScreen(u), s, vis, place);
    if vis != [] { ApartFromLast(cells, limit, s, vis, Break(u)); }
  }

  lemma WordOpensRow(cells: seq<Cell>, limit: nat, u: Wrapping, s: nat, word: Word, vis: seq<nat>, place: seq<nat>)
    returns (v: seq<nat>, p: seq<nat>)
    requires Reached(cells, limit, OnScreen(u), s, vis, place) && u.row == [] && RunAt(cells, s, word)
    requires if vis == [] then Break(u) == [] else Parted(cells, limit, vis[|vis| - 1], s, Break(u))
    ensures Reached(cells, limit, OnScreen(Longer(u, word)), s + |word|, v, p)
  {
    hide *;
    RunIs(cells, s, word);
    LongerIs(u, word);
    Nothing(OnScreen(u));
    Nothing(Break(u));
    v, p := RowTakesRun(cells, limit, u, OnScreen(u), [], s, |word|, vis, place);
  }

  lemma Nothing<T>(a: seq<T>)
    ensures a + [] == a && [] + a == a
  {
  }

  lemma SpaceIs(cells: seq<Cell>, s: nat, word: Word)
    requires word != [] && s + |word| <= |cells| && word == cells[s..s + |word|]
    ensures SpaceFor(cells, s, Some(Space(word[0].style)))
  {
  }

  // How a word goes onto the rows.
  lemma WordGoes(w: Wrapping, word: Word, limit: nat)
    requires WellFilled(w, limit) && word != []
    ensures Joins(w, word, limit) ==>
              w.row != [] && PlaceWord(w, word, limit) == Longer(Longer(w, [Space(word[0].style)]), word)
    ensures !Joins(w, word, limit) ==>
              var u := if Width(w.row) > 0 then Pushed(w) else w;
              u.row == [] && PlaceWord(w, word, limit)
                             == if Width(word) > limit then PlaceGlyphs(u, word, limit) else Longer(u, word)
  {
    SolidWidth(w.row);
    assert Width([]) == 0;
    hide Width, PlaceGlyphs;
  }

  // Between the last cell before a run and the run there is a blank.
  lemma ApartFromLast(cells: seq<Cell>, limit: nat, s: nat, vis: seq<nat>, gap: seq<Option<Cell>>)
    requires Visibles(cells, s, vis) && (s == 0 || Blank(cells[s - 1])) && s <= |cells| && vis != []
    requires |gap| == 1 && (gap[0] == None || SpaceFor(cells, s, gap[0]))
    ensures Parted(cells, limit, vis[|vis| - 1], s, gap)
  {
    assert vis[|vis| - 1] < s && !Blank(cells[vis[|vis| - 1]]);
    hide InWideRun, Blank;
  }

  lemma ScreenOfFilled(cells: seq<Cell>, limit: nat, w: Wrapping, s: nat, vis: seq<nat>, place: seq<nat>)
    requires Reached(cells, limit, OnScreen(w), s, vis, place) && WellFilled(w, limit)
    ensures vis == [] <==> w.rows == [] && w.row == []
    ensures w.row == [] ==> Break(w) == if vis == [] then [] else [None]
    ensures var u := Pushed(w); u.row == [] && (Break(u) == if vis == [] then [] else [None])
  {
    ScreenNotEmpty(w);
    hide Screen, CellAt, KeptApart, Fits, Solid;
  }

  // ---- the whole line ----

  // Where the `n`-th word ends.
  function EndOf(words: seq<Word>, at: seq<nat>, n: nat): nat
    requires n <= |words| == |at|
  {
    if n == 0 then 0 else at[n - 1] + |words[n - 1]|
  }

  lemma {:induction false} LaterStarts(cells: seq<Cell>, words: seq<Word>, at: seq<nat>, k: nat, m: nat)
    requires RunsAre(cells, words, at) && k < m < |words|
    ensures at[k] + |words[k]| < at[m]
    decreases m
  {
    hide RunAt, Within;
    if k < m - 1 { LaterStarts(cells, words, at, k, m - 1); }
  }

  // Between two words, and after the last, there are only blanks.
  lemma BlankBetween(cells: seq<Cell>, words: seq<Word>, at: seq<nat>, n: nat, i: nat)
    requires RunsAre(cells, words, at) && n <= |words| && EndOf(words, at, n) <= i < |cells|
    requires n < |words| ==> i < at[n]
    ensures Blank(cells[i])
  {
    if !Blank(cells[i]) {
      hide Blank, RunAt;
      var k :| 0 <= k < |words| && Within(words, at, k, i);
      if k < n - 1 { LaterStarts(cells, words, at, k, n - 1); }
      if n < k { LaterStarts(cells, words, at, n, k); }
    }
  }

  lemma BlanksPassed(cells: seq<Cell>, words: seq<Word>, at: seq<nat>, n: nat, f: nat, vis: seq<nat>)
    requires RunsAre(cells, words, at) && n <= |words| && EndOf(words, at, n) <= f <= |cells|
    requires f == (if n < |words| then at[n] else |cells|) && Visibles(cells, EndOf(words, at, n), vis)
    ensures Visibles(cells, f, vis)
  {
    forall i | EndOf(words, at, n) <= i < f ensures Blank(cells[i]) { BlankBetween(cells, words, at, n, i); }
    hide RunsAre, Blank, Visibles;
    VisibleSame(cells, EndOf(words, at, n), f, vis);
  }

  lemma WordStarts(cells: seq<Cell>, words: seq<Word>, at: seq<nat>, n: nat)
    requires RunsAre(cells, words, at) && n <= |words|
    ensures EndOf(words, at, n) <= |cells|
    ensures n < |words| ==> EndOf(words, at, n) <= at[n] <= |cells| && RunAt(cells, at[n], words[n])
  {
    if n < |words| { assert RunAt(cells, at[n], words[n]); }
    if n > 0 { assert RunAt(cells, at[n - 1], words[n - 1]); }
    hide Within;
  }

  lemma {:induction false} WordsReached(cells: seq<Cell>, words: seq<Word>, at: seq<nat>, n: nat, limit: nat)
    returns (vis: seq<nat>, place: seq<nat>)
    requires RunsAre(cells, words, at) && n <= |words| && limit >= 1 && AllSolid(words) && NoEmptyWord(words)
    ensures Reached(cells, limit, OnScreen(PlaceWords(words[..n], limit)), EndOf(words, at, n), vis, place)
    decreases n
  {
    WordStarts(cells, words, at, n);
    if n == 0 {
      vis, place := [], [];
      NothingReached(cells, limit);
    } else {
      WordStarts(cells, words, at, n - 1);
      var w := PlaceWords(words[..n - 1], limit);
      vis, place := WordsReached(cells, words, at, n - 1, limit);
      FirstWordsFit(words, n - 1, limit);
      hide *;
      ToNextWord(cells, words, at, n - 1, limit, OnScreen(w), vis, place);
      vis, place := WordReached(cells, limit, w, at[n - 1], words[n - 1], vis, place);
      OneMoreWord(words, n, limit);
      EndIs(words, at, n);
    }
  }

  lemma EndIs(words: seq<Word>, at: seq<nat>, n: nat)
    requires 0 < n <= |words| == |at|
    ensures EndOf(words, at, n) == at[n - 1] + |words[n - 1]|
  {
  }

  lemma NothingReached(cells: seq<Cell>, limit: nat)
    ensures PlaceWords([], limit) == Wrapping([], []) && Reached(cells, limit, OnScreen(Wrapping([], [])), 0, [], [])
  {
  }

  lemma FirstWordsFit(words: seq<Word>, n: nat, limit: nat)
    requires n <= |words| && limit >= 1 && AllSolid(words) && NoEmptyWord(words)
    ensures WellFilled(PlaceWords(words[..n], limit), limit)
  {
    hide WellFilled, PlaceWords, Solid;
    PlaceWordsFit(words[..n], limit);
  }

  lemma ToNextWord(cells: seq<Cell>, words: seq<Word>, at: seq<nat>, n: nat, limit: nat, screen: seq<Option<Cell>>,
                   vis: seq<nat>, place: seq<nat>)
    requires RunsAre(cells, words, at) && n < |words| && EndOf(words, at, n) <= at[n] <= |cells|
    requires Reached(cells, limit, screen, EndOf(words, at, n), vis, place)
    ensures Reached(cells, limit, screen, at[n], vis, place)
  {
    hide RunAt, Within, Visibles, Placed, EndOf;
    BlanksPassed(cells, words, at, n, at[n], vis);
  }

  lemma OneMoreWord(words: seq<Word>, n: nat, limit: nat)
    requires 0 < n <= |words| && NoEmptyWord(words)
    ensures PlaceWords(words[..n], limit) == PlaceWord(PlaceWords(words[..n - 1], limit), words[n - 1], limit)
  {
    assert words[..n][..n - 1] == words[..n - 1];
    hide PlaceWord;
  }

  // For every input: the cells that are not blank stand on the screen in their order, from its
  // first place to its last. Neighbours in the line are neighbours in a row, unless they belong
  // to a run wider than a row; between others there is exactly one space, in the style of
  // what follows it, or the end of a row.
  lemma RowsKeepTheRuns(spans: seq<Span>, limit: int) returns (vis: seq<nat>, place: seq<nat>)
    ensures Visibles(LineCells(spans), |LineCells(spans)|, vis)
    ensures Placed(LineCells(spans), SafeLimit(limit), Screen(Wrapped(spans, limit)), vis, place)
  {
    var cells, safe := LineCells(spans), SafeLimit(limit);
    var words := Words(cells);
    ReadIsWhole(cells);
    LineSolid(spans);
    ReadSolid(cells);
    var at := WordsAreRuns(cells);
    assert words[..|words|] == words;
    assert Screen(Wrapped(spans, limit)) == OnScreen(PlaceWords(words, safe));
    hide *;
    vis, place := WordsReached(cells, words, at, |words|, safe);
    WordStarts(cells, words, at, |words|);
    ReachedIs(cells, safe, OnScreen(PlaceWords(words, safe)), EndOf(words, at, |words|), vis, place);
    BlanksPassed(cells, words, at, |words|, |cells|, vis);
  }

  lemma ReachedIs(cells: seq<Cell>, limit: nat, screen: seq<Option<Cell>>, e: nat, vis: seq<nat>, place: seq<nat>)
    requires Reached(cells, limit, screen, e, vis, place)
    ensures Placed(cells, limit, screen, vis, place) && Visibles(cells, e, vis)
  {
  }

  // ---- from spans to cells, and from rows to lines ----

  // The cells of a line are its bytes in their styles, in order.
  lemma {:induction false} CellsKeepInk(spans: seq<Span>)
    ensures CellInk(LineCells(spans)) == SpanInk(spans)
  {
    if spans != [] {
      var init, last := spans[..|spans| - 1], spans[|spans| - 1];
      CellsKeepInk(init);
      GlyphsKeepInk(last.text, last.style);
      hide GlyphsOf, CellInk;
      CellInkAppend(LineCells(init), GlyphsOf(last.text, last.style));
    }
  }

  lemma {:induction false} GlyphsKeepInk(text: Bytes, style: Style)
    ensures CellInk(GlyphsOf(text, style)) == Inked(text, style)
    decreases |text|
  {
    if text != [] {
      var n := HeadGlyph(text);
      var head, rest := text[..n], text[n..];
      assert text == head + rest;
      assert GlyphsOf(text, style) == [Cell(head, style)] + GlyphsOf(rest, style);
      hide *;
      GlyphsKeepInk(rest, style);
      CellInkAppend([Cell(head, style)], GlyphsOf(rest, style));
      InkedAppend(head, rest, style);
      OneCellInk(Cell(head, style));
    }
  }

  lemma OneCellInk(c: Cell)
    ensures CellInk([c]) == Inked(c.glyph, c.style)
  {
    assert [c][..0] == [] && CellInk([]) == [];
    hide Inked;
  }

  lemma {:induction false} CellInkAppend(a: seq<Cell>, b: seq<Cell>)
    ensures CellInk(a + b) == CellInk(a) + CellInk(b)
  {
    if b == [] {
      assert a + b == a;
      assert CellInk(a) + [] == CellInk(a);
    } else {
      var init, c := b[..|b| - 1], b[|b| - 1];
      assert (a + b)[..|a + b| - 1] == a + init;
      CellInkAppend(a, init);
      ConcatAssoc(CellInk(a), CellInk(init), Inked(c.glyph, c.style));
      hide Inked;
    }
  }

  // Each cell of valid text is one character.
  lemma {:induction false} CellsAreChars(text: Bytes, style: Style)
    requires WellFormed(text)
    ensures forall i :: 0 <= i < |GlyphsOf(text, style)| ==> IsChar(GlyphsOf(text, style)[i].glyph)
    decreases |text|
  {
    if text != [] {
      P.GlyphIsChar(text);
      CellsAreChars(text[HeadGlyph(text)..], style);
      hide IsChar, HeadGlyph;
    }
  }

  // Each row becomes one line with the gutter of the input and the ink of its cells.
  lemma {:induction false} LinesShowRows(rows: seq<Row>, gutter: bool)
    ensures |Rendered(rows, gutter)| == |rows|
    ensures forall k :: 0 <= k < |rows| ==>
              Rendered(rows, gutter)[k].gutter == gutter
              && SpanInk(Rendered(rows, gutter)[k].spans) == CellInk(rows[k])
  {
    if rows != [] {
      LinesShowRows(rows[..|rows| - 1], gutter);
      MergingKeepsInk(rows[|rows| - 1]);
      hide Merged, SpanInk, CellInk;
    }
  }

  // Only spaces and tabs are blank.
  lemma BlankIff(c: Cell)
    ensures Blank(c) <==> c.glyph == [0x20] || c.glyph == [0x09]
  {
  }

  // Every row leaves the last column free; without a known width a line has 100 columns.
  lemma RowsFitScreen(spans: seq<Span>, limit: int, k: nat)
    requires k < |Wrapped(spans, limit)|
    ensures limit >= 3 ==> Width(Wrapped(spans, limit)[k]) < limit
    ensures 1 <= limit <= 2 ==> Width(Wrapped(spans, limit)[k]) <= 1 || |Wrapped(spans, limit)[k]| == 1
    ensures limit <= 0 ==> Width(Wrapped(spans, limit)[k]) < 100
  {
    RowsFit(spans, limit);
    hide Wrapped, Width;
    assert Fits(Wrapped(spans, limit)[k], SafeLimit(limit));
  }
}
