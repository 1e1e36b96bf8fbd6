// src/tui/prompt_editor.h: the editing state machine of the prompt and its wrapping into rows.
module PromptEditor {
  import opened Bytes
  import opened Glyphs
  import opened Utf8

  // content_, cursor_ and sel_anchor_, with None for -1.
  datatype Editor = Editor(content: Bytes, cursor: nat, anchor: Option<nat>)

  // ---- wrap ----

  datatype Row = Row(start: nat, end: nat, width: nat)

  // The loop of wrap() from byte `i` on.
  function WrapFrom(s: Bytes, limit: nat, rows: seq<Row>, start: nat, width: nat, i: nat): seq<Row>
    decreases |s| - i
  {
    if i >= |s| then rows + [Row(start, i, width)]
    else if s[i] == LF then WrapFrom(s, limit, rows + [Row(start, i, width)], i + 1, 0, i + 1)
    else
      var gw := GlyphWidth(s[i]);
      if width > 0 && width + gw > limit
      then WrapFrom(s, limit, rows + [Row(start, i, width)], i, gw, i + GlyphLen(s[i]))
      else WrapFrom(s, limit, rows, start, width + gw, i + GlyphLen(s[i]))
  }

  function WrapRows(s: Bytes, avail: int): (rows: seq<Row>)
    ensures rows != []
  {
    if s == [] then [Row(0, 0, 0)]
    else
      var rows := WrapFrom(s, Limit(avail), [], 0, 0, 0);
      WrapNotEmpty(s, Limit(avail), [], 0, 0, 0);
      rows
  }

  function Limit(avail: int): nat { if avail > 0 then avail else 1 }

  lemma {:induction false} WrapNotEmpty(s: Bytes, limit: nat, rows: seq<Row>, start: nat, width: nat, i: nat)
    ensures WrapFrom(s, limit, rows, start, width, i) != []
    decreases |s| - i
  {
    if i < |s| {
      var gw := GlyphWidth(s[i]);
      if s[i] == LF {
        WrapNotEmpty(s, limit, rows + [Row(start, i, width)], i + 1, 0, i + 1);
      } else if width > 0 && width + gw > limit {
        WrapNotEmpty(s, limit, rows + [Row(start, i, width)], i, gw, i + GlyphLen(s[i]));
      } else {
        WrapNotEmpty(s, limit, rows, start, width + gw, i + GlyphLen(s[i]));
      }
    }
  }

  method Wrap(s: Bytes, avail: int) returns (rows: seq<Row>)
    ensures rows == WrapRows(s, avail)
  {
    if s == [] { return [Row(0, 0, 0)]; }
    var limit := if avail > 0 then avail else 1;
    rows := [];
    var start: nat, width: nat, i: nat := 0, 0, 0;
    while i < |s|
      invariant WrapFrom(s, limit, rows, start, width, i) == WrapFrom(s, limit, [], 0, 0, 0)
    {
      if s[i] == LF {
        rows := rows + [Row(start, i, width)];
        i := i + 1;
        start, width := i, 0;
      } else {
        var gw := GlyphWidth(s[i]);
        if width > 0 && width + gw > limit {
          rows := rows + [Row(start, i, width)];
          start, width := i, 0;
        }
        width := width + gw;
        i := i + GlyphLen(s[i]);
      }
    }
    rows := rows + [Row(start, i, width)];
  }

  // pe_string_width
  function StringWidth(s: Bytes): nat
    decreases |s|
  {
    if s == [] then 0 else GlyphWidth(s[0]) + StringWidth(s[HeadGlyph(s)..])
  }

  // ---- glyphs of valid text ----

  lemma GlyphIsChar(s: Bytes)
    requires s != [] && WellFormed(s)
    ensures HeadGlyph(s) == GlyphLen(s[0]) == HeadLen(s) && IsChar(s[..HeadLen(s)])
  {
    assert s[..HeadLen(s)][0] == s[0];
  }

  // The glyph at a boundary is one character, and ends at a boundary.
  lemma NextBoundary(s: Bytes, pos: nat)
    requires Boundary(s, pos) && pos < |s|
    ensures pos + GlyphLen(s[pos]) <= |s| && Boundary(s, pos + GlyphLen(s[pos]))
    ensures IsChar(s[pos..pos + GlyphLen(s[pos])])
  {
    var rest, n := s[pos..], GlyphLen(s[pos]);
    GlyphIsChar(rest);
    CharIsWellFormed(rest[..n]);
    hide IsChar, HeadLen;
    assert s[..pos + n] == s[..pos] + rest[..n] && s[pos + n..] == rest[n..] && s[pos..pos + n] == rest[..n];
    WellFormedAppend(s[..pos], rest[..n]);
    TailWellFormed(rest, n);
  }

  lemma TailWellFormed(s: Bytes, n: nat)
    requires n <= |s| && WellFormed(s) && WellFormed(s[..n])
    ensures WellFormed(s[n..])
  {
    WellFormedAppend(s[..n], s[n..]);
    assert s == s[..n] + s[n..];
  }

  lemma BoundaryIsWhole(s: Bytes, pos: nat)
    requires Boundary(s, pos)
    ensures WellFormed(s)
  {
    WellFormedAppend(s[..pos], s[pos..]);
    assert s == s[..pos] + s[pos..];
  }

  lemma Ends(s: Bytes)
    requires WellFormed(s)
    ensures Boundary(s, 0) && Boundary(s, |s|)
  {
    assert s[..0] == [] && s[0..] == s && s[..|s|] == s && s[|s|..] == [];
  }

  // pe_glyph_back
  function GlyphBack(s: Bytes, pos: nat): (prev: nat)
    requires pos <= |s|
    ensures prev <= pos && (pos > 0 ==> prev < pos)
  {
    if pos == 0 then 0 else CutBack(s, pos - 1)
  }

  // The glyph before a boundary starts at a boundary and is one character.
  lemma PrevBoundary(s: Bytes, pos: nat)
    requires Boundary(s, pos) && pos > 0
    ensures Boundary(s, GlyphBack(s, pos)) && IsChar(s[GlyphBack(s, pos)..pos])
    ensures GlyphBack(s, pos) + GlyphLen(s[GlyphBack(s, pos)]) == pos
  {
    var prev := GlyphBack(s, pos);
    BoundaryIsWhole(s, pos);
    if prev == 0 { Ends(s); } else { BoundaryIffNotTail(s, prev); }
    NextBoundary(s, prev);
    var next := prev + GlyphLen(s[prev]);
    if next < pos {
      BoundaryIffNotTail(s, next);
    } else if next > pos {
      BoundaryIffNotTail(s, pos);
      CharInside(s[prev..next], pos - prev);
    }
    hide IsChar, WellFormed;
  }

  // Inside a character there are only continuation bytes.
  lemma CharInside(c: Bytes, k: nat)
    requires IsChar(c) && 0 < k < |c|
    ensures IsTail(c[k])
  {
  }

  // ---- the rows tile the text ----

  predicate NoNewline(s: Bytes, lo: nat, hi: nat) { forall k :: lo <= k < hi && k < |s| ==> s[k] != LF }

  // A stretch of whole glyphs on one line, as wide as it says, and within the limit unless it
  // is one glyph.
  predicate RowOk(s: Bytes, limit: nat, r: Row) {
    && r.start <= r.end <= |s| && Boundary(s, r.start) && Boundary(s, r.end)
    && NoNewline(s, r.start, r.end) && r.width == StringWidth(s[r.start..r.end])
    && (r.width <= limit || IsChar(s[r.start..r.end]))
  }

  // The next row starts after a newline, or where the next glyph would not have fitted.
  predicate Follows(s: Bytes, limit: nat, r: Row, next: nat) {
    || (r.end < |s| && s[r.end] == LF && next == r.end + 1)
    || (r.end < |s| && s[r.end] != LF && next == r.end && r.start < r.end && r.width + GlyphWidth(s[r.end]) > limit)
  }

  predicate Chained(s: Bytes, limit: nat, rows: seq<Row>, next: nat) {
    && (forall k :: 0 <= k < |rows| ==> RowOk(s, limit, rows[k]))
    && (forall k :: 0 < k < |rows| ==> Follows(s, limit, rows[k - 1], rows[k].start))
    && (if rows == [] then next == 0 else rows[0].start == 0 && Follows(s, limit, rows[|rows| - 1], next))
  }

  // The rows cover the text from end to end.
  predicate Tiles(s: Bytes, limit: nat, rows: seq<Row>) {
    && rows != [] && rows[0].start == 0 && rows[|rows| - 1].end == |s|
    && (forall k :: 0 <= k < |rows| ==> RowOk(s, limit, rows[k]))
    && (forall k :: 0 < k < |rows| ==> Follows(s, limit, rows[k - 1], rows[k].start))
  }

  lemma {:induction false} StringWidthAppend(a: Bytes, c: Bytes)
    requires WellFormed(a) && IsChar(c)
    ensures StringWidth(a + c) == StringWidth(a) + GlyphWidth(c[0])
    decreases |a|
  {
    if a == [] {
      CharGlyph(c, []);
      assert a + c == c && c + [] == c;
      assert c[|c|..] == [];
    } else {
      GlyphIsChar(a);
      var n := HeadLen(a);
      assert a + c == a[..n] + (a[n..] + c);
      CharGlyph(a[..n], a[n..] + c);
      StringWidthAppend(a[n..], c);
      assert (a + c)[n..] == a[n..] + c && (a + c)[0] == a[0];
    }
  }

  lemma CharGlyph(c: Bytes, rest: Bytes)
    requires IsChar(c)
    ensures HeadGlyph(c + rest) == |c| && GlyphLen(c[0]) == |c|
  {
  }

  // A character of one byte takes one column, any other two.
  lemma CharWidth(c: Bytes)
    requires IsChar(c)
    ensures StringWidth(c) == if |c| == 1 then 1 else 2
  {
    assert c[|c|..] == [];
    StringWidthAppend([], c);
    assert [] + c == c;
  }

  lemma ChainSnoc(s: Bytes, limit: nat, rows: seq<Row>, r: Row, next: nat)
    requires Chained(s, limit, rows, r.start) && RowOk(s, limit, r) && Follows(s, limit, r, next)
    ensures Chained(s, limit, rows + [r], next)
  {
    hide RowOk, Follows;
    var more := rows + [r];
    forall k | 0 < k < |more| ensures Follows(s, limit, more[k - 1], more[k].start) { }
  }

  // One glyph more on the row.
  lemma RowGrows(s: Bytes, limit: nat, r: Row)
    requires RowOk(s, limit, r) && r.end < |s| && s[r.end] != LF
    requires r.width > 0 ==> r.width + GlyphWidth(s[r.end]) <= limit
    ensures RowOk(s, limit, Row(r.start, r.end + GlyphLen(s[r.end]), r.width + GlyphWidth(s[r.end])))
  {
    var lo, mid, n := r.start, r.end, GlyphLen(s[r.end]);
    assert Boundary(s, lo) && NoNewline(s, lo, mid) && r.width == StringWidth(s[lo..mid]);
    NextBoundary(s, mid);
    hide *;
    WidthGrows(s, lo, mid, mid + n);
    CharLine(s, mid, n);
    NoNewlineJoin(s, lo, mid, mid + n);
    NoWidth(s[lo..mid]);
    SliceJoin(s, lo, mid, mid + n);
    MakeRow(s, limit, Row(lo, mid + n, r.width + GlyphWidth(s[mid])));
  }

  lemma WidthGrows(s: Bytes, lo: nat, mid: nat, hi: nat)
    requires lo <= mid < hi && Boundary(s, lo) && Boundary(s, mid) && hi <= |s| && IsChar(s[mid..hi])
    ensures StringWidth(s[lo..hi]) == StringWidth(s[lo..mid]) + GlyphWidth(s[mid])
  {
    SliceWellFormed(s, lo, mid);
    hide *;
    StringWidthAppend(s[lo..mid], s[mid..hi]);
    SliceJoin(s, lo, mid, hi);
    assert s[mid..hi][0] == s[mid];
  }

  lemma NoNewlineJoin(s: Bytes, lo: nat, mid: nat, hi: nat)
    requires lo <= mid <= hi && NoNewline(s, lo, mid) && NoNewline(s, mid, hi)
    ensures NoNewline(s, lo, hi)
  {
  }

  lemma MakeRow(s: Bytes, limit: nat, r: Row)
    requires r.start <= r.end <= |s| && Boundary(s, r.start) && Boundary(s, r.end)
    requires NoNewline(s, r.start, r.end) && r.width == StringWidth(s[r.start..r.end])
    requires r.width <= limit || IsChar(s[r.start..r.end])
    ensures RowOk(s, limit, r)
  {
  }

  lemma NoWidth(s: Bytes)
    ensures StringWidth(s) == 0 ==> s == []
  {
  }

  lemma SliceJoin(s: Bytes, lo: nat, mid: nat, hi: nat)
    requires lo <= mid <= hi <= |s|
    ensures s[lo..hi] == s[lo..mid] + s[mid..hi]
    ensures s[lo..mid] == [] ==> s[lo..hi] == s[mid..hi]
  {
  }

  lemma SliceWellFormed(s: Bytes, lo: nat, hi: nat)
    requires lo <= hi && Boundary(s, lo) && Boundary(s, hi)
    ensures WellFormed(s[lo..hi])
  {
    assert s[lo..hi] == s[..hi][lo..] && s[..hi][..lo] == s[..lo];
    TailWellFormed(s[..hi], lo);
  }

  lemma CharLine(s: Bytes, pos: nat, n: nat)
    requires pos + n <= |s| && IsChar(s[pos..pos + n]) && s[pos] != LF
    ensures NoNewline(s, pos, pos + n)
  {
    var c := s[pos..pos + n];
    forall k | pos <= k < pos + n ensures s[k] != LF {
      assert s[k] == c[k - pos];
      if k > pos { CharInside(c, k - pos); }
    }
  }

  lemma EmptyRow(s: Bytes, limit: nat, start: nat)
    requires Boundary(s, start)
    ensures RowOk(s, limit, Row(start, start, 0))
  {
    assert s[start..start] == [];
  }

  lemma AfterNewline(s: Bytes, i: nat)
    requires Boundary(s, i) && i < |s| && s[i] == LF
    ensures Boundary(s, i + 1)
  {
    NextBoundary(s, i);
  }

  lemma WidthPositive(s: Bytes, limit: nat, r: Row)
    requires RowOk(s, limit, r) && r.width > 0
    ensures r.start < r.end
  {
    EmptySlice(s, r.start, r.end);
  }

  lemma EmptySlice(s: Bytes, lo: nat, hi: nat)
    requires lo <= hi <= |s|
    ensures lo == hi ==> StringWidth(s[lo..hi]) == 0
  {
    assert lo == hi ==> s[lo..hi] == [];
  }

  lemma RowEnds(s: Bytes, limit: nat, r: Row)
    requires RowOk(s, limit, r)
    ensures r.end <= |s| && Boundary(s, r.end)
  {
  }

  lemma HardBreak(s: Bytes, limit: nat, r: Row)
    requires r.end < |s| && s[r.end] == LF
    ensures Follows(s, limit, r, r.end + 1)
  {
  }

  lemma SoftBreak(s: Bytes, limit: nat, r: Row)
    requires RowOk(s, limit, r) && r.end < |s| && s[r.end] != LF
    requires r.width > 0 && r.width + GlyphWidth(s[r.end]) > limit
    ensures Follows(s, limit, r, r.end)
  {
    WidthPositive(s, limit, r);
  }

  lemma {:induction false} WrapTiles(s: Bytes, limit: nat, rows: seq<Row>, start: nat, width: nat, i: nat)
    requires WellFormed(s) && Chained(s, limit, rows, start) && RowOk(s, limit, Row(start, i, width))
    ensures Tiles(s, limit, WrapFrom(s, limit, rows, start, width, i))
    decreases |s| - i
  {
    var r := Row(start, i, width);
    hide WellFormed, IsChar, StringWidth, RowOk, Follows, Chained, Tiles, Boundary, NoNewline, GlyphLen, GlyphWidth;
    RowEnds(s, limit, r);
    if i >= |s| {
      LastRow(s, limit, rows, r);
    } else if s[i] == LF {
      HardBreak(s, limit, r);
      ChainSnoc(s, limit, rows, r, i + 1);
      AfterNewline(s, i);
      EmptyRow(s, limit, i + 1);
      WrapTiles(s, limit, rows + [r], i + 1, 0, i + 1);
    } else {
      var gw := GlyphWidth(s[i]);
      if width > 0 && width + gw > limit {
        SoftBreak(s, limit, r);
        ChainSnoc(s, limit, rows, r, i);
        EmptyRow(s, limit, i);
        RowGrows(s, limit, Row(i, i, 0));
        WrapTiles(s, limit, rows + [r], i, gw, i + GlyphLen(s[i]));
      } else {
        RowGrows(s, limit, r);
        WrapTiles(s, limit, rows, start, width + gw, i + GlyphLen(s[i]));
      }
    }
  }

  lemma LastRow(s: Bytes, limit: nat, rows: seq<Row>, r: Row)
    requires Chained(s, limit, rows, r.start) && RowOk(s, limit, r) && r.end == |s|
    ensures Tiles(s, limit, rows + [r])
  {
    hide RowOk, Follows;
    var more := rows + [r];
    forall k | 0 < k < |more| ensures Follows(s, limit, more[k - 1], more[k].start) { }
  }

  // Wrapped rows tile valid text, with only newlines between hard rows; each is within the
  // limit or a single glyph, and breaks no earlier than it must.
  lemma RowsTile(s: Bytes, avail: int)
    requires WellFormed(s)
    ensures Tiles(s, Limit(avail), WrapRows(s, avail))
    ensures Limit(avail) == if avail >= 1 then avail else 1
  {
    Ends(s);
    EmptyRow(s, Limit(avail), 0);
    if s != [] { WrapTiles(s, Limit(avail), [], 0, 0, 0); }
  }

  // ---- cursor_position ----

  // The first row that holds byte `cur`, or the number of rows.
  function RowOfByte(rows: seq<Row>, cur: nat, k: nat): (r: nat)
    requires k <= |rows|
    ensures k <= r <= |rows|
    ensures r < |rows| ==> rows[r].start <= cur <= rows[r].end
    ensures forall j :: k <= j < r ==> !(rows[j].start <= cur <= rows[j].end)
    decreases |rows| - k
  {
    if k == |rows| || rows[k].start <= cur <= rows[k].end then k else RowOfByte(rows, cur, k + 1)
  }

  // In tiled text every cursor is on a row.
  lemma {:induction false} ByteHasRow(s: Bytes, limit: nat, rows: seq<Row>, cur: nat, k: nat)
    requires Tiles(s, limit, rows) && cur <= |s| && k < |rows| && rows[k].start <= cur
    ensures exists r :: k <= r < |rows| && rows[r].start <= cur <= rows[r].end
    decreases |rows| - k
  {
    if cur <= rows[k].end {
      assert rows[k].start <= cur <= rows[k].end;
    } else {
      assert RowOk(s, limit, rows[k]);
      assert k + 1 < |rows| && Follows(s, limit, rows[k], rows[k + 1].start);
      ByteHasRow(s, limit, rows, cur, k + 1);
    }
  }

  lemma CursorHasRow(s: Bytes, avail: int, cur: nat)
    requires WellFormed(s) && cur <= |s|
    ensures RowOfByte(WrapRows(s, avail), cur, 0) < |WrapRows(s, avail)|
  {
    RowsTile(s, avail);
    ByteHasRow(s, Limit(avail), WrapRows(s, avail), cur, 0);
  }

  // Whether a row holds the cursor; the row, and the column within it.
  method CursorPosition(s: Bytes, rows: seq<Row>, cursor: nat) returns (found: bool, row: nat, col: nat)
    requires rows != [] && forall k :: 0 <= k < |rows| ==> rows[k].start <= rows[k].end <= |s|
    ensures found <==> RowOfByte(rows, cursor, 0) < |rows|
    ensures found ==> row == RowOfByte(rows, cursor, 0) && col == StringWidth(s[rows[row].start..cursor])
    ensures !found ==> row == |rows| - 1 && col == StringWidth(s[rows[row].start..rows[row].end])
  {
    var r := 0;
    while r < |rows|
      invariant r <= |rows| && RowOfByte(rows, cursor, 0) == RowOfByte(rows, cursor, r)
    {
      if rows[r].start <= cursor <= rows[r].end {
        col := MeasureWidth(s[rows[r].start..cursor]);
        return true, r, col;
      }
      r := r + 1;
    }
    var last := rows[|rows| - 1];
    col := MeasureWidth(s[last.start..last.end]);
    return false, |rows| - 1, col;
  }

  method MeasureWidth(s: Bytes) returns (w: nat)
    ensures w == StringWidth(s)
  {
    w := 0;
    var i := 0;
    assert s[0..] == s;
    while i < |s|
      invariant i <= |s| && w + StringWidth(s[i..]) == StringWidth(s)
    {
      var n := if i + GlyphLen(s[i]) <= |s| then GlyphLen(s[i]) else |s| - i;
      assert s[i..][HeadGlyph(s[i..])..] == s[i + n..];
      w := w + GlyphWidth(s[i]);
      i := i + n;
    }
  }

  // ---- the events ----

  // The selection is anchored nowhere or at the start of the text.
  predicate Valid(e: Editor) { Boundary(e.content, e.cursor) && (e.anchor.Some? ==> e.anchor.value == 0) }

  // Replaced is what the owner of the text does to it: clearing it on submit, recalling history.
  datatype Event =
    | Typed(c: Bytes)
    | Newline
    | Backspace
    | Delete
    | Left
    | Right
    | Up
    | Down
    | Home
    | End
    | SelectAll
    | Click(row: nat, col: nat)
    | Replaced(content: Bytes, cursor: nat)

  // The terminal library delivers whole characters; the owner of the text keeps it valid.
  predicate Possible(ev: Event) {
    match ev
    case Typed(c) => WellFormed(c)
    case Replaced(content, cursor) => Boundary(content, cursor)
    case _ => true
  }

  predicate SelActive(e: Editor) { e.anchor.Some? && e.anchor.value != e.cursor }

  function Without(s: Bytes, lo: nat, hi: nat): Bytes
    requires lo <= hi <= |s|
  {
    s[..lo] + s[hi..]
  }

  function EraseSelection(e: Editor): Editor
    requires Valid(e)
  {
    if SelActive(e) then Editor(Without(e.content, 0, e.cursor), 0, None) else e
  }

  function Insert(e: Editor, c: Bytes): Editor
    requires Valid(e)
  {
    var x := EraseSelection(e);
    if SelActive(e) then Editor(c + x.content, |c|, None)
    else Editor(x.content[..x.cursor] + c + x.content[x.cursor..], x.cursor + |c|, x.anchor)
  }

  function DoBackspace(e: Editor): Editor
    requires Valid(e)
  {
    if SelActive(e) then EraseSelection(e)
    else if e.cursor == 0 then e
    else
      var prev := GlyphBack(e.content, e.cursor);
      Editor(Without(e.content, prev, e.cursor), prev, e.anchor)
  }

  function DoDelete(e: Editor): Editor
    requires Valid(e)
  {
    if SelActive(e) then EraseSelection(e)
    else if e.cursor >= |e.content| then e
    else
      NextBoundary(e.content, e.cursor);
      Editor(Without(e.content, e.cursor, e.cursor + GlyphLen(e.content[e.cursor])), e.cursor, e.anchor)
  }

  function DoLeft(e: Editor): Editor
    requires Valid(e)
  {
    Editor(e.content, GlyphBack(e.content, e.cursor), None)
  }

  function DoRight(e: Editor): Editor
    requires Valid(e)
  {
    Editor(e.content, if e.cursor < |e.content| then e.cursor + GlyphLen(e.content[e.cursor]) else e.cursor, None)
  }

  function DoSelectAll(e: Editor): Editor { Editor(e.content, |e.content|, Some(0)) }

  // The byte of a row at column `col`, or the last before it.
  function Landing(s: Bytes, pos: nat, end: nat, w: nat, col: nat): nat
    requires end <= |s|
    decreases end - pos
  {
    if pos >= end || w + GlyphWidth(s[pos]) > col then pos
    else Landing(s, pos + GlyphLen(s[pos]), end, w + GlyphWidth(s[pos]), col)
  }

  function RowAt(e: Editor, avail: int): (r: nat)
    ensures r < |WrapRows(e.content, avail)|
  {
    var rows := WrapRows(e.content, avail);
    var r := RowOfByte(rows, e.cursor, 0);
    if r < |rows| then r else |rows| - 1
  }

  function ColumnAt(e: Editor, avail: int): nat
    requires Valid(e)
  {
    var r := WrapRows(e.content, avail)[RowAt(e, avail)];
    BoundaryIsWhole(e.content, e.cursor);
    CursorHasRow(e.content, avail, e.cursor);
    StringWidth(e.content[r.start..e.cursor])
  }

  function AtRow(e: Editor, avail: int, row: int, col: nat): Editor
    requires Valid(e)
  {
    var rows := WrapRows(e.content, avail);
    BoundaryIsWhole(e.content, e.cursor);
    RowsTile(e.content, avail);
    if 0 <= row < |rows| then
      assert RowOk(e.content, Limit(avail), rows[row]);
      Editor(e.content, Landing(e.content, rows[row].start, rows[row].end, 0, col), None)
    else e.(anchor := None)
  }

  function DoVertical(e: Editor, avail: int, dir: int): Editor
    requires Valid(e)
  {
    AtRow(e, avail, RowAt(e, avail) + dir, ColumnAt(e, avail))
  }

  function DoHome(e: Editor, avail: int): Editor {
    Editor(e.content, WrapRows(e.content, avail)[RowAt(e, avail)].start, None)
  }

  function DoEnd(e: Editor, avail: int): Editor {
    Editor(e.content, WrapRows(e.content, avail)[RowAt(e, avail)].end, None)
  }

  // The editor after an event, `avail` columns wide.
  function After(e: Editor, ev: Event, avail: int): Editor
    requires Valid(e)
  {
    match ev
    case Typed(c) => Insert(e, c)
    case Newline => Insert(e, [LF])
    case Backspace => DoBackspace(e)
    case Delete => DoDelete(e)
    case Left => DoLeft(e)
    case Right => DoRight(e)
    case Up => DoVertical(e, avail, -1)
    case Down => DoVertical(e, avail, 1)
    case Home => DoHome(e, avail)
    case End => DoEnd(e, avail)
    case SelectAll => DoSelectAll(e)
    case Click(row, col) => AtRow(e, avail, row, col)
    case Replaced(content, cursor) => Editor(content, cursor, e.anchor)
  }

  // ---- every event keeps the text valid and the cursor on a glyph boundary ----

  lemma WithoutBoundary(s: Bytes, lo: nat, hi: nat)
    requires lo <= hi && Boundary(s, lo) && Boundary(s, hi)
    ensures Boundary(Without(s, lo, hi), lo)
  {
    var w := Without(s, lo, hi);
    assert w[..lo] == s[..lo] && w[lo..] == s[hi..];
    hide WellFormed;
  }

  lemma InsertBoundary(s: Bytes, pos: nat, c: Bytes)
    requires Boundary(s, pos) && WellFormed(c)
    ensures Boundary(s[..pos] + c + s[pos..], pos + |c|)
  {
    var w := s[..pos] + c + s[pos..];
    assert w[..pos + |c|] == s[..pos] + c && w[pos + |c|..] == s[pos..];
    WellFormedAppend(s[..pos], c);
    hide WellFormed;
  }

  lemma EraseValid(e: Editor)
    requires Valid(e)
    ensures Valid(EraseSelection(e))
  {
    BoundaryIsWhole(e.content, e.cursor);
    Ends(e.content);
    hide WellFormed, Boundary;
    if SelActive(e) { WithoutBoundary(e.content, 0, e.cursor); }
  }

  lemma InsertValid(e: Editor, c: Bytes)
    requires Valid(e) && WellFormed(c)
    ensures Valid(Insert(e, c))
  {
    EraseValid(e);
    var x := EraseSelection(e);
    hide WellFormed;
    InsertBoundary(x.content, x.cursor, c);
    if SelActive(e) {
      assert x.content[..0] == [] && x.content[0..] == x.content && [] + c == c;
    }
  }

  lemma {:induction false} LandingBoundary(s: Bytes, pos: nat, end: nat, w: nat, col: nat)
    requires pos <= end && Boundary(s, pos) && Boundary(s, end)
    ensures pos <= Landing(s, pos, end, w, col) <= end && Boundary(s, Landing(s, pos, end, w, col))
    decreases end - pos
  {
    if pos < end && w + GlyphWidth(s[pos]) <= col {
      NextBoundary(s, pos);
      NoBoundaryInside(s, pos, end);
      hide WellFormed, IsChar, Boundary;
      LandingBoundary(s, pos + GlyphLen(s[pos]), end, w + GlyphWidth(s[pos]), col);
    }
  }

  // The next boundary is not past any later boundary.
  lemma NoBoundaryInside(s: Bytes, pos: nat, end: nat)
    requires pos < end && Boundary(s, pos) && Boundary(s, end)
    ensures pos + GlyphLen(s[pos]) <= end
  {
    NextBoundary(s, pos);
    var next := pos + GlyphLen(s[pos]);
    if next > end {
      BoundaryIsWhole(s, pos);
      BoundaryIffNotTail(s, end);
      CharInside(s[pos..next], end - pos);
      hide IsChar, WellFormed;
    }
  }

  lemma RowValid(e: Editor, avail: int, row: int, col: nat)
    requires Valid(e)
    ensures Valid(AtRow(e, avail, row, col))
    ensures Valid(DoHome(e, avail)) && Valid(DoEnd(e, avail))
  {
    var rows := WrapRows(e.content, avail);
    BoundaryIsWhole(e.content, e.cursor);
    RowsTile(e.content, avail);
    assert RowOk(e.content, Limit(avail), rows[RowAt(e, avail)]);
    hide WrapRows, Boundary, WellFormed, StringWidth;
    if 0 <= row < |rows| {
      assert RowOk(e.content, Limit(avail), rows[row]);
      LandingBoundary(e.content, rows[row].start, rows[row].end, 0, col);
    }
  }

  lemma DeleteValid(e: Editor)
    requires Valid(e)
    ensures Valid(DoBackspace(e)) && Valid(DoDelete(e))
  {
    EraseValid(e);
    if !SelActive(e) {
      if e.cursor > 0 {
        PrevBoundary(e.content, e.cursor);
        WithoutBoundary(e.content, GlyphBack(e.content, e.cursor), e.cursor);
      }
      if e.cursor < |e.content| {
        NextBoundary(e.content, e.cursor);
        WithoutBoundary(e.content, e.cursor, e.cursor + GlyphLen(e.content[e.cursor]));
      }
    }
    hide Boundary, IsChar;
  }

  lemma BoundaryInRange(s: Bytes, pos: nat)
    requires Boundary(s, pos)
    ensures pos <= |s|
  {
  }

  lemma GlyphBackAtStart(s: Bytes)
    ensures GlyphBack(s, 0) == 0
  {
  }

  lemma ArrowValid(e: Editor)
    requires Valid(e)
    ensures Valid(DoLeft(e)) && Valid(DoRight(e)) && Valid(DoSelectAll(e))
  {
    BoundaryInRange(e.content, e.cursor);
    hide Boundary, IsChar, WellFormed, GlyphLen, GlyphBack;
    BoundaryIsWhole(e.content, e.cursor);
    Ends(e.content);
    GlyphBackAtStart(e.content);
    if e.cursor > 0 { PrevBoundary(e.content, e.cursor); }
    if e.cursor < |e.content| { NextBoundary(e.content, e.cursor); }
  }

  lemma AfterValid(e: Editor, ev: Event, avail: int)
    requires Valid(e) && Possible(ev)
    ensures Valid(After(e, ev, avail))
  {
    match ev
    case Typed(c) => InsertValid(e, c);
    case Newline => CharIsWellFormed([LF]); InsertValid(e, [LF]);
    case Backspace => DeleteValid(e);
    case Delete => DeleteValid(e);
    case Left => ArrowValid(e);
    case Right => ArrowValid(e);
    case SelectAll => ArrowValid(e);
    case Up => RowValid(e, avail, RowAt(e, avail) - 1, ColumnAt(e, avail));
    case Down => RowValid(e, avail, RowAt(e, avail) + 1, ColumnAt(e, avail));
    case Home => RowValid(e, avail, 0, 0);
    case End => RowValid(e, avail, 0, 0);
    case Click(row, col) => RowValid(e, avail, row, col);
    case Replaced(_, _) =>
  }

  // One event, with the width of the box when it came.
  datatype Input = Input(ev: Event, avail: int)

  function Play(e: Editor, inputs: seq<Input>): (f: Editor)
    requires Valid(e) && forall i :: 0 <= i < |inputs| ==> Possible(inputs[i].ev)
    ensures Valid(f)
    decreases |inputs|
  {
    if inputs == [] then e
    else
      var before := Play(e, inputs[..|inputs| - 1]);
      AfterValid(before, inputs[|inputs| - 1].ev, inputs[|inputs| - 1].avail);
      After(before, inputs[|inputs| - 1].ev, inputs[|inputs| - 1].avail)
  }

  // In every sequence of events the text stays valid UTF-8, the cursor stays in range on a
  // glyph boundary, and the cursor has a row.
  lemma EditingStaysValid(inputs: seq<Input>, avail: int)
    requires forall i :: 0 <= i < |inputs| ==> Possible(inputs[i].ev)
    ensures var e := Editor([], 0, None);
            && Valid(e) && Octets(Play(e, inputs).content)
            && Boundary(Play(e, inputs).content, Play(e, inputs).cursor)
            && RowOfByte(WrapRows(Play(e, inputs).content, avail), Play(e, inputs).cursor, 0)
               < |WrapRows(Play(e, inputs).content, avail)|
  {
    var e := Editor([], 0, None);
    Ends([]);
    var f := Play(e, inputs);
    hide Play, WrapRows, RowOfByte;
    BoundaryIsWhole(f.content, f.cursor);
    OctetsIsWellFormed(f.content);
    CursorHasRow(f.content, avail, f.cursor);
  }

  // ---- events that undo each other ----

  lemma BackFromNext(s: Bytes, pos: nat)
    requires Boundary(s, pos) && pos < |s|
    ensures pos + GlyphLen(s[pos]) <= |s| && GlyphBack(s, pos + GlyphLen(s[pos])) == pos
  {
    NextBoundary(s, pos);
    var next := pos + GlyphLen(s[pos]);
    PrevBoundary(s, next);
    var prev := GlyphBack(s, next);
    if prev > pos { NoBoundaryInside(s, pos, prev); }
    BoundaryIsWhole(s, pos);
    BoundaryIffNotTail(s, pos);
    hide IsChar, WellFormed, Boundary;
  }

  // Right then Left comes back exactly when there was a glyph to the right, or nothing at all.
  lemma RightThenLeft(e: Editor)
    requires Valid(e)
    ensures Valid(DoRight(e)) && DoLeft(DoRight(e)).content == e.content
    ensures DoLeft(DoRight(e)).cursor == e.cursor <==> e.cursor < |e.content| || e.content == []
  {
    ArrowValid(e);
    if e.cursor < |e.content| { BackFromNext(e.content, e.cursor); }
    hide Boundary;
  }

  lemma LeftThenRight(e: Editor)
    requires Valid(e)
    ensures DoLeft(e).cursor <= |e.content| && Valid(DoLeft(e))
    ensures DoRight(DoLeft(e)).cursor == e.cursor <==> e.cursor > 0 || e.content == []
  {
    ArrowValid(e);
    if e.cursor > 0 { PrevBoundary(e.content, e.cursor); }
    hide IsChar, WellFormed;
  }

  lemma CharTypedAt(s: Bytes, pos: nat, c: Bytes)
    requires Boundary(s, pos) && IsChar(c)
    ensures var w := s[..pos] + c + s[pos..];
            GlyphBack(w, pos + |c|) == pos && Without(w, pos, pos + |c|) == s
  {
    var rest := s[pos..];
    var w := s[..pos] + c + rest;
    CharIsWellFormed(c);
    WellFormedAppend(c, rest);
    CharGlyph(c, rest);
    hide IsChar, WellFormed, GlyphLen, GlyphBack;
    TypedText(s, pos, c);
    BackFromNext(w, pos);
  }

  lemma TypedText(s: Bytes, pos: nat, c: Bytes)
    requires pos <= |s| && c != []
    ensures var w := s[..pos] + c + s[pos..];
            && w[..pos] == s[..pos] && w[pos..] == c + s[pos..] && w[pos] == c[0]
            && Without(w, pos, pos + |c|) == s
  {
    var w := s[..pos] + c + s[pos..];
    assert w[pos + |c|..] == s[pos..];
  }

  // Backspace takes back a typed character.
  lemma TypeThenBackspace(e: Editor, c: Bytes)
    requires Valid(e) && IsChar(c) && !SelActive(e)
    ensures Valid(Insert(e, c))
    ensures DoBackspace(Insert(e, c)).content == e.content && DoBackspace(Insert(e, c)).cursor == e.cursor
  {
    CharIsWellFormed(c);
    InsertValid(e, c);
    CharTypedAt(e.content, e.cursor, c);
    assert |c| > 0;
    hide IsChar, WellFormed, Boundary, GlyphBack;
  }

  // Backspace is Left and then Delete.
  lemma BackspaceIsLeftDelete(e: Editor)
    requires Valid(e) && !SelActive(e) && e.cursor > 0
    ensures Valid(DoLeft(e))
    ensures DoDelete(DoLeft(e)).content == DoBackspace(e).content && DoDelete(DoLeft(e)).cursor == DoBackspace(e).cursor
  {
    ArrowValid(e);
    PrevBoundary(e.content, e.cursor);
    hide IsChar, WellFormed, Boundary;
  }

  // Typing over "select all" replaces the text, except that selecting an empty text leaves an
  // anchor behind which makes the second character replace the first.
  lemma TypeOverSelection(e: Editor, a: Bytes, b: Bytes)
    requires Valid(e) && IsChar(a) && IsChar(b)
    ensures Valid(DoSelectAll(e)) && Valid(Insert(DoSelectAll(e), a))
    ensures Insert(Insert(DoSelectAll(e), a), b).content == if e.content == [] then b else a + b
  {
    ArrowValid(e);
    CharIsWellFormed(a);
    var all := DoSelectAll(e);
    InsertValid(all, a);
    assert |a| > 0;
    hide IsChar, WellFormed, Boundary;
    TypeOverAll(e, a);
    TypeAtEnd(a, b);
  }

  lemma TypeOverAll(e: Editor, a: Bytes)
    requires Valid(e) && Valid(DoSelectAll(e))
    ensures Insert(DoSelectAll(e), a) == Editor(a, |a|, if e.content == [] then Some(0) else None)
  {
    hide Boundary;
    assert Without(e.content, 0, |e.content|) == [];
    assert a + [] == a && [] + a == a;
  }

  lemma TypeAtEnd(a: Bytes, b: Bytes)
    requires a != []
    ensures Valid(Editor(a, |a|, None)) ==> Insert(Editor(a, |a|, None), b).content == a + b
    ensures Valid(Editor(a, |a|, Some(0))) ==> Insert(Editor(a, |a|, Some(0)), b).content == b
  {
    hide Boundary;
    assert Without(a, 0, |a|) == [] && b + [] == b;
    assert a[..|a|] == a && a[|a|..] == [] && a + b + [] == a + b;
  }

  // ---- rows and columns ----

  // Landing stops at the column, at the end of the row, or before a glyph that would pass it.
  lemma {:induction false} LandingColumn(s: Bytes, start: nat, pos: nat, end: nat, w: nat, col: nat)
    requires start <= pos <= end && Boundary(s, start) && Boundary(s, pos) && Boundary(s, end)
    requires w == StringWidth(s[start..pos]) && w <= col
    ensures var p := Landing(s, pos, end, w, col);
            && pos <= p <= end && StringWidth(s[start..p]) <= col
            && (p == end || StringWidth(s[start..p]) + GlyphWidth(s[p]) > col)
    decreases end - pos
  {
    if pos < end && w + GlyphWidth(s[pos]) <= col {
      var next := pos + GlyphLen(s[pos]);
      NextBoundary(s, pos);
      NoBoundaryInside(s, pos, end);
      hide WellFormed, IsChar, Boundary, StringWidth, GlyphLen, GlyphWidth;
      WidthGrows(s, start, pos, next);
      LandingColumn(s, start, next, end, w + GlyphWidth(s[pos]), col);
    }
  }

  // Up and Down, and a click, put the cursor on the row asked for, as near to the column as its
  // glyphs allow without passing it; off the rows they leave the cursor alone.
  lemma MovesToColumn(e: Editor, avail: int, row: int, col: nat)
    requires Valid(e)
    ensures var rows, f := WrapRows(e.content, avail), AtRow(e, avail, row, col);
            && f.content == e.content
            && (!(0 <= row < |rows|) ==> f.cursor == e.cursor)
            && (0 <= row < |rows| ==>
                  && rows[row].start <= f.cursor <= rows[row].end <= |e.content|
                  && StringWidth(e.content[rows[row].start..f.cursor]) <= col
                  && (f.cursor == rows[row].end
                      || StringWidth(e.content[rows[row].start..f.cursor]) + GlyphWidth(e.content[f.cursor]) > col))
  {
    var rows := WrapRows(e.content, avail);
    BoundaryIsWhole(e.content, e.cursor);
    RowsTile(e.content, avail);
    if 0 <= row < |rows| {
      var r := rows[row];
      assert RowOk(e.content, Limit(avail), r);
      EmptySlice(e.content, r.start, r.start);
      hide WrapRows, Tiles, RowOk, WellFormed;
      LandingColumn(e.content, r.start, r.start, r.end, 0, col);
    }
  }

  // ---- what each event does ----

  // `q` is the first glyph boundary after `p`.
  ghost predicate OneGlyph(s: Bytes, p: nat, q: nat) {
    p < q && Boundary(s, p) && Boundary(s, q) && forall m :: p < m < q ==> !Boundary(s, m)
  }

  // Row `k` is the first that holds byte `cursor`.
  predicate HeldBy(rows: seq<Row>, k: nat, cursor: nat) {
    && k < |rows| && rows[k].start <= cursor <= rows[k].end
    && forall j :: 0 <= j < k ==> !(rows[j].start <= cursor <= rows[j].end)
  }

  // The glyph boundary of the row nearest to the column without passing it.
  predicate LandsOn(s: Bytes, r: Row, col: nat, p: nat) {
    && r.start <= p <= r.end <= |s| && Boundary(s, p) && StringWidth(s[r.start..p]) <= col
    && (p == r.end || StringWidth(s[r.start..p]) + GlyphWidth(s[p]) > col)
  }

  // The cursor alone has moved, and nothing is selected any more.
  predicate Moved(e: Editor, f: Editor) { f.content == e.content && f.anchor == None }

  // Up and Down: to the row `k + dir`, or nowhere when there is none.
  ghost predicate MovedVertically(e: Editor, avail: int, dir: int, f: Editor)
    requires Valid(e)
  {
    var rows := WrapRows(e.content, avail);
    && Moved(e, f)
    && exists k: nat :: HeldBy(rows, k, e.cursor) && FromRow(e, rows, k, dir, f)
  }

  predicate FromRow(e: Editor, rows: seq<Row>, k: nat, dir: int, f: Editor)
    requires HeldBy(rows, k, e.cursor)
  {
    && rows[k].end <= |e.content|
    && if 0 <= k + dir < |rows|
       then LandsOn(e.content, rows[k + dir], StringWidth(e.content[rows[k].start..e.cursor]), f.cursor)
       else f.cursor == e.cursor
  }

  predicate Inserted(e: Editor, c: Bytes, f: Editor)
    requires Valid(e)
  {
    if SelActive(e) then f == Editor(c + e.content[e.cursor..], |c|, None)
    else f == Editor(e.content[..e.cursor] + c + e.content[e.cursor..], e.cursor + |c|, e.anchor)
  }

  // What lies between `p` and `q` is gone.
  predicate Erased(e: Editor, p: nat, q: nat, f: Editor) {
    p <= q <= |e.content| && f == Editor(e.content[..p] + e.content[q..], p, e.anchor)
  }

  ghost predicate TakenBefore(e: Editor, f: Editor)
    requires Valid(e)
  {
    if SelActive(e) then f == Editor(e.content[e.cursor..], 0, None)
    else if e.cursor == 0 then f == e
    else OneGlyph(e.content, f.cursor, e.cursor) && Erased(e, f.cursor, e.cursor, f)
  }

  ghost predicate TakenAfter(e: Editor, f: Editor)
    requires Valid(e)
  {
    if SelActive(e) then f == Editor(e.content[e.cursor..], 0, None)
    else if e.cursor == |e.content| then f == e
    else exists q :: OneGlyph(e.content, e.cursor, q) && Erased(e, e.cursor, q, f)
  }

  // What an event does, in terms of glyph boundaries and of rows.
  ghost predicate Effect(e: Editor, ev: Event, avail: int, f: Editor)
    requires Valid(e)
  {
    var s, rows := e.content, WrapRows(e.content, avail);
    match ev
    case Typed(c) => Inserted(e, c, f)
    case Newline => Inserted(e, [LF], f)
    case Backspace => TakenBefore(e, f)
    case Delete => TakenAfter(e, f)
    case Left => Moved(e, f) && if e.cursor == 0 then f.cursor == 0 else OneGlyph(s, f.cursor, e.cursor)
    case Right => Moved(e, f) && if e.cursor == |s| then f.cursor == |s| else OneGlyph(s, e.cursor, f.cursor)
    case Up => MovedVertically(e, avail, -1, f)
    case Down => MovedVertically(e, avail, 1, f)
    case Home => Moved(e, f) && exists k: nat :: HeldBy(rows, k, e.cursor) && f.cursor == rows[k].start
    case End => Moved(e, f) && exists k: nat :: HeldBy(rows, k, e.cursor) && f.cursor == rows[k].end
    case SelectAll => f == Editor(s, |s|, Some(0))
    case Click(row, col) =>
      Moved(e, f) && if row < |rows| then LandsOn(s, rows[row], col, f.cursor) else f.cursor == e.cursor
    case Replaced(content, cursor) => f == Editor(content, cursor, e.anchor)
  }

  lemma GlyphIsOne(s: Bytes, pos: nat)
    requires Boundary(s, pos) && pos < |s|
    ensures pos + GlyphLen(s[pos]) <= |s| && OneGlyph(s, pos, pos + GlyphLen(s[pos]))
  {
    NextBoundary(s, pos);
    forall m | pos < m < pos + GlyphLen(s[pos]) ensures !Boundary(s, m) {
      if Boundary(s, m) { NoBoundaryInside(s, pos, m); }
    }
    hide Boundary, IsChar;
  }

  lemma BackIsOne(s: Bytes, pos: nat)
    requires Boundary(s, pos) && pos > 0
    ensures OneGlyph(s, GlyphBack(s, pos), pos)
  {
    PrevBoundary(s, pos);
    BoundaryInRange(s, pos);
    hide Boundary, IsChar, GlyphBack;
    GlyphIsOne(s, GlyphBack(s, pos));
  }

  lemma CursorRow(e: Editor, avail: int)
    requires Valid(e)
    ensures HeldBy(WrapRows(e.content, avail), RowAt(e, avail), e.cursor)
    ensures WrapRows(e.content, avail)[RowAt(e, avail)].end <= |e.content|
  {
    BoundaryIsWhole(e.content, e.cursor);
    CursorHasRow(e.content, avail, e.cursor);
    CursorInRange(e.content, e.cursor, avail);
    hide WrapRows, Boundary;
  }

  lemma RowReached(e: Editor, avail: int, row: int, col: nat)
    requires Valid(e)
    ensures var rows, f := WrapRows(e.content, avail), AtRow(e, avail, row, col);
            Moved(e, f) && if 0 <= row < |rows| then LandsOn(e.content, rows[row], col, f.cursor) else f.cursor == e.cursor
  {
    MovesToColumn(e, avail, row, col);
    RowValid(e, avail, row, col);
    hide WrapRows, StringWidth, WellFormed, Landing;
  }

  lemma VerticalEffect(e: Editor, avail: int, dir: int)
    requires Valid(e)
    ensures MovedVertically(e, avail, dir, DoVertical(e, avail, dir))
  {
    var rows, k := WrapRows(e.content, avail), RowAt(e, avail);
    CursorRow(e, avail);
    RowReached(e, avail, k + dir, ColumnAt(e, avail));
    ColumnIs(e, avail);
    hide WrapRows, StringWidth, LandsOn, RowAt, AtRow, Boundary, ColumnAt, HeldBy;
    var f := DoVertical(e, avail, dir);
    assert f == AtRow(e, avail, k + dir, ColumnAt(e, avail));
    assert HeldBy(rows, k, e.cursor) && FromRow(e, rows, k, dir, f);
  }

  lemma ColumnIs(e: Editor, avail: int)
    requires Valid(e)
    ensures var r := WrapRows(e.content, avail)[RowAt(e, avail)];
            r.start <= e.cursor <= |e.content| && ColumnAt(e, avail) == StringWidth(e.content[r.start..e.cursor])
  {
    CursorRow(e, avail);
    BoundaryInRange(e.content, e.cursor);
    hide WrapRows, StringWidth, RowAt, Boundary;
  }

  lemma ErasureEffect(e: Editor)
    requires Valid(e)
    ensures SelActive(e) ==> EraseSelection(e) == Editor(e.content[e.cursor..], 0, None)
  {
    if SelActive(e) { assert [] + e.content[e.cursor..] == e.content[e.cursor..]; }
  }

  lemma InsertEffect(e: Editor, c: Bytes)
    requires Valid(e)
    ensures Inserted(e, c, Insert(e, c))
  {
    ErasureEffect(e);
  }

  lemma BackspaceEffect(e: Editor)
    requires Valid(e)
    ensures TakenBefore(e, DoBackspace(e))
  {
    ErasureEffect(e);
    BoundaryInRange(e.content, e.cursor);
    hide Boundary, GlyphBack, OneGlyph, EraseSelection;
    if e.cursor > 0 { BackIsOne(e.content, e.cursor); }
  }

  lemma DeleteEffect(e: Editor)
    requires Valid(e)
    ensures TakenAfter(e, DoDelete(e))
  {
    ErasureEffect(e);
    BoundaryInRange(e.content, e.cursor);
    hide Boundary, OneGlyph, EraseSelection;
    if e.cursor < |e.content| {
      GlyphIsOne(e.content, e.cursor);
      hide GlyphLen;
    }
  }

  lemma ArrowEffect(e: Editor, avail: int)
    requires Valid(e)
    ensures Effect(e, Left, avail, DoLeft(e)) && Effect(e, Right, avail, DoRight(e))
  {
    BoundaryInRange(e.content, e.cursor);
    GlyphBackAtStart(e.content);
    hide Boundary, GlyphBack, OneGlyph, WrapRows;
    if e.cursor > 0 { BackIsOne(e.content, e.cursor); }
    if e.cursor < |e.content| {
      GlyphIsOne(e.content, e.cursor);
      hide GlyphLen;
    }
  }

  lemma HomeEndEffect(e: Editor, avail: int)
    requires Valid(e)
    ensures Effect(e, Home, avail, DoHome(e, avail)) && Effect(e, End, avail, DoEnd(e, avail))
  {
    CursorRow(e, avail);
    hide WrapRows, HeldBy, RowAt, Boundary;
  }

  // Every event does what it is for: text goes in at the cursor or over the selection, Backspace
  // and Delete take the glyph before or after it, the arrows move by one glyph or one row, Home
  // and End go to the ends of the row that holds the cursor.
  lemma EveryEvent(e: Editor, ev: Event, avail: int)
    requires Valid(e)
    ensures Effect(e, ev, avail, After(e, ev, avail))
  {
    match ev
    case Typed(c) => InsertEffect(e, c);
    case Newline => InsertEffect(e, [LF]);
    case Backspace => BackspaceEffect(e);
    case Delete => DeleteEffect(e);
    case Left => ArrowEffect(e, avail);
    case Right => ArrowEffect(e, avail);
    case Up => VerticalEffect(e, avail, -1);
    case Down => VerticalEffect(e, avail, 1);
    case Home => HomeEndEffect(e, avail);
    case End => HomeEndEffect(e, avail);
    case SelectAll =>
    case Click(row, col) => RowReached(e, avail, row, col);
    case Replaced(_, _) =>
  }

  // Pressing Home again stays put exactly when the row begins the text or follows a newline: at
  // a soft break the start of the row is also the end of the row above, and Home goes there.
  lemma HomeTwice(e: Editor, avail: int)
    requires Valid(e)
    ensures var rows, k := WrapRows(e.content, avail), RowAt(e, avail);
            DoHome(DoHome(e, avail), avail).cursor == DoHome(e, avail).cursor
            <==> k == 0 || rows[k - 1].end < rows[k].start
  {
    var rows, k, s := WrapRows(e.content, avail), RowAt(e, avail), e.content;
    BoundaryIsWhole(s, e.cursor);
    RowsTile(s, avail);
    var home := rows[k].start;
    assert RowOk(s, Limit(avail), rows[k]);
    BoundaryIsWhole(s, home);
    CursorHasRow(s, avail, home);
    var j := RowOfByte(rows, home, 0);
    hide WrapRows, RowOfByte, StringWidth, Boundary, IsChar, NoNewline;
    RowsAscend(s, Limit(avail), rows, j, k);
    if k > 0 {
      assert RowOk(s, Limit(avail), rows[k - 1]) && Follows(s, Limit(avail), rows[k - 1], rows[k].start);
      RowsAscend(s, Limit(avail), rows, j, k - 1);
    }
  }

  lemma {:induction false} RowsAscend(s: Bytes, limit: nat, rows: seq<Row>, j: nat, k: nat)
    requires Tiles(s, limit, rows) && j < |rows| && k < |rows|
    ensures j < k ==> rows[j].end <= rows[k].start && rows[j].start < rows[k].start
    decreases k
  {
    if j < k {
      RowsAscend(s, limit, rows, j, k - 1);
      assert RowOk(s, limit, rows[k - 1]) && Follows(s, limit, rows[k - 1], rows[k].start);
    }
  }

  // ---- the component ----

  class Component {
    var content: Bytes
    var cursor: nat
    var selAnchor: int
    var avail: int

    ghost function Now(): Editor
      reads this
    {
      Editor(content, cursor, if selAnchor < 0 then None else Some(selAnchor))
    }

    constructor (avail: int)
      ensures Now() == Editor([], 0, None) && this.avail == avail
    {
      content, cursor, selAnchor := [], 0, -1;
      this.avail := avail;
    }

    method EraseSelected() returns (erased: bool)
      requires Valid(Now())
      modifies this`content, this`cursor, this`selAnchor
      ensures erased == SelActive(old(Now())) && Now() == EraseSelection(old(Now()))
    {
      if !(selAnchor >= 0 && selAnchor != cursor) { return false; }
      var lo := if selAnchor < cursor then selAnchor else cursor;
      var hi := if selAnchor < cursor then cursor else selAnchor;
      content := content[..lo] + content[hi..];
      cursor := lo;
      selAnchor := -1;
      return true;
    }

    method InsertText(c: Bytes)
      requires Valid(Now())
      modifies this`content, this`cursor, this`selAnchor
      ensures Now() == Insert(old(Now()), c)
    {
      var erased := EraseSelected();
      assert erased ==> content[..0] == [] && content[0..] == content && [] + c == c;
      content := content[..cursor] + c + content[cursor..];
      cursor := cursor + |c|;
    }

    method HandleBackspace()
      requires Valid(Now())
      modifies this`content, this`cursor, this`selAnchor
      ensures Now() == DoBackspace(old(Now()))
    {
      var erased := EraseSelected();
      if erased || cursor == 0 { return; }
      var prev := cursor - 1;
      while prev > 0 && IsTail(content[prev])
        invariant 0 <= prev < cursor <= |content|
        invariant CutBack(content, prev) == CutBack(content, cursor - 1)
      {
        prev := prev - 1;
      }
      content := content[..prev] + content[cursor..];
      cursor := prev;
    }

    method HandleDelete()
      requires Valid(Now())
      modifies this`content, this`cursor, this`selAnchor
      ensures Now() == DoDelete(old(Now()))
    {
      var erased := EraseSelected();
      if erased || cursor >= |content| { return; }
      var glen := GlyphLen(content[cursor]);
      NextBoundary(content, cursor);
      content := content[..cursor] + content[cursor + glen..];
    }

    method HandleArrow(left: bool)
      requires Valid(Now())
      modifies this`cursor, this`selAnchor
      ensures Now() == if left then DoLeft(old(Now())) else DoRight(old(Now()))
    {
      selAnchor := -1;
      if left {
        if cursor > 0 {
          var prev := cursor - 1;
          while prev > 0 && IsTail(content[prev])
            invariant 0 <= prev < cursor == old(cursor) && selAnchor == -1
            invariant CutBack(content, prev) == CutBack(content, cursor - 1)
          {
            prev := prev - 1;
          }
          cursor := prev;
        }
      } else if cursor < |content| {
        cursor := cursor + GlyphLen(content[cursor]);
      }
    }

    method MoveTo(rows: seq<Row>, row: int, col: nat)
      requires Valid(Now()) && rows == WrapRows(content, avail)
      modifies this`cursor, this`selAnchor
      ensures Now() == AtRow(old(Now()), avail, row, col)
    {
      RowInRange(content, cursor, avail, row);
      hide WrapRows, Boundary;
      selAnchor := -1;
      if row < 0 || row >= |rows| { return; }
      var pos := Land(content, rows[row].start, rows[row].end, col);
      cursor := pos;
    }

    method HandleVertical(dir: int)
      requires Valid(Now())
      modifies this`cursor, this`selAnchor
      ensures Now() == DoVertical(old(Now()), avail, dir)
    {
      var rows := Wrap(content, avail);
      CursorInRange(content, cursor, avail);
      hide WrapRows, Boundary, AtRow;
      var found, row, col := CursorPosition(content, rows, cursor);
      MoveTo(rows, row + dir, col);
    }

    method HandleHomeEnd(home: bool)
      requires Valid(Now())
      modifies this`cursor, this`selAnchor
      ensures Now() == if home then DoHome(old(Now()), avail) else DoEnd(old(Now()), avail)
    {
      var rows := Wrap(content, avail);
      CursorInRange(content, cursor, avail);
      hide WrapRows, Boundary;
      selAnchor := -1;
      var found, row, col := CursorPosition(content, rows, cursor);
      cursor := if home then rows[row].start else rows[row].end;
    }

    method OnEvent(ev: Event)
      requires Valid(Now()) && Possible(ev)
      modifies this`content, this`cursor, this`selAnchor
      ensures Now() == After(old(Now()), ev, avail) && Valid(Now())
      ensures Effect(old(Now()), ev, avail, Now())
    {
      AfterValid(Now(), ev, avail);
      EveryEvent(Now(), ev, avail);
      hide WellFormed, Boundary, Effect, Insert, DoBackspace, DoDelete, DoLeft, DoRight, DoVertical, DoHome, DoEnd, AtRow;
      match ev {
        case Typed(c) => InsertText(c);
        case Newline => InsertText([LF]);
        case Backspace => HandleBackspace();
        case Delete => HandleDelete();
        case Left => HandleArrow(true);
        case Right => HandleArrow(false);
        case Up => HandleVertical(-1);
        case Down => HandleVertical(1);
        case Home => HandleHomeEnd(true);
        case End => HandleHomeEnd(false);
        case SelectAll =>
          selAnchor := 0;
          cursor := |content|;
        case Click(row, col) =>
          var rows := Wrap(content, avail);
          MoveTo(rows, row, col);
        case Replaced(text, at) => content, cursor := text, at;
      }
    }
  }

  // The loop of handle_vertical and handle_mouse.
  method Land(s: Bytes, start: nat, end: nat, col: nat) returns (pos: nat)
    requires end <= |s|
    ensures pos == Landing(s, start, end, 0, col)
  {
    pos := start;
    var w: nat := 0;
    while pos < end && w + GlyphWidth(s[pos]) <= col
      invariant Landing(s, pos, end, w, col) == Landing(s, start, end, 0, col)
      decreases end - pos
    {
      var n := GlyphLen(s[pos]);
      w := w + GlyphWidth(s[pos]);
      pos := pos + n;
    }
  }

  lemma RowInRange(s: Bytes, cursor: nat, avail: int, row: int)
    requires Boundary(s, cursor)
    ensures 0 <= row < |WrapRows(s, avail)| ==> WrapRows(s, avail)[row].start <= WrapRows(s, avail)[row].end <= |s|
  {
    BoundaryIsWhole(s, cursor);
    RowsTile(s, avail);
    hide WrapRows, Boundary;
    assert 0 <= row < |WrapRows(s, avail)| ==> RowOk(s, Limit(avail), WrapRows(s, avail)[row]);
  }

  lemma CursorInRange(s: Bytes, cursor: nat, avail: int)
    requires Boundary(s, cursor)
    ensures forall k :: 0 <= k < |WrapRows(s, avail)| ==>
              WrapRows(s, avail)[k].start <= WrapRows(s, avail)[k].end <= |s|
    ensures RowOfByte(WrapRows(s, avail), cursor, 0) < |WrapRows(s, avail)|
  {
    BoundaryIsWhole(s, cursor);
    CursorHasRow(s, avail, cursor);
    hide WrapRows, Boundary;
    forall k | 0 <= k < |WrapRows(s, avail)| ensures WrapRows(s, avail)[k].start <= WrapRows(s, avail)[k].end <= |s| {
      RowInRange(s, cursor, avail, k);
    }
  }
}
