// src/tool/read.h, read_file: the paged reader, which consumes a file chunk by chunk.
module ReadPage {
  import opened Bytes
  import opened Utf8

  const MAX_READ_BYTES: nat := 50 * 1024
  const MAX_LINE_LENGTH: nat := 2000

  // "... (line truncated to 2000 chars)"
  const SUFFIX: Bytes := [
    46, 46, 46, 32, 40, 108, 105, 110, 101, 32, 116, 114, 117, 110, 99, 97, 116, 101, 100, 32,
    116, 111, 32, 50, 48, 48, 48, 32, 99, 104, 97, 114, 115, 41]

  datatype Error = Binary | NotUtf8 | OutOfRange

  // The lines returned, and the offset the truncation marker names, 0 without a marker.
  datatype Result = Got(lines: seq<Bytes>, next: nat) | Fail(error: Error)

  // ---- binary_detect ----

  predicate IsControl(b: byte) { b < 9 || 13 < b < 32 }

  function Controls(s: Bytes): nat {
    if s == [] then 0 else Controls(s[..|s| - 1]) + if IsControl(s[|s| - 1]) then 1 else 0
  }

  predicate HasNul(s: Bytes) { exists k :: 0 <= k < |s| && s[k] == 0 }

  predicate IsBinary(s: Bytes) { HasNul(s) || 10 * Controls(s) > 3 * |s| }

  method BinaryDetect(s: Bytes) returns (binary: bool)
    ensures binary <==> IsBinary(s)
  {
    var nonPrintable := 0;
    for i := 0 to |s|
      invariant nonPrintable == Controls(s[..i])
      invariant forall k :: 0 <= k < i ==> s[k] != 0
    {
      if s[i] == 0 { return true; }
      assert s[..i + 1][..i] == s[..i];
      if s[i] < 9 || 13 < s[i] < 32 { nonPrintable := nonPrintable + 1; }
    }
    assert s[..|s|] == s;
    return 10 * nonPrintable > 3 * |s|;
  }

  // ---- the closures ----

  // A line as handed to `append`, and whether it must carry the truncation suffix.
  datatype Item = Item(text: Bytes, force: bool)

  datatype Page = Page(lines: seq<Bytes>, bytes: nat, line: nat, next: nat)

  function FirstPage(): Page { Page([], 0, 1, 0) }

  predicate Full(p: Page, limit: nat) { |p.lines| >= limit || p.bytes >= MAX_READ_BYTES }

  function Render(i: Item): Bytes {
    if |i.text| > MAX_LINE_LENGTH || i.force then Truncated(i.text, MAX_LINE_LENGTH) + SUFFIX else i.text
  }

  function Cost(p: Page, text: Bytes): nat { |text| + if p.lines == [] then 0 else 1 }

  predicate Refuses(p: Page, offset: nat, limit: nat, i: Item) {
    p.line >= offset && (Full(p, limit) || p.bytes + Cost(p, Render(i)) > MAX_READ_BYTES)
  }

  function Appended(p: Page, offset: nat, limit: nat, i: Item): Page {
    if p.line < offset then p.(line := p.line + 1)
    else if Refuses(p, offset, limit, i) then p.(next := p.line)
    else Page(p.lines + [Render(i)], p.bytes + Cost(p, Render(i)), p.line + 1, p.next)
  }

  // A line begun but not ended, and whether it has already been cut.
  datatype Partial = Partial(pending: Bytes, longLine: bool)

  function NoLine(): Partial { Partial([], false) }

  function StripCR(s: Bytes): Bytes { if s != [] && s[|s| - 1] == CR then s[..|s| - 1] else s }

  datatype Fed = Emits(item: Item) | Holds(partial: Partial) | Rejects(error: Error)

  predicate Ended(segment: Bytes) { segment != [] && segment[|segment| - 1] == LF }

  function FeedSegment(q: Partial, segment: Bytes): Fed {
    if IsBinary(segment) then Rejects(Binary)
    else if Ended(segment) then
      var current := StripCR(q.pending + segment[..|segment| - 1]);
      if WellFormed(current) then Emits(Item(current, q.longLine)) else Rejects(NotUtf8)
    else if q.longLine then Holds(q)
    else
      var pending := q.pending + segment;
      if |pending| <= MAX_LINE_LENGTH then Holds(Partial(pending, false))
      else if WellFormed(Truncated(pending, MAX_LINE_LENGTH)) then
        Holds(Partial(Truncated(pending, MAX_LINE_LENGTH), true))
      else Rejects(NotUtf8)
  }

  datatype Status = Going | Done | Failed(error: Error)

  datatype State = State(page: Page, partial: Partial, status: Status)

  function OnSegment(offset: nat, limit: nat, s: State, segment: Bytes): State {
    if Full(s.page, limit) then s.(page := s.page.(next := s.page.line), status := Done)
    else match FeedSegment(s.partial, segment)
      case Rejects(e) => s.(status := Failed(e))
      case Holds(q) => s.(partial := q)
      case Emits(i) =>
        State(Appended(s.page, offset, limit, i), NoLine(), if Refuses(s.page, offset, limit, i) then Done else Going)
  }

  function OnSegments(offset: nat, limit: nat, s: State, segments: seq<Bytes>): State
    decreases |segments|
  {
    if segments == [] || !s.status.Going? then s
    else OnSegments(offset, limit, OnSegment(offset, limit, s, segments[0]), segments[1..])
  }

  // The segment a chunk begins with runs to its first newline, or to the end of the chunk.
  function SegmentEnd(chunk: Bytes): (end: nat)
    requires chunk != []
    ensures 0 < end <= |chunk| && Unbroken(chunk[..end - 1])
    ensures end == |chunk| || chunk[end - 1] == LF
  {
    var nl := IndexFrom(chunk, LF, 0);
    if nl == -1 then |chunk| else nl + 1
  }

  function Segments(chunk: Bytes): seq<Bytes>
    decreases |chunk|
  {
    if chunk == [] then [] else [chunk[..SegmentEnd(chunk)]] + Segments(chunk[SegmentEnd(chunk)..])
  }

  function AllSegments(chunks: seq<Bytes>): seq<Bytes> {
    if chunks == [] then [] else Segments(chunks[0]) + AllSegments(chunks[1..])
  }

  // What read_file does once the chunks are used up.
  function Finish(offset: nat, limit: nat, s: State): Result {
    var last := StripCR(s.partial.pending);
    var open := s.status.Going? && s.partial.pending != [];
    if s.status.Failed? then Fail(s.status.error)
    else if open && !WellFormed(last) then Fail(NotUtf8)
    else
      var page := if open then Appended(s.page, offset, limit, Item(last, s.partial.longLine)) else s.page;
      if page.lines == [] && offset != 1 then Fail(OutOfRange) else Got(page.lines, page.next)
  }

  function Start(): State { State(FirstPage(), NoLine(), Going) }

  function ReadResult(chunks: seq<Bytes>, offset: nat, limit: nat): Result {
    Finish(offset, limit, OnSegments(offset, limit, Start(), AllSegments(chunks)))
  }

  class Reader {
    const offset: nat
    const limit: nat
    var lines: seq<Bytes>
    var bytes: nat
    var line: nat
    var next: nat
    var pending: Bytes
    var longLine: bool

    ghost function PageNow(): Page
      reads this
    {
      Page(lines, bytes, line, next)
    }

    ghost function Now(status: Status): State
      reads this
    {
      State(PageNow(), Partial(pending, longLine), status)
    }

    constructor (offset: nat, limit: nat)
      ensures Now(Going) == Start() && this.offset == offset && this.limit == limit
    {
      this.offset, this.limit := offset, limit;
      lines, bytes, line, next, pending, longLine := [], 0, 1, 0, [], false;
    }

    method Append(input: Bytes, forceSuffix: bool) returns (ok: bool)
      modifies this`lines, this`bytes, this`line, this`next
      ensures PageNow() == Appended(old(PageNow()), offset, limit, Item(input, forceSuffix))
      ensures ok <==> !Refuses(old(PageNow()), offset, limit, Item(input, forceSuffix))
    {
      if line < offset {
        line := line + 1;
        return true;
      }
      if |lines| >= limit || bytes >= MAX_READ_BYTES {
        next := line;
        return false;
      }
      var text := input;
      if |input| > MAX_LINE_LENGTH || forceSuffix {
        text := TruncateTo(input, MAX_LINE_LENGTH);
        text := text + SUFFIX;
      }
      var cost := |text| + if lines == [] then 0 else 1;
      if bytes + cost > MAX_READ_BYTES {
        next := line;
        return false;
      }
      lines := lines + [text];
      bytes := bytes + cost;
      line := line + 1;
      return true;
    }

    // consume, after the binary test of consume_chunk.
    method Consume(segment: Bytes) returns (status: Status)
      requires !IsBinary(segment) && !Full(PageNow(), limit)
      modifies this
      ensures status == OnSegment(offset, limit, old(Now(Going)), segment).status
      ensures !status.Failed? ==> Now(status) == OnSegment(offset, limit, old(Now(Going)), segment)
    {
      hide IsBinary, Full, WellFormed, Truncated, Render;
      if segment != [] && segment[|segment| - 1] == LF {
        var current := pending + segment[..|segment| - 1];
        pending := [];
        var wasLong := longLine;
        longLine := false;
        if current != [] && current[|current| - 1] == CR { current := current[..|current| - 1]; }
        var valid := Utf8Valid(current);
        OctetsIsWellFormed(current);
        if !valid { return Failed(NotUtf8); }
        var ok := Append(current, wasLong);
        return if ok then Going else Done;
      }
      if longLine { return Going; }
      pending := pending + segment;
      if |pending| > MAX_LINE_LENGTH {
        pending := TruncateTo(pending, MAX_LINE_LENGTH);
        var valid := Utf8Valid(pending);
        OctetsIsWellFormed(pending);
        if !valid { return Failed(NotUtf8); }
        longLine := true;
      }
      return Going;
    }

    method ConsumeChunk(chunk: Bytes) returns (status: Status)
      modifies this
      ensures status == OnSegments(offset, limit, old(Now(Going)), Segments(chunk)).status
      ensures !status.Failed? ==> Now(status) == OnSegments(offset, limit, old(Now(Going)), Segments(chunk))
    {
      status := Going;
      var start := 0;
      assert chunk[0..] == chunk;
      hide IsBinary, FeedSegment, Appended, Refuses, OnSegment, Segments, OnSegments;
      while start < |chunk| && status.Going?
        invariant start <= |chunk|
        invariant OnSegments(offset, limit, old(Now(Going)), Segments(chunk)).status
                  == (if status.Failed? then status
                      else OnSegments(offset, limit, Now(status), Segments(chunk[start..])).status)
        invariant !status.Failed? ==> OnSegments(offset, limit, Now(status), Segments(chunk[start..]))
                                      == OnSegments(offset, limit, old(Now(Going)), Segments(chunk))
        decreases |chunk| - start, if status.Going? then 1 else 0
      {
        ghost var before := Now(Going);
        var nl := IndexFrom(chunk[start..], LF, 0);
        var end := if nl == -1 then |chunk| else start + nl + 1;
        assert end == start + SegmentEnd(chunk[start..]);
        FirstSegment(offset, limit, before, chunk, start, end);
        ghost var after := OnSegment(offset, limit, before, chunk[start..end]);
        if |lines| >= limit || bytes >= MAX_READ_BYTES {
          next := line;
          status := Done;
          StopsWhenFull(offset, limit, before, chunk[start..end]);
        } else {
          var segment := chunk[start..end];
          var binary := BinaryDetect(segment);
          if binary {
            status := Failed(Binary);
            RejectsBinary(offset, limit, before, segment);
          } else {
            status := Consume(segment);
            start := end;
          }
        }
        EndsUnlessGoing(offset, limit, after, Segments(chunk[end..]));
      }
    }
  }

  lemma FirstSegment(offset: nat, limit: nat, s: State, chunk: Bytes, start: nat, end: nat)
    requires start < |chunk| && s.status.Going?
    requires end == start + SegmentEnd(chunk[start..])
    ensures OnSegments(offset, limit, s, Segments(chunk[start..]))
            == OnSegments(offset, limit, OnSegment(offset, limit, s, chunk[start..end]), Segments(chunk[end..]))
  {
    var rest := chunk[start..];
    assert Segments(rest) == [rest[..end - start]] + Segments(rest[end - start..]) by { hide SegmentEnd; }
    assert rest[..end - start] == chunk[start..end] && rest[end - start..] == chunk[end..];
    hide Segments;
    OnSegmentsCons(offset, limit, s, chunk[start..end], Segments(chunk[end..]));
  }

  lemma OnSegmentsCons(offset: nat, limit: nat, s: State, segment: Bytes, segments: seq<Bytes>)
    requires s.status.Going?
    ensures OnSegments(offset, limit, s, [segment] + segments)
            == OnSegments(offset, limit, OnSegment(offset, limit, s, segment), segments)
  {
    assert ([segment] + segments)[0] == segment && ([segment] + segments)[1..] == segments;
    hide OnSegment;
  }

  lemma StopsWhenFull(offset: nat, limit: nat, s: State, segment: Bytes)
    requires Full(s.page, limit)
    ensures OnSegment(offset, limit, s, segment) == s.(page := s.page.(next := s.page.line), status := Done)
  {
  }

  lemma RejectsBinary(offset: nat, limit: nat, s: State, segment: Bytes)
    requires !Full(s.page, limit) && IsBinary(segment)
    ensures OnSegment(offset, limit, s, segment).status == Failed(Binary)
  {
  }

  lemma EndsUnlessGoing(offset: nat, limit: nat, s: State, segments: seq<Bytes>)
    ensures !s.status.Going? ==> OnSegments(offset, limit, s, segments) == s
  {
  }

  // The paged branch of read_file on the chunks the file comes in.
  method ReadFile(chunks: seq<Bytes>, offset: nat, limit: nat) returns (r: Result)
    ensures r == ReadResult(chunks, offset, limit)
  {
    var reader := new Reader(offset, limit);
    var status := Going;
    var i := 0;
    assert chunks[0..] == chunks;
    while i < |chunks| && status.Going?
      invariant i <= |chunks| && fresh(reader) && reader.offset == offset && reader.limit == limit
      invariant Agrees(OnSegments(offset, limit, Start(), AllSegments(chunks)), status,
                       OnSegments(offset, limit, reader.Now(status), AllSegments(chunks[i..])))
    {
      ghost var before := reader.Now(Going);
      FirstChunk(offset, limit, before, chunks[i..]);
      assert chunks[i..][0] == chunks[i] && chunks[i..][1..] == chunks[i + 1..];
      hide OnSegments, Segments, AllSegments;
      status := reader.ConsumeChunk(chunks[i]);
      i := i + 1;
      EndsUnlessGoing(offset, limit, OnSegments(offset, limit, before, Segments(chunks[i - 1])), AllSegments(chunks[i..]));
      EndsUnlessGoing(offset, limit, reader.Now(status), AllSegments(chunks[i..]));
    }
    EndsUnlessGoing(offset, limit, reader.Now(status), AllSegments(chunks[i..]));
    assert status.Going? ==> AllSegments(chunks[i..]) == [];
    r := FinishReading(reader, status);
    FinishFailed(offset, limit, OnSegments(offset, limit, Start(), AllSegments(chunks)), reader.Now(status));
  }

  // Equal states, or failures for the same reason.
  predicate Agrees(s: State, status: Status, t: State) { if status.Failed? then s.status == status else s == t }

  lemma FinishFailed(offset: nat, limit: nat, s: State, t: State)
    ensures s.status == t.status && s.status.Failed? ==> Finish(offset, limit, s) == Finish(offset, limit, t)
  {
  }

  lemma FirstChunk(offset: nat, limit: nat, s: State, chunks: seq<Bytes>)
    requires chunks != []
    ensures OnSegments(offset, limit, s, AllSegments(chunks))
            == OnSegments(offset, limit, OnSegments(offset, limit, s, Segments(chunks[0])), AllSegments(chunks[1..]))
  {
    hide OnSegments, Segments;
    OnSegmentsAppend(offset, limit, s, Segments(chunks[0]), AllSegments(chunks[1..]));
  }

  lemma {:induction false} OnSegmentsAppend(offset: nat, limit: nat, s: State, a: seq<Bytes>, b: seq<Bytes>)
    ensures OnSegments(offset, limit, s, a + b) == OnSegments(offset, limit, OnSegments(offset, limit, s, a), b)
    decreases |a|
  {
    if a == [] || !s.status.Going? {
      assert a == [] ==> a + b == b;
      EndsUnlessGoing(offset, limit, s, a + b);
      EndsUnlessGoing(offset, limit, s, b);
    } else {
      OnSegmentsAppend(offset, limit, OnSegment(offset, limit, s, a[0]), a[1..], b);
      OnSegmentsCons(offset, limit, s, a[0], a[1..] + b);
      HeadTail(a);
      ConcatAssoc([a[0]], a[1..], b);
      hide OnSegment;
    }
  }

  method FinishReading(reader: Reader, status: Status) returns (r: Result)
    modifies reader
    ensures r == Finish(reader.offset, reader.limit, old(reader.Now(status)))
  {
    hide WellFormed, Render, Full, Refuses;
    if status.Failed? { return Fail(status.error); }
    if status.Going? && reader.pending != [] {
      var last := reader.pending;
      if last[|last| - 1] == CR { last := last[..|last| - 1]; }
      var valid := Utf8Valid(last);
      OctetsIsWellFormed(last);
      if !valid { return Fail(NotUtf8); }
      var _ := reader.Append(last, reader.longLine);
    }
    if reader.lines == [] && reader.offset != 1 { return Fail(OutOfRange); }
    return Got(reader.lines, reader.next);
  }

  // ---- the file as a list of lines ----

  // The lines the segments amount to, None when the reader rejects one.
  function Items(q: Partial, segments: seq<Bytes>): Option<seq<Item>>
    decreases |segments|
  {
    if segments == [] then
      var last := StripCR(q.pending);
      if q.pending == [] then Some([])
      else if WellFormed(last) then Some([Item(last, q.longLine)])
      else None
    else match FeedSegment(q, segments[0])
      case Rejects(_) => None
      case Holds(q') => Items(q', segments[1..])
      case Emits(i) =>
        var rest := Items(NoLine(), segments[1..]);
        if rest.Some? then Some([i] + rest.value) else None
  }

  // The open line after the last segment. It vanishes when cutting it leaves nothing.
  function LastPartial(q: Partial, segments: seq<Bytes>): Partial
    decreases |segments|
  {
    if segments == [] then q
    else match FeedSegment(q, segments[0])
      case Rejects(_) => q
      case Holds(q') => LastPartial(q', segments[1..])
      case Emits(_) => LastPartial(NoLine(), segments[1..])
  }

  predicate Vanished(q: Partial) { q.longLine && q.pending == [] }

  predicate NonEmpty(segments: seq<Bytes>) { forall i :: 0 <= i < |segments| ==> segments[i] != [] }

  // What is left of a file is at least one line, unless its last line vanishes.
  lemma {:induction false} RestHasLine(q: Partial, segments: seq<Bytes>)
    requires NonEmpty(segments) && segments != [] && Items(q, segments).Some?
    ensures Items(q, segments).value != [] || Vanished(LastPartial(q, segments))
    decreases |segments|
  {
    hide IsBinary, WellFormed, Truncated;
    match FeedSegment(q, segments[0])
    case Holds(q') =>
      if |segments| == 1 {
        assert segments[1..] == [];
      } else {
        RestHasLine(q', segments[1..]);
      }
    case _ =>
  }

  // The page `append` fills from a list of lines.
  function Filled(p: Page, offset: nat, limit: nat, items: seq<Item>): Page
    decreases |items|
  {
    if items == [] then p
    else if Refuses(p, offset, limit, items[0]) then p.(next := p.line)
    else Filled(Appended(p, offset, limit, items[0]), offset, limit, items[1..])
  }

  // A page that holds lines is past the lines to skip.
  predicate Begun(p: Page, offset: nat) { (p.lines != [] || p.bytes > 0) ==> p.line >= offset }

  // The chunked reader fills the page from the lines of the file.
  lemma {:induction false} ReaderFills(offset: nat, limit: nat, p: Page, q: Partial, segments: seq<Bytes>)
    requires limit >= 1 && NonEmpty(segments) && Begun(p, offset) && Items(q, segments).Some?
    requires (Items(q, segments).value == [] && !Full(p, limit)) || !Vanished(LastPartial(q, segments))
    ensures var r := Finish(offset, limit, OnSegments(offset, limit, State(p, q, Going), segments));
            var f := Filled(p, offset, limit, Items(q, segments).value);
            r == if f.lines == [] && offset != 1 then Fail(OutOfRange) else Got(f.lines, f.next)
    decreases |segments|
  {
    hide IsBinary, WellFormed, Truncated, Render;
    var s := State(p, q, Going);
    if segments == [] {
      FinishFills(offset, limit, p, q);
    } else if Full(p, limit) {
      RestHasLine(q, segments);
      hide FeedSegment;
      EndsUnlessGoing(offset, limit, OnSegment(offset, limit, s, segments[0]), segments[1..]);
    } else {
      match FeedSegment(q, segments[0])
      case Holds(q') => ReaderFills(offset, limit, p, q', segments[1..]);
      case Emits(i) =>
        EndsUnlessGoing(offset, limit, OnSegment(offset, limit, s, segments[0]), segments[1..]);
        ReaderFills(offset, limit, Appended(p, offset, limit, i), NoLine(), segments[1..]);
    }
  }

  lemma FinishFills(offset: nat, limit: nat, p: Page, q: Partial)
    requires Items(q, []).Some?
    ensures var r := Finish(offset, limit, State(p, q, Going));
            var f := Filled(p, offset, limit, Items(q, []).value);
            r == if f.lines == [] && offset != 1 then Fail(OutOfRange) else Got(f.lines, f.next)
  {
    hide WellFormed, Render, Full;
  }

  // ---- what a page holds ----

  function RenderAll(items: seq<Item>): (texts: seq<Bytes>)
    ensures |texts| == |items|
  {
    if items == [] then [] else RenderAll(items[..|items| - 1]) + [Render(items[|items| - 1])]
  }

  // join(lines, "\n")
  function Joined(texts: seq<Bytes>): Bytes {
    if texts == [] then []
    else if |texts| == 1 then texts[0]
    else Joined(texts[..|texts| - 1]) + [LF] + texts[|texts| - 1]
  }

  // The `n` lines from position `from` are within both limits.
  predicate Fits(items: seq<Item>, from: nat, n: nat, limit: nat)
    requires from + n <= |items|
  {
    n <= limit && |Joined(RenderAll(items[from..from + n]))| <= MAX_READ_BYTES
  }

  // `n` is the most lines that fit.
  predicate IsPageSize(items: seq<Item>, from: nat, n: nat, limit: nat) {
    && from + n <= |items| && Fits(items, from, n, limit)
    && (from + n < |items| ==> !Fits(items, from, n + 1, limit))
  }

  lemma RenderAllSnoc(items: seq<Item>, i: Item)
    ensures RenderAll(items + [i]) == RenderAll(items) + [Render(i)]
  {
    assert (items + [i])[..|items|] == items;
  }

  lemma JoinedSnoc(texts: seq<Bytes>, text: Bytes)
    ensures |Joined(texts + [text])| == |Joined(texts)| + |text| + if texts == [] then 0 else 1
  {
    assert (texts + [text])[..|texts|] == texts;
  }

  lemma SliceSnoc<T>(s: seq<T>, from: nat, n: nat)
    requires from + n < |s|
    ensures s[from..from + n + 1] == s[from..from + n] + [s[from + n]]
  {
  }

  // The page after the lines before position `at` of the file.
  predicate Holding(p: Page, offset: nat, limit: nat, items: seq<Item>, at: nat) {
    && 1 <= offset && at <= |items| && p.line == at + 1 && p.next == 0 && p.bytes == |Joined(p.lines)|
    && if at < offset then p.lines == []
       else var from := offset - 1;
            p.lines == RenderAll(items[from..at]) && |p.lines| <= limit && p.bytes <= MAX_READ_BYTES
  }

  lemma PageGrows(items: seq<Item>, from: nat, n: nat)
    requires from + n < |items|
    ensures RenderAll(items[from..from + n + 1]) == RenderAll(items[from..from + n]) + [Render(items[from + n])]
    ensures |Joined(RenderAll(items[from..from + n + 1]))|
            == |Joined(RenderAll(items[from..from + n]))| + |Render(items[from + n])| + if n == 0 then 0 else 1
  {
    hide *;
    SliceSnoc(items, from, n);
    RenderAllSnoc(items[from..from + n], items[from + n]);
    JoinedSnoc(RenderAll(items[from..from + n]), Render(items[from + n]));
    assert |RenderAll(items[from..from + n])| == n;
  }

  lemma FitsNext(p: Page, offset: nat, limit: nat, items: seq<Item>, at: nat)
    requires 1 <= offset <= at + 1 && at < |items| && limit >= 1 && Holding(p, offset, limit, items, at)
    ensures Refuses(p, offset, limit, items[at]) <==> !Fits(items, offset - 1, at + 1 - (offset - 1), limit)
    ensures !Refuses(p, offset, limit, items[at]) ==>
              Holding(Appended(p, offset, limit, items[at]), offset, limit, items, at + 1)
  {
    var from := offset - 1;
    var n := at - from;
    PageGrows(items, from, n);
    assert n == 0 ==> RenderAll(items[from..at]) == [];
    assert p.lines == RenderAll(items[from..at]);
    JoinedEmpty();
    hide RenderAll, Joined, Render;
    assert items[from..at + 1] == items[from..from + n + 1] && items[from..from + n] == items[from..at];
    assert |p.lines| == n;
    assert Cost(p, Render(items[at])) == |Render(items[at])| + if n == 0 then 0 else 1;
  }

  lemma JoinedEmpty()
    ensures Joined([]) == []
  {
  }

  // A line always fits an empty page.
  lemma OneLineFits(i: Item)
    ensures |Render(i)| <= MAX_READ_BYTES
  {
  }

  lemma SkipsLine(p: Page, offset: nat, limit: nat, items: seq<Item>, at: nat)
    requires Holding(p, offset, limit, items, at) && at < |items| && at + 1 < offset
    ensures !Refuses(p, offset, limit, items[at])
    ensures Holding(Appended(p, offset, limit, items[at]), offset, limit, items, at + 1)
  {
  }

  // A page filled up to position `at` that can take no more.
  lemma PageEnds(p: Page, offset: nat, limit: nat, items: seq<Item>, at: nat)
    requires limit >= 1 && Holding(p, offset, limit, items, at) && offset <= at + 1
    requires at < |items| ==> !Fits(items, offset - 1, at + 1 - (offset - 1), limit)
    ensures var from, n := offset - 1, |p.lines|;
            from + n == at && IsPageSize(items, from, n, limit) && p.lines == RenderAll(items[from..from + n])
  {
    var from := offset - 1;
    assert at == from ==> items[from..at] == [];
    assert RenderAll([]) == [];
    hide Joined, Render;
    assert p.lines == RenderAll(items[from..at]);
    assert from + |p.lines| == at;
    hide RenderAll;
  }

  lemma FilledToTheEnd(p: Page, offset: nat, limit: nat, items: seq<Item>)
    requires limit >= 1 && Holding(p, offset, limit, items, |items|)
    ensures Paged(Filled(p, offset, limit, items[|items|..]), offset, limit, items)
  {
    assert items[|items|..] == [];
    if offset <= |items| { PageEnds(p, offset, limit, items, |items|); }
    hide RenderAll, Joined;
  }

  // From any point of the file on, `append` fills the page with the most lines that fit, and
  // leaves the marker exactly when lines remain.
  lemma {:induction false} FilledIsPage(p: Page, offset: nat, limit: nat, items: seq<Item>, at: nat)
    requires limit >= 1 && Holding(p, offset, limit, items, at)
    ensures Paged(Filled(p, offset, limit, items[at..]), offset, limit, items)
    decreases |items| - at
  {
    if at == |items| {
      FilledToTheEnd(p, offset, limit, items);
    } else {
      assert items[at..][0] == items[at] && items[at..][1..] == items[at + 1..];
      if at + 1 < offset {
        SkipsLine(p, offset, limit, items, at);
        hide Appended, Refuses, Fits, Holding;
        FilledIsPage(Appended(p, offset, limit, items[at]), offset, limit, items, at + 1);
      } else {
        FitsNext(p, offset, limit, items, at);
        hide Appended, Refuses, Fits;
        if Refuses(p, offset, limit, items[at]) {
          PageEnds(p, offset, limit, items, at);
        } else {
          hide Holding;
          FilledIsPage(Appended(p, offset, limit, items[at]), offset, limit, items, at + 1);
        }
      }
    }
  }

  // The most lines from `offset` on that fit, and the offset of the next one when there is one.
  predicate Paged(f: Page, offset: nat, limit: nat, items: seq<Item>) {
    if |items| < offset then f.lines == [] && f.next == 0
    else offset >= 1 && PageFrom(f, offset - 1, limit, items)
  }

  predicate PageFrom(f: Page, from: nat, limit: nat, items: seq<Item>) {
    var n := |f.lines|;
    && IsPageSize(items, from, n, limit)
    && f.lines == RenderAll(items[from..from + n])
    && f.next == (if from + n < |items| then from + 1 + n else 0)
  }

  // The reader takes every line of the file, and its last one does not vanish.
  predicate Accepted(chunks: seq<Bytes>, items: seq<Item>) {
    && Items(NoLine(), AllSegments(chunks)) == Some(items)
    && (items == [] || !Vanished(LastPartial(NoLine(), AllSegments(chunks))))
  }

  // Reading an accepted file from `offset` gives the most lines that fit both limits, in order;
  // the marker names the line after them, and there is none exactly when no line remains.
  lemma ReadGivesPage(chunks: seq<Bytes>, offset: nat, limit: nat, items: seq<Item>)
    requires offset >= 1 && limit >= 1 && Accepted(chunks, items)
    ensures Reads(ReadResult(chunks, offset, limit), offset, limit, items)
  {
    AllSegmentsShaped(chunks);
    var p := FirstPage();
    assert Begun(p, offset) && Holding(p, offset, limit, items, 0);
    var segments := AllSegments(chunks);
    var f := Filled(p, offset, limit, items);
    assert ReadResult(chunks, offset, limit)
           == Finish(offset, limit, OnSegments(offset, limit, State(p, NoLine(), Going), segments));
    assert items[0..] == items;
    hide *;
    ReaderFills(offset, limit, p, NoLine(), segments);
    FilledIsPage(p, offset, limit, items, 0);
    PagedReads(f, offset, limit, items);
  }

  predicate Reads(r: Result, offset: nat, limit: nat, items: seq<Item>) {
    if |items| < offset then r == if offset == 1 then Got([], 0) else Fail(OutOfRange)
    else offset >= 1 && r.Got? && r.lines != [] && PageFrom(Page(r.lines, 0, 0, r.next), offset - 1, limit, items)
  }

  lemma PagedReads(f: Page, offset: nat, limit: nat, items: seq<Item>)
    requires limit >= 1 && Paged(f, offset, limit, items)
    ensures Reads(if f.lines == [] && offset != 1 then Fail(OutOfRange) else Got(f.lines, f.next), offset, limit, items)
  {
    hide IsPageSize, RenderAll;
    if |items| >= offset {
      FirstLineFits(items, offset - 1, limit);
      PageNotEmpty(f, offset - 1, limit, items);
    }
  }

  // There is at least one line on a page, so following the markers ends.
  lemma PageNotEmpty(f: Page, from: nat, limit: nat, items: seq<Item>)
    requires from < |items| && PageFrom(f, from, limit, items) && Fits(items, from, 1, limit)
    ensures f.lines != []
  {
  }

  lemma FirstLineFits(items: seq<Item>, from: nat, limit: nat)
    requires limit >= 1 && from < |items|
    ensures Fits(items, from, 1, limit)
  {
    PageGrows(items, from, 0);
    assert items[from..from + 0] == [];
    JoinedEmpty();
    assert RenderAll([]) == [];
    OneLineFits(items[from]);
  }

  predicate Shaped(segment: Bytes) { segment != [] && Unbroken(segment[..|segment| - 1]) }

  predicate AllShaped(segments: seq<Bytes>) { forall i :: 0 <= i < |segments| ==> Shaped(segments[i]) }

  lemma {:induction false} SegmentsShaped(chunk: Bytes)
    ensures AllShaped(Segments(chunk)) && Flatten(Segments(chunk)) == chunk
    decreases |chunk|
  {
    if chunk != [] {
      var end := SegmentEnd(chunk);
      SegmentsShaped(chunk[end..]);
      assert chunk == chunk[..end] + chunk[end..];
      assert ([chunk[..end]] + Segments(chunk[end..]))[1..] == Segments(chunk[end..]);
      hide SegmentEnd, Unbroken;
    }
  }

  lemma {:induction false} AllSegmentsShaped(chunks: seq<Bytes>)
    ensures AllShaped(AllSegments(chunks)) && NonEmpty(AllSegments(chunks))
    ensures Flatten(AllSegments(chunks)) == Flatten(chunks)
  {
    if chunks != [] {
      SegmentsShaped(chunks[0]);
      AllSegmentsShaped(chunks[1..]);
      FlattenAppend(Segments(chunks[0]), AllSegments(chunks[1..]));
      hide Segments, Unbroken;
    }
  }

  // A last line that vanishes leaves its mark on the page that ends with the line before: the
  // marker names a line the file does not have.
  lemma {:induction false} VanishedLineIsPromised(offset: nat, p: Page, q: Partial, segments: seq<Bytes>)
    requires NonEmpty(segments) && p.lines == [] && p.bytes == 0 && p.next == 0
    requires Items(q, segments).Some? && Items(q, segments).value != [] && Vanished(LastPartial(q, segments))
    requires p.line + |Items(q, segments).value| == offset + 1
    ensures var r := Finish(offset, 1, OnSegments(offset, 1, State(p, q, Going), segments));
            r.Got? && r.next == offset + 1
    decreases |segments|
  {
    hide IsBinary, WellFormed, Truncated, Render;
    if segments != [] {
      match FeedSegment(q, segments[0])
      case Holds(q') => VanishedLineIsPromised(offset, p, q', segments[1..]);
      case Emits(i) =>
        if Items(NoLine(), segments[1..]).value == [] {
          LastBeforeVanished(offset, p, q, segments, i);
        } else {
          VanishedLineIsPromised(offset, Appended(p, offset, 1, i), NoLine(), segments[1..]);
        }
    }
  }

  lemma LastBeforeVanished(offset: nat, p: Page, q: Partial, segments: seq<Bytes>, i: Item)
    requires p.lines == [] && p.bytes == 0 && p.next == 0 && p.line == offset
    requires segments != [] && FeedSegment(q, segments[0]) == Emits(i)
    requires Vanished(LastPartial(NoLine(), segments[1..]))
    ensures var r := Finish(offset, 1, OnSegments(offset, 1, State(p, q, Going), segments));
            r.Got? && r.next == offset + 1
  {
    OneLineFits(i);
    hide FeedSegment, Render, WellFormed;
    var s := OnSegment(offset, 1, State(p, q, Going), segments[0]);
    assert s == State(Page([Render(i)], |Render(i)|, offset + 1, 0), NoLine(), Going);
    assert segments[1..] != [];
    var t := OnSegment(offset, 1, s, segments[1]);
    EndsUnlessGoing(offset, 1, t, segments[1..][1..]);
  }

  // Exactly when reading a file the reader takes gives the page of its lines, from every offset
  // and for every limit: its last line must not vanish, unless it is the only one.
  lemma PagingIff(chunks: seq<Bytes>, items: seq<Item>)
    requires Items(NoLine(), AllSegments(chunks)) == Some(items)
    ensures (forall offset, limit :: offset >= 1 && limit >= 1 ==>
               Reads(ReadResult(chunks, offset, limit), offset, limit, items))
            <==> items == [] || !Vanished(LastPartial(NoLine(), AllSegments(chunks)))
  {
    hide ReadResult, Reads;
    if Accepted(chunks, items) {
      forall offset, limit | offset >= 1 && limit >= 1
        ensures Reads(ReadResult(chunks, offset, limit), offset, limit, items)
      {
        hide Accepted;
        ReadGivesPage(chunks, offset, limit, items);
      }
    } else {
      MisreadLastPage(chunks, items);
    }
  }

  lemma MisreadLastPage(chunks: seq<Bytes>, items: seq<Item>)
    requires Items(NoLine(), AllSegments(chunks)) == Some(items) && items != []
    requires Vanished(LastPartial(NoLine(), AllSegments(chunks)))
    ensures ReadResult(chunks, |items|, 1).Got? && ReadResult(chunks, |items|, 1).next == |items| + 1
    ensures !Reads(ReadResult(chunks, |items|, 1), |items|, 1, items)
  {
    AllSegmentsShaped(chunks);
    hide Items, LastPartial, AllSegments, Finish, OnSegments, IsPageSize, RenderAll;
    VanishedLineIsPromised(|items|, FirstPage(), NoLine(), AllSegments(chunks));
  }

  // ---- following the markers ----

  // A page of at least one line, and a marker that names the line after it.
  predicate Advances(r: Result, offset: nat, items: seq<Item>) {
    && r.Got? && r.lines != [] && 1 <= offset && offset - 1 + |r.lines| <= |items|
    && r.lines == RenderAll(items[offset - 1..offset - 1 + |r.lines|])
    && r.next == if offset - 1 + |r.lines| < |items| then offset + |r.lines| else 0
  }

  lemma ReadAdvances(chunks: seq<Bytes>, items: seq<Item>, offset: nat, limit: nat)
    requires Accepted(chunks, items) && 1 <= offset <= |items| && limit >= 1
    ensures Advances(ReadResult(chunks, offset, limit), offset, items)
  {
    ReadGivesPage(chunks, offset, limit, items);
    hide ReadResult, Accepted, RenderAll, Fits;
  }

  ghost predicate Positive(limit: nat -> nat) { forall o :: limit(o) >= 1 }

  // Reading from `offset`, and then from wherever each marker points, with any limits.
  function Walk(chunks: seq<Bytes>, items: seq<Item>, offset: nat, limit: nat -> nat): seq<Bytes>
    requires Accepted(chunks, items) && 1 <= offset <= |items| && Positive(limit)
    decreases |items| - offset
  {
    hide Accepted, ReadResult, RenderAll;
    ReadAdvances(chunks, items, offset, limit(offset));
    var r := ReadResult(chunks, offset, limit(offset));
    if r.next == 0 then r.lines else r.lines + Walk(chunks, items, r.next, limit)
  }

  // Every line is seen exactly once, in order.
  lemma {:induction false} MarkersVisitEveryLine(chunks: seq<Bytes>, items: seq<Item>, offset: nat, limit: nat -> nat)
    requires Accepted(chunks, items) && 1 <= offset <= |items| && Positive(limit)
    ensures Walk(chunks, items, offset, limit) == RenderAll(items[offset - 1..])
    decreases |items| - offset
  {
    hide Accepted, ReadResult, RenderAll;
    var r := ReadResult(chunks, offset, limit(offset));
    ReadAdvances(chunks, items, offset, limit(offset));
    var from, n := offset - 1, |r.lines|;
    if r.next == 0 {
      assert items[from..from + n] == items[from..];
    } else {
      MarkersVisitEveryLine(chunks, items, r.next, limit);
      PartRendered(items, from, n);
    }
  }

  lemma PartRendered(items: seq<Item>, from: nat, n: nat)
    requires from + n <= |items|
    ensures RenderAll(items[from..]) == RenderAll(items[from..from + n]) + RenderAll(items[from + n..])
  {
    assert items[from..] == items[from..from + n] + items[from + n..];
    RenderAllAppend(items[from..from + n], items[from + n..]);
  }

  lemma {:induction false} RenderAllAppend(a: seq<Item>, b: seq<Item>)
    ensures RenderAll(a + b) == RenderAll(a) + RenderAll(b)
  {
    if b == [] {
      assert a + b == a;
      assert RenderAll(a) + [] == RenderAll(a);
    } else {
      var init, last := b[..|b| - 1], b[|b| - 1];
      assert b == init + [last];
      hide *;
      RenderAllAppend(a, init);
      ConcatAssoc(a, init, [last]);
      RenderAllSnoc(a + init, last);
      RenderAllSnoc(init, last);
      ConcatAssoc(RenderAll(a), RenderAll(init), [Render(last)]);
    }
  }

  // ---- the chunks do not matter ----

  // The lines of a whole text: what precedes each newline, and a non-empty rest.
  function LineItems(s: Bytes): seq<Item>
    decreases |s|
  {
    var nl := IndexFrom(s, LF, 0);
    if nl == -1 then if s == [] then [] else [Item(StripCR(s), false)]
    else [Item(StripCR(s[..nl]), false)] + LineItems(s[nl + 1..])
  }

  // No line, its carriage return included, is over the limit.
  predicate ShortLines(s: Bytes)
    decreases |s|
  {
    var nl := IndexFrom(s, LF, 0);
    if nl == -1 then |s| <= MAX_LINE_LENGTH else nl <= MAX_LINE_LENGTH && ShortLines(s[nl + 1..])
  }

  predicate Printable(s: Bytes) { forall k :: 0 <= k < |s| ==> !IsControl(s[k]) }

  lemma {:induction false} PrintableIsText(s: Bytes)
    requires Printable(s)
    ensures !IsBinary(s)
  {
    NoControls(s);
  }

  lemma {:induction false} NoControls(s: Bytes)
    requires Printable(s)
    ensures Controls(s) == 0
  {
    if s != [] { NoControls(s[..|s| - 1]); }
  }

  // A newline parts well-formed text into well-formed text.
  lemma NewlineParts(line: Bytes, rest: Bytes)
    requires WellFormed(line + [LF] + rest)
    ensures WellFormed(line) && WellFormed(rest)
  {
    var s := line + [LF] + rest;
    BoundaryIffNotTail(s, |line|);
    assert s[..|line|] == line && s[|line|..] == [LF] + rest;
    CharIsWellFormed([LF]);
    WellFormedAppend([LF], rest);
  }

  lemma StripKeepsWellFormed(s: Bytes)
    requires WellFormed(s)
    ensures WellFormed(StripCR(s))
  {
    if s != [] && s[|s| - 1] == CR { BoundaryIffNotTail(s, |s| - 1); }
  }

  lemma LineItemsOfFirst(line: Bytes, rest: Bytes)
    requires Unbroken(line)
    ensures LineItems(line + [LF] + rest) == [Item(StripCR(line), false)] + LineItems(rest)
    ensures ShortLines(line + [LF] + rest) <==> |line| <= MAX_LINE_LENGTH && ShortLines(rest)
  {
    var s := line + [LF] + rest;
    FirstNewline(line, rest);
    assert s[..|line|] == line && s[|line| + 1..] == rest;
    hide StripCR;
  }

  lemma FirstNewline(line: Bytes, rest: Bytes)
    requires Unbroken(line)
    ensures IndexFrom(line + [LF] + rest, LF, 0) == |line|
  {
    var s, n := line + [LF] + rest, |line|;
    assert s[n] == LF;
    assert forall k :: 0 <= k < n ==> s[k] == line[k];
  }

  lemma LineItemsOfLast(s: Bytes)
    requires Unbroken(s)
    ensures LineItems(s) == if s == [] then [] else [Item(StripCR(s), false)]
    ensures ShortLines(s) <==> |s| <= MAX_LINE_LENGTH
  {
    assert IndexFrom(s, LF, 0) == -1;
  }

  // A text whose first line is still open at `open` has that line within the limit.
  lemma OpenLineIsShort(open: Bytes, rest: Bytes)
    requires Unbroken(open) && ShortLines(open + rest)
    ensures |open| <= MAX_LINE_LENGTH
  {
    var s := open + rest;
    forall k | 0 <= k < |open| ensures s[k] != LF { assert s[k] == open[k]; }
    hide Unbroken;
  }

  predicate AllPrintable(segments: seq<Bytes>) { forall i :: 0 <= i < |segments| ==> Printable(segments[i]) }

  lemma HeadAndTail(segments: seq<Bytes>)
    requires segments != [] && AllShaped(segments) && AllPrintable(segments)
    ensures Shaped(segments[0]) && !IsBinary(segments[0])
    ensures AllShaped(segments[1..]) && AllPrintable(segments[1..])
    ensures Flatten(segments) == segments[0] + Flatten(segments[1..])
  {
    PrintableIsText(segments[0]);
    hide Shaped, Printable, IsBinary;
  }

  // Well-formed printable text in short lines is read as its lines, however it is cut up.
  lemma {:induction false} ItemsAreLines(open: Bytes, segments: seq<Bytes>)
    requires AllShaped(segments) && AllPrintable(segments) && Unbroken(open)
    requires WellFormed(open + Flatten(segments)) && ShortLines(open + Flatten(segments))
    ensures Items(Partial(open, false), segments) == Some(LineItems(open + Flatten(segments)))
    ensures !LastPartial(Partial(open, false), segments).longLine
    decreases |segments|
  {
    hide *;
    if segments == [] {
      ItemsOfRest(open, segments);
    } else {
      HeadAndTail(segments);
      var segment, rest := segments[0], Flatten(segments[1..]);
      if Ended(segment) {
        EndedIs(segment);
        LineEnds(open, segment, rest);
        assert [] + rest == rest;
        NoLineIs();
        ItemsAreLines([], segments[1..]);
        ItemsEmit(open, segments);
      } else {
        LineGoesOn(open, segment, rest);
        ItemsAreLines(open + segment, segments[1..]);
        ItemsHold(open, segments);
      }
    }
  }

  lemma EndedIs(segment: Bytes)
    requires Ended(segment)
    ensures segment != []
  {
  }

  lemma ItemsOfRest(open: Bytes, none: seq<Bytes>)
    requires none == [] && Unbroken(open) && WellFormed(open + Flatten(none))
    ensures Items(Partial(open, false), none) == Some(LineItems(open + Flatten(none)))
    ensures !LastPartial(Partial(open, false), none).longLine
  {
    assert open + Flatten(none) == open;
    LineItemsOfLast(open);
    StripKeepsWellFormed(open);
  }

  lemma NoLineIs()
    ensures NoLine() == Partial([], false)
  {
  }

  lemma ItemsEmit(open: Bytes, segments: seq<Bytes>)
    requires segments != [] && Ended(segments[0]) && !IsBinary(segments[0])
    requires var line := StripCR(open + segments[0][..|segments[0]| - 1]);
             WellFormed(line) && Items(NoLine(), segments[1..]).Some?
    ensures Items(Partial(open, false), segments)
            == Some([Item(StripCR(open + segments[0][..|segments[0]| - 1]), false)] + Items(NoLine(), segments[1..]).value)
    ensures LastPartial(Partial(open, false), segments) == LastPartial(NoLine(), segments[1..])
  {
    hide WellFormed, StripCR, IsBinary;
  }

  lemma ItemsHold(open: Bytes, segments: seq<Bytes>)
    requires segments != [] && !Ended(segments[0]) && !IsBinary(segments[0])
    requires |open + segments[0]| <= MAX_LINE_LENGTH
    ensures Items(Partial(open, false), segments) == Items(Partial(open + segments[0], false), segments[1..])
    ensures LastPartial(Partial(open, false), segments) == LastPartial(Partial(open + segments[0], false), segments[1..])
  {
    hide WellFormed, IsBinary, Truncated;
  }

  lemma LineEnds(open: Bytes, segment: Bytes, rest: Bytes)
    requires Unbroken(open) && Shaped(segment) && Ended(segment)
    requires WellFormed(open + (segment + rest)) && ShortLines(open + (segment + rest))
    ensures var line := open + segment[..|segment| - 1];
            && WellFormed(StripCR(line)) && WellFormed(rest) && ShortLines(rest) && Unbroken([])
            && LineItems(open + (segment + rest)) == [Item(StripCR(line), false)] + LineItems(rest)
  {
    var line := open + segment[..|segment| - 1];
    SegmentText(open, segment, rest);
    UnbrokenSum(open, segment[..|segment| - 1]);
    hide *;
    NewlineParts(line, rest);
    StripKeepsWellFormed(line);
    LineItemsOfFirst(line, rest);
    UnbrokenNothing();
  }

  lemma UnbrokenNothing()
    ensures Unbroken([])
  {
  }

  lemma SegmentText(open: Bytes, segment: Bytes, rest: Bytes)
    requires Ended(segment)
    ensures open + (segment + rest) == (open + segment[..|segment| - 1]) + [LF] + rest
  {
    var body := segment[..|segment| - 1];
    assert segment == body + [LF];
    ConcatAssoc(open, segment, rest);
    ConcatAssoc(open, body, [LF]);
  }

  lemma UnbrokenSum(a: Bytes, b: Bytes)
    requires Unbroken(a) && Unbroken(b)
    ensures Unbroken(a + b)
  {
  }

  lemma LineGoesOn(open: Bytes, segment: Bytes, rest: Bytes)
    requires Unbroken(open) && Shaped(segment) && !Ended(segment) && ShortLines(open + (segment + rest))
    ensures Unbroken(open + segment) && |open + segment| <= MAX_LINE_LENGTH
    ensures open + (segment + rest) == (open + segment) + rest
  {
    ConcatAssoc(open, segment, rest);
    UnbrokenJoin(open, segment);
    OpenLineIsShort(open + segment, rest);
  }

  lemma UnbrokenJoin(open: Bytes, segment: Bytes)
    requires Unbroken(open) && Shaped(segment) && !Ended(segment)
    ensures Unbroken(open + segment)
  {
    forall k | 0 <= k < |open + segment| ensures (open + segment)[k] != LF {
      if k >= |open| && k < |open| + |segment| - 1 {
        assert (open + segment)[k] == segment[..|segment| - 1][k - |open|];
      }
    }
  }

  lemma {:induction false} PrintablePieces(segments: seq<Bytes>, i: nat)
    requires Printable(Flatten(segments)) && i < |segments|
    ensures Printable(segments[i])
  {
    var first, rest := segments[0], Flatten(segments[1..]);
    assert Flatten(segments) == first + rest;
    if i == 0 {
      forall k | 0 <= k < |first| ensures !IsControl(first[k]) { assert (first + rest)[k] == first[k]; }
    } else {
      forall k | 0 <= k < |rest| ensures !IsControl(rest[k]) { assert (first + rest)[|first| + k] == rest[k]; }
      PrintablePieces(segments[1..], i - 1);
    }
  }

  // For valid UTF-8 without control bytes and without overlong lines, the result is the page of
  // the file's lines, whatever chunks the file comes in.
  lemma ChunksDoNotMatter(chunks: seq<Bytes>, offset: nat, limit: nat)
    requires offset >= 1 && limit >= 1
    requires var file := Flatten(chunks); WellFormed(file) && ShortLines(file) && Printable(file)
    ensures Reads(ReadResult(chunks, offset, limit), offset, limit, LineItems(Flatten(chunks)))
    ensures forall other: seq<Bytes> :: Flatten(other) == Flatten(chunks) ==>
              ReadResult(other, offset, limit) == ReadResult(chunks, offset, limit)
  {
    AnyChunking(chunks, Flatten(chunks), offset, limit);
    hide *;
    forall other: seq<Bytes> | Flatten(other) == Flatten(chunks)
      ensures ReadResult(other, offset, limit) == ReadResult(chunks, offset, limit)
    {
      AnyChunking(other, Flatten(chunks), offset, limit);
    }
  }

  lemma AnyChunking(chunks: seq<Bytes>, file: Bytes, offset: nat, limit: nat)
    requires offset >= 1 && limit >= 1 && Flatten(chunks) == file
    requires WellFormed(file) && ShortLines(file) && Printable(file)
    ensures var f := Filled(FirstPage(), offset, limit, LineItems(file));
            ReadResult(chunks, offset, limit)
            == if f.lines == [] && offset != 1 then Fail(OutOfRange) else Got(f.lines, f.next)
    ensures Reads(ReadResult(chunks, offset, limit), offset, limit, LineItems(file))
  {
    AllSegmentsShaped(chunks);
    var segments := AllSegments(chunks);
    assert [] + Flatten(segments) == file;
    forall i | 0 <= i < |segments| ensures Printable(segments[i]) { PrintablePieces(segments, i); }
    assert AllPrintable(segments);
    assert Begun(FirstPage(), offset);
    hide Begun, FirstPage, Flatten, WellFormed, ShortLines, Printable, LineItems, AllShaped, NonEmpty;
    hide Items, LastPartial, OnSegments, Filled, Finish, AllSegments, Reads;
    ItemsAreLines([], segments);
    ReaderFills(offset, limit, FirstPage(), NoLine(), segments);
    ReadGivesPage(chunks, offset, limit, LineItems(file));
  }

  // ---- lines that vanish ----

  lemma CutLeavesText(open: Bytes, rest: Bytes)
    requires WellFormed(open + rest) && |open| > MAX_LINE_LENGTH
    ensures Truncated(open, MAX_LINE_LENGTH) != []
  {
    var s, c := open + rest, CutBack(open, MAX_LINE_LENGTH);
    if c < MAX_LINE_LENGTH - 3 {
      forall k | c + 1 <= k < MAX_LINE_LENGTH + 1 ensures IsTail(s[k]) { assert s[k] == open[k]; }
      TailRunShort(s, c + 1, MAX_LINE_LENGTH + 1);
    }
  }

  // `before` is the text of the open line so far.
  predicate Tracks(q: Partial, before: Bytes) { if q.longLine then q.pending != [] else q.pending == before }

  lemma FeedTracks(q: Partial, before: Bytes, segment: Bytes, rest: Bytes)
    requires Shaped(segment) && WellFormed(before + (segment + rest)) && Tracks(q, before)
    ensures FeedSegment(q, segment).Holds? ==>
              Tracks(FeedSegment(q, segment).partial, before + segment) && WellFormed((before + segment) + rest)
    ensures FeedSegment(q, segment).Emits? ==> WellFormed([] + rest)
  {
    ConcatAssoc(before, segment, rest);
    hide IsBinary, StripCR;
    if Ended(segment) {
      SegmentText(before, segment, rest);
      NewlineParts(before + segment[..|segment| - 1], rest);
      assert [] + rest == rest;
      hide WellFormed, Truncated;
    } else if !q.longLine && |before + segment| > MAX_LINE_LENGTH {
      CutLeavesText(before + segment, rest);
      hide WellFormed, Truncated;
    }
  }

  lemma LastPartialCons(q: Partial, segments: seq<Bytes>)
    requires segments != []
    ensures LastPartial(q, segments)
            == match FeedSegment(q, segments[0])
               case Rejects(_) => q
               case Holds(q') => LastPartial(q', segments[1..])
               case Emits(_) => LastPartial(NoLine(), segments[1..])
  {
  }

  lemma TracksNotVanished(q: Partial, before: Bytes)
    requires Tracks(q, before)
    ensures !Vanished(q)
  {
  }

  lemma {:induction false} NeverVanishes(before: Bytes, q: Partial, segments: seq<Bytes>)
    requires AllShaped(segments) && WellFormed(before + Flatten(segments)) && Tracks(q, before)
    ensures !Vanished(LastPartial(q, segments))
    decreases |segments|
  {
    TracksNotVanished(q, before);
    if segments != [] {
      var segment, rest := segments[0], Flatten(segments[1..]);
      assert Flatten(segments) == segment + rest;
      assert Shaped(segment) && AllShaped(segments[1..]);
      assert Tracks(NoLine(), []);
      hide *;
      LastPartialCons(q, segments);
      FeedTracks(q, before, segment, rest);
      match FeedSegment(q, segment)
      case Rejects(_) =>
      case Holds(q') => NeverVanishes(before + segment, q', segments[1..]);
      case Emits(_) => NeverVanishes([], NoLine(), segments[1..]);
    }
  }

  // A valid UTF-8 file whose lines are all accepted is read page by page.
  lemma ValidFileGivesPage(chunks: seq<Bytes>, offset: nat, limit: nat, items: seq<Item>)
    requires offset >= 1 && limit >= 1 && Octets(Flatten(chunks))
    requires Items(NoLine(), AllSegments(chunks)) == Some(items)
    ensures Reads(ReadResult(chunks, offset, limit), offset, limit, items)
  {
    OctetsIsWellFormed(Flatten(chunks));
    AllSegmentsShaped(chunks);
    assert [] + Flatten(chunks) == Flatten(chunks);
    hide Octets, WellFormed, Items, AllSegments, Flatten, ReadResult, Reads, LastPartial;
    NeverVanishes([], NoLine(), AllSegments(chunks));
    ReadGivesPage(chunks, offset, limit, items);
  }

  // 2001 continuation bytes are cut to nothing and then forgotten.
  function Stray(): Bytes { seq(2001, _ => 0x80) }

  lemma StrayIsForgotten()
    ensures FeedSegment(NoLine(), Stray()) == Holds(Partial([], true))
  {
    var s := Stray();
    assert Printable(s);
    PrintableIsText(s);
    assert NoLine().pending + s == s;
    assert CutBack(s, MAX_LINE_LENGTH) == 0;
    assert Truncated(s, MAX_LINE_LENGTH) == [];
    hide IsBinary;
  }

  // Without validity the marker can point past the file: it names line 2, and reading from line
  // 2 is out of range.
  lemma MarkerPastTheEnd()
    ensures ReadResult([[65, LF] + Stray()], 1, 1) == Got([[65]], 2)
    ensures ReadResult([[65, LF] + Stray()], 2, 1) == Fail(OutOfRange)
  {
    var a: Bytes := [65, LF];
    StraySegments();
    AFed();
    StrayIsForgotten();
    hide Stray, Segments, AllSegments, FeedSegment, WellFormed, IsBinary;
    AfterA(1);
    AfterA(2);
    TwoSegments(1, a, Stray());
    TwoSegments(2, a, Stray());
    hide OnSegments;
  }

  lemma TwoSegments(offset: nat, a: Bytes, b: Bytes)
    ensures var s := OnSegment(offset, 1, Start(), a);
            s.status.Going? ==> OnSegments(offset, 1, Start(), [a, b]) == OnSegment(offset, 1, s, b)
  {
    hide OnSegment;
    var s := OnSegment(offset, 1, Start(), a);
    OnSegmentsCons(offset, 1, Start(), a, [b]);
    assert [a] + [b] == [a, b];
    if s.status.Going? {
      OnSegmentsCons(offset, 1, s, b, []);
      assert [b] + [] == [b];
    }
  }

  lemma AfterA(offset: nat)
    requires 1 <= offset <= 2
    requires FeedSegment(NoLine(), [65, LF]) == Emits(Item([65], false))
    ensures OnSegment(offset, 1, Start(), [65, LF])
            == State(if offset == 1 then Page([[65]], 1, 2, 0) else Page([], 0, 2, 0), NoLine(), Going)
  {
    assert Render(Item([65], false)) == [65];
  }

  lemma AFed()
    ensures FeedSegment(NoLine(), [65, LF]) == Emits(Item([65], false))
  {
    var a: Bytes := [65, LF];
    assert Printable(a);
    PrintableIsText(a);
    assert NoLine().pending + a[..1] == [65];
    CharIsWellFormed([65]);
    hide IsBinary, WellFormed;
  }

  lemma StraySegments()
    ensures AllSegments([[65, LF] + Stray()]) == [[65, LF], Stray()]
  {
    var a: Bytes := [65, LF];
    var chunk := a + Stray();
    OneSegment(Stray());
    assert Segments(chunk) == [a] + Segments(Stray()) by {
      FirstNewline([65], Stray());
      assert [65] + [LF] + Stray() == chunk;
      assert SegmentEnd(chunk) == 2 && chunk[..2] == a && chunk[2..] == Stray();
    }
    hide Stray, Segments;
    var chunks: seq<Bytes> := [chunk];
    assert chunks[1..] == [] && AllSegments(chunks[1..]) == [];
    assert Segments(chunk) + [] == [a, Stray()];
  }

  lemma OneSegment(s: Bytes)
    requires s != [] && Unbroken(s[..|s| - 1])
    ensures Segments(s) == [s]
  {
    assert SegmentEnd(s) == |s| by {
      forall k | 0 <= k < |s| - 1 ensures s[k] != LF { assert s[k] == s[..|s| - 1][k]; }
    }
    assert s[..|s|] == s && s[|s|..] == [];
  }

  // ---- what a line of a page looks like ----

  // A line of at most 2000 bytes that was not cut is shown as it is; any other is shown as a
  // beginning of it that parts no character, as long as 2000 bytes allow, and the notice.
  lemma ShownAs(i: Item)
    ensures |i.text| <= 2000 && !i.force ==> Render(i) == i.text
    ensures |i.text| <= 2000 && i.force ==> Render(i) == i.text + SUFFIX
    ensures |i.text| > 2000 ==>
              exists c: nat :: c <= 2000 && Render(i) == i.text[..c] + SUFFIX && (c == 0 || !IsTail(i.text[c]))
                               && forall k :: c < k <= 2000 ==> IsTail(i.text[k])
  {
    if |i.text| > 2000 {
      var c := CutBack(i.text, MAX_LINE_LENGTH);
      assert Render(i) == i.text[..c] + SUFFIX;
    }
    hide IsTail;
  }

  // The lines of a page are the items, one by one.
  lemma {:induction false} RenderAllAt(items: seq<Item>, k: nat)
    requires k < |items|
    ensures RenderAll(items)[k] == Render(items[k])
  {
    hide Render;
    if k < |items| - 1 { RenderAllAt(items[..|items| - 1], k); }
  }

  function Total(texts: seq<Bytes>): nat { if texts == [] then 0 else |texts[0]| + Total(texts[1..]) }

  lemma {:induction false} TotalSnoc(texts: seq<Bytes>, text: Bytes)
    ensures Total(texts + [text]) == Total(texts) + |text|
  {
    if texts == [] {
      assert [text][1..] == [] && texts + [text] == [text];
    } else {
      assert (texts + [text])[1..] == texts[1..] + [text];
      TotalSnoc(texts[1..], text);
    }
  }

  // The size a page is measured by: its lines, and one newline between two of them.
  lemma {:induction false} JoinedSize(texts: seq<Bytes>)
    ensures |Joined(texts)| == Total(texts) + if texts == [] then 0 else |texts| - 1
  {
    if texts != [] {
      var init, last := texts[..|texts| - 1], texts[|texts| - 1];
      assert texts == init + [last];
      hide Joined, Total;
      JoinedSize(init);
      JoinedSnoc(init, last);
      TotalSnoc(init, last);
    }
  }

  // ---- in the terms of the tool's description ----

  // Binary means a NUL byte, or more than three tenths of bytes below 9 or from 14 to 31.
  lemma BinaryIff(s: Bytes)
    ensures IsBinary(s)
            <==> (exists k :: 0 <= k < |s| && s[k] == 0)
                 || 10 * |set k | 0 <= k < |s| && (s[k] < 9 || 14 <= s[k] <= 31)| > 3 * |s|
  {
    ControlsCounted(s);
  }

  lemma {:induction false} ControlsCounted(s: Bytes)
    ensures Controls(s) == |set k | 0 <= k < |s| && (s[k] < 9 || 14 <= s[k] <= 31)|
  {
    if s != [] {
      var n := |s| - 1;
      ControlsCounted(s[..n]);
      var before := set k | 0 <= k < n && (s[..n][k] < 9 || 14 <= s[..n][k] <= 31);
      var all := set k | 0 <= k < |s| && (s[k] < 9 || 14 <= s[k] <= 31);
      var last: set<int> := if s[n] < 9 || 14 <= s[n] <= 31 then {n} else {};
      assert all == before + last && n !in before;
    }
  }

  // A page holds at most 50 KiB.
  lemma PageIsSmall(chunks: seq<Bytes>, offset: nat, limit: nat, items: seq<Item>)
    requires offset >= 1 && limit >= 1 && Accepted(chunks, items) && ReadResult(chunks, offset, limit).Got?
    ensures var texts := ReadResult(chunks, offset, limit).lines;
            |texts| <= limit && Total(texts) + |texts| <= 51201
  {
    ReadGivesPage(chunks, offset, limit, items);
    var r := ReadResult(chunks, offset, limit);
    JoinedSize(r.lines);
    hide ReadResult, Accepted, RenderAll, Joined;
  }

  // A line ended by a carriage return and a newline reads like one ended by a newline alone.
  lemma CrlfReadsAlike(line: Bytes, rest: Bytes)
    requires Unbroken(line) && (line == [] || line[|line| - 1] != 0x0D)
    ensures LineItems(line + [0x0D] + [LF] + rest) == LineItems(line + [LF] + rest)
    ensures LineItems(line + [LF] + rest) == [Item(line, false)] + LineItems(rest)
  {
    var ended := line + [0x0D];
    assert StripCR(line) == line && StripCR(ended) == line && Unbroken(ended) by {
      assert ended[..|line|] == line;
    }
    hide *;
    LineItemsOfFirst(line, rest);
    LineItemsOfFirst(ended, rest);
  }
}
