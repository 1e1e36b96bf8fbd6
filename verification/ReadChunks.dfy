// src/tool/read.h, read_file: what the chunk boundaries of a file decide. A line of more than 2000
// bytes that is still open at the end of a chunk is cut, and what the chunk with its newline adds
// to it is appended to the cut.
module ReadChunks {
  import opened Bytes
  import opened Utf8
  import opened ReadPage

  // The chunk ends an overlong line, and begins inside one of its characters.
  predicate PartsLongLine(open: Bytes, chunk: Bytes) {
    |open| > MAX_LINE_LENGTH && LF in chunk && IsTail(chunk[0])
  }

  // No chunk does that, the first one continuing the line `open`.
  predicate Spared(open: Bytes, chunks: seq<Bytes>)
    decreases |chunks|
  {
    chunks == [] || (!PartsLongLine(open, chunks[0]) && Spared(Tail(open + chunks[0]), chunks[1..]))
  }

  // What the reader remembers of the open line.
  predicate Remembers(q: Partial, open: Bytes) {
    if q.longLine then WellFormed(q.pending) && |open| > MAX_LINE_LENGTH
    else q.pending == open && |open| <= MAX_LINE_LENGTH
  }

  lemma TailOfLine(line: Bytes, rest: Bytes)
    requires Unbroken(line)
    ensures Tail(line + [LF] + rest) == Tail(rest)
  {
    LinesOfFirst(line, rest);
  }

  // The reader takes the chunks of a valid printable file exactly when none of them parts an
  // overlong line inside a character.
  lemma {:induction false} AcceptedFrom(open: Bytes, q: Partial, chunk: Bytes, chunks: seq<Bytes>)
    requires Unbroken(open) && Remembers(q, open) && Printable(chunk) && AllPrintable(chunks)
    requires WellFormed(open + (chunk + Flatten(chunks)))
    ensures Items(q, Segments(chunk) + AllSegments(chunks)).Some?
            <==> !PartsLongLine(open, chunk) && Spared(Tail(open + chunk), chunks)
    decreases |chunks|, |chunk|
  {
    hide *;
    var more := AllSegments(chunks);
    if chunk == [] {
      NothingRead(open, chunks);
      if chunks == [] {
        EndAccepted(open, q);
      } else {
        ChunkFirst(chunks);
        AcceptedFrom(open, q, chunks[0], chunks[1..]);
        SparedCons(open, chunks);
      }
    } else if LF in chunk {
      var end := SegmentEnd(chunk);
      var body, rest := chunk[..end - 1], chunk[end..];
      LineOf(chunk);
      PartsIff(open, chunk);
      var text := rest + Flatten(chunks);
      TextOf(open, body, rest, Flatten(chunks));
      NewlineParts(open + body, text);
      UnbrokenSum(open, body);
      SegmentsCons(chunk, more);
      TailOfLine(open + body, rest);
      if PartsLongLine(open, chunk) {
        CutRejects(open, q, body);
        ItemsFirst(q, body + [LF], Segments(rest) + more);
      } else {
        LineEmits(open, q, body);
        ItemsFirst(q, body + [LF], Segments(rest) + more);
        Fresh(rest, Flatten(chunks));
        AcceptedFrom([], NoLine(), rest, chunks);
      }
    } else {
      NoNewline(open, chunk, more, Flatten(chunks));
      LineHolds(open, q, chunk, Flatten(chunks));
      ItemsFirst(q, chunk, more);
      NothingRead(open + chunk, chunks);
      AcceptedFrom(open + chunk, FeedSegment(q, chunk).partial, [], chunks);
    }
  }

  lemma NothingRead(open: Bytes, chunks: seq<Bytes>)
    requires Unbroken(open)
    ensures Segments([]) + AllSegments(chunks) == AllSegments(chunks)
    ensures !PartsLongLine(open, []) && Tail(open + []) == open && Tail(open) == open
    ensures [] + Flatten(chunks) == Flatten(chunks) && Printable([])
    ensures chunks == [] ==> AllSegments(chunks) == [] && Flatten(chunks) == [] && Spared(open, chunks)
  {
    assert open + [] == open;
    LinesOfUnbroken(open);
  }

  lemma EndAccepted(open: Bytes, q: Partial)
    requires Remembers(q, open) && WellFormed(open + ([] + []))
    ensures Items(q, []).Some?
  {
    assert open + ([] + []) == open;
    StripKeepsWellFormed(q.pending);
    hide WellFormed;
  }

  lemma ChunkFirst(chunks: seq<Bytes>)
    requires chunks != [] && AllPrintable(chunks)
    ensures AllSegments(chunks) == Segments(chunks[0]) + AllSegments(chunks[1..])
    ensures Flatten(chunks) == chunks[0] + Flatten(chunks[1..])
    ensures Printable(chunks[0]) && AllPrintable(chunks[1..])
  {
  }

  lemma SparedCons(open: Bytes, chunks: seq<Bytes>)
    requires chunks != []
    ensures Spared(open, chunks) <==> !PartsLongLine(open, chunks[0]) && Spared(Tail(open + chunks[0]), chunks[1..])
  {
    hide PartsLongLine, Tail;
  }

  lemma SegmentsCons(chunk: Bytes, more: seq<Bytes>)
    requires chunk != []
    ensures Segments(chunk) + more == [chunk[..SegmentEnd(chunk)]] + (Segments(chunk[SegmentEnd(chunk)..]) + more)
  {
    hide SegmentEnd;
    ConcatAssoc([chunk[..SegmentEnd(chunk)]], Segments(chunk[SegmentEnd(chunk)..]), more);
  }

  // The first line of a chunk.
  lemma LineOf(chunk: Bytes)
    requires LF in chunk
    ensures var end := SegmentEnd(chunk);
            && chunk[..end] == chunk[..end - 1] + [LF] && chunk == (chunk[..end - 1] + [LF]) + chunk[end..]
            && Unbroken(chunk[..end - 1]) && (chunk[..end - 1] + [LF])[0] == chunk[0]
            && (Printable(chunk) ==> Printable(chunk[..end - 1] + [LF]) && Printable(chunk[end..]))
  {
    var nl := IndexFrom(chunk, LF, 0);
    assert nl != -1;
    assert chunk[..nl + 1] == chunk[..nl] + [LF];
  }

  lemma PartsIff(open: Bytes, chunk: Bytes)
    requires LF in chunk
    ensures PartsLongLine(open, chunk) <==> |open| > MAX_LINE_LENGTH && IsTail(chunk[0])
  {
  }

  lemma TextOf(open: Bytes, body: Bytes, rest: Bytes, more: Bytes)
    ensures open + (((body + [LF]) + rest) + more) == (open + body) + [LF] + (rest + more)
    ensures open + ((body + [LF]) + rest) == (open + body) + [LF] + rest
  {
    ConcatAssoc(body + [LF], rest, more);
    ConcatAssoc(open, body + [LF], rest + more);
    ConcatAssoc(open, body + [LF], rest);
    ConcatAssoc(open, body, [LF]);
  }

  lemma ItemsFirst(q: Partial, segment: Bytes, segments: seq<Bytes>)
    ensures var fed := FeedSegment(q, segment);
            && (fed.Rejects? ==> Items(q, [segment] + segments).None?)
            && (fed.Holds? ==> Items(q, [segment] + segments) == Items(fed.partial, segments))
            && (fed.Emits? ==> Items(q, [segment] + segments)
                               == (var rest := Items(NoLine(), segments);
                                   if rest.Some? then Some([fed.item] + rest.value) else None))
  {
    assert ([segment] + segments)[0] == segment && ([segment] + segments)[1..] == segments;
    hide FeedSegment;
  }

  lemma Fresh(rest: Bytes, more: Bytes)
    ensures Unbroken([]) && Remembers(NoLine(), []) && !PartsLongLine([], rest)
    ensures [] + rest == rest && [] + (rest + more) == rest + more
  {
  }

  lemma LineEmits(open: Bytes, q: Partial, body: Bytes)
    requires Remembers(q, open) && Printable(body + [LF])
    requires WellFormed(open + body) && (|open| > MAX_LINE_LENGTH ==> !IsTail((body + [LF])[0]))
    ensures FeedSegment(q, body + [LF]).Emits?
  {
    var segment := body + [LF];
    assert segment[..|segment| - 1] == body;
    PrintableIsText(segment);
    if q.longLine {
      if body == [] {
        assert q.pending + body == q.pending;
      } else {
        BoundaryIffNotTail(open + body, |open|);
        assert (open + body)[|open|] == segment[0] && (open + body)[|open|..] == body;
        WellFormedAppend(q.pending, body);
      }
    }
    assert WellFormed(q.pending + body);
    StripKeepsWellFormed(q.pending + body);
    hide WellFormed, IsBinary, Printable, StripCR;
  }

  lemma CutRejects(open: Bytes, q: Partial, body: Bytes)
    requires Remembers(q, open) && Printable(body + [LF])
    requires |open| > MAX_LINE_LENGTH && IsTail((body + [LF])[0])
    ensures FeedSegment(q, body + [LF]).Rejects?
  {
    var segment := body + [LF];
    assert segment[..|segment| - 1] == body && body != [] && segment[0] == body[0];
    PrintableIsText(segment);
    var kept := StripCR(body);
    assert kept != [] && kept[0] == body[0] && StripCR(q.pending + body) == q.pending + kept;
    if WellFormed(kept) { HeadNotTail(kept); }
    WellFormedAppend(q.pending, kept);
    hide WellFormed, IsBinary, Printable, StripCR;
  }

  lemma NoNewline(open: Bytes, chunk: Bytes, more: seq<Bytes>, text: Bytes)
    requires chunk != [] && LF !in chunk && Unbroken(open)
    ensures Segments(chunk) == [chunk] && !PartsLongLine(open, chunk)
    ensures Unbroken(open + chunk) && Tail(open + chunk) == open + chunk
    ensures open + (chunk + text) == (open + chunk) + ([] + text)
  {
    OneSegment(chunk);
    LinesOfUnbroken(open + chunk);
  }

  lemma LineHolds(open: Bytes, q: Partial, chunk: Bytes, text: Bytes)
    requires Remembers(q, open) && Printable(chunk) && chunk != [] && LF !in chunk
    requires WellFormed(open + (chunk + text))
    ensures FeedSegment(q, chunk).Holds? && Remembers(FeedSegment(q, chunk).partial, open + chunk)
  {
    PrintableIsText(chunk);
    ConcatAssoc(open, chunk, text);
    if |open + chunk| > MAX_LINE_LENGTH { CutIsWellFormed(open + chunk, text); }
    hide WellFormed, IsBinary, Printable, Truncated;
  }

  // Cutting a piece of valid text leaves valid text, though the piece may end inside a character.
  lemma CutIsWellFormed(piece: Bytes, text: Bytes)
    requires WellFormed(piece + text) && |piece| > MAX_LINE_LENGTH
    ensures WellFormed(Truncated(piece, MAX_LINE_LENGTH))
  {
    var s, c := piece + text, CutBack(piece, MAX_LINE_LENGTH);
    if c > 0 {
      BoundaryIffNotTail(s, c);
      assert s[c] == piece[c] && s[..c] == piece[..c];
    }
  }

  // ---- over all chunkings ----

  // Byte `p` of the file continues a character and stands at index 2001 or later in its line,
  // which a newline ends.
  predicate LateContinuation(file: Bytes, p: nat) {
    p < |file| && IsTail(file[p]) && |Tail(file[..p])| > MAX_LINE_LENGTH && LF in file[p..]
  }

  lemma AcceptedIffSpared(chunks: seq<Bytes>)
    requires WellFormed(Flatten(chunks)) && Printable(Flatten(chunks))
    ensures Items(NoLine(), AllSegments(chunks)).Some? <==> Spared([], chunks)
  {
    forall i | 0 <= i < |chunks| ensures Printable(chunks[i]) { PrintablePieces(chunks, i); }
    assert AllPrintable(chunks) by { hide *; }
    Fresh([], Flatten(chunks));
    assert [] + Flatten(chunks) == Flatten(chunks);
    hide *;
    AcceptedFrom([], NoLine(), [], chunks);
    NothingRead([], chunks);
  }

  lemma PartedThere(file: Bytes, p: nat)
    requires LateContinuation(file, p)
    ensures p <= |file| && Flatten([file[..p], file[p..]]) == file && !Spared([], [file[..p], file[p..]])
  {
    var a, b := file[..p], file[p..];
    assert a + b == file && [] + a == a;
    assert [a, b][1..] == [b] && [b][1..] == [];
    assert Flatten([b]) == b;
    hide Tail;
  }

  lemma {:induction false} TailOfSum(a: Bytes, b: Bytes)
    ensures Tail(Tail(a) + b) == Tail(a + b)
    decreases |a|
  {
    var nl := IndexFrom(a, LF, 0);
    if nl != -1 {
      var line, rest := a[..nl], a[nl + 1..];
      assert a == line + [LF] + rest;
      hide *;
      TailOfLine(line, rest);
      TailOfSum(rest, b);
      ConcatAssoc(line + [LF], rest, b);
      TailOfLine(line, rest + b);
    }
  }

  // `past` comes before the chunks.
  lemma {:induction false} SparedFrom(past: Bytes, chunks: seq<Bytes>, file: Bytes)
    requires past + Flatten(chunks) == file && forall p: nat :: !LateContinuation(file, p)
    ensures Spared(Tail(past), chunks)
    decreases |chunks|
  {
    hide *;
    if chunks == [] {
      NothingLeft(Tail(past));
    } else {
      FirstOf(past, chunks);
      SparedFrom(past + chunks[0], chunks[1..], file);
      TailOfSum(past, chunks[0]);
      SparedCons(Tail(past), chunks);
      NotParted(past, chunks[0], Flatten(chunks[1..]), file);
    }
  }

  lemma NothingLeft(open: Bytes)
    ensures Spared(open, [])
  {
  }

  lemma FirstOf(past: Bytes, chunks: seq<Bytes>)
    requires chunks != []
    ensures past + Flatten(chunks) == (past + chunks[0]) + Flatten(chunks[1..])
  {
    ConcatAssoc(past, chunks[0], Flatten(chunks[1..]));
  }

  lemma NotParted(past: Bytes, chunk: Bytes, rest: Bytes, file: Bytes)
    requires file == (past + chunk) + rest && !LateContinuation(file, |past|)
    ensures !PartsLongLine(Tail(past), chunk)
  {
    ConcatAssoc(past, chunk, rest);
    var after := chunk + rest;
    assert file[..|past|] == past && file[|past|..] == after;
    if LF in chunk {
      HasNewline(chunk, rest);
      assert file[|past|] == after[0];
    }
    hide Tail, IsTail;
  }

  lemma HasNewline(chunk: Bytes, rest: Bytes)
    requires LF in chunk
    ensures LF in chunk + rest && (chunk + rest)[0] == chunk[0]
  {
  }

  // Every way to cut a valid printable file into chunks is accepted exactly when no
  // newline-terminated line has a continuation byte at index 2001 or later.
  lemma EveryChunkingAcceptedIff(file: Bytes)
    requires WellFormed(file) && Printable(file)
    ensures (forall chunks: seq<Bytes> :: Flatten(chunks) == file ==> Items(NoLine(), AllSegments(chunks)).Some?)
            <==> forall p: nat :: !LateContinuation(file, p)
  {
    hide *;
    if p: nat :| LateContinuation(file, p) {
      PartedThere(file, p);
      AcceptedIffSpared([file[..p], file[p..]]);
    } else {
      forall chunks: seq<Bytes> | Flatten(chunks) == file ensures Items(NoLine(), AllSegments(chunks)).Some? {
        AcceptedIffSpared(chunks);
        NothingRead([], chunks);
        SparedFrom([], chunks, file);
      }
    }
  }

  // ---- a file parted inside a character ----

  function Letters(n: nat): Bytes { if n == 0 then [] else Letters(n - 1) + [97] }

  lemma {:induction false} LettersAre(n: nat)
    ensures |Letters(n)| == n && WellFormed(Letters(n)) && forall k :: 0 <= k < n ==> Letters(n)[k] == 97
  {
    if n > 0 {
      LettersAre(n - 1);
      CharIsWellFormed([97]);
      WellFormedAppend(Letters(n - 1), [97]);
    }
  }

  const LEAD: byte := 0xC3
  const TRAIL: byte := 0xA9

  lemma CutAtLetter(s: Bytes, cut: Bytes)
    requires |s| > MAX_LINE_LENGTH && s[..MAX_LINE_LENGTH] == cut && !IsTail(s[MAX_LINE_LENGTH])
    ensures Truncated(s, MAX_LINE_LENGTH) == cut
  {
  }

  lemma HeadHolds(head: Bytes, cut: Bytes)
    requires Printable(head) && !Ended(head) && |head| > MAX_LINE_LENGTH
    requires Truncated(head, MAX_LINE_LENGTH) == cut && WellFormed(cut)
    ensures FeedSegment(NoLine(), head) == Holds(Partial(cut, true))
  {
    PrintableIsText(head);
    hide IsBinary, WellFormed, Truncated, Printable;
    assert NoLine().pending + head == head;
  }

  lemma TailRejected(cut: Bytes)
    requires WellFormed(cut)
    ensures FeedSegment(Partial(cut, true), [TRAIL, LF]) == Rejects(NotUtf8)
  {
    var s: Bytes := [TRAIL, LF];
    PrintableIsText(s);
    WellFormedAppend(cut, [TRAIL]);
    assert !WellFormed([TRAIL]);
    hide IsBinary, WellFormed;
    assert s[..1] == [TRAIL];
    assert StripCR(cut + [TRAIL]) == cut + [TRAIL];
  }

  lemma WholeEmits(text: Bytes)
    requires WellFormed(text) && Printable(text + [LF]) && text != [] && text[|text| - 1] != CR
    ensures FeedSegment(NoLine(), text + [LF]) == Emits(Item(text, false))
  {
    var s := text + [LF];
    PrintableIsText(s);
    hide IsBinary, WellFormed, Printable;
    assert s[..|s| - 1] == text && NoLine().pending + text == text;
  }

  // `n` letters and half, or all, of a two-byte character.
  function LongHead(n: nat): Bytes { Letters(n) + [LEAD] }

  function LongText(n: nat): Bytes { LongHead(n) + [TRAIL] }

  lemma LongHeadIs(n: nat)
    requires n > MAX_LINE_LENGTH
    ensures |LongHead(n)| == n + 1 && !IsTail(LongHead(n)[MAX_LINE_LENGTH])
    ensures WellFormed(LongHead(n)[..MAX_LINE_LENGTH])
    ensures Printable(LongHead(n)) && Unbroken(LongHead(n)) && !Ended(LongHead(n))
  {
    LettersAre(n);
    BoundaryIffNotTail(Letters(n), MAX_LINE_LENGTH);
    hide Letters;
    assert LongHead(n)[..MAX_LINE_LENGTH] == Letters(n)[..MAX_LINE_LENGTH];
    assert Boundary(Letters(n), MAX_LINE_LENGTH);
    hide WellFormed;
  }

  lemma LongTextValid(n: nat)
    ensures WellFormed(LongText(n))
  {
    LettersAre(n);
    CharIsWellFormed([LEAD, TRAIL]);
    WellFormedAppend(Letters(n), [LEAD, TRAIL]);
    assert Letters(n) + [LEAD, TRAIL] == LongText(n);
  }

  lemma TrailAdded(head: Bytes)
    requires Printable(head) && Unbroken(head)
    ensures Printable(head + [TRAIL] + [LF]) && Unbroken(head + [TRAIL])
  {
  }

  // Every valid file whose only line is more than 2000 letters and one longer character: read as
  // one chunk it gives the cut line, and with the chunks parted inside that character it is
  // rejected.
  lemma LongLineDependsOnChunks(n: nat)
    requires n > MAX_LINE_LENGTH
    ensures ReadResult([LongText(n) + [LF]], 1, 1) == Got([Render(Item(LongText(n), false))], 0)
    ensures ReadResult([LongHead(n), [TRAIL, LF]], 1, 1) == Fail(NotUtf8)
    ensures Flatten([LongHead(n), [TRAIL, LF]]) == LongText(n) + [LF] && WellFormed(LongText(n) + [LF])
  {
    LongHeadIs(n);
    LongTextValid(n);
    TrailAdded(LongHead(n));
    var head, text := LongHead(n), LongText(n);
    assert text == head + [TRAIL];
    hide *;
    LongWhole(text);
    LongParted(head, head[..MAX_LINE_LENGTH]);
    SameFile(head);
  }

  lemma SameFile(head: Bytes)
    requires WellFormed(head + [TRAIL])
    ensures Flatten([head, [TRAIL, LF]]) == head + [TRAIL] + [LF] && WellFormed(head + [TRAIL] + [LF])
  {
    CharIsWellFormed([LF]);
    WellFormedAppend(head + [TRAIL], [LF]);
    hide WellFormed;
    var chunks := [head, [TRAIL, LF]];
    assert chunks[1..] == [[TRAIL, LF]] && [[TRAIL, LF]][1..] == [];
    assert Flatten([[TRAIL, LF]]) == [TRAIL, LF];
  }

  lemma LongWhole(text: Bytes)
    requires text != [] && text[|text| - 1] != CR && WellFormed(text) && Printable(text + [LF]) && Unbroken(text)
    ensures ReadResult([text + [LF]], 1, 1) == Got([Render(Item(text, false))], 0)
  {
    var whole, i := text + [LF], Item(text, false);
    WholeEmits(text);
    assert whole[..|whole| - 1] == text;
    OneSegment(whole);
    OneLineFits(i);
    hide Segments, FeedSegment, WellFormed, IsBinary, Render, Unbroken, Printable;
    assert [whole][1..] == [] && AllSegments([whole]) == [whole];
    OnSegmentsCons(1, 1, Start(), whole, []);
    assert [whole] + [] == [whole];
    LineTaken(whole, i);
  }

  lemma LongParted(head: Bytes, cut: Bytes)
    requires |head| > MAX_LINE_LENGTH && head[..MAX_LINE_LENGTH] == cut && !IsTail(head[MAX_LINE_LENGTH])
    requires Printable(head) && Unbroken(head) && !Ended(head) && WellFormed(cut)
    ensures ReadResult([head, [TRAIL, LF]], 1, 1) == Fail(NotUtf8)
  {
    var tail := [TRAIL, LF];
    CutAtLetter(head, cut);
    HeadHolds(head, cut);
    TailRejected(cut);
    assert Unbroken(head[..|head| - 1]) && Unbroken(tail[..1]);
    OneSegment(head);
    OneSegment(tail);
    var parted := AllSegments([head, tail]);
    assert ReadResult([head, tail], 1, 1) == Finish(1, 1, OnSegments(1, 1, Start(), parted));
    hide *;
    ChunksAre(head, tail);
    TwoSegments(1, head, tail);
    TailFails(head, tail, Partial(cut, true));
  }

  lemma ChunksAre(head: Bytes, tail: Bytes)
    requires Segments(head) == [head] && Segments(tail) == [tail]
    ensures AllSegments([head, tail]) == [head, tail]
  {
    assert [head, tail][1..] == [tail] && [tail][1..] == [];
    assert AllSegments([tail]) == [tail];
  }

  lemma LineTaken(whole: Bytes, i: Item)
    requires FeedSegment(NoLine(), whole) == Emits(i) && |Render(i)| <= MAX_READ_BYTES
    ensures Finish(1, 1, OnSegments(1, 1, OnSegment(1, 1, Start(), whole), [])) == Got([Render(i)], 0)
  {
    hide FeedSegment, Render, WellFormed;
  }

  lemma TailFails(head: Bytes, tail: Bytes, q: Partial)
    requires FeedSegment(NoLine(), head) == Holds(q) && FeedSegment(q, tail) == Rejects(NotUtf8)
    ensures OnSegment(1, 1, Start(), head).status.Going?
    ensures Finish(1, 1, OnSegment(1, 1, OnSegment(1, 1, Start(), head), tail)) == Fail(NotUtf8)
  {
    hide FeedSegment, WellFormed;
  }
}
