// src/tool/read.h, read_file: which files are read alike however they come in chunks.
module ReadSteady {
  import opened Bytes
  import opened Utf8
  import opened ReadPage
  import opened ReadChunks

  // ---- lines that show no chunk boundary ----

  predicate NoLateContinuation(line: Bytes) { forall k :: MAX_LINE_LENGTH < k < |line| ==> !IsTail(line[k]) }

  // A newline-terminated line that is shown alike wherever it is parted. An overlong one must not
  // be parted inside a character; the cut must not lose a carriage return; a cut at 2000 bytes
  // must be due to more than a carriage return; and one before 2000 must leave no room for what
  // comes after the cut character.
  predicate Steady(line: Bytes) {
    var cut := Truncated(line, MAX_LINE_LENGTH);
    |line| <= MAX_LINE_LENGTH
    || (NoLateContinuation(line) && StripCR(cut) == cut
        && if |cut| == MAX_LINE_LENGTH then |StripCR(line)| > MAX_LINE_LENGTH
           else |StripCR(line)| <= MAX_LINE_LENGTH + 1)
  }

  predicate SteadyLines(file: Bytes) { forall i :: 0 <= i < |Lines(file)| ==> Steady(Lines(file)[i]) }

  lemma SteadyFirst(line: Bytes, rest: Bytes)
    requires Unbroken(line)
    ensures SteadyLines(line + [LF] + rest) <==> Steady(line) && SteadyLines(rest)
  {
    LinesOfFirst(line, rest);
    hide Steady;
    var all, more := Lines(line + [LF] + rest), Lines(rest);
    assert all[0] == line && forall i :: 0 <= i < |more| ==> all[i + 1] == more[i];
    if SteadyLines(line + [LF] + rest) {
      forall i | 0 <= i < |more| ensures Steady(more[i]) { assert all[i + 1] == more[i]; }
    }
  }

  // The lines of a file that comes in one chunk.
  function Shown(s: Bytes): seq<Item>
    decreases |s|
  {
    var nl := IndexFrom(s, LF, 0);
    if nl != -1 then [Item(StripCR(s[..nl]), false)] + Shown(s[nl + 1..])
    else if s == [] then []
    else [Item(StripCR(Truncated(s, MAX_LINE_LENGTH)), |s| > MAX_LINE_LENGTH)]
  }

  predicate SameLook(a: seq<Item>, b: seq<Item>) {
    |a| == |b| && forall i :: 0 <= i < |a| ==> Render(a[i]) == Render(b[i])
  }

  lemma SameLookCons(i: Item, a: seq<Item>, j: Item, b: seq<Item>)
    requires Render(i) == Render(j) && SameLook(a, b)
    ensures SameLook([i] + a, [j] + b)
  {
    hide Render;
  }

  lemma ShownFirst(line: Bytes, rest: Bytes)
    requires Unbroken(line)
    ensures Shown(line + [LF] + rest) == [Item(StripCR(line), false)] + Shown(rest)
  {
    var s := line + [LF] + rest;
    FirstNewline(line, rest);
    assert s[..|line|] == line && s[|line| + 1..] == rest;
    hide StripCR, Truncated;
  }

  // ---- one line, parted ----

  lemma CutBackPrefix(s: Bytes, t: Bytes, cut: nat)
    requires cut < |s|
    ensures CutBack(s + t, cut) == CutBack(s, cut)
    decreases cut
  {
    assert (s + t)[cut] == s[cut];
    if cut > 0 { CutBackPrefix(s, t, cut - 1); }
  }

  lemma CutOfMore(s: Bytes, t: Bytes)
    requires |s| > MAX_LINE_LENGTH
    ensures Truncated(s + t, MAX_LINE_LENGTH) == Truncated(s, MAX_LINE_LENGTH)
    ensures Truncated(s, MAX_LINE_LENGTH) == s[..|Truncated(s, MAX_LINE_LENGTH)|]
    ensures |Truncated(s, MAX_LINE_LENGTH)| <= MAX_LINE_LENGTH
  {
    CutBackPrefix(s, t, MAX_LINE_LENGTH);
    var c := CutBack(s, MAX_LINE_LENGTH);
    assert (s + t)[..c] == s[..c];
  }

  // What the reader shows of a line that was cut and then went on.
  function Parted(cut: Bytes, more: Bytes): Item { Item(StripCR(cut + more), true) }

  lemma LookOfWhole(line: Bytes)
    requires |line| > MAX_LINE_LENGTH
    ensures |StripCR(line)| > MAX_LINE_LENGTH ==>
              Render(Item(StripCR(line), false)) == Truncated(line, MAX_LINE_LENGTH) + SUFFIX
    ensures |StripCR(line)| <= MAX_LINE_LENGTH ==>
              Render(Item(StripCR(line), false)) == StripCR(line) && |StripCR(line)| == MAX_LINE_LENGTH
              && |Truncated(line, MAX_LINE_LENGTH)| == MAX_LINE_LENGTH
  {
    var kept := StripCR(line);
    if |kept| > MAX_LINE_LENGTH {
      CutOfMore(kept, line[|kept|..]);
      assert kept + line[|kept|..] == line;
    }
  }

  // The cut at 2000 fits the bytes after it only if none of them begins at 2000.
  lemma LookOfParted(cut: Bytes, more: Bytes)
    requires |cut| <= MAX_LINE_LENGTH
    ensures |StripCR(cut + more)| <= MAX_LINE_LENGTH ==> Render(Parted(cut, more)) == StripCR(cut + more) + SUFFIX
    ensures |cut| == MAX_LINE_LENGTH && StripCR(cut) == cut && (more != [] ==> !IsTail(more[0])) ==>
              Render(Parted(cut, more)) == cut + SUFFIX
  {
    var text := StripCR(cut + more);
    if |cut| == MAX_LINE_LENGTH && StripCR(cut) == cut && (more != [] ==> !IsTail(more[0])) {
      if more == [] {
        assert cut + more == cut;
      } else {
        assert text[..MAX_LINE_LENGTH] == cut;
        if |text| > MAX_LINE_LENGTH {
          assert text[MAX_LINE_LENGTH] == more[0];
        } else {
          assert text == cut;
        }
      }
    }
  }

  lemma SteadyLook(open: Bytes, body: Bytes)
    requires |open| > MAX_LINE_LENGTH && Steady(open + body)
    ensures Render(Parted(Truncated(open, MAX_LINE_LENGTH), body)) == Render(Item(StripCR(open + body), false))
  {
    var line, cut := open + body, Truncated(open, MAX_LINE_LENGTH);
    CutOfMore(open, body);
    LookOfWhole(line);
    LookOfParted(cut, body);
    assert body != [] ==> body[0] == line[|open|];
    hide Render, Truncated;
    if |cut| < MAX_LINE_LENGTH {
      assert body == [] || body == [CR];
      assert StripCR(cut + body) == cut;
    }
  }

  // ---- steady files ----

  predicate RemembersCut(q: Partial, open: Bytes) {
    if q.longLine then q.pending == Truncated(open, MAX_LINE_LENGTH) && |open| > MAX_LINE_LENGTH
    else q.pending == open && |open| <= MAX_LINE_LENGTH
  }

  lemma RemembersCutIs(q: Partial, open: Bytes, text: Bytes)
    requires RemembersCut(q, open) && WellFormed(open + text)
    ensures Remembers(q, open)
  {
    if q.longLine { CutIsWellFormed(open, text); }
  }

  lemma {:induction false} ShowsFrom(open: Bytes, q: Partial, chunk: Bytes, chunks: seq<Bytes>)
    requires Unbroken(open) && RemembersCut(q, open) && Printable(chunk) && AllPrintable(chunks)
    requires WellFormed(open + (chunk + Flatten(chunks))) && SteadyLines(open + (chunk + Flatten(chunks)))
    ensures Items(q, Segments(chunk) + AllSegments(chunks)).Some?
    ensures SameLook(Items(q, Segments(chunk) + AllSegments(chunks)).value, Shown(open + (chunk + Flatten(chunks))))
    decreases |chunks|, |chunk|
  {
    hide *;
    var more := AllSegments(chunks);
    if chunk == [] {
      NothingRead(open, chunks);
      if chunks == [] {
        LastShown(open, q);
      } else {
        ChunkFirst(chunks);
        ShowsFrom(open, q, chunks[0], chunks[1..]);
      }
    } else if LF in chunk {
      var end := SegmentEnd(chunk);
      var body, rest := chunk[..end - 1], chunk[end..];
      LineOf(chunk);
      var text := rest + Flatten(chunks);
      TextOf(open, body, rest, Flatten(chunks));
      NewlineParts(open + body, text);
      UnbrokenSum(open, body);
      SegmentsCons(chunk, more);
      SteadyFirst(open + body, text);
      ShownFirst(open + body, text);
      LineShown(open, q, body);
      ItemsFirst(q, body + [LF], Segments(rest) + more);
      Fresh(rest, Flatten(chunks));
      NothingRemembered();
      ShowsFrom([], NoLine(), rest, chunks);
      SameLookCons(FeedSegment(q, body + [LF]).item, Items(NoLine(), Segments(rest) + more).value,
                   Item(StripCR(open + body), false), Shown(text));
    } else {
      NoNewline(open, chunk, more, Flatten(chunks));
      LineOpen(open, q, chunk, Flatten(chunks));
      ItemsFirst(q, chunk, more);
      NothingRead(open + chunk, chunks);
      ShowsFrom(open + chunk, FeedSegment(q, chunk).partial, [], chunks);
    }
  }

  lemma NothingRemembered()
    ensures RemembersCut(NoLine(), [])
  {
  }

  lemma LastShown(open: Bytes, q: Partial)
    requires Unbroken(open) && RemembersCut(q, open) && WellFormed(open + ([] + []))
    ensures Items(q, []) == Some(Shown(open + ([] + []))) && SameLook(Shown(open + ([] + [])), Shown(open + ([] + [])))
  {
    assert open + ([] + []) == open && open + [] == open;
    RemembersCutIs(q, open, []);
    StripKeepsWellFormed(q.pending);
    if q.longLine { CutLeavesText(open, []); }
    hide WellFormed;
    assert IndexFrom(open, LF, 0) == -1;
  }

  lemma LineShown(open: Bytes, q: Partial, body: Bytes)
    requires RemembersCut(q, open) && Printable(body + [LF]) && WellFormed(open + body) && Steady(open + body)
    ensures FeedSegment(q, body + [LF]).Emits?
    ensures Render(FeedSegment(q, body + [LF]).item) == Render(Item(StripCR(open + body), false))
  {
    RemembersCutIs(q, open, body);
    if q.longLine {
      SteadyLook(open, body);
      assert body != [] ==> (body + [LF])[0] == (open + body)[|open|];
    }
    hide Render, StripCR, WellFormed, Truncated, Printable;
    LineEmits(open, q, body);
    EmittedIs(q, body);
  }

  lemma EmittedIs(q: Partial, body: Bytes)
    requires FeedSegment(q, body + [LF]).Emits?
    ensures FeedSegment(q, body + [LF]).item == Item(StripCR(q.pending + body), q.longLine)
  {
    var segment := body + [LF];
    assert segment[..|segment| - 1] == body;
    hide WellFormed, IsBinary, StripCR;
  }

  lemma LineOpen(open: Bytes, q: Partial, chunk: Bytes, text: Bytes)
    requires RemembersCut(q, open) && Printable(chunk) && chunk != [] && LF !in chunk
    requires WellFormed(open + (chunk + text))
    ensures FeedSegment(q, chunk).Holds? && RemembersCut(FeedSegment(q, chunk).partial, open + chunk)
  {
    RemembersCutIs(q, open, chunk + text);
    LineHolds(open, q, chunk, text);
    if q.longLine { CutOfMore(open, chunk); }
    hide WellFormed, IsBinary, Printable, Truncated;
  }

  // `append` sees of a line only how it looks.
  lemma {:induction false} FilledByLook(p: Page, offset: nat, limit: nat, a: seq<Item>, b: seq<Item>)
    requires SameLook(a, b)
    ensures Filled(p, offset, limit, a) == Filled(p, offset, limit, b)
    decreases |a|
  {
    hide Render;
    if a != [] {
      FilledByLook(Appended(p, offset, limit, a[0]), offset, limit, a[1..], b[1..]);
    }
  }

  lemma SteadyRead(chunks: seq<Bytes>, offset: nat, limit: nat)
    requires offset >= 1 && limit >= 1
    requires WellFormed(Flatten(chunks)) && Printable(Flatten(chunks)) && SteadyLines(Flatten(chunks))
    ensures var f := Filled(FirstPage(), offset, limit, Shown(Flatten(chunks)));
            ReadResult(chunks, offset, limit)
            == if f.lines == [] && offset != 1 then Fail(OutOfRange) else Got(f.lines, f.next)
  {
    forall i | 0 <= i < |chunks| ensures Printable(chunks[i]) { PrintablePieces(chunks, i); }
    assert AllPrintable(chunks) by { hide *; }
    AllSegmentsShaped(chunks);
    Fresh([], Flatten(chunks));
    assert [] + Flatten(chunks) == Flatten(chunks);
    assert Begun(FirstPage(), offset) && Tracks(NoLine(), []);
    assert ReadResult(chunks, offset, limit)
           == Finish(offset, limit, OnSegments(offset, limit, State(FirstPage(), NoLine(), Going), AllSegments(chunks)));
    hide *;
    NothingRemembered();
    NothingRead([], chunks);
    ShowsFrom([], NoLine(), [], chunks);
    NeverVanishes([], NoLine(), AllSegments(chunks));
    ReaderFills(offset, limit, FirstPage(), NoLine(), AllSegments(chunks));
    FilledByLook(FirstPage(), offset, limit, Items(NoLine(), AllSegments(chunks)).value, Shown(Flatten(chunks)));
  }

  // ---- unsteady files ----

  // Where to part an unsteady line.
  ghost function PartAt(line: Bytes): (k: nat)
    requires !Steady(line)
    ensures MAX_LINE_LENGTH < k <= |line|
  {
    var cut := Truncated(line, MAX_LINE_LENGTH);
    if !NoLateContinuation(line) then
      var k: nat :| MAX_LINE_LENGTH < k < |line| && IsTail(line[k]);
      k
    else if StripCR(cut) != cut || |cut| == MAX_LINE_LENGTH then |line|
    else |StripCR(line)| - 1
  }

  lemma UnsteadyLook(line: Bytes)
    requires !Steady(line) && NoLateContinuation(line)
    ensures Render(Parted(Truncated(line, MAX_LINE_LENGTH), line[PartAt(line)..])) != Render(Item(StripCR(line), false))
  {
    var k, cut := PartAt(line), Truncated(line, MAX_LINE_LENGTH);
    CutOfMore(line, []);
    assert line + [] == line;
    LookOfWhole(line);
    LookOfParted(cut, line[k..]);
    hide Render;
    if k == |line| {
      assert line[k..] == [] && cut + [] == cut;
      hide Truncated;
    } else {
      LastByte(cut, line, k);
      hide Truncated;
    }
  }

  lemma LastByte(cut: Bytes, line: Bytes, k: nat)
    requires k == |StripCR(line)| - 1 && k < |line|
    ensures |StripCR(cut + line[k..])| == |cut| + 1
  {
    if StripCR(line) == line {
      assert line[k..] == [line[k]];
      assert (cut + line[k..])[|cut|] == line[k];
    } else {
      assert line[k..] == [line[k], CR];
      assert (cut + line[k..])[|cut| + 1] == CR;
    }
  }

  // How the first line, parted at `k`, is read.
  lemma PartedLine(line: Bytes, k: nat, rest: Bytes)
    requires Unbroken(line) && MAX_LINE_LENGTH < k <= |line|
    requires WellFormed(line) && Printable(line + [LF])
    ensures var cut := Truncated(line, MAX_LINE_LENGTH);
            var r := Items(NoLine(), AllSegments([line[..k], line[k..] + [LF] + rest]));
            var more := Items(NoLine(), Segments(rest));
            && (k < |line| && IsTail(line[k]) ==> r.None?)
            && (k == |line| || !IsTail(line[k]) ==>
                  r == if more.Some? then Some([Parted(cut, line[k..])] + more.value) else None)
  {
    var head, body := line[..k], line[k..];
    PartsAre(line, k);
    Fresh([], []);
    hide *;
    NothingRemembered();
    NoNewline([], head, [], []);
    LineOpen([], NoLine(), head, body);
    var q := FeedSegment(NoLine(), head).partial;
    CutOfMore(head, body);
    RemembersCutOf(q, head);
    RemembersCutIs(q, head, body);
    TwoChunks(head, body, rest);
    ItemsFirst(NoLine(), head, [body + [LF]] + Segments(rest));
    ItemsFirst(q, body + [LF], Segments(rest));
    FirstByte(line, k);
    if k < |line| && IsTail(line[k]) {
      CutRejects(head, q, body);
    } else {
      LineEmits(head, q, body);
      EmittedIs(q, body);
    }
  }

  lemma PartsAre(line: Bytes, k: nat)
    requires Unbroken(line) && MAX_LINE_LENGTH < k <= |line| && WellFormed(line) && Printable(line + [LF])
    ensures var head, body := line[..k], line[k..];
            && head + body == line && [] + (head + body) == line && [] + head == head
            && head != [] && |head| > MAX_LINE_LENGTH && LF !in head && Unbroken(body)
            && Printable(head) && Printable(body + [LF])
  {
    var head, body, all := line[..k], line[k..], line + [LF];
    forall i | 0 <= i < k ensures !IsControl(head[i]) { assert head[i] == all[i]; }
    forall i | 0 <= i < |body + [LF]| ensures !IsControl((body + [LF])[i]) { assert (body + [LF])[i] == all[k + i]; }
  }

  lemma RemembersCutOf(q: Partial, head: Bytes)
    requires RemembersCut(q, head) && |head| > MAX_LINE_LENGTH
    ensures q == Partial(Truncated(head, MAX_LINE_LENGTH), true)
  {
  }

  lemma FirstByte(line: Bytes, k: nat)
    requires k <= |line|
    ensures (line[k..] + [LF])[0] == if k < |line| then line[k] else LF
    ensures !IsTail(LF)
  {
  }

  lemma LineSegment(line: Bytes, rest: Bytes)
    requires Unbroken(line)
    ensures Segments(line + [LF] + rest) == [line + [LF]] + Segments(rest)
  {
    var s := line + [LF] + rest;
    FirstNewline(line, rest);
    assert s[..|line| + 1] == line + [LF] && s[|line| + 1..] == rest;
    assert SegmentEnd(s) == |line| + 1;
  }

  lemma TwoChunks(head: Bytes, body: Bytes, rest: Bytes)
    requires head != [] && LF !in head && Unbroken(body)
    ensures AllSegments([head, body + [LF] + rest]) == [head] + ([body + [LF]] + Segments(rest))
  {
    OneSegment(head);
    LineSegment(body, rest);
    var tail := body + [LF] + rest;
    hide Segments;
    PairSegments(head, tail);
  }

  lemma PairSegments(a: Bytes, b: Bytes)
    ensures AllSegments([a, b]) == Segments(a) + Segments(b)
  {
    hide Segments;
    var chunks := [a, b];
    assert chunks[1..] == [b] && chunks[1..][1..] == [];
    assert AllSegments(chunks[1..]) == Segments(b) + AllSegments(chunks[1..][1..]);
    assert Segments(b) + [] == Segments(b);
  }

  // A line that is not parted, before more segments.
  lemma WholeLine(line: Bytes, segments: seq<Bytes>)
    requires Unbroken(line) && WellFormed(line) && Printable(line + [LF])
    ensures Items(NoLine(), [line + [LF]] + segments)
            == (var more := Items(NoLine(), segments);
                if more.Some? then Some([Item(StripCR(line), false)] + more.value) else None)
  {
    assert [] + line == line && NoLine().pending + line == line;
    assert Remembers(NoLine(), []) && !NoLine().longLine;
    hide *;
    LineEmits([], NoLine(), line);
    EmittedIs(NoLine(), line);
    ItemsFirst(NoLine(), line + [LF], segments);
  }

  // The item at `m` is shown differently, or the second reading is rejected.
  predicate ShowsAt(whole: seq<Item>, parted: Option<seq<Item>>, m: nat) {
    parted.Some? ==> m < |whole| && m < |parted.value| && Render(whole[m]) != Render(parted.value[m])
  }

  lemma ShowsLater(i: Item, whole: seq<Item>, parted: Option<seq<Item>>, m: nat)
    requires ShowsAt(whole, parted, m)
    ensures ShowsAt([i] + whole, if parted.Some? then Some([i] + parted.value) else None, m + 1)
  {
    hide Render;
  }

  lemma FileParts(file: Bytes) returns (line: Bytes, rest: Bytes)
    requires WellFormed(file) && Printable(file) && !SteadyLines(file)
    ensures file == line + [LF] + rest && Unbroken(line) && |rest| < |file|
    ensures WellFormed(line) && WellFormed(rest) && Printable(line + [LF]) && Printable(rest)
  {
    var nl := IndexFrom(file, LF, 0);
    hide Steady;
    assert nl != -1;
    line, rest := file[..nl], file[nl + 1..];
    assert file == line + [LF] + rest;
    NewlineParts(line, rest);
    forall i | 0 <= i < |line + [LF]| ensures !IsControl((line + [LF])[i]) { assert (line + [LF])[i] == file[i]; }
    forall i | 0 <= i < |rest| ensures !IsControl(rest[i]) { assert rest[i] == file[nl + 1 + i]; }
    hide WellFormed;
  }

  // A file with an unsteady line can be parted so that it is rejected or that line looks
  // different.
  lemma {:induction false} PartingShows(file: Bytes) returns (a: Bytes, b: Bytes, m: nat)
    requires WellFormed(file) && Printable(file) && !SteadyLines(file) && Items(NoLine(), Segments(file)).Some?
    ensures a + b == file
    ensures ShowsAt(Items(NoLine(), Segments(file)).value, Items(NoLine(), AllSegments([a, b])), m)
    decreases |file|
  {
    hide *;
    var line, rest := FileParts(file);
    SteadyFirst(line, rest);
    LineSegment(line, rest);
    WholeLine(line, Segments(rest));
    var whole := Items(NoLine(), Segments(rest)).value;
    var i := Item(StripCR(line), false);
    if Steady(line) {
      a, b, m := PartingShows(rest);
      ShowsLater(i, whole, Items(NoLine(), AllSegments([a, b])), m);
      MoreBefore(line, a, b);
      WholeLine(line, AllSegments([a, b]));
      ConcatAssoc(line + [LF], a, b);
      a, m := line + [LF] + a, m + 1;
    } else {
      var k := PartAt(line);
      PartedLine(line, k, rest);
      SplitFile(line, k, rest);
      a, b, m := line[..k], line[k..] + [LF] + rest, 0;
      PartAtLate(line);
      if NoLateContinuation(line) {
        UnsteadyLook(line);
        ShowsFirst(i, whole, Parted(Truncated(line, MAX_LINE_LENGTH), line[k..]));
      } else {
        ShowsNothing([i] + whole);
      }
    }
  }

  lemma ShowsFirst(i: Item, whole: seq<Item>, j: Item)
    requires Render(j) != Render(i)
    ensures ShowsAt([i] + whole, Some([j] + whole), 0)
  {
    hide Render;
  }

  lemma ShowsNothing(whole: seq<Item>)
    ensures ShowsAt(whole, None, 0)
  {
  }

  lemma PartAtLate(line: Bytes)
    requires !Steady(line)
    ensures PartAt(line) < |line| && IsTail(line[PartAt(line)]) <==> !NoLateContinuation(line)
  {
    hide Truncated, StripCR;
  }

  lemma SplitFile(line: Bytes, k: nat, rest: Bytes)
    requires k <= |line|
    ensures line[..k] + (line[k..] + [LF] + rest) == line + [LF] + rest
  {
    assert line[..k] + line[k..] == line;
    ConcatAssoc(line[k..], [LF], rest);
    ConcatAssoc(line[..k], line[k..], [LF] + rest);
    ConcatAssoc(line, [LF], rest);
  }

  lemma MoreBefore(line: Bytes, a: Bytes, b: Bytes)
    requires Unbroken(line)
    ensures AllSegments([line + [LF] + a, b]) == [line + [LF]] + AllSegments([a, b])
  {
    hide *;
    PairSegments(line + [LF] + a, b);
    PairSegments(a, b);
    LineSegment(line, a);
    ConcatAssoc([line + [LF]], Segments(a), Segments(b));
  }

  // ---- what a caller sees ----

  // From beyond the last line a rejected file is reported as such.
  lemma {:induction false} RejectedBeyond(offset: nat, p: Page, q: Partial, segments: seq<Bytes>)
    requires p.lines == [] && p.bytes == 0 && p.line + |segments| < offset && Items(q, segments).None?
    ensures var r := Finish(offset, 1, OnSegments(offset, 1, State(p, q, Going), segments));
            r.Fail? && r.error != OutOfRange
    decreases |segments|
  {
    hide IsBinary, WellFormed, Truncated, Render;
    if segments != [] {
      match FeedSegment(q, segments[0])
      case Rejects(_) =>
      case Holds(q') => RejectedBeyond(offset, p, q', segments[1..]);
      case Emits(i) => RejectedBeyond(offset, Appended(p, offset, 1, i), NoLine(), segments[1..]);
    }
  }

  lemma LineAlone(chunks: seq<Bytes>, items: seq<Item>, m: nat)
    requires Accepted(chunks, items) && m < |items|
    ensures ReadResult(chunks, m + 1, 1).Got? && ReadResult(chunks, m + 1, 1).lines == [Render(items[m])]
  {
    ReadAdvances(chunks, items, m + 1, 1);
    ReadGivesPage(chunks, m + 1, 1, items);
    var r := ReadResult(chunks, m + 1, 1);
    hide ReadResult, Accepted;
    OnePageLine(r, items, m);
  }

  lemma OnePageLine(r: Result, items: seq<Item>, m: nat)
    requires m < |items| && Advances(r, m + 1, items) && Reads(r, m + 1, 1, items)
    ensures r.lines == [Render(items[m])]
  {
    assert |r.lines| == 1 by { hide Render, RenderAll, Joined; }
    PageGrows(items, m, 0);
    assert items[m..m] == [] && RenderAll(items[m..m]) == [];
    hide Render, RenderAll, Joined;
  }

  lemma ValidAccepted(chunks: seq<Bytes>, items: seq<Item>)
    requires WellFormed(Flatten(chunks)) && Items(NoLine(), AllSegments(chunks)) == Some(items)
    ensures Accepted(chunks, items)
  {
    AllSegmentsShaped(chunks);
    assert [] + Flatten(chunks) == Flatten(chunks) && Tracks(NoLine(), []);
    hide WellFormed, Items, AllSegments, Flatten, LastPartial, Vanished, Tracks;
    NeverVanishes([], NoLine(), AllSegments(chunks));
  }

  lemma OneChunk(file: Bytes)
    requires WellFormed(file) && Printable(file)
    ensures AllSegments([file]) == Segments(file) && Flatten([file]) == file
    ensures Items(NoLine(), Segments(file)).Some?
  {
    var chunks: seq<Bytes> := [file];
    assert chunks[1..] == [];
    assert Segments(file) + [] == Segments(file) by { hide Segments; }
    assert AllSegments(chunks) == Segments(file) by { hide Segments; }
    assert Flatten(chunks) == file;
    hide Segments, AllSegments, Items, WellFormed;
    assert Spared([], chunks);
    AcceptedIffSpared(chunks);
  }

  // Readings that differ in an item differ for some caller.
  lemma DifferenceIsSeen(chunks: seq<Bytes>, file: Bytes, m: nat) returns (offset: nat)
    requires WellFormed(file) && Printable(file) && Flatten(chunks) == file
    requires Items(NoLine(), Segments(file)).Some?
    requires ShowsAt(Items(NoLine(), Segments(file)).value, Items(NoLine(), AllSegments(chunks)), m)
    ensures offset >= 1 && ReadResult(chunks, offset, 1) != ReadResult([file], offset, 1)
  {
    var whole := Items(NoLine(), Segments(file)).value;
    var parted := Items(NoLine(), AllSegments(chunks));
    OneChunk(file);
    hide Items, WellFormed, AllSegments, Segments, Flatten, Accepted, Render, Printable;
    ValidAccepted([file], whole);
    if parted.Some? {
      offset := m + 1;
      ValidAccepted(chunks, parted.value);
      hide ReadResult;
      LineAlone(chunks, parted.value, m);
      LineAlone([file], whole, m);
    } else {
      offset := |AllSegments(chunks)| + |whole| + 2;
      RejectedBeyond(offset, FirstPage(), NoLine(), AllSegments(chunks));
      assert ReadResult(chunks, offset, 1)
             == Finish(offset, 1, OnSegments(offset, 1, State(FirstPage(), NoLine(), Going), AllSegments(chunks)));
      hide ReadResult, Finish, OnSegments;
      ReadGivesPage([file], offset, 1, whole);
    }
  }

  // For valid printable files: what read_file returns, for every offset and limit, does not
  // depend on how the file comes in chunks exactly when each newline-terminated line is steady.
  lemma ChunksDoNotShowIff(file: Bytes)
    requires WellFormed(file) && Printable(file)
    ensures (forall chunks: seq<Bytes>, offset, limit :: Flatten(chunks) == file && offset >= 1 && limit >= 1 ==>
               ReadResult(chunks, offset, limit) == ReadResult([file], offset, limit))
            <==> SteadyLines(file)
  {
    hide *;
    OneChunk(file);
    if SteadyLines(file) {
      forall chunks: seq<Bytes>, offset, limit | Flatten(chunks) == file && offset >= 1 && limit >= 1
        ensures ReadResult(chunks, offset, limit) == ReadResult([file], offset, limit)
      {
        SteadyRead(chunks, offset, limit);
        SteadyRead([file], offset, limit);
      }
    } else {
      var a, b, m := PartingShows(file);
      PairIs(a, b);
      var _ := DifferenceIsSeen([a, b], file, m);
    }
  }

  lemma PairIs(a: Bytes, b: Bytes)
    ensures Flatten([a, b]) == a + b
  {
    var chunks := [a, b];
    assert chunks[1..] == [b] && chunks[1..][1..] == [];
    assert Flatten(chunks[1..]) == b;
  }
}
