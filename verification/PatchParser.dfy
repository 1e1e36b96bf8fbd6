// src/tool/apply_patch.h, parse_patch: the text of a patch as hunks.
module PatchParser {
  import opened Bytes
  import opened Hunks
  import opened ApplyPatch

  const DIRECTIVE: string := "*** "
  const BEGIN: string := "*** Begin Patch"
  const FINISH: string := "*** End Patch"
  const ADD: string := "*** Add File: "
  const UPDATE: string := "*** Update File: "
  const DELETE: string := "*** Delete File: "

  predicate IsSpace(c: char) { c == ' ' || c == '\t' || c == '\r' || c == '\n' }

  function TrimRight(s: string): string {
    if s != "" && IsSpace(s[|s| - 1]) then TrimRight(s[..|s| - 1]) else s
  }

  function TrimLeft(s: string): string {
    if s != "" && IsSpace(s[0]) then TrimLeft(s[1..]) else s
  }

  function Trim(s: string): string { TrimRight(TrimLeft(s)) }

  datatype Error =
    | BadAddLine(path: string, line: string)
    | UnknownDirective(text: string)
    | EmptyPath(kind: Kind)
    | OutsideSection(text: string)

  datatype Parsing = Parsing(hunks: seq<Hunk>, open: Option<Hunk>) | Failed(error: Error)

  datatype Parsed = Parses(hunks: seq<Hunk>) | NotParsed(error: Error)

  // parse_section_header
  function Header(line: string): Option<(Kind, string)> {
    if ADD <= line then Some((Add, line[|ADD|..]))
    else if UPDATE <= line then Some((Update, line[|UPDATE|..]))
    else if DELETE <= line then Some((Delete, line[|DELETE|..]))
    else None
  }

  predicate BadAdd(line: string) { line != "" && line[0] != '+' }

  function FirstBad(lines: seq<string>): Option<string> {
    if lines == [] then None else if BadAdd(lines[0]) then Some(lines[0]) else FirstBad(lines[1..])
  }

  function Flush(s: Parsing): Parsing
    requires s.Parsing?
  {
    if s.open.None? then s
    else if s.open.value.kind.Add? && FirstBad(s.open.value.lines).Some? then
      Failed(BadAddLine(s.open.value.path, FirstBad(s.open.value.lines).value))
    else Parsing(s.hunks + [s.open.value], None)
  }

  function Extend(h: Hunk, line: string): Hunk { h.(lines := h.lines + [line]) }

  predicate Bracket(trimmed: string) { BEGIN <= trimmed || FINISH <= trimmed }

  function OpenSection(s: Parsing, kind: Kind, path: string): Parsing
    requires s.Parsing?
  {
    var f := Flush(s);
    if f.Failed? then f else if path == "" then Failed(EmptyPath(kind)) else f.(open := Some(Hunk(kind, path, [])))
  }

  function TakeLine(s: Parsing, line: string): Parsing
    requires s.Parsing?
  {
    var trimmed := Trim(line);
    if trimmed == "" then if s.open.Some? then s.(open := Some(Extend(s.open.value, line))) else s
    else if Bracket(trimmed) then Flush(s)
    else if DIRECTIVE <= trimmed then
      var header := Header(trimmed);
      if header.None? then Failed(UnknownDirective(trimmed)) else OpenSection(s, header.value.0, header.value.1)
    else if s.open.None? then Failed(OutsideSection(trimmed))
    else s.(open := Some(Extend(s.open.value, line)))
  }

  function TakeLines(s: Parsing, lines: seq<string>): Parsing
    decreases |lines|
  {
    if lines == [] || s.Failed? then s else TakeLines(TakeLine(s, lines[0]), lines[1..])
  }

  function Conclude(s: Parsing): Parsed {
    if s.Failed? then NotParsed(s.error)
    else
      var f := Flush(s);
      if f.Failed? then NotParsed(f.error) else Parses(f.hunks)
  }

  function NothingRead(): Parsing { Parsing([], None) }

  function ParseLines(lines: seq<string>): Parsed { Conclude(TakeLines(NothingRead(), lines)) }

  method FlushSection(hunks: seq<Hunk>, open: Option<Hunk>) returns (s: Parsing)
    ensures s == Flush(Parsing(hunks, open))
  {
    if open.None? { return Parsing(hunks, open); }
    var h := open.value;
    if h.kind.Add? {
      assert h.lines[0..] == h.lines;
      for i := 0 to |h.lines|
        invariant FirstBad(h.lines) == FirstBad(h.lines[i..])
      {
        if h.lines[i] != "" && h.lines[i][0] != '+' { return Failed(BadAddLine(h.path, h.lines[i])); }
        assert h.lines[i..][1..] == h.lines[i + 1..];
      }
    }
    return Parsing(hunks + [h], None);
  }

  method ParsePatch(text: string) returns (r: Parsed)
    ensures r == ParseLines(SplitLines(text))
  {
    var lines := SplitText(text);
    var hunks: seq<Hunk>, open: Option<Hunk> := [], None;
    assert lines[0..] == lines;
    for i := 0 to |lines|
      invariant TakeLines(Parsing(hunks, open), lines[i..]) == TakeLines(NothingRead(), lines)
    {
      assert lines[i..][1..] == lines[i + 1..];
      var line := lines[i];
      var trimmed := Trim(line);
      if trimmed == "" {
        if open.Some? { open := Some(Extend(open.value, line)); }
      } else if BEGIN <= trimmed || FINISH <= trimmed {
        var s := FlushSection(hunks, open);
        if s.Failed? { return NotParsed(s.error); }
        hunks, open := s.hunks, s.open;
      } else if DIRECTIVE <= trimmed {
        var header := Header(trimmed);
        if header.None? { return NotParsed(UnknownDirective(trimmed)); }
        var s := FlushSection(hunks, open);
        if s.Failed? { return NotParsed(s.error); }
        if header.value.1 == "" { return NotParsed(EmptyPath(header.value.0)); }
        hunks, open := s.hunks, Some(Hunk(header.value.0, header.value.1, []));
      } else if open.None? {
        return NotParsed(OutsideSection(trimmed));
      } else {
        open := Some(Extend(open.value, line));
      }
    }
    var s := FlushSection(hunks, open);
    return if s.Failed? then NotParsed(s.error) else Parses(s.hunks);
  }

  // A header that survives trimming names a path: the error for an empty one is never given.
  lemma HeadersHavePaths(line: string)
    ensures Header(Trim(line)).Some? ==> Header(Trim(line)).value.1 != ""
  {
    var t := Trim(line);
    TrimEnds(TrimLeft(line));
    assert IsSpace(ADD[|ADD| - 1]) && IsSpace(UPDATE[|UPDATE| - 1]) && IsSpace(DELETE[|DELETE| - 1]);
    assert Header(t).Some? && Header(t).value.1 == "" ==> t == ADD || t == UPDATE || t == DELETE;
    hide TrimRight, TrimLeft, Header;
  }

  lemma {:induction false} TrimEnds(s: string)
    ensures TrimRight(s) != "" ==> !IsSpace(TrimRight(s)[|TrimRight(s)| - 1])
    ensures TrimRight(s) <= s
  {
    if s != "" && IsSpace(s[|s| - 1]) { TrimEnds(s[..|s| - 1]); }
  }

  // ---- printing and parsing ----

  function Heading(h: Hunk): string {
    (match h.kind
     case Add => ADD
     case Update => UPDATE
     case Delete => DELETE) + h.path
  }

  function Body(hunks: seq<Hunk>): seq<string> {
    if hunks == [] then [] else ([Heading(hunks[0])] + hunks[0].lines) + Body(hunks[1..])
  }

  // A patch as the tool's description spells it.
  function Printed(hunks: seq<Hunk>): seq<string> { [BEGIN] + (Body(hunks) + [FINISH]) }

  // A line that does not read as a directive.
  predicate Plain(line: string) { !(DIRECTIVE <= Trim(line)) }

  predicate GoodPath(path: string) { path != "" && !IsSpace(path[|path| - 1]) }

  predicate AllPlain(lines: seq<string>) { forall i :: 0 <= i < |lines| ==> Plain(lines[i]) }

  predicate Printable(h: Hunk) {
    GoodPath(h.path) && AllPlain(h.lines) && (h.kind.Add? ==> FirstBad(h.lines).None?)
  }

  lemma TakeLinesCons(s: Parsing, line: string, rest: seq<string>)
    requires s.Parsing?
    ensures TakeLines(s, [line] + rest) == TakeLines(TakeLine(s, line), rest)
  {
    assert ([line] + rest)[1..] == rest;
    hide TakeLine;
  }

  lemma {:induction false} TakeLinesAppend(s: Parsing, a: seq<string>, b: seq<string>)
    ensures TakeLines(s, a + b) == TakeLines(TakeLines(s, a), b)
    decreases |a|
  {
    hide TakeLine;
    if a == [] {
      assert a + b == b;
    } else if s.Failed? {
    } else {
      HeadTail(a);
      ConcatAssoc([a[0]], a[1..], b);
      TakeLinesCons(s, a[0], a[1..] + b);
      TakeLinesAppend(TakeLine(s, a[0]), a[1..], b);
    }
  }

  // Plain lines are added to the open section.
  lemma {:induction false} PlainLinesAdd(s: Parsing, lines: seq<string>)
    requires s.Parsing? && s.open.Some? && AllPlain(lines)
    ensures TakeLines(s, lines) == s.(open := Some(s.open.value.(lines := s.open.value.lines + lines)))
    decreases |lines|
  {
    if lines == [] {
      assert s.open.value.lines + [] == s.open.value.lines;
    } else {
      var next := s.(open := Some(Extend(s.open.value, lines[0])));
      PlainLineAdds(s, lines[0]);
      PlainLinesAdd(next, lines[1..]);
      HeadTail(lines);
      ConcatAssoc(s.open.value.lines, [lines[0]], lines[1..]);
      hide TakeLine, Plain;
    }
  }

  lemma PlainLineAdds(s: Parsing, line: string)
    requires s.Parsing? && s.open.Some? && Plain(line)
    ensures TakeLine(s, line) == s.(open := Some(Extend(s.open.value, line)))
  {
    BracketIsDirective(Trim(line));
    hide Trim, Bracket, Header;
  }

  lemma BracketIsDirective(t: string)
    ensures Bracket(t) ==> DIRECTIVE <= t
  {
    assert BEGIN[..4] == DIRECTIVE && FINISH[..4] == DIRECTIVE;
    if BEGIN <= t { assert t[..4] == BEGIN[..4]; }
    if FINISH <= t { assert t[..4] == FINISH[..4]; }
  }

  function Title(kind: Kind): string {
    match kind
    case Add => ADD
    case Update => UPDATE
    case Delete => DELETE
  }

  lemma {:induction false} TrimTail(s: string, path: string)
    ensures TrimRight(s + path) == if TrimRight(path) == "" then TrimRight(s) else s + TrimRight(path)
    decreases |path|
  {
    if path == "" {
      assert s + path == s;
    } else if IsSpace(path[|path| - 1]) {
      assert (s + path)[..|s + path| - 1] == s + path[..|path| - 1];
      TrimTail(s, path[..|path| - 1]);
    }
  }

  // A heading is a section header for its path without trailing blanks, if anything is left.
  lemma HeadingReads(kind: Kind, path: string)
    ensures var t := Trim(Title(kind) + path);
            && t != "" && !Bracket(t) && DIRECTIVE <= t
            && Header(t) == if TrimRight(path) == "" then None else Some((kind, TrimRight(path)))
  {
    var title := Title(kind);
    var line := title + path;
    assert title[..4] == DIRECTIVE && line[..4] == DIRECTIVE;
    assert TrimLeft(line) == line;
    TrimTail(title, path);
    var short := title[..|title| - 1];
    assert IsSpace(title[|title| - 1]) && !IsSpace(short[|short| - 1]);
    assert TrimRight(title) == short;
    var t := Trim(line);
    hide TrimLeft, TrimRight, IsSpace;
    if TrimRight(path) == "" {
      ShortTitle(kind);
    } else {
      LongTitle(kind, TrimRight(path));
    }
  }

  lemma ShortTitle(kind: Kind)
    ensures var t := Title(kind)[..|Title(kind)| - 1];
            t != "" && !Bracket(t) && DIRECTIVE <= t && Header(t) == None
  {
    var t := Title(kind)[..|Title(kind)| - 1];
    assert t[4] == Title(kind)[4] && t[..4] == DIRECTIVE;
    assert ADD[4] == 'A' && UPDATE[4] == 'U' && DELETE[4] == 'D' && BEGIN[4] == 'B' && FINISH[4] == 'E';
  }

  lemma LongTitle(kind: Kind, rest: string)
    ensures var t := Title(kind) + rest;
            t != "" && !Bracket(t) && DIRECTIVE <= t && Header(t) == Some((kind, rest))
  {
    var t := Title(kind) + rest;
    assert t[4] == Title(kind)[4] && t[..4] == DIRECTIVE;
    assert ADD[4] == 'A' && UPDATE[4] == 'U' && DELETE[4] == 'D' && BEGIN[4] == 'B' && FINISH[4] == 'E';
    assert t[..|Title(kind)|] == Title(kind) && t[|Title(kind)|..] == rest;
  }

  // One printed hunk: its heading closes the section before it, and its lines fill the next.
  lemma HeadingOpens(s: Parsing, h: Hunk)
    requires s.Parsing?
    ensures TakeLine(s, Heading(h))
            == if TrimRight(h.path) == "" then Failed(UnknownDirective(Trim(Heading(h))))
               else OpenSection(s, h.kind, TrimRight(h.path))
  {
    HeadingReads(h.kind, h.path);
    assert Heading(h) == Title(h.kind) + h.path;
    hide Trim, TrimRight, Bracket, Header, Title, Heading;
  }

  lemma GoodPathTrims(path: string)
    ensures GoodPath(path) <==> TrimRight(path) != "" && TrimRight(path) == path
  {
    TrimEnds(path);
    if path != "" && IsSpace(path[|path| - 1]) { TrimEnds(path[..|path| - 1]); }
  }

  lemma BracketCloses(s: Parsing)
    requires s.Parsing?
    ensures TakeLine(s, BEGIN) == Flush(s) && TakeLine(s, FINISH) == Flush(s)
  {
    assert !IsSpace(BEGIN[|BEGIN| - 1]) && !IsSpace(FINISH[|FINISH| - 1]);
    assert TrimLeft(BEGIN) == BEGIN && TrimLeft(FINISH) == FINISH;
    assert TrimRight(BEGIN) == BEGIN && TrimRight(FINISH) == FINISH;
    hide Flush, Header;
  }

  predicate AllPrintable(hunks: seq<Hunk>) { forall i :: 0 <= i < |hunks| ==> Printable(hunks[i]) }

  // What is in the section when a printable hunk has been read.
  lemma HunkReads(s: Parsing, h: Hunk, rest: seq<string>)
    requires s.Parsing? && Flush(s).Parsing? && GoodPath(h.path) && AllPlain(h.lines)
    ensures TakeLines(s, ([Heading(h)] + h.lines) + rest) == TakeLines(Parsing(Flush(s).hunks, Some(h)), rest)
  {
    GoodPathTrims(h.path);
    HeadingOpens(s, h);
    hide *;
    ConcatAssoc([Heading(h)], h.lines, rest);
    TakeLinesCons(s, Heading(h), h.lines + rest);
    var section := Parsing(Flush(s).hunks, Some(Hunk(h.kind, h.path, [])));
    OpenIs(s, h.kind, h.path);
    TakeLinesAppend(section, h.lines, rest);
    PlainLinesAdd(section, h.lines);
    assert [] + h.lines == h.lines;
  }

  lemma OpenIs(s: Parsing, kind: Kind, path: string)
    requires s.Parsing? && Flush(s).Parsing? && path != ""
    ensures OpenSection(s, kind, path) == Parsing(Flush(s).hunks, Some(Hunk(kind, path, [])))
    ensures GoodPath(path) ==> path != ""
  {
  }

  // Hunks that read back one by one.
  lemma {:induction false} BodyReads(s: Parsing, hunks: seq<Hunk>, rest: seq<string>)
    requires s.Parsing? && Flush(s).Parsing? && AllPrintable(hunks)
    ensures var f := Flush(s).hunks;
            TakeLines(s, Body(hunks) + rest)
            == TakeLines(if hunks == [] then s else Parsing(f + hunks[..|hunks| - 1], Some(hunks[|hunks| - 1])), rest)
    decreases |hunks|
  {
    if hunks == [] {
      assert [] + rest == rest;
    } else {
      var h, more := hunks[0], hunks[1..];
      assert Printable(h) && AllPrintable(more);
      var f := Flush(s).hunks;
      var next := Parsing(f, Some(h));
      assert Flush(next) == Parsing(f + [h], None);
      ConcatAssoc([Heading(h)] + h.lines, Body(more), rest);
      hide Flush, TakeLines, Body, Heading, AllPlain, GoodPath, FirstBad;
      HunkReads(s, h, Body(more) + rest);
      BodyReads(next, more, rest);
      if more != [] {
        ConcatAssoc(f, [h], more[..|more| - 1]);
        assert hunks[..|hunks| - 1] == [h] + more[..|more| - 1];
      } else {
        assert f + hunks[..0] == f;
      }
    }
  }

  // ---- what has been read is kept ----

  // The hunk in position `n` is, or will be, one for `path`.
  predicate HasPath(s: Parsing, n: nat, path: string)
    requires s.Parsing?
  {
    || (n < |s.hunks| && s.hunks[n].path == path)
    || (n == |s.hunks| && s.open.Some? && s.open.value.path == path)
  }

  lemma TakeLineKeeps(s: Parsing, line: string, n: nat, path: string)
    requires s.Parsing? && TakeLine(s, line).Parsing?
    ensures s.hunks <= TakeLine(s, line).hunks
    ensures HasPath(s, n, path) ==> HasPath(TakeLine(s, line), n, path)
  {
    hide Trim, Bracket, Header, FirstBad;
  }

  lemma {:induction false} ConcludeKeeps(s: Parsing, lines: seq<string>, n: nat, path: string)
    requires s.Parsing? && Conclude(TakeLines(s, lines)).Parses?
    ensures var r := Conclude(TakeLines(s, lines)).hunks;
            s.hunks <= r && (HasPath(s, n, path) ==> n < |r| && r[n].path == path)
    decreases |lines|
  {
    if lines == [] {
      hide FirstBad;
    } else {
      hide TakeLine;
      var t := TakeLine(s, lines[0]);
      FailedStays(t, lines[1..]);
      TakeLineKeeps(s, lines[0], n, path);
      hide Conclude, HasPath;
      ConcludeKeeps(t, lines[1..], n, path);
    }
  }

  lemma FailedStays(s: Parsing, lines: seq<string>)
    ensures s.Failed? ==> Conclude(TakeLines(s, lines)).NotParsed?
  {
  }

  // ---- hunks that do not read back ----

  // A line of `h` that reads as a directive cuts the hunk short.
  lemma DirectiveCuts(good: seq<Hunk>, h: Hunk, j: nat, rest: seq<string>)
    requires j < |h.lines| && !Plain(h.lines[j])
    ensures var u := Parsing(good, Some(h.(lines := h.lines[..j])));
            var t := TakeLine(u, h.lines[j]);
            t.Failed? || good + [h.(lines := h.lines[..j])] <= t.hunks
  {
    var trimmed := Trim(h.lines[j]);
    assert trimmed != "";
    hide Trim, Header, FirstBad;
  }

  predicate Differs(r: Parsed, good: seq<Hunk>, h: Hunk) {
    r.Parses? ==> |r.hunks| <= |good| || r.hunks[|good|] != h
  }

  lemma BadPathDiffers(s: Parsing, good: seq<Hunk>, h: Hunk, lines: seq<string>)
    requires s.Parsing? && Flush(s) == Parsing(good, None) && !GoodPath(h.path)
    ensures Differs(Conclude(TakeLines(s, [Heading(h)] + lines)), good, h)
  {
    GoodPathTrims(h.path);
    HeadingOpens(s, h);
    TakeLinesCons(s, Heading(h), lines);
    var t := TakeLine(s, Heading(h));
    FailedStays(t, lines);
    var path := TrimRight(h.path);
    assert t.Parsing? ==> t == Parsing(good, Some(Hunk(h.kind, path, [])));
    hide TakeLine, TakeLines, Heading, TrimRight, GoodPath, Flush, OpenSection;
    if t.Parsing? && Conclude(TakeLines(t, lines)).Parses? {
      hide Conclude;
      ConcludeKeeps(t, lines, |good|, path);
    }
  }

  lemma CutHunkDiffers(good: seq<Hunk>, h: Hunk, j: nat, rest: seq<string>)
    requires j < |h.lines| && AllPlain(h.lines[..j]) && !Plain(h.lines[j])
    ensures Differs(Conclude(TakeLines(Parsing(good, Some(Hunk(h.kind, h.path, []))), h.lines + rest)), good, h)
  {
    var start := Parsing(good, Some(Hunk(h.kind, h.path, [])));
    var cut := h.(lines := h.lines[..j]);
    var u := Parsing(good, Some(cut));
    var after := h.lines[j + 1..] + rest;
    hide *;
    assert h.lines + rest == h.lines[..j] + ([h.lines[j]] + after);
    TakeLinesAppend(start, h.lines[..j], [h.lines[j]] + after);
    PlainLinesAdd(start, h.lines[..j]);
    assert [] + h.lines[..j] == h.lines[..j];
    TakeLinesCons(u, h.lines[j], after);
    DirectiveCuts(good, h, j, rest);
    CutStays(TakeLine(u, h.lines[j]), after, good, h, cut);
  }

  lemma CutStays(t: Parsing, after: seq<string>, good: seq<Hunk>, h: Hunk, cut: Hunk)
    requires t.Failed? || good + [cut] <= t.hunks
    requires cut != h
    ensures Differs(Conclude(TakeLines(t, after)), good, h)
  {
    FailedStays(t, after);
    hide TakeLines;
    if t.Parsing? && Conclude(TakeLines(t, after)).Parses? {
      hide Conclude;
      ConcludeKeeps(t, after, 0, "");
      var r := Conclude(TakeLines(t, after)).hunks;
      assert r[|good|] == (good + [cut])[|good|];
    }
  }

  lemma BadAddFails(good: seq<Hunk>, h: Hunk, next: string, rest: seq<string>)
    requires h.kind.Add? && FirstBad(h.lines).Some?
    requires next == FINISH || exists g :: next == Heading(g)
    ensures Conclude(TakeLines(Parsing(good, Some(h)), [next] + rest)).NotParsed?
  {
    var u := Parsing(good, Some(h));
    TakeLinesCons(u, next, rest);
    if next == FINISH {
      BracketCloses(u);
    } else {
      var g :| next == Heading(g);
      HeadingOpens(u, g);
    }
    hide TakeLine, TakeLines, Heading, FirstBad;
    FailedStays(TakeLine(u, next), rest);
  }

  // The lines after a hunk start with another heading or the end of the patch.
  lemma NextLine(more: seq<Hunk>) returns (next: string, rest: seq<string>)
    ensures Body(more) + [FINISH] == [next] + rest
    ensures next == FINISH || exists g :: next == Heading(g)
  {
    if more == [] {
      next, rest := FINISH, [];
    } else {
      next, rest := Heading(more[0]), more[0].lines + Body(more[1..]) + [FINISH];
      hide Heading;
      ConcatAssoc([next], more[0].lines, Body(more[1..]));
      ConcatAssoc([next], more[0].lines + Body(more[1..]), [FINISH]);
    }
  }

  lemma {:induction false} FirstNotPlain(lines: seq<string>) returns (j: nat)
    requires !AllPlain(lines)
    ensures j < |lines| && AllPlain(lines[..j]) && !Plain(lines[j])
  {
    hide Plain;
    j := 0;
    while Plain(lines[j])
      invariant j < |lines| && AllPlain(lines[..j])
      invariant !AllPlain(lines)
      decreases |lines| - j
    {
      assert j + 1 == |lines| ==> AllPlain(lines);
      j := j + 1;
    }
  }

  // A hunk that is not printable does not come back, whatever follows it.
  lemma UnprintableDiffers(s: Parsing, good: seq<Hunk>, h: Hunk, more: seq<Hunk>)
    requires s.Parsing? && Flush(s) == Parsing(good, None) && !Printable(h)
    ensures Differs(Conclude(TakeLines(s, ([Heading(h)] + h.lines) + (Body(more) + [FINISH]))), good, h)
  {
    var tail := Body(more) + [FINISH];
    ConcatAssoc([Heading(h)], h.lines, tail);
    if !GoodPath(h.path) {
      hide *;
      BadPathDiffers(s, good, h, h.lines + tail);
    } else if !AllPlain(h.lines) {
      var j := FirstNotPlain(h.lines);
      GoodPathTrims(h.path);
      HeadingOpens(s, h);
      OpenIs(s, h.kind, h.path);
      hide *;
      TakeLinesCons(s, Heading(h), h.lines + tail);
      CutHunkDiffers(good, h, j, tail);
    } else {
      var next, rest := NextLine(more);
      assert h.kind.Add? && FirstBad(h.lines).Some?;
      hide *;
      HunkReads(s, h, tail);
      BadAddFails(good, h, next, rest);
      FailedDiffers(Conclude(TakeLines(Parsing(good, Some(h)), tail)), good, h);
    }
  }

  lemma FailedDiffers(r: Parsed, good: seq<Hunk>, h: Hunk)
    ensures r.NotParsed? ==> Differs(r, good, h)
  {
  }

  // ---- the round trip ----

  lemma PrintedReads(hunks: seq<Hunk>)
    requires AllPrintable(hunks)
    ensures ParseLines(Printed(hunks)) == Parses(hunks)
  {
    var s := NothingRead();
    BracketCloses(s);
    TakeLinesCons(s, BEGIN, Body(hunks) + [FINISH]);
    BodyReads(s, hunks, [FINISH]);
    var t := if hunks == [] then s else Parsing([] + hunks[..|hunks| - 1], Some(hunks[|hunks| - 1]));
    BracketCloses(t);
    assert hunks != [] ==> Printable(hunks[|hunks| - 1]);
    assert hunks != [] ==> [] + hunks[..|hunks| - 1] + [hunks[|hunks| - 1]] == hunks;
    assert [FINISH] + [] == [FINISH];
    TakeLinesCons(t, FINISH, []);
    hide TakeLine, Body, FirstBad, AllPlain, GoodPath;
  }

  lemma UnprintedDiffers(hunks: seq<Hunk>, i: nat)
    requires i < |hunks| && AllPrintable(hunks[..i]) && !Printable(hunks[i])
    ensures ParseLines(Printed(hunks)) != Parses(hunks)
  {
    var good, h, more := hunks[..i], hunks[i], hunks[i + 1..];
    var s := NothingRead();
    var tail := ([Heading(h)] + h.lines) + (Body(more) + [FINISH]);
    assert hunks == good + ([h] + more);
    BracketCloses(s);
    assert Flush(s) == s;
    GoodFlushes(good);
    var t := LastOf(good);
    hide *;
    TakeLinesCons(s, BEGIN, Body(hunks) + [FINISH]);
    BodySplit(good, h, more);
    LastReads(good, tail);
    UnprintableDiffers(t, good, h, more);
    DiffersMeans(hunks, good, h, more);
    ParseIs(hunks);
  }

  // The state after the hunks of `good`.
  function LastOf(good: seq<Hunk>): Parsing {
    if good == [] then NothingRead() else Parsing(good[..|good| - 1], Some(good[|good| - 1]))
  }

  lemma ParseIs(hunks: seq<Hunk>)
    ensures ParseLines(Printed(hunks)) == Conclude(TakeLines(NothingRead(), [BEGIN] + (Body(hunks) + [FINISH])))
  {
  }

  lemma DiffersMeans(hunks: seq<Hunk>, good: seq<Hunk>, h: Hunk, more: seq<Hunk>)
    requires hunks == good + ([h] + more)
    ensures forall r :: Differs(r, good, h) ==> r != Parses(hunks)
  {
  }

  lemma LastReads(good: seq<Hunk>, tail: seq<string>)
    requires AllPrintable(good)
    ensures TakeLines(NothingRead(), Body(good) + tail) == TakeLines(LastOf(good), tail)
  {
    BodyReads(NothingRead(), good, tail);
    hide TakeLines, Body, AllPrintable;
    if good != [] { assert [] + good[..|good| - 1] == good[..|good| - 1]; }
  }

  lemma GoodFlushes(good: seq<Hunk>)
    requires AllPrintable(good)
    ensures LastOf(good).Parsing? && Flush(LastOf(good)) == Parsing(good, None)
  {
    if good != [] {
      assert Printable(good[|good| - 1]);
      assert good[..|good| - 1] + [good[|good| - 1]] == good;
      hide FirstBad, AllPlain, GoodPath;
    }
  }

  lemma {:induction false} BodyAppend(a: seq<Hunk>, b: seq<Hunk>)
    ensures Body(a + b) == Body(a) + Body(b)
    decreases |a|
  {
    if a == [] {
      assert a + b == b;
      assert [] + Body(b) == Body(b);
    } else {
      assert (a + b)[0] == a[0] && (a + b)[1..] == a[1..] + b;
      BodyAppend(a[1..], b);
      ConcatAssoc([Heading(a[0])] + a[0].lines, Body(a[1..]), Body(b));
    }
  }

  lemma BodySplit(good: seq<Hunk>, h: Hunk, more: seq<Hunk>)
    ensures Body(good + ([h] + more)) + [FINISH] == Body(good) + (([Heading(h)] + h.lines) + (Body(more) + [FINISH]))
  {
    BodyAppend(good, [h] + more);
    assert ([h] + more)[1..] == more;
    ConcatAssoc(Body(good), [Heading(h)] + h.lines + Body(more), [FINISH]);
    ConcatAssoc([Heading(h)] + h.lines, Body(more), [FINISH]);
  }

  // A patch printed line by line parses back to its hunks exactly when every path is non-empty
  // and does not end in a blank, no line reads as a directive, and added lines are marked.
  lemma PrintParseIff(hunks: seq<Hunk>)
    ensures ParseLines(Printed(hunks)) == Parses(hunks) <==> AllPrintable(hunks)
  {
    if AllPrintable(hunks) {
      PrintedReads(hunks);
    } else {
      var i := FirstUnprintable(hunks);
      UnprintedDiffers(hunks, i);
    }
  }

  lemma FirstUnprintable(hunks: seq<Hunk>) returns (i: nat)
    requires !AllPrintable(hunks)
    ensures i < |hunks| && AllPrintable(hunks[..i]) && !Printable(hunks[i])
  {
    hide Printable;
    i := 0;
    while Printable(hunks[i])
      invariant i < |hunks| && AllPrintable(hunks[..i]) && !AllPrintable(hunks)
      decreases |hunks| - i
    {
      assert i + 1 == |hunks| ==> AllPrintable(hunks);
      i := i + 1;
    }
  }

  // The same for the text of a patch, whose lines hold no line ends.
  lemma PrintedTextParses(hunks: seq<Hunk>)
    requires AllPrintable(hunks) && AllClean(Printed(hunks))
    ensures ParseLines(SplitLines(Join(Printed(hunks)))) == Parses(hunks)
  {
    var lines := Printed(hunks);
    assert lines[|lines| - 1] == FINISH;
    hide ParseLines, Printed, SplitLines, Join, AllPrintable;
    SplitJoined(lines);
    PrintedReads(hunks);
  }
}
