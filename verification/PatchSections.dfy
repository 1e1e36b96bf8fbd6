// src/tool/apply_patch.h, parse_patch: what any text parses to, by the places of its lines.
module PatchSections {
  import opened Bytes
  import opened Hunks
  import opened ApplyPatch
  import opened PatchParser

  // ---- the lines ----

  predicate IsBlank(line: string) { Trim(line) == "" }

  predicate Directive(line: string) { DIRECTIVE <= Trim(line) }

  // "*** Begin Patch", "*** End Patch", and whatever they begin.
  predicate Marker(line: string) { Bracket(Trim(line)) }

  // The line opens the section of `h`.
  predicate Opens(line: string, h: Hunk) {
    && !Marker(line) && Directive(line)
    && Trim(line) == (match h.kind
                      case Add => "*** Add File: "
                      case Update => "*** Update File: "
                      case Delete => "*** Delete File: ") + h.path
  }

  predicate NoDirective(lines: seq<string>) { forall i :: 0 <= i < |lines| ==> !Directive(lines[i]) }

  // The line must not stand in the section of a new file.
  predicate BadFor(h: Hunk, line: string) { h.kind.Add? && line != "" && line[0] != '+' }

  predicate NoneBad(h: Hunk) { forall i :: 0 <= i < |h.lines| ==> !BadFor(h, h.lines[i]) }

  function EndOf(h: Hunk, s: nat): nat { s + 1 + |h.lines| }

  // The section of `h` opens at line `s` and runs to the next directive.
  predicate SectionAt(lines: seq<string>, s: nat, h: Hunk) {
    && EndOf(h, s) <= |lines| && Opens(lines[s], h)
    && lines[s + 1..EndOf(h, s)] == h.lines && NoDirective(h.lines)
    && (EndOf(h, s) == |lines| || Directive(lines[EndOf(h, s)]))
  }

  predicate InSection(hunks: seq<Hunk>, at: seq<nat>, k: nat, i: nat)
    requires k < |hunks| == |at|
  {
    at[k] <= i < EndOf(hunks[k], at[k])
  }

  // The hunks are the sections of the text, all of them, in order; outside them are only blank
  // lines and markers.
  ghost predicate SectionsAre(lines: seq<string>, hunks: seq<Hunk>, at: seq<nat>) {
    && |at| == |hunks|
    && (forall k :: 0 <= k < |hunks| ==> SectionAt(lines, at[k], hunks[k]))
    && (forall k :: 0 < k < |hunks| ==> EndOf(hunks[k - 1], at[k - 1]) <= at[k])
    && (forall i :: 0 <= i < |lines| ==>
          IsBlank(lines[i]) || Marker(lines[i]) || exists k :: 0 <= k < |hunks| && InSection(hunks, at, k, i))
  }

  // ---- reading line by line ----

  function Sections(s: Parsing): seq<Hunk>
    requires s.Parsing?
  {
    s.hunks + if s.open.Some? then [s.open.value] else []
  }

  // What has been read, with the open section still running.
  ghost predicate ReadsSections(lines: seq<string>, s: Parsing, at: seq<nat>)
    requires s.Parsing?
  {
    && SectionsAre(lines, Sections(s), at)
    && (forall k :: 0 <= k < |s.hunks| ==> NoneBad(s.hunks[k]))
    && (s.open.Some? ==> EndOf(s.open.value, at[|at| - 1]) == |lines|)
    && (s.open.None? ==> ClosedNow(lines, s.hunks, at))
  }

  // The last section, if any, has ended.
  predicate ClosedNow(lines: seq<string>, hunks: seq<Hunk>, at: seq<nat>)
    requires |at| == |hunks|
  {
    hunks != [] ==> EndOf(hunks[|hunks| - 1], at[|at| - 1]) < |lines|
  }

  lemma TakeLinesSnoc(s: Parsing, lines: seq<string>, line: string)
    ensures TakeLines(s, lines + [line])
            == if TakeLines(s, lines).Failed? then TakeLines(s, lines) else TakeLine(TakeLines(s, lines), line)
  {
    TakeLinesAppend(s, lines, [line]);
    assert [line][1..] == [];
    hide TakeLine;
  }

  // ---- one line more ----

  lemma SectionStays(lines: seq<string>, x: string, s: nat, h: Hunk)
    requires SectionAt(lines, s, h) && (EndOf(h, s) < |lines| || Directive(x))
    ensures SectionAt(lines + [x], s, h)
  {
    hide Directive, Opens, NoDirective;
    assert (lines + [x])[s + 1..EndOf(h, s)] == lines[s + 1..EndOf(h, s)];
  }

  lemma {:induction false} EndsEarlier(lines: seq<string>, hunks: seq<Hunk>, at: seq<nat>, k: nat)
    requires SectionsAre(lines, hunks, at) && k < |hunks| - 1
    ensures EndOf(hunks[k], at[k]) < |lines|
  {
    assert SectionAt(lines, at[k + 1], hunks[k + 1]);
    hide Directive, Opens, NoDirective;
  }

  // A blank line or a marker that belongs to no section.
  lemma LineBetween(lines: seq<string>, hunks: seq<Hunk>, at: seq<nat>, x: string)
    requires SectionsAre(lines, hunks, at) && (IsBlank(x) || Marker(x)) && (ClosedNow(lines, hunks, at) || Directive(x))
    ensures SectionsAre(lines + [x], hunks, at) && ClosedNow(lines + [x], hunks, at)
  {
    hide Directive, IsBlank, Marker;
    var all := lines + [x];
    forall k | 0 <= k < |hunks| ensures SectionAt(all, at[k], hunks[k]) {
      if k < |hunks| - 1 { EndsEarlier(lines, hunks, at, k); }
      SectionStays(lines, x, at[k], hunks[k]);
    }
    if hunks != [] { assert SectionAt(lines, at[|hunks| - 1], hunks[|hunks| - 1]); }
    hide SectionAt;
    forall i | 0 <= i < |all|
      ensures IsBlank(all[i]) || Marker(all[i]) || exists k :: 0 <= k < |hunks| && InSection(hunks, at, k, i)
    {
      if i < |lines| { assert all[i] == lines[i]; }
    }
  }

  // A line that goes on the section that is still running.
  lemma LineInside(lines: seq<string>, hunks: seq<Hunk>, h: Hunk, at: seq<nat>, x: string)
    requires SectionsAre(lines, hunks + [h], at) && EndOf(h, at[|at| - 1]) == |lines| && !Directive(x)
    ensures SectionsAre(lines + [x], hunks + [Extend(h, x)], at)
    ensures EndOf(Extend(h, x), at[|at| - 1]) == |lines| + 1
  {
    hide Directive, IsBlank, Marker;
    var all, was, more, n := lines + [x], hunks + [h], hunks + [Extend(h, x)], |hunks|;
    assert was[n] == h && more[n] == Extend(h, x);
    forall k | 0 <= k < |more| ensures SectionAt(all, at[k], more[k]) {
      assert SectionAt(lines, at[k], was[k]);
      if k < n {
        assert more[k] == was[k];
        EndsEarlier(lines, was, at, k);
        SectionStays(lines, x, at[k], was[k]);
      } else {
        SectionGrows(lines, at[n], h, x);
      }
    }
    hide SectionAt;
    forall k | 0 < k < |more| ensures EndOf(more[k - 1], at[k - 1]) <= at[k] { assert more[k - 1] == was[k - 1]; }
    forall i | 0 <= i < |all|
      ensures IsBlank(all[i]) || Marker(all[i]) || exists k :: 0 <= k < |more| && InSection(more, at, k, i)
    {
      if i < |lines| {
        assert all[i] == lines[i];
        if !IsBlank(lines[i]) && !Marker(lines[i]) {
          var k :| 0 <= k < |was| && InSection(was, at, k, i);
          assert InSection(more, at, k, i);
        }
      } else {
        assert InSection(more, at, n, i);
      }
    }
  }

  lemma SectionGrows(lines: seq<string>, s: nat, h: Hunk, x: string)
    requires SectionAt(lines, s, h) && EndOf(h, s) == |lines| && !Directive(x)
    ensures SectionAt(lines + [x], s, Extend(h, x))
  {
    hide Directive, Title, Marker;
    var all, g := lines + [x], Extend(h, x);
    assert all[s + 1..EndOf(g, s)] == lines[s + 1..] + [x] && lines[s + 1..] == lines[s + 1..EndOf(h, s)];
  }

  // A line that opens a section.
  lemma LineOpens(lines: seq<string>, hunks: seq<Hunk>, h: Hunk, at: seq<nat>, x: string)
    requires SectionsAre(lines, hunks, at) && Opens(x, h) && h.lines == []
    ensures SectionsAre(lines + [x], hunks + [h], at + [|lines|])
  {
    hide Directive, IsBlank, Marker;
    assert Directive(x);
    var all, more, starts, n := lines + [x], hunks + [h], at + [|lines|], |hunks|;
    forall k | 0 <= k < |more| ensures SectionAt(all, starts[k], more[k]) {
      if k < n {
        SectionStays(lines, x, at[k], hunks[k]);
      } else {
        assert all[|lines| + 1..|lines| + 1] == [];
      }
    }
    forall k | 0 < k < |more| ensures EndOf(more[k - 1], starts[k - 1]) <= starts[k] {
      assert SectionAt(lines, at[k - 1], hunks[k - 1]);
    }
    hide SectionAt, Opens;
    forall i | 0 <= i < |all|
      ensures IsBlank(all[i]) || Marker(all[i]) || exists k :: 0 <= k < |more| && InSection(more, starts, k, i)
    {
      if i < |lines| {
        assert all[i] == lines[i];
        if !IsBlank(lines[i]) && !Marker(lines[i]) {
          var k :| 0 <= k < |hunks| && InSection(hunks, at, k, i);
          assert InSection(more, starts, k, i);
        }
      } else {
        assert InSection(more, starts, n, i);
      }
    }
  }

  // ---- the whole text ----

  lemma HeaderOpens(line: string)
    requires !Marker(line) && Directive(line)
    ensures Header(Trim(line)).Some? ==>
              Opens(line, Hunk(Header(Trim(line)).value.0, Header(Trim(line)).value.1, []))
              && Header(Trim(line)).value.1 != ""
    ensures Header(Trim(line)).None? ==> forall h :: !Opens(line, h)
  {
    HeadersHavePaths(line);
    var t := Trim(line);
    hide Trim, Bracket;
    assert Header(t).Some? ==> t == Title(Header(t).value.0) + Header(t).value.1;
  }

  lemma FirstBadIs(h: Hunk, lines: seq<string>)
    requires h.kind.Add?
    ensures FirstBad(lines).None? <==> forall i :: 0 <= i < |lines| ==> !BadFor(h, lines[i])
    ensures FirstBad(lines).Some? ==> FirstBad(lines).value in lines && BadFor(h, FirstBad(lines).value)
    decreases |lines|
  {
    if lines != [] {
      FirstBadIs(h, lines[1..]);
      assert forall i :: 0 < i < |lines| ==> lines[i] == lines[1..][i - 1];
    }
  }

  // Ending the open section keeps the sections, unless one of its lines is bad.
  lemma FlushIs(s: Parsing)
    requires s.Parsing? && forall k :: 0 <= k < |s.hunks| ==> NoneBad(s.hunks[k])
    ensures Flush(s).Parsing? ==>
              Flush(s).open.None? && Flush(s).hunks == Sections(s)
              && forall k :: 0 <= k < |Flush(s).hunks| ==> NoneBad(Flush(s).hunks[k])
    ensures Flush(s).Failed? ==>
              s.open.Some? && s.open.value.kind.Add?
              && exists line :: line in s.open.value.lines && BadFor(s.open.value, line)
                                && Flush(s).error == BadAddLine(s.open.value.path, line)
  {
    if s.open.Some? && s.open.value.kind.Add? { FirstBadIs(s.open.value, s.open.value.lines); }
    hide FirstBad, BadFor;
  }

  // What one line does to the parse.
  lemma TakeLineIs(s: Parsing, x: string)
    requires s.Parsing? && TakeLine(s, x).Parsing?
    ensures IsBlank(x) ==> !Directive(x)
    ensures Marker(x) ==> Directive(x)
    ensures IsBlank(x) && s.open.None? ==> TakeLine(s, x) == s
    ensures !Directive(x) && s.open.Some? ==> TakeLine(s, x) == s.(open := Some(Extend(s.open.value, x)))
    ensures !Directive(x) && s.open.None? ==> IsBlank(x)
    ensures Marker(x) ==> TakeLine(s, x) == Flush(s)
    ensures Directive(x) && !Marker(x) ==>
              Header(Trim(x)).Some? && Flush(s).Parsing?
              && TakeLine(s, x)
                 == Flush(s).(open := Some(Hunk(Header(Trim(x)).value.0, Header(Trim(x)).value.1, [])))
  {
    BracketIsDirective(Trim(x));
    hide Trim, Bracket, Header, Flush;
  }

  lemma NextLine(lines: seq<string>, s: Parsing, before: seq<nat>, x: string) returns (at: seq<nat>)
    requires s.Parsing? && ReadsSections(lines, s, before) && TakeLine(s, x).Parsing?
    ensures ReadsSections(lines + [x], TakeLine(s, x), at)
  {
    TakeLineIs(s, x);
    hide TakeLine, IsBlank, Directive, Marker, ReadsSections, Flush, Header;
    at := before;
    if !Directive(x) {
      PlainLine(lines, s, before, x);
    } else if Marker(x) {
      MarkerLine(lines, s, before, x);
    } else {
      at := before + [|lines|];
      HeaderLine(lines, s, before, x);
    }
  }

  lemma PlainLine(lines: seq<string>, s: Parsing, at: seq<nat>, x: string)
    requires s.Parsing? && ReadsSections(lines, s, at) && !Directive(x) && (s.open.None? ==> IsBlank(x))
    ensures ReadsSections(lines + [x], if s.open.Some? then s.(open := Some(Extend(s.open.value, x))) else s, at)
  {
    hide SectionsAre, Directive, IsBlank, NoneBad;
    if s.open.Some? {
      LineInside(lines, s.hunks, s.open.value, at, x);
    } else {
      assert Sections(s) == s.hunks;
      LineBetween(lines, s.hunks, at, x);
    }
  }

  lemma MarkerLine(lines: seq<string>, s: Parsing, at: seq<nat>, x: string)
    requires s.Parsing? && ReadsSections(lines, s, at) && Marker(x) && Directive(x) && Flush(s).Parsing?
    ensures ReadsSections(lines + [x], Flush(s), at)
  {
    FlushIs(s);
    hide SectionsAre, Directive, Marker, NoneBad, Flush;
    LineBetween(lines, Sections(s), at, x);
    assert Sections(Flush(s)) == Sections(s);
  }

  lemma HeaderLine(lines: seq<string>, s: Parsing, at: seq<nat>, x: string)
    requires s.Parsing? && ReadsSections(lines, s, at) && Directive(x) && !Marker(x)
    requires Header(Trim(x)).Some? && Flush(s).Parsing?
    ensures ReadsSections(lines + [x], Flush(s).(open := Some(Hunk(Header(Trim(x)).value.0, Header(Trim(x)).value.1, []))),
                          at + [|lines|])
  {
    FlushIs(s);
    HeaderOpens(x);
    hide SectionsAre, Directive, Marker, NoneBad, Flush, Header, Trim, Opens;
    var h := Hunk(Header(Trim(x)).value.0, Header(Trim(x)).value.1, []);
    LineOpens(lines, Sections(s), h, at, x);
    assert Sections(Flush(s).(open := Some(h))) == Sections(s) + [h];
  }

  lemma {:induction false} LinesRead(lines: seq<string>) returns (at: seq<nat>)
    requires TakeLines(NothingRead(), lines).Parsing?
    ensures ReadsSections(lines, TakeLines(NothingRead(), lines), at)
  {
    if lines == [] {
      at := [];
    } else {
      var init, x := lines[..|lines| - 1], lines[|lines| - 1];
      assert lines == init + [x];
      hide *;
      TakeLinesSnoc(NothingRead(), init, x);
      at := LinesRead(init);
      at := NextLine(init, TakeLines(NothingRead(), init), at, x);
    }
  }

  // A text that parses is exactly its sections: each hunk is the lines from a heading to the next
  // directive or the end, outside the sections there are only blank lines and markers, and the
  // lines of new files are marked.
  lemma ParsedIsSections(lines: seq<string>) returns (at: seq<nat>)
    requires ParseLines(lines).Parses?
    ensures SectionsAre(lines, ParseLines(lines).hunks, at)
    ensures forall k :: 0 <= k < |ParseLines(lines).hunks| ==> NoneBad(ParseLines(lines).hunks[k])
  {
    var s := TakeLines(NothingRead(), lines);
    assert s.Parsing? && Flush(s).Parsing? && ParseLines(lines) == Parses(Flush(s).hunks) by {
      hide TakeLines, Flush;
    }
    at := LinesRead(lines);
    FlushIs(s);
    hide SectionsAre, NoneBad, Flush, ParseLines, TakeLines;
  }

  // ---- what is wrong with a text that does not parse ----

  // No section is open at line `i`.
  ghost predicate Outside(lines: seq<string>, i: nat)
    requires i <= |lines|
  {
    forall j, h :: 0 <= j < i && Opens(lines[j], h) ==> exists m :: j < m < i && Marker(lines[m])
  }

  // The error is about a line that is there: a directive that is no heading, a line outside every
  // section, or an unmarked line of a new file.
  ghost predicate Blames(lines: seq<string>, e: Error) {
    match e
    case UnknownDirective(text) =>
      exists i :: 0 <= i < |lines| && Trim(lines[i]) == text && Directive(lines[i]) && !Marker(lines[i])
                  && forall h :: !Opens(lines[i], h)
    case OutsideSection(text) =>
      exists i :: 0 <= i < |lines| && Trim(lines[i]) == text && !IsBlank(lines[i]) && !Directive(lines[i])
                  && Outside(lines, i)
    case BadAddLine(path, line) => exists j, i, h :: Unmarked(lines, j, i, h) && h.path == path && lines[i] == line
    case EmptyPath(_) => false
  }

  // Line `i` stands unmarked in the section of the new file `h`, which opens at line `j`.
  predicate Unmarked(lines: seq<string>, j: int, i: int, h: Hunk) {
    && 0 <= j < i < |lines| && Opens(lines[j], h) && NoDirective(lines[j + 1..i + 1]) && BadFor(h, lines[i])
  }

  lemma OpensNotBlank(line: string, h: Hunk)
    requires Opens(line, h)
    ensures !IsBlank(line)
  {
    hide Trim, Bracket;
  }

  // The section a line stands in.
  lemma Standing(lines: seq<string>, hunks: seq<Hunk>, at: seq<nat>, i: nat) returns (k: nat)
    requires SectionsAre(lines, hunks, at) && i < |lines| && !IsBlank(lines[i]) && !Marker(lines[i])
    ensures |at| == |hunks| && k < |hunks| && at[k] <= i < EndOf(hunks[k], at[k])
  {
    hide SectionAt, IsBlank, Marker;
    k :| 0 <= k < |hunks| && InSection(hunks, at, k, i);
  }

  lemma LastEndsLast(lines: seq<string>, hunks: seq<Hunk>, at: seq<nat>, k: nat)
    requires |at| == |hunks| && k < |hunks| && SectionsAre(lines, hunks, at)
    ensures EndOf(hunks[k], at[k]) <= EndOf(hunks[|hunks| - 1], at[|at| - 1])
  {
    hide *;
    if k < |hunks| - 1 {
      EndsInOrder(lines, hunks, at, k, |hunks| - 1);
      EndIsLater(hunks[|hunks| - 1], at[|hunks| - 1]);
    }
  }

  lemma EndIsLater(h: Hunk, s: nat)
    ensures EndOf(h, s) > s
  {
  }

  lemma HasSection(lines: seq<string>, hunks: seq<Hunk>, at: seq<nat>, k: nat)
    requires SectionsAre(lines, hunks, at) && k < |hunks|
    ensures |at| == |hunks| && SectionAt(lines, at[k], hunks[k])
  {
    hide SectionAt, IsBlank, Marker;
  }

  lemma SectionIs(lines: seq<string>, s: nat, h: Hunk)
    requires SectionAt(lines, s, h)
    ensures EndOf(h, s) <= |lines| && Opens(lines[s], h)
    ensures lines[s + 1..EndOf(h, s)] == h.lines && NoDirective(h.lines)
    ensures EndOf(h, s) == |lines| || Directive(lines[EndOf(h, s)])
  {
    hide Opens, Directive, NoDirective;
  }

  // After a closed section there is a marker.
  lemma ClosedIsOutside(lines: seq<string>, s: Parsing, at: seq<nat>)
    requires s.Parsing? && ReadsSections(lines, s, at) && s.open.None?
    ensures Outside(lines, |lines|)
  {
    var hunks := s.hunks;
    assert Sections(s) == hunks;
    hide IsBlank, Marker, Directive, NoneBad, SectionsAre, Opens;
    assert SectionsAre(lines, hunks, at) && ClosedNow(lines, hunks, at);
    forall j, h | 0 <= j < |lines| && Opens(lines[j], h) ensures exists m :: j < m < |lines| && Marker(lines[m]) {
      OpensNotBlank(lines[j], h);
      OpensNoMarker(lines[j], h);
      var k := Standing(lines, hunks, at, j);
      LastEndsLast(lines, hunks, at, k);
      MarkerAtEnd(lines, hunks, at, EndOf(hunks[|hunks| - 1], at[|at| - 1]));
    }
  }

  lemma OpensNoMarker(line: string, h: Hunk)
    requires Opens(line, h)
    ensures !Marker(line)
  {
  }

  lemma {:induction false} EndsInOrder(lines: seq<string>, hunks: seq<Hunk>, at: seq<nat>, k: nat, l: nat)
    requires SectionsAre(lines, hunks, at) && k < l < |hunks|
    ensures |at| == |hunks| && EndOf(hunks[k], at[k]) <= at[l]
    decreases l
  {
    hide SectionAt, IsBlank, Marker;
    if k < l - 1 { EndsInOrder(lines, hunks, at, k, l - 1); }
  }

  // The directive that ends the last section opens none, so it is a marker.
  lemma MarkerAtEnd(lines: seq<string>, hunks: seq<Hunk>, at: seq<nat>, m: nat)
    requires SectionsAre(lines, hunks, at) && |at| == |hunks| && hunks != []
    requires m == EndOf(hunks[|hunks| - 1], at[|at| - 1]) && m < |lines|
    ensures Marker(lines[m])
  {
    hide SectionsAre, IsBlank, Marker, Directive;
    HasSection(lines, hunks, at, |hunks| - 1);
    SectionIs(lines, at[|hunks| - 1], hunks[|hunks| - 1]);
    DirectiveNotBlank(lines[m]);
    if !Marker(lines[m]) {
      var k := Standing(lines, hunks, at, m);
      LastEndsLast(lines, hunks, at, k);
    }
  }

  lemma DirectiveNotBlank(line: string)
    ensures Directive(line) ==> !IsBlank(line)
  {
    hide Trim;
  }

  // The unmarked line that ends a parse is in the open section.
  lemma FlushBlames(lines: seq<string>, s: Parsing, at: seq<nat>, more: seq<string>)
    requires s.Parsing? && ReadsSections(lines, s, at) && Flush(s).Failed?
    ensures Blames(lines + more, Flush(s).error)
  {
    FlushIs(s);
    var h, hunks := s.open.value, Sections(s);
    assert hunks[|hunks| - 1] == h;
    assert SectionsAre(lines, hunks, at);
    var line :| line in h.lines && BadFor(h, line) && Flush(s).error == BadAddLine(h.path, line);
    hide *;
    LastBlames(lines, hunks, at, more, h, line);
  }

  lemma LastBlames(lines: seq<string>, hunks: seq<Hunk>, at: seq<nat>, more: seq<string>, h: Hunk, line: string)
    requires SectionsAre(lines, hunks, at) && hunks != [] && hunks[|hunks| - 1] == h
    requires line in h.lines && BadFor(h, line)
    ensures Blames(lines + more, BadAddLine(h.path, line))
  {
    var k :| 0 <= k < |h.lines| && h.lines[k] == line;
    HasSection(lines, hunks, at, |hunks| - 1);
    hide SectionsAre, SectionAt, Opens, NoDirective, BadFor, Unmarked;
    SectionIs(lines, at[|hunks| - 1], h);
    LineUnmarked(lines, more, at[|hunks| - 1], k, h);
  }

  lemma LineUnmarked(lines: seq<string>, more: seq<string>, j: nat, k: nat, h: Hunk)
    requires EndOf(h, j) <= |lines| && lines[j + 1..EndOf(h, j)] == h.lines && k < |h.lines|
    requires Opens(lines[j], h) && NoDirective(h.lines) && BadFor(h, h.lines[k])
    ensures Unmarked(lines + more, j, j + 1 + k, h) && (lines + more)[j + 1 + k] == h.lines[k]
  {
    hide Directive, Opens, BadFor;
    var all, i := lines + more, j + 1 + k;
    assert all[i] == lines[j + 1..EndOf(h, j)][k];
    assert all[j + 1..i + 1] == h.lines[..k + 1];
  }

  lemma NextFails(lines: seq<string>, s: Parsing, at: seq<nat>, x: string, more: seq<string>)
    requires s.Parsing? && ReadsSections(lines, s, at) && TakeLine(s, x).Failed?
    ensures Blames(lines + ([x] + more), TakeLine(s, x).error)
  {
    var all, i := lines + ([x] + more), |lines|;
    assert all[i] == x && all[..i] == lines;
    FailsAs(s, x);
    hide TakeLine, IsBlank, Directive, Marker, Flush, Opens, ReadsSections;
    if Flush(s).Failed? && TakeLine(s, x) == Flush(s) {
      FlushBlames(lines, s, at, [x] + more);
    } else if Directive(x) {
      assert TakeLine(s, x).error == UnknownDirective(Trim(x));
    } else {
      ClosedIsOutside(lines, s, at);
      OutsideStays(lines, all, i);
    }
  }

  lemma OutsideStays(lines: seq<string>, all: seq<string>, i: nat)
    requires i == |lines| <= |all| && all[..i] == lines && Outside(lines, i)
    ensures Outside(all, i)
  {
    hide Opens, Marker;
    forall j, h | 0 <= j < i && Opens(all[j], h) ensures exists m :: j < m < i && Marker(all[m]) {
      assert all[j] == lines[j];
      var m :| j < m < i && Marker(lines[m]);
      assert all[m] == lines[m];
    }
  }

  // How one line makes the parse fail.
  lemma FailsAs(s: Parsing, x: string)
    requires s.Parsing? && TakeLine(s, x).Failed?
    ensures || (Flush(s).Failed? && TakeLine(s, x) == Flush(s))
            || (Directive(x) && !Marker(x) && TakeLine(s, x).error == UnknownDirective(Trim(x)) && forall h :: !Opens(x, h))
            || (!IsBlank(x) && !Directive(x) && s.open.None? && TakeLine(s, x).error == OutsideSection(Trim(x)))
  {
    BracketIsDirective(Trim(x));
    if Directive(x) && !Marker(x) { HeaderOpens(x); }
    hide Trim, Bracket, Header, Flush, Opens;
  }

  lemma {:induction false} FailureIsBlamed(lines: seq<string>, more: seq<string>)
    requires TakeLines(NothingRead(), lines).Failed?
    ensures Blames(lines + more, TakeLines(NothingRead(), lines).error)
    decreases |lines|
  {
    if lines != [] {
      var init, x := lines[..|lines| - 1], lines[|lines| - 1];
      assert lines == init + [x];
      ConcatAssoc(init, [x], more);
      hide *;
      TakeLinesSnoc(NothingRead(), init, x);
      var s := TakeLines(NothingRead(), init);
      if s.Failed? {
        FailureIsBlamed(init, [x] + more);
      } else {
        var at := LinesRead(init);
        NextFails(init, s, at, x, more);
      }
    }
  }

  // A text that does not parse is refused for a line that is really wrong, and no heading is ever
  // refused for its path.
  lemma RefusedForALine(lines: seq<string>)
    requires ParseLines(lines).NotParsed?
    ensures Blames(lines, ParseLines(lines).error)
  {
    var s := TakeLines(NothingRead(), lines);
    assert lines + [] == lines;
    hide Blames, TakeLines, Flush, ReadsSections;
    if s.Failed? {
      FailureIsBlamed(lines, []);
    } else {
      var at := LinesRead(lines);
      FlushBlames(lines, s, at, []);
    }
  }

  // Trimming takes away the spaces, tabs, carriage returns and newlines at both ends, and only
  // those.
  lemma TrimIs(line: string) returns (i: nat, j: nat)
    ensures i <= j <= |line| && Trim(line) == line[i..j]
    ensures forall k :: 0 <= k < i || j <= k < |line| ==> line[k] in " \t\r\n"
    ensures i < j ==> line[i] !in " \t\r\n" && line[j - 1] !in " \t\r\n"
  {
    i := LeftIs(line);
    var n := RightIs(line[i..]);
    j := i + n;
    assert line[i..][..n] == line[i..j];
    forall k | j <= k < |line| ensures line[k] in " \t\r\n" { assert line[k] == line[i..][k - i]; }
    if i < j { assert line[j - 1] == line[i..][n - 1]; }
  }

  lemma SpaceIs(c: char)
    ensures IsSpace(c) <==> c in " \t\r\n"
  {
    var s := " \t\r\n";
    assert s[0] == ' ' && s[1] == '\t' && s[2] == '\r' && s[3] == '\n';
  }

  lemma {:induction false} LeftIs(s: string) returns (i: nat)
    ensures i <= |s| && TrimLeft(s) == s[i..] && (i < |s| ==> s[i] !in " \t\r\n")
    ensures forall k :: 0 <= k < i ==> s[k] in " \t\r\n"
    decreases |s|
  {
    i := 0;
    if s != "" {
      SpaceIs(s[0]);
      if IsSpace(s[0]) {
        var n := LeftIs(s[1..]);
        i := n + 1;
        assert s[1..][n..] == s[i..];
        forall k | 0 <= k < i ensures s[k] in " \t\r\n" { if k > 0 { assert s[k] == s[1..][k - 1]; } }
      }
    }
  }

  lemma {:induction false} RightIs(s: string) returns (n: nat)
    ensures n <= |s| && TrimRight(s) == s[..n] && (n > 0 ==> s[n - 1] !in " \t\r\n")
    ensures forall k :: n <= k < |s| ==> s[k] in " \t\r\n"
    decreases |s|
  {
    n := |s|;
    if s != "" {
      SpaceIs(s[|s| - 1]);
      if IsSpace(s[|s| - 1]) {
        var init := s[..|s| - 1];
        n := RightIs(init);
        assert init[..n] == s[..n];
        forall k | n <= k < |s| ensures s[k] in " \t\r\n" { if k < |init| { assert s[k] == init[k]; } }
      }
    }
  }
}
