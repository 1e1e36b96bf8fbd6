// src/tool/apply_patch.h: text as lines, and the hunks of an update section.
module Hunks {
  import opened Bytes

  const NL: char := '\n'
  const RETURN: char := '\r'

  // ---- split_lines and join ----

  function Chop(s: string): string { if s != "" && s[|s| - 1] == RETURN then s[..|s| - 1] else s }

  // The line still being read after `text`.
  function OpenLine(text: string): string {
    if text == "" then ""
    else if text[|text| - 1] == NL then ""
    else OpenLine(text[..|text| - 1]) + [text[|text| - 1]]
  }

  // The lines that `text` has ended, without their line ends.
  function EndedLines(text: string): seq<string> {
    if text == "" then []
    else
      var init := text[..|text| - 1];
      if text[|text| - 1] == NL then EndedLines(init) + [Chop(OpenLine(init))] else EndedLines(init)
  }

  function SplitLines(text: string): seq<string> {
    EndedLines(text) + if OpenLine(text) == "" then [] else [Chop(OpenLine(text))]
  }

  function Join(lines: seq<string>): string {
    if lines == [] then ""
    else if |lines| == 1 then lines[0]
    else Join(lines[..|lines| - 1]) + "\n" + lines[|lines| - 1]
  }

  method SplitText(text: string) returns (out: seq<string>)
    ensures out == SplitLines(text)
  {
    out := [];
    var cur := "";
    for i := 0 to |text|
      invariant out == EndedLines(text[..i]) && cur == OpenLine(text[..i])
    {
      assert text[..i + 1][..i] == text[..i];
      if text[i] == NL {
        if cur != "" && cur[|cur| - 1] == RETURN { cur := cur[..|cur| - 1]; }
        out := out + [cur];
        cur := "";
      } else {
        cur := cur + [text[i]];
      }
    }
    assert text[..|text|] == text;
    if cur != "" {
      if cur[|cur| - 1] == RETURN { cur := cur[..|cur| - 1]; }
      out := out + [cur];
    }
  }

  method JoinLines(lines: seq<string>) returns (s: string)
    ensures s == Join(lines)
  {
    s := "";
    for i := 0 to |lines|
      invariant s == Join(lines[..i])
    {
      assert lines[..i + 1][..i] == lines[..i];
      if i != 0 { s := s + "\n"; }
      s := s + lines[i];
    }
    assert lines[..|lines|] == lines;
  }

  predicate EndsInNewline(text: string) { text != "" && text[|text| - 1] == NL }

  // Splitting a file and joining it again, as an update without changes would.
  function Rejoined(text: string): string { Join(SplitLines(text)) + if EndsInNewline(text) then "\n" else "" }

  // No carriage return ends a line.
  predicate PlainEnds(text: string) {
    && (forall k :: 0 < k < |text| && text[k] == NL ==> text[k - 1] != RETURN)
    && (text != "" ==> text[|text| - 1] != RETURN)
  }

  // What the ended lines spell.
  function Text(lines: seq<string>): string {
    if lines == [] then "" else Text(lines[..|lines| - 1]) + lines[|lines| - 1] + "\n"
  }

  lemma {:induction false} TextIsJoin(lines: seq<string>)
    requires lines != []
    ensures Text(lines) == Join(lines) + "\n"
  {
    if |lines| == 1 {
      assert Text(lines[..0]) == "";
    } else {
      TextIsJoin(lines[..|lines| - 1]);
    }
  }

  lemma JoinSnoc(lines: seq<string>, line: string)
    ensures Join(lines + [line]) == Text(lines) + line
  {
    assert (lines + [line])[..|lines|] == lines;
    if lines != [] { TextIsJoin(lines); }
  }

  // Carriage returns aside, the ended lines and the open one spell the text; a carriage return
  // that was chopped makes it shorter.
  lemma {:induction false} LinesSpell(text: string)
    ensures |Text(EndedLines(text))| + |OpenLine(text)| <= |text|
    ensures NoChops(text) ==> Text(EndedLines(text)) + OpenLine(text) == text
    ensures !NoChops(text) ==> |Text(EndedLines(text))| + |OpenLine(text)| < |text|
  {
    if text != "" {
      var init, c := text[..|text| - 1], text[|text| - 1];
      LinesSpell(init);
      assert text == init + [c];
      NoChopsSnoc(init, c);
      OpenEndsLike(init);
      if c == NL {
        TextSnoc(EndedLines(init), Chop(OpenLine(init)));
      }
    }
  }

  predicate NoChops(text: string) { forall k :: 0 < k < |text| && text[k] == NL ==> text[k - 1] != RETURN }

  lemma NoChopsSnoc(init: string, c: char)
    ensures NoChops(init + [c]) <==> NoChops(init) && !(c == NL && init != "" && init[|init| - 1] == RETURN)
  {
    var text := init + [c];
    if NoChops(text) {
      assert forall k :: 0 <= k < |init| ==> text[k] == init[k];
      if c == NL && init != "" { assert text[|init|] == NL && text[|init| - 1] == init[|init| - 1]; }
    }
  }

  lemma TextSnoc(lines: seq<string>, line: string)
    ensures Text(lines + [line]) == Text(lines) + line + "\n"
  {
    assert (lines + [line])[..|lines|] == lines;
  }

  lemma OpenEndsLike(text: string)
    ensures OpenLine(text) == "" <==> text == "" || text[|text| - 1] == NL
    ensures OpenLine(text) != "" ==> OpenLine(text)[|OpenLine(text)| - 1] == text[|text| - 1]
  {
  }

  // An unchanged file survives the round trip exactly when no carriage return ends a line.
  lemma RejoinIff(text: string)
    ensures Rejoined(text) == text <==> PlainEnds(text)
  {
    LinesSpell(text);
    OpenEndsLike(text);
    var ended, open := EndedLines(text), OpenLine(text);
    hide EndedLines, OpenLine, NoChops, Text;
    if open == "" {
      RejoinEnded(text, ended);
    } else {
      JoinSnoc(ended, Chop(open));
      assert Rejoined(text) == Text(ended) + Chop(open);
    }
    PlainIs(text);
  }

  lemma PlainIs(text: string)
    ensures PlainEnds(text) <==> NoChops(text) && (text != "" ==> text[|text| - 1] != RETURN)
  {
  }

  lemma RejoinEnded(text: string, ended: seq<string>)
    requires ended == EndedLines(text) && OpenLine(text) == ""
    ensures Rejoined(text) == Text(ended)
  {
    assert SplitLines(text) == ended;
    if text == "" {
      assert Join([]) == "";
    } else {
      OpenEndsLike(text);
      assert ended != [];
      TextIsJoin(ended);
    }
  }

  predicate Clean(line: string) {
    (forall k :: 0 <= k < |line| ==> line[k] != NL) && (line != "" ==> line[|line| - 1] != RETURN)
  }

  predicate AllClean(lines: seq<string>) { forall i :: 0 <= i < |lines| ==> Clean(lines[i]) }

  predicate NoBreaks(lines: seq<string>) { forall i :: 0 <= i < |lines| ==> NL !in lines[i] }

  predicate NoReturns(lines: seq<string>) {
    forall i :: 0 <= i < |lines| ==> lines[i] != "" ==> lines[i][|lines[i]| - 1] != RETURN
  }

  lemma {:induction false} OpenGrows(text: string, line: string)
    requires forall k :: 0 <= k < |line| ==> line[k] != NL
    ensures OpenLine(text + line) == OpenLine(text) + line && EndedLines(text + line) == EndedLines(text)
  {
    if line == "" {
      assert text + line == text;
      assert OpenLine(text) + "" == OpenLine(text);
    } else {
      assert (text + line)[..|text + line| - 1] == text + line[..|line| - 1];
      OpenGrows(text, line[..|line| - 1]);
      ConcatAssoc(OpenLine(text), line[..|line| - 1], [line[|line| - 1]]);
      assert line == line[..|line| - 1] + [line[|line| - 1]];
    }
  }

  function Chopped(lines: seq<string>): (chopped: seq<string>)
    ensures |chopped| == |lines|
  {
    if lines == [] then [] else Chopped(lines[..|lines| - 1]) + [Chop(lines[|lines| - 1])]
  }

  lemma {:induction false} ChoppedIff(lines: seq<string>)
    ensures Chopped(lines) == lines <==> NoReturns(lines)
  {
    if lines != [] {
      var init, last := lines[..|lines| - 1], lines[|lines| - 1];
      ChoppedIff(init);
      assert lines == init + [last];
      NoReturnsSnoc(init, last);
      hide NoReturns;
    }
  }

  lemma NoReturnsSnoc(lines: seq<string>, line: string)
    ensures NoReturns(lines + [line]) <==> NoReturns(lines) && Chop(line) == line
  {
    var all := lines + [line];
    assert all[|lines|] == line;
    assert forall i :: 0 <= i < |lines| ==> all[i] == lines[i];
  }

  lemma {:induction false} ChoppedSplits(lines: seq<string>)
    requires NoBreaks(lines)
    ensures EndedLines(Text(lines)) == Chopped(lines) && OpenLine(Text(lines)) == ""
  {
    if lines != [] {
      var init, line := lines[..|lines| - 1], lines[|lines| - 1];
      assert NL !in line;
      ChoppedSplits(init);
      OpenGrows(Text(init), line);
      var t := Text(init) + line;
      assert "" + line == line;
      assert (t + "\n")[..|t|] == t && (t + "\n")[|t|] == NL;
    }
  }

  lemma TextSplits(lines: seq<string>)
    requires AllClean(lines)
    ensures EndedLines(Text(lines)) == lines && OpenLine(Text(lines)) == ""
  {
    CleanIs(lines);
    ChoppedIff(lines);
    ChoppedSplits(lines);
  }

  lemma CleanIs(lines: seq<string>)
    ensures AllClean(lines) <==> NoBreaks(lines) && NoReturns(lines)
  {
    if NoBreaks(lines) && NoReturns(lines) {
      forall i | 0 <= i < |lines| ensures Clean(lines[i]) {}
    }
  }

  // What is read back of lines written with or without a newline at the end.
  lemma WrittenHasLinesIff(lines: seq<string>, newline: bool)
    requires NoBreaks(lines)
    ensures SplitLines(Join(lines) + if newline then "\n" else "") == lines
            <==> NoReturns(lines) && (lines == [] ==> !newline) && (lines != [] && lines[|lines| - 1] == "" ==> newline)
  {
    hide *;
    ChoppedIff(lines);
    if lines == [] {
      JoinNothing();
      WrittenNothing();
    } else if newline {
      TextIsJoin(lines);
      ChoppedSplits(lines);
      SplitEnded(Text(lines));
    } else {
      OpenSplits(lines);
      assert Join(lines) + "" == Join(lines);
    }
  }

  lemma JoinNothing()
    ensures Join([]) == ""
  {
  }

  lemma WrittenNothing()
    ensures SplitLines("" + "") == [] && SplitLines("" + "\n") == [""] && NoReturns([])
  {
    assert "" + "" == "" && "" + "\n" == "\n";
    assert "\n"[..0] == "";
    assert EndedLines("\n") == [""];
  }

  lemma SplitEnded(text: string)
    requires OpenLine(text) == ""
    ensures SplitLines(text) == EndedLines(text)
  {
  }

  // Without a newline at the end, the last line is lost if it is empty.
  lemma OpenSplits(lines: seq<string>)
    requires NoBreaks(lines) && lines != []
    ensures var last := lines[|lines| - 1];
            SplitLines(Join(lines)) == if last == "" then Chopped(lines[..|lines| - 1]) else Chopped(lines)
  {
    var init, last := lines[..|lines| - 1], lines[|lines| - 1];
    hide *;
    LastLine(lines, init, last);
    JoinSnoc(init, last);
    ChoppedSplits(init);
    OpenGrows(Text(init), last);
    assert "" + last == last;
    SplitIs(Join(lines), Chopped(init), last);
  }

  lemma LastLine(lines: seq<string>, init: seq<string>, last: string)
    requires NoBreaks(lines) && lines != [] && init == lines[..|lines| - 1] && last == lines[|lines| - 1]
    ensures lines == init + [last] && NoBreaks(init) && (forall k :: 0 <= k < |last| ==> last[k] != NL)
    ensures Chopped(lines) == Chopped(init) + [Chop(last)]
  {
    assert NL !in last;
    hide Chop;
  }

  lemma SplitIs(text: string, ended: seq<string>, open: string)
    requires EndedLines(text) == ended && OpenLine(text) == open
    ensures SplitLines(text) == if open == "" then ended else ended + [Chop(open)]
  {
  }

  // Lines without line ends in them are recovered from the joined text, if the last is not empty.
  lemma SplitJoined(lines: seq<string>)
    requires AllClean(lines) && lines != [] && lines[|lines| - 1] != ""
    ensures SplitLines(Join(lines)) == lines
  {
    hide *;
    CleanIs(lines);
    WrittenHasLinesIff(lines, false);
    assert Join(lines) + "" == Join(lines);
  }

  // ---- update groups ----

  datatype Mark = Context | Minus | Plus

  datatype Line = Line(mark: Mark, text: string)

  type Group = seq<Line>

  function OldBlock(g: Group): seq<string> {
    if g == [] then []
    else OldBlock(g[..|g| - 1]) + if g[|g| - 1].mark.Plus? then [] else [g[|g| - 1].text]
  }

  function NewBlock(g: Group): seq<string> {
    if g == [] then []
    else NewBlock(g[..|g| - 1]) + if g[|g| - 1].mark.Minus? then [] else [g[|g| - 1].text]
  }

  predicate MatchesAt(lines: seq<string>, block: seq<string>, i: nat) {
    i + |block| <= |lines| && lines[i..i + |block|] == block
  }

  // The match positions below `n`.
  function MatchesBelow(lines: seq<string>, block: seq<string>, n: nat): seq<nat> {
    if n == 0 then [] else MatchesBelow(lines, block, n - 1) + if MatchesAt(lines, block, n - 1) then [n - 1] else []
  }

  function Occurrences(lines: seq<string>, block: seq<string>): seq<nat> { MatchesBelow(lines, block, |lines| + 1) }

  predicate Increasing(s: seq<nat>) { forall i, j :: 0 <= i < j < |s| ==> s[i] < s[j] }

  lemma {:induction false} MatchesBelowAre(lines: seq<string>, block: seq<string>, n: nat, i: nat)
    ensures i in MatchesBelow(lines, block, n) <==> i < n && MatchesAt(lines, block, i)
  {
    if n > 0 { MatchesBelowAre(lines, block, n - 1, i); }
  }

  lemma {:induction false} MatchesIncrease(lines: seq<string>, block: seq<string>, n: nat)
    ensures Increasing(MatchesBelow(lines, block, n))
  {
    if n > 0 {
      MatchesIncrease(lines, block, n - 1);
      var below := MatchesBelow(lines, block, n - 1);
      forall j | 0 <= j < |below| ensures below[j] < n - 1 {
        assert below[j] in below;
        MatchesBelowAre(lines, block, n - 1, below[j]);
      }
      hide MatchesAt;
    }
  }

  // Every match position, overlapping ones included, once, in order.
  lemma OccurrencesAreAll(lines: seq<string>, block: seq<string>)
    ensures Increasing(Occurrences(lines, block))
    ensures forall i: nat :: i in Occurrences(lines, block) <==> MatchesAt(lines, block, i)
  {
    MatchesIncrease(lines, block, |lines| + 1);
    forall i: nat ensures i in Occurrences(lines, block) <==> MatchesAt(lines, block, i) {
      MatchesBelowAre(lines, block, |lines| + 1, i);
    }
  }

  method FindOccurrences(lines: seq<string>, block: seq<string>) returns (occ: seq<nat>)
    ensures occ == Occurrences(lines, block)
  {
    occ := [];
    if |block| > |lines| {
      NoLateMatches(lines, block, 0, |lines| + 1);
      return;
    }
    var i := 0;
    while i + |block| <= |lines|
      invariant i <= |lines| - |block| + 1
      invariant occ == MatchesBelow(lines, block, i)
    {
      var j := 0;
      while j < |block| && lines[i + j] == block[j]
        invariant j <= |block| && lines[i..i + j] == block[..j]
      {
        j := j + 1;
      }
      assert block[..|block|] == block;
      assert j < |block| ==> lines[i..i + |block|][j] != block[j];
      if j == |block| { occ := occ + [i]; }
      i := i + 1;
    }
    NoLateMatches(lines, block, i, |lines| + 1);
  }

  lemma {:induction false} NoLateMatches(lines: seq<string>, block: seq<string>, i: nat, n: nat)
    requires i <= n && i + |block| > |lines|
    ensures MatchesBelow(lines, block, n) == MatchesBelow(lines, block, i)
  {
    if i < n { NoLateMatches(lines, block, i, n - 1); }
  }

  datatype Reason =
    | Malformed(raw: string)
    | EmptyUpdate
    | NothingToMatch
    | NoMatch
    | ManyMatches
    | Exists
    | NotFound

  datatype Outcome<+T> = Fine(value: T) | Bad(reason: Reason)

  function Splice(lines: seq<string>, at: nat, length: nat, block: seq<string>): seq<string>
    requires at + length <= |lines|
  {
    lines[..at] + block + lines[at + length..]
  }

  function ApplyGroup(cur: seq<string>, g: Group): Outcome<seq<string>> {
    var old_, new_ := OldBlock(g), NewBlock(g);
    var occ := Occurrences(cur, old_);
    if old_ == [] then Bad(NothingToMatch)
    else if occ == [] then Bad(NoMatch)
    else if |occ| > 1 then Bad(ManyMatches)
    else
      OccurrencesAreAll(cur, old_);
      assert occ[0] in occ;
      Fine(Splice(cur, occ[0], |old_|, new_))
  }

  function ApplyGroups(cur: seq<string>, groups: seq<Group>): Outcome<seq<string>> {
    if groups == [] then Fine(cur)
    else
      var r := ApplyGroups(cur, groups[..|groups| - 1]);
      if r.Bad? then r else ApplyGroup(r.value, groups[|groups| - 1])
  }

  // A raw line of an update section: a separator, a marked line, or nonsense.
  datatype Raw = Separator | Marked(line: Line) | Nonsense

  function ReadRaw(raw: string): Raw {
    if raw == "@@" then Separator
    else if raw == "" then Marked(Line(Context, ""))
    else if raw[0] == ' ' then Marked(Line(Context, raw[1..]))
    else if raw[0] == '-' then Marked(Line(Minus, raw[1..]))
    else if raw[0] == '+' then Marked(Line(Plus, raw[1..]))
    else Nonsense
  }

  // The groups ended by a separator and the one still open, None after a malformed line.
  datatype Grouping = Grouping(groups: seq<Group>, group: Group)

  function Close(g: Grouping): seq<Group> { g.groups + if g.group == [] then [] else [g.group] }

  function GroupLines(raw: seq<string>): Outcome<Grouping> {
    if raw == [] then Fine(Grouping([], []))
    else
      var before := GroupLines(raw[..|raw| - 1]);
      if before.Bad? then before
      else match ReadRaw(raw[|raw| - 1])
        case Separator => Fine(Grouping(Close(before.value), []))
        case Marked(line) => Fine(before.value.(group := before.value.group + [line]))
        case Nonsense => Bad(Malformed(raw[|raw| - 1]))
  }

  function UpdateGroups(raw: seq<string>): Outcome<seq<Group>> {
    var g := GroupLines(raw);
    if g.Bad? then Bad(g.reason)
    else if Close(g.value) == [] then Bad(EmptyUpdate)
    else Fine(Close(g.value))
  }

  function Updated(content: string, raw: seq<string>): Outcome<string> {
    var groups := UpdateGroups(raw);
    if groups.Bad? then Bad(groups.reason)
    else
      var r := ApplyGroups(SplitLines(content), groups.value);
      if r.Bad? then Bad(r.reason) else Fine(Join(r.value) + if EndsInNewline(content) then "\n" else "")
  }

  method ReadGroups(raw: seq<string>) returns (r: Outcome<seq<Group>>)
    ensures r == UpdateGroups(raw)
  {
    var groups: seq<Group>, group: Group := [], [];
    var bad := false;
    var i := 0;
    while i < |raw| && !bad
      invariant i <= |raw|
      invariant !bad ==> GroupLines(raw[..i]) == Fine(Grouping(groups, group))
      invariant bad ==> i < |raw| && GroupLines(raw[..i + 1]) == Bad(Malformed(raw[i]))
      decreases |raw| - i, !bad
    {
      assert raw[..i + 1][..i] == raw[..i];
      assert groups + [] == groups;
      match ReadRaw(raw[i])
      case Separator =>
        if group != [] {
          groups := groups + [group];
          group := [];
        }
        i := i + 1;
      case Marked(line) =>
        group := group + [line];
        i := i + 1;
      case Nonsense => bad := true;
    }
    if bad {
      BadStays(raw, i + 1);
      return Bad(Malformed(raw[i]));
    }
    assert raw[..|raw|] == raw;
    assert groups + [] == groups;
    if group != [] { groups := groups + [group]; }
    r := if groups == [] then Bad(EmptyUpdate) else Fine(groups);
  }

  lemma {:induction false} BadStays(raw: seq<string>, n: nat)
    requires n <= |raw| && GroupLines(raw[..n]).Bad?
    ensures GroupLines(raw) == GroupLines(raw[..n])
  {
    if n < |raw| {
      assert raw[..|raw| - 1][..n] == raw[..n];
      BadStays(raw[..|raw| - 1], n);
    } else {
      assert raw[..n] == raw;
    }
  }

  // ---- groups in print ----

  function PrintedLine(line: Line): string {
    (match line.mark
     case Context => " "
     case Minus => "-"
     case Plus => "+") + line.text
  }

  function PrintedGroup(g: Group): seq<string> {
    if g == [] then [] else PrintedGroup(g[..|g| - 1]) + [PrintedLine(g[|g| - 1])]
  }

  function PrintedGroups(groups: seq<Group>): seq<string> {
    if groups == [] then []
    else PrintedGroups(groups[..|groups| - 1]) + (["@@"] + PrintedGroup(groups[|groups| - 1]))
  }

  function NonEmptyGroups(groups: seq<Group>): seq<Group> {
    if groups == [] then []
    else NonEmptyGroups(groups[..|groups| - 1]) + if groups[|groups| - 1] == [] then [] else [groups[|groups| - 1]]
  }

  lemma GroupLinesSnoc(raw: seq<string>, line: string)
    requires GroupLines(raw).Fine?
    ensures GroupLines(raw + [line])
            == match ReadRaw(line)
               case Separator => Fine(Grouping(Close(GroupLines(raw).value), []))
               case Marked(l) => Fine(GroupLines(raw).value.(group := GroupLines(raw).value.group + [l]))
               case Nonsense => Bad(Malformed(line))
  {
    assert (raw + [line])[..|raw|] == raw && (raw + [line])[|raw|] == line;
    hide ReadRaw;
  }

  lemma PrintedLineReads(line: Line)
    ensures ReadRaw(PrintedLine(line)) == Marked(line)
  {
    var s := PrintedLine(line);
    assert s[0] != "@@"[0] && s[1..] == line.text;
    assert line == Line(line.mark, line.text);
  }

  lemma {:induction false} PrintedGroupReads(raw: seq<string>, g: Group)
    requires GroupLines(raw).Fine?
    ensures GroupLines(raw + PrintedGroup(g)) == Fine(GroupLines(raw).value.(group := GroupLines(raw).value.group + g))
  {
    hide GroupLines;
    if g == [] {
      assert raw + [] == raw && GroupLines(raw).value.group + [] == GroupLines(raw).value.group;
    } else {
      var init, last := g[..|g| - 1], g[|g| - 1];
      PrintedGroupReads(raw, init);
      PrintedLineReads(last);
      ConcatAssoc(raw, PrintedGroup(init), [PrintedLine(last)]);
      hide ReadRaw, PrintedLine;
      GroupLinesSnoc(raw + PrintedGroup(init), PrintedLine(last));
      ConcatAssoc(GroupLines(raw).value.group, init, [last]);
      assert g == init + [last];
    }
  }

  lemma {:induction false} PrintedGroupsRead(groups: seq<Group>)
    ensures GroupLines(PrintedGroups(groups)).Fine?
    ensures Close(GroupLines(PrintedGroups(groups)).value) == NonEmptyGroups(groups)
  {
    if groups == [] {
      assert GroupLines([]) == Fine(Grouping([], []));
    } else {
      var init, g := groups[..|groups| - 1], groups[|groups| - 1];
      var before := PrintedGroups(init);
      PrintedGroupsRead(init);
      GroupLinesSnoc(before, "@@");
      ConcatAssoc(before, ["@@"], PrintedGroup(g));
      PrintedGroupReads(before + ["@@"], g);
      assert [] + g == g;
      hide GroupLines, PrintedGroup;
    }
  }

  lemma {:induction false} NonEmptyCount(groups: seq<Group>)
    ensures |NonEmptyGroups(groups)| <= |groups|
    ensures NonEmptyGroups(groups) == groups <==> forall i :: 0 <= i < |groups| ==> groups[i] != []
  {
    if groups != [] {
      var init, g := groups[..|groups| - 1], groups[|groups| - 1];
      NonEmptyCount(init);
      assert groups == init + [g];
      if NonEmptyGroups(groups) == groups {
        assert NonEmptyGroups(init) == init;
      }
    }
  }

  // Groups printed with a separator before each read back exactly when there are some and none
  // is empty.
  lemma PrintedGroupsReadIff(groups: seq<Group>)
    ensures UpdateGroups(PrintedGroups(groups)) == Fine(groups)
            <==> groups != [] && forall i :: 0 <= i < |groups| ==> groups[i] != []
  {
    PrintedGroupsRead(groups);
    NonEmptyCount(groups);
    hide GroupLines, PrintedGroups, Close;
    assert groups == [] ==> NonEmptyGroups(groups) == [];
    hide NonEmptyGroups;
  }

  method Blocks(g: Group) returns (old_: seq<string>, new_: seq<string>)
    ensures old_ == OldBlock(g) && new_ == NewBlock(g)
  {
    old_, new_ := [], [];
    for i := 0 to |g|
      invariant old_ == OldBlock(g[..i]) && new_ == NewBlock(g[..i])
    {
      assert g[..i + 1][..i] == g[..i];
      if !g[i].mark.Plus? { old_ := old_ + [g[i].text]; }
      if !g[i].mark.Minus? { new_ := new_ + [g[i].text]; }
    }
    assert g[..|g|] == g;
  }

  // One round of the loop of apply_updates.
  method ReplaceGroup(cur: seq<string>, g: Group) returns (r: Outcome<seq<string>>)
    ensures r == ApplyGroup(cur, g)
  {
    hide MatchesBelow, OldBlock, NewBlock;
    var old_, new_ := Blocks(g);
    if old_ == [] { return Bad(NothingToMatch); }
    var occ := FindOccurrences(cur, old_);
    if occ == [] { return Bad(NoMatch); }
    if |occ| > 1 { return Bad(ManyMatches); }
    OccurrencesAreAll(cur, old_);
    assert occ[0] in occ;
    return Fine(cur[..occ[0]] + new_ + cur[occ[0] + |old_|..]);
  }

  // Its loop over the groups.
  method ReplaceGroups(start: seq<string>, gs: seq<Group>) returns (r: Outcome<seq<string>>)
    ensures r == ApplyGroups(start, gs)
  {
    var cur := start;
    hide ApplyGroup;
    for k := 0 to |gs|
      invariant ApplyGroups(start, gs[..k]) == Fine(cur)
    {
      assert gs[..k + 1][..k] == gs[..k];
      var next := ReplaceGroup(cur, gs[k]);
      if next.Bad? {
        StuckStays(start, gs, k + 1);
        return Bad(next.reason);
      }
      cur := next.value;
    }
    assert gs[..|gs|] == gs;
    return Fine(cur);
  }

  // apply_updates
  method ApplyUpdates(content: string, raw: seq<string>) returns (r: Outcome<string>)
    ensures r == Updated(content, raw)
  {
    hide SplitLines, UpdateGroups, Join, ApplyGroups;
    var groups := ReadGroups(raw);
    if groups.Bad? { return Bad(groups.reason); }
    var cur := SplitText(content);
    var next := ReplaceGroups(cur, groups.value);
    if next.Bad? { return Bad(next.reason); }
    var text := JoinLines(next.value);
    r := Fine(text + if content != "" && content[|content| - 1] == NL then "\n" else "");
  }

  lemma {:induction false} StuckStays(cur: seq<string>, groups: seq<Group>, n: nat)
    requires n <= |groups| && ApplyGroups(cur, groups[..n]).Bad?
    ensures ApplyGroups(cur, groups) == ApplyGroups(cur, groups[..n])
  {
    if n < |groups| {
      assert groups[..|groups| - 1][..n] == groups[..n];
      StuckStays(cur, groups[..|groups| - 1], n);
    } else {
      assert groups[..n] == groups;
    }
  }

  // ---- what an update does ----

  // A group succeeds exactly when its old block is there in one place only, and then that place
  // holds the new block.
  lemma GroupReplacesUniqueMatch(cur: seq<string>, g: Group, next: seq<string>)
    ensures ApplyGroup(cur, g) == Fine(next)
            <==> OldBlock(g) != []
                 && exists k: nat :: UniqueMatch(cur, OldBlock(g), k)
                                     && next == Splice(cur, k, |OldBlock(g)|, NewBlock(g))
  {
    var old_ := OldBlock(g);
    var occ := Occurrences(cur, old_);
    OccurrencesAreAll(cur, old_);
    hide Occurrences, OldBlock, NewBlock;
    if ApplyGroup(cur, g).Fine? {
      assert occ[0] in occ;
      forall i: nat | MatchesAt(cur, old_, i) ensures i == occ[0] { assert i in occ; }
      assert UniqueMatch(cur, old_, occ[0]);
    }
    if k: nat :| UniqueMatch(cur, old_, k) {
      assert k in occ;
      OneOccurrence(cur, old_, occ, k);
    }
  }

  // Why a group fails: it has nothing to look for, which is nowhere, or in several places.
  lemma GroupFailsBecause(cur: seq<string>, g: Group)
    ensures ApplyGroup(cur, g) == Bad(NothingToMatch) <==> OldBlock(g) == []
    ensures ApplyGroup(cur, g) == Bad(NoMatch) <==> OldBlock(g) != [] && forall k: nat :: !MatchesAt(cur, OldBlock(g), k)
    ensures ApplyGroup(cur, g) == Bad(ManyMatches)
            <==> OldBlock(g) != [] && exists j: nat, k: nat :: j < k && MatchesAt(cur, OldBlock(g), j) && MatchesAt(cur, OldBlock(g), k)
  {
    var occ := Occurrences(cur, OldBlock(g));
    OccurrencesAreAll(cur, OldBlock(g));
    hide OldBlock, NewBlock, Occurrences, MatchesAt;
    if occ != [] { assert occ[0] in occ && MatchesAt(cur, OldBlock(g), occ[0]); }
    if |occ| > 1 { assert occ[1] in occ && MatchesAt(cur, OldBlock(g), occ[1]) && occ[0] < occ[1]; }
    forall j: nat, k: nat | j < k && MatchesAt(cur, OldBlock(g), j) && MatchesAt(cur, OldBlock(g), k) ensures |occ| > 1 {
      assert j in occ && k in occ;
    }
  }

  ghost predicate UniqueMatch(cur: seq<string>, block: seq<string>, k: nat) {
    MatchesAt(cur, block, k) && forall i: nat :: MatchesAt(cur, block, i) ==> i == k
  }

  lemma OneOccurrence(cur: seq<string>, block: seq<string>, occ: seq<nat>, k: nat)
    requires UniqueMatch(cur, block, k) && Increasing(occ)
    requires forall i: nat :: i in occ <==> MatchesAt(cur, block, i)
    ensures occ == [k]
  {
    assert k in occ;
    forall i | 0 <= i < |occ| ensures occ[i] == k { assert occ[i] in occ; }
    assert occ[0] == k == occ[|occ| - 1];
  }

  // ---- conservation ----

  // The texts of the lines of a group that carry `mark`.
  function Texts(g: Group, mark: Mark): seq<string> {
    if g == [] then []
    else Texts(g[..|g| - 1], mark) + if g[|g| - 1].mark == mark then [g[|g| - 1].text] else []
  }

  function AllTexts(groups: seq<Group>, mark: Mark): seq<string> {
    if groups == [] then [] else AllTexts(groups[..|groups| - 1], mark) + Texts(groups[|groups| - 1], mark)
  }

  lemma {:induction false} BlocksBalance(g: Group)
    ensures multiset(OldBlock(g)) + multiset(Texts(g, Plus)) == multiset(NewBlock(g)) + multiset(Texts(g, Minus))
  {
    if g != [] {
      var init, last := g[..|g| - 1], g[|g| - 1];
      BlocksBalance(init);
      var x := [last.text];
      assert OldBlock(g) == OldBlock(init) + if last.mark.Plus? then [] else x;
      assert NewBlock(g) == NewBlock(init) + if last.mark.Minus? then [] else x;
      assert Texts(g, Plus) == Texts(init, Plus) + if last.mark.Plus? then x else [];
      assert Texts(g, Minus) == Texts(init, Minus) + if last.mark.Minus? then x else [];
      hide OldBlock, NewBlock, Texts;
      MoreBalance(OldBlock(init), NewBlock(init), Texts(init, Plus), Texts(init, Minus), last.mark, x);
    }
  }

  lemma MoreBalance(o: seq<string>, n: seq<string>, p: seq<string>, m: seq<string>, mark: Mark, x: seq<string>)
    requires multiset(o) + multiset(p) == multiset(n) + multiset(m)
    ensures multiset(o + if mark.Plus? then [] else x) + multiset(p + if mark.Plus? then x else [])
            == multiset(n + if mark.Minus? then [] else x) + multiset(m + if mark.Minus? then x else [])
  {
    var nothing: seq<string> := [];
    assert o + nothing == o && p + nothing == p && n + nothing == n && m + nothing == m;
    assert multiset(o + x) == multiset(o) + multiset(x) && multiset(p + x) == multiset(p) + multiset(x);
    assert multiset(n + x) == multiset(n) + multiset(x) && multiset(m + x) == multiset(m) + multiset(x);
    AddToBoth(multiset(o), multiset(p), multiset(n), multiset(m), multiset(x));
  }

  lemma AddToBoth<T>(o: multiset<T>, p: multiset<T>, n: multiset<T>, m: multiset<T>, x: multiset<T>)
    requires o + p == n + m
    ensures o + (p + x) == (n + x) + m && (o + x) + p == n + (m + x) && (o + x) + p == (n + x) + m
  {
    assert (o + p) + x == (n + m) + x;
    assert o + (p + x) == (o + p) + x && (o + x) + p == (o + p) + x;
    assert (n + x) + m == (n + m) + x && n + (m + x) == (n + m) + x;
  }

  lemma SpliceBalances(lines: seq<string>, at: nat, old_: seq<string>, new_: seq<string>)
    requires MatchesAt(lines, old_, at)
    ensures multiset(lines) + multiset(new_) == multiset(Splice(lines, at, |old_|, new_)) + multiset(old_)
  {
    assert lines == lines[..at] + old_ + lines[at + |old_|..];
  }

  // The lines before and the lines added are the lines after and the lines removed.
  lemma {:induction false} UpdatesConserveLines(cur: seq<string>, groups: seq<Group>, out: seq<string>)
    requires ApplyGroups(cur, groups) == Fine(out)
    ensures multiset(cur) + multiset(AllTexts(groups, Plus)) == multiset(out) + multiset(AllTexts(groups, Minus))
  {
    if groups != [] {
      var init, g := groups[..|groups| - 1], groups[|groups| - 1];
      var mid := ApplyGroups(cur, init).value;
      UpdatesConserveLines(cur, init, mid);
      hide ApplyGroups, Occurrences, OldBlock, NewBlock, Texts;
      GroupConserves(mid, g, out);
      var a, b, c, d := AllTexts(init, Plus), AllTexts(init, Minus), Texts(g, Plus), Texts(g, Minus);
      assert AllTexts(groups, Plus) == a + c && AllTexts(groups, Minus) == b + d;
      hide AllTexts;
      AddBalances(cur, mid, out, a, b, c, d);
    }
  }

  lemma AddBalances(cur: seq<string>, mid: seq<string>, out: seq<string>,
                    a: seq<string>, b: seq<string>, c: seq<string>, d: seq<string>)
    requires multiset(cur) + multiset(a) == multiset(mid) + multiset(b)
    requires multiset(mid) + multiset(c) == multiset(out) + multiset(d)
    ensures multiset(cur) + multiset(a + c) == multiset(out) + multiset(b + d)
  {
    calc {
      multiset(cur) + multiset(a + c);
      (multiset(cur) + multiset(a)) + multiset(c);
      (multiset(mid) + multiset(c)) + multiset(b);
      multiset(out) + multiset(b + d);
    }
  }

  lemma GroupConserves(cur: seq<string>, g: Group, next: seq<string>)
    requires ApplyGroup(cur, g) == Fine(next)
    ensures multiset(cur) + multiset(Texts(g, Plus)) == multiset(next) + multiset(Texts(g, Minus))
  {
    GroupReplacesUniqueMatch(cur, g, next);
    hide ApplyGroup, OldBlock, NewBlock, Texts;
    var k: nat :| UniqueMatch(cur, OldBlock(g), k) && next == Splice(cur, k, |OldBlock(g)|, NewBlock(g));
    SpliceBalances(cur, k, OldBlock(g), NewBlock(g));
    BlocksBalance(g);
    hide Splice, MatchesAt, UniqueMatch;
    Balance(multiset(cur), multiset(next), multiset(OldBlock(g)), multiset(NewBlock(g)),
            multiset(Texts(g, Plus)), multiset(Texts(g, Minus)));
  }

  lemma Balance<T>(a: multiset<T>, b: multiset<T>, o: multiset<T>, n: multiset<T>, p: multiset<T>, m: multiset<T>)
    requires a + n == b + o && o + p == n + m
    ensures a + p == b + m
  {
    assert forall x :: a[x] + n[x] == (a + n)[x] && b[x] + o[x] == (b + o)[x];
    assert forall x :: o[x] + p[x] == (o + p)[x] && n[x] + m[x] == (n + m)[x];
  }

  // ---- inversion ----

  function Swap(m: Mark): Mark {
    match m
    case Context => Context
    case Minus => Plus
    case Plus => Minus
  }

  function Inverse(g: Group): Group {
    if g == [] then [] else Inverse(g[..|g| - 1]) + [Line(Swap(g[|g| - 1].mark), g[|g| - 1].text)]
  }

  // The inverse groups, in reverse order.
  function InverseAll(groups: seq<Group>): seq<Group> {
    if groups == [] then [] else [Inverse(groups[|groups| - 1])] + InverseAll(groups[..|groups| - 1])
  }

  lemma {:induction false} InverseSwapsBlocks(g: Group)
    ensures OldBlock(Inverse(g)) == NewBlock(g) && NewBlock(Inverse(g)) == OldBlock(g)
  {
    if g != [] {
      InverseSwapsBlocks(g[..|g| - 1]);
      assert Inverse(g)[..|Inverse(g)| - 1] == Inverse(g[..|g| - 1]);
    }
  }

  // Undoing a group: its new block must be there in one place only.
  lemma InvertGroup(cur: seq<string>, g: Group, next: seq<string>)
    requires ApplyGroup(cur, g) == Fine(next)
    ensures ApplyGroup(next, Inverse(g)) == Fine(cur) <==> Undoable(g, next)
    ensures ApplyGroup(next, Inverse(g)).Fine? ==> Undoable(g, next)
  {
    GroupReplacesUniqueMatch(cur, g, next);
    InverseSwapsBlocks(g);
    hide OldBlock, NewBlock, MatchesBelow, Inverse;
    var old_, new_ := OldBlock(g), NewBlock(g);
    var k: nat :| UniqueMatch(cur, old_, k) && next == Splice(cur, k, |old_|, new_);
    SpliceBack(cur, k, old_, new_);
    OccurrencesAreAll(next, new_);
    assert k in Occurrences(next, new_);
  }

  predicate Undoable(g: Group, next: seq<string>) { NewBlock(g) != [] && |Occurrences(next, NewBlock(g))| == 1 }

  lemma SpliceBack(lines: seq<string>, at: nat, old_: seq<string>, new_: seq<string>)
    requires MatchesAt(lines, old_, at)
    ensures MatchesAt(Splice(lines, at, |old_|, new_), new_, at)
    ensures Splice(Splice(lines, at, |old_|, new_), at, |new_|, old_) == lines
  {
    var next := Splice(lines, at, |old_|, new_);
    assert next[..at] == lines[..at] && next[at..at + |new_|] == new_ && next[at + |new_|..] == lines[at + |old_|..];
    assert lines == lines[..at] + old_ + lines[at + |old_|..];
  }

  // After each group, its new block is non-empty and in one place only.
  predicate Reversible(cur: seq<string>, groups: seq<Group>) {
    groups == []
    || (var init := groups[..|groups| - 1];
        var out := ApplyGroups(cur, groups);
        Reversible(cur, init) && out.Fine? && Undoable(groups[|groups| - 1], out.value))
  }

  lemma {:induction false} ApplyGroupsCons(cur: seq<string>, g: Group, rest: seq<Group>)
    ensures ApplyGroups(cur, [g] + rest)
            == if ApplyGroup(cur, g).Bad? then ApplyGroup(cur, g) else ApplyGroups(ApplyGroup(cur, g).value, rest)
  {
    hide ApplyGroup;
    if rest == [] {
      assert [g] + rest == [g];
      assert [g][..0] == [];
    } else {
      assert ([g] + rest)[..|rest|] == [g] + rest[..|rest| - 1];
      ApplyGroupsCons(cur, g, rest[..|rest| - 1]);
    }
  }

  // Swapping '+' and '-' and reversing the groups takes an update back exactly when every new
  // block was non-empty and unique where it was put.
  lemma {:induction false} InverseUndoesIff(cur: seq<string>, groups: seq<Group>, out: seq<string>)
    requires ApplyGroups(cur, groups) == Fine(out)
    ensures ApplyGroups(out, InverseAll(groups)) == Fine(cur) <==> Reversible(cur, groups)
  {
    hide ApplyGroup, Inverse, Undoable;
    if groups != [] {
      var init, g := groups[..|groups| - 1], groups[|groups| - 1];
      var mid := ApplyGroups(cur, init).value;
      InverseUndoesIff(cur, init, mid);
      InvertGroup(mid, g, out);
      ApplyGroupsCons(out, Inverse(g), InverseAll(init));
    }
  }

  // ---- what an update leaves of the file ----

  lemma {:induction false} SplitHasNoBreaks(text: string)
    ensures NoBreaks(EndedLines(text)) && NL !in OpenLine(text) && NoBreaks(SplitLines(text))
  {
    if text != "" { SplitHasNoBreaks(text[..|text| - 1]); }
  }

  predicate GroupUnbroken(g: Group) { forall i :: 0 <= i < |g| ==> NL !in g[i].text }

  predicate GroupsUnbroken(groups: seq<Group>) { forall i :: 0 <= i < |groups| ==> GroupUnbroken(groups[i]) }

  lemma {:induction false} GroupsHaveNoBreaks(raw: seq<string>)
    requires NoBreaks(raw) && GroupLines(raw).Fine?
    ensures GroupsUnbroken(GroupLines(raw).value.groups) && GroupUnbroken(GroupLines(raw).value.group)
    ensures GroupsUnbroken(Close(GroupLines(raw).value))
  {
    if raw != [] {
      var line := raw[|raw| - 1];
      GroupsHaveNoBreaks(raw[..|raw| - 1]);
      assert NL !in line;
    }
  }

  lemma {:induction false} BlockHasNoBreaks(g: Group)
    requires GroupUnbroken(g)
    ensures NoBreaks(NewBlock(g))
  {
    if g != [] { BlockHasNoBreaks(g[..|g| - 1]); }
  }

  lemma {:induction false} EditHasNoBreaks(cur: seq<string>, groups: seq<Group>)
    requires NoBreaks(cur) && GroupsUnbroken(groups) && ApplyGroups(cur, groups).Fine?
    ensures NoBreaks(ApplyGroups(cur, groups).value)
  {
    if groups != [] {
      var init, g := groups[..|groups| - 1], groups[|groups| - 1];
      EditHasNoBreaks(cur, init);
      assert GroupUnbroken(g);
      BlockHasNoBreaks(g);
      var mid := ApplyGroups(cur, init).value;
      hide GroupUnbroken, GroupsUnbroken, NewBlock, OldBlock, Occurrences;
      OccurrencesAreAll(mid, OldBlock(g));
      var occ := Occurrences(mid, OldBlock(g));
      assert occ[0] in occ;
      SpliceHasNoBreaks(mid, occ[0], |OldBlock(g)|, NewBlock(g));
    }
  }

  lemma SpliceHasNoBreaks(lines: seq<string>, at: nat, length: nat, block: seq<string>)
    requires at + length <= |lines| && NoBreaks(lines) && NoBreaks(block)
    ensures NoBreaks(Splice(lines, at, length, block))
  {
  }

  // An updated file has exactly the edited lines unless one of them ends in a carriage return,
  // none is left of a file that ends in a newline, or the last is empty in one that does not.
  lemma UpdatedHasLinesIff(content: string, raw: seq<string>, out: seq<string>)
    requires NoBreaks(raw) && UpdateGroups(raw).Fine?
    requires ApplyGroups(SplitLines(content), UpdateGroups(raw).value) == Fine(out)
    ensures Updated(content, raw).Fine?
    ensures SplitLines(Updated(content, raw).value) == out
            <==> NoReturns(out)
                 && (out == [] ==> !EndsInNewline(content))
                 && (out != [] && out[|out| - 1] == "" ==> EndsInNewline(content))
  {
    GroupsHaveNoBreaks(raw);
    SplitHasNoBreaks(content);
    hide SplitLines, GroupLines, ApplyGroups, EndsInNewline, Join, NoBreaks, NoReturns;
    EditHasNoBreaks(SplitLines(content), UpdateGroups(raw).value);
    WrittenHasLinesIff(out, EndsInNewline(content));
  }
}
