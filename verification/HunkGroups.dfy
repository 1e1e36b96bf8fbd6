// src/tool/apply_patch.h, apply_updates: what the raw lines of an update section mean.
module HunkGroups {
  import opened Bytes
  import opened Hunks

  // ---- one line ----

  predicate MarkedBy(mark: Mark, c: char) {
    match mark
    case Context => c == ' '
    case Minus => c == '-'
    case Plus => c == '+'
  }

  // A line is its mark and its text; an empty one is an empty line of context.
  predicate MeansLine(raw: string, line: Line) {
    if raw == "" then line.mark.Context? && line.text == ""
    else MarkedBy(line.mark, raw[0]) && line.text == raw[1..]
  }

  lemma RawLineIs(raw: string)
    ensures ReadRaw(raw).Separator? <==> raw == "@@"
    ensures ReadRaw(raw).Marked? <==> raw == "" || exists mark :: MarkedBy(mark, raw[0])
    ensures ReadRaw(raw).Marked? ==> MeansLine(raw, ReadRaw(raw).line)
  {
    if raw != "" {
      assert MarkedBy(Context, ' ') && MarkedBy(Minus, '-') && MarkedBy(Plus, '+');
      assert raw == "@@" ==> raw[0] == '@';
    }
  }

  // A section is malformed exactly when one of its lines is neither a separator nor marked, and
  // the error names the first.
  lemma {:induction false} MalformedIff(raw: seq<string>)
    ensures GroupLines(raw).Bad? <==> exists i :: 0 <= i < |raw| && ReadRaw(raw[i]).Nonsense?
    ensures GroupLines(raw).Bad? ==>
              exists i :: 0 <= i < |raw| && ReadRaw(raw[i]).Nonsense? && GroupLines(raw).reason == Malformed(raw[i])
                          && forall j :: 0 <= j < i ==> !ReadRaw(raw[j]).Nonsense?
  {
    hide ReadRaw;
    if raw != [] {
      var n := |raw| - 1;
      MalformedIff(raw[..n]);
      if GroupLines(raw[..n]).Bad? {
        var i :| 0 <= i < n && ReadRaw(raw[..n][i]).Nonsense? && GroupLines(raw[..n]).reason == Malformed(raw[..n][i])
                 && forall j :: 0 <= j < i ==> !ReadRaw(raw[..n][j]).Nonsense?;
        assert raw[i] == raw[..n][i] && forall j :: 0 <= j < i ==> raw[j] == raw[..n][j];
      } else {
        assert forall i :: 0 <= i < n ==> raw[..n][i] == raw[i];
      }
    }
  }

  // ---- the groups are the runs between separators ----

  // The group starts at line `s`, says what the lines there mean, and cannot be extended.
  predicate GroupAt(raw: seq<string>, s: nat, g: Group) {
    && s + |g| <= |raw| && g != [] && (forall j :: 0 <= j < |g| ==> Says(raw, s + j, g[j]))
    && (s == 0 || raw[s - 1] == "@@") && (s + |g| == |raw| || raw[s + |g|] == "@@")
  }

  predicate Says(raw: seq<string>, i: nat, line: Line) { i < |raw| && raw[i] != "@@" && MeansLine(raw[i], line) }

  predicate Within(groups: seq<Group>, at: seq<nat>, k: nat, i: nat)
    requires k < |groups| == |at|
  {
    at[k] <= i < at[k] + |groups[k]|
  }

  // The groups are the runs of lines between separators, all of them, in order.
  ghost predicate GroupsAre(raw: seq<string>, groups: seq<Group>, at: seq<nat>) {
    && |at| == |groups|
    && (forall k :: 0 <= k < |groups| ==> GroupAt(raw, at[k], groups[k]))
    && (forall k :: 0 < k < |groups| ==> at[k - 1] + |groups[k - 1]| < at[k])
    && (forall i :: 0 <= i < |raw| && raw[i] != "@@" ==> exists k :: 0 <= k < |groups| && Within(groups, at, k, i))
  }

  lemma GroupStays(raw: seq<string>, more: seq<string>, s: nat, g: Group)
    requires GroupAt(raw, s, g) && (s + |g| < |raw| || more == [] || more[0] == "@@")
    ensures GroupAt(raw + more, s, g)
  {
    hide MeansLine;
    forall j | 0 <= j < |g| ensures Says(raw + more, s + j, g[j]) { assert Says(raw, s + j, g[j]); }
  }

  lemma ThenSeparator(raw: seq<string>, groups: seq<Group>, at: seq<nat>)
    requires GroupsAre(raw, groups, at)
    ensures GroupsAre(raw + ["@@"], groups, at)
  {
    var all := raw + ["@@"];
    forall k | 0 <= k < |groups| ensures GroupAt(all, at[k], groups[k]) { GroupStays(raw, ["@@"], at[k], groups[k]); }
    hide GroupAt, Within;
  }

  lemma EndsBefore(raw: seq<string>, s: nat, g: Group)
    requires GroupAt(raw, s, g) && raw != [] && raw[|raw| - 1] == "@@"
    ensures s + |g| < |raw|
  {
    assert Says(raw, s + (|g| - 1), g[|g| - 1]);
  }

  lemma ThenGroup(raw: seq<string>, groups: seq<Group>, at: seq<nat>, more: seq<string>, g: Group)
    requires GroupsAre(raw, groups, at) && g != [] && |more| == |g| && (raw == [] || raw[|raw| - 1] == "@@")
    requires forall j :: 0 <= j < |g| ==> Says(more, j, g[j])
    ensures GroupsAre(raw + more, groups + [g], at + [|raw|])
  {
    var all, gs, starts, m := raw + more, groups + [g], at + [|raw|], |raw|;
    forall j | 0 <= j < |g| ensures Says(all, m + j, g[j]) { assert Says(more, j, g[j]); }
    forall k | 0 <= k < |groups| ensures GroupAt(all, at[k], groups[k]) && at[k] + |groups[k]| < m {
      EndsBefore(raw, at[k], groups[k]);
      GroupStays(raw, more, at[k], groups[k]);
    }
    assert GroupAt(all, m, g);
    hide GroupAt, Says;
    forall i | 0 <= i < |all| && all[i] != "@@" ensures exists k :: 0 <= k < |gs| && Within(gs, starts, k, i) {
      if i < m {
        assert raw[i] != "@@";
        var k :| 0 <= k < |groups| && Within(groups, at, k, i);
        assert Within(gs, starts, k, i);
      } else {
        assert Within(gs, starts, |groups|, i);
      }
    }
  }

  // The groups ended so far are those before the lines of the open one.
  ghost predicate ReadsGroups(raw: seq<string>, r: Grouping, at: seq<nat>) {
    var m := |raw| - |r.group|;
    && 0 <= m && (m == 0 || raw[m - 1] == "@@") && GroupsAre(raw[..m], r.groups, at)
    && forall j :: 0 <= j < |r.group| ==> Says(raw[m..], j, r.group[j])
  }

  lemma CloseIs(raw: seq<string>, r: Grouping, before: seq<nat>) returns (at: seq<nat>)
    requires ReadsGroups(raw, r, before)
    ensures GroupsAre(raw, Close(r), at)
  {
    var m := |raw| - |r.group|;
    hide GroupsAre, Says;
    assert raw[..m] + raw[m..] == raw;
    if r.group == [] {
      assert raw[..m] == raw && r.groups + [] == r.groups;
      at := before;
    } else {
      ThenGroup(raw[..m], r.groups, before, raw[m..], r.group);
      at := before + [|raw[..m]|];
    }
  }

  lemma {:induction false} ReadsAre(raw: seq<string>) returns (at: seq<nat>)
    requires GroupLines(raw).Fine?
    ensures ReadsGroups(raw, GroupLines(raw).value, at)
  {
    if raw == [] {
      at := [];
    } else {
      var init, line := raw[..|raw| - 1], raw[|raw| - 1];
      at := ReadsAre(init);
      var r := GroupLines(init).value;
      RawLineIs(line);
      assert raw == init + [line];
      hide ReadsGroups, ReadRaw, MeansLine, Close;
      if ReadRaw(line).Separator? {
        at := SeparatorRead(init, r, at);
      } else {
        LineRead(init, r, at, line, ReadRaw(line).line);
      }
    }
  }

  lemma SeparatorRead(raw: seq<string>, r: Grouping, before: seq<nat>) returns (at: seq<nat>)
    requires ReadsGroups(raw, r, before)
    ensures ReadsGroups(raw + ["@@"], Grouping(Close(r), []), at)
  {
    at := CloseIs(raw, r, before);
    ThenSeparator(raw, Close(r), at);
    hide GroupsAre, Says, Close;
    var all := raw + ["@@"];
    assert all[..|all|] == all;
  }

  lemma LineRead(raw: seq<string>, r: Grouping, at: seq<nat>, text: string, line: Line)
    requires ReadsGroups(raw, r, at) && text != "@@" && MeansLine(text, line)
    ensures ReadsGroups(raw + [text], r.(group := r.group + [line]), at)
  {
    hide GroupsAre, MeansLine;
    var m, all, group := |raw| - |r.group|, raw + [text], r.group + [line];
    assert all[..m] == raw[..m] && all[m..] == raw[m..] + [text];
    forall j | 0 <= j < |group| ensures Says(all[m..], j, group[j]) {
      if j < |r.group| { assert Says(raw[m..], j, r.group[j]); }
    }
  }

  // What an update section means: its groups are its runs of lines between separators, line by
  // line, whether or not a separator comes first.
  lemma GroupsAreRuns(raw: seq<string>) returns (at: seq<nat>)
    requires UpdateGroups(raw).Fine?
    ensures GroupsAre(raw, UpdateGroups(raw).value, at)
  {
    at := ReadsAre(raw);
    hide GroupLines, ReadsGroups, Close;
    at := CloseIs(raw, GroupLines(raw).value, at);
  }

  // ---- the blocks of a group ----

  predicate TextsOf(lines: seq<Line>, texts: seq<string>) {
    |texts| == |lines| && forall k :: 0 <= k < |lines| ==> texts[k] == lines[k].text
  }

  // The old block is the context and the removed lines, the new one the context and the added
  // lines, in the order of the group.
  lemma {:induction false} BlocksAre(g: Group)
    ensures TextsOf(Keep(g, (l: Line) => l.mark.Context? || l.mark.Minus?), OldBlock(g))
    ensures TextsOf(Keep(g, (l: Line) => l.mark.Context? || l.mark.Plus?), NewBlock(g))
  {
    if g != [] {
      var init, last := g[..|g| - 1], g[|g| - 1];
      assert g == init + [last];
      BlocksAre(init);
      KeepLast(init, last, (l: Line) => l.mark.Context? || l.mark.Minus?);
      KeepLast(init, last, (l: Line) => l.mark.Context? || l.mark.Plus?);
    }
  }

  lemma KeepLast(init: Group, last: Line, p: Line -> bool)
    ensures Keep(init + [last], p) == Keep(init, p) + if p(last) then [last] else []
  {
    KeepAppend(init, [last], p);
    assert [last][1..] == [] && Keep([last][1..], p) == [];
    assert Keep(init, p) + [] == Keep(init, p);
  }
}
