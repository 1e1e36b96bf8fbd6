// src/tool/apply_patch.h, execute: planning a patch against the disk and carrying the plan out.
module ApplyPatch {
  import opened Bytes
  import opened Hunks

  datatype Kind = Add | Update | Delete

  datatype Hunk = Hunk(kind: Kind, path: string, lines: seq<string>)

  datatype Prepared = Prepared(kind: Kind, path: string, content: string)

  // The regular files, by path.
  type Disk = map<string, string>

  function Lookup(files: Disk, path: string): Option<string> { if path in files then Some(files[path]) else None }

  function DropMark(line: string): string { if line == "" then "" else line[1..] }

  function DropMarks(lines: seq<string>): seq<string> {
    if lines == [] then [] else DropMarks(lines[..|lines| - 1]) + [DropMark(lines[|lines| - 1])]
  }

  function AddContent(lines: seq<string>): string {
    var c := Join(DropMarks(lines));
    if c != "" && c[|c| - 1] != NL then c + "\n" else c
  }

  method BuildContent(lines: seq<string>) returns (c: string)
    ensures c == AddContent(lines)
  {
    var out := [];
    for i := 0 to |lines|
      invariant out == DropMarks(lines[..i])
    {
      assert lines[..i + 1][..i] == lines[..i];
      out := out + [if lines[i] == "" then "" else lines[i][1..]];
    }
    assert lines[..|lines|] == lines;
    c := JoinLines(out);
    if c != "" && c[|c| - 1] != NL { c := c + "\n"; }
  }

  lemma {:induction false} DropMarksCount(lines: seq<string>)
    ensures |DropMarks(lines)| == |lines|
    ensures lines != [] ==> DropMarks(lines)[|lines| - 1] == DropMark(lines[|lines| - 1])
  {
    if lines != [] { DropMarksCount(lines[..|lines| - 1]); }
  }

  // An added file has the lines of its section, marks dropped, exactly when the last one is not
  // empty: the newline that ends an added file swallows an empty last line.
  lemma AddedFileHasLinesIff(lines: seq<string>)
    requires AllClean(DropMarks(lines))
    ensures SplitLines(AddContent(lines)) == DropMarks(lines)
            <==> lines == [] || DropMark(lines[|lines| - 1]) != ""
    ensures AddContent(lines) == "" || EndsInNewline(AddContent(lines))
  {
    DropMarksCount(lines);
    var all := DropMarks(lines);
    if lines == [] {
      JoinNothing();
      SplitNothing();
    } else {
      var init, last := all[..|all| - 1], all[|all| - 1];
      assert all == init + [last];
      AddedText(lines, init, last);
      hide *;
      CleanParts(init, last);
      TextSplits(init);
      TextSplits(all);
      SplitEnded(Text(init));
      SplitEnded(Text(all));
      TextEnds(init);
      TextEnds(all);
    }
  }

  lemma {:induction false} MarksDropped(lines: seq<string>, k: nat)
    requires k < |lines|
    ensures |DropMarks(lines)| == |lines|
    ensures DropMarks(lines)[k] == if lines[k] == "" then "" else lines[k][1..]
  {
    DropMarksCount(lines);
    if k < |lines| - 1 {
      MarksDropped(lines[..|lines| - 1], k);
      hide DropMark;
    }
  }

  // An added file shows its section line by line, each without its first character.
  predicate ShowsSection(text: string, lines: seq<string>) {
    var shown := SplitLines(text);
    |shown| == |lines| && forall k :: 0 <= k < |lines| ==> shown[k] == if lines[k] == "" then "" else lines[k][1..]
  }

  lemma AddedFileShowsSectionIff(lines: seq<string>)
    requires AllClean(DropMarks(lines))
    ensures ShowsSection(AddContent(lines), lines) <==> lines == [] || |lines[|lines| - 1]| > 1
  {
    AddedFileHasLinesIff(lines);
    DropMarksCount(lines);
    hide SplitLines, AddContent, DropMarks, Clean;
    forall k | 0 <= k < |lines| ensures DropMarks(lines)[k] == if lines[k] == "" then "" else lines[k][1..] {
      MarksDropped(lines, k);
    }
    if ShowsSection(AddContent(lines), lines) { assert SplitLines(AddContent(lines)) == DropMarks(lines); }
  }

  lemma SplitNothing()
    ensures SplitLines("") == []
  {
  }

  lemma CleanParts(init: seq<string>, last: string)
    requires AllClean(init + [last])
    ensures AllClean(init)
  {
    hide Clean;
    assert forall i :: 0 <= i < |init| ==> init[i] == (init + [last])[i];
  }

  // The newline is added after a last line that is not empty.
  lemma AddedText(lines: seq<string>, init: seq<string>, last: string)
    requires DropMarks(lines) == init + [last] && AllClean(DropMarks(lines))
    ensures AddContent(lines) == if last == "" then Text(init) else Text(init + [last])
  {
    assert Clean((init + [last])[|init|]);
    JoinSnoc(init, last);
    TextSnoc(init, last);
    TextEnds(init);
    hide DropMarks, Text, Join;
    if last == "" {
      assert Text(init) + last == Text(init);
    } else {
      assert (Text(init) + last)[|Text(init) + last| - 1] == last[|last| - 1];
    }
  }

  lemma TextEnds(lines: seq<string>)
    ensures Text(lines) == "" || EndsInNewline(Text(lines))
  {
  }

  // ---- planning ----

  datatype Plan = Plan(content: Disk, deleted: set<string>, prepared: seq<Prepared>)

  datatype Planned = Ready(plan: Plan) | Refused(path: string, reason: Reason)

  function CurrentContent(path: string, p: Plan, files: Disk): Option<string> {
    if path in p.content then Some(p.content[path])
    else if path in p.deleted then None
    else Lookup(files, path)
  }

  function Written(p: Plan, kind: Kind, path: string, text: string): Plan {
    p.(content := p.content[path := text], prepared := p.prepared + [Prepared(kind, path, text)])
  }

  function Erased(p: Plan, path: string): Plan {
    Plan(p.content - {path}, p.deleted + {path}, p.prepared + [Prepared(Delete, path, "")])
  }

  function PlanHunk(files: Disk, p: Plan, h: Hunk): Planned {
    var cur := CurrentContent(h.path, p, files);
    match h.kind
    case Add => if cur.Some? then Refused(h.path, Exists) else Ready(Written(p, Add, h.path, AddContent(h.lines)))
    case Delete => if cur.None? then Refused(h.path, NotFound) else Ready(Erased(p, h.path))
    case Update =>
      if cur.None? then Refused(h.path, NotFound)
      else
        var next := Updated(cur.value, h.lines);
        if next.Bad? then Refused(h.path, next.reason) else Ready(Written(p, Update, h.path, next.value))
  }

  function EmptyPlan(): Plan { Plan(map[], {}, []) }

  function PlanAll(files: Disk, hunks: seq<Hunk>): Planned {
    if hunks == [] then Ready(EmptyPlan())
    else
      var before := PlanAll(files, hunks[..|hunks| - 1]);
      if before.Refused? then before else PlanHunk(files, before.plan, hunks[|hunks| - 1])
  }

  // ---- the reference: editing the disk hunk by hunk ----

  datatype Edited = Left(files: Disk) | Stuck(path: string, reason: Reason)

  function Edit(files: Disk, h: Hunk): Edited {
    match h.kind
    case Add => if h.path in files then Stuck(h.path, Exists) else Left(files[h.path := AddContent(h.lines)])
    case Delete => if h.path !in files then Stuck(h.path, NotFound) else Left(files - {h.path})
    case Update =>
      if h.path !in files then Stuck(h.path, NotFound)
      else
        var next := Updated(files[h.path], h.lines);
        if next.Bad? then Stuck(h.path, next.reason) else Left(files[h.path := next.value])
  }

  function EditAll(files: Disk, hunks: seq<Hunk>): Edited {
    if hunks == [] then Left(files)
    else
      var before := EditAll(files, hunks[..|hunks| - 1]);
      if before.Stuck? then before else Edit(before.files, hunks[|hunks| - 1])
  }

  function RunOp(files: Disk, op: Prepared): Disk {
    if op.kind.Delete? then files - {op.path} else files[op.path := op.content]
  }

  function RunAll(files: Disk, ops: seq<Prepared>): Disk {
    if ops == [] then files else RunOp(RunAll(files, ops[..|ops| - 1]), ops[|ops| - 1])
  }

  // The plan sees the disk as its own operations would leave it.
  ghost predicate SeesAhead(files: Disk, p: Plan) {
    forall path :: CurrentContent(path, p, files) == Lookup(RunAll(files, p.prepared), path)
  }

  lemma RunAllSnoc(files: Disk, ops: seq<Prepared>, op: Prepared)
    ensures RunAll(files, ops + [op]) == RunOp(RunAll(files, ops), op)
  {
    assert (ops + [op])[..|ops|] == ops;
  }

  lemma WrittenSees(files: Disk, p: Plan, kind: Kind, path: string, text: string)
    requires SeesAhead(files, p) && !kind.Delete?
    ensures SeesAhead(files, Written(p, kind, path, text))
    ensures RunAll(files, Written(p, kind, path, text).prepared) == RunAll(files, p.prepared)[path := text]
  {
    RunAllSnoc(files, p.prepared, Prepared(kind, path, text));
    hide RunAll;
    forall q ensures CurrentContent(q, Written(p, kind, path, text), files)
                     == Lookup(RunAll(files, Written(p, kind, path, text).prepared), q)
    {
      assert CurrentContent(q, p, files) == Lookup(RunAll(files, p.prepared), q);
    }
  }

  lemma ErasedSees(files: Disk, p: Plan, path: string)
    requires SeesAhead(files, p)
    ensures SeesAhead(files, Erased(p, path))
    ensures RunAll(files, Erased(p, path).prepared) == RunAll(files, p.prepared) - {path}
  {
    RunAllSnoc(files, p.prepared, Prepared(Delete, path, ""));
    hide RunAll;
    forall q ensures CurrentContent(q, Erased(p, path), files) == Lookup(RunAll(files, Erased(p, path).prepared), q) {
      assert CurrentContent(q, p, files) == Lookup(RunAll(files, p.prepared), q);
    }
  }

  // What planning says of a patch and what editing the disk by it would do.
  predicate SameOutcome(files: Disk, planned: Planned, edited: Edited, count: nat) {
    match planned
    case Refused(path, reason) => edited == Stuck(path, reason)
    case Ready(p) => edited == Left(RunAll(files, p.prepared)) && |p.prepared| == count
  }

  lemma HunkPlansItsEdit(files: Disk, p: Plan, h: Hunk)
    requires SeesAhead(files, p)
    ensures SameOutcome(files, PlanHunk(files, p, h), Edit(RunAll(files, p.prepared), h), |p.prepared| + 1)
    ensures PlanHunk(files, p, h).Ready? ==> SeesAhead(files, PlanHunk(files, p, h).plan)
  {
    var now := RunAll(files, p.prepared);
    assert CurrentContent(h.path, p, files) == Lookup(now, h.path);
    match h.kind
    case Add => WrittenSees(files, p, Add, h.path, AddContent(h.lines)); hide Updated, AddContent, RunAll;
    case Delete => ErasedSees(files, p, h.path); hide Updated, AddContent, RunAll;
    case Update =>
      if h.path in now && Updated(now[h.path], h.lines).Fine? {
        WrittenSees(files, p, Update, h.path, Updated(now[h.path], h.lines).value);
      }
      hide Updated, AddContent, RunAll;
  }

  // Planning a patch is editing the disk hunk by hunk: it is refused at the same hunk for the
  // same reason, and otherwise its operations lead to the same disk. Throughout, the plan reads
  // every path as the disk would be after the operations so far.
  lemma {:induction false} PlanIsEditing(files: Disk, hunks: seq<Hunk>)
    ensures SameOutcome(files, PlanAll(files, hunks), EditAll(files, hunks), |hunks|)
    ensures PlanAll(files, hunks).Ready? ==> SeesAhead(files, PlanAll(files, hunks).plan)
  {
    if hunks == [] {
      assert forall path :: CurrentContent(path, EmptyPlan(), files) == Lookup(files, path);
    } else {
      var init := hunks[..|hunks| - 1];
      PlanIsEditing(files, init);
      var before := PlanAll(files, init);
      if before.Ready? {
        HunkPlansItsEdit(files, before.plan, hunks[|hunks| - 1]);
      }
      hide PlanHunk, Edit, RunAll, SeesAhead;
    }
  }

  lemma PlanGrows(files: Disk, hunks: seq<Hunk>) returns (op: Prepared)
    requires hunks != [] && PlanAll(files, hunks).Ready?
    ensures PlanAll(files, hunks[..|hunks| - 1]).Ready?
    ensures op.path == hunks[|hunks| - 1].path && op.kind == hunks[|hunks| - 1].kind
    ensures PlanAll(files, hunks).plan.prepared == PlanAll(files, hunks[..|hunks| - 1]).plan.prepared + [op]
  {
    hide Updated, AddContent, CurrentContent;
    var prepared := PlanAll(files, hunks).plan.prepared;
    op := prepared[|prepared| - 1];
  }

  // The first `i` operations of a plan are the plan of the first `i` hunks.
  lemma {:induction false} PlanPrefix(files: Disk, hunks: seq<Hunk>, i: nat)
    requires i <= |hunks| && PlanAll(files, hunks).Ready?
    ensures PlanAll(files, hunks[..i]).Ready? && |PlanAll(files, hunks).plan.prepared| == |hunks|
    ensures PlanAll(files, hunks[..i]).plan.prepared == PlanAll(files, hunks).plan.prepared[..i]
  {
    PlanIsEditing(files, hunks);
    if i == |hunks| {
      assert hunks[..i] == hunks;
    } else {
      var init := hunks[..|hunks| - 1];
      var op := PlanGrows(files, hunks);
      hide *;
      PlanPrefix(files, init, i);
      assert init[..i] == hunks[..i];
    }
  }

  // ---- carrying the plan out ----

  // An operation works; or fails leaving its path alone; or fails after its file was truncated,
  // leaving something else there; or throws.
  datatype Io = Works | Fails | Damages(content: string) | Throws

  datatype Report =
    | EmptyPatch
    | Rejected(path: string, reason: Reason)
    | Applied(labels: seq<string>)
    | Partial(path: string, labels: seq<string>)
    | Escaped

  function LabelFor(kind: Kind, path: string): string {
    (match kind
     case Add => "A "
     case Update => "M "
     case Delete => "D ") + path
  }

  function LabelOf(op: Prepared): string { LabelFor(op.kind, op.path) }

  function Labels(ops: seq<Prepared>): seq<string> {
    if ops == [] then [] else Labels(ops[..|ops| - 1]) + [LabelOf(ops[|ops| - 1])]
  }

  // The operations before the first that does not work.
  function Working(ops: seq<Prepared>, io: nat -> Io, i: nat): (k: nat)
    requires i <= |ops|
    ensures i <= k <= |ops|
    decreases |ops| - i
  {
    if i < |ops| && io(i).Works? then Working(ops, io, i + 1) else i
  }

  class Workspace {
    var files: Disk

    method PlanPatch(hunks: seq<Hunk>) returns (r: Planned)
      ensures r == PlanAll(files, hunks)
    {
      var content: Disk, deleted: set<string>, prepared: seq<Prepared> := map[], {}, [];
      assert hunks[..0] == [];
      for i := 0 to |hunks|
        invariant PlanAll(files, hunks[..i]) == Ready(Plan(content, deleted, prepared))
      {
        assert hunks[..i + 1][..i] == hunks[..i];
        hide Updated, AddContent;
        var h := hunks[i];
        var cur := CurrentContent(h.path, Plan(content, deleted, prepared), files);
        match h.kind {
          case Add =>
            if cur.Some? {
              RefusedStays(files, hunks, i + 1);
              return Refused(h.path, Exists);
            }
            var text := BuildContent(h.lines);
            content := content[h.path := text];
            prepared := prepared + [Prepared(Add, h.path, text)];
          case Delete =>
            if cur.None? {
              RefusedStays(files, hunks, i + 1);
              return Refused(h.path, NotFound);
            }
            content := content - {h.path};
            deleted := deleted + {h.path};
            prepared := prepared + [Prepared(Delete, h.path, "")];
          case Update =>
            if cur.None? {
              RefusedStays(files, hunks, i + 1);
              return Refused(h.path, NotFound);
            }
            var next := ApplyUpdates(cur.value, h.lines);
            if next.Bad? {
              RefusedStays(files, hunks, i + 1);
              return Refused(h.path, next.reason);
            }
            prepared := prepared + [Prepared(Update, h.path, next.value)];
            content := content[h.path := next.value];
        }
      }
      assert hunks[..|hunks|] == hunks;
      r := Ready(Plan(content, deleted, prepared));
    }

    // An attempt at one operation.
    method Perform(op: Prepared, io: Io)
      modifies this
      ensures files == match io
                       case Works => RunOp(old(files), op)
                       case Damages(left) => if op.kind.Delete? then old(files) else old(files)[op.path := left]
                       case _ => old(files)
    {
      match io
      case Works => files := if op.kind.Delete? then files - {op.path} else files[op.path := op.content];
      case Damages(left) => if !op.kind.Delete? { files := files[op.path := left]; }
      case Fails =>
      case Throws =>
    }

    // A refused patch changes nothing. Otherwise the operations up to the first failure are
    // carried out and listed; beyond them only the path that failed can differ.
    method Execute(hunks: seq<Hunk>, io: nat -> Io) returns (r: Report)
      modifies this
      ensures r.EmptyPatch? <==> hunks == []
      ensures r.Rejected? <==> hunks != [] && PlanAll(old(files), hunks).Refused?
      ensures r.Rejected? ==> PlanAll(old(files), hunks) == Refused(r.path, r.reason)
      ensures r.EmptyPatch? || r.Rejected? ==> files == old(files)
      ensures !r.EmptyPatch? && !r.Rejected? ==>
                CarriedOut(old(files), PlanAll(old(files), hunks).plan.prepared, io, files, r)
    {
      if hunks == [] { return EmptyPatch; }
      var planned := PlanPatch(hunks);
      if planned.Refused? { return Rejected(planned.path, planned.reason); }
      r := CarryOut(planned.plan.prepared, io);
    }

    method CarryOut(ops: seq<Prepared>, io: nat -> Io) returns (r: Report)
      modifies this
      ensures CarriedOut(old(files), ops, io, files, r)
    {
      var applied: seq<string> := [];
      var i := 0;
      assert ops[..0] == [];
      while i < |ops|
        invariant i <= |ops| && applied == Labels(ops[..i]) && files == RunAll(old(files), ops[..i])
        invariant Working(ops, io, 0) == Working(ops, io, i)
      {
        assert ops[..i + 1][..i] == ops[..i];
        Perform(ops[i], io(i));
        if !io(i).Works? {
          return if io(i).Throws? then Escaped else Partial(ops[i].path, applied);
        }
        applied := applied + [LabelOf(ops[i])];
        i := i + 1;
      }
      assert ops[..|ops|] == ops;
      r := Applied(applied);
    }
  }

  lemma {:induction false} RefusedStays(files: Disk, hunks: seq<Hunk>, n: nat)
    requires n <= |hunks| && PlanAll(files, hunks[..n]).Refused?
    ensures PlanAll(files, hunks) == PlanAll(files, hunks[..n])
  {
    if n < |hunks| {
      assert hunks[..|hunks| - 1][..n] == hunks[..n];
      RefusedStays(files, hunks[..|hunks| - 1], n);
    } else {
      assert hunks[..n] == hunks;
    }
  }

  // The disk and the report after carrying out a plan.
  predicate CarriedOut(before: Disk, ops: seq<Prepared>, io: nat -> Io, after: Disk, r: Report) {
    var k := Working(ops, io, 0);
    var done := RunAll(before, ops[..k]);
    if k == |ops| then r == Applied(Labels(ops)) && after == done
    else
      && r == (if io(k).Throws? then Escaped else Partial(ops[k].path, Labels(ops[..k])))
      && after == if io(k).Damages? && !ops[k].kind.Delete? then done[ops[k].path := io(k).content] else done
  }

  // A patch that goes through leaves the disk as editing it hunk by hunk would.
  lemma AppliedIsEditing(before: Disk, hunks: seq<Hunk>, io: nat -> Io, after: Disk, r: Report)
    requires PlanAll(before, hunks).Ready? && CarriedOut(before, PlanAll(before, hunks).plan.prepared, io, after, r)
    ensures r.Applied? ==> |r.labels| == |hunks| && EditAll(before, hunks) == Left(after)
  {
    var ops := PlanAll(before, hunks).plan.prepared;
    PlanIsEditing(before, hunks);
    LabelsCount(ops);
    assert ops[..|ops|] == ops;
    hide PlanAll, EditAll, RunAll, Labels, Working, SeesAhead;
  }

  // One that fails part way leaves every path but the failing one as editing the disk by the
  // listed hunks would.
  lemma ListedPrefixIsApplied(before: Disk, hunks: seq<Hunk>, io: nat -> Io, after: Disk, r: Report)
    requires PlanAll(before, hunks).Ready? && CarriedOut(before, PlanAll(before, hunks).plan.prepared, io, after, r)
    requires r.Partial?
    ensures |r.labels| < |hunks| && hunks[|r.labels|].path == r.path
    ensures EditAll(before, hunks[..|r.labels|]).Left?
    ensures SameElsewhere(after, EditAll(before, hunks[..|r.labels|]).files, r.path)
  {
    var ops := PlanAll(before, hunks).plan.prepared;
    var k := Working(ops, io, 0);
    LabelsCount(ops[..k]);
    hide PlanAll, EditAll, RunAll, Labels, Working;
    var done := RunAll(before, ops[..k]);
    assert SameElsewhere(after, done, ops[k].path);
    hide SameElsewhere;
    PrefixEdits(before, hunks, k);
  }

  ghost predicate SameElsewhere(a: Disk, b: Disk, but: string) {
    forall path :: path != but ==> Lookup(a, path) == Lookup(b, path)
  }

  lemma PrefixEdits(before: Disk, hunks: seq<Hunk>, k: nat)
    requires PlanAll(before, hunks).Ready? && k < |PlanAll(before, hunks).plan.prepared|
    ensures k < |hunks| && PlanAll(before, hunks).plan.prepared[k].path == hunks[k].path
    ensures EditAll(before, hunks[..k]) == Left(RunAll(before, PlanAll(before, hunks).plan.prepared[..k]))
  {
    OpPath(before, hunks, k);
    PlanPrefix(before, hunks, k);
    PlanIsEditing(before, hunks[..k]);
    hide PlanAll, EditAll, RunAll, SeesAhead;
  }

  lemma OpPath(before: Disk, hunks: seq<Hunk>, k: nat)
    requires PlanAll(before, hunks).Ready? && k < |PlanAll(before, hunks).plan.prepared|
    ensures k < |hunks| && PlanAll(before, hunks).plan.prepared[k].path == hunks[k].path
    ensures PlanAll(before, hunks).plan.prepared[k].kind == hunks[k].kind
  {
    hide *;
    PlanPrefix(before, hunks, |hunks|);
    PlanPrefix(before, hunks, k);
    PlanPrefix(before, hunks, k + 1);
    var one := hunks[..k + 1];
    assert one[..|one| - 1] == hunks[..k] && one[|one| - 1] == hunks[k];
    var op := PlanGrows(before, one);
    var ops := PlanAll(before, hunks).plan.prepared;
    assert ops[..k + 1][k] == ops[k];
  }

  lemma {:induction false} LabelsCount(ops: seq<Prepared>)
    ensures |Labels(ops)| == |ops|
  {
    if ops != [] { LabelsCount(ops[..|ops| - 1]); }
  }

  // ---- the error that names the applied operations ----

  function HunkLabels(hunks: seq<Hunk>): seq<string> {
    if hunks == [] then []
    else
      var h := hunks[|hunks| - 1];
      HunkLabels(hunks[..|hunks| - 1])
      + [(if h.kind.Add? then "A " else if h.kind.Update? then "M " else "D ") + h.path]
  }

  lemma {:induction false} LabelsAreTheHunks(before: Disk, hunks: seq<Hunk>, k: nat)
    requires PlanAll(before, hunks).Ready? && k <= |PlanAll(before, hunks).plan.prepared|
    ensures k <= |hunks| && Labels(PlanAll(before, hunks).plan.prepared[..k]) == HunkLabels(hunks[..k])
  {
    var ops := PlanAll(before, hunks).plan.prepared;
    if k > 0 {
      LabelsAreTheHunks(before, hunks, k - 1);
      OpPath(before, hunks, k - 1);
      assert ops[..k][..k - 1] == ops[..k - 1] && hunks[..k][..k - 1] == hunks[..k - 1];
      hide PlanAll;
    }
  }

  lemma {:induction false} WorkingStops(ops: seq<Prepared>, io: nat -> Io, i: nat)
    requires i <= |ops|
    ensures forall j :: i <= j < Working(ops, io, i) ==> io(j).Works?
    ensures Working(ops, io, i) < |ops| ==> !io(Working(ops, io, i)).Works?
    decreases |ops| - i
  {
    if i < |ops| && io(i).Works? { WorkingStops(ops, io, i + 1); }
  }

  // `k` is the first operation that does not work.
  predicate StopsAt(hunks: seq<Hunk>, io: nat -> Io, k: nat) {
    k < |hunks| && !io(k).Works? && forall j :: 0 <= j < k ==> io(j).Works?
  }

  // A run that stops at operation `k` has edited the disk by the hunks before it, and its error
  // names exactly those unless the operation throws; then nothing names them.
  lemma ErrorNamesThemIff(before: Disk, hunks: seq<Hunk>, io: nat -> Io, after: Disk, r: Report, k: nat)
    requires PlanAll(before, hunks).Ready? && CarriedOut(before, PlanAll(before, hunks).plan.prepared, io, after, r)
    requires StopsAt(hunks, io, k)
    ensures EditAll(before, hunks[..k]).Left?
    ensures SameElsewhere(after, EditAll(before, hunks[..k]).files, hunks[k].path)
    ensures r == Partial(hunks[k].path, HunkLabels(hunks[..k])) <==> !io(k).Throws?
    ensures io(k).Throws? ==> r == Escaped && after == EditAll(before, hunks[..k]).files
  {
    var ops := PlanAll(before, hunks).plan.prepared;
    PlanPrefix(before, hunks, k);
    WorkingStops(ops, io, 0);
    hide PlanAll, EditAll, RunAll, Labels, HunkLabels, Working;
    assert Working(ops, io, 0) == k;
    LabelsAreTheHunks(before, hunks, k);
    var done := RunAll(before, ops[..k]);
    assert SameElsewhere(after, done, ops[k].path);
    hide SameElsewhere;
    PrefixEdits(before, hunks, k);
  }

  // Adding a file works, removing another throws: the new file is there and nothing names it.
  lemma ThrowNamesNothing()
    ensures var before, hunks := map["b" := "x"], [Hunk(Add, "a", ["+y"]), Hunk(Delete, "b", [])];
            && PlanAll(before, hunks).Ready?
            && CarriedOut(before, PlanAll(before, hunks).plan.prepared, i => if i == 1 then Throws else Works,
                          map["b" := "x", "a" := "y\n"], Escaped)
  {
    var before, a, b := map["b" := "x"], Hunk(Add, "a", ["+y"]), Hunk(Delete, "b", []);
    var hunks := [a, b];
    assert hunks[..1] == [a] && [a][..0] == [];
    AddedY();
    hide AddContent;
    var first := Written(EmptyPlan(), Add, "a", "y\n");
    assert PlanAll(before, [a]) == Ready(first);
    assert PlanAll(before, hunks) == Ready(Erased(first, "b"));
    var ops := Erased(first, "b").prepared;
    assert ops == [Prepared(Add, "a", "y\n"), Prepared(Delete, "b", "")];
    assert ops[..1] == [ops[0]] && [ops[0]][..0] == [];
    hide PlanAll;
    assert RunAll(before, ops[..1]) == before["a" := "y\n"];
    var io: nat -> Io := i => if i == 1 then Throws else Works;
    assert Working(ops, io, 0) == 1;
  }

  lemma AddedY()
    ensures AddContent(["+y"]) == "y\n"
  {
    assert ["+y"][..0] == [] && "+y"[1..] == "y";
    assert DropMarks(["+y"]) == ["y"];
  }
}
