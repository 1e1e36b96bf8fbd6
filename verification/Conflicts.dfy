// src/server/server.cpp: who knows which contents of which file, who is told of a change, and
// the poller's watch on the files.
module Conflicts {
  import opened Bytes
  import opened Ordering
  import opened SwarmsServer

  // What stat and hash_file find; the hash is empty for a file that cannot be read.
  datatype File = Missing | Present(mtime: nat, size: nat, hash: string)

  datatype Watch = Watch(exists_: bool, mtime: nat, size: nat, hash: string)

  type Disk = map<string, File>

  function FileAt(disk: Disk, path: string): File { if path in disk then disk[path] else Missing }

  datatype Tracker = Tracker(known: ReadHashes, watches: map<string, Watch>)

  const POLLER: string := "fs"

  // ---- the sections ----

  function Watching(f: File): Watch {
    if f.Missing? then Watch(false, 0, 0, "") else Watch(true, f.mtime, f.size, f.hash)
  }

  function ReadersOf(t: Tracker, path: string): map<string, string> { if path in t.known then t.known[path] else map[] }

  // A read frame, or register_read by a hosted agent.
  function Register(t: Tracker, id: string, path: string, hash: string, disk: Disk): Tracker {
    Tracker(t.known[path := ReadersOf(t, path)[id := hash]], t.watches[path := Watching(FileAt(disk, path))])
  }

  // Those of `ids` who must be told that `path` now has `hash`.
  function StaleOf(ids: seq<string>, readers: map<string, string>, hash: string, author: string): seq<string>
    requires forall i :: 0 <= i < |ids| ==> ids[i] in readers
  {
    if ids == [] then []
    else
      var id := ids[|ids| - 1];
      StaleOf(ids[..|ids| - 1], readers, hash, author) + if id != author && readers[id] != hash then [id] else []
  }

  function Notices(t: Tracker, path: string, hash: string, author: string): seq<string> {
    var readers := ReadersOf(t, path);
    StaleOf(SortedKeys(readers.Keys), readers, hash, author)
  }

  function AllKnow(readers: map<string, string>, hash: string): map<string, string> {
    map id | id in readers :: hash
  }

  // update_conflict_state_locked
  function Change(t: Tracker, path: string, hash: string, disk: Disk): Tracker {
    Tracker(t.known[path := AllKnow(ReadersOf(t, path), hash)], t.watches[path := Watching(FileAt(disk, path))])
  }

  function Forget(t: Tracker, id: string): Tracker { t.(known := ForgetReads(t.known, id)) }

  // The poller looks at one watched file.
  function Looked(w: Watch, f: File): Watch {
    match f
    case Missing => if w.exists_ then Watch(false, 0, 0, "") else w
    case Present(mtime, size, hash) =>
      var dirty := !w.exists_ || mtime != w.mtime || size != w.size;
      Watch(true, mtime, size, if dirty || w.hash == "" then hash else w.hash)
  }

  predicate Reports(w: Watch, f: File) {
    f.Present? && w.hash != "" && Looked(w, f).hash != "" && Looked(w, f).hash != w.hash
  }

  function Scan(t: Tracker, disk: Disk): Tracker {
    t.(watches := map path | path in t.watches :: Looked(t.watches[path], FileAt(disk, path)))
  }

  // The paths the poller goes on to announce.
  function ChangedOf(paths: seq<string>, watches: map<string, Watch>, disk: Disk): seq<string>
    requires forall i :: 0 <= i < |paths| ==> paths[i] in watches
  {
    if paths == [] then []
    else
      var path := paths[|paths| - 1];
      ChangedOf(paths[..|paths| - 1], watches, disk) + if Reports(watches[path], FileAt(disk, path)) then [path] else []
  }

  function Changed(t: Tracker, disk: Disk): seq<string> { ChangedOf(SortedKeys(t.watches.Keys), t.watches, disk) }

  // ---- the class ----

  class ConflictTracker {
    var readHashes: ReadHashes
    var fileState: map<string, Watch>

    ghost function Now(): Tracker
      reads this
    {
      Tracker(readHashes, fileState)
    }

    constructor ()
      ensures Now() == Tracker(map[], map[])
    {
      readHashes, fileState := map[], map[];
    }

    method RefreshWatch(path: string, disk: Disk)
      modifies this`fileState
      ensures fileState == old(fileState)[path := Watching(FileAt(disk, path))]
    {
      var f := FileAt(disk, path);
      if f.Missing? {
        fileState := fileState[path := Watch(false, 0, 0, "")];
      } else {
        fileState := fileState[path := Watch(true, f.mtime, f.size, f.hash)];
      }
    }

    method RegisterRead(id: string, path: string, hash: string, disk: Disk)
      modifies this
      ensures Now() == Register(old(Now()), id, path, hash, disk)
    {
      if path !in readHashes { readHashes := readHashes[path := map[]]; }
      readHashes := readHashes[path := readHashes[path][id := hash]];
      RefreshWatch(path, disk);
    }

    method UpdateConflictState(path: string, newHash: string, author: string, disk: Disk) returns (notify: seq<string>)
      modifies this
      ensures Now() == Change(old(Now()), path, newHash, disk)
      ensures notify == Notices(old(Now()), path, newHash, author)
    {
      var readers, stale := SettleReaders(if path in readHashes then readHashes[path] else map[], newHash, author);
      notify := stale;
      readHashes := readHashes[path := readers];
      RefreshWatch(path, disk);
    }

    // The locked part of one round of poller_loop.
    method PollScan(disk: Disk) returns (changed: seq<string>)
      modifies this
      ensures Now() == Scan(old(Now()), disk)
      ensures changed == Changed(old(Now()), disk)
    {
      var watches, paths := ScanWatches(fileState, disk);
      fileState := watches;
      changed := paths;
    }
  }

  // The loop of update_conflict_state_locked.
  method SettleReaders(before: map<string, string>, hash: string, author: string)
    returns (readers: map<string, string>, notify: seq<string>)
    ensures readers == AllKnow(before, hash) && notify == StaleOf(SortedKeys(before.Keys), before, hash, author)
  {
    readers := before;
    var ids := SortedKeys(before.Keys);
    SortedKeysDistinct(before.Keys);
    notify := [];
    hide SortedKeys, Distinct;
    for i := 0 to |ids|
      invariant readers == Settled(ids[..i], before, hash) && notify == StaleOf(ids[..i], before, hash, author)
    {
      assert ids[..i + 1][..i] == ids[..i] && ids[i] in ids;
      SettledAt(ids, before, hash, i);
      var had := readers[ids[i]];
      if ids[i] != author && had != hash { notify := notify + [ids[i]]; }
      readers := readers[ids[i] := hash];
    }
    assert ids[..|ids|] == ids;
    SettledAll(ids, before, hash);
  }

  // The loop of poller_loop over the watched files.
  method ScanWatches(before: map<string, Watch>, disk: Disk) returns (watches: map<string, Watch>, changed: seq<string>)
    ensures watches == map p | p in before :: Looked(before[p], FileAt(disk, p))
    ensures changed == ChangedOf(SortedKeys(before.Keys), before, disk)
  {
    watches := before;
    var paths := SortedKeys(before.Keys);
    SortedKeysDistinct(before.Keys);
    changed := [];
    hide SortedKeys, Distinct, Looked, Reports;
    for i := 0 to |paths|
      invariant watches == LookedAll(paths[..i], before, disk) && changed == ChangedOf(paths[..i], before, disk)
    {
      assert paths[..i + 1][..i] == paths[..i] && paths[i] in paths;
      LookedAt(paths, before, disk, i);
      var looked, report := LookAt(watches[paths[i]], FileAt(disk, paths[i]));
      watches := watches[paths[i] := looked];
      if report { changed := changed + [paths[i]]; }
    }
    assert paths[..|paths|] == paths;
    LookedIsScan(paths, before, disk);
  }

  // The body of the poller's loop: the watch after the look, and whether to announce a change.
  method LookAt(wf: Watch, f: File) returns (looked: Watch, report: bool)
    ensures looked == Looked(wf, f) && report == Reports(wf, f)
  {
    looked, report := wf, false;
    if f.Missing? {
      if wf.exists_ { looked := Watch(false, 0, 0, ""); }
    } else {
      var dirty := !wf.exists_ || f.mtime != wf.mtime || f.size != wf.size;
      looked := Watch(true, f.mtime, f.size, if dirty || wf.hash == "" then f.hash else wf.hash);
      report := wf.hash != "" && looked.hash != "" && looked.hash != wf.hash;
    }
  }

  function Settled(ids: seq<string>, readers: map<string, string>, hash: string): map<string, string> {
    if ids == [] then readers else Settled(ids[..|ids| - 1], readers, hash)[ids[|ids| - 1] := hash]
  }

  lemma {:induction false} SettledAre(ids: seq<string>, readers: map<string, string>, hash: string)
    requires forall i :: 0 <= i < |ids| ==> ids[i] in readers
    ensures Settled(ids, readers, hash) == map id | id in readers :: if id in ids then hash else readers[id]
  {
    if ids != [] {
      var n := |ids| - 1;
      SettledAre(ids[..n], readers, hash);
      assert ids == ids[..n] + [ids[n]];
    }
  }

  lemma SettledAt(ids: seq<string>, readers: map<string, string>, hash: string, i: nat)
    requires i < |ids| && Distinct(ids) && forall j :: 0 <= j < |ids| ==> ids[j] in readers
    ensures ids[i] in Settled(ids[..i], readers, hash) && Settled(ids[..i], readers, hash)[ids[i]] == readers[ids[i]]
  {
    SettledAre(ids[..i], readers, hash);
    hide Settled;
    assert ids[i] !in ids[..i];
  }

  lemma SettledAll(ids: seq<string>, readers: map<string, string>, hash: string)
    requires forall id :: id in ids <==> id in readers
    ensures Settled(ids, readers, hash) == AllKnow(readers, hash)
  {
    assert forall i :: 0 <= i < |ids| ==> ids[i] in ids;
    SettledAre(ids, readers, hash);
    hide Settled;
  }

  function LookedAll(paths: seq<string>, watches: map<string, Watch>, disk: Disk): map<string, Watch>
  {
    if paths == [] then watches
    else
      var path, m := paths[|paths| - 1], LookedAll(paths[..|paths| - 1], watches, disk);
      if path in watches then m[path := Looked(watches[path], FileAt(disk, path))] else m
  }

  lemma {:induction false} LookedAre(paths: seq<string>, watches: map<string, Watch>, disk: Disk)
    requires forall i :: 0 <= i < |paths| ==> paths[i] in watches
    ensures LookedAll(paths, watches, disk)
            == map p | p in watches :: if p in paths then Looked(watches[p], FileAt(disk, p)) else watches[p]
  {
    if paths != [] {
      var n := |paths| - 1;
      LookedAre(paths[..n], watches, disk);
      assert paths == paths[..n] + [paths[n]];
      hide Looked, FileAt;
    }
  }

  lemma LookedAt(paths: seq<string>, watches: map<string, Watch>, disk: Disk, i: nat)
    requires i < |paths| && Distinct(paths) && forall j :: 0 <= j < |paths| ==> paths[j] in watches
    ensures paths[i] in LookedAll(paths[..i], watches, disk)
    ensures LookedAll(paths[..i], watches, disk)[paths[i]] == watches[paths[i]]
  {
    LookedAre(paths[..i], watches, disk);
    hide LookedAll, Looked;
    assert paths[i] !in paths[..i];
  }

  lemma LookedIsScan(paths: seq<string>, watches: map<string, Watch>, disk: Disk)
    requires forall p :: p in paths <==> p in watches
    ensures LookedAll(paths, watches, disk) == map p | p in watches :: Looked(watches[p], FileAt(disk, p))
  {
    assert forall i :: 0 <= i < |paths| ==> paths[i] in paths;
    LookedAre(paths, watches, disk);
    hide LookedAll, Looked;
  }

  // ---- what an agent knows ----

  datatype Step =
    | Read(id: string, path: string, hash: string, disk: Disk)
    | Write(path: string, hash: string, author: string, disk: Disk)   // author POLLER after a scan
    | Leave(id: string)
    | Poll(disk: Disk)

  function Take(t: Tracker, s: Step): Tracker {
    match s
    case Read(id, path, hash, disk) => Register(t, id, path, hash, disk)
    case Write(path, hash, _, disk) => Change(t, path, hash, disk)
    case Leave(id) => Forget(t, id)
    case Poll(disk) => Scan(t, disk)
  }

  function TakeAll(steps: seq<Step>): Tracker {
    if steps == [] then Tracker(map[], map[]) else Take(TakeAll(steps[..|steps| - 1]), steps[|steps| - 1])
  }

  // The notices a step sends, after the steps before it.
  function SentBy(before: seq<Step>, s: Step): seq<string> {
    if s.Write? then Notices(TakeAll(before), s.path, s.hash, s.author) else []
  }

  // The last contents of `path` that agent `id` has read, has written as a reader of the file,
  // or has been sent a notice about, since it last left.
  function LastKnown(steps: seq<Step>, path: string, id: string): Option<string> {
    if steps == [] then None
    else
      var before, s := steps[..|steps| - 1], steps[|steps| - 1];
      var last := LastKnown(before, path, id);
      match s
      case Read(i, p, hash, _) => if i == id && p == path then Some(hash) else last
      case Write(p, hash, author, _) =>
        if p == path && ((author == id && last.Some?) || id in SentBy(before, s)) then Some(hash) else last
      case Leave(i) => if i == id then None else last
      case Poll(_) => last
  }

  function Recorded(t: Tracker, path: string, id: string): Option<string> {
    if path in t.known && id in t.known[path] then Some(t.known[path][id]) else None
  }

  lemma {:induction false} StaleAre(ids: seq<string>, readers: map<string, string>, hash: string, author: string)
    requires forall i :: 0 <= i < |ids| ==> ids[i] in readers
    ensures forall id :: id in StaleOf(ids, readers, hash, author) <==> id in ids && id != author && readers[id] != hash
    ensures Distinct(ids) ==> Distinct(StaleOf(ids, readers, hash, author))
  {
    if ids != [] {
      var n := |ids| - 1;
      StaleAre(ids[..n], readers, hash, author);
      assert ids == ids[..n] + [ids[n]];
      var stale := StaleOf(ids[..n], readers, hash, author);
      assert forall i :: 0 <= i < |stale| ==> stale[i] in stale;
    }
  }

  // The notices of a change go, once each, to exactly the readers of the file, other than its
  // author, who last knew something else.
  lemma NoticesGoToStaleReaders(t: Tracker, path: string, hash: string, author: string)
    ensures Distinct(Notices(t, path, hash, author))
    ensures forall id :: id in Notices(t, path, hash, author)
              <==> id != author && Recorded(t, path, id).Some? && Recorded(t, path, id) != Some(hash)
  {
    var readers := ReadersOf(t, path);
    SortedKeysDistinct(readers.Keys);
    StaleAre(SortedKeys(readers.Keys), readers, hash, author);
    hide StaleOf, SortedKeys, Distinct;
  }

  // At every point of every run, the recorded hash of an agent for a file is the last it knew.
  lemma {:induction false} RecordedIsLastKnown(steps: seq<Step>, path: string, id: string)
    ensures Recorded(TakeAll(steps), path, id) == LastKnown(steps, path, id)
  {
    if steps != [] {
      var before, s := steps[..|steps| - 1], steps[|steps| - 1];
      RecordedIsLastKnown(before, path, id);
      var t := TakeAll(before);
      if s.Write? { NoticesGoToStaleReaders(t, s.path, s.hash, s.author); }
      hide Notices, Watching, Looked, FileAt;
    }
  }

  // A notice never goes to the author of the change, and always brings news.
  lemma NoticesAreNews(steps: seq<Step>, s: Step, id: string)
    requires s.Write? && id in SentBy(steps, s)
    ensures id != s.author
    ensures LastKnown(steps, s.path, id).Some? && LastKnown(steps, s.path, id) != Some(s.hash)
  {
    NoticesGoToStaleReaders(TakeAll(steps), s.path, s.hash, s.author);
    RecordedIsLastKnown(steps, s.path, id);
  }

  // After a change every reader knows its contents.
  lemma ChangeSettles(steps: seq<Step>, path: string, hash: string, author: string, disk: Disk, id: string)
    ensures LastKnown(steps + [Write(path, hash, author, disk)], path, id)
            == if LastKnown(steps, path, id).Some? then Some(hash) else None
  {
    var s := Write(path, hash, author, disk);
    assert (steps + [s])[..|steps|] == steps;
    NoticesGoToStaleReaders(TakeAll(steps), path, hash, author);
    RecordedIsLastKnown(steps, path, id);
    hide Notices, TakeAll;
  }

  // ---- the poller ----

  lemma {:induction false} ChangedAre(paths: seq<string>, watches: map<string, Watch>, disk: Disk)
    requires forall i :: 0 <= i < |paths| ==> paths[i] in watches
    ensures forall p :: p in ChangedOf(paths, watches, disk) <==> p in paths && Reports(watches[p], FileAt(disk, p))
  {
    if paths != [] {
      var n := |paths| - 1;
      ChangedAre(paths[..n], watches, disk);
      assert paths == paths[..n] + [paths[n]];
      hide Reports;
    }
  }

  // The poller announces a watched file exactly when it was and is readable, its time or size
  // has changed, and its contents differ from those last looked at.
  lemma PollerAnnouncesIff(t: Tracker, disk: Disk, path: string)
    ensures path in Changed(t, disk)
            <==> && path in t.watches
                 && var w, f := t.watches[path], FileAt(disk, path);
                    && f.Present? && w.hash != "" && f.hash != "" && f.hash != w.hash
                    && (!w.exists_ || f.mtime != w.mtime || f.size != w.size)
  {
    ChangedAre(SortedKeys(t.watches.Keys), t.watches, disk);
  }

  // A poll after a reported write, with the file as the write left it, does not announce it.
  lemma PollAfterWriteIsQuiet(t: Tracker, path: string, hash: string, disk: Disk, later: Disk)
    requires FileAt(later, path) == FileAt(disk, path)
    ensures path !in Changed(Change(t, path, hash, disk), later)
    ensures Scan(Change(t, path, hash, disk), later).watches[path] == Change(t, path, hash, disk).watches[path]
  {
    PollerAnnouncesIff(Change(t, path, hash, disk), later, path);
    hide Changed;
  }

  // A second poll of an unchanged disk announces nothing.
  lemma SecondPollIsQuiet(t: Tracker, disk: Disk)
    ensures Changed(Scan(t, disk), disk) == []
  {
    var again := Changed(Scan(t, disk), disk);
    if again != [] {
      assert again[0] in again;
      PollerAnnouncesIff(Scan(t, disk), disk, again[0]);
    }
  }

  // A stale reader is told by a poll exactly when the poller's own view of the file was stale
  // too: someone else's read in between has already moved that view on, and then nobody is told.
  lemma PollTellsIff(t: Tracker, disk: Disk, path: string, id: string)
    requires id != POLLER && path in t.watches && FileAt(disk, path).Present? && FileAt(disk, path).hash != ""
    requires Recorded(t, path, id).Some? && Recorded(t, path, id).value != FileAt(disk, path).hash
    ensures var f, w := FileAt(disk, path), t.watches[path];
            (path in Changed(t, disk) && id in Notices(Scan(t, disk), path, f.hash, POLLER))
            <==> w.hash != "" && w.hash != f.hash && (!w.exists_ || f.mtime != w.mtime || f.size != w.size)
  {
    PollerAnnouncesIff(t, disk, path);
    NoticesGoToStaleReaders(Scan(t, disk), path, FileAt(disk, path).hash, POLLER);
    hide Changed, Notices;
  }

  const AT_FIRST: Disk := map["f" := Present(1, 1, "old")]
  const LATER: Disk := map["f" := Present(2, 1, "new")]

  // Agent a reads, the file changes, agent b reads: the next poll tells a nothing.
  lemma ReadHidesChange()
    ensures var steps := [Read("a", "f", "old", AT_FIRST), Read("b", "f", "new", LATER)];
            && LastKnown(steps, "f", "a") == Some("old") && FileAt(LATER, "f").hash == "new"
            && Changed(TakeAll(steps), LATER) == []
  {
    var one := Read("a", "f", "old", AT_FIRST);
    var steps := [one, Read("b", "f", "new", LATER)];
    assert steps[..1] == [one] && [one][..0] == [];
    var t := Register(Tracker(map[], map[]), "a", "f", "old", AT_FIRST);
    assert TakeAll([one]) == t;
    var u := Register(t, "b", "f", "new", LATER);
    assert TakeAll(steps) == u;
    assert LastKnown([one], "f", "a") == Some("old");
    hide TakeAll, LastKnown;
    QuietIfSeen(u, LATER);
  }

  lemma QuietIfSeen(t: Tracker, disk: Disk)
    requires forall p :: p in t.watches ==> t.watches[p] == Watching(FileAt(disk, p))
    ensures Changed(t, disk) == []
  {
    var changed := Changed(t, disk);
    if changed != [] {
      assert changed[0] in changed;
      PollerAnnouncesIff(t, disk, changed[0]);
    }
  }

  // ---- the poller's view ----

  // Looking again brings the view up to date unless the contents have changed under the same
  // time and size.
  lemma LookIsCurrentIff(f: File, g: File)
    ensures Looked(Watching(f), g) == Watching(g)
            <==> !(f.Present? && g.Present? && f.mtime == g.mtime && f.size == g.size && f.hash != "" && f.hash != g.hash)
  {
  }

  // The file as the last step that looked at it found it: a read, a reported change, or a poll
  // of a file already watched.
  function LastLook(steps: seq<Step>, path: string): Option<File> {
    if steps == [] then None
    else
      var last, s := LastLook(steps[..|steps| - 1], path), steps[|steps| - 1];
      match s
      case Read(_, p, _, disk) => if p == path then Some(FileAt(disk, path)) else last
      case Write(p, _, _, disk) => if p == path then Some(FileAt(disk, path)) else last
      case Leave(_) => last
      case Poll(disk) => if last.Some? then Some(FileAt(disk, path)) else None
  }

  // Every change of the file's contents shows in its time or its size.
  predicate ChangesShow(steps: seq<Step>, path: string) {
    steps == []
    || (var before, s := steps[..|steps| - 1], steps[|steps| - 1];
        && ChangesShow(before, path)
        && (s.Poll? && LastLook(before, path).Some? ==>
              var f, g := LastLook(before, path).value, FileAt(s.disk, path);
              !(f.Present? && g.Present? && f.mtime == g.mtime && f.size == g.size && f.hash != "" && f.hash != g.hash)))
  }

  // Then, at every point of every run, the poller's view of a file is the file as last looked at.
  lemma {:induction false} ViewIsLastLook(steps: seq<Step>, path: string)
    requires ChangesShow(steps, path)
    ensures path in TakeAll(steps).watches <==> LastLook(steps, path).Some?
    ensures LastLook(steps, path).Some? ==> TakeAll(steps).watches[path] == Watching(LastLook(steps, path).value)
  {
    if steps != [] {
      var before, s := steps[..|steps| - 1], steps[|steps| - 1];
      ViewIsLastLook(before, path);
      hide Looked, Watching, FileAt;
      if s.Poll? && LastLook(before, path).Some? {
        LookIsCurrentIff(LastLook(before, path).value, FileAt(s.disk, path));
      }
    }
  }
}
