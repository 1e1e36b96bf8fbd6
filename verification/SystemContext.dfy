// src/system/systemcontext.h: independently refreshable context sources whose observed values
// are told to the model as text, incrementally, against a snapshot of what it was told before.
module SystemContext {
  import opened Bytes
  import opened Ordering

  // A C++ exception leaves as Threw.
  datatype Outcome<+T> = Done(value: T) | Threw(what: string)

  datatype SourceSnapshot<V> = SourceSnapshot(value: V, removed: Option<string>)

  type Snapshot<V> = map<string, SourceSnapshot<V>>

  datatype Generation<V> = Generation(baseline: string, snapshot: Snapshot<V>)

  datatype Rendered<V> = Rendered(text: string, snapshot: SourceSnapshot<V>)

  // Rendering is pure, so the result of the lazy closure stands for the closure.
  datatype Compared<V> = Incompatible | Same | Changed(render: Outcome<Rendered<V>>)

  datatype Loaded<!V> = Loaded(baseline: Outcome<Rendered<V>>, compare: V -> Compared<V>)

  datatype Entry<!V> = Available(key: string, loaded: Loaded<V>) | Unavailable(key: string)

  datatype Source<!A, !V> = Source(
    key: string,
    load: Option<A>,
    baseline: A -> string,
    update: (A, A) -> string,
    removed: Option<A -> Option<string>>,
    toJson: A -> V,
    fromJson: V -> Option<A>,
    equivalent: (A, A) -> bool)

  datatype InitResult<V> = Ready(generation: Generation<V>) | Blocked(keys: seq<string>)

  datatype ReconcileResult<V> =
    | Unchanged(snapshot: Snapshot<V>)
    | Updated(text: string, snapshot: Snapshot<V>)
    | ReplacementReady(generation: Generation<V>)
    | ReplacementBlocked
    | Replace

  // ---- make ----

  function RequireText(key: string, kind: string, text: string): Outcome<string> {
    if text == "" then Threw("System context source " + key + " rendered an empty " + kind) else Done(text)
  }

  function MakeSnapshot<A, V>(source: Source<A, V>, value: A): SourceSnapshot<V> {
    SourceSnapshot(source.toJson(value), if source.removed.Some? then source.removed.value(value) else None)
  }

  function RenderAs<A, V>(source: Source<A, V>, kind: string, text: string, value: A): Outcome<Rendered<V>> {
    match RequireText(source.key, kind, text)
    case Done(t) => Done(Rendered(t, MakeSnapshot(source, value)))
    case Threw(what) => Threw(what)
  }

  function Compare<A, V>(source: Source<A, V>, value: A, previous: V): Compared<V> {
    match source.fromJson(previous)
    case None => Incompatible
    case Some(decoded) =>
      if source.equivalent(decoded, value) then Same
      else Changed(RenderAs(source, "update", source.update(decoded, value), value))
  }

  // One source, observed.
  function Make<A, V>(source: Source<A, V>): Entry<V> {
    match source.load
    case None => Unavailable(source.key)
    case Some(value) =>
      Available(source.key,
                Loaded(RenderAs(source, "baseline", source.baseline(value), value),
                       (previous: V) => Compare(source, value, previous)))
  }

  // ---- what the model is told ----

  datatype Note<V> =
    | Baseline(key: string, text: string, now: SourceSnapshot<V>)
    | Update(key: string, text: string, was: SourceSnapshot<V>, now: SourceSnapshot<V>)
    | Removal(key: string, text: string, was: SourceSnapshot<V>)

  // What the model holds after one more note.
  function Hear<V>(told: Snapshot<V>, note: Note<V>): Snapshot<V> {
    match note
    case Baseline(key, _, now) => told[key := now]
    case Update(key, _, _, now) => told[key := now]
    case Removal(key, _, _) => told - {key}
  }

  // The note makes sense to a model that holds `told`: a baseline is news, an update starts from
  // the value last told, a removal quotes the text stored with the value last told.
  predicate Apt<V(==)>(told: Snapshot<V>, note: Note<V>) {
    match note
    case Baseline(key, _, _) => key !in told
    case Update(key, _, was, _) => key in told && told[key] == was
    case Removal(key, text, was) => key in told && told[key] == was && was.removed == Some(text)
  }

  function Replay<V>(told: Snapshot<V>, notes: seq<Note<V>>): Snapshot<V> {
    if notes == [] then told
    else Hear(Replay(told, notes[..|notes| - 1]), notes[|notes| - 1])
  }

  predicate AllApt<V(==)>(told: Snapshot<V>, notes: seq<Note<V>>) {
    notes == []
    || (AllApt(told, notes[..|notes| - 1]) && Apt(Replay(told, notes[..|notes| - 1]), notes[|notes| - 1]))
  }

  lemma ReplaySnoc<V>(told: Snapshot<V>, notes: seq<Note<V>>, note: Note<V>)
    ensures Replay(told, notes + [note]) == Hear(Replay(told, notes), note)
    ensures AllApt(told, notes + [note]) <==> AllApt(told, notes) && Apt(Replay(told, notes), note)
  {
    assert (notes + [note])[..|notes|] == notes;
  }

  function Texts<V>(notes: seq<Note<V>>): (ts: seq<string>)
    ensures |ts| == |notes|
  {
    if notes == [] then [] else Texts(notes[..|notes| - 1]) + [notes[|notes| - 1].text]
  }

  // render: the parts with a blank line between them.
  function Render(parts: seq<string>): string {
    if parts == [] then ""
    else if |parts| == 1 then parts[0]
    else Render(parts[..|parts| - 1]) + "\n\n" + parts[|parts| - 1]
  }

  // Where part `k` begins when each is followed by two characters.
  function Offset(parts: seq<string>, k: nat): nat
    requires k <= |parts|
  {
    if k == 0 then 0 else Offset(parts, k - 1) + |parts[k - 1]| + 2
  }

  predicate HasAt(out: string, at: nat, part: string) { at + |part| <= |out| && out[at..at + |part|] == part }

  predicate PartAt(out: string, parts: seq<string>, k: nat)
    requires k < |parts|
  {
    HasAt(out, Offset(parts, k), parts[k])
  }

  // A blank line before part `k`.
  predicate GapAt(out: string, parts: seq<string>, k: nat)
    requires k < |parts|
  {
    Offset(parts, k) >= 2 && HasAt(out, Offset(parts, k) - 2, "\n\n")
  }

  // Every part at its place, a blank line between them, and nothing else.
  predicate LaidOut(out: string, parts: seq<string>) {
    && |out| == (if parts == [] then 0 else Offset(parts, |parts|) - 2)
    && (forall k :: 0 <= k < |parts| ==> PartAt(out, parts, k))
    && (forall k :: 0 < k < |parts| ==> GapAt(out, parts, k))
  }

  lemma {:induction false} OffsetOfFront(parts: seq<string>, last: string, k: nat)
    requires k <= |parts|
    ensures Offset(parts + [last], k) == Offset(parts, k)
    ensures k > 0 ==> Offset(parts, k) >= 2
  {
    if k > 0 { OffsetOfFront(parts, last, k - 1); }
  }

  lemma HasAtMore(out: string, more: string, at: nat, part: string)
    requires HasAt(out, at, part)
    ensures HasAt(out + more, at, part)
  {
    assert (out + more)[at..at + |part|] == out[at..at + |part|];
  }

  lemma FrontStays(out: string, more: string, parts: seq<string>, last: string, k: nat)
    requires k < |parts|
    ensures PartAt(out, parts, k) ==> PartAt(out + more, parts + [last], k)
    ensures GapAt(out, parts, k) ==> GapAt(out + more, parts + [last], k)
  {
    OffsetOfFront(parts, last, k);
    assert (parts + [last])[k] == parts[k];
    hide HasAt, Offset;
    if PartAt(out, parts, k) { HasAtMore(out, more, Offset(parts, k), parts[k]); }
    if GapAt(out, parts, k) { HasAtMore(out, more, Offset(parts, k) - 2, "\n\n"); }
  }

  lemma LastPlaced(out: string, parts: seq<string>, last: string)
    requires parts != [] && |out| == Offset(parts, |parts|) - 2
    ensures var all, text := parts + [last], out + ("\n\n" + last);
            |text| == Offset(all, |all|) - 2 && PartAt(text, all, |parts|) && GapAt(text, all, |parts|)
  {
    OffsetOfFront(parts, last, |parts|);
  }

  lemma LaidOutSnoc(out: string, parts: seq<string>, last: string, all: seq<string>, text: string)
    requires LaidOut(out, parts) && parts != [] && all == parts + [last] && text == out + ("\n\n" + last)
    ensures LaidOut(text, all)
  {
    hide PartAt, GapAt, Offset;
    LastPlaced(out, parts, last);
    forall k | 0 <= k < |all| ensures PartAt(text, all, k) {
      if k < |parts| { FrontStays(out, "\n\n" + last, parts, last, k); }
    }
    forall k | 0 < k < |all| ensures GapAt(text, all, k) {
      if k < |parts| { FrontStays(out, "\n\n" + last, parts, last, k); }
    }
  }

  lemma {:induction false} RenderLaysOut(parts: seq<string>)
    ensures LaidOut(Render(parts), parts)
  {
    if |parts| == 1 {
      OnePart(parts);
    } else if parts != [] {
      var init, last := parts[..|parts| - 1], parts[|parts| - 1];
      RenderLaysOut(init);
      assert parts == init + [last];
      ConcatAssoc(Render(init), "\n\n", last);
      hide LaidOut;
      LaidOutSnoc(Render(init), init, last, parts, Render(parts));
    }
  }

  lemma OnePart(parts: seq<string>)
    requires |parts| == 1
    ensures LaidOut(parts[0], parts)
  {
    assert Offset(parts, 1) == |parts[0]| + 2 && Offset(parts, 0) == 0;
  }

  method RenderParts(parts: seq<string>) returns (out: string)
    ensures out == Render(parts)
    ensures LaidOut(out, parts)
  {
    RenderLaysOut(parts);
    hide LaidOut;
    out := "";
    for i := 0 to |parts|
      invariant out == Render(parts[..i])
    {
      assert parts[..i + 1][..i] == parts[..i];
      if i > 0 { out := out + "\n\n"; }
      out := out + parts[i];
    }
    assert parts[..|parts|] == parts;
  }

  // ---- the notes a reconciliation makes ----

  ghost predicate DistinctKeys<V>(entries: seq<Entry<V>>) {
    forall i, j :: 0 <= i < j < |entries| ==> entries[i].key != entries[j].key
  }

  function KeysOf<V>(entries: seq<Entry<V>>): set<string> {
    set i | 0 <= i < |entries| :: entries[i].key
  }

  // combine: the sources of several contexts, refused when a key occurs twice.
  method Combine<V>(contexts: seq<seq<Entry<V>>>) returns (r: Outcome<seq<Entry<V>>>)
    ensures r.Done? <==> DistinctKeys(Flatten(contexts))
    ensures r.Done? ==> r.value == Flatten(contexts)
  {
    var sources: seq<Entry<V>> := [];
    var seen := {};
    assert contexts[..0] == [];
    for i := 0 to |contexts|
      invariant sources == Flatten(contexts[..i])
      invariant seen == KeysOf(sources) && DistinctKeys(sources)
    {
      var context := contexts[i];
      assert sources + context[..0] == Flatten(contexts[..i]) + context[..0];
      for j := 0 to |context|
        invariant sources == Flatten(contexts[..i]) + context[..j]
        invariant seen == KeysOf(sources) && DistinctKeys(sources)
      {
        hide KeysOf, DistinctKeys, Flatten;
        if context[j].key in seen {
          DuplicateFound(contexts, i, j);
          return Threw("Duplicate system context key: " + context[j].key);
        }
        seen := seen + {context[j].key};
        KeysOfSnoc(sources, context[j]);
        DistinctSnoc(sources, context[j]);
        ConcatAssoc(Flatten(contexts[..i]), context[..j], [context[j]]);
        assert context[..j + 1] == context[..j] + [context[j]];
        sources := sources + [context[j]];
      }
      assert context[..|context|] == context;
      assert contexts[..i + 1] == contexts[..i] + [context];
      FlattenSnoc(contexts[..i], context);
    }
    assert contexts[..|contexts|] == contexts;
    return Done(sources);
  }

  lemma DuplicateFound<V>(contexts: seq<seq<Entry<V>>>, i: nat, j: nat)
    requires i < |contexts| && j < |contexts[i]|
    requires contexts[i][j].key in KeysOf(Flatten(contexts[..i]) + contexts[i][..j])
    ensures !DistinctKeys(Flatten(contexts))
  {
    var sources := Flatten(contexts[..i]) + contexts[i][..j];
    FlattenReaches(contexts, i, j);
    var k :| 0 <= k < |sources| && sources[k].key == contexts[i][j].key;
    hide Flatten;
    var all := Flatten(contexts);
    assert all[k] == sources[k] && all[|sources|] == contexts[i][j];
  }

  lemma DistinctSnoc<V>(entries: seq<Entry<V>>, e: Entry<V>)
    requires DistinctKeys(entries) && e.key !in KeysOf(entries)
    ensures DistinctKeys(entries + [e])
  {
    assert forall i :: 0 <= i < |entries| ==> entries[i].key in KeysOf(entries);
  }

  lemma KeysOfSnoc<V>(entries: seq<Entry<V>>, e: Entry<V>)
    ensures KeysOf(entries + [e]) == KeysOf(entries) + {e.key}
  {
    var all := entries + [e];
    assert forall i :: 0 <= i < |entries| ==> all[i] == entries[i];
    assert all[|entries|] == e;
    forall k | k in KeysOf(entries) ensures k in KeysOf(all) {
      var i :| 0 <= i < |entries| && entries[i].key == k;
      assert all[i].key == k;
    }
  }

  lemma FlattenReaches<T>(parts: seq<seq<T>>, i: nat, j: nat)
    requires i < |parts| && j < |parts[i]|
    ensures Flatten(parts[..i]) + parts[i][..j] + [parts[i][j]] <= Flatten(parts)
  {
    assert parts == parts[..i] + ([parts[i]] + parts[i + 1..]);
    FlattenAppend(parts[..i], [parts[i]] + parts[i + 1..]);
    assert ([parts[i]] + parts[i + 1..])[1..] == parts[i + 1..];
    assert parts[i] == parts[i][..j] + [parts[i][j]] + parts[i][j + 1..];
  }

  // The note for one registered source: none while it is unavailable or unchanged.
  function EntryNote<V>(e: Entry<V>, previous: Snapshot<V>): (r: Outcome<seq<Note<V>>>)
    ensures r.Done? ==> |r.value| <= 1 && forall n :: n in r.value ==> n.key == e.key && !n.Removal?
  {
    if e.Unavailable? then Done([])
    else if e.key !in previous then
      match e.loaded.baseline
      case Done(r) => Done([Baseline(e.key, r.text, r.snapshot)])
      case Threw(what) => Threw(what)
    else
      match e.loaded.compare(previous[e.key].value)
      case Changed(Done(r)) => Done([Update(e.key, r.text, previous[e.key], r.snapshot)])
      case Changed(Threw(what)) => Threw(what)
      case _ => Done([])
  }

  function EntryNotes<V>(entries: seq<Entry<V>>, previous: Snapshot<V>): Outcome<seq<Note<V>>> {
    if entries == [] then Done([])
    else
      match EntryNotes(entries[..|entries| - 1], previous)
      case Threw(what) => Threw(what)
      case Done(notes) =>
        match EntryNote(entries[|entries| - 1], previous)
        case Threw(what) => Threw(what)
        case Done(more) => Done(notes + more)
  }

  predicate Removable<V>(keys: seq<string>, registered: set<string>, previous: Snapshot<V>) {
    forall i :: 0 <= i < |keys|
      ==> keys[i] in previous && (keys[i] !in registered ==> previous[keys[i]].removed.Some?)
  }

  function Gone(keys: seq<string>, registered: set<string>): set<string> {
    set k | k in keys && k !in registered
  }

  // One removal for each of `keys` that is no longer registered.
  function RemovalNotes<V>(keys: seq<string>, registered: set<string>, previous: Snapshot<V>): seq<Note<V>>
    requires Removable(keys, registered, previous)
  {
    if keys == [] then []
    else
      var k := keys[|keys| - 1];
      RemovalNotes(keys[..|keys| - 1], registered, previous)
      + if k in registered then [] else [Removal(k, previous[k].removed.value, previous[k])]
  }

  // A stored value no longer decodes, or a source without a removal text is gone.
  ghost predicate MustReplace<V>(entries: seq<Entry<V>>, previous: Snapshot<V>) {
    || (exists i :: 0 <= i < |entries| && Stale(entries[i], previous))
    || (exists k :: k in previous && k !in KeysOf(entries) && previous[k].removed.None?)
  }

  predicate Stale<V>(e: Entry<V>, previous: Snapshot<V>) {
    e.Available? && e.key in previous && e.loaded.compare(previous[e.key].value).Incompatible?
  }

  lemma AllStoredRemovable<V>(entries: seq<Entry<V>>, previous: Snapshot<V>)
    requires !MustReplace(entries, previous)
    ensures Removable(SortedKeys(previous.Keys), KeysOf(entries), previous)
  {
    var keys := SortedKeys(previous.Keys);
    assert forall i :: 0 <= i < |keys| ==> keys[i] in keys;
  }

  ghost function Notes<V>(entries: seq<Entry<V>>, previous: Snapshot<V>): Outcome<seq<Note<V>>>
    requires !MustReplace(entries, previous)
  {
    match EntryNotes(entries, previous)
    case Threw(what) => Threw(what)
    case Done(notes) =>
      AllStoredRemovable(entries, previous);
      Done(notes + RemovalNotes(SortedKeys(previous.Keys), KeysOf(entries), previous))
  }

  // ---- properties of the notes ----

  lemma {:induction false} ReplayAppend<V>(told: Snapshot<V>, a: seq<Note<V>>, b: seq<Note<V>>)
    ensures Replay(told, a + b) == Replay(Replay(told, a), b)
    ensures AllApt(told, a + b) <==> AllApt(told, a) && AllApt(Replay(told, a), b)
  {
    if b == [] {
      assert a + b == a;
    } else {
      var n := |b| - 1;
      ReplayAppend(told, a, b[..n]);
      ReplaySnoc(told, a + b[..n], b[n]);
      assert a + b == (a + b[..n]) + [b[n]];
    }
  }

  function Only<V>(s: Snapshot<V>, keys: set<string>): Snapshot<V> {
    map k | k in s && k in keys :: s[k]
  }

  ghost predicate AgreeOn<V>(a: Snapshot<V>, b: Snapshot<V>, k: string) {
    (k in a <==> k in b) && (k in a && k in b ==> a[k] == b[k])
  }

  lemma EntryNotesSnoc<V>(front: seq<Entry<V>>, e: Entry<V>, previous: Snapshot<V>)
    ensures EntryNotes(front + [e], previous).Done?
            <==> EntryNotes(front, previous).Done? && EntryNote(e, previous).Done?
    ensures EntryNotes(front + [e], previous).Done?
            ==> EntryNotes(front + [e], previous).value
                == EntryNotes(front, previous).value + EntryNote(e, previous).value
    ensures EntryNotes(front, previous).Threw? ==> EntryNotes(front + [e], previous) == EntryNotes(front, previous)
    ensures EntryNotes(front, previous).Done? && EntryNote(e, previous).Threw?
            ==> EntryNotes(front + [e], previous) == Threw(EntryNote(e, previous).what)
  {
    assert (front + [e])[..|front|] == front && (front + [e])[|front|] == e;
    hide EntryNote;
  }

  // What a model holds after at most one note about `e`.
  lemma ReplayOne<V>(e: Entry<V>, previous: Snapshot<V>, told: Snapshot<V>)
    requires EntryNote(e, previous).Done?
    ensures forall k :: k != e.key ==> AgreeOn(Replay(told, EntryNote(e, previous).value), told, k)
    ensures EntryNote(e, previous).value == [] ==> Replay(told, EntryNote(e, previous).value) == told
    ensures EntryNote(e, previous).value != []
            ==> var n := EntryNote(e, previous).value[0];
                !n.Removal? && n.key == e.key
                && Replay(told, EntryNote(e, previous).value) == told[e.key := n.now]
    ensures AgreeOn(told, previous, e.key) ==> AllApt(told, EntryNote(e, previous).value)
  {
    var notes := EntryNote(e, previous).value;
    if notes != [] {
      var n := notes[0];
      assert n in notes && (AgreeOn(told, previous, e.key) ==> Apt(told, n));
      assert notes == [n];
      hide EntryNote;
      ReplaySingle(told, n);
    }
  }

  lemma ReplaySingle<V>(told: Snapshot<V>, note: Note<V>)
    ensures Replay(told, [note]) == Hear(told, note)
    ensures AllApt(told, [note]) <==> Apt(told, note)
  {
    ReplaySnoc(told, [], note);
    assert [] + [note] == [note];
  }

  // Notes about registered sources leave every other key alone.
  lemma {:induction false} EntryNotesFrame<V>(entries: seq<Entry<V>>, previous: Snapshot<V>, k: string)
    requires EntryNotes(entries, previous).Done? && k !in KeysOf(entries)
    ensures AgreeOn(Replay(previous, EntryNotes(entries, previous).value), previous, k)
  {
    if entries != [] {
      var n := |entries| - 1;
      var front, e := entries[..n], entries[n];
      assert entries == front + [e];
      hide *;
      KeysOfSnoc(front, e);
      EntryNotesSnoc(front, e, previous);
      EntryNotesFrame(front, previous, k);
      ReplayOne(e, previous, Replay(previous, EntryNotes(front, previous).value));
      ReplayAppend(previous, EntryNotes(front, previous).value, EntryNote(e, previous).value);
      AgreeTransitive(Replay(previous, EntryNotes(entries, previous).value),
                      Replay(previous, EntryNotes(front, previous).value), previous, k);
    }
  }

  lemma AgreeTransitive<V>(a: Snapshot<V>, b: Snapshot<V>, c: Snapshot<V>, k: string)
    requires AgreeOn(a, b, k) && AgreeOn(b, c, k)
    ensures AgreeOn(a, c, k)
  {
  }

  // The part of the snapshot that reconcile_observation builds for `e`.
  function Place<V>(built: Snapshot<V>, e: Entry<V>, previous: Snapshot<V>): Snapshot<V>
    requires EntryNote(e, previous).Done?
  {
    var more := EntryNote(e, previous).value;
    if more != [] then
      assert more[0] in more;
      built[e.key := more[0].now]
    else if e.key in previous then built[e.key := previous[e.key]]
    else built
  }

  lemma OnlyPlaced<V>(told: Snapshot<V>, keys: set<string>, e: Entry<V>, previous: Snapshot<V>)
    requires EntryNote(e, previous).Done? && AgreeOn(told, previous, e.key)
    ensures Only(Replay(told, EntryNote(e, previous).value), keys + {e.key})
            == Place(Only(told, keys), e, previous)
  {
    ReplayOne(e, previous, told);
    hide EntryNote, Replay;
  }

  // What the notes about one more source do to the part of the snapshot built so far.
  lemma EntryStep<V>(front: seq<Entry<V>>, e: Entry<V>, previous: Snapshot<V>)
    requires EntryNotes(front, previous).Done? && EntryNote(e, previous).Done? && e.key !in KeysOf(front)
    ensures EntryNotes(front + [e], previous) == Done(EntryNotes(front, previous).value + EntryNote(e, previous).value)
    ensures Only(Replay(previous, EntryNotes(front + [e], previous).value), KeysOf(front + [e]))
            == Place(Only(Replay(previous, EntryNotes(front, previous).value), KeysOf(front)), e, previous)
    ensures AllApt(previous, EntryNotes(front, previous).value)
            ==> AllApt(previous, EntryNotes(front + [e], previous).value)
  {
    hide *;
    var notes, more := EntryNotes(front, previous).value, EntryNote(e, previous).value;
    EntryNotesSnoc(front, e, previous);
    ReplayAppend(previous, notes, more);
    ReplayOne(e, previous, Replay(previous, notes));
    KeysOfSnoc(front, e);
    EntryNotesFrame(front, previous, e.key);
    OnlyPlaced(Replay(previous, notes), KeysOf(front), e, previous);
  }

  lemma {:induction false} RemovalsReplay<V>(keys: seq<string>, registered: set<string>, previous: Snapshot<V>,
                                             told: Snapshot<V>)
    requires Distinct(keys) && Removable(keys, registered, previous)
    requires forall k :: k in previous && k !in registered ==> AgreeOn(told, previous, k)
    ensures AllApt(told, RemovalNotes(keys, registered, previous))
    ensures Replay(told, RemovalNotes(keys, registered, previous)) == told - Gone(keys, registered)
  {
    if keys == [] {
      assert told - Gone(keys, registered) == told;
    } else {
      var n := |keys| - 1;
      var front, k := keys[..n], keys[n];
      assert keys == front + [k];
      assert k !in front by { assert forall j :: 0 <= j < n ==> keys[j] != keys[n]; }
      RemovalsReplay(front, registered, previous, told);
      RemovalNotesSnoc(front, k, registered, previous);
      GoneSnoc(front, k, registered, told);
      hide *;
      if k !in registered {
        RemovalStep(RemovalNotes(front, registered, previous), k, previous, told, Gone(front, registered));
      }
    }
  }

  lemma GoneSnoc<V>(front: seq<string>, k: string, registered: set<string>, told: Snapshot<V>)
    ensures k in registered ==> Gone(front + [k], registered) == Gone(front, registered)
    ensures k !in registered ==> told - Gone(front + [k], registered) == (told - Gone(front, registered)) - {k}
    ensures k !in front ==> k !in Gone(front, registered)
  {
  }

  lemma RemovalStep<V>(notes: seq<Note<V>>, k: string, previous: Snapshot<V>, told: Snapshot<V>, gone: set<string>)
    requires k in previous && previous[k].removed.Some? && AgreeOn(told, previous, k) && k !in gone
    requires AllApt(told, notes) && Replay(told, notes) == told - gone
    ensures AllApt(told, notes + [Removal(k, previous[k].removed.value, previous[k])])
    ensures Replay(told, notes + [Removal(k, previous[k].removed.value, previous[k])]) == (told - gone) - {k}
  {
    hide Replay, AllApt;
    ReplaySnoc(told, notes, Removal(k, previous[k].removed.value, previous[k]));
  }

  lemma RemovalNotesSnoc<V>(front: seq<string>, k: string, registered: set<string>, previous: Snapshot<V>)
    requires Removable(front + [k], registered, previous)
    ensures Removable(front, registered, previous) && k in previous && (k !in registered ==> previous[k].removed.Some?)
    ensures RemovalNotes(front + [k], registered, previous)
            == if k in registered then RemovalNotes(front, registered, previous)
               else RemovalNotes(front, registered, previous) + [Removal(k, previous[k].removed.value, previous[k])]
  {
    assert (front + [k])[..|front|] == front && (front + [k])[|front|] == k;
    assert forall i :: 0 <= i < |front| ==> (front + [k])[i] == front[i];
    var notes := RemovalNotes(front, registered, previous);
    assert notes + [] == notes;
  }

  lemma {:induction false} EntryNotesApt<V>(entries: seq<Entry<V>>, previous: Snapshot<V>)
    requires DistinctKeys(entries) && EntryNotes(entries, previous).Done?
    requires forall i :: 0 <= i < |entries| ==> !Stale(entries[i], previous)
    ensures AllApt(previous, EntryNotes(entries, previous).value)
  {
    if entries != [] {
      var n := |entries| - 1;
      EntryNotesApt(entries[..n], previous);
      assert entries == entries[..n] + [entries[n]];
      EntryStep(entries[..n], entries[n], previous);
    }
  }

  lemma OtherKeysAgree<V>(entries: seq<Entry<V>>, previous: Snapshot<V>)
    requires EntryNotes(entries, previous).Done?
    ensures forall k :: k !in KeysOf(entries) ==> AgreeOn(Replay(previous, EntryNotes(entries, previous).value), previous, k)
  {
    hide EntryNotes, Replay, AgreeOn, KeysOf;
    forall k | k !in KeysOf(entries)
      ensures AgreeOn(Replay(previous, EntryNotes(entries, previous).value), previous, k)
    {
      EntryNotesFrame(entries, previous, k);
    }
  }

  // A reconciliation tells the model exactly what it lacks: every note is apt for what was told
  // before it, and replaying the notes on the previous snapshot leaves what the sources now say
  // for the registered keys and nothing else.
  lemma NotesReplay<V>(entries: seq<Entry<V>>, previous: Snapshot<V>)
    requires DistinctKeys(entries) && !MustReplace(entries, previous) && Notes(entries, previous).Done?
    ensures AllApt(previous, Notes(entries, previous).value)
    ensures Replay(previous, Notes(entries, previous).value)
            == Only(Replay(previous, EntryNotes(entries, previous).value), KeysOf(entries))
  {
    NotesAre(entries, previous);
    SortedKeysDistinct(previous.Keys);
    hide *;
    var notes := EntryNotes(entries, previous).value;
    var told := Replay(previous, notes);
    var keys, registered := SortedKeys(previous.Keys), KeysOf(entries);
    EntryNotesApt(entries, previous);
    OtherKeysAgree(entries, previous);
    RemovalsReplay(keys, registered, previous, told);
    ReplayAppend(previous, notes, RemovalNotes(keys, registered, previous));
    GoneIsOnly(told, previous, keys, registered);
  }

  lemma NotesAre<V>(entries: seq<Entry<V>>, previous: Snapshot<V>)
    requires !MustReplace(entries, previous) && Notes(entries, previous).Done?
    ensures EntryNotes(entries, previous).Done? && forall i :: 0 <= i < |entries| ==> !Stale(entries[i], previous)
    ensures Removable(SortedKeys(previous.Keys), KeysOf(entries), previous)
    ensures Notes(entries, previous).value
            == EntryNotes(entries, previous).value
               + RemovalNotes(SortedKeys(previous.Keys), KeysOf(entries), previous)
  {
    AllStoredRemovable(entries, previous);
    hide EntryNotes, RemovalNotes, Removable, Stale, SortedKeys;
  }

  lemma GoneIsOnly<V>(told: Snapshot<V>, previous: Snapshot<V>, keys: seq<string>, registered: set<string>)
    requires forall k :: k in keys <==> k in previous
    requires forall k :: k !in registered ==> AgreeOn(told, previous, k)
    ensures told - Gone(keys, registered) == Only(told, registered)
  {
  }

  // ---- initialize, reconcile, replace ----

  lemma TextsSnoc<V>(notes: seq<Note<V>>, more: seq<Note<V>>)
    requires |more| <= 1
    ensures Texts(notes + more) == Texts(notes) + if more == [] then [] else [more[0].text]
  {
    if more == [] {
      assert notes + more == notes;
    } else {
      assert (notes + more)[..|notes|] == notes;
    }
  }

  // The first rendering that throws decides the outcome.
  lemma {:induction false} FirstThrowDecides<V>(entries: seq<Entry<V>>, i: nat, previous: Snapshot<V>)
    requires i <= |entries| && EntryNotes(entries[..i], previous).Threw?
    ensures EntryNotes(entries, previous) == EntryNotes(entries[..i], previous)
  {
    if i == |entries| {
      assert entries[..i] == entries;
    } else {
      var n := |entries| - 1;
      assert entries[..n][..i] == entries[..i];
      FirstThrowDecides(entries[..n], i, previous);
    }
  }

  // A whole generation told from nothing.
  function GenerationOf<V>(notes: Outcome<seq<Note<V>>>): Outcome<Generation<V>> {
    match notes
    case Threw(what) => Threw(what)
    case Done(ns) => Done(Generation(Render(Texts(ns)), Replay(map[], ns)))
  }

  // initialize_observation: the baselines of the available sources.
  method InitializeObservation<V>(entries: seq<Entry<V>>) returns (r: Outcome<Generation<V>>)
    requires DistinctKeys(entries)
    ensures r == GenerationOf(EntryNotes(entries, map[]))
  {
    var parts: seq<string> := [];
    var snapshot: Snapshot<V> := map[];
    ghost var notes: seq<Note<V>> := [];
    assert entries[..0] == [];
    for i := 0 to |entries|
      invariant EntryNotes(entries[..i], map[]) == Done(notes)
      invariant parts == Texts(notes) && snapshot == Replay(map[], notes)
    {
      var entry := entries[i];
      assert entries[..i + 1] == entries[..i] + [entry];
      EntryNotesSnoc(entries[..i], entry, map[]);
      if entry.Available? {
        if entry.loaded.baseline.Threw? {
          FirstThrowDecides(entries, i + 1, map[]);
          return Threw(entry.loaded.baseline.what);
        }
        var rendered := entry.loaded.baseline.value;
        parts := parts + [rendered.text];
        snapshot := snapshot[entry.key := rendered.snapshot];
      }
      var more := EntryNote(entry, map[]).value;
      TextsSnoc(notes, more);
      ReplayAppend(map[], notes, more);
      ReplayOne(entry, map[], Replay(map[], notes));
      notes := notes + more;
    }
    assert entries[..|entries|] == entries;
    var text := RenderParts(parts);
    return Done(Generation(text, snapshot));
  }

  ghost predicate AnyUnavailable<V>(entries: seq<Entry<V>>) {
    exists i :: 0 <= i < |entries| && entries[i].Unavailable?
  }

  // initialize: blocked by every unavailable source, in order, or a complete generation.
  method Initialize<V>(entries: seq<Entry<V>>) returns (r: Outcome<InitResult<V>>)
    requires DistinctKeys(entries)
    ensures AnyUnavailable(entries) <==> r.Done? && r.value.Blocked?
    ensures AnyUnavailable(entries)
            ==> forall k :: k in r.value.keys <==> exists i :: 0 <= i < |entries| && entries[i] == Unavailable(k)
    ensures !AnyUnavailable(entries)
            ==> match GenerationOf(EntryNotes(entries, map[]))
                case Done(g) => r == Done(Ready(g))
                case Threw(what) => r == Threw(what)
  {
    var unavailable: seq<string> := [];
    for i := 0 to |entries|
      invariant forall k :: k in unavailable <==> exists j :: 0 <= j < i && entries[j] == Unavailable(k)
      invariant unavailable == [] <==> forall j :: 0 <= j < i ==> entries[j].Available?
    {
      if entries[i].Unavailable? {
        assert entries[i] == Unavailable(entries[i].key);
        unavailable := unavailable + [entries[i].key];
      }
    }
    if unavailable != [] { return Done(Blocked(unavailable)); }
    var g := InitializeObservation(entries);
    match g
    case Done(v) => return Done(Ready(v));
    case Threw(what) => return Threw(what);
  }

  // reconcile_observation.
  method ReconcileObservation<V>(entries: seq<Entry<V>>, previous: Snapshot<V>)
    returns (r: Outcome<ReconcileResult<V>>)
    requires DistinctKeys(entries)
    ensures r == Observed(entries, previous)
  {
    hide EntryNotes, EntryNote, Replay, AllApt, RemovalNotes, Stale, KeysOf, Texts, Render, Compares;
    var comparable, keys, comparisons := CompareStored(entries, previous);
    if !comparable { return Done(Replace); }

    var removable := AllRemovable(previous, keys);
    if !removable { return Done(Replace); }
    var built := BuildSnapshot(entries, previous, comparisons);
    if built.Threw? { return Threw(built.what); }
    var snapshot, updates := built.value.snapshot, built.value.texts;
    updates := AppendRemovals(updates, previous, keys);
    NotesTexts(entries, previous);
    hide *;
    ObservedIs(entries, previous, snapshot, updates);
    if updates == [] { return Done(Unchanged(snapshot)); }
    var text := RenderParts(updates);
    return Done(Updated(text, snapshot));
  }

  lemma NotesTexts<V>(entries: seq<Entry<V>>, previous: Snapshot<V>)
    requires !MustReplace(entries, previous) && EntryNotes(entries, previous).Done?
    requires Removable(SortedKeys(previous.Keys), KeysOf(entries), previous)
    ensures Notes(entries, previous).Done?
    ensures Texts(Notes(entries, previous).value)
            == Texts(EntryNotes(entries, previous).value)
               + Texts(RemovalNotes(SortedKeys(previous.Keys), KeysOf(entries), previous))
  {
    TextsAppend(EntryNotes(entries, previous).value, RemovalNotes(SortedKeys(previous.Keys), KeysOf(entries), previous));
    hide Texts, EntryNotes, RemovalNotes, Removable, KeysOf;
  }

  lemma ObservedIs<V>(entries: seq<Entry<V>>, previous: Snapshot<V>, snapshot: Snapshot<V>, updates: seq<string>)
    requires DistinctKeys(entries) && !MustReplace(entries, previous) && Notes(entries, previous).Done?
    requires snapshot == Only(Replay(previous, EntryNotes(entries, previous).value), KeysOf(entries))
    requires updates == Texts(Notes(entries, previous).value)
    ensures Observed(entries, previous)
            == Done(if updates == [] then Unchanged(snapshot) else Updated(Render(updates), snapshot))
  {
    hide EntryNotes, EntryNote, AllApt, RemovalNotes, Stale, KeysOf, Render;
    NotesReplay(entries, previous);
  }

  // The second loop: every stored key that is no longer registered has a removal text.
  method AllRemovable<V>(previous: Snapshot<V>, keys: set<string>) returns (ok: bool)
    ensures ok <==> forall k :: k in previous && k !in keys ==> previous[k].removed.Some?
    ensures ok ==> Removable(SortedKeys(previous.Keys), keys, previous)
  {
    var stored := SortedKeys(previous.Keys);
    for i := 0 to |stored|
      invariant forall j :: 0 <= j < i && stored[j] !in keys ==> previous[stored[j]].removed.Some?
    {
      assert stored[i] in stored;
      if stored[i] !in keys && previous[stored[i]].removed.None? { return false; }
    }
    forall k | k in previous && k !in keys ensures previous[k].removed.Some? { assert k in stored; }
    return true;
  }

  lemma RemovablePrefix<V>(keys: seq<string>, i: nat, registered: set<string>, previous: Snapshot<V>)
    requires Removable(keys, registered, previous) && i < |keys|
    ensures Removable(keys[..i + 1], registered, previous)
    ensures keys[..i + 1] == keys[..i] + [keys[i]]
  {
  }

  // The fourth loop: the removal texts, in key order.
  method AppendRemovals<V>(updates: seq<string>, previous: Snapshot<V>, keys: set<string>) returns (all: seq<string>)
    requires Removable(SortedKeys(previous.Keys), keys, previous)
    ensures all == updates + Texts(RemovalNotes(SortedKeys(previous.Keys), keys, previous))
  {
    var stored := SortedKeys(previous.Keys);
    all := updates;
    assert stored[..0] == [] && updates + [] == updates;
    assert Texts(RemovalNotes(stored[..0], keys, previous)) == [];
    hide RemovalNotes, Texts, SortedKeys, Removable;
    for i := 0 to |stored|
      invariant Removable(stored[..i], keys, previous)
      invariant all == updates + Texts(RemovalNotes(stored[..i], keys, previous))
    {
      RemovablePrefix(stored, i, keys, previous);
      RemovalTexts(updates, stored[..i], stored[i], keys, previous);
      if stored[i] in keys { continue; }
      all := all + [previous[stored[i]].removed.value];
    }
    assert stored[..|stored|] == stored;
  }

  // What reconcile_observation answers, in terms of the notes.
  ghost function Observed<V>(entries: seq<Entry<V>>, previous: Snapshot<V>): Outcome<ReconcileResult<V>> {
    if MustReplace(entries, previous) then Done(Replace)
    else
      match Notes(entries, previous)
      case Threw(what) => Threw(what)
      case Done(notes) =>
        Done(if notes == [] then Unchanged(previous) else Updated(Render(Texts(notes)), Replay(previous, notes)))
  }

  lemma RemovalTexts<V>(updates: seq<string>, front: seq<string>, k: string, keys: set<string>, previous: Snapshot<V>)
    requires Removable(front + [k], keys, previous)
    ensures Removable(front, keys, previous) && k in previous && (k !in keys ==> previous[k].removed.Some?)
    ensures updates + Texts(RemovalNotes(front + [k], keys, previous))
            == updates + Texts(RemovalNotes(front, keys, previous)) + if k in keys then [] else [previous[k].removed.value]
  {
    RemovalNotesSnoc(front, k, keys, previous);
    var before := RemovalNotes(front, keys, previous);
    hide RemovalNotes, Texts;
    if k !in keys {
      var more := Removal(k, previous[k].removed.value, previous[k]);
      TextsSnoc(before, [more]);
      ConcatAssoc(updates, Texts(before), [more.text]);
    }
  }

  lemma {:induction false} TextsAppend<V>(a: seq<Note<V>>, b: seq<Note<V>>)
    ensures Texts(a + b) == Texts(a) + Texts(b)
  {
    if b == [] {
      assert a + b == a;
      assert Texts(a) + [] == Texts(a);
    } else {
      var init, last := b[..|b| - 1], b[|b| - 1];
      assert (a + b)[..|a + b| - 1] == a + init;
      TextsAppend(a, init);
      ConcatAssoc(Texts(a), Texts(init), [last.text]);
    }
  }

  // The first loop: compare every available source that has a stored value.
  method CompareStored<V>(entries: seq<Entry<V>>, previous: Snapshot<V>)
    returns (comparable: bool, keys: set<string>, comparisons: map<string, Compared<V>>)
    requires DistinctKeys(entries)
    ensures comparable <==> forall i :: 0 <= i < |entries| ==> !Stale(entries[i], previous)
    ensures comparable ==> keys == KeysOf(entries) && Compares(entries, previous, comparisons)
  {
    keys, comparisons := {}, map[];
    assert entries[..0] == [];
    for i := 0 to |entries|
      invariant keys == KeysOf(entries[..i])
      invariant forall j :: 0 <= j < i ==> !Stale(entries[j], previous)
      invariant Compares(entries[..i], previous, comparisons)
    {
      var entry := entries[i];
      assert entries[..i + 1] == entries[..i] + [entry];
      KeysOfSnoc(entries[..i], entry);
      keys := keys + {entry.key};
      if entry.Unavailable? || entry.key !in previous { continue; }
      var compared := entry.loaded.compare(previous[entry.key].value);
      if compared.Incompatible? { return false, keys, comparisons; }
      comparisons := comparisons[entry.key := compared];
    }
    assert entries[..|entries|] == entries;
    return true, keys, comparisons;
  }

  ghost predicate Compares<V>(entries: seq<Entry<V>>, previous: Snapshot<V>, comparisons: map<string, Compared<V>>) {
    forall i :: 0 <= i < |entries| && entries[i].Available? && entries[i].key in previous
      ==> entries[i].key in comparisons
          && comparisons[entries[i].key] == entries[i].loaded.compare(previous[entries[i].key].value)
  }

  // The part of the new snapshot that registered sources make, and their texts.
  datatype Built<V> = Built(snapshot: Snapshot<V>, texts: seq<string>)

  function BuiltFrom<V>(notes: Outcome<seq<Note<V>>>, entries: seq<Entry<V>>, previous: Snapshot<V>)
    : Outcome<Built<V>>
  {
    match notes
    case Threw(what) => Threw(what)
    case Done(ns) => Done(Built(Only(Replay(previous, ns), KeysOf(entries)), Texts(ns)))
  }

  // The third loop: the new snapshot and the texts, source by source.
  method BuildSnapshot<V>(entries: seq<Entry<V>>, previous: Snapshot<V>, comparisons: map<string, Compared<V>>)
    returns (r: Outcome<Built<V>>)
    requires DistinctKeys(entries) && Compares(entries, previous, comparisons)
    requires forall i :: 0 <= i < |entries| ==> !Stale(entries[i], previous)
    ensures r == BuiltFrom(EntryNotes(entries, previous), entries, previous)
  {
    var snapshot: Snapshot<V> := map[];
    var updates: seq<string> := [];
    ghost var notes: seq<Note<V>> := [];
    assert entries[..0] == [];
    for i := 0 to |entries|
      invariant EntryNotes(entries[..i], previous) == Done(notes)
      invariant updates == Texts(notes)
      invariant snapshot == Only(Replay(previous, notes), KeysOf(entries[..i]))
    {
      var entry := entries[i];
      var key := entry.key;
      assert entries[..i + 1] == entries[..i] + [entry];
      EntryNotesSnoc(entries[..i], entry, previous);
      if EntryNote(entry, previous).Threw? { FirstThrowDecides(entries, i + 1, previous); }
      if entry.Unavailable? {
        if key in previous { snapshot := snapshot[key := previous[key]]; }
      } else if key !in previous {
        if entry.loaded.baseline.Threw? { return Threw(entry.loaded.baseline.what); }
        var rendered := entry.loaded.baseline.value;
        updates := updates + [rendered.text];
        snapshot := snapshot[key := rendered.snapshot];
      } else if comparisons[key].Same? {
        snapshot := snapshot[key := previous[key]];
      } else {
        if comparisons[key].render.Threw? { return Threw(comparisons[key].render.what); }
        var rendered := comparisons[key].render.value;
        updates := updates + [rendered.text];
        snapshot := snapshot[key := rendered.snapshot];
      }
      var more := EntryNote(entry, previous).value;
      NewKey(entries, i);
      EntryStep(entries[..i], entry, previous);
      TextsSnoc(notes, more);
      notes := notes + more;
    }
    assert entries[..|entries|] == entries;
    return Done(Built(snapshot, updates));
  }

  lemma NewKey<V>(entries: seq<Entry<V>>, i: nat)
    requires DistinctKeys(entries) && i < |entries|
    ensures entries[i].key !in KeysOf(entries[..i])
  {
  }

  // replace_observation: blocked while an admitted source is unavailable, else a new generation.
  method ReplaceObservation<V>(entries: seq<Entry<V>>, previous: Snapshot<V>)
    returns (r: Outcome<ReconcileResult<V>>)
    requires DistinctKeys(entries)
    ensures r == Replaced(entries, previous)
  {
    for i := 0 to |entries|
      invariant forall j :: 0 <= j < i ==> !(entries[j].Unavailable? && entries[j].key in previous)
    {
      if entries[i].Unavailable? && entries[i].key in previous { return Done(ReplacementBlocked); }
    }
    var g := InitializeObservation(entries);
    match g
    case Done(v) => return Done(ReplacementReady(v));
    case Threw(what) => return Threw(what);
  }

  ghost predicate AdmittedUnavailable<V>(entries: seq<Entry<V>>, previous: Snapshot<V>) {
    exists i :: 0 <= i < |entries| && entries[i].Unavailable? && entries[i].key in previous
  }

  ghost function Replaced<V>(entries: seq<Entry<V>>, previous: Snapshot<V>): Outcome<ReconcileResult<V>> {
    if AdmittedUnavailable(entries, previous) then Done(ReplacementBlocked)
    else
      match GenerationOf(EntryNotes(entries, map[]))
      case Done(g) => Done(ReplacementReady(g))
      case Threw(what) => Threw(what)
  }

  ghost function Reconciled<V>(entries: seq<Entry<V>>, previous: Snapshot<V>): Outcome<ReconcileResult<V>> {
    if MustReplace(entries, previous) then Replaced(entries, previous) else Observed(entries, previous)
  }

  // reconcile. The internal Replace answer never reaches the caller, and an unchanged
  // observation leaves the snapshot as it was.
  method Reconcile<V>(entries: seq<Entry<V>>, previous: Snapshot<V>) returns (r: Outcome<ReconcileResult<V>>)
    requires DistinctKeys(entries)
    ensures r == Reconciled(entries, previous)
    ensures r.Done? ==> !r.value.Replace?
    ensures r.Done? && r.value.Unchanged? ==> r.value.snapshot == previous
  {
    r := ReconcileObservation(entries, previous);
    if r != Done(Replace) { return; }
    r := ReplaceObservation(entries, previous);
  }

  // The snapshot in force after a reconciliation.
  function After<V>(r: ReconcileResult<V>, previous: Snapshot<V>): Snapshot<V> {
    match r
    case Updated(_, s) => s
    case ReplacementReady(g) => g.snapshot
    case _ => previous
  }

  // An admitted source leaves the snapshot only when it is no longer registered, and a source
  // that is not registered is never in it after an update.
  lemma AdmittedStays<V>(entries: seq<Entry<V>>, previous: Snapshot<V>, k: string)
    requires DistinctKeys(entries) && Reconciled(entries, previous).Done?
    ensures k in previous && k in KeysOf(entries) ==> k in After(Reconciled(entries, previous).value, previous)
    ensures var r := Reconciled(entries, previous).value;
            (r.Updated? || r.ReplacementReady?) && k in After(r, previous) ==> k in KeysOf(entries)
  {
    var r := Reconciled(entries, previous).value;
    if r.Updated? {
      ReconciledUpdated(entries, previous);
      hide *;
      NotesReplay(entries, previous);
      RegisteredHeld(entries, previous, k);
      OnlyHas(Replay(previous, EntryNotes(entries, previous).value), KeysOf(entries), k);
    } else if r.ReplacementReady? {
      ReconciledReplaced(entries, previous);
      AvailableIfAdmitted(entries, previous, k);
      hide *;
      RegisteredHeld(entries, map[], k);
    }
  }

  lemma OnlyHas<V>(s: Snapshot<V>, keys: set<string>, k: string)
    ensures k in Only(s, keys) <==> k in s && k in keys
  {
  }

  lemma ReconciledUpdated<V>(entries: seq<Entry<V>>, previous: Snapshot<V>)
    requires Reconciled(entries, previous).Done? && Reconciled(entries, previous).value.Updated?
    ensures !MustReplace(entries, previous) && Notes(entries, previous).Done? && EntryNotes(entries, previous).Done?
    ensures After(Reconciled(entries, previous).value, previous) == Replay(previous, Notes(entries, previous).value)
  {
    hide MustReplace, Replay, Texts, Render, AdmittedUnavailable;
    assert !MustReplace(entries, previous);
    hide EntryNotes, RemovalNotes;
  }

  lemma ReconciledReplaced<V>(entries: seq<Entry<V>>, previous: Snapshot<V>)
    requires Reconciled(entries, previous).Done? && Reconciled(entries, previous).value.ReplacementReady?
    ensures !AdmittedUnavailable(entries, previous) && EntryNotes(entries, map[]).Done?
    ensures After(Reconciled(entries, previous).value, previous) == Replay(map[], EntryNotes(entries, map[]).value)
  {
    hide MustReplace, Replay, Texts, Render, AdmittedUnavailable, EntryNotes, RemovalNotes;
  }

  lemma AvailableIfAdmitted<V>(entries: seq<Entry<V>>, previous: Snapshot<V>, k: string)
    requires !AdmittedUnavailable(entries, previous)
    ensures k in previous && k in KeysOf(entries) ==>
              exists i :: 0 <= i < |entries| && entries[i].Available? && entries[i].key == k
    ensures (exists i :: 0 <= i < |entries| && entries[i].Available? && entries[i].key == k) ==> k in KeysOf(entries)
  {
    if k in previous && k in KeysOf(entries) {
      var i :| 0 <= i < |entries| && entries[i].key == k;
      assert entries[i].Available?;
    }
  }

  // A registered key that was held or is available is held after the notes.
  lemma {:induction false} RegisteredHeld<V>(entries: seq<Entry<V>>, previous: Snapshot<V>, k: string)
    requires DistinctKeys(entries) && EntryNotes(entries, previous).Done?
    ensures k in Replay(previous, EntryNotes(entries, previous).value)
            <==> k in previous || exists i :: 0 <= i < |entries| && entries[i].Available? && entries[i].key == k
  {
    if entries != [] {
      var n := |entries| - 1;
      var front, e := entries[..n], entries[n];
      assert entries == front + [e];
      RegisteredHeld(front, previous, k);
      EntryNotesSnoc(front, e, previous);
      NewKey(entries, n);
      EntryNotesFrame(front, previous, e.key);
      ReplayAppend(previous, EntryNotes(front, previous).value, EntryNote(e, previous).value);
      ReplayOne(e, previous, Replay(previous, EntryNotes(front, previous).value));
      if e.key !in previous { NoteIfAvailable(e, previous); }
    }
  }

  lemma NoteIfAvailable<V>(e: Entry<V>, previous: Snapshot<V>)
    requires EntryNote(e, previous).Done? && e.key !in previous
    ensures EntryNote(e, previous).value != [] <==> e.Available?
  {
  }

  // ---- reconciling twice ----

  // What a source renders compares as unchanged with itself.
  predicate Settles<V>(e: Entry<V>, r: Rendered<V>)
    requires e.Available?
  {
    e.loaded.compare(r.snapshot.value).Same?
  }

  // The note a reconciliation makes about `e`, if any, settles.
  predicate NoteSettles<V>(e: Entry<V>, previous: Snapshot<V>) {
    var note := EntryNote(e, previous);
    note.Done? && note.value != [] ==>
      (assert note.value[0] in note.value; e.loaded.compare(note.value[0].now.value).Same?)
  }

  ghost predicate AllSettle<V>(entries: seq<Entry<V>>, previous: Snapshot<V>) {
    forall i :: 0 <= i < |entries| ==> NoteSettles(entries[i], previous)
  }

  // For a source built by make, rendering settles exactly when decoding what it encodes gives an
  // equivalent value.
  lemma MakeSettlesIff<A, V>(source: Source<A, V>, text: string, kind: string)
    requires source.load.Some? && RenderAs(source, kind, text, source.load.value).Done?
    ensures Settles(Make(source), RenderAs(source, kind, text, source.load.value).value)
            <==> source.fromJson(source.toJson(source.load.value)).Some?
                 && source.equivalent(source.fromJson(source.toJson(source.load.value)).value, source.load.value)
  {
  }

  // A made source renders its texts from the values it compares, and never empty ones.
  lemma MakeRenders<A, V>(source: Source<A, V>, previous: Snapshot<V>)
    requires source.load.Some? && EntryNote(Make(source), previous).Done?
    ensures var note := EntryNote(Make(source), previous).value;
            note != [] ==>
              && note[0].text != ""
              && note[0].now.value == source.toJson(source.load.value)
              && (source.removed.None? ==> note[0].now.removed == None)
              && (source.removed.Some? ==> note[0].now.removed == source.removed.value(source.load.value))
              && (note[0].Baseline? ==> note[0].text == source.baseline(source.load.value))
              && (note[0].Update? ==>
                    && source.fromJson(note[0].was.value).Some?
                    && !source.equivalent(source.fromJson(note[0].was.value).value, source.load.value)
                    && note[0].text == source.update(source.fromJson(note[0].was.value).value, source.load.value))
  {
    var note := EntryNote(Make(source), previous).value;
    if note != [] { assert note[0] in note && !note[0].Removal?; }
  }

  // Reconciling again on the same observation says nothing more, exactly when every text just
  // rendered settles. A blocked replacement stays blocked.
  lemma ReconcileTwice<V>(entries: seq<Entry<V>>, previous: Snapshot<V>)
    requires DistinctKeys(entries) && Reconciled(entries, previous).Done?
    ensures var r := Reconciled(entries, previous).value;
            var next := After(r, previous);
            && (r.ReplacementBlocked? ==> Reconciled(entries, next) == Done(ReplacementBlocked))
            && (r.Unchanged? ==> Reconciled(entries, next) == Done(Unchanged(next)))
            && (r.Updated? ==> (Reconciled(entries, next) == Done(Unchanged(next)) <==> AllSettle(entries, previous)))
            && (r.ReplacementReady? ==> (Reconciled(entries, next) == Done(Unchanged(next)) <==> AllSettle(entries, map[])))
  {
    var r := Reconciled(entries, previous).value;
    var next := After(r, previous);
    ReconciledUnchangedIff(entries, next);
    if r.Updated? {
      ReconciledUpdated(entries, previous);
      hide *;
      TellTwice(entries, previous);
    } else if r.ReplacementReady? {
      ReconciledReplaced(entries, previous);
      NothingToReplace(entries);
      hide *;
      NotesFromNothing(entries);
      TellTwice(entries, map[]);
    } else if r.Unchanged? {
      UnchangedIsPrevious(entries, previous);
      hide *;
      assert next == previous;
    } else {
      hide Reconciled;
    }
  }

  lemma NothingToReplace<V>(entries: seq<Entry<V>>)
    ensures !MustReplace(entries, map[])
  {
  }

  lemma ReconciledUnchangedIff<V>(entries: seq<Entry<V>>, next: Snapshot<V>)
    ensures Reconciled(entries, next) == Done(Unchanged(next)) <==> Observed(entries, next) == Done(Unchanged(next))
  {
    hide MustReplace, Notes, EntryNotes, Replay, Texts, Render, AdmittedUnavailable;
  }

  lemma UnchangedIsPrevious<V>(entries: seq<Entry<V>>, previous: Snapshot<V>)
    requires Reconciled(entries, previous).Done? && Reconciled(entries, previous).value.Unchanged?
    ensures Reconciled(entries, previous) == Done(Unchanged(previous))
    ensures After(Reconciled(entries, previous).value, previous) == previous
  {
    hide MustReplace, Notes, EntryNotes, Replay, Texts, Render, AdmittedUnavailable;
  }

  lemma NotesFromNothing<V>(entries: seq<Entry<V>>)
    ensures Notes(entries, map[]) == EntryNotes(entries, map[])
  {
    var nothing: Snapshot<V> := map[];
    assert SortedKeys(nothing.Keys) == [];
    assert RemovalNotes([], KeysOf(entries), nothing) == [];
    if EntryNotes(entries, nothing).Done? {
      assert EntryNotes(entries, nothing).value + [] == EntryNotes(entries, nothing).value;
    }
  }

  // `e` causes neither a note nor a replacement.
  predicate Quiet<V>(e: Entry<V>, previous: Snapshot<V>) {
    !Stale(e, previous) && EntryNote(e, previous) == Done([])
  }

  // On the snapshot its note leads to, a source is compared with what it rendered, or with the
  // stored value it was already found equal to.
  lemma TellTwice<V>(entries: seq<Entry<V>>, previous: Snapshot<V>)
    requires DistinctKeys(entries) && !MustReplace(entries, previous) && Notes(entries, previous).Done?
    ensures Observed(entries, Replay(previous, Notes(entries, previous).value))
            == Done(Unchanged(Replay(previous, Notes(entries, previous).value)))
            <==> AllSettle(entries, previous)
  {
    var next := Replay(previous, Notes(entries, previous).value);
    NotesReplay(entries, previous);
    forall i | 0 <= i < |entries| ensures Quiet(entries[i], next) <==> NoteSettles(entries[i], previous) {
      HeldAfterNotes(entries, previous, i);
      assert AgreeOn(next, Replay(previous, EntryNotes(entries, previous).value), entries[i].key);
      QuietIff(entries[i], previous, next);
    }
    assert forall k :: k in next ==> k in KeysOf(entries);
    QuietObserved(entries, next);
  }

  lemma QuietIff<V>(e: Entry<V>, previous: Snapshot<V>, next: Snapshot<V>)
    requires !Stale(e, previous) && EntryNote(e, previous).Done?
    requires EntryNote(e, previous).value == [] ==> AgreeOn(next, previous, e.key)
    requires EntryNote(e, previous).value != [] ==>
               e.key in next && !EntryNote(e, previous).value[0].Removal? && next[e.key] == EntryNote(e, previous).value[0].now
    ensures Quiet(e, next) <==> NoteSettles(e, previous)
  {
  }

  // What the model holds for a registered source: what its note said, or what it held before.
  lemma {:induction false} HeldAfterNotes<V>(entries: seq<Entry<V>>, previous: Snapshot<V>, i: nat)
    requires DistinctKeys(entries) && EntryNotes(entries, previous).Done? && i < |entries|
    ensures EntryNote(entries[i], previous).Done?
    ensures var next := Replay(previous, EntryNotes(entries, previous).value);
            var e, note := entries[i], EntryNote(entries[i], previous).value;
            && (note == [] ==> AgreeOn(next, previous, e.key))
            && (note != [] ==> !note[0].Removal? && e.key in next && next[e.key] == note[0].now)
  {
    var n := |entries| - 1;
    var front, last := entries[..n], entries[n];
    assert entries == front + [last];
    EntryNotesSnoc(front, last, previous);
    var before := Replay(previous, EntryNotes(front, previous).value);
    ReplayAppend(previous, EntryNotes(front, previous).value, EntryNote(last, previous).value);
    ReplayOne(last, previous, before);
    hide EntryNote, EntryNotes, Replay, AllApt;
    if i < n {
      HeldAfterNotes(front, previous, i);
      assert entries[i].key != last.key;
      assert AgreeOn(Replay(before, EntryNote(last, previous).value), before, entries[i].key);
    } else {
      NewKey(entries, n);
      EntryNotesFrame(front, previous, last.key);
    }
  }

  // With every stored key registered, a reconciliation is silent exactly when each source is.
  lemma QuietObserved<V>(entries: seq<Entry<V>>, next: Snapshot<V>)
    requires forall k :: k in next ==> k in KeysOf(entries)
    ensures Observed(entries, next) == Done(Unchanged(next))
            <==> forall i :: 0 <= i < |entries| ==> Quiet(entries[i], next)
  {
    QuietEntries(entries, next);
    if !MustReplace(entries, next) {
      AllStoredRemovable(entries, next);
      NoRemovals(SortedKeys(next.Keys), KeysOf(entries), next);
    }
  }

  lemma {:induction false} NoRemovals<V>(keys: seq<string>, registered: set<string>, previous: Snapshot<V>)
    requires Removable(keys, registered, previous) && forall k :: k in keys ==> k in registered
    ensures RemovalNotes(keys, registered, previous) == []
  {
    if keys != [] {
      var n := |keys| - 1;
      assert keys == keys[..n] + [keys[n]];
      NoRemovals(keys[..n], registered, previous);
    }
  }

  lemma {:induction false} QuietEntries<V>(entries: seq<Entry<V>>, next: Snapshot<V>)
    ensures EntryNotes(entries, next) == Done([])
            <==> forall i :: 0 <= i < |entries| ==> EntryNote(entries[i], next) == Done([])
  {
    if entries != [] {
      var n := |entries| - 1;
      QuietEntries(entries[..n], next);
      assert entries == entries[..n] + [entries[n]];
      EntryNotesSnoc(entries[..n], entries[n], next);
      var front, last := EntryNotes(entries[..n], next), EntryNote(entries[n], next);
      if EntryNotes(entries, next) == Done([]) {
        assert |front.value| == |last.value| == 0;
        assert front.value == [] && last.value == [];
        forall i | 0 <= i < |entries| ensures EntryNote(entries[i], next) == Done([]) {
          if i < n { assert entries[..n][i] == entries[i]; }
        }
      }
      if forall i :: 0 <= i < |entries| ==> EntryNote(entries[i], next) == Done([]) {
        assert forall i :: 0 <= i < n ==> EntryNote(entries[..n][i], next) == Done([]);
        assert front.value + last.value == [];
      }
    }
  }
}
