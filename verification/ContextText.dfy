// src/system/systemcontext.h: the texts handed to the model. Each outcome's text is laid out from
// the texts that the sources rendered, one for each source that is new or has changed and one for
// each that is gone, and from nothing else.
module ContextText {
  import opened Bytes
  import opened Ordering
  import opened SystemContext
  import opened ContextSession

  // The text says exactly these notes, in order.
  ghost predicate Tells<V>(text: string, notes: seq<Note<V>>) {
    exists parts: seq<string> :: TextsAre(notes, parts) && LaidOut(text, parts)
  }

  predicate TextsAre<V>(notes: seq<Note<V>>, parts: seq<string>) {
    |parts| == |notes| && forall k :: 0 <= k < |notes| ==> parts[k] == notes[k].text
  }

  lemma {:induction false} TextsOfNotes<V>(notes: seq<Note<V>>)
    ensures TextsAre(notes, Texts(notes))
  {
    if notes != [] { TextsOfNotes(notes[..|notes| - 1]); }
  }

  lemma RenderTells<V>(notes: seq<Note<V>>)
    ensures Tells(Render(Texts(notes)), notes)
  {
    TextsOfNotes(notes);
    RenderLaysOut(Texts(notes));
    hide LaidOut, TextsAre, Render, Texts;
  }

  // ---- which notes ----

  // The source has something to say that the model was not told.
  predicate Speaks<V>(e: Entry<V>, previous: Snapshot<V>) {
    e.Available? && (e.key in previous ==> e.loaded.compare(previous[e.key].value).Changed?)
  }

  // The note is what the source rendered: its baseline when it is new, its update otherwise.
  predicate NoteFrom<V(==)>(e: Entry<V>, previous: Snapshot<V>, n: Note<V>) {
    && e.Available? && n.key == e.key
    && match n
       case Baseline(_, text, now) => e.key !in previous && e.loaded.baseline == Done(Rendered(text, now))
       case Update(_, text, was, now) =>
         && e.key in previous && was == previous[e.key]
         && e.loaded.compare(was.value) == Changed(Done(Rendered(text, now)))
       case Removal(_, _, _) => false
  }

  // The places of the sources that speak.
  function Speaking<V>(entries: seq<Entry<V>>, previous: Snapshot<V>): seq<nat> {
    if entries == [] then []
    else
      var n := |entries| - 1;
      Speaking(entries[..n], previous) + if Speaks(entries[n], previous) then [n] else []
  }

  lemma {:induction false} SpeakingAre<V>(entries: seq<Entry<V>>, previous: Snapshot<V>)
    ensures forall i: nat :: i in Speaking(entries, previous) <==> i < |entries| && Speaks(entries[i], previous)
    ensures forall i, j :: 0 <= i < j < |Speaking(entries, previous)| ==>
              Speaking(entries, previous)[i] < Speaking(entries, previous)[j]
  {
    if entries != [] {
      var n := |entries| - 1;
      var before := Speaking(entries[..n], previous);
      SpeakingAre(entries[..n], previous);
      assert forall i: nat :: i < n ==> entries[..n][i] == entries[i];
      forall i | 0 <= i < |before| ensures before[i] < n { assert before[i] in before; }
      hide Speaks;
    }
  }

  // One note from each source that speaks, in order.
  ghost predicate NotesFrom<V>(entries: seq<Entry<V>>, previous: Snapshot<V>, notes: seq<Note<V>>) {
    && |notes| == |Speaking(entries, previous)|
    && forall k :: 0 <= k < |notes| ==> NoteAt(entries, previous, notes[k], Speaking(entries, previous)[k])
  }

  ghost predicate NoteAt<V>(entries: seq<Entry<V>>, previous: Snapshot<V>, n: Note<V>, i: nat) {
    i < |entries| && NoteFrom(entries[i], previous, n)
  }

  lemma OneNote<V>(e: Entry<V>, previous: Snapshot<V>)
    requires EntryNote(e, previous).Done? && !Stale(e, previous)
    ensures |EntryNote(e, previous).value| == if Speaks(e, previous) then 1 else 0
    ensures Speaks(e, previous) ==> NoteFrom(e, previous, EntryNote(e, previous).value[0])
  {
  }

  lemma {:induction false} EntryNotesFrom<V>(entries: seq<Entry<V>>, previous: Snapshot<V>)
    requires EntryNotes(entries, previous).Done? && forall i :: 0 <= i < |entries| ==> !Stale(entries[i], previous)
    ensures NotesFrom(entries, previous, EntryNotes(entries, previous).value)
  {
    if entries != [] {
      var n := |entries| - 1;
      var front, e := entries[..n], entries[n];
      assert entries == front + [e];
      EntryNotesSnoc(front, e, previous);
      hide EntryNotes, EntryNote, NoteFrom, Speaks, Stale;
      EntryNotesFrom(front, previous);
      OneNote(e, previous);
      NotesFromSnoc(front, e, previous, EntryNotes(front, previous).value, EntryNote(e, previous).value);
    }
  }

  lemma NotesFromSnoc<V>(front: seq<Entry<V>>, e: Entry<V>, previous: Snapshot<V>, before: seq<Note<V>>, more: seq<Note<V>>)
    requires NotesFrom(front, previous, before) && |more| == if Speaks(e, previous) then 1 else 0
    requires more != [] ==> NoteFrom(e, previous, more[0])
    ensures NotesFrom(front + [e], previous, before + more)
  {
    hide NoteFrom, Speaks;
    var entries, notes, n := front + [e], before + more, |front|;
    assert entries[..n] == front && entries[n] == e;
    var spoke := Speaking(front, previous);
    assert Speaking(entries, previous) == spoke + if Speaks(e, previous) then [n] else [];
    hide Speaking;
    forall k | 0 <= k < |notes| ensures NoteAt(entries, previous, notes[k], Speaking(entries, previous)[k]) {
      if k < |before| {
        assert NoteAt(front, previous, before[k], spoke[k]);
        assert entries[spoke[k]] == front[spoke[k]];
      }
    }
  }

  // ---- the removals ----

  function Dropped(keys: seq<string>, registered: set<string>): seq<string> { Keep(keys, k => k !in registered) }

  // One removal for each key, with the text that was stored for it.
  predicate RemovalsOf<V(==)>(keys: seq<string>, previous: Snapshot<V>, notes: seq<Note<V>>) {
    && |notes| == |keys|
    && forall k :: 0 <= k < |keys| ==>
         && keys[k] in previous && previous[keys[k]].removed.Some?
         && notes[k] == Removal(keys[k], previous[keys[k]].removed.value, previous[keys[k]])
  }

  lemma {:induction false} RemovalNotesAre<V>(keys: seq<string>, registered: set<string>, previous: Snapshot<V>)
    requires Removable(keys, registered, previous)
    ensures RemovalsOf(Dropped(keys, registered), previous, RemovalNotes(keys, registered, previous))
  {
    if keys != [] {
      var n := |keys| - 1;
      var front, k := keys[..n], keys[n];
      assert keys == front + [k];
      RemovalNotesSnoc(front, k, registered, previous);
      RemovalNotesAre(front, registered, previous);
      KeepAppend(front, [k], (j: string) => j !in registered);
      assert Keep([k], (j: string) => j !in registered) == if k in registered then [] else [k];
      hide Removable, RemovalNotes;
      assert Dropped(front, registered) + [] == Dropped(front, registered);
    }
  }

  // ---- what an outcome tells ----

  // First one note from each source that speaks, and then the removals.
  ghost predicate NotesAll<V>(entries: seq<Entry<V>>, previous: Snapshot<V>, notes: seq<Note<V>>) {
    var n := |Speaking(entries, previous)|;
    && n <= |notes| && NotesFrom(entries, previous, notes[..n])
    && RemovalsOf(Dropped(SortedKeys(previous.Keys), KeysOf(entries)), previous, notes[n..])
  }

  lemma NotesAreAll<V>(entries: seq<Entry<V>>, previous: Snapshot<V>)
    requires !MustReplace(entries, previous) && Notes(entries, previous).Done?
    ensures NotesAll(entries, previous, Notes(entries, previous).value)
    ensures Notes(entries, previous).value == []
            <==> Speaking(entries, previous) == [] && Dropped(SortedKeys(previous.Keys), KeysOf(entries)) == []
  {
    NotesAre(entries, previous);
    var keys := SortedKeys(previous.Keys);
    hide *;
    EntryNotesFrom(entries, previous);
    RemovalNotesAre(keys, KeysOf(entries), previous);
    PutTogether(entries, previous, EntryNotes(entries, previous).value, RemovalNotes(keys, KeysOf(entries), previous));
  }

  lemma PutTogether<V>(entries: seq<Entry<V>>, previous: Snapshot<V>, spoken: seq<Note<V>>, removed: seq<Note<V>>)
    requires NotesFrom(entries, previous, spoken)
    requires RemovalsOf(Dropped(SortedKeys(previous.Keys), KeysOf(entries)), previous, removed)
    ensures NotesAll(entries, previous, spoken + removed)
    ensures spoken + removed == []
            <==> Speaking(entries, previous) == [] && Dropped(SortedKeys(previous.Keys), KeysOf(entries)) == []
  {
    assert (spoken + removed)[..|spoken|] == spoken && (spoken + removed)[|spoken|..] == removed;
    hide Speaking, Dropped, SortedKeys, KeysOf, NoteAt;
  }

  // An update's text is one text for each source that speaks and each key that is gone.
  lemma UpdateTells<V>(entries: seq<Entry<V>>, previous: Snapshot<V>)
    requires Reconciled(entries, previous).Done? && Reconciled(entries, previous).value.Updated?
    ensures exists notes :: NotesAll(entries, previous, notes) && Tells(Reconciled(entries, previous).value.text, notes)
  {
    ObservedNotes(entries, previous);
    var notes, text := Notes(entries, previous).value, Reconciled(entries, previous).value.text;
    hide *;
    NotesAreAll(entries, previous);
    RenderTells(notes);
    assert NotesAll(entries, previous, notes) && Tells(text, notes);
  }

  // Without a replacement, a reconciliation is silent exactly when no source speaks and no key
  // is gone.
  lemma SilentIff<V>(entries: seq<Entry<V>>, previous: Snapshot<V>)
    requires Reconciled(entries, previous).Done?
    requires Reconciled(entries, previous).value.Updated? || Reconciled(entries, previous).value.Unchanged?
    ensures Reconciled(entries, previous).value.Unchanged?
            <==> Speaking(entries, previous) == [] && Dropped(SortedKeys(previous.Keys), KeysOf(entries)) == []
  {
    ObservedNotes(entries, previous);
    hide *;
    NotesAreAll(entries, previous);
  }

  // A new generation tells every available source.
  lemma ReplacementTells<V>(entries: seq<Entry<V>>, previous: Snapshot<V>)
    requires Reconciled(entries, previous).Done? && Reconciled(entries, previous).value.ReplacementReady?
    ensures exists notes ::
              NotesFrom(entries, map[], notes) && Tells(Reconciled(entries, previous).value.generation.baseline, notes)
  {
    ReplacedNotes(entries, previous);
    hide *;
    InitialTells(entries);
  }

  lemma ObservedNotes<V>(entries: seq<Entry<V>>, previous: Snapshot<V>)
    requires Reconciled(entries, previous).Done?
    requires Reconciled(entries, previous).value.Updated? || Reconciled(entries, previous).value.Unchanged?
    ensures !MustReplace(entries, previous) && Notes(entries, previous).Done?
    ensures Reconciled(entries, previous).value.Unchanged? <==> Notes(entries, previous).value == []
    ensures Reconciled(entries, previous).value.Updated? ==>
              Reconciled(entries, previous).value.text == Render(Texts(Notes(entries, previous).value))
  {
    hide MustReplace, Replay, Texts, Render, AdmittedUnavailable, Notes, EntryNotes;
  }

  lemma ReplacedNotes<V>(entries: seq<Entry<V>>, previous: Snapshot<V>)
    requires Reconciled(entries, previous).Done? && Reconciled(entries, previous).value.ReplacementReady?
    ensures GenerationOf(EntryNotes(entries, map[])) == Done(Reconciled(entries, previous).value.generation)
  {
    hide MustReplace, Replay, Texts, Render, AdmittedUnavailable, Notes, EntryNotes;
  }

  // A first generation tells the baseline of every available source.
  lemma InitialTells<V>(entries: seq<Entry<V>>)
    requires GenerationOf(EntryNotes(entries, map[])).Done?
    ensures exists notes ::
              NotesFrom(entries, map[], notes) && Tells(GenerationOf(EntryNotes(entries, map[])).value.baseline, notes)
  {
    NoneStale(entries);
    var notes := EntryNotes(entries, map[]);
    assert notes.Done? && GenerationOf(notes).value.baseline == Render(Texts(notes.value)) by { hide EntryNotes, Render, Texts, Replay; }
    hide *;
    EntryNotesFrom(entries, map[]);
    RenderTells(notes.value);
  }

  lemma NoneStale<V>(entries: seq<Entry<V>>)
    ensures forall i :: 0 <= i < |entries| ==> !Stale(entries[i], map[])
  {
  }

  // A stored value no longer decodes, or a key is gone without a removal text.
  ghost predicate OutOfStep<V>(entries: seq<Entry<V>>, previous: Snapshot<V>) {
    || (exists i :: 0 <= i < |entries| && entries[i].Available? && entries[i].key in previous
                    && entries[i].loaded.compare(previous[entries[i].key].value) == Incompatible)
    || (exists k :: k in previous && previous[k].removed == None
                    && forall i :: 0 <= i < |entries| ==> entries[i].key != k)
  }

  // A reconciliation starts afresh exactly when it is out of step, and is then blocked exactly
  // when a source it has admitted is unavailable.
  lemma ReplacedIff<V>(entries: seq<Entry<V>>, previous: Snapshot<V>)
    requires Reconciled(entries, previous).Done?
    ensures var r := Reconciled(entries, previous).value;
            && (OutOfStep(entries, previous) <==> r.ReplacementReady? || r.ReplacementBlocked?)
            && (!OutOfStep(entries, previous) <==> r.Updated? || r.Unchanged?)
            && (r.ReplacementBlocked? <==>
                  OutOfStep(entries, previous)
                  && exists i :: 0 <= i < |entries| && entries[i].Unavailable? && entries[i].key in previous)
  {
    OutOfStepIs(entries, previous);
    hide OutOfStep, MustReplace, EntryNotes, Notes, Render, Texts, Replay;
  }

  lemma OutOfStepIs<V>(entries: seq<Entry<V>>, previous: Snapshot<V>)
    ensures OutOfStep(entries, previous) <==> MustReplace(entries, previous)
  {
    assert forall i :: 0 <= i < |entries| ==>
             (Stale(entries[i], previous)
              <==> entries[i].Available? && entries[i].key in previous
                   && entries[i].loaded.compare(previous[entries[i].key].value) == Incompatible);
    assert forall k :: k !in KeysOf(entries) <==> forall i :: 0 <= i < |entries| ==> entries[i].key != k;
  }

  // ---- what throws ----

  // Rendering what this source has to say throws.
  predicate ThrowsFor<V>(e: Entry<V>, previous: Snapshot<V>, what: string) {
    && e.Available?
    && if e.key in previous then
         var compared := e.loaded.compare(previous[e.key].value);
         compared.Changed? && compared.render.Threw? && compared.render.what == what
       else e.loaded.baseline.Threw? && e.loaded.baseline.what == what
  }

  ghost predicate ThrowsFirst<V>(entries: seq<Entry<V>>, previous: Snapshot<V>, what: string, i: nat) {
    && i < |entries| && ThrowsFor(entries[i], previous, what)
    && forall j, other :: 0 <= j < i ==> !ThrowsFor(entries[j], previous, other)
  }

  // An observation fails exactly when a rendering throws, and then with the first such exception.
  lemma {:induction false} FirstThrowIsPassedOn<V>(entries: seq<Entry<V>>, previous: Snapshot<V>)
    ensures EntryNotes(entries, previous).Done?
            <==> forall i, what :: 0 <= i < |entries| ==> !ThrowsFor(entries[i], previous, what)
    ensures EntryNotes(entries, previous).Threw? ==>
              exists i :: ThrowsFirst(entries, previous, EntryNotes(entries, previous).what, i)
  {
    if entries != [] {
      var n := |entries| - 1;
      var front, e := entries[..n], entries[n];
      assert entries == front + [e];
      FirstThrowIsPassedOn(front, previous);
      EntryNotesSnoc(front, e, previous);
      NoteThrows(e, previous);
      hide EntryNotes, EntryNote, ThrowsFor;
      if EntryNotes(front, previous).Threw? {
        var what := EntryNotes(front, previous).what;
        var i :| ThrowsFirst(front, previous, what, i);
        assert forall j :: 0 <= j <= i ==> entries[j] == front[j];
        assert ThrowsFirst(entries, previous, what, i);
      } else if EntryNote(e, previous).Threw? {
        assert ThrowsFirst(entries, previous, EntryNote(e, previous).what, n);
      } else {
        forall i, what | 0 <= i < |entries| ensures !ThrowsFor(entries[i], previous, what) {
          if i < n { assert !ThrowsFor(front[i], previous, what); }
        }
      }
    }
  }

  lemma NoteThrows<V>(e: Entry<V>, previous: Snapshot<V>)
    ensures EntryNote(e, previous).Done? <==> forall what :: !ThrowsFor(e, previous, what)
    ensures EntryNote(e, previous).Threw? ==> ThrowsFor(e, previous, EntryNote(e, previous).what)
  {
    if EntryNote(e, previous).Threw? { assert ThrowsFor(e, previous, EntryNote(e, previous).what); }
  }

  // ---- what a turn tells ----

  // The text in force after a turn that told something is the text of what it told.
  lemma TurnTells<V>(s: ContextState<V>, load: Load<V>)
    requires Loadable(load)
    ensures var e := Emit(s, load);
            && (e.Silent? ==> Advance(s, load) == s)
            && (e.Delta? ==> Tells(Advance(s, load).text, e.notes) && NotesAll(load.value, s.snapshot, e.notes))
            && (e.Whole? ==> Tells(Advance(s, load).text, e.notes) && NotesFrom(load.value, map[], e.notes))
  {
    match Emit(s, load)
    case Silent =>
    case Delta(notes) =>
      EmitsNotes(s, load);
      hide *;
      NotesAreAll(load.value, s.snapshot);
      RenderTells(notes);
    case Whole(notes) =>
      EmitsNotes(s, load);
      NoneStale(load.value);
      hide *;
      EntryNotesFrom(load.value, map[]);
      RenderTells(notes);
  }

  lemma EmitsNotes<V>(s: ContextState<V>, load: Load<V>)
    requires Loadable(load)
    ensures var e := Emit(s, load);
            && (e.Delta? ==> !MustReplace(load.value, s.snapshot) && Notes(load.value, s.snapshot) == Done(e.notes)
                             && Advance(s, load).text == Render(Texts(e.notes)))
            && (e.Whole? ==> EntryNotes(load.value, map[]) == Done(e.notes)
                             && Advance(s, load).text == Render(Texts(e.notes)))
  {
    hide MustReplace, Replay, Texts, Render, AdmittedUnavailable, EntryNotes;
  }

  ghost predicate RendersAll<V>(entries: seq<Entry<V>>, previous: Snapshot<V>) {
    forall i, what :: 0 <= i < |entries| ==> !ThrowsFor(entries[i], previous, what)
  }

  ghost predicate SomeUnavailable<V>(entries: seq<Entry<V>>, known: set<string>) {
    exists i :: 0 <= i < |entries| && entries[i].Unavailable? && entries[i].key in known
  }

  // The first telling needs every source, a new one every admitted source, and both every
  // baseline; an update needs something to say that renders.
  lemma TellsWhen<V>(s: ContextState<V>, context: seq<Entry<V>>)
    requires DistinctKeys(context)
    ensures var e := Emit(s, Done(context));
            && (e.Whole? <==>
                  RendersAll(context, map[])
                  && if s.initialized then
                       OutOfStep(context, s.snapshot) && !SomeUnavailable(context, s.snapshot.Keys)
                     else forall i :: 0 <= i < |context| ==> context[i].Available?)
            && (e.Delta? <==>
                  s.initialized && !OutOfStep(context, s.snapshot) && RendersAll(context, s.snapshot)
                  && (Speaking(context, s.snapshot) != []
                      || Dropped(SortedKeys(s.snapshot.Keys), KeysOf(context)) != []))
  {
    FirstThrowIsPassedOn(context, map[]);
    FirstThrowIsPassedOn(context, s.snapshot);
    hide EntryNotes, ThrowsFor, ThrowsFirst;
    if s.initialized {
      OutOfStepIs(context, s.snapshot);
      if OutOfStep(context, s.snapshot) {
        TellsAfresh(s, context);
      } else {
        TellsUpdates(s, context);
      }
    }
    hide OutOfStep, MustReplace, Speaking, Dropped;
  }

  lemma TellsAfresh<V>(s: ContextState<V>, context: seq<Entry<V>>)
    requires DistinctKeys(context) && s.initialized && MustReplace(context, s.snapshot)
    ensures var e := Emit(s, Done(context));
            && (e.Whole? <==> EntryNotes(context, map[]).Done? && !SomeUnavailable(context, s.snapshot.Keys))
            && !e.Delta?
  {
    hide MustReplace, EntryNotes, Notes, Render, Texts, Replay, DistinctKeys;
  }

  lemma TellsUpdates<V>(s: ContextState<V>, context: seq<Entry<V>>)
    requires DistinctKeys(context) && s.initialized && !MustReplace(context, s.snapshot)
    ensures var e := Emit(s, Done(context));
            && !e.Whole?
            && (e.Delta? <==> EntryNotes(context, s.snapshot).Done?
                              && (Speaking(context, s.snapshot) != []
                                  || Dropped(SortedKeys(s.snapshot.Keys), KeysOf(context)) != []))
  {
    hide *;
    NotesIfRendered(context, s.snapshot);
    EmitsIfNotes(s, context);
    if Notes(context, s.snapshot).Done? { NotesAreAll(context, s.snapshot); }
  }

  lemma NotesIfRendered<V>(context: seq<Entry<V>>, previous: Snapshot<V>)
    requires !MustReplace(context, previous)
    ensures Notes(context, previous).Done? <==> EntryNotes(context, previous).Done?
  {
    hide MustReplace, EntryNotes, RemovalNotes;
  }

  lemma EmitsIfNotes<V>(s: ContextState<V>, context: seq<Entry<V>>)
    requires DistinctKeys(context) && s.initialized && !MustReplace(context, s.snapshot)
    ensures Loadable(Done(context)) && !Emit(s, Done(context)).Whole?
    ensures Emit(s, Done(context)).Delta? <==> Notes(context, s.snapshot).Done? && Notes(context, s.snapshot).value != []
  {
    hide MustReplace, EntryNotes, Notes, Render, Texts, Replay, Replaced, DistinctKeys;
  }

  // A made source throws exactly when what it renders is empty, and says which text.
  lemma MadeThrowsIff<A, V>(source: Source<A, V>, previous: Snapshot<V>, what: string)
    requires source.load.Some?
    ensures ThrowsFor(Make(source), previous, what)
            <==> if source.key in previous then
                   var old_ := source.fromJson(previous[source.key].value);
                   && old_.Some? && !source.equivalent(old_.value, source.load.value)
                   && source.update(old_.value, source.load.value) == ""
                   && what == "System context source " + source.key + " rendered an empty update"
                 else
                   && source.baseline(source.load.value) == ""
                   && what == "System context source " + source.key + " rendered an empty baseline"
  {
    var lead := "System context source " + source.key + " rendered an empty ";
    SameMessage(source.key, "update");
    SameMessage(source.key, "baseline");
  }

  lemma SameMessage(key: string, kind: string)
    ensures "System context source " + key + " rendered an empty " + kind
            == "System context source " + key + (" rendered an empty " + kind)
  {
  }
}
