// src/agent.cpp, build_system_prompt: one agent's context over its turns.
module ContextSession {
  import opened Bytes
  import opened Ordering
  import opened SystemContext

  datatype ContextState<V> = ContextState(initialized: bool, text: string, snapshot: Snapshot<V>)

  const FRESH_TEXT: string := ""

  function Start<V>(): ContextState<V> { ContextState(false, FRESH_TEXT, map[]) }

  type Load<!V> = Outcome<seq<Entry<V>>>

  ghost predicate Loadable<V>(load: Load<V>) { load.Done? ==> DistinctKeys(load.value) }

  // What one turn tells the model. Silent also stands for repeating the last text.
  datatype Emission<V> = Silent | Delta(notes: seq<Note<V>>) | Whole(notes: seq<Note<V>>)

  ghost function Emit<V>(s: ContextState<V>, load: Load<V>): Emission<V>
    requires Loadable(load)
  {
    if load.Threw? then Silent
    else if !s.initialized then
      if AnyUnavailable(load.value) || EntryNotes(load.value, map[]).Threw? then Silent
      else Whole(EntryNotes(load.value, map[]).value)
    else
      var r := Reconciled(load.value, s.snapshot);
      if r.Done? && r.value.Updated? then Delta(Notes(load.value, s.snapshot).value)
      else if r.Done? && r.value.ReplacementReady? then Whole(EntryNotes(load.value, map[]).value)
      else Silent
  }

  function Tell<V>(told: Snapshot<V>, e: Emission<V>): Snapshot<V> {
    match e
    case Silent => told
    case Delta(notes) => Replay(told, notes)
    case Whole(notes) => Replay(map[], notes)
  }

  ghost predicate AptEmission<V>(told: Snapshot<V>, e: Emission<V>) {
    match e
    case Silent => true
    case Delta(notes) => notes != [] && AllApt(told, notes)
    case Whole(notes) => AllApt(map[], notes)
  }

  // The agent's fields after a turn on `load`.
  ghost function Advance<V>(s: ContextState<V>, load: Load<V>): ContextState<V>
    requires Loadable(load)
  {
    match Emit(s, load)
    case Silent => s
    case Delta(notes) => ContextState(true, Render(Texts(notes)), Replay(s.snapshot, notes))
    case Whole(notes) => ContextState(true, Render(Texts(notes)), Replay(map[], notes))
  }

  // The exception build_system_prompt lets through, if any.
  ghost predicate Throws<V>(s: ContextState<V>, load: Load<V>)
    requires Loadable(load)
  {
    || load.Threw?
    || (!s.initialized && !AnyUnavailable(load.value) && EntryNotes(load.value, map[]).Threw?)
    || (s.initialized && Reconciled(load.value, s.snapshot).Threw?)
  }

  class AgentContext<V(==)> {
    var initialized: bool
    var text: string
    var snapshot: Snapshot<V>

    ghost function State(): ContextState<V>
      reads this
    {
      ContextState(initialized, text, snapshot)
    }

    constructor ()
      ensures State() == Start()
    {
      initialized, text, snapshot := false, FRESH_TEXT, map[];
    }

    // `load` is what the registry's loaders and their sources answer this turn.
    method BuildSystemPrompt(base: string, load: Load<V>) returns (out: Outcome<string>, warned: seq<string>)
      requires Loadable(load) && (!initialized ==> text == FRESH_TEXT)
      modifies this
      ensures State() == Advance(old(State()), load)
      ensures out.Threw? <==> Throws(old(State()), load)
      ensures out.Done? ==> out.value == if text == "" then base else base + "\n\n" + text
      ensures !old(initialized) && load.Done?
              ==> forall k :: k in warned <==> exists i :: 0 <= i < |load.value| && load.value[i] == Unavailable(k)
      ensures old(initialized) || load.Threw? ==> warned == []
    {
      warned := [];
      if load.Threw? { return Threw(load.what), []; }
      var context := load.value;
      if !initialized {
        var r := Initialize(context);
        if r.Threw? { return Threw(r.what), []; }
        if r.value.Blocked? { return Done(base), r.value.keys; }
        text := r.value.generation.baseline;
        snapshot := r.value.generation.snapshot;
        initialized := true;
        return Done(if text != "" then base + "\n\n" + text else base), [];
      }
      var reconciled := Reconcile(context, snapshot);
      if reconciled.Threw? { return Threw(reconciled.what), []; }
      match reconciled.value
      case Unchanged(_) =>
        return Done(if text != "" then base + "\n\n" + text else base), [];
      case Updated(updates, next) =>
        text := updates;
        snapshot := next;
        return Done(if updates != "" then base + "\n\n" + updates else base), [];
      case ReplacementReady(generation) =>
        text := generation.baseline;
        snapshot := generation.snapshot;
        return Done(if text != "" then base + "\n\n" + text else base), [];
      case ReplacementBlocked =>
        return Done(if text != "" then base + "\n\n" + text else base), [];
    }
  }

  // ---- whole runs ----

  ghost function StateAfter<V>(loads: seq<Load<V>>): ContextState<V>
    requires forall i :: 0 <= i < |loads| ==> Loadable(loads[i])
  {
    if loads == [] then Start() else Advance(StateAfter(loads[..|loads| - 1]), loads[|loads| - 1])
  }

  // What the model holds after hearing every text of a run.
  ghost function ToldAfter<V>(loads: seq<Load<V>>): Snapshot<V>
    requires forall i :: 0 <= i < |loads| ==> Loadable(loads[i])
  {
    if loads == [] then map[]
    else Tell(ToldAfter(loads[..|loads| - 1]), Emit(StateAfter(loads[..|loads| - 1]), loads[|loads| - 1]))
  }

  // Over every run, replaying the emitted texts yields the agent's snapshot, and whatever the
  // next turn says is apt for a model that heard the run.
  lemma {:induction false} ToldIsSnapshot<V>(loads: seq<Load<V>>, next: Load<V>)
    requires forall i :: 0 <= i < |loads| ==> Loadable(loads[i])
    requires Loadable(next)
    ensures ToldAfter(loads) == StateAfter(loads).snapshot
    ensures AptEmission(ToldAfter(loads), Emit(StateAfter(loads), next))
  {
    if loads != [] {
      ToldIsSnapshot(loads[..|loads| - 1], loads[|loads| - 1]);
    }
    EmitIsApt(StateAfter(loads), next);
  }

  lemma EmitIsApt<V>(s: ContextState<V>, load: Load<V>)
    requires Loadable(load)
    ensures AptEmission(s.snapshot, Emit(s, load))
  {
    match Emit(s, load)
    case Silent =>
    case Delta(_) => NotesReplay(load.value, s.snapshot);
    case Whole(_) => EntryNotesApt(load.value, map[]);
  }

  // ---- what the prompt of one turn says on its own ----

  ghost predicate Mentions<V>(notes: seq<Note<V>>, k: string) {
    exists i :: 0 <= i < |notes| && notes[i].key == k
  }

  // Two models that hear the same notes agree on every key the notes mention.
  lemma {:induction false} MentionedAgree<V>(a: Snapshot<V>, b: Snapshot<V>, notes: seq<Note<V>>, k: string)
    ensures Mentions(notes, k) ==> AgreeOn(Replay(a, notes), Replay(b, notes), k)
    ensures !Mentions(notes, k) ==> AgreeOn(Replay(a, notes), a, k)
  {
    if notes != [] {
      var n := |notes| - 1;
      MentionedAgree(a, b, notes[..n], k);
      if Mentions(notes, k) && notes[n].key != k {
        var i :| 0 <= i < |notes| && notes[i].key == k;
        assert notes[..n][i].key == k;
      }
      if !Mentions(notes, k) {
        assert notes[n].key != k;
        assert !Mentions(notes[..n], k) by {
          forall i | 0 <= i < n ensures notes[..n][i].key != k { assert notes[i].key != k; }
        }
      }
    }
  }

  // After an update the prompt carries the update alone. It tells a model without memory the
  // whole snapshot exactly when it mentions every key of the snapshot.
  lemma DeltaAloneIff<V>(s: ContextState<V>, load: Load<V>)
    requires Loadable(load) && Emit(s, load).Delta?
    ensures var notes := Emit(s, load).notes;
            var next := Advance(s, load).snapshot;
            Replay(map[], notes) == next <==> forall k :: k in next ==> Mentions(notes, k)
  {
    var notes := Emit(s, load).notes;
    var next := Advance(s, load).snapshot;
    var alone: Snapshot<V> := Replay(map[], notes);
    forall k ensures Mentions(notes, k) ==> AgreeOn(alone, next, k)
             ensures !Mentions(notes, k) ==> k !in alone
    {
      MentionedAgree(map[], s.snapshot, notes, k);
    }
    if forall k :: k in next ==> Mentions(notes, k) {
      forall k ensures AgreeOn(alone, next, k) { assert !Mentions(notes, k) ==> k !in next; }
      assert alone.Keys == next.Keys;
    }
  }

  // A source whose value is its text and that has no removal text.
  function Plain(key: string, value: string): Entry<string> {
    var now := Rendered(value, Held(value));
    Available(key, Loaded(Done(now), (previous: string) => if previous == value then Same else Changed(Done(now))))
  }

  function Held(value: string): SourceSnapshot<string> { SourceSnapshot(value, None) }

  lemma PlainNote(key: string, value: string, previous: Snapshot<string>)
    ensures EntryNote(Plain(key, value), previous)
            == Done(if key !in previous then [Baseline(key, value, Held(value))]
                    else if previous[key].value == value then []
                    else [Update(key, value, previous[key], Held(value))])
    ensures !Stale(Plain(key, value), previous)
  {
  }

  lemma PairNotes(a: Entry<string>, b: Entry<string>, previous: Snapshot<string>)
    requires EntryNote(a, previous).Done? && EntryNote(b, previous).Done?
    ensures EntryNotes([a, b], previous) == Done(EntryNote(a, previous).value + EntryNote(b, previous).value)
  {
    EntryNotesSnoc([], a, previous);
    EntryNotesSnoc([a], b, previous);
    assert [] + [a] == [a] && [a] + [b] == [a, b];
    hide EntryNote;
    var none: seq<Note<string>> := [];
    assert none + EntryNote(a, previous).value == EntryNote(a, previous).value;
  }

  lemma {:induction false} NothingRemoved(keys: seq<string>, registered: set<string>, previous: Snapshot<string>)
    requires Removable(keys, registered, previous) && forall k :: k in keys ==> k in registered
    ensures RemovalNotes(keys, registered, previous) == []
  {
    if keys != [] { NothingRemoved(keys[..|keys| - 1], registered, previous); }
  }

  lemma BothTold(k: string, l: string, v: string, u: string)
    requires k != l
    ensures Loadable(Done([Plain(k, v), Plain(l, u)]))
    ensures var s := Advance(Start(), Done([Plain(k, v), Plain(l, u)]));
            s.initialized && s.snapshot == map[k := Held(v), l := Held(u)]
  {
    var a, b := Plain(k, v), Plain(l, u);
    PlainNote(k, v, map[]);
    PlainNote(l, u, map[]);
    PairNotes(a, b, map[]);
    HearBoth(k, l, v, u);
    hide EntryNotes, EntryNote, Render, Texts, Replay;
    var told := [Baseline(k, v, Held(v)), Baseline(l, u, Held(u))];
    assert [told[0]] + [told[1]] == told;
  }

  lemma OnlyChangeNoted(k: string, l: string, v: string, w: string, u: string)
    requires k != l && v != w
    ensures EntryNotes([Plain(k, w), Plain(l, u)], map[k := Held(v), l := Held(u)])
            == Done([Update(k, w, Held(v), Held(w))])
  {
    var snapshot := map[k := Held(v), l := Held(u)];
    PlainNote(k, w, snapshot);
    PlainNote(l, u, snapshot);
    PairNotes(Plain(k, w), Plain(l, u), snapshot);
    hide EntryNotes, EntryNote, Plain;
    var notes := [Update(k, w, Held(v), Held(w))];
    assert notes + [] == notes;
  }

  // Two sources are told, and then the first changes: the prompt of that turn carries the change
  // alone and does not mention the second, which the snapshot still holds.
  lemma DeltaOmitsUnchanged(k: string, l: string, v: string, w: string, u: string)
    requires k != l && v != w
    ensures var first, next := Done([Plain(k, v), Plain(l, u)]), Done([Plain(k, w), Plain(l, u)]);
            && Loadable(first) && Loadable(next)
            && var s := Advance(Start(), first);
               && Emit(s, next) == Delta([Update(k, w, Held(v), Held(w))])
               && l in Advance(s, next).snapshot && !Mentions(Emit(s, next).notes, l)
  {
    var first, next := Done([Plain(k, v), Plain(l, u)]), Done([Plain(k, w), Plain(l, u)]);
    var notes := [Update(k, w, Held(v), Held(w))];
    BothTold(k, l, v, u);
    BothTold(k, l, w, u);
    OnlyChangeNoted(k, l, v, w, u);
    var s := Advance(Start(), first);
    PlainNote(k, w, s.snapshot);
    PlainNote(l, u, s.snapshot);
    ChangeNoted(Plain(k, w), Plain(l, u), s.snapshot, notes);
    hide EntryNotes, Render, Texts, Advance;
    assert Emit(s, next) == Delta(notes);
    assert Advance(s, next).snapshot == Hear(s.snapshot, notes[0]) by { ReplayOf(s, next, notes); }
  }

  lemma ReplayOf(s: ContextState<string>, next: Load<string>, notes: seq<Note<string>>)
    requires Loadable(next) && Emit(s, next) == Delta(notes) && |notes| == 1
    ensures Advance(s, next).snapshot == Hear(s.snapshot, notes[0])
  {
    ReplaySingle(s.snapshot, notes[0]);
    assert [notes[0]] == notes;
    hide Emit, Render, Texts, Replay;
  }

  lemma HearBoth(k: string, l: string, v: string, u: string)
    requires k != l
    ensures Replay(map[], [Baseline(k, v, Held(v)), Baseline(l, u, Held(u))]) == map[k := Held(v), l := Held(u)]
  {
    var a, b := Baseline(k, v, Held(v)), Baseline(l, u, Held(u));
    ReplaySingle(map[], a);
    ReplaySnoc(map[], [a], b);
    assert [a] + [b] == [a, b];
  }

  lemma ChangeNoted(a: Entry<string>, b: Entry<string>, snapshot: Snapshot<string>, notes: seq<Note<string>>)
    requires EntryNotes([a, b], snapshot) == Done(notes) && notes != []
    requires !Stale(a, snapshot) && !Stale(b, snapshot) && snapshot.Keys == {a.key, b.key}
    ensures Reconciled([a, b], snapshot) == Done(Updated(Render(Texts(notes)), Replay(snapshot, notes)))
    ensures !MustReplace([a, b], snapshot) && Notes([a, b], snapshot) == Done(notes)
  {
    var entries := [a, b];
    assert KeysOf(entries) == {a.key, b.key} by { assert entries[0] == a && entries[1] == b; }
    hide EntryNotes, Stale, KeysOf;
    assert !MustReplace(entries, snapshot);
    AllStoredRemovable(entries, snapshot);
    NothingRemoved(SortedKeys(snapshot.Keys), KeysOf(entries), snapshot);
    assert notes + [] == notes;
    hide MustReplace, Render, Texts, Replay, RemovalNotes;
  }
}
