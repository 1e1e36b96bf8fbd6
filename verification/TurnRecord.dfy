// src/agent.cpp, run_turn: what the messages of a turn say, told from the events of the provider
// and the results of the tools alone.
module TurnRecord {
  import opened Bytes
  import opened AgentTurn

  function Delta(e: Event): string { if e.TextDelta? then e.text else "" }

  // The text the model spoke.
  function Spoken(events: seq<Event>): string {
    if events == [] then "" else Delta(events[0]) + Spoken(events[1..])
  }

  lemma {:induction false} SpokenSnoc(events: seq<Event>, e: Event)
    ensures Spoken(events + [e]) == Spoken(events) + Delta(e)
  {
    hide Delta;
    if events == [] {
      assert [e][1..] == [] && events + [e] == [e];
    } else {
      assert (events + [e])[1..] == events[1..] + [e];
      SpokenSnoc(events[1..], e);
      ConcatAssoc(Delta(events[0]), Spoken(events[1..]), Delta(e));
    }
  }

  lemma {:induction false} TextIsSpoken(events: seq<Event>)
    ensures Collected(events).text == Spoken(events)
  {
    if events != [] {
      var init, e := events[..|events| - 1], events[|events| - 1];
      TextIsSpoken(init);
      assert events == init + [e];
      SpokenSnoc(init, e);
    }
  }

  // ---- one round ----

  function EventsOf(env: Env, step: nat): seq<Event> { env.complete(step).events }

  // The block asks for the tool call that starts at event `s`, with the input the events feed it,
  // or no input when that does not parse.
  predicate Asks(env: Env, events: seq<Event>, s: nat, b: Block) {
    && s < |events| && events[s].ToolStart? && b.ToolUse? && b.id == events[s].id && b.name == events[s].name
    && var fed := Fed(events[s + 1..], events[s].index);
       b.input == if fed != "" && env.parses(fed) then fed else "{}"
  }

  // The message is what the model answered in this step: its text, unless there is none, and then
  // the calls in the order they started.
  predicate Says(env: Env, step: nat, m: Message) {
    var events := EventsOf(env, step);
    var lead := if Spoken(events) == "" then 0 else 1;
    && m.role == Assistant && |m.content| == lead + |Starts(events)|
    && (lead == 1 ==> m.content[0] == Text(Spoken(events)))
    && forall k :: 0 <= k < |Starts(events)| ==> Asks(env, events, Starts(events)[k], m.content[lead + k])
  }

  // The message tells the model how its k-th call in this step went.
  predicate Tells(env: Env, step: nat, k: nat, m: Message) {
    var events := EventsOf(env, step);
    && k < |Starts(events)| && Starts(events)[k] < |events|
    && var call := events[Starts(events)[k]];
       && call.ToolStart? && m.role == User && |m.content| == 1
       && m.content[0].ToolResult? && m.content[0].id == call.id
       && match env.run(step, k)
          case Unknown => m.content[0].content == "Error: Unknown tool: " + call.name
          case Raises(what) => m.content[0].content == "Error: " + what
          case Gives(result) => m.content[0].content == result
          case Escapes => false
  }

  predicate ToldFrom(env: Env, step: nat, k: nat, msgs: seq<Message>) {
    k + |msgs| == |Starts(EventsOf(env, step))| && forall i :: 0 <= i < |msgs| ==> Tells(env, step, k + i, msgs[i])
  }

  predicate Round(env: Env, step: nat, msgs: seq<Message>) {
    msgs != [] && Says(env, step, msgs[0]) && ToldFrom(env, step, 0, msgs[1..])
  }

  // The rounds of the first `n` steps, one after the other.
  predicate Rounds(env: Env, n: nat, msgs: seq<Message>) {
    if n == 0 then msgs == []
    else
      var size := 1 + |Starts(EventsOf(env, n - 1))|;
      size <= |msgs| && Rounds(env, n - 1, msgs[..|msgs| - size]) && Round(env, n - 1, msgs[|msgs| - size..])
  }

  predicate Called(env: Env, step: nat) { Starts(EventsOf(env, step)) != [] }

  predicate AllCalled(env: Env, n: nat) { forall j :: 0 <= j < n ==> Called(env, j) }

  predicate NoneThrew(env: Env, n: nat) { forall j :: 0 <= j < n ==> !env.complete(j).throws }

  // The history before the turn, the prompt, and the rounds of its first `n` steps.
  predicate Recorded(env: Env, history: seq<Message>, prompt: string, n: nat, msgs: seq<Message>) {
    && |history| < |msgs| && msgs[..|history|] == history
    && msgs[|history|].role == User && msgs[|history|].content == [Text(prompt)]
    && Rounds(env, n, msgs[|history| + 1..])
  }

  // ---- the model's answer and the replies ----

  lemma AnswerSays(env: Env, step: nat)
    ensures Says(env, step, AssistantMessage(env, Collected(EventsOf(env, step))))
  {
    var events := EventsOf(env, step);
    var r := Collected(events);
    CollectsTheCalls(events);
    TextIsSpoken(events);
    hide Collected, Starts, Spoken, Fed, EventsOf;
    var m := AssistantMessage(env, r);
    var lead := if Spoken(events) == "" then 0 else 1;
    forall k | 0 <= k < |Starts(events)| ensures Asks(env, events, Starts(events)[k], m.content[lead + k]) {
      assert Faithful(events, r, k);
    }
  }

  lemma ReplyTells(env: Env, step: nat, k: nat)
    requires k < |Starts(EventsOf(env, step))| && !env.run(step, k).Escapes?
    ensures k < |Collected(EventsOf(env, step)).calls|
    ensures Tells(env, step, k, ToolMessage(Collected(EventsOf(env, step)).calls[k], env.run(step, k)))
  {
    var events := EventsOf(env, step);
    CollectsTheCalls(events);
    hide Collected, Starts, Fed, EventsOf;
    assert Faithful(events, Collected(events), k);
  }

  lemma {:induction false} ToolsTell(env: Env, step: nat, k: nat, messages: seq<Message>, clock: nat)
    requires k <= |Starts(EventsOf(env, step))|
    ensures |Collected(EventsOf(env, step)).calls| == |Starts(EventsOf(env, step))|
    ensures var t := Tools(env, step, Collected(EventsOf(env, step)).calls, k, messages, clock);
            && messages <= t.messages && clock <= t.clock
            && (t.escaped || env.Cancelled(t.clock) || ToldFrom(env, step, k, t.messages[|messages|..]))
            && (t.escaped ==> SomeEscapes(env, step))
    decreases |Starts(EventsOf(env, step))| - k
  {
    var events := EventsOf(env, step);
    var calls := Collected(events).calls;
    CollectsTheCalls(events);
    hide Collected, Starts, EventsOf, Tells, ToolMessage;
    if k < |calls| && !env.Cancelled(clock) {
      if env.run(step, k).Escapes? {
        assert SomeEscapes(env, step);
      } else {
        var m := ToolMessage(calls[k], env.run(step, k));
        ReplyTells(env, step, k);
        ToolsTell(env, step, k + 1, messages + [m], clock + 1);
        var t := Tools(env, step, calls, k + 1, messages + [m], clock + 1);
        assert Tools(env, step, calls, k, messages, clock) == t;
        hide Tools;
        if !t.escaped && !env.Cancelled(t.clock) { OneMoreTold(env, step, k, m, messages, t.messages); }
      }
    }
  }

  ghost predicate SomeEscapes(env: Env, step: nat) { exists k :: env.run(step, k).Escapes? }

  lemma OneMoreTold(env: Env, step: nat, k: nat, m: Message, before: seq<Message>, after: seq<Message>)
    requires before + [m] <= after && Tells(env, step, k, m) && ToldFrom(env, step, k + 1, after[|before| + 1..])
    ensures ToldFrom(env, step, k, after[|before|..])
  {
    hide Tells;
    var msgs, rest := after[|before|..], after[|before| + 1..];
    assert msgs == [m] + rest;
    forall i | 0 <= i < |msgs| ensures Tells(env, step, k + i, msgs[i]) {
      if i > 0 { assert msgs[i] == rest[i - 1]; }
    }
  }

  // ---- the steps of a turn ----

  lemma RoundRecorded(env: Env, history: seq<Message>, prompt: string, step: nat,
                      before: seq<Message>, a: Message, after: seq<Message>)
    requires Recorded(env, history, prompt, step, before) && Says(env, step, a) && before + [a] <= after
    requires ToldFrom(env, step, 0, after[|before| + 1..])
    ensures Recorded(env, history, prompt, step + 1, after)
  {
    var from := |history| + 1;
    var msgs, round := after[from..], after[|before|..];
    assert round[1..] == after[|before| + 1..] && round[0] == a;
    hide Says, ToldFrom;
    assert Round(env, step, round);
    assert |round| == 1 + |Starts(EventsOf(env, step))| by { assert ToldFrom(env, step, 0, round[1..]); ToldCount(env, step, round[1..]); }
    assert msgs[..|msgs| - |round|] == before[from..] && msgs[|msgs| - |round|..] == round;
    assert after[..|history|] == before[..|history|] && after[|history|] == before[|history|];
    hide Round;
  }

  lemma ToldCount(env: Env, step: nat, msgs: seq<Message>)
    requires ToldFrom(env, step, 0, msgs)
    ensures |msgs| == |Starts(EventsOf(env, step))|
  {
  }

  // What complete() was given at step `step`.
  predicate SawRecord(env: Env, history: seq<Message>, prompt: string, step: nat, s: Seen) {
    s.cancelled || Recorded(env, history, prompt, step, s.history)
  }

  predicate AllSawRecord(env: Env, history: seq<Message>, prompt: string, log: seq<Seen>) {
    forall j :: 0 <= j < |log| ==> SawRecord(env, history, prompt, j, log[j])
  }

  // Where each way out of the step loop leaves the history.
  ghost predicate EndsRecorded(env: Env, history: seq<Message>, prompt: string, e: LoopEnd) {
    match e.ending
    case Answered =>
      && 0 < |e.log| <= MAX_STEPS && Recorded(env, history, prompt, |e.log|, e.messages) && NoneThrew(env, |e.log|)
      && AllCalled(env, |e.log| - 1) && !Called(env, |e.log| - 1)
    case Exhausted =>
      env.Cancelled(e.clock)
      || (|e.log| == MAX_STEPS && Recorded(env, history, prompt, MAX_STEPS, e.messages) && AllCalled(env, MAX_STEPS)
          && NoneThrew(env, MAX_STEPS))
    case Aborted => env.Cancelled(e.clock)
    case Threw => Faulty(env, |e.log|)
  }

  // Something throws in the last of `n` steps, or before the first.
  ghost predicate Faulty(env: Env, n: nat) {
    if n == 0 then env.contextThrows else env.complete(n - 1).throws || SomeEscapes(env, n - 1)
  }

  // One step that neither throws nor is cancelled records its round.
  lemma StepRecords(env: Env, history: seq<Message>, prompt: string, step: nat, messages: seq<Message>, clock: nat)
    requires Recorded(env, history, prompt, step, messages)
    ensures var r := Collected(EventsOf(env, step));
            var said := messages + [AssistantMessage(env, r)];
            var t := Tools(env, step, r.calls, 0, said, clock);
            && (r.calls == [] <==> !Called(env, step))
            && (r.calls == [] ==> Recorded(env, history, prompt, step + 1, said))
            && clock <= t.clock && (t.escaped ==> SomeEscapes(env, step))
            && (t.escaped || env.Cancelled(t.clock) || Recorded(env, history, prompt, step + 1, t.messages))
  {
    var r := Collected(EventsOf(env, step));
    var a := AssistantMessage(env, r);
    var said := messages + [a];
    AnswerSays(env, step);
    ToolsTell(env, step, 0, said, clock);
    var t := Tools(env, step, r.calls, 0, said, clock);
    hide AssistantMessage, Tools, Collected, Recorded, Says, SomeEscapes;
    if r.calls == [] {
      assert said[|messages| + 1..] == [];
      RoundRecorded(env, history, prompt, step, messages, a, said);
    }
    if !t.escaped && !env.Cancelled(t.clock) {
      RoundRecorded(env, history, prompt, step, messages, a, t.messages);
    }
  }

  lemma SawOneMore(env: Env, history: seq<Message>, prompt: string, log: seq<Seen>, s: Seen)
    requires AllSawRecord(env, history, prompt, log)
    requires s.cancelled || Recorded(env, history, prompt, |log|, s.history)
    ensures AllSawRecord(env, history, prompt, log + [s])
  {
    hide Recorded;
  }

  lemma OneMoreCalled(env: Env, n: nat)
    ensures AllCalled(env, n + 1) <==> AllCalled(env, n) && Called(env, n)
    ensures NoneThrew(env, n + 1) <==> NoneThrew(env, n) && !env.complete(n).throws
  {
    hide Called;
  }

  lemma {:induction false} StepsRecord(env: Env, history: seq<Message>, prompt: string, step: nat,
                                       messages: seq<Message>, clock: nat, log: seq<Seen>)
    requires step == |log| <= MAX_STEPS && AllSawRecord(env, history, prompt, log)
    requires env.Cancelled(clock) || (Recorded(env, history, prompt, step, messages) && AllCalled(env, step) && NoneThrew(env, step))
    ensures var e := Steps(env, step, messages, clock, log);
            EndsRecorded(env, history, prompt, e) && AllSawRecord(env, history, prompt, e.log)
    decreases MAX_STEPS - step
  {
    hide Recorded, Called, SomeEscapes, AllSawRecord, AllCalled, NoneThrew, Tools, Collected, AssistantMessage;
    if step < MAX_STEPS {
      var s := Seen(messages, env.Cancelled(clock));
      var c := env.complete(step);
      SawOneMore(env, history, prompt, log, s);
      OneMoreCalled(env, step);
      if !c.throws && !env.Cancelled(clock + 1) {
        StepRecords(env, history, prompt, step, messages, clock + 2);
        var r := Collected(EventsOf(env, step));
        var t := Tools(env, step, r.calls, 0, messages + [AssistantMessage(env, r)], clock + 2);
        StepsGoOn(env, step, messages, clock, log);
        if r.calls != [] && !t.escaped {
          hide EndsRecorded, Steps;
          StepsRecord(env, history, prompt, step + 1, t.messages, t.clock, log + [s]);
        }
      }
    }
  }

  lemma StepsGoOn(env: Env, step: nat, messages: seq<Message>, clock: nat, log: seq<Seen>)
    requires step < MAX_STEPS && !env.complete(step).throws && !env.Cancelled(clock + 1)
    ensures var r := Collected(EventsOf(env, step));
            var t := Tools(env, step, r.calls, 0, messages + [AssistantMessage(env, r)], clock + 2);
            r.calls != [] && !t.escaped ==>
              Steps(env, step, messages, clock, log)
              == Steps(env, step + 1, t.messages, t.clock, log + [Seen(messages, env.Cancelled(clock))])
  {
    hide Tools, Collected, AssistantMessage;
  }

  lemma OnlyThePrompt(env: Env, history: seq<Message>, prompt: string)
    ensures Recorded(env, history, prompt, 0, history + [UserMessage(prompt)])
  {
    var base := history + [UserMessage(prompt)];
    assert base[|history| + 1..] == [] && base[..|history|] == history;
  }

  // Whatever the provider and the tools do and whenever cancellation comes: a turn that is
  // cancelled or in which something throws leaves the history as it was, any other leaves the
  // record of its steps. With code 0 the last of them called no tool, with code 1 all ten did.
  lemma TurnLeavesItsRecord(env: Env, history: seq<Message>, prompt: string)
    ensures var e := Turn(env, history, prompt);
            || (e.messages == history && (e.rc == CANCELLED || (e.rc == 1 && Faulty(env, |e.log|))))
            || (1 <= |e.log| <= 10 && Recorded(env, history, prompt, |e.log|, e.messages)
                && !env.contextThrows && NoneThrew(env, |e.log|) && AllCalled(env, |e.log| - 1)
                && if Called(env, |e.log| - 1) then e.rc == 1 && |e.log| == 10 else e.rc == 0)
    ensures AllSawRecord(env, history, prompt, Turn(env, history, prompt).log)
  {
    if env.contextThrows { return; }
    var base := history + [UserMessage(prompt)];
    OnlyThePrompt(env, history, prompt);
    assert AllSawRecord(env, history, prompt, []) && AllCalled(env, 0) && NoneThrew(env, 0);
    hide Recorded, Steps, AllSawRecord, Called, AllCalled, NoneThrew, UserMessage, SomeEscapes;
    StepsRecord(env, history, prompt, 0, base, 0, []);
    OneMoreCalled(env, MAX_STEPS - 1);
    TurnOfSteps(env, history, prompt, Steps(env, 0, base, 0, []));
    hide Turn;
  }

  lemma TurnOfSteps(env: Env, history: seq<Message>, prompt: string, e: LoopEnd)
    requires e == Steps(env, 0, history + [UserMessage(prompt)], 0, []) && !env.contextThrows
    ensures var t := Turn(env, history, prompt);
            && t.log == e.log
            && (e.ending.Answered? ==> t.rc == 0 && t.messages == e.messages)
            && (e.ending.Threw? ==> (t.rc == 1 || t.rc == CANCELLED) && t.messages == history)
            && (e.ending.Exhausted? || e.ending.Aborted? ==>
                  if env.Cancelled(e.clock) then t.rc == CANCELLED && t.messages == history
                  else t.rc == 1 && t.messages == e.messages)
  {
    hide Steps;
  }
}
