// src/agent.cpp: the tool loop of run_turn and the bridge that collects one model response.
module AgentTurn {
  import opened Bytes

  datatype Role = User | Assistant

  datatype Block =
    | Text(text: string)
    | ToolUse(id: string, name: string, input: string)
    | ToolResult(id: string, content: string)

  datatype Message = Message(role: Role, content: seq<Block>)

  datatype Event =
    | TextDelta(text: string)
    | ToolStart(index: int, id: string, name: string)
    | InputDelta(index: int, input: string)
    | ToolEnd
    | MessageEnd

  datatype ActiveCall = ActiveCall(id: string, name: string, json: string)

  // ---- TurnBridge ----

  datatype Response = Response(text: string, calls: seq<ActiveCall>, index: map<int, nat>)

  predicate Indexed(r: Response) { forall i :: i in r.index ==> r.index[i] < |r.calls| }

  function Absorb(r: Response, e: Event): (s: Response)
    requires Indexed(r)
    ensures Indexed(s)
  {
    match e
    case TextDelta(text) => r.(text := r.text + text)
    case ToolStart(i, id, name) => r.(calls := r.calls + [ActiveCall(id, name, "")], index := r.index[i := |r.calls|])
    case InputDelta(i, input) =>
      if i in r.index then
        var k := r.index[i];
        r.(calls := r.calls[k := r.calls[k].(json := r.calls[k].json + input)])
      else r
    case _ => r
  }

  function Collected(events: seq<Event>): (r: Response)
    ensures Indexed(r)
  {
    if events == [] then Response("", [], map[]) else Absorb(Collected(events[..|events| - 1]), events[|events| - 1])
  }

  class TurnBridge {
    var text: string
    var calls: seq<ActiveCall>
    var index: map<int, nat>

    ghost function State(): Response
      reads this
    {
      Response(text, calls, index)
    }

    constructor ()
      ensures State() == Collected([])
    {
      text, calls, index := "", [], map[];
    }

    method OnEvent(e: Event)
      requires Indexed(State())
      modifies this
      ensures State() == Absorb(old(State()), e)
    {
      match e
      case TextDelta(t) => text := text + t;
      case ToolStart(i, id, name) =>
        calls := calls + [ActiveCall(id, name, "")];
        index := index[i := |calls| - 1];
      case InputDelta(i, input) =>
        if i in index {
          var k := index[i];
          calls := calls[k := calls[k].(json := calls[k].json + input)];
        }
      case _ =>
    }
  }

  // Where the tool calls of a response start.
  function Starts(events: seq<Event>): seq<nat> {
    if events == [] then []
    else Starts(events[..|events| - 1]) + if events[|events| - 1].ToolStart? then [|events| - 1] else []
  }

  // The input a call with index `i` gets from the events after its start: the deltas with that
  // index, up to the next start that takes the index over.
  function Fed(events: seq<Event>, i: int): string {
    if events == [] then ""
    else match events[0]
      case InputDelta(j, input) => (if j == i then input else "") + Fed(events[1..], i)
      case ToolStart(j, _, _) => if j == i then "" else Fed(events[1..], i)
      case _ => Fed(events[1..], i)
  }

  predicate TakenOver(events: seq<Event>, i: int) {
    exists k :: 0 <= k < |events| && events[k].ToolStart? && events[k].index == i
  }

  lemma {:induction false} FedSnoc(events: seq<Event>, e: Event, i: int)
    ensures Fed(events + [e], i)
            == Fed(events, i) + if e.InputDelta? && e.index == i && !TakenOver(events, i) then e.input else ""
  {
    if events == [] {
      assert [e][1..] == [];
      assert [e] == events + [e];
    } else {
      var rest := events[1..];
      assert (events + [e])[1..] == rest + [e];
      FedSnoc(rest, e, i);
      TakenOverCons(events, i);
    }
  }

  lemma TakenOverCons(events: seq<Event>, i: int)
    requires events != []
    ensures TakenOver(events, i) <==> (events[0].ToolStart? && events[0].index == i) || TakenOver(events[1..], i)
  {
    if TakenOver(events, i) {
      var k :| 0 <= k < |events| && events[k].ToolStart? && events[k].index == i;
      if k > 0 { assert events[1..][k - 1] == events[k]; }
    }
    if TakenOver(events[1..], i) {
      var k :| 0 <= k < |events[1..]| && events[1..][k].ToolStart? && events[1..][k].index == i;
      assert events[k + 1] == events[1..][k];
    }
  }

  lemma TakenOverSnoc(events: seq<Event>, e: Event, i: int)
    ensures TakenOver(events + [e], i) <==> TakenOver(events, i) || (e.ToolStart? && e.index == i)
  {
    var all := events + [e];
    if TakenOver(all, i) {
      var k :| 0 <= k < |all| && all[k].ToolStart? && all[k].index == i;
      if k < |events| { assert events[k] == all[k]; }
    }
    if TakenOver(events, i) {
      var k :| 0 <= k < |events| && events[k].ToolStart? && events[k].index == i;
      assert all[k] == events[k];
    }
    assert all[|events|] == e;
  }

  // The k-th collected call is the k-th that started, with the input the events fed it.
  predicate Faithful(events: seq<Event>, r: Response, k: nat) {
    && k < |r.calls| == |Starts(events)|
    && var s := Starts(events)[k];
       s < |events| && events[s].ToolStart?
       && r.calls[k] == ActiveCall(events[s].id, events[s].name, Fed(events[s + 1..], events[s].index))
  }

  // An index leads to the last call that started with it.
  predicate Current(events: seq<Event>, r: Response, k: nat) {
    && k < |Starts(events)|
    && var s := Starts(events)[k];
       s < |events| && events[s].ToolStart?
       && (!TakenOver(events[s + 1..], events[s].index)
           <==> events[s].index in r.index && r.index[events[s].index] == k)
       && (forall j :: j in r.index && r.index[j] == k ==> j == events[s].index)
  }

  lemma {:induction false} CollectsTheCalls(events: seq<Event>)
    ensures |Collected(events).calls| == |Starts(events)|
    ensures forall k :: 0 <= k < |Starts(events)| ==> Faithful(events, Collected(events), k)
    ensures forall k :: 0 <= k < |Starts(events)| ==> Current(events, Collected(events), k)
  {
    if events != [] {
      var n := |events| - 1;
      var e, before := events[n], events[..n];
      CollectsTheCalls(before);
      assert events == before + [e];
      var r := Collected(before);
      hide Collected;
      CollectStep(before, e, r);
    }
  }

  lemma CollectStep(events: seq<Event>, e: Event, r: Response)
    requires Indexed(r) && |r.calls| == |Starts(events)|
    requires forall k :: 0 <= k < |Starts(events)| ==> Faithful(events, r, k)
    requires forall k :: 0 <= k < |Starts(events)| ==> Current(events, r, k)
    ensures |Absorb(r, e).calls| == |Starts(events + [e])|
    ensures forall k :: 0 <= k < |Starts(events + [e])| ==> Faithful(events + [e], Absorb(r, e), k)
    ensures forall k :: 0 <= k < |Starts(events + [e])| ==> Current(events + [e], Absorb(r, e), k)
  {
    StartsSnoc(events, e);
    forall k | 0 <= k < |Starts(events + [e])|
      ensures Faithful(events + [e], Absorb(r, e), k) && Current(events + [e], Absorb(r, e), k)
    {
      if k < |Starts(events)| {
        OldCall(events, e, r, k);
      } else {
        NewCall(events, e, r);
      }
    }
  }

  lemma StartsSnoc(events: seq<Event>, e: Event)
    ensures Starts(events + [e]) == Starts(events) + if e.ToolStart? then [|events|] else []
  {
    assert (events + [e])[..|events|] == events;
  }

  lemma NewCall(events: seq<Event>, e: Event, r: Response)
    requires Indexed(r) && |r.calls| == |Starts(events)| && e.ToolStart?
    ensures Faithful(events + [e], Absorb(r, e), |r.calls|) && Current(events + [e], Absorb(r, e), |r.calls|)
  {
    StartsSnoc(events, e);
    assert (events + [e])[|events| + 1..] == [];
  }

  lemma OldStart(events: seq<Event>, e: Event, k: nat) returns (s: nat)
    requires k < |Starts(events)| && Starts(events)[k] < |events| && events[Starts(events)[k]].ToolStart?
    ensures s == Starts(events)[k] && s < |events| && events[s].ToolStart?
    ensures k < |Starts(events + [e])| && Starts(events + [e])[k] == s
    ensures (events + [e])[s] == events[s]
    ensures (events + [e])[s + 1..] == events[s + 1..] + [e]
  {
    s := Starts(events)[k];
    StartsSnoc(events, e);
  }

  lemma AbsorbCounts(events: seq<Event>, e: Event, r: Response)
    requires Indexed(r) && |r.calls| == |Starts(events)|
    ensures |Absorb(r, e).calls| == |Starts(events + [e])|
  {
    StartsSnoc(events, e);
  }

  lemma OldCall(events: seq<Event>, e: Event, r: Response, k: nat)
    requires Indexed(r) && |r.calls| == |Starts(events)| && k < |r.calls|
    requires Faithful(events, r, k) && Current(events, r, k)
    ensures Faithful(events + [e], Absorb(r, e), k) && Current(events + [e], Absorb(r, e), k)
  {
    var s := OldStart(events, e, k);
    hide *;
    AbsorbCounts(events, e, r);
    FedSnoc(events[s + 1..], e, events[s].index);
    TakenOverSnoc(events[s + 1..], e, events[s].index);
    OldFaithful(events, e, r, k, s);
    OldCurrent(events, e, r, k, s);
  }

  lemma OldFaithful(events: seq<Event>, e: Event, r: Response, k: nat, s: nat)
    requires Indexed(r) && k < |r.calls| == |Starts(events)| && |Absorb(r, e).calls| == |Starts(events + [e])|
    requires Faithful(events, r, k) && Current(events, r, k) && s == Starts(events)[k] == Starts(events + [e])[k]
    requires (events + [e])[s] == events[s]
    requires Fed((events + [e])[s + 1..], events[s].index)
             == Fed(events[s + 1..], events[s].index)
                + if e.InputDelta? && e.index == events[s].index && !TakenOver(events[s + 1..], events[s].index)
                  then e.input else ""
    ensures Faithful(events + [e], Absorb(r, e), k)
  {
    hide Starts, Fed, TakenOver;
    var after := events[s + 1..];
    var i := events[s].index;
    assert r.calls[k] == ActiveCall(events[s].id, events[s].name, Fed(after, i));
    if e.InputDelta? && e.index in r.index && r.index[e.index] == k {
      assert e.index == i && !TakenOver(after, i);
    } else {
      assert !(e.InputDelta? && e.index == i && !TakenOver(after, i));
      assert Fed(after, i) + "" == Fed(after, i);
      assert Absorb(r, e).calls[k] == r.calls[k];
    }
  }

  lemma OldCurrent(events: seq<Event>, e: Event, r: Response, k: nat, s: nat)
    requires Indexed(r) && k < |r.calls| == |Starts(events)| && k < |Starts(events + [e])|
    requires Current(events, r, k) && s == Starts(events)[k] == Starts(events + [e])[k]
    requires (events + [e])[s] == events[s]
    requires TakenOver((events + [e])[s + 1..], events[s].index)
             <==> TakenOver(events[s + 1..], events[s].index) || (e.ToolStart? && e.index == events[s].index)
    ensures Current(events + [e], Absorb(r, e), k)
  {
    hide Starts, TakenOver;
  }

  // ---- run_turn ----

  const MAX_STEPS: nat := 10
  const CANCELLED: int := 2

  // complete(): the events it delivers before it returns or throws.
  datatype Completion = Completion(events: seq<Event>, throws: bool)

  // One tool call: no such tool, an exception inside it, a result, or an exception while the
  // result is reported to the swarm, which run_turn's own handler catches.
  datatype ToolRun = Unknown | Raises(what: string) | Gives(result: string) | Escapes

  // Everything outside the loop. Cancellation is monotone within a turn, so a threshold on the
  // number of times the loop has looked at the flag says when it rises.
  datatype Env = Env(
    complete: nat -> Completion,
    run: (nat, nat) -> ToolRun,
    parses: string -> bool,
    contextThrows: bool,
    cancelAt: Option<nat>)
  {
    predicate Cancelled(clock: int) { cancelAt.Some? && cancelAt.value <= clock }
  }

  // The history complete() was given, and whether cancellation had already been requested.
  datatype Seen = Seen(history: seq<Message>, cancelled: bool)

  function UserMessage(text: string): Message { Message(User, [Text(text)]) }

  function InputOf(env: Env, json: string): string { if json != "" && env.parses(json) then json else "{}" }

  function UseBlocks(env: Env, calls: seq<ActiveCall>): (blocks: seq<Block>)
    ensures |blocks| == |calls|
  {
    seq(|calls|, k requires 0 <= k < |calls| => ToolUse(calls[k].id, calls[k].name, InputOf(env, calls[k].json)))
  }

  function AssistantMessage(env: Env, r: Response): Message {
    Message(Assistant, (if r.text == "" then [] else [Text(r.text)]) + UseBlocks(env, r.calls))
  }

  function ResultText(name: string, o: ToolRun): string {
    match o
    case Unknown => "Error: Unknown tool: " + name
    case Raises(what) => "Error: " + what
    case Gives(result) => result
    case Escapes => ""
  }

  function ToolMessage(call: ActiveCall, o: ToolRun): Message {
    Message(User, [ToolResult(call.id, ResultText(call.name, o))])
  }

  datatype ToolsEnd = ToolsEnd(messages: seq<Message>, clock: nat, escaped: bool)

  // The tool calls of one step, from the k-th on.
  function Tools(env: Env, step: nat, calls: seq<ActiveCall>, k: nat, messages: seq<Message>, clock: nat): ToolsEnd
    decreases |calls| - k
  {
    if k >= |calls| then ToolsEnd(messages, clock, false)
    else if env.Cancelled(clock) then ToolsEnd(messages, clock + 1, false)
    else if env.run(step, k).Escapes? then ToolsEnd(messages, clock + 1, true)
    else Tools(env, step, calls, k + 1, messages + [ToolMessage(calls[k], env.run(step, k))], clock + 1)
  }

  // How the loop over steps ends.
  datatype Ending = Answered | Exhausted | Aborted | Threw

  datatype LoopEnd = LoopEnd(ending: Ending, messages: seq<Message>, clock: nat, log: seq<Seen>)

  function Steps(env: Env, step: nat, messages: seq<Message>, clock: nat, log: seq<Seen>): LoopEnd
    decreases MAX_STEPS - step
  {
    if step >= MAX_STEPS then LoopEnd(Exhausted, messages, clock, log)
    else
      var seen := log + [Seen(messages, env.Cancelled(clock))];
      if env.complete(step).throws then LoopEnd(Threw, messages, clock + 1, seen)
      else if env.Cancelled(clock + 1) then LoopEnd(Aborted, messages, clock + 2, seen)
      else
        var r := Collected(env.complete(step).events);
        var said := messages + [AssistantMessage(env, r)];
        if r.calls == [] then LoopEnd(Answered, said, clock + 2, seen)
        else
          var t := Tools(env, step, r.calls, 0, said, clock + 2);
          if t.escaped then LoopEnd(Threw, t.messages, t.clock, seen)
          else Steps(env, step + 1, t.messages, t.clock, seen)
  }

  datatype TurnEnd = TurnEnd(rc: int, messages: seq<Message>, log: seq<Seen>)

  function Turn(env: Env, history: seq<Message>, prompt: string): TurnEnd {
    if env.contextThrows then TurnEnd(if env.Cancelled(1) then CANCELLED else 1, history, [])
    else
      var e := Steps(env, 0, history + [UserMessage(prompt)], 0, []);
      match e.ending
      case Answered => TurnEnd(0, e.messages, e.log)
      case Threw => TurnEnd(if env.Cancelled(e.clock + 1) then CANCELLED else 1, history, e.log)
      case _ => if env.Cancelled(e.clock) then TurnEnd(CANCELLED, history, e.log) else TurnEnd(1, e.messages, e.log)
  }

  class Agent {
    var messages: seq<Message>

    // `prompt` is the effective prompt, swarm notices included.
    method RunTurn(prompt: string, env: Env) returns (rc: int, log: seq<Seen>)
      modifies this
      ensures TurnEnd(rc, messages, log) == Turn(env, old(messages), prompt)
    {
      var historyStart := |messages|;
      messages := messages + [UserMessage(prompt)];
      log := [];
      var clock, ending := 0, Threw;
      if !env.contextThrows {
        ending, clock, log := StepLoop(env);
      }
      match ending {
        case Answered => rc := 0;
        case Threw =>
          rc := if env.Cancelled(clock + 1) then CANCELLED else 1;
          Rollback(historyStart);
        case _ =>
          if env.Cancelled(clock) {
            rc := CANCELLED;
            Rollback(historyStart);
          } else {
            rc := 1;
          }
      }
    }

    method Rollback(historyStart: nat)
      modifies this
      ensures messages == if historyStart < |old(messages)| then old(messages)[..historyStart] else old(messages)
    {
      if |messages| > historyStart { messages := messages[..historyStart]; }
    }

    method StepLoop(env: Env) returns (ending: Ending, clock: nat, log: seq<Seen>)
      modifies this
      ensures LoopEnd(ending, messages, clock, log) == Steps(env, 0, old(messages), 0, [])
      ensures old(messages) <= messages
    {
      hide Tools, Collected, AssistantMessage;
      ending, clock, log := Exhausted, 0, [];
      var step := 0;
      while step < MAX_STEPS
        invariant step <= MAX_STEPS && old(messages) <= messages
        invariant Steps(env, step, messages, clock, log) == Steps(env, 0, old(messages), 0, [])
        invariant ending == Exhausted
      {
        log := log + [Seen(messages, env.Cancelled(clock))];
        var c := env.complete(step);
        var r := Collect(c.events);
        if c.throws {
          ending, clock := Threw, clock + 1;
          return;
        }
        if env.Cancelled(clock + 1) {
          ending, clock := Aborted, clock + 2;
          return;
        }
        messages := messages + [AssistantMessage(env, r)];
        clock := clock + 2;
        if r.calls == [] {
          ending := Answered;
          return;
        }
        var escaped;
        escaped, clock := ToolLoop(env, step, r.calls, clock);
        if escaped {
          ending := Threw;
          return;
        }
        step := step + 1;
      }
    }

    method ToolLoop(env: Env, step: nat, calls: seq<ActiveCall>, start: nat) returns (escaped: bool, clock: nat)
      modifies this
      ensures ToolsEnd(messages, clock, escaped) == Tools(env, step, calls, 0, old(messages), start)
      ensures old(messages) <= messages
    {
      escaped, clock := false, start;
      var k := 0;
      while k < |calls|
        invariant k <= |calls| && old(messages) <= messages && !escaped
        invariant Tools(env, step, calls, k, messages, clock) == Tools(env, step, calls, 0, old(messages), start)
      {
        clock := clock + 1;
        if env.Cancelled(clock - 1) { break; }
        var o := env.run(step, k);
        if o.Escapes? {
          escaped := true;
          break;
        }
        messages := messages + [ToolMessage(calls[k], o)];
        k := k + 1;
      }
    }
  }

  method Collect(events: seq<Event>) returns (r: Response)
    ensures r == Collected(events)
  {
    var bridge := new TurnBridge();
    for i := 0 to |events|
      invariant bridge.State() == Collected(events[..i])
      invariant fresh(bridge)
    {
      assert events[..i + 1][..i] == events[..i];
      bridge.OnEvent(events[i]);
    }
    assert events[..|events|] == events;
    r := Response(bridge.text, bridge.calls, bridge.index);
  }

  // ---- what a history looks like ----

  function IdsOf(blocks: seq<Block>): seq<string> {
    if blocks == [] then []
    else IdsOf(blocks[..|blocks| - 1]) + if blocks[|blocks| - 1].ToolUse? then [blocks[|blocks| - 1].id] else []
  }

  // The ids of the tool uses an assistant message asks for.
  function Uses(m: Message): seq<string> { IdsOf(m.content) }

  predicate IsReply(m: Message, id: string) {
    m.role == User && |m.content| == 1 && m.content[0].ToolResult? && m.content[0].id == id
  }

  predicate Replies(ids: seq<string>, msgs: seq<Message>) {
    |msgs| == |ids| && forall k :: 0 <= k < |ids| ==> IsReply(msgs[k], ids[k])
  }

  // Assistant messages, each followed at once by one reply to each of its tool uses, in order.
  predicate Closed(msgs: seq<Message>)
    decreases |msgs|
  {
    msgs == [] ||
    (var n := |Uses(msgs[0])|;
     msgs[0].role == Assistant && n < |msgs| && Replies(Uses(msgs[0]), msgs[1..n + 1]) && Closed(msgs[n + 1..]))
  }

  lemma ClosedCons(a: Message, replies: seq<Message>, rest: seq<Message>)
    requires a.role == Assistant && Replies(Uses(a), replies) && Closed(rest)
    ensures Closed([a] + (replies + rest))
  {
    var all := [a] + (replies + rest);
    hide Uses;
    assert all[1..|replies| + 1] == replies && all[|replies| + 1..] == rest && all[0] == a;
    hide Replies;
  }

  lemma ClosedSplit(msgs: seq<Message>) returns (head: Message, given: seq<Message>, rest: seq<Message>)
    requires Closed(msgs) && msgs != []
    ensures msgs == [head] + (given + rest)
    ensures head.role == Assistant && Replies(Uses(head), given) && Closed(rest)
  {
    hide Uses, Replies;
    head, given, rest := msgs[0], msgs[1..|Uses(msgs[0])| + 1], msgs[|Uses(msgs[0])| + 1..];
  }

  lemma {:induction false} ClosedRound(msgs: seq<Message>, a: Message, replies: seq<Message>)
    requires Closed(msgs) && a.role == Assistant && Replies(Uses(a), replies)
    ensures Closed(msgs + ([a] + replies))
    decreases |msgs|
  {
    if msgs == [] {
      ClosedFirst(msgs, a, replies);
    } else {
      var head, given, rest := ClosedSplit(msgs);
      hide *;
      ClosedRound(rest, a, replies);
      ClosedCons(head, given, rest + ([a] + replies));
      Regroup([head], given, rest, [a] + replies);
    }
  }

  lemma ClosedFirst(none: seq<Message>, a: Message, replies: seq<Message>)
    requires none == [] && a.role == Assistant && Replies(Uses(a), replies)
    ensures Closed(none + ([a] + replies))
  {
    hide Uses, Replies;
    ClosedCons(a, replies, []);
    assert replies + [] == replies;
    assert none + ([a] + replies) == [a] + replies;
  }

  lemma Regroup<T>(a: seq<T>, b: seq<T>, c: seq<T>, d: seq<T>)
    ensures (a + (b + c)) + d == a + (b + (c + d))
  {
    ConcatAssoc(a, b + c, d);
    ConcatAssoc(b, c, d);
  }

  lemma {:induction false} IdsOfAppend(a: seq<Block>, b: seq<Block>)
    ensures IdsOf(a + b) == IdsOf(a) + IdsOf(b)
  {
    if b == [] {
      assert a + b == a;
      assert IdsOf(a) + [] == IdsOf(a);
    } else {
      var n := |b| - 1;
      assert (a + b)[..|a + b| - 1] == a + b[..n];
      IdsOfAppend(a, b[..n]);
    }
  }

  predicate CallIds(calls: seq<ActiveCall>, ids: seq<string>) {
    |ids| == |calls| && forall k :: 0 <= k < |calls| ==> ids[k] == calls[k].id
  }

  lemma {:induction false} UseBlocksIds(env: Env, calls: seq<ActiveCall>)
    ensures CallIds(calls, IdsOf(UseBlocks(env, calls)))
  {
    if calls != [] {
      var n := |calls| - 1;
      UseBlocksIds(env, calls[..n]);
      assert UseBlocks(env, calls)[..n] == UseBlocks(env, calls[..n]);
    }
  }

  lemma AssistantUses(env: Env, r: Response)
    ensures CallIds(r.calls, Uses(AssistantMessage(env, r)))
  {
    var lead := if r.text == "" then [] else [Text(r.text)];
    assert IdsOf(lead) == [];
    IdsOfAppend(lead, UseBlocks(env, r.calls));
    UseBlocksIds(env, r.calls);
  }

  // Replies to the calls from the k-th on.
  predicate Handled(calls: seq<ActiveCall>, k: nat, msgs: seq<Message>) {
    k + |msgs| == |calls| && forall i :: 0 <= i < |msgs| ==> IsReply(msgs[i], calls[k + i].id)
  }

  // Unless cancelled or escaped, the tools leave one reply per call, in order.
  lemma {:induction false} ToolsReply(env: Env, step: nat, calls: seq<ActiveCall>, k: nat,
                                      messages: seq<Message>, clock: nat)
    requires k <= |calls|
    ensures var t := Tools(env, step, calls, k, messages, clock);
            messages <= t.messages && clock <= t.clock
            && (t.escaped || env.Cancelled(t.clock) || Handled(calls, k, t.messages[|messages|..]))
    decreases |calls| - k
  {
    if k < |calls| && !env.Cancelled(clock) && !env.run(step, k).Escapes? {
      var m := ToolMessage(calls[k], env.run(step, k));
      ToolsReply(env, step, calls, k + 1, messages + [m], clock + 1);
      var t := Tools(env, step, calls, k + 1, messages + [m], clock + 1);
      if !t.escaped && !env.Cancelled(t.clock) {
        assert t.messages[|messages|..] == [m] + t.messages[|messages| + 1..];
        assert IsReply(m, calls[k].id);
        hide Tools, IsReply;
      }
    }
  }

  // `msgs` continues `base` with closed rounds.
  predicate ClosedAfter(base: seq<Message>, msgs: seq<Message>) { base <= msgs && Closed(msgs[|base|..]) }

  predicate SawClosed(base: seq<Message>, s: Seen) { s.cancelled || ClosedAfter(base, s.history) }

  predicate AllSawClosed(base: seq<Message>, log: seq<Seen>) { forall i :: 0 <= i < |log| ==> SawClosed(base, log[i]) }

  lemma ClosedAfterRound(base: seq<Message>, msgs: seq<Message>, a: Message, all: seq<Message>)
    requires ClosedAfter(base, msgs) && a.role == Assistant && msgs + [a] <= all && Replies(Uses(a), all[|msgs| + 1..])
    ensures ClosedAfter(base, all)
  {
    ClosedRound(msgs[|base|..], a, all[|msgs| + 1..]);
    assert all[|base|..] == msgs[|base|..] + ([a] + all[|msgs| + 1..]);
  }

  // One step that neither throws nor is cancelled closes its round.
  lemma StepCloses(env: Env, base: seq<Message>, messages: seq<Message>, r: Response, step: nat, clock: nat)
    requires ClosedAfter(base, messages)
    ensures r.calls == [] ==> ClosedAfter(base, messages + [AssistantMessage(env, r)])
    ensures var t := Tools(env, step, r.calls, 0, messages + [AssistantMessage(env, r)], clock);
            base <= t.messages && clock <= t.clock
            && (t.escaped || env.Cancelled(t.clock) || ClosedAfter(base, t.messages))
  {
    var a := AssistantMessage(env, r);
    var said := messages + [a];
    AssistantUses(env, r);
    ToolsReply(env, step, r.calls, 0, said, clock);
    var t := Tools(env, step, r.calls, 0, said, clock);
    hide AssistantMessage, Tools, Closed, Uses;
    if r.calls == [] {
      assert said[|messages| + 1..] == [];
      ClosedAfterRound(base, messages, a, said);
    }
    if !t.escaped && !env.Cancelled(t.clock) {
      HandledReplies(r.calls, Uses(a), t.messages[|said|..]);
      ClosedAfterRound(base, messages, a, t.messages);
    }
  }

  lemma HandledReplies(calls: seq<ActiveCall>, ids: seq<string>, msgs: seq<Message>)
    requires CallIds(calls, ids) && Handled(calls, 0, msgs)
    ensures Replies(ids, msgs)
  {
    hide IsReply;
  }

  lemma AllSawClosedSnoc(base: seq<Message>, log: seq<Seen>, s: Seen)
    requires AllSawClosed(base, log) && SawClosed(base, s)
    ensures AllSawClosed(base, log + [s])
  {
    hide SawClosed;
  }

  // Where each way out of the step loop leaves the history.
  predicate EndsWell(env: Env, base: seq<Message>, e: LoopEnd) {
    match e.ending
    case Answered => ClosedAfter(base, e.messages)
    case Exhausted => ClosedAfter(base, e.messages) || env.Cancelled(e.clock)
    case Aborted => env.Cancelled(e.clock)
    case Threw => true
  }

  lemma {:induction false} StepsEndWell(env: Env, base: seq<Message>, step: nat,
                                        messages: seq<Message>, clock: nat, log: seq<Seen>)
    requires base <= messages && (ClosedAfter(base, messages) || env.Cancelled(clock)) && AllSawClosed(base, log)
    requires step <= MAX_STEPS
    ensures var e := Steps(env, step, messages, clock, log);
            && EndsWell(env, base, e) && AllSawClosed(base, e.log)
            && |e.log| <= |log| + MAX_STEPS - step
            && (e.ending.Exhausted? ==> |e.log| == |log| + MAX_STEPS - step)
    decreases MAX_STEPS - step
  {
    if step < MAX_STEPS {
      var s := Seen(messages, env.Cancelled(clock));
      AllSawClosedSnoc(base, log, s);
      hide ClosedAfter, AllSawClosed;
      var c := env.complete(step);
      if !c.throws && !env.Cancelled(clock + 1) {
        var r := Collected(c.events);
        StepCloses(env, base, messages, r, step, clock + 2);
        var t := Tools(env, step, r.calls, 0, messages + [AssistantMessage(env, r)], clock + 2);
        if r.calls != [] && !t.escaped {
          StepsEndWell(env, base, step + 1, t.messages, t.clock, log + [s]);
        }
      }
    }
  }

  // Whatever the provider and the tools do and whenever cancellation comes: either the history
  // is as it was before the turn, or it is the old history, the prompt and closed rounds. A
  // cancelled turn is of the first kind.
  lemma TurnKeepsHistoryWhole(env: Env, history: seq<Message>, prompt: string)
    ensures var e := Turn(env, history, prompt);
            && (e.messages == history || ClosedAfter(history + [UserMessage(prompt)], e.messages))
            && (e.rc == CANCELLED ==> e.messages == history && env.cancelAt.Some?)
            && (e.rc == 0 ==> ClosedAfter(history + [UserMessage(prompt)], e.messages))
            && 0 <= e.rc <= CANCELLED
  {
    var base := history + [UserMessage(prompt)];
    assert base[|base|..] == [];
    assert ClosedAfter(base, base);
    StepsEndWell(env, base, 0, base, 0, []);
    hide ClosedAfter, Steps, AllSawClosed;
  }

  // A turn in which the context, the provider or the reporting of a result throws restores the
  // history exactly; what is left with code 1 otherwise is ten full rounds.
  lemma FailureRestoresOrExhausts(env: Env, history: seq<Message>, prompt: string)
    ensures var e := Turn(env, history, prompt);
            e.rc == 1 ==> || e.messages == history
                          || (|e.log| == MAX_STEPS && ClosedAfter(history + [UserMessage(prompt)], e.messages))
    ensures var base := history + [UserMessage(prompt)];
            env.contextThrows || Steps(env, 0, base, 0, []).ending.Threw? ==> Turn(env, history, prompt).messages == history
  {
    var base := history + [UserMessage(prompt)];
    assert base[|base|..] == [];
    assert ClosedAfter(base, base);
    StepsEndWell(env, base, 0, base, 0, []);
    hide ClosedAfter, Steps, AllSawClosed;
  }

  // Every complete() call sees such a history, unless cancellation has already been requested;
  // there are at most ten.
  lemma CompleteSeesClosedRounds(env: Env, history: seq<Message>, prompt: string)
    ensures AllSawClosed(history + [UserMessage(prompt)], Turn(env, history, prompt).log)
    ensures |Turn(env, history, prompt).log| <= MAX_STEPS
  {
    var base := history + [UserMessage(prompt)];
    assert base[|base|..] == [];
    assert ClosedAfter(base, base);
    StepsEndWell(env, base, 0, base, 0, []);
    hide ClosedAfter, Steps;
  }

  lemma {:induction false} ToolsClock(env: Env, step: nat, calls: seq<ActiveCall>, k: nat,
                                      messages: seq<Message>, clock: nat)
    ensures clock <= Tools(env, step, calls, k, messages, clock).clock
    decreases |calls| - k
  {
    if k < |calls| && !env.Cancelled(clock) && !env.run(step, k).Escapes? {
      ToolsClock(env, step, calls, k + 1, messages + [ToolMessage(calls[k], env.run(step, k))], clock + 1);
    }
  }

  // When the loop begun at `clock` ended as `e`: it looked after the first response at the
  // earliest, and the flag was down at the last look before an answer and up after an abort.
  predicate Timely(env: Env, step: nat, clock: nat, e: LoopEnd) {
    && clock <= e.clock
    && (step < MAX_STEPS ==> e.clock >= clock + if e.ending.Threw? then 1 else 2)
    && (e.ending.Answered? ==> clock < e.clock && !env.Cancelled(e.clock - 1))
    && (e.ending.Aborted? ==> env.Cancelled(e.clock))
  }

  lemma {:induction false} StepsTimely(env: Env, step: nat, messages: seq<Message>, clock: nat, log: seq<Seen>)
    ensures Timely(env, step, clock, Steps(env, step, messages, clock, log))
    decreases MAX_STEPS - step
  {
    hide Tools, Collected, AssistantMessage;
    if step < MAX_STEPS && !env.complete(step).throws && !env.Cancelled(clock + 1) {
      var r := Collected(env.complete(step).events);
      var said := messages + [AssistantMessage(env, r)];
      var t := Tools(env, step, r.calls, 0, said, clock + 2);
      ToolsClock(env, step, r.calls, 0, said, clock + 2);
      if r.calls != [] && !t.escaped {
        StepsTimely(env, step + 1, t.messages, t.clock, log + [Seen(messages, env.Cancelled(clock))]);
      }
    }
  }

  // The last time the turn looks at the cancel flag.
  function LastLook(env: Env, history: seq<Message>, prompt: string): int {
    if env.contextThrows then 1
    else
      var e := Steps(env, 0, history + [UserMessage(prompt)], 0, []);
      match e.ending
      case Answered => e.clock - 1
      case Threw => e.clock + 1
      case _ => e.clock
  }

  // A turn returns kCancelled exactly when the flag was up the last time it looked, so a cancel
  // that is there when the first response has arrived always wins.
  lemma CancelledIff(env: Env, history: seq<Message>, prompt: string)
    ensures LastLook(env, history, prompt) >= 1
    ensures Turn(env, history, prompt).rc == CANCELLED <==> env.Cancelled(LastLook(env, history, prompt))
  {
    StepsTimely(env, 0, history + [UserMessage(prompt)], 0, []);
    hide Steps;
  }
}
