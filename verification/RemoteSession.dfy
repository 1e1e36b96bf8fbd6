// src/remote/remote_agent.cpp: the client's side of the turn rendezvous, and that client joined
// to the server's threads by the two directions of its connection.
module RemoteSession {
  import opened Bytes
  import S = SessionProtocol

  // The fields turn_mu_ protects, and connected_.
  datatype Client = Client(connected: bool, turnActive: bool, cancelPending: bool, turnRc: int)

  function Begun(c: Client): Client { c.(turnActive := true, cancelPending := false, turnRc := 1) }

  function Released(c: Client): Client { c.(turnActive := false) }

  function Cancelling(c: Client): Client { if c.turnActive then c.(cancelPending := true) else c }

  function Received(c: Client, f: S.ServerFrame): Client {
    if f.TurnDone? then c.(turnRc := f.rc, cancelPending := false, turnActive := false) else c
  }

  function Dropped(c: Client): Client { c.(connected := false, turnActive := false) }

  class RemoteAgent {
    var connected: bool
    var turnActive: bool
    var cancelPending: bool
    var turnRc: int

    ghost function State(): Client
      reads this
    {
      Client(connected, turnActive, cancelPending, turnRc)
    }

    // run_turn goes on only if this finds the connection up; nothing is held between this test
    // and Arm.
    method CheckConnected() returns (ok: bool)
      ensures ok <==> connected
    {
      ok := connected;
    }

    // The first section of run_turn.
    method Arm()
      modifies this
      ensures State() == Begun(old(State()))
      ensures turnActive && !cancelPending && turnRc == 1 && connected == old(connected)
    {
      turnActive, cancelPending, turnRc := true, false, 1;
    }

    // run_turn after a prompt that could not be sent.
    method PromptFailed() returns (rc: int)
      modifies this
      ensures rc == 1 && State() == Released(old(State()))
    {
      turnActive := false;
      rc := 1;
    }

    method CancelTurn() returns (send: bool)
      modifies this
      ensures State() == Cancelling(old(State()))
      ensures cancelPending == (old(cancelPending) || old(turnActive))
      ensures turnActive == old(turnActive) && turnRc == old(turnRc) && connected == old(connected)
      ensures send <==> old(turnActive && connected)
    {
      send := false;
      if turnActive {
        cancelPending := true;
        send := connected;
      }
    }

    // handle_frame, for the frames of a turn. A stream frame is shown only while its turn is
    // active and has not been cancelled.
    method HandleFrame(f: S.ServerFrame) returns (shown: bool)
      modifies this
      ensures State() == Received(old(State()), f)
      ensures f.TurnDone? ==> !turnActive && !cancelPending && turnRc == f.rc && connected == old(connected)
      ensures shown <==> f.Stream? && old(turnActive && !cancelPending)
    {
      shown := false;
      match f
      case Stream(_) => shown := turnActive && !cancelPending;
      case Ctx(_) =>
      case TurnDone(rc, _) => turnRc, cancelPending, turnActive := rc, false, false;
    }

    // A shutdown or bye frame.
    method HandleShutdown()
      modifies this
      ensures State() == Dropped(old(State()))
      ensures !connected && !turnActive && cancelPending == old(cancelPending) && turnRc == old(turnRc)
    {
      connected := false;
      turnActive := false;
    }
  }

  // ---- client and server joined ----

  // run_turn past its test of connected_, between its two sections, and waiting for turn_active_
  // to fall.
  datatype Call = Idle | Checked(text: string) | Armed(text: string) | Waiting

  // What one run_turn call returned, and the prompt whose turn_done it returned it for.
  datatype Result = Result(call: nat, rc: int, answer: Option<nat>)

  datatype Remote = Remote(
    session: S.Session,          // the server's threads for this client
    wire: seq<S.ClientFrame>,    // frames the client has sent; the server has taken a prefix
    seen: nat,                   // how many of session.sent the client's reader has handled
    client: Client,
    call: Call,
    calls: nat,                  // run_turn calls begun so far
    open: bool,                  // the last prompt sent has no answer yet
    answer: Option<nat>,         // the prompt of the last turn_done handled in this call
    cancels: multiset<nat>,      // cancel_turn calls that have decided to send and have not yet
    results: seq<Result>)

  function Fresh(): Remote {
    Remote(S.NewSession(), [], 0, Client(true, false, false, 1), Idle, 0, false, None, multiset{}, [])
  }

  datatype Move =
    | Begin(text: string)
    | Arm
    | SendPrompt(ok: bool)
    | Return
    | CancelTurn
    | SendCancel(call: nat, ok: bool)
    | SendOther
    | Receive
    | Gone
    | Server(act: S.Label)

  predicate Enabled(r: Remote, m: Move) {
    match m
    case Begin(_) => r.call.Idle? && r.client.connected
    case Arm => r.call.Checked?
    case SendPrompt(ok) => r.call.Armed? && (ok ==> r.call.text != "")
    case Return => r.call.Waiting? && !r.client.turnActive
    case CancelTurn => true
    case SendCancel(call, _) => call in r.cancels
    case SendOther => true
    case Receive => r.seen < |r.session.sent|
    case Gone => true
    case Server(l) =>
      && S.Enabled(r.session, l)
      && (l.Take? ==> |r.session.handled| < |r.wire| && l.frame == r.wire[|r.session.handled|])
  }

  function Sent(r: Remote, f: S.ClientFrame): Remote { r.(wire := r.wire + [f]) }

  function Next(r: Remote, m: Move): Remote
    requires Enabled(r, m)
  {
    match m
    case Begin(text) => r.(call := Checked(text), calls := r.calls + 1, answer := None)
    case Arm => r.(client := Begun(r.client), call := Armed(r.call.text))
    case SendPrompt(ok) =>
      if ok then Sent(r, S.Prompt(r.call.text, r.calls)).(call := Waiting, open := true)
      else r.(client := Released(r.client), call := Idle, results := r.results + [Result(r.calls, 1, None)])
    case Return => r.(call := Idle, results := r.results + [Result(r.calls, r.client.turnRc, r.answer)])
    case CancelTurn =>
      var sends := r.client.turnActive && r.client.connected;
      r.(client := Cancelling(r.client), cancels := if sends then r.cancels + multiset{r.calls} else r.cancels)
    case SendCancel(call, ok) =>
      var w := r.(cancels := r.cancels - multiset{call});
      if ok then Sent(w, S.Cancel(call)) else w
    case SendOther => Sent(r, S.Other(r.calls))
    case Receive =>
      var f := r.session.sent[r.seen];
      var w := r.(seen := r.seen + 1, client := Received(r.client, f));
      if f.TurnDone? then w.(open := false, answer := Some(f.prompt)) else w
    case Gone => r.(client := Dropped(r.client))
    case Server(l) => r.(session := S.Step(r.session, l))
  }

  // A disciplined client has sent off every cancel before it starts the next turn.
  predicate Disciplined(r: Remote, m: Move) { m.Begin? ==> r.cancels == multiset{} }

  ghost predicate Run(disciplined: bool, states: seq<Remote>, moves: seq<Move>) {
    && |states| == |moves| + 1 && states[0] == Fresh()
    && forall i :: 0 <= i < |moves| ==>
         Enabled(states[i], moves[i]) && states[i + 1] == Next(states[i], moves[i])
         && (disciplined ==> Disciplined(states[i], moves[i]))
  }

  // ---- the k-th answer is for the k-th prompt ----

  // The positions of the prompts among the frames sent.
  function Asked(wire: seq<S.ClientFrame>): seq<nat> {
    if wire == [] then []
    else Asked(wire[..|wire| - 1]) + if wire[|wire| - 1].Prompt? then [|wire| - 1] else []
  }

  // The prompts that turn_done frames answer, in order.
  function Dones(sent: seq<S.ServerFrame>): seq<nat> {
    if sent == [] then []
    else Dones(sent[..|sent| - 1]) + if sent[|sent| - 1].TurnDone? then [sent[|sent| - 1].prompt] else []
  }

  lemma AskedSnoc(wire: seq<S.ClientFrame>, f: S.ClientFrame)
    ensures Asked(wire + [f]) == Asked(wire) + if f.Prompt? then [|wire|] else []
  {
    assert (wire + [f])[..|wire|] == wire;
  }

  lemma DonesSnoc(sent: seq<S.ServerFrame>, f: S.ServerFrame)
    ensures Dones(sent + [f]) == Dones(sent) + if f.TurnDone? then [f.prompt] else []
  {
    assert (sent + [f])[..|sent|] == sent;
  }

  lemma {:induction false} AskedAre(wire: seq<S.ClientFrame>, p: nat)
    ensures p in Asked(wire) <==> p < |wire| && wire[p].Prompt?
  {
    if wire != [] {
      var n := |wire| - 1;
      AskedAre(wire[..n], p);
    }
  }

  lemma {:induction false} DonesAnswered(sent: seq<S.ServerFrame>, p: nat)
    requires p in Dones(sent)
    ensures S.Answers(sent, p) >= 1
  {
    var n := |sent| - 1;
    if p in Dones(sent[..n]) { DonesAnswered(sent[..n], p); }
  }

  lemma {:induction false} DonesPrefix(sent: seq<S.ServerFrame>, n: nat)
    requires n <= |sent|
    ensures Dones(sent[..n]) <= Dones(sent)
  {
    if n == |sent| {
      assert sent[..n] == sent;
    } else {
      var m := |sent| - 1;
      DonesPrefix(sent[..m], n);
      assert sent[..m][..n] == sent[..n];
    }
  }

  function Last(s: seq<nat>): nat
    requires s != []
  {
    s[|s| - 1]
  }

  predicate Framed(r: Remote) {
    && |r.session.handled| <= |r.wire| && r.session.handled == r.wire[..|r.session.handled|]
    && r.seen <= |r.session.sent|
    && (forall i :: 0 <= i < |r.wire| && r.wire[i].Prompt? ==> S.IsPrompt(r.wire[i]))
  }

  predicate Phases(r: Remote) {
    && (r.open && r.client.connected ==> r.call.Waiting? && r.client.turnActive)
    && (r.call.Checked? || r.call.Armed? ==> !r.open && r.answer.None?)
    && (r.call.Armed? && r.client.connected ==> r.client.turnActive)
    && (r.client.turnActive ==> r.call.Armed? || r.call.Waiting?)
    && (r.call.Waiting? && r.client.connected && !r.client.turnActive ==> r.answer.Some?)
    && (r.answer.None? && !r.call.Checked? ==> r.client.turnRc == 1)
  }

  // What has been asked is what the client has seen answered, and the open prompt; what the
  // server has answered beyond that is that prompt.
  predicate Rendezvous(r: Remote) {
    && r.seen <= |r.session.sent|
    && SeenAre(r, Dones(r.session.sent[..r.seen]))
  }

  predicate SeenAre(r: Remote, seen: seq<nat>) {
    && (r.open ==> Asked(r.wire) != [])
    && Asked(r.wire) == seen + (if r.open then [Last(Asked(r.wire))] else [])
    && (Dones(r.session.sent) == seen || Dones(r.session.sent) == Asked(r.wire))
  }

  predicate IsPromptOf(wire: seq<S.ClientFrame>, p: nat, call: nat) {
    p < |wire| && wire[p].Prompt? && wire[p].call == call
  }

  // A result is 1 without an answer, and otherwise what the server said about that call's prompt.
  predicate Honest(wire: seq<S.ClientFrame>, sent: seq<S.ServerFrame>, res: Result) {
    if res.answer.None? then res.rc == 1
    else IsPromptOf(wire, res.answer.value, res.call) && S.TurnDone(res.rc, res.answer.value) in sent
  }

  predicate Honesty(r: Remote) {
    && (r.open ==> Asked(r.wire) != [] && IsPromptOf(r.wire, Last(Asked(r.wire)), r.calls))
    && (r.answer.Some? ==> Honest(r.wire, r.session.sent, Result(r.calls, r.client.turnRc, r.answer)))
    && (forall i :: 0 <= i < |r.results| ==> Honest(r.wire, r.session.sent, r.results[i]))
  }

  ghost predicate Inv(r: Remote) {
    S.Inv(r.session) && Framed(r) && Phases(r) && Rendezvous(r) && Honesty(r)
  }

  lemma InvIs(r: Remote)
    ensures Inv(r) <==> S.Inv(r.session) && Framed(r) && Phases(r) && Rendezvous(r) && Honesty(r)
  {
  }

  lemma FreshInv()
    ensures Inv(Fresh())
  {
    S.InitInv();
  }

  lemma FramedKept(r: Remote, m: Move)
    requires Enabled(r, m) && Framed(r)
    ensures Framed(Next(r, m))
  {
    if m.Server? {
      SessionFrames(r.session, m.act);
      assert Next(r, m) == r.(session := S.Step(r.session, m.act));
      hide S.Step, S.IsPrompt, S.Enabled, Next;
      FramedServer(r, Next(r, m), m.act);
    } else {
      hide S.IsPrompt;
      if m.SendPrompt? && m.ok { PromptIs(r.call.text, r.calls); }
    }
  }

  lemma PromptIs(text: string, call: nat)
    requires text != ""
    ensures S.IsPrompt(S.Prompt(text, call))
  {
  }

  lemma FramedServer(r: Remote, w: Remote, l: S.Label)
    requires Framed(r) && w.wire == r.wire && w.seen == r.seen && r.session.sent <= w.session.sent
    requires w.session.handled == r.session.handled + if l.Take? then [l.frame] else []
    requires l.Take? ==> |r.session.handled| < |r.wire| && l.frame == r.wire[|r.session.handled|]
    ensures Framed(w)
  {
    hide S.IsPrompt;
  }

  lemma SessionFrames(v: S.Session, l: S.Label)
    requires S.Enabled(v, l)
    ensures S.Step(v, l).handled == v.handled + if l.Take? then [l.frame] else []
    ensures v.sent <= S.Step(v, l).sent
  {
    S.StepShape(v, l);
    if !l.Take? && !l.SendDone? && !(l.RejectSend? && v.handler.warned) { S.PendingKept(v, l); }
  }

  lemma PhasesKept(r: Remote, m: Move)
    requires Enabled(r, m) && Phases(r)
    requires m.Receive? && r.session.sent[r.seen].TurnDone? ==> r.open
    ensures Phases(Next(r, m))
  {
    hide S.Step, S.Enabled;
  }

  // Every frame the server adds is a turn_done for a prompt pending so far, or no turn_done.
  lemma ServerSends(v: S.Session, l: S.Label) returns (f: Option<S.ServerFrame>)
    requires S.Enabled(v, l) && S.Inv(v)
    ensures S.Step(v, l).sent == v.sent + if f.Some? then [f.value] else []
    ensures f.Some? && f.value.TurnDone? ==>
              f.value.prompt < |v.handled| && S.IsPrompt(v.handled[f.value.prompt]) && S.Answers(v.sent, f.value.prompt) == 0
  {
    var w := S.Step(v, l);
    if l.RejectSend? && v.handler.warned {
      f := if l.ok then Some(S.TurnDone(1, v.handler.prompt)) else None;
      assert S.Pending(v, v.handler.prompt);
    } else if l.SendDone? {
      f := if v.turns[l.prompt].alive && l.ok then Some(S.TurnDone(v.turns[l.prompt].phase.rc, l.prompt)) else None;
      assert S.Pending(v, l.prompt);
    } else if l.Take? {
      f := None;
    } else {
      S.PendingKept(v, l);
      f := if w.sent == v.sent then None else Some(w.sent[|v.sent|]);
    }
  }

  lemma RendezvousServer(r: Remote, l: S.Label)
    requires Enabled(r, Server(l)) && S.Inv(r.session) && Framed(r) && Rendezvous(r)
    ensures Rendezvous(Next(r, Server(l)))
  {
    var w := Next(r, Server(l));
    assert w == r.(session := S.Step(r.session, l));
    var f := ServerSends(r.session, l);
    hide *;
    if f.Some? {
      RendezvousAdds(r, w, f.value);
    } else {
      assert w.session.sent == r.session.sent;
      RendezvousSame(r, w);
    }
  }

  lemma RendezvousSame(r: Remote, w: Remote)
    requires Rendezvous(r) && w.session.sent == r.session.sent
    requires w.seen == r.seen && w.wire == r.wire && w.open == r.open
    ensures Rendezvous(w)
  {
    hide Asked, Dones;
  }

  lemma RendezvousAdds(r: Remote, w: Remote, f: S.ServerFrame)
    requires Framed(r) && Rendezvous(r) && w.session.sent == r.session.sent + [f]
    requires w.seen == r.seen && w.wire == r.wire && w.open == r.open
    requires f.TurnDone? ==> f.prompt < |r.session.handled| && S.IsPrompt(r.session.handled[f.prompt])
                             && S.Answers(r.session.sent, f.prompt) == 0
    ensures Rendezvous(w)
  {
    assert w.session.sent[..w.seen] == r.session.sent[..r.seen];
    DonesSnoc(r.session.sent, f);
    if f.TurnDone? {
      assert r.wire[f.prompt] == r.session.handled[f.prompt];
      UnansweredIsOpen(r, f.prompt);
    }
    hide Asked, Dones;
  }

  // A prompt the server has not answered is the open one.
  lemma UnansweredIsOpen(r: Remote, p: nat)
    requires Framed(r) && Rendezvous(r)
    requires p < |r.wire| && r.wire[p].Prompt? && S.Answers(r.session.sent, p) == 0
    ensures r.open && p == Last(Asked(r.wire)) && Dones(r.session.sent) == Dones(r.session.sent[..r.seen])
  {
    AskedAre(r.wire, p);
    if p in Dones(r.session.sent) { DonesAnswered(r.session.sent, p); }
    DonesPrefix(r.session.sent, r.seen);
    hide Asked, Dones;
    var seen := Dones(r.session.sent[..r.seen]);
    assert p !in seen;
  }

  lemma SliceSnoc(sent: seq<S.ServerFrame>, n: nat)
    requires n < |sent|
    ensures sent[..n + 1] == sent[..n] + [sent[n]]
  {
  }

  lemma RendezvousReceive(r: Remote)
    requires Enabled(r, Receive) && Framed(r) && Rendezvous(r)
    ensures Rendezvous(Next(r, Receive))
    ensures r.session.sent[r.seen].TurnDone? ==> r.open && r.session.sent[r.seen].prompt == Last(Asked(r.wire))
  {
    var f, w := r.session.sent[r.seen], Next(r, Receive);
    assert w.session == r.session && w.wire == r.wire && w.seen == r.seen + 1 && w.open == (r.open && !f.TurnDone?);
    hide *;
    SliceSnoc(r.session.sent, r.seen);
    DonesSnoc(r.session.sent[..r.seen], f);
    DonesPrefix(r.session.sent, r.seen + 1);
    SeenMore(r, w, f);
  }

  lemma SeenMore(r: Remote, w: Remote, f: S.ServerFrame)
    requires Rendezvous(r) && r.seen < |r.session.sent| && f == r.session.sent[r.seen]
    requires w.session == r.session && w.wire == r.wire && w.seen == r.seen + 1
    requires w.open == (r.open && !f.TurnDone?)
    requires Dones(r.session.sent[..r.seen + 1])
             == Dones(r.session.sent[..r.seen]) + if f.TurnDone? then [f.prompt] else []
    requires Dones(r.session.sent[..r.seen + 1]) <= Dones(r.session.sent)
    ensures Rendezvous(w)
    ensures f.TurnDone? ==> r.open && f.prompt == Last(Asked(r.wire))
  {
    hide Asked, Dones;
    if f.TurnDone? {
      assert |Dones(r.session.sent[..r.seen + 1])| == |Dones(r.session.sent[..r.seen])| + 1;
      assert Dones(r.session.sent) == Asked(r.wire);
    }
  }

  // A frame the client sends: a prompt opens, anything else asks nothing.
  lemma RendezvousSends(r: Remote, w: Remote, f: S.ClientFrame)
    requires Rendezvous(r) && w.wire == r.wire + [f] && w.session == r.session && w.seen == r.seen
    requires if f.Prompt? then w.open && !r.open else w.open == r.open
    ensures Rendezvous(w)
  {
    AskedSnoc(r.wire, f);
    hide Asked, Dones;
  }

  lemma RendezvousFrame(r: Remote, w: Remote)
    requires Rendezvous(r) && w.wire == r.wire && w.session == r.session && w.seen == r.seen && w.open == r.open
    ensures Rendezvous(w)
  {
    hide Asked, Dones;
  }

  lemma RendezvousKept(r: Remote, m: Move)
    requires Enabled(r, m) && Inv(r)
    ensures Rendezvous(Next(r, m))
  {
    InvIs(r);
    hide Rendezvous, S.Inv, Honesty, Framed;
    match m
    case Server(l) => RendezvousServer(r, l);
    case Receive => RendezvousReceive(r);
    case SendPrompt(ok) =>
      if ok { RendezvousSends(r, Next(r, m), S.Prompt(r.call.text, r.calls)); }
      else { RendezvousFrame(r, Next(r, m)); }
    case SendCancel(c, ok) =>
      if ok { RendezvousSends(r, Next(r, m), S.Cancel(c)); }
      else { RendezvousFrame(r, Next(r, m)); }
    case SendOther => RendezvousSends(r, Next(r, m), S.Other(r.calls));
    case _ => RendezvousFrame(r, Next(r, m));
  }

  lemma HonestGrows(wire: seq<S.ClientFrame>, sent: seq<S.ServerFrame>,
                    wire': seq<S.ClientFrame>, sent': seq<S.ServerFrame>,
                    res: Result)
    requires wire <= wire' && sent <= sent' && Honest(wire, sent, res)
    ensures Honest(wire', sent', res)
  {
    if res.answer.Some? {
      var i :| 0 <= i < |sent| && sent[i] == S.TurnDone(res.rc, res.answer.value);
      assert sent'[i] == sent[i];
    }
  }

  // A step that adds at most to the two directions of the connection.
  lemma HonestyGrows(r: Remote, w: Remote)
    requires Honesty(r) && r.wire <= w.wire && r.session.sent <= w.session.sent
    requires w.results == r.results
    requires w.open ==> Asked(w.wire) != [] && IsPromptOf(w.wire, Last(Asked(w.wire)), w.calls)
    requires w.answer.Some? ==> w.answer == r.answer && w.calls == r.calls && w.client.turnRc == r.client.turnRc
    ensures Honesty(w)
  {
    forall res | Honest(r.wire, r.session.sent, res) ensures Honest(w.wire, w.session.sent, res) {
      HonestGrows(r.wire, r.session.sent, w.wire, w.session.sent, res);
    }
    hide Honest, Asked, IsPromptOf;
  }

  lemma HonestyReturns(r: Remote, w: Remote, res: Result)
    requires Honesty(r) && Honest(r.wire, r.session.sent, res)
    requires w.wire == r.wire && w.session == r.session && w.results == r.results + [res]
    requires w.open == r.open && w.answer == r.answer && w.calls == r.calls && w.client.turnRc == r.client.turnRc
    ensures Honesty(w)
  {
    hide Honest, Asked, IsPromptOf;
  }

  lemma HonestySends(r: Remote, w: Remote, f: S.ClientFrame)
    requires Honesty(r) && w.wire == r.wire + [f] && w.session == r.session && w.results == r.results
    requires w.answer == r.answer && w.calls == r.calls && w.client.turnRc == r.client.turnRc
    requires if f.Prompt? then f.call == r.calls else w.open == r.open
    ensures Honesty(w)
  {
    AskedSnoc(r.wire, f);
    hide Asked, Honest;
    if w.open {
      if f.Prompt? {
        assert Last(Asked(w.wire)) == |r.wire|;
      } else {
        assert Asked(w.wire) == Asked(r.wire);
        assert w.wire[Last(Asked(r.wire))] == r.wire[Last(Asked(r.wire))];
      }
    }
    hide IsPromptOf;
    HonestyGrows(r, w);
  }

  lemma HonestyReceive(r: Remote)
    requires Enabled(r, Receive) && Framed(r) && Rendezvous(r) && Honesty(r)
    ensures Honesty(Next(r, Receive))
  {
    RendezvousReceive(r);
    var f := r.session.sent[r.seen];
    hide Asked, Rendezvous;
    assert f in r.session.sent;
  }

  lemma HonestyKept(r: Remote, m: Move)
    requires Enabled(r, m) && Inv(r)
    ensures Honesty(Next(r, m))
  {
    InvIs(r);
    hide Honesty, Rendezvous, S.Inv, Asked;
    match m
    case Server(l) =>
      SessionFrames(r.session, l);
      hide S.Step, S.Enabled;
      HonestyIs(r);
      HonestyGrows(r, Next(r, m));
    case Receive => HonestyReceive(r);
    case SendPrompt(ok) =>
      if ok { HonestySends(r, Next(r, m), S.Prompt(r.call.text, r.calls)); }
      else { HonestyReturns(r, Next(r, m), Result(r.calls, 1, None)); }
    case SendCancel(c, ok) =>
      if ok { HonestySends(r, Next(r, m), S.Cancel(c)); }
      else { HonestyIs(r); HonestyGrows(r, Next(r, m)); }
    case SendOther => HonestySends(r, Next(r, m), S.Other(r.calls));
    case Return => HonestyReturn(r);
    case _ => HonestyIs(r); HonestyGrows(r, Next(r, m));
  }

  lemma HonestyReturn(r: Remote)
    requires Enabled(r, Return) && Phases(r) && Honesty(r)
    ensures Honesty(Next(r, Return))
  {
    HonestyReturns(r, Next(r, Return), Result(r.calls, r.client.turnRc, r.answer));
  }

  lemma HonestyIs(r: Remote)
    requires Honesty(r)
    ensures r.open ==> Asked(r.wire) != [] && IsPromptOf(r.wire, Last(Asked(r.wire)), r.calls)
  {
  }

  lemma SessionKept(r: Remote, m: Move)
    requires Enabled(r, m) && S.Inv(r.session)
    ensures S.Inv(Next(r, m).session)
  {
    hide S.Inv;
    if m.Server? { S.StepKeepsInv(r.session, m.act); }
  }

  lemma NextKeepsInv(r: Remote, m: Move)
    requires Enabled(r, m) && Inv(r)
    ensures Inv(Next(r, m))
  {
    if m.Receive? { RendezvousReceive(r); }
    hide *;
    InvIs(r);
    SessionKept(r, m);
    FramedKept(r, m);
    PhasesKept(r, m);
    RendezvousKept(r, m);
    HonestyKept(r, m);
    InvIs(Next(r, m));
  }

  lemma {:induction false} RunInv(disciplined: bool, states: seq<Remote>, moves: seq<Move>, i: nat)
    requires Run(disciplined, states, moves) && i <= |moves|
    ensures Inv(states[i])
  {
    hide Inv, Next, Enabled, Disciplined;
    if i == 0 {
      FreshInv();
    } else {
      RunInv(disciplined, states, moves, i - 1);
      NextKeepsInv(states[i - 1], moves[i - 1]);
    }
  }

  // ---- what a client can rely on ----

  // The k-th turn_done the server sends answers the k-th prompt, and when the client sends a
  // prompt it has the answers to all the earlier ones.
  lemma AnswersFollowPrompts(disciplined: bool, states: seq<Remote>, moves: seq<Move>, i: nat)
    requires Run(disciplined, states, moves) && i <= |moves|
    ensures var r := states[i];
            && r.seen <= |r.session.sent|
            && Dones(r.session.sent) <= Asked(r.wire)
            && |Asked(r.wire)| <= |Dones(r.session.sent[..r.seen])| + 1
            && (r.call.Checked? || r.call.Armed? ==> Asked(r.wire) == Dones(r.session.sent[..r.seen]))
  {
    RunInv(disciplined, states, moves, i);
    InvIs(states[i]);
    hide Asked, Dones;
  }

  // run_turn calls and their results correspond one to one.
  predicate Counted(r: Remote) {
    && |r.results| + (if r.call.Idle? then 0 else 1) == r.calls
    && forall k :: 0 <= k < |r.results| ==> r.results[k].call == k + 1
  }

  lemma {:induction false} RunCounted(disciplined: bool, states: seq<Remote>, moves: seq<Move>, i: nat)
    requires Run(disciplined, states, moves) && i <= |moves|
    ensures Counted(states[i])
  {
    if i > 0 {
      RunCounted(disciplined, states, moves, i - 1);
      CountedKept(states[i - 1], moves[i - 1]);
    }
  }

  lemma CountedKept(r: Remote, m: Move)
    requires Enabled(r, m) && Counted(r)
    ensures Counted(Next(r, m))
  {
    hide S.Step, S.Enabled;
  }

  // The k-th run_turn call returned what the server said about that call's own prompt, or 1 when
  // it never heard.
  lemma ResultsAreTheirOwn(disciplined: bool, states: seq<Remote>, moves: seq<Move>, i: nat, k: nat)
    requires Run(disciplined, states, moves) && i <= |moves| && k < |states[i].results|
    ensures states[i].results[k].call == k + 1
    ensures Honest(states[i].wire, states[i].session.sent, states[i].results[k])
  {
    RunInv(disciplined, states, moves, i);
    RunCounted(disciplined, states, moves, i);
    InvIs(states[i]);
  }

  // Although this client waits for each answer, the server refuses its prompt as "still running"
  // exactly when the turn before has answered and not yet cleared busy.
  lemma RefusedInTheGap(disciplined: bool, states: seq<Remote>, moves: seq<Move>, i: nat)
    requires Run(disciplined, states, moves) && i < |moves|
    requires moves[i].Server? && moves[i].act.Take? && moves[i].act.frame.Prompt?
    ensures states[i + 1].session.handler.Rejecting?
            <==> exists q :: q in states[i].session.turns && states[i].session.turns[q].phase.Answered?
  {
    RunInv(disciplined, states, moves, i);
    var r, v, f := states[i], states[i].session, moves[i].act.frame;
    InvIs(r);
    S.InvIs(v);
    assert states[i + 1].session == S.TakeFrame(v, f) && S.IsPrompt(f);
    hide Run, Honesty, Phases;
    TakeRejects(v, f);
    if v.slot.value.busy {
      var q :| q in v.turns && S.Uncleared(v.turns[q]);
      OthersAnswered(r, q);
    }
  }

  lemma TakeRejects(v: S.Session, f: S.ClientFrame)
    requires S.Lifecycle(v) && v.handler.Looping? && S.IsPrompt(f)
    ensures v.slot.Some? && (S.TakeFrame(v, f).handler.Rejecting? <==> v.slot.value.busy)
    ensures v.slot.value.busy <==> exists q :: q in v.turns && S.Uncleared(v.turns[q])
  {
  }

  // While another prompt waits on the wire, a turn that still runs has answered.
  lemma OthersAnswered(r: Remote, q: nat)
    requires Framed(r) && Rendezvous(r) && S.Inv(r.session)
    requires |r.session.handled| < |r.wire| && r.wire[|r.session.handled|].Prompt?
    requires q in r.session.turns && S.Uncleared(r.session.turns[q])
    ensures r.session.turns[q].phase.Answered?
  {
    var v, pos := r.session, |r.session.handled|;
    S.InvIs(v);
    assert S.Answers(v.sent, pos) == 0;
    UnansweredIsOpen(r, pos);
    if S.Unanswered(v.turns[q]) {
      assert S.Pending(v, q) && r.wire[q] == v.handled[q];
      assert S.Answers(v.sent, q) == 0;
      UnansweredIsOpen(r, q);
    }
  }

  // ---- a cancel stays with its turn ----

  predicate HasCancel(wire: seq<S.ClientFrame>, call: nat) {
    exists j :: 0 <= j < |wire| && wire[j] == S.Cancel(call)
  }

  // After the prompt of `call` the wire has a cancel of an earlier call.
  predicate HasLateCancel(wire: seq<S.ClientFrame>, call: nat) {
    exists p, j :: 0 <= p < j < |wire| && IsPromptOf(wire, p, call) && wire[j].Cancel? && wire[j].call < call
  }

  predicate CancelFollows(wire: seq<S.ClientFrame>, call: nat) { HasCancel(wire, call) || HasLateCancel(wire, call) }

  predicate Numbered(r: Remote) {
    && (forall i :: 0 <= i < |r.wire| ==> r.wire[i].call <= r.calls && !r.wire[i].Bye?)
    && (forall c :: c in r.cancels ==> c <= r.calls)
  }

  predicate CancelsFollow(r: Remote) {
    && (r.client.turnRc == S.CANCELLED && !r.call.Checked? ==> CancelFollows(r.wire, r.calls))
    && (forall k :: 0 <= k < |r.results| && r.results[k].rc == S.CANCELLED ==> CancelFollows(r.wire, r.results[k].call))
  }

  lemma CancelFollowsGrows(wire: seq<S.ClientFrame>, f: S.ClientFrame, call: nat)
    requires CancelFollows(wire, call)
    ensures CancelFollows(wire + [f], call)
  {
    var w := wire + [f];
    if HasCancel(wire, call) {
      var j :| 0 <= j < |wire| && wire[j] == S.Cancel(call);
      assert w[j] == S.Cancel(call);
    } else {
      var p, j :| 0 <= p < j < |wire| && IsPromptOf(wire, p, call) && wire[j].Cancel? && wire[j].call < call;
      assert w[j] == wire[j] && IsPromptOf(w, p, call);
    }
  }

  lemma NumberedKept(r: Remote, m: Move)
    requires Enabled(r, m) && Numbered(r)
    ensures Numbered(Next(r, m))
  {
    hide S.Step, S.Enabled;
  }

  lemma CancelsFollowKept(r: Remote, m: Move)
    requires Enabled(r, m) && Inv(r) && Numbered(r) && CancelsFollow(r)
    ensures CancelsFollow(Next(r, m))
  {
    var w := Next(r, m);
    if m.Receive? {
      if r.session.sent[r.seen].TurnDone? && r.session.sent[r.seen].rc == S.CANCELLED { AnswerHasCancel(r); }
      hide CancelFollows, Inv, Numbered;
    } else {
      hide S.Step, S.Enabled, Inv, Numbered;
      forall c: nat | CancelFollows(r.wire, c) ensures CancelFollows(w.wire, c) {
        if w.wire != r.wire { CancelFollowsGrows(r.wire, w.wire[|r.wire|], c); }
      }
      hide CancelFollows;
    }
  }

  // The cancel behind a cancelled answer follows the prompt, and no later call has begun.
  lemma AnswerHasCancel(r: Remote)
    requires Enabled(r, Receive) && Inv(r) && Numbered(r)
    requires r.session.sent[r.seen].TurnDone? && r.session.sent[r.seen].rc == S.CANCELLED
    ensures CancelFollows(r.wire, r.calls)
  {
    InvIs(r);
    S.InvIs(r.session);
    RendezvousReceive(r);
    var p := r.session.sent[r.seen].prompt;
    assert S.CancelAfter(r.session.handled, p);
    hide S.Inv, S.Lifecycle, S.Positions, S.AnsweredOnce, S.LossIsFailure, S.CancelOrder, Rendezvous, Phases;
    var j :| p < j < |r.session.handled| && r.session.handled[j].Cancel?;
    assert r.wire[j] == r.session.handled[j];
    assert IsPromptOf(r.wire, p, r.calls);
    assert r.wire[j].call == r.calls ==> r.wire[j] == S.Cancel(r.calls);
  }

  lemma {:induction false} RunCancelsFollow(disciplined: bool, states: seq<Remote>, moves: seq<Move>, i: nat)
    requires Run(disciplined, states, moves) && i <= |moves|
    ensures Numbered(states[i]) && CancelsFollow(states[i])
  {
    if i > 0 {
      RunCancelsFollow(disciplined, states, moves, i - 1);
      RunInv(disciplined, states, moves, i - 1);
      hide Inv, Numbered, CancelsFollow, Next, Enabled, Disciplined;
      NumberedKept(states[i - 1], moves[i - 1]);
      CancelsFollowKept(states[i - 1], moves[i - 1]);
    }
  }

  // Whatever the client does, a call returns kCancelled only for a cancel of its own or for one
  // of an earlier call that reached the wire after its prompt.
  lemma CancelledIsOwnOrLate(disciplined: bool, states: seq<Remote>, moves: seq<Move>, i: nat, k: nat)
    requires Run(disciplined, states, moves) && i <= |moves| && k < |states[i].results|
    requires states[i].results[k].rc == S.CANCELLED
    ensures HasCancel(states[i].wire, k + 1) || HasLateCancel(states[i].wire, k + 1)
  {
    RunCancelsFollow(disciplined, states, moves, i);
    RunCounted(disciplined, states, moves, i);
  }

  // The frames of a disciplined client are in the order of its calls.
  predicate Ordered(r: Remote) {
    && (forall i, j :: 0 <= i <= j < |r.wire| ==> r.wire[i].call <= r.wire[j].call)
    && (forall i :: 0 <= i < |r.wire| ==> r.wire[i].call <= r.calls)
    && (forall c :: c in r.cancels ==> c == r.calls)
  }

  lemma OrderedKept(r: Remote, m: Move)
    requires Enabled(r, m) && Disciplined(r, m) && Ordered(r)
    ensures Ordered(Next(r, m))
  {
    hide S.Step, S.Enabled, Ordered;
    var w := Next(r, m);
    CancelsAre(r, m);
    if w.wire == r.wire { OrderedFrame(r, w); } else { OrderedSends(r, w, w.wire[|r.wire|]); }
  }

  lemma CancelsAre(r: Remote, m: Move)
    requires Enabled(r, m) && Disciplined(r, m) && Ordered(r)
    ensures forall c :: c in Next(r, m).cancels ==> c == Next(r, m).calls
    ensures m.SendCancel? ==> m.call == r.calls
  {
    hide S.Step, S.Enabled;
  }

  lemma OrderedFrame(r: Remote, w: Remote)
    requires Ordered(r) && w.wire == r.wire && r.calls <= w.calls
    requires forall c :: c in w.cancels ==> c == w.calls
    ensures Ordered(w)
  {
  }

  lemma OrderedSends(r: Remote, w: Remote, f: S.ClientFrame)
    requires Ordered(r) && w.wire == r.wire + [f] && f.call == r.calls == w.calls
    requires forall c :: c in w.cancels ==> c == w.calls
    ensures Ordered(w)
  {
  }

  lemma {:induction false} RunOrdered(states: seq<Remote>, moves: seq<Move>, i: nat)
    requires Run(true, states, moves) && i <= |moves|
    ensures Ordered(states[i])
  {
    if i > 0 {
      RunOrdered(states, moves, i - 1);
      hide Ordered, Next, Enabled, Disciplined;
      OrderedKept(states[i - 1], moves[i - 1]);
    }
  }

  // When cancel_turn finishes before the next run_turn starts, a call returns kCancelled only if
  // a cancel was sent for that same call.
  lemma CancelStaysWithItsTurn(states: seq<Remote>, moves: seq<Move>, i: nat, k: nat)
    requires Run(true, states, moves) && i <= |moves| && k < |states[i].results|
    requires states[i].results[k].rc == S.CANCELLED
    ensures HasCancel(states[i].wire, k + 1)
  {
    RunOrdered(states, moves, i);
    CancelledIsOwnOrLate(true, states, moves, i, k);
  }

  // ---- what a cancel mutes ----

  // cancel_turn was called during the current call, while its turn was active.
  predicate CancelledInCall(states: seq<Remote>, moves: seq<Move>, i: nat)
    requires |states| == |moves| + 1 && i <= |moves|
  {
    exists j :: 0 <= j < i && CancelsCall(states[j], moves[j], states[i].calls)
  }

  predicate CancelsCall(r: Remote, m: Move, call: nat) { m.CancelTurn? && r.calls == call && r.client.turnActive }

  lemma {:induction false} CallsGrow(disciplined: bool, states: seq<Remote>, moves: seq<Move>, j: nat, i: nat)
    requires Run(disciplined, states, moves) && j <= i <= |moves|
    ensures states[j].calls <= states[i].calls
  {
    if j < i {
      CallsGrow(disciplined, states, moves, j, i - 1);
      hide S.Step, S.Enabled, Disciplined;
    }
  }

  lemma CheckedMove(r: Remote, m: Move)
    requires Enabled(r, m) && Phases(r) && Next(r, m).call.Checked?
    ensures if m.Begin? then Next(r, m).calls > r.calls
            else r.call.Checked? && Next(r, m).calls == r.calls && !r.client.turnActive
  {
    hide S.Step, S.Enabled;
  }

  lemma ActiveMove(r: Remote, m: Move)
    requires Enabled(r, m) && Phases(r) && Next(r, m).client.turnActive
    ensures Next(r, m).calls == r.calls
    ensures if m.Arm? then r.call.Checked? && !r.client.turnActive && !Next(r, m).client.cancelPending
            else r.client.turnActive && Next(r, m).client.cancelPending == (r.client.cancelPending || m.CancelTurn?)
  {
    hide S.Step, S.Enabled;
  }

  lemma MoveTaken(disciplined: bool, states: seq<Remote>, moves: seq<Move>, i: nat)
    requires Run(disciplined, states, moves) && 0 < i <= |moves|
    ensures Enabled(states[i - 1], moves[i - 1]) && Phases(states[i - 1])
    ensures states[i] == Next(states[i - 1], moves[i - 1])
  {
    RunInv(disciplined, states, moves, i - 1);
    InvIs(states[i - 1]);
    hide Inv, Enabled, Next, Disciplined;
  }

  // No turn of a call is active before the call is armed.
  lemma {:induction false} NotActiveBefore(disciplined: bool, states: seq<Remote>, moves: seq<Move>, i: nat)
    requires Run(disciplined, states, moves) && i <= |moves| && states[i].call.Checked?
    ensures !CancelledInCall(states, moves, i)
  {
    if i > 0 {
      var m := moves[i - 1];
      MoveTaken(disciplined, states, moves, i);
      CheckedMove(states[i - 1], m);
      hide Enabled, Next, Phases, Disciplined;
      if m.Begin? {
        forall j | 0 <= j < i ensures !CancelsCall(states[j], moves[j], states[i].calls) {
          CallsGrow(disciplined, states, moves, j, i - 1);
        }
      } else {
        NotActiveBefore(disciplined, states, moves, i - 1);
        SameCall(states, moves, i);
      }
    }
  }

  // While a turn is active its text is muted exactly when it has been cancelled during this call:
  // a cancel mutes its own turn and no later one.
  lemma {:induction false} MutedIff(disciplined: bool, states: seq<Remote>, moves: seq<Move>, i: nat)
    requires Run(disciplined, states, moves) && i <= |moves| && states[i].client.turnActive
    ensures states[i].client.cancelPending <==> CancelledInCall(states, moves, i)
  {
    if i > 0 {
      var m := moves[i - 1];
      MoveTaken(disciplined, states, moves, i);
      ActiveMove(states[i - 1], m);
      hide Enabled, Next, Phases, Disciplined, Run, CancelledInCall;
      SameCall(states, moves, i);
      if m.Arm? {
        NotActiveBefore(disciplined, states, moves, i - 1);
      } else {
        MutedIff(disciplined, states, moves, i - 1);
      }
    }
  }

  lemma SameCall(states: seq<Remote>, moves: seq<Move>, i: nat)
    requires |states| == |moves| + 1 && 0 < i <= |moves| && states[i].calls == states[i - 1].calls
    ensures CancelledInCall(states, moves, i)
            <==> CancelledInCall(states, moves, i - 1) || CancelsCall(states[i - 1], moves[i - 1], states[i].calls)
  {
    hide CancelsCall;
  }

  // ---- a connection lost at the start of a call ----

  lemma {:induction false} StaysReleased(disciplined: bool, states: seq<Remote>, moves: seq<Move>, i: nat)
    requires Run(disciplined, states, moves) && i <= |moves|
    requires forall j :: 0 <= j < |moves| && moves[j].Arm? ==> states[j].client.connected
    ensures states[i].client.connected || !states[i].client.turnActive
  {
    if i > 0 {
      StaysReleased(disciplined, states, moves, i - 1);
      hide S.Step, S.Enabled, Disciplined;
    }
  }

  // Once the connection is known to be gone nothing keeps a call waiting, in any state of a run,
  // exactly when no call of it was armed after the loss.
  lemma LostIsReleasedIff(disciplined: bool, states: seq<Remote>, moves: seq<Move>)
    requires Run(disciplined, states, moves)
    ensures (forall i :: 0 <= i < |states| && !states[i].client.connected ==> !states[i].client.turnActive)
            <==> forall i :: 0 <= i < |moves| && moves[i].Arm? ==> states[i].client.connected
  {
    if forall i :: 0 <= i < |moves| && moves[i].Arm? ==> states[i].client.connected {
      forall i | 0 <= i < |states| && !states[i].client.connected ensures !states[i].client.turnActive {
        StaysReleased(disciplined, states, moves, i);
      }
    } else {
      var i :| 0 <= i < |moves| && moves[i].Arm? && !states[i].client.connected;
      hide Enabled;
      assert states[i + 1] == Next(states[i], Arm);
    }
  }

  // ---- two runs ----

  ghost predicate Reachable(disciplined: bool, r: Remote) {
    exists states, moves :: Run(disciplined, states, moves) && states[|moves|] == r
  }

  lemma ReachFresh(disciplined: bool)
    ensures Reachable(disciplined, Fresh())
  {
    assert Run(disciplined, [Fresh()], []) && [Fresh()][0] == Fresh();
  }

  lemma Go(disciplined: bool, r: Remote, m: Move) returns (w: Remote)
    requires Reachable(disciplined, r) && Enabled(r, m) && (disciplined ==> Disciplined(r, m))
    ensures Reachable(disciplined, w) && w == Next(r, m)
  {
    w := Next(r, m);
    hide Enabled, Next, Disciplined;
    var states, moves :| Run(disciplined, states, moves) && states[|moves|] == r;
    var longer, more := states + [w], moves + [m];
    forall i | 0 <= i < |more|
      ensures Enabled(longer[i], more[i]) && longer[i + 1] == Next(longer[i], more[i])
              && (disciplined ==> Disciplined(longer[i], more[i]))
    {
      assert longer[i] == states[i];
      if i < |moves| { assert longer[i + 1] == states[i + 1] && more[i] == moves[i]; }
    }
    assert Run(disciplined, longer, more) && longer[|more|] == w;
  }

  const FIRST: S.ClientFrame := S.Prompt("hi", 1)
  const SECOND: S.ClientFrame := S.Prompt("yo", 2)

  // The server as the first turn stands at `phase`, having sent `sent`.
  function FirstTurn(phase: S.Phase, sent: seq<S.ServerFrame>): S.Session {
    S.Session(true, Some(S.Slot(true, None)), S.Looping, [FIRST], map[0 := S.Turn(phase, true)], sent, {}, false)
  }

  // The client with its second prompt sent and, perhaps, a cancel of the first turn still unsent;
  // the first turn has answered but not cleared busy.
  function Gap(cancels: multiset<nat>): Remote {
    Remote(FirstTurn(S.Answered, [S.Ctx(0), S.TurnDone(0, 0)]), [FIRST, SECOND], 2, Client(true, true, false, 1),
           Waiting, 2, true, None, cancels, [Result(1, 0, Some(0))])
  }

  lemma FirstPrompt(disciplined: bool) returns (r: Remote)
    ensures Reachable(disciplined, r)
    ensures r == Remote(S.Step(S.NewSession(), S.CreateSlot), [FIRST], 0, Client(true, true, false, 1), Waiting, 1, true,
                        None, multiset{}, [])
  {
    hide Reachable;
    ReachFresh(disciplined);
    r := Go(disciplined, Fresh(), Server(S.CreateSlot));
    r := Go(disciplined, r, Begin("hi"));
    r := Go(disciplined, r, Arm);
    r := Go(disciplined, r, SendPrompt(true));
    assert r.wire == [FIRST];
  }

  // The server's shutdown arrives between the test of connected_ and the arming: the prompt still
  // goes out, and the call waits although the connection is known to be gone.
  lemma CallIsStranded() returns (r: Remote)
    ensures Reachable(true, r)
    ensures r.call.Waiting? && r.client.turnActive && !r.client.connected && r.session.sent == []
  {
    hide Reachable;
    ReachFresh(true);
    r := Go(true, Fresh(), Server(S.CreateSlot));
    r := Go(true, r, Begin("hi"));
    r := Go(true, r, Gone);
    r := Go(true, r, Arm);
    r := Go(true, r, SendPrompt(true));
  }

  lemma TurnStarts(late: bool) returns (r: Remote)
    ensures Reachable(!late, r)
    ensures r == Remote(FirstTurn(S.Running, []), [FIRST], 0, Client(true, true, late, 1), Waiting, 1, true, None,
                        if late then multiset{1} else multiset{}, [])
  {
    hide Reachable;
    r := FirstPrompt(!late);
    r := Go(!late, r, Server(S.Take(FIRST)));
    assert r.session.turns == map[0 := S.Turn(S.Spawned, true)];
    r := Go(!late, r, Server(S.Begin(0, true)));
    assert r.session.turns == map[0 := S.Turn(S.Running, true)];
    if late { r := Go(!late, r, CancelTurn); }
  }

  lemma TurnAnswers(late: bool) returns (r: Remote)
    ensures Reachable(!late, r)
    ensures r == Remote(FirstTurn(S.Answered, [S.Ctx(0), S.TurnDone(0, 0)]), [FIRST], 0, Client(true, true, late, 1), Waiting,
                        1, true, None, if late then multiset{1} else multiset{}, [])
  {
    hide Reachable;
    r := TurnStarts(late);
    r := Go(!late, r, Server(S.Return(0, 0)));
    assert r.session.turns == map[0 := S.Turn(S.Returned(0), true)];
    r := Go(!late, r, Server(S.SendCtx(0, true)));
    assert r.session.turns == map[0 := S.Turn(S.CtxSent(0), true)];
    r := Go(!late, r, Server(S.SendDone(0, true)));
    assert r.session.turns == map[0 := S.Turn(S.Answered, true)];
  }

  lemma ReachGap(late: bool) returns (r: Remote)
    ensures Reachable(!late, r) && r == Gap(if late then multiset{1} else multiset{})
  {
    hide Reachable;
    r := TurnAnswers(late);
    r := Go(!late, r, Receive);
    r := Go(!late, r, Receive);
    r := Go(!late, r, Return);
    r := Go(!late, r, Begin("yo"));
    r := Go(!late, r, Arm);
    r := Go(!late, r, SendPrompt(true));
  }

  // A client that keeps every rule is still told "still running" for its second prompt.
  lemma PoliteClientRefused() returns (r: Remote)
    ensures Reachable(true, r)
    ensures r.results == [Result(1, 0, Some(0)), Result(2, 1, Some(1))] && r.session.turns.Keys == {0}
  {
    hide Reachable;
    r := ReachGap(false);
    r := Go(true, r, Server(S.Take(SECOND)));
    assert r.session.handler == S.Rejecting(1, false);
    r := Go(true, r, Server(S.RejectSend(true)));
    r := Go(true, r, Server(S.RejectSend(true)));
    assert r.session.sent == [S.Ctx(0), S.TurnDone(0, 0), S.Stream(1), S.TurnDone(1, 1)];
    r := Go(true, r, Receive);
    r := Go(true, r, Receive);
    r := Go(true, r, Return);
  }

  lemma LateCancelLands() returns (r: Remote)
    ensures Reachable(false, r) && r.wire == [FIRST, SECOND, S.Cancel(1)]
    ensures r.call == Waiting && r.calls == 2 && r.seen == 2
    ensures r.client.turnActive && r.results == [Result(1, 0, Some(0))] && r.session.sent == [S.Ctx(0), S.TurnDone(0, 0)]
    ensures r.session.connected && r.session.slot == Some(S.Slot(true, Some(2)))
    ensures 1 in r.session.turns && r.session.turns[1] == S.Turn(S.Running, true)
  {
    hide Reachable;
    r := ReachGap(true);
    r := Go(false, r, Server(S.Clear(0, false)));
    r := Go(false, r, Server(S.Take(SECOND)));
    assert 1 in r.session.turns && r.session.handled == [FIRST, SECOND];
    r := Go(false, r, Server(S.Begin(1, true)));
    r := Go(false, r, SendCancel(1, true));
    assert r.wire == [FIRST, SECOND, S.Cancel(1)];
    r := Go(false, r, Server(S.Take(S.Cancel(1))));
  }

  lemma LateCancelAnswers() returns (r: Remote)
    ensures Reachable(false, r) && r.wire == [FIRST, SECOND, S.Cancel(1)]
    ensures r.call == Waiting && r.calls == 2 && r.seen == 2
    ensures r.client.turnActive && r.results == [Result(1, 0, Some(0))]
    ensures r.session.sent == [S.Ctx(0), S.TurnDone(0, 0), S.Ctx(1), S.TurnDone(S.CANCELLED, 1)]
  {
    hide Reachable;
    r := LateCancelLands();
    r := Go(false, r, Server(S.Return(1, S.CANCELLED)));
    r := Go(false, r, Server(S.SendCtx(1, true)));
    r := Go(false, r, Server(S.SendDone(1, true)));
  }

  // Without that discipline the rule fails: a cancel decided in call 1 and sent late cancels
  // call 2, for which no cancel was ever asked.
  lemma LateCancelHitsTheNextTurn() returns (r: Remote)
    ensures Reachable(false, r)
    ensures r.results == [Result(1, 0, Some(0)), Result(2, S.CANCELLED, Some(1))] && !HasCancel(r.wire, 2)
  {
    hide Reachable;
    r := LateCancelAnswers();
    r := Go(false, r, Receive);
    r := Go(false, r, Receive);
    r := Go(false, r, Return);
  }
}
