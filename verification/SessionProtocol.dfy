// src/server/server.cpp and src/server/wire_sink.h seen from one client id: the reader thread of
// its connection and the turn threads it starts, one step per mu_ critical section and per send.
module SessionProtocol {
  import opened Bytes

  // What the client sends. `call` numbers the client-side run_turn call a frame belongs to; it is
  // not on the wire and the server never looks at it. Other covers the remaining message types,
  // which do not take part in the turn protocol.
  datatype ClientFrame =
    | Prompt(text: string, call: nat)
    | Cancel(call: nat)
    | Bye(call: nat)
    | Other(call: nat)

  // What the server sends. `prompt` is the position, among the frames taken from the connection,
  // of the prompt a frame is about; it is not on the wire either.
  datatype ServerFrame = Stream(prompt: nat) | Ctx(prompt: nat) | TurnDone(rc: int, prompt: nat)

  const CANCELLED: int := 2

  // agents_[id]: busy, and the agent's cancel flag with the position of the frame that raised it.
  datatype Slot = Slot(busy: bool, cancel: Option<nat>)

  // The reader thread. Rejecting sits between deciding to refuse a prompt and having sent the
  // refusal; Removed and IdleChecked between leaving clients_ and storing closing_.
  datatype Handler =
    | Registered
    | Looping
    | Rejecting(prompt: nat, warned: bool)
    | Leaving
    | Removed
    | IdleChecked(idle: bool)
    | Exited

  // A turn thread: scheduled, past the flag reset, returned from the agent, usage sent, answered
  // (or given up), past the section that clears busy, ended.
  datatype Phase =
    | Spawned
    | Running
    | Returned(rc: int)
    | CtxSent(rc: int)
    | Answered
    | Cleared(idle: bool)
    | Ended

  datatype Turn = Turn(phase: Phase, alive: bool)

  datatype Session = Session(
    connected: bool,             // id in clients_
    slot: Option<Slot>,          // agents_[id]
    handler: Handler,
    handled: seq<ClientFrame>,   // frames the reader thread has taken, in order
    turns: map<nat, Turn>,       // turn threads, by the position of their prompt
    sent: seq<ServerFrame>,      // frames delivered to the client, in order
    lost: set<nat>,              // prompts whose turn_done was not delivered
    failed: bool)                // some send to this client has failed

  function NewSession(): Session {
    Session(true, None, Registered, [], map[], [], {}, false)
  }

  datatype Label =
    | CreateSlot
    | Take(frame: ClientFrame)
    | RejectSend(ok: bool)
    | HangUp
    | Remove
    | CheckIdle(idle: bool)
    | HandlerExit
    | Begin(prompt: nat, provider: bool)
    | Emit(prompt: nat, ok: bool)
    | Return(prompt: nat, rc: int)
    | SendCtx(prompt: nat, ok: bool)
    | SendDone(prompt: nat, ok: bool)
    | Clear(prompt: nat, idle: bool)
    | TurnExit(prompt: nat)

  // ---- steps ----

  predicate IsPrompt(f: ClientFrame) { f.Prompt? && f.text != "" }

  // A send reaches only a connected client.
  predicate Sendable(v: Session, ok: bool) { ok ==> v.connected }

  predicate Enabled(v: Session, l: Label) {
    match l
    case CreateSlot => v.handler.Registered?
    case Take(_) => v.handler.Looping?
    case RejectSend(ok) => v.handler.Rejecting? && Sendable(v, ok)
    case HangUp => v.handler.Looping?
    case Remove => v.handler.Leaving?
    case CheckIdle(_) => v.handler.Removed?
    case HandlerExit => v.handler.IdleChecked?
    case Begin(p, _) => p in v.turns && v.turns[p].phase.Spawned?
    case Emit(p, ok) => p in v.turns && (v.turns[p].phase.Running? || v.turns[p].phase.Returned?) && Sendable(v, ok)
    case Return(p, rc) =>
      p in v.turns && v.turns[p].phase.Running? && 0 <= rc <= CANCELLED
      && (rc == CANCELLED ==> v.slot.Some? && v.slot.value.cancel.Some?)
    case SendCtx(p, ok) => p in v.turns && v.turns[p].phase.Returned? && Sendable(v, ok)
    case SendDone(p, ok) => p in v.turns && v.turns[p].phase.CtxSent? && Sendable(v, ok)
    case Clear(p, _) => p in v.turns && v.turns[p].phase.Answered?
    case TurnExit(p) => p in v.turns && v.turns[p].phase.Cleared?
  }

  // The dispatch of one frame in handle_client, with schedule_prompt's decision.
  function TakeFrame(v: Session, f: ClientFrame): Session {
    var pos := |v.handled|;
    var w := v.(handled := v.handled + [f]);
    match f
    case Prompt(text, _) =>
      if text == "" || v.slot.None? then w
      else if v.slot.value.busy then w.(handler := Rejecting(pos, false))
      else w.(slot := Some(v.slot.value.(busy := true)), turns := v.turns[pos := Turn(Spawned, true)])
    case Cancel(_) =>
      if v.slot.Some? && v.slot.value.busy then w.(slot := Some(v.slot.value.(cancel := Some(pos)))) else w
    case Bye(_) => w.(handler := Leaving)
    case Other(_) => w
  }

  // send_to: the frame arrives, or the failure is remembered.
  function Send(v: Session, f: ServerFrame, ok: bool): Session {
    if ok then v.(sent := v.sent + [f]) else v.(failed := true)
  }

  function Answer(v: Session, rc: int, p: nat, ok: bool): Session {
    var w := Send(v, TurnDone(rc, p), ok);
    if ok then w else w.(lost := w.lost + {p})
  }

  function SetTurn(v: Session, p: nat, t: Turn): Session { v.(turns := v.turns[p := t]) }

  function Step(v: Session, l: Label): Session
    requires Enabled(v, l)
  {
    match l
    case CreateSlot => v.(slot := Some(Slot(false, None)), handler := Looping)
    case Take(f) => TakeFrame(v, f)
    case RejectSend(ok) =>
      if !v.handler.warned then Send(v, Stream(v.handler.prompt), ok).(handler := Rejecting(v.handler.prompt, true))
      else Answer(v, 1, v.handler.prompt, ok).(handler := Looping)
    case HangUp => v.(handler := Leaving)
    case Remove =>
      var slot := if v.slot.Some? && !v.slot.value.busy then None else v.slot;
      v.(connected := false, slot := slot, handler := Removed)
    case CheckIdle(idle) => v.(handler := IdleChecked(idle))
    case HandlerExit => v.(handler := Exited)
    case Begin(p, provider) =>
      if provider then
        var slot := if v.slot.Some? then Some(v.slot.value.(cancel := None)) else None;
        SetTurn(v, p, v.turns[p].(phase := Running)).(slot := slot)
      else SetTurn(v, p, v.turns[p].(phase := Returned(1)))
    case Emit(p, ok) =>
      if !v.turns[p].alive then v
      else SetTurn(Send(v, Stream(p), ok), p, v.turns[p].(alive := ok))
    case Return(p, rc) => SetTurn(v, p, v.turns[p].(phase := Returned(rc)))
    case SendCtx(p, ok) =>
      var rc := v.turns[p].phase.rc;
      if v.turns[p].alive then SetTurn(Send(v, Ctx(p), ok), p, v.turns[p].(phase := CtxSent(rc)))
      else SetTurn(v, p, v.turns[p].(phase := CtxSent(rc)))
    case SendDone(p, ok) =>
      var rc := v.turns[p].phase.rc;
      var w := if v.turns[p].alive then Answer(v, rc, p, ok) else v.(lost := v.lost + {p});
      SetTurn(w, p, v.turns[p].(phase := Answered))
    case Clear(p, idle) =>
      var slot := if v.slot.None? || !v.connected then None else Some(v.slot.value.(busy := false));
      SetTurn(v, p, v.turns[p].(phase := Cleared(idle))).(slot := slot)
    case TurnExit(p) => SetTurn(v, p, v.turns[p].(phase := Ended))
  }

  // ---- invariants ----

  // The turn has not yet passed the section that clears busy.
  predicate Uncleared(t: Turn) { !t.phase.Cleared? && !t.phase.Ended? }

  predicate Unanswered(t: Turn) { Uncleared(t) && !t.phase.Answered? }

  function Answers(sent: seq<ServerFrame>, p: nat): nat {
    if sent == [] then 0
    else Answers(sent[..|sent| - 1], p) + if sent[|sent| - 1].TurnDone? && sent[|sent| - 1].prompt == p then 1 else 0
  }

  lemma AnswersSnoc(sent: seq<ServerFrame>, f: ServerFrame, p: nat)
    ensures Answers(sent + [f], p) == Answers(sent, p) + if f.TurnDone? && f.prompt == p then 1 else 0
  {
    assert (sent + [f])[..|sent|] == sent;
  }

  // Someone is still to answer prompt `p`.
  predicate Pending(v: Session, p: nat) {
    (p in v.turns && Unanswered(v.turns[p])) || (v.handler.Rejecting? && v.handler.prompt == p)
  }

  predicate CancelAfter(handled: seq<ClientFrame>, p: nat) {
    exists j :: p < j < |handled| && handled[j].Cancel?
  }

  // The thread phases and the server's maps agree; a slot outlives its turn, and a slot that
  // outlived its client is busy.
  predicate Lifecycle(v: Session) {
    && (v.connected <==> v.handler.Registered? || v.handler.Looping? || v.handler.Rejecting? || v.handler.Leaving?)
    && (v.handler.Registered? ==> v.slot.None? && v.turns == map[] && v.handled == [])
    && (v.connected && !v.handler.Registered? ==> v.slot.Some?)
    && (v.slot.Some? && !v.connected ==> v.slot.value.busy)
    && (forall p :: p in v.turns && Uncleared(v.turns[p]) ==> v.slot.Some? && v.slot.value.busy)
    && (forall p, q :: p in v.turns && q in v.turns && Uncleared(v.turns[p]) && Uncleared(v.turns[q]) ==> p == q)
    && (v.slot.Some? && v.slot.value.busy ==> exists p :: p in v.turns && Uncleared(v.turns[p]))
  }

  predicate Positions(v: Session) {
    && (forall p :: p in v.turns ==> p < |v.handled| && IsPrompt(v.handled[p]))
    && (v.handler.Rejecting? ==>
          v.handler.prompt < |v.handled| && IsPrompt(v.handled[v.handler.prompt]) && v.handler.prompt !in v.turns)
  }

  // Each non-empty prompt has one turn_done, unless it is still to come or was lost.
  ghost predicate AnsweredOnce(v: Session) {
    && (forall p :: p in v.lost ==> p < |v.handled| && IsPrompt(v.handled[p]) && !Pending(v, p))
    && (forall p: nat :: Answers(v.sent, p)
                         == if p < |v.handled| && IsPrompt(v.handled[p]) && !Pending(v, p) && p !in v.lost then 1 else 0)
  }

  // Nothing is lost unless a send failed.
  predicate LossIsFailure(v: Session) {
    && (v.lost != {} ==> v.failed)
    && (forall p :: p in v.turns && !v.turns[p].alive ==> v.failed)
  }

  predicate RcOf(ph: Phase, rc: int) { (ph.Returned? || ph.CtxSent?) && ph.rc == rc }

  // A turn reports cancellation only for a cancel frame that followed its prompt.
  predicate CancelOrder(v: Session) {
    && (forall p :: p in v.turns && v.turns[p].phase.Running? && v.slot.Some? && v.slot.value.cancel.Some?
          ==> p < v.slot.value.cancel.value < |v.handled| && v.handled[v.slot.value.cancel.value].Cancel?)
    && (forall p :: p in v.turns && RcOf(v.turns[p].phase, CANCELLED) ==> CancelAfter(v.handled, p))
    && (forall i :: 0 <= i < |v.sent| && v.sent[i].TurnDone? && v.sent[i].rc == CANCELLED
          ==> CancelAfter(v.handled, v.sent[i].prompt))
  }

  // The frames about one prompt: text, then the usage, then turn_done, and nothing after it.
  predicate Before(f: ServerFrame, g: ServerFrame) { f.Stream? || (f.Ctx? && g.TurnDone?) }

  // A frame about a prompt that has got no further than this.
  predicate SentByNow(v: Session, f: ServerFrame) {
    && f.prompt < |v.handled|
    && if f.prompt in v.turns then
         match v.turns[f.prompt].phase
         case Spawned => false
         case Running => f.Stream?
         case Returned(_) => f.Stream?
         case CtxSent(_) => !f.TurnDone?
         case _ => true
       else v.handler.Rejecting? && v.handler.prompt == f.prompt ==> v.handler.warned && f.Stream?
  }

  // The frames about each prompt are in order, and the reader takes nothing after a bye.
  predicate FrameOrder(v: Session) {
    && (forall i :: 0 <= i < |v.sent| ==> SentByNow(v, v.sent[i]))
    && (forall i, j :: 0 <= i < j < |v.sent| && v.sent[i].prompt == v.sent[j].prompt ==> Before(v.sent[i], v.sent[j]))
    && (forall i :: 0 <= i < |v.handled| && v.handled[i].Bye? ==>
          i == |v.handled| - 1 && !v.handler.Registered? && !v.handler.Looping? && !v.handler.Rejecting?)
  }

  ghost predicate Inv(v: Session) {
    Lifecycle(v) && Positions(v) && AnsweredOnce(v) && LossIsFailure(v) && CancelOrder(v) && FrameOrder(v)
  }

  lemma InitInv()
    ensures Inv(NewSession())
  {
  }

  // Every step but Take leaves the frames taken and the set of turn threads alone.
  lemma StepShape(v: Session, l: Label)
    requires Enabled(v, l)
    ensures !l.Take? ==> Step(v, l).handled == v.handled && Step(v, l).turns.Keys == v.turns.Keys
    ensures !l.Take? && Step(v, l).handler.Rejecting? ==>
              v.handler.Rejecting? && Step(v, l).handler.prompt == v.handler.prompt
    ensures l.Take? ==>
              Step(v, l).handled == v.handled + [l.frame] && Step(v, l).turns.Keys <= v.turns.Keys + {|v.handled|}
  {
  }

  lemma PositionsKept(v: Session, l: Label)
    requires Enabled(v, l) && Positions(v)
    ensures Positions(Step(v, l))
  {
    var w := Step(v, l);
    StepShape(v, l);
    if l.Take? {
      PositionsTake(v, l.frame);
    } else {
      hide Step, Enabled;
      assert forall p :: p in w.turns ==> p in v.turns;
    }
  }

  lemma PositionsTake(v: Session, f: ClientFrame)
    requires v.handler.Looping? && Positions(v)
    ensures Positions(TakeFrame(v, f))
  {
    var w := TakeFrame(v, f);
    assert forall i :: 0 <= i < |v.handled| ==> w.handled[i] == v.handled[i];
    assert w.handled[|v.handled|] == f;
  }

  lemma LifecycleKept(v: Session, l: Label)
    requires Enabled(v, l) && Lifecycle(v) && Positions(v)
    ensures Lifecycle(Step(v, l))
  {
    if l.Take? {
      LifecycleTake(v, l.frame);
    } else if l.CreateSlot? || l.RejectSend? || l.HangUp? || l.Remove? || l.CheckIdle? || l.HandlerExit? {
      LifecycleHandler(v, l);
    } else if l.Clear? {
      LifecycleClear(v, l.prompt, l.idle);
    } else {
      LifecycleTurn(v, l);
    }
  }

  lemma LifecycleTake(v: Session, f: ClientFrame)
    requires v.handler.Looping? && Lifecycle(v) && Positions(v)
    ensures Lifecycle(TakeFrame(v, f))
  {
    var w := TakeFrame(v, f);
    if v.slot.value.busy {
      var q :| q in v.turns && Uncleared(v.turns[q]);
      assert q in w.turns && Uncleared(w.turns[q]);
    } else if w.slot.value.busy {
      assert |v.handled| in w.turns && Uncleared(w.turns[|v.handled|]);
    }
  }

  lemma LifecycleHandler(v: Session, l: Label)
    requires Enabled(v, l) && Lifecycle(v)
    requires l.CreateSlot? || l.RejectSend? || l.HangUp? || l.Remove? || l.CheckIdle? || l.HandlerExit?
    ensures Lifecycle(Step(v, l))
  {
    assert Step(v, l).turns == v.turns;
  }

  lemma LifecycleClear(v: Session, p: nat, idle: bool)
    requires Enabled(v, Clear(p, idle)) && Lifecycle(v)
    ensures Lifecycle(Step(v, Clear(p, idle)))
  {
  }

  lemma LifecycleTurn(v: Session, l: Label)
    requires Enabled(v, l) && Lifecycle(v)
    requires l.Begin? || l.Emit? || l.Return? || l.SendCtx? || l.SendDone? || l.TurnExit?
    ensures Lifecycle(Step(v, l))
  {
    hide Lifecycle;
    var w := Step(v, l);
    assert w.turns.Keys == v.turns.Keys;
    assert forall q :: q in v.turns ==> (Uncleared(w.turns[q]) <==> Uncleared(v.turns[q]));
    LifecycleFrame(v, w);
  }

  lemma LifecycleFrame(v: Session, w: Session)
    requires Lifecycle(v)
    requires w.handler == v.handler && w.connected == v.connected && w.handled == v.handled
    requires w.slot.Some? <==> v.slot.Some?
    requires v.slot.Some? ==> w.slot.value.busy == v.slot.value.busy
    requires w.turns.Keys == v.turns.Keys
    requires forall q :: q in v.turns ==> (Uncleared(w.turns[q]) <==> Uncleared(v.turns[q]))
    ensures Lifecycle(w)
  {
    hide Uncleared;
    if v.slot.Some? && v.slot.value.busy {
      var q :| q in v.turns && Uncleared(v.turns[q]);
      assert q in w.turns && Uncleared(w.turns[q]);
    }
  }

  lemma LossIsFailureKept(v: Session, l: Label)
    requires Enabled(v, l) && LossIsFailure(v)
    ensures LossIsFailure(Step(v, l))
  {
    var w := Step(v, l);
    assert v.failed ==> w.failed;
    if !w.failed {
      assert w.lost == v.lost;
      assert forall p :: p in w.turns ==> w.turns[p].alive;
    }
  }

  // Prompt `p` is settled: taken, not pending, not lost.
  predicate Settled(v: Session, p: nat) {
    p < |v.handled| && IsPrompt(v.handled[p]) && !Pending(v, p) && p !in v.lost
  }

  // At most one frame more, and no turn_done.
  predicate AddsNoDone(sent: seq<ServerFrame>, more: seq<ServerFrame>) {
    more == sent || (|more| == |sent| + 1 && sent <= more && !more[|sent|].TurnDone?)
  }

  // A step that answers nothing and settles nothing.
  lemma AnsweredFrame(v: Session, w: Session)
    requires AnsweredOnce(v) && w.handled == v.handled && w.lost == v.lost
    requires forall p: nat :: Pending(w, p) <==> Pending(v, p)
    requires AddsNoDone(v.sent, w.sent)
    ensures AnsweredOnce(w)
  {
    hide Pending;
    forall p: nat ensures Answers(w.sent, p) == Answers(v.sent, p) {
      if w.sent != v.sent {
        AnswersSnoc(v.sent, w.sent[|v.sent|], p);
        assert w.sent == v.sent + [w.sent[|v.sent|]];
      }
    }
  }

  // A step that stops `p` from being pending, by a delivered answer or by a loss.
  lemma AnsweredNow(v: Session, w: Session, p: nat, rc: int)
    requires AnsweredOnce(v) && w.handled == v.handled && Pending(v, p)
    requires p < |v.handled| && IsPrompt(v.handled[p])
    requires forall q: nat :: Pending(w, q) <==> Pending(v, q) && q != p
    requires || (w.sent == v.sent + [TurnDone(rc, p)] && w.lost == v.lost)
             || (w.sent == v.sent && w.lost == v.lost + {p})
    ensures AnsweredOnce(w)
  {
    hide Pending;
    forall q: nat ensures Answers(w.sent, q)
                          == if q < |w.handled| && IsPrompt(w.handled[q]) && !Pending(w, q) && q !in w.lost then 1 else 0
    {
      AnswersSnoc(v.sent, TurnDone(rc, p), q);
    }
  }

  lemma AnsweredTake(v: Session, f: ClientFrame)
    requires v.handler.Looping? && Inv(v)
    ensures AnsweredOnce(TakeFrame(v, f))
  {
    var w := TakeFrame(v, f);
    var pos := |v.handled|;
    assert forall i :: 0 <= i < pos ==> w.handled[i] == v.handled[i];
    assert w.handled[pos] == f;
    forall q: nat ensures Pending(w, q) <==> Pending(v, q) || (q == pos && IsPrompt(f)) { }
    hide Pending, TakeFrame;
    forall q: nat ensures Answers(w.sent, q)
                          == if q < |w.handled| && IsPrompt(w.handled[q]) && !Pending(w, q) && q !in w.lost then 1 else 0
    {
      assert Answers(w.sent, q) == Answers(v.sent, q);
    }
  }

  lemma AnsweredKept(v: Session, l: Label)
    requires Enabled(v, l) && Inv(v)
    ensures AnsweredOnce(Step(v, l))
  {
    var w := Step(v, l);
    if l.Take? {
      AnsweredTake(v, l.frame);
    } else if l.RejectSend? && v.handler.warned {
      forall q: nat ensures Pending(w, q) <==> Pending(v, q) && q != v.handler.prompt { }
      AnsweredNow(v, w, v.handler.prompt, 1);
    } else if l.SendDone? {
      forall q: nat ensures Pending(w, q) <==> Pending(v, q) && q != l.prompt { }
      AnsweredNow(v, w, l.prompt, v.turns[l.prompt].phase.rc);
    } else {
      PendingKept(v, l);
      AnsweredFrame(v, w);
    }
  }

  lemma PendingKept(v: Session, l: Label)
    requires Enabled(v, l) && !l.Take? && !l.SendDone? && !(l.RejectSend? && v.handler.warned)
    ensures forall q: nat :: Pending(Step(v, l), q) <==> Pending(v, q)
    ensures Step(v, l).handled == v.handled && Step(v, l).lost == v.lost
    ensures AddsNoDone(v.sent, Step(v, l).sent)
  {
  }

  // ---- cancel order ----

  lemma CancelAfterGrows(handled: seq<ClientFrame>, f: ClientFrame, p: nat)
    requires CancelAfter(handled, p)
    ensures CancelAfter(handled + [f], p)
  {
    var j :| p < j < |handled| && handled[j].Cancel?;
    assert (handled + [f])[j].Cancel?;
  }

  lemma CancelOrderKept(v: Session, l: Label)
    requires Enabled(v, l) && Inv(v)
    ensures CancelOrder(Step(v, l))
  {
    hide Lifecycle, Positions, AnsweredOnce, LossIsFailure, CancelOrder, CancelAfter, RcOf;
    match l
    case Take(f) => CancelOrderTake(v, f);
    case Return(_, _) => CancelOrderReturn(v, l);
    case SendDone(_, _) => CancelOrderReturn(v, l);
    case Begin(_, _) => CancelOrderTurn(v, l);
    case Emit(_, _) => CancelOrderTurn(v, l);
    case SendCtx(_, _) => CancelOrderTurn(v, l);
    case Clear(_, _) => CancelOrderTurn(v, l);
    case TurnExit(_) => CancelOrderTurn(v, l);
    case _ => CancelOrderHandler(v, l);
  }

  lemma CancelOrderTake(v: Session, f: ClientFrame)
    requires v.handler.Looping? && Lifecycle(v) && Positions(v) && CancelOrder(v)
    ensures CancelOrder(TakeFrame(v, f))
  {
    var w := TakeFrame(v, f);
    assert forall p :: p in w.turns && (w.turns[p].phase.Running? || RcOf(w.turns[p].phase, CANCELLED)) ==>
             p in v.turns && v.turns[p] == w.turns[p];
    hide Lifecycle;
    if f.Cancel? && w.slot != v.slot {
      CancelRaised(v, w, f);
    } else {
      CancelOrderGrows(v, w, f);
    }
  }

  lemma CancelOrderGrows(v: Session, w: Session, f: ClientFrame)
    requires CancelOrder(v) && w.handled == v.handled + [f] && w.sent == v.sent
    requires w.slot.Some? ==> v.slot.Some? && w.slot.value.cancel == v.slot.value.cancel
    requires forall p :: p in w.turns && (w.turns[p].phase.Running? || RcOf(w.turns[p].phase, CANCELLED)) ==>
               p in v.turns && v.turns[p] == w.turns[p]
    ensures CancelOrder(w)
  {
    assert forall i :: 0 <= i < |v.handled| ==> w.handled[i] == v.handled[i];
    forall p: nat | CancelAfter(v.handled, p) ensures CancelAfter(w.handled, p) {
      CancelAfterGrows(v.handled, f, p);
    }
    hide CancelAfter, RcOf;
  }

  lemma CancelRaised(v: Session, w: Session, f: ClientFrame)
    requires CancelOrder(v) && Positions(v) && f.Cancel? && w.handled == v.handled + [f] && w.sent == v.sent
    requires w.slot.Some? && w.slot.value.cancel == Some(|v.handled|) && w.turns == v.turns
    ensures CancelOrder(w)
  {
    CancelOrderGrows(v, w.(slot := None), f);
    assert w.handled[|v.handled|] == f;
    hide CancelAfter, RcOf, IsPrompt;
  }

  // A step that starts no cancellation.
  lemma CancelOrderFrame(v: Session, w: Session)
    requires CancelOrder(v) && w.handled == v.handled && w.turns.Keys <= v.turns.Keys
    requires w.slot.Some? && w.slot.value.cancel.Some? ==> v.slot.Some? && v.slot.value.cancel == w.slot.value.cancel
    requires forall p :: p in w.turns && w.turns[p].phase.Running? && w.slot.Some? && w.slot.value.cancel.Some? ==>
               v.turns[p].phase.Running?
    requires forall p :: p in w.turns && RcOf(w.turns[p].phase, CANCELLED) ==>
               RcOf(v.turns[p].phase, CANCELLED) || CancelAfter(v.handled, p)
    requires w.sent == v.sent || exists f ::
               w.sent == v.sent + [f] && (f.TurnDone? && f.rc == CANCELLED ==> CancelAfter(v.handled, f.prompt))
    ensures CancelOrder(w)
  {
    hide CancelAfter, RcOf;
  }

  lemma CancelOrderHandler(v: Session, l: Label)
    requires Enabled(v, l) && CancelOrder(v)
    requires l.CreateSlot? || l.RejectSend? || l.HangUp? || l.Remove? || l.CheckIdle? || l.HandlerExit?
    ensures CancelOrder(Step(v, l))
  {
    hide CancelAfter;
    var w := Step(v, l);
    assert w.turns == v.turns && w.handled == v.handled;
    if l.RejectSend? {
      var f := if v.handler.warned then TurnDone(1, v.handler.prompt) else Stream(v.handler.prompt);
      assert l.ok ==> w.sent == v.sent + [f];
    }
    CancelOrderFrame(v, w);
  }

  lemma CancelOrderReturn(v: Session, l: Label)
    requires Enabled(v, l) && CancelOrder(v) && (l.Return? || l.SendDone?)
    ensures CancelOrder(Step(v, l))
  {
    var w := Step(v, l);
    assert w.turns.Keys == v.turns.Keys && w.handled == v.handled;
    if l.Return? {
      assert l.rc == CANCELLED ==> CancelAfter(v.handled, l.prompt);
    } else {
      var rc := v.turns[l.prompt].phase.rc;
      assert RcOf(v.turns[l.prompt].phase, rc);
      assert w.sent != v.sent ==> w.sent == v.sent + [TurnDone(rc, l.prompt)];
    }
    CancelOrderFrame(v, w);
  }

  lemma CancelOrderTurn(v: Session, l: Label)
    requires Enabled(v, l) && CancelOrder(v)
    requires l.Begin? || l.Emit? || l.SendCtx? || l.Clear? || l.TurnExit?
    ensures CancelOrder(Step(v, l))
  {
    hide CancelAfter;
    var w := Step(v, l);
    assert w.turns.Keys == v.turns.Keys && w.handled == v.handled;
    assert w.sent != v.sent ==> w.sent == v.sent + [if l.SendCtx? then Ctx(l.prompt) else Stream(l.prompt)];
    CancelOrderFrame(v, w);
  }

  // Every step of either thread keeps the invariant.
  // A step that sends nothing.
  lemma OrderSame(v: Session, w: Session)
    requires FrameOrder(v) && w.sent == v.sent && w.handled == v.handled
    requires forall f :: SentByNow(v, f) ==> SentByNow(w, f)
    requires w.handler.Registered? || w.handler.Looping? || w.handler.Rejecting? ==>
               v.handler.Registered? || v.handler.Looping? || v.handler.Rejecting?
    ensures FrameOrder(w)
  {
    hide SentByNow, Before;
  }

  lemma OrderSends(v: Session, w: Session, f: ServerFrame)
    requires FrameOrder(v) && w.sent == v.sent + [f] && w.handled == v.handled
    requires forall g :: SentByNow(v, g) ==> SentByNow(w, g) && (g.prompt == f.prompt ==> Before(g, f))
    requires SentByNow(w, f)
    requires w.handler.Registered? || w.handler.Looping? || w.handler.Rejecting? ==>
               v.handler.Registered? || v.handler.Looping? || v.handler.Rejecting?
    ensures FrameOrder(w)
  {
    hide SentByNow, Before;
  }

  lemma OrderTake(v: Session, f: ClientFrame)
    requires v.handler.Looping? && FrameOrder(v) && Positions(v)
    ensures FrameOrder(TakeFrame(v, f))
  {
    var w := TakeFrame(v, f);
    assert w.sent == v.sent && w.handled == v.handled + [f];
    forall g | SentByNow(v, g) ensures SentByNow(w, g) { assert g.prompt != |v.handled|; }
    assert forall i :: 0 <= i < |v.handled| ==> !v.handled[i].Bye?;
    assert f.Bye? ==> w.handler.Leaving?;
    hide SentByNow, Before;
  }

  lemma OrderHandler(v: Session, l: Label)
    requires Enabled(v, l) && FrameOrder(v) && Positions(v)
    requires l.CreateSlot? || l.RejectSend? || l.HangUp? || l.Remove? || l.CheckIdle? || l.HandlerExit?
    ensures FrameOrder(Step(v, l))
  {
    var w := Step(v, l);
    if l.RejectSend? && l.ok {
      OrderSends(v, w, if v.handler.warned then TurnDone(1, v.handler.prompt) else Stream(v.handler.prompt));
    } else {
      OrderSame(v, w);
    }
  }

  lemma OrderTurn(v: Session, l: Label)
    requires Enabled(v, l) && FrameOrder(v) && Positions(v)
    requires l.Begin? || l.Emit? || l.Return? || l.SendCtx? || l.SendDone? || l.Clear? || l.TurnExit?
    ensures FrameOrder(Step(v, l))
  {
    TurnOf(v, l);
    hide *;
    if (l.Emit? || l.SendCtx? || l.SendDone?) && v.turns[l.prompt].alive && l.ok {
      OrderDelivers(v, l);
    } else {
      OrderQuiet(v, l);
    }
  }

  lemma TurnOf(v: Session, l: Label)
    requires Enabled(v, l) && Positions(v)
    requires l.Begin? || l.Emit? || l.Return? || l.SendCtx? || l.SendDone? || l.Clear? || l.TurnExit?
    ensures l.prompt in v.turns && l.prompt < |v.handled|
  {
    hide IsPrompt;
  }

  lemma OrderQuiet(v: Session, l: Label)
    requires Enabled(v, l) && FrameOrder(v)
    requires l.Begin? || l.Emit? || l.Return? || l.SendCtx? || l.SendDone? || l.Clear? || l.TurnExit?
    requires l.Emit? || l.SendCtx? || l.SendDone? ==> !v.turns[l.prompt].alive || !l.ok
    ensures FrameOrder(Step(v, l))
  {
    hide FrameOrder;
    OrderSame(v, Step(v, l));
  }

  lemma OrderDelivers(v: Session, l: Label)
    requires Enabled(v, l) && FrameOrder(v)
    requires (l.Emit? || l.SendCtx? || l.SendDone?) && v.turns[l.prompt].alive && l.ok && l.prompt < |v.handled|
    ensures FrameOrder(Step(v, l))
  {
    var w, p := Step(v, l), l.prompt;
    hide FrameOrder;
    if l.Emit? {
      OrderSends(v, w, Stream(p));
    } else if l.SendCtx? {
      OrderSends(v, w, Ctx(p));
    } else {
      OrderSends(v, w, TurnDone(v.turns[p].phase.rc, p));
    }
  }

  lemma FrameOrderKept(v: Session, l: Label)
    requires Enabled(v, l) && FrameOrder(v) && Positions(v)
    ensures FrameOrder(Step(v, l))
  {
    hide FrameOrder;
    if l.Take? {
      OrderTake(v, l.frame);
    } else if l.CreateSlot? || l.RejectSend? || l.HangUp? || l.Remove? || l.CheckIdle? || l.HandlerExit? {
      OrderHandler(v, l);
    } else {
      OrderTurn(v, l);
    }
  }

  lemma StepKeepsInv(v: Session, l: Label)
    requires Enabled(v, l) && Inv(v)
    ensures Inv(Step(v, l))
  {
    hide *;
    InvIs(v);
    LifecycleKept(v, l);
    PositionsKept(v, l);
    AnsweredKept(v, l);
    LossIsFailureKept(v, l);
    CancelOrderKept(v, l);
    FrameOrderKept(v, l);
    InvIs(Step(v, l));
  }

  lemma InvIs(v: Session)
    ensures Inv(v) <==> Lifecycle(v) && Positions(v) && AnsweredOnce(v) && LossIsFailure(v) && CancelOrder(v)
                        && FrameOrder(v)
  {
  }

  // ---- progress ----

  // How many of its thread's steps prompt `p` is from its answer.
  function Distance(v: Session, p: nat): nat {
    if p in v.turns && Unanswered(v.turns[p]) then
      match v.turns[p].phase
      case Spawned => 4
      case Running => 3
      case Returned(_) => 2
      case _ => 1
    else if v.handler.Rejecting? && v.handler.prompt == p then if v.handler.warned then 1 else 2
    else 0
  }

  // A step of the thread that is to answer `p`, other than one more stream frame.
  predicate OwnStep(v: Session, l: Label, p: nat) {
    || ((l.Begin? || l.Return? || l.SendCtx? || l.SendDone?) && l.prompt == p)
    || (l.RejectSend? && v.handler.Rejecting? && v.handler.prompt == p)
  }

  lemma PendingIsDistant(v: Session, p: nat)
    ensures Pending(v, p) <==> Distance(v, p) > 0
  {
  }

  // The thread of a pending prompt can always take such a step.
  lemma PendingHasStep(v: Session, p: nat) returns (l: Label)
    requires Pending(v, p)
    ensures OwnStep(v, l, p) && Enabled(v, l)
  {
    if p in v.turns && Unanswered(v.turns[p]) {
      match v.turns[p].phase
      case Spawned => l := Begin(p, false);
      case Running => l := Return(p, 0);
      case Returned(_) => l := SendCtx(p, false);
      case _ => l := SendDone(p, false);
    } else {
      l := RejectSend(false);
    }
  }

  // Each brings the answer nearer, and no step of any thread puts it off.
  lemma StepsApproach(v: Session, l: Label, p: nat)
    requires Enabled(v, l) && Pending(v, p) && Positions(v)
    ensures Distance(Step(v, l), p) <= Distance(v, p)
    ensures OwnStep(v, l, p) ==> Distance(Step(v, l), p) < Distance(v, p)
  {
    PendingTaken(v, p);
    hide Positions;
    if l.Begin? || l.Emit? || l.Return? || l.SendCtx? || l.SendDone? || l.Clear? || l.TurnExit? {
      TurnApproaches(v, l, p);
    } else {
      HandlerApproaches(v, l, p);
    }
  }

  lemma PendingTaken(v: Session, p: nat)
    requires Pending(v, p) && Positions(v)
    ensures p < |v.handled| && (v.handler.Rejecting? && v.handler.prompt == p ==> p !in v.turns)
  {
  }

  lemma TurnApproaches(v: Session, l: Label, p: nat)
    requires Enabled(v, l) && Pending(v, p) && (v.handler.Rejecting? && v.handler.prompt == p ==> p !in v.turns)
    requires l.Begin? || l.Emit? || l.Return? || l.SendCtx? || l.SendDone? || l.Clear? || l.TurnExit?
    ensures Distance(Step(v, l), p) <= Distance(v, p)
    ensures OwnStep(v, l, p) ==> Distance(Step(v, l), p) < Distance(v, p)
  {
    var w := Step(v, l);
    assert w.handler == v.handler;
    if l.prompt != p {
      assert p in w.turns <==> p in v.turns;
      assert p in v.turns ==> w.turns[p] == v.turns[p];
      hide Step, Enabled;
    } else {
      hide Send, Answer, Sendable;
    }
  }

  lemma HandlerApproaches(v: Session, l: Label, p: nat)
    requires Enabled(v, l) && Pending(v, p) && p < |v.handled|
    requires v.handler.Rejecting? && v.handler.prompt == p ==> p !in v.turns
    requires l.CreateSlot? || l.Take? || l.RejectSend? || l.HangUp? || l.Remove? || l.CheckIdle? || l.HandlerExit?
    ensures Distance(Step(v, l), p) <= Distance(v, p)
    ensures OwnStep(v, l, p) ==> Distance(Step(v, l), p) < Distance(v, p)
  {
    var w := Step(v, l);
    assert p in w.turns <==> p in v.turns;
    assert p in v.turns ==> w.turns[p] == v.turns[p];
    if p !in v.turns || !Unanswered(v.turns[p]) {
      assert l.RejectSend?;
    } else {
      hide Step, Enabled;
    }
  }

  // ---- where the code of an answer comes from ----

  // A step, and the session it is taken from.
  datatype Event = Event(before: Session, act: Label)

  // The agent's turn for prompt `p` returned `rc`.
  predicate AgentReturned(past: seq<Event>, p: nat, rc: int) {
    exists j :: 0 <= j < |past| && past[j].act == Return(p, rc)
  }

  predicate LackedProvider(past: seq<Event>, p: nat) {
    exists j :: 0 <= j < |past| && past[j].act == Begin(p, false)
  }

  // The prompt was taken while a turn of this client had not cleared busy.
  predicate CameWhileBusy(past: seq<Event>, p: nat) {
    exists j :: 0 <= j < |past| && TakenBusy(past[j], p)
  }

  predicate TakenBusy(e: Event, p: nat) {
    e.act.Take? && e.act.frame.Prompt? && |e.before.handled| == p && e.before.slot.Some? && e.before.slot.value.busy
  }

  // What the client is to be told about prompt `p`.
  predicate Outcome(past: seq<Event>, p: nat, rc: int) {
    || AgentReturned(past, p, rc)
    || (rc == 1 && (LackedProvider(past, p) || CameWhileBusy(past, p)))
  }

  // Every code in an answer, or on its way into one, is the outcome of its prompt.
  ghost predicate Accounted(v: Session, past: seq<Event>) {
    && (forall i :: 0 <= i < |v.sent| && v.sent[i].TurnDone? ==> Outcome(past, v.sent[i].prompt, v.sent[i].rc))
    && (forall p :: p in v.turns && (v.turns[p].phase.Returned? || v.turns[p].phase.CtxSent?) ==>
          Outcome(past, p, v.turns[p].phase.rc))
    && (v.handler.Rejecting? ==> CameWhileBusy(past, v.handler.prompt))
  }

  // A turn whose agent returned `rc` carries that code, and is answered with no other.
  predicate Keeps(v: Session, p: nat, rc: int) {
    && p in v.turns && !v.turns[p].phase.Spawned? && !v.turns[p].phase.Running?
    && ((v.turns[p].phase.Returned? || v.turns[p].phase.CtxSent?) ==> v.turns[p].phase.rc == rc)
    && (forall i :: 0 <= i < |v.sent| && v.sent[i].TurnDone? && v.sent[i].prompt == p ==> v.sent[i].rc == rc)
  }

  predicate KeepsAll(v: Session, past: seq<Event>) {
    forall j :: 0 <= j < |past| && past[j].act.Return? ==> Keeps(v, past[j].act.prompt, past[j].act.rc)
  }

  lemma OutcomeGrows(past: seq<Event>, e: Event, p: nat, rc: int)
    ensures Outcome(past, p, rc) ==> Outcome(past + [e], p, rc)
    ensures CameWhileBusy(past, p) ==> CameWhileBusy(past + [e], p)
  {
    var more := past + [e];
    if j :| 0 <= j < |past| && past[j].act == Return(p, rc) { assert more[j].act == Return(p, rc); }
    if j :| 0 <= j < |past| && past[j].act == Begin(p, false) { assert more[j].act == Begin(p, false); }
    if j :| 0 <= j < |past| && TakenBusy(past[j], p) { assert TakenBusy(more[j], p); }
  }

  // The newest step is the outcome of its prompt, if it decides one.
  lemma OutcomeNow(past: seq<Event>, e: Event)
    ensures e.act.Return? ==> Outcome(past + [e], e.act.prompt, e.act.rc)
    ensures e.act.Begin? && !e.act.provider ==> Outcome(past + [e], e.act.prompt, 1)
    ensures forall p: nat :: TakenBusy(e, p) ==> CameWhileBusy(past + [e], p) && Outcome(past + [e], p, 1)
  {
    var more := past + [e];
    assert more[|past|] == e;
  }

  lemma OutcomeOfRefused(past: seq<Event>)
    ensures forall p: nat :: CameWhileBusy(past, p) ==> Outcome(past, p, 1)
  {
  }

  ghost predicate Grows(past: seq<Event>, more: seq<Event>) {
    && (forall p: nat, rc: int :: Outcome(past, p, rc) ==> Outcome(more, p, rc))
    && (forall p: nat :: CameWhileBusy(past, p) ==> CameWhileBusy(more, p) && Outcome(more, p, 1))
  }

  lemma EventsGrow(past: seq<Event>, e: Event)
    ensures Grows(past, past + [e])
  {
    forall p: nat, rc: int ensures Outcome(past, p, rc) ==> Outcome(past + [e], p, rc) {
      OutcomeGrows(past, e, p, rc);
    }
    forall p: nat ensures CameWhileBusy(past, p) ==> CameWhileBusy(past + [e], p) { OutcomeGrows(past, e, p, 1); }
    OutcomeOfRefused(past + [e]);
    hide Outcome, CameWhileBusy;
  }

  lemma AccountedKept(v: Session, past: seq<Event>, l: Label)
    requires Enabled(v, l) && Accounted(v, past)
    ensures Accounted(Step(v, l), past + [Event(v, l)])
  {
    var more := past + [Event(v, l)];
    EventsGrow(past, Event(v, l));
    OutcomeNow(past, Event(v, l));
    hide *;
    if l.Take? {
      AccountedTake(v, past, more, l.frame);
    } else if l.CreateSlot? || l.RejectSend? || l.HangUp? || l.Remove? || l.CheckIdle? || l.HandlerExit? {
      AccountedHandler(v, past, more, l);
    } else {
      AccountedTurn(v, past, more, l);
    }
  }

  lemma AccountedTake(v: Session, past: seq<Event>, more: seq<Event>, f: ClientFrame)
    requires Enabled(v, Take(f)) && Accounted(v, past) && Grows(past, more)
    requires forall p: nat :: TakenBusy(Event(v, Take(f)), p) ==> CameWhileBusy(more, p)
    ensures Accounted(Step(v, Take(f)), more)
  {
    hide Outcome, CameWhileBusy;
    var w := Step(v, Take(f));
    if w.handler.Rejecting? { assert TakenBusy(Event(v, Take(f)), w.handler.prompt); }
  }

  lemma AccountedHandler(v: Session, past: seq<Event>, more: seq<Event>, l: Label)
    requires Enabled(v, l) && Accounted(v, past) && Grows(past, more)
    requires l.CreateSlot? || l.RejectSend? || l.HangUp? || l.Remove? || l.CheckIdle? || l.HandlerExit?
    ensures Accounted(Step(v, l), more)
  {
    hide Outcome, CameWhileBusy;
  }

  lemma AccountedTurn(v: Session, past: seq<Event>, more: seq<Event>, l: Label)
    requires Enabled(v, l) && Accounted(v, past) && Grows(past, more)
    requires l.Begin? || l.Emit? || l.Return? || l.SendCtx? || l.SendDone? || l.Clear? || l.TurnExit?
    requires l.Return? ==> Outcome(more, l.prompt, l.rc)
    requires l.Begin? && !l.provider ==> Outcome(more, l.prompt, 1)
    ensures Accounted(Step(v, l), more)
  {
    hide Outcome, CameWhileBusy;
  }

  lemma KeepsKept(v: Session, l: Label, p: nat, rc: int)
    requires Enabled(v, l) && Inv(v) && Keeps(v, p, rc)
    ensures Keeps(Step(v, l), p, rc)
  {
    InvIs(v);
    hide *;
    if l.Take? {
      KeepsTake(v, l.frame, p, rc);
    } else if l.CreateSlot? || l.RejectSend? || l.HangUp? || l.Remove? || l.CheckIdle? || l.HandlerExit? {
      KeepsHandler(v, l, p, rc);
    } else {
      KeepsTurn(v, l, p, rc);
    }
  }

  lemma KeepsTake(v: Session, f: ClientFrame, p: nat, rc: int)
    requires Enabled(v, Take(f)) && Positions(v) && Keeps(v, p, rc)
    ensures Keeps(Step(v, Take(f)), p, rc)
  {
    assert p < |v.handled|;
  }

  lemma KeepsHandler(v: Session, l: Label, p: nat, rc: int)
    requires Enabled(v, l) && Positions(v) && Keeps(v, p, rc)
    requires l.CreateSlot? || l.RejectSend? || l.HangUp? || l.Remove? || l.CheckIdle? || l.HandlerExit?
    ensures Keeps(Step(v, l), p, rc)
  {
    hide IsPrompt;
  }

  lemma KeepsTurn(v: Session, l: Label, p: nat, rc: int)
    requires Enabled(v, l) && Keeps(v, p, rc)
    requires l.Begin? || l.Emit? || l.Return? || l.SendCtx? || l.SendDone? || l.Clear? || l.TurnExit?
    ensures Keeps(Step(v, l), p, rc)
  {
  }

  // A turn that is returning has not been answered.
  lemma ReturnKeeps(v: Session, p: nat, rc: int)
    requires Enabled(v, Return(p, rc)) && Inv(v)
    ensures Keeps(Step(v, Return(p, rc)), p, rc)
  {
    InvIs(v);
    assert Pending(v, p) && Answers(v.sent, p) == 0;
    NoneAnswered(v.sent, p);
  }

  lemma {:induction false} NoneAnswered(sent: seq<ServerFrame>, p: nat)
    requires Answers(sent, p) == 0
    ensures forall i :: 0 <= i < |sent| && sent[i].TurnDone? ==> sent[i].prompt != p
  {
    if sent != [] { NoneAnswered(sent[..|sent| - 1], p); }
  }

  lemma KeepsAllKept(v: Session, past: seq<Event>, l: Label)
    requires Enabled(v, l) && Inv(v) && KeepsAll(v, past)
    ensures KeepsAll(Step(v, l), past + [Event(v, l)])
  {
    var more := past + [Event(v, l)];
    forall j | 0 <= j < |more| && more[j].act.Return?
      ensures Keeps(Step(v, l), more[j].act.prompt, more[j].act.rc)
    {
      if j < |past| {
        assert more[j] == past[j];
        KeepsKept(v, l, past[j].act.prompt, past[j].act.rc);
      } else {
        ReturnKeeps(v, l.prompt, l.rc);
      }
    }
  }

  // ---- what is sent, and when nothing more is ----

  // What one step delivers to the client.
  function Delivered(e: Event): seq<ServerFrame> {
    match e.act
    case Emit(p, ok) => if ok && Live(e.before, p) then [Stream(p)] else []
    case SendCtx(p, ok) => if ok && Live(e.before, p) then [Ctx(p)] else []
    case SendDone(p, ok) =>
      if ok && Live(e.before, p) && e.before.turns[p].phase.CtxSent? then [TurnDone(e.before.turns[p].phase.rc, p)] else []
    case RejectSend(ok) =>
      if !ok || !e.before.handler.Rejecting? then []
      else if e.before.handler.warned then [TurnDone(1, e.before.handler.prompt)]
      else [Stream(e.before.handler.prompt)]
    case _ => []
  }

  // No send of this turn's text has failed.
  predicate Live(v: Session, p: nat) { p in v.turns && v.turns[p].alive }

  function Log(past: seq<Event>): seq<ServerFrame> {
    if past == [] then [] else Log(past[..|past| - 1]) + Delivered(past[|past| - 1])
  }

  // What was sent is what the steps delivered, in order.
  lemma LogKept(v: Session, past: seq<Event>, l: Label)
    requires Enabled(v, l) && v.sent == Log(past)
    ensures Step(v, l).sent == Log(past + [Event(v, l)])
  {
    var more := past + [Event(v, l)];
    assert more[..|past|] == past;
    assert Step(v, l).sent == v.sent + Delivered(Event(v, l));
  }

  // The frames about one prompt.
  function About(sent: seq<ServerFrame>, p: nat): seq<ServerFrame> { Keep(sent, (f: ServerFrame) => f.prompt == p) }

  // A turn one of whose sends has failed sends nothing more, neither usage nor turn_done.
  predicate Silenced(v: Session, p: nat, sent: seq<ServerFrame>) {
    p in v.turns && !v.turns[p].alive && About(v.sent, p) == sent
  }

  lemma FailureSilences(v: Session, p: nat)
    requires Enabled(v, Emit(p, false)) && Live(v, p)
    ensures Silenced(Step(v, Emit(p, false)), p, About(v.sent, p))
  {
  }

  lemma SilencedKept(v: Session, l: Label, p: nat, sent: seq<ServerFrame>)
    requires Enabled(v, l) && Positions(v) && Silenced(v, p, sent)
    ensures Silenced(Step(v, l), p, sent)
  {
    var w := Step(v, l);
    SentByOthers(v, l, p);
    StaysSilent(v, l, p);
    hide Step, Enabled, Positions, Keep;
    if w.sent != v.sent {
      var f := w.sent[|v.sent|];
      assert w.sent == v.sent + [f];
      KeepAppend(v.sent, [f], (g: ServerFrame) => g.prompt == p);
      assert Keep([f], (g: ServerFrame) => g.prompt == p) == [] by { KeepNone(f, p); }
      assert About(v.sent, p) + [] == About(v.sent, p);
    }
  }

  lemma KeepNone(f: ServerFrame, p: nat)
    requires f.prompt != p
    ensures Keep([f], (g: ServerFrame) => g.prompt == p) == []
  {
    assert [f][1..] == [];
  }

  lemma SentByOthers(v: Session, l: Label, p: nat)
    requires Enabled(v, l) && Positions(v) && p in v.turns && !v.turns[p].alive
    ensures Step(v, l).sent == v.sent
            || (|Step(v, l).sent| == |v.sent| + 1 && v.sent <= Step(v, l).sent && Step(v, l).sent[|v.sent|].prompt != p)
  {
  }

  lemma StaysSilent(v: Session, l: Label, p: nat)
    requires Enabled(v, l) && Positions(v) && p in v.turns && !v.turns[p].alive
    ensures p in Step(v, l).turns && !Step(v, l).turns[p].alive
  {
    assert p < |v.handled|;
  }
}
