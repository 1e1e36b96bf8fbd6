// src/remote/remote_agent.cpp, cancel_turn: what a cancel that is sent after its own turn can do
// to the turn that runs by then.
module LateCancel {
  import opened Bytes
  import opened RemoteSession
  import S = SessionProtocol

  // ---- continuations ----

  ghost predicate Path(states: seq<Remote>, moves: seq<Move>) {
    && |states| == |moves| + 1
    && forall i :: 0 <= i < |moves| ==> Enabled(states[i], moves[i]) && states[i + 1] == Next(states[i], moves[i])
  }

  ghost predicate Leads(r: Remote, w: Remote) {
    exists states, moves :: Path(states, moves) && states[0] == r && states[|moves|] == w
  }

  lemma LeadsNowhere(r: Remote)
    ensures Leads(r, r)
  {
    assert Path([r], []) && [r][0] == r;
  }

  lemma Further(r: Remote, w: Remote, m: Move) returns (x: Remote)
    requires Leads(r, w) && Enabled(w, m)
    ensures Leads(r, x) && x == Next(w, m)
  {
    x := Next(w, m);
    hide Enabled, Next;
    var states, moves :| Path(states, moves) && states[0] == r && states[|moves|] == w;
    var longer, more := states + [x], moves + [m];
    forall i | 0 <= i < |more| ensures Enabled(longer[i], more[i]) && longer[i + 1] == Next(longer[i], more[i]) {
      assert longer[i] == states[i];
      if i < |moves| { assert longer[i + 1] == states[i + 1] && more[i] == moves[i]; }
    }
    assert Path(longer, more) && longer[0] == r && longer[|more|] == x;
  }

  // ---- a turn that can still be hit ----

  // A call waits for the turn of its prompt `p`, which runs on a server that reads on.
  predicate Awaits(r: Remote, p: nat) {
    && r.call.Waiting? && r.client.connected && r.client.turnActive && r.open
    && Asked(r.wire) != [] && p == Last(Asked(r.wire))
    && r.session.connected && r.session.handler.Looping?
    && p in r.session.turns && r.session.turns[p] == S.Turn(S.Running, true)
  }

  // Nothing a step changes but what the server has taken.
  predicate SameButTaken(r: Remote, w: Remote) { w == r.(session := w.session) && w.session.sent == r.session.sent }

  predicate Flagged(v: S.Session) { v.slot.Some? && v.slot.value.cancel.Some? }

  lemma {:induction false} NothingAskedAfter(wire: seq<S.ClientFrame>, i: nat)
    requires Asked(wire) != [] && Last(Asked(wire)) < i < |wire|
    ensures !wire[i].Prompt?
  {
    var n := |wire| - 1;
    if !wire[n].Prompt? && i < n {
      assert Asked(wire) == Asked(wire[..n]);
      NothingAskedAfter(wire[..n], i);
    }
  }

  // The server takes the next frame, which is no prompt.
  lemma TakesNext(r: Remote, p: nat)
    requires Inv(r) && Numbered(r) && Awaits(r, p) && |r.session.handled| < |r.wire|
    ensures var f := r.wire[|r.session.handled|];
            && Enabled(r, Server(S.Take(f)))
            && var w := Next(r, Server(S.Take(f)));
               && Inv(w) && Numbered(w) && Awaits(w, p) && SameButTaken(r, w)
               && w.session.handled == r.session.handled + [f]
               && (f.Cancel? || Flagged(r.session) ==> Flagged(w.session))
  {
    var v := r.session;
    var n := |v.handled|;
    InvIs(r);
    S.InvIs(v);
    NothingAskedAfter(r.wire, n);
    var f := r.wire[n];
    NextKeepsInv(r, Server(S.Take(f)));
    NumberedKept(r, Server(S.Take(f)));
    hide Inv, S.Inv, S.Positions, S.AnsweredOnce, S.LossIsFailure, S.CancelOrder, Rendezvous, Phases, Honesty, Asked;
    assert S.Uncleared(v.turns[p]) && v.slot.Some? && v.slot.value.busy;
  }

  lemma {:induction false} TakesAll(from: Remote, r: Remote, p: nat) returns (w: Remote)
    requires Leads(from, r) && Inv(r) && Numbered(r) && Awaits(r, p)
    requires Flagged(r.session) || (|r.session.handled| < |r.wire| && r.wire[|r.wire| - 1].Cancel?)
    ensures Leads(from, w) && Inv(w) && Numbered(w) && Awaits(w, p) && SameButTaken(r, w) && Flagged(w.session)
    decreases |r.wire| - |r.session.handled|
  {
    hide Leads, Inv, Numbered, Awaits, Enabled, Next, Flagged;
    if |r.session.handled| < |r.wire| {
      TakesNext(r, p);
      w := Further(from, r, Server(S.Take(r.wire[|r.session.handled|])));
      w := TakesAll(from, w, p);
    } else {
      w := r;
    }
  }

  // ---- the turn ends ----

  // The turn has answered `rc`; the client has not yet read up to that answer.
  predicate AnswerComes(r: Remote, p: nat, rc: int) {
    && r.call.Waiting? && r.client.connected && r.client.turnActive
    && r.seen < |r.session.sent| && r.session.sent[|r.session.sent| - 1] == S.TurnDone(rc, p)
    && forall i :: r.seen <= i < |r.session.sent| - 1 ==> !r.session.sent[i].TurnDone?
  }

  lemma {:induction false} NoDoneAfter(sent: seq<S.ServerFrame>, n: nat, i: nat)
    requires n <= i < |sent| && Dones(sent) == Dones(sent[..n])
    ensures !sent[i].TurnDone?
  {
    var m := |sent| - 1;
    DonesPrefix(sent[..m], n);
    assert sent[..m][..n] == sent[..n];
    assert !sent[m].TurnDone?;
    if i < m { NoDoneAfter(sent[..m], n, i); }
  }

  lemma NothingAnsweredYet(r: Remote, p: nat)
    requires Inv(r) && Awaits(r, p)
    ensures r.seen <= |r.session.sent|
    ensures forall i :: r.seen <= i < |r.session.sent| ==> !r.session.sent[i].TurnDone?
  {
    InvIs(r);
    S.InvIs(r.session);
    AskedAre(r.wire, p);
    assert p in Asked(r.wire) by { hide Asked; assert Asked(r.wire)[|Asked(r.wire)| - 1] == p; }
    assert S.Pending(r.session, p);
    hide Asked, Dones;
    UnansweredIsOpen(r, p);
    forall i | r.seen <= i < |r.session.sent| ensures !r.session.sent[i].TurnDone? {
      NoDoneAfter(r.session.sent, r.seen, i);
    }
  }

  // The turn of `p` is in `phase`, and the client has `read` frames since it ran.
  predicate Ending(r: Remote, w: Remote, p: nat, phase: S.Phase, read: seq<S.ServerFrame>) {
    && w == r.(session := w.session) && w.session.connected && w.session.sent == r.session.sent + read
    && p in w.session.turns && w.session.turns[p] == S.Turn(phase, true)
  }

  lemma TurnReturns(r: Remote, p: nat)
    requires Awaits(r, p) && Flagged(r.session)
    ensures Enabled(r, Server(S.Return(p, S.CANCELLED)))
    ensures Ending(r, Next(r, Server(S.Return(p, S.CANCELLED))), p, S.Returned(S.CANCELLED), [])
  {
    hide Asked;
  }

  lemma TurnSendsUsage(r: Remote, w: Remote, p: nat)
    requires Ending(r, w, p, S.Returned(S.CANCELLED), [])
    ensures Enabled(w, Server(S.SendCtx(p, true)))
    ensures Ending(r, Next(w, Server(S.SendCtx(p, true))), p, S.CtxSent(S.CANCELLED), [S.Ctx(p)])
  {
  }

  lemma TurnSendsDone(r: Remote, w: Remote, p: nat)
    requires Ending(r, w, p, S.CtxSent(S.CANCELLED), [S.Ctx(p)])
    ensures Enabled(w, Server(S.SendDone(p, true)))
    ensures Ending(r, Next(w, Server(S.SendDone(p, true))), p, S.Answered, [S.Ctx(p), S.TurnDone(S.CANCELLED, p)])
  {
    assert [S.Ctx(p)] + [S.TurnDone(S.CANCELLED, p)] == [S.Ctx(p), S.TurnDone(S.CANCELLED, p)];
    ConcatAssoc(r.session.sent, [S.Ctx(p)], [S.TurnDone(S.CANCELLED, p)]);
  }

  lemma AnswerIsLast(r: Remote, w: Remote, p: nat)
    requires Awaits(r, p) && Ending(r, w, p, S.Answered, [S.Ctx(p), S.TurnDone(S.CANCELLED, p)])
    requires r.seen <= |r.session.sent|
    requires forall i :: r.seen <= i < |r.session.sent| ==> !r.session.sent[i].TurnDone?
    ensures AnswerComes(w, p, S.CANCELLED)
  {
    hide Asked;
    var sent := w.session.sent;
    assert sent[|sent| - 1] == S.TurnDone(S.CANCELLED, p) && sent[|sent| - 2] == S.Ctx(p);
  }

  lemma TurnEnds(from: Remote, r: Remote, p: nat) returns (w: Remote)
    requires Leads(from, r) && Inv(r) && Awaits(r, p) && Flagged(r.session)
    ensures Leads(from, w) && AnswerComes(w, p, S.CANCELLED)
    ensures w.wire == r.wire && w.results == r.results && w.calls == r.calls
  {
    NothingAnsweredYet(r, p);
    hide Leads, Inv, Awaits, Flagged, Next, Enabled, AnswerComes;
    TurnReturns(r, p);
    w := Further(from, r, Server(S.Return(p, S.CANCELLED)));
    TurnSendsUsage(r, w, p);
    w := Further(from, w, Server(S.SendCtx(p, true)));
    TurnSendsDone(r, w, p);
    w := Further(from, w, Server(S.SendDone(p, true)));
    AnswerIsLast(r, w, p);
  }

  // ---- the client hears it ----

  lemma {:induction false} HearsAnswer(from: Remote, r: Remote, p: nat, rc: int) returns (w: Remote)
    requires Leads(from, r) && AnswerComes(r, p, rc)
    ensures Leads(from, w) && w.wire == r.wire && w.calls == r.calls
    ensures w.results == r.results + [Result(r.calls, rc, Some(p))]
    decreases |r.session.sent| - r.seen
  {
    hide Leads;
    w := Further(from, r, Receive);
    if r.seen == |r.session.sent| - 1 {
      w := Further(from, w, Return);
    } else {
      w := HearsAnswer(from, w, p, rc);
    }
  }

  // A cancel of an earlier call that is still unsent while a later call's turn runs can always
  // hit that turn: some continuation returns kCancelled for a call that was never cancelled.
  lemma LateCancelCanHit(r: Remote, c: nat, p: nat) returns (w: Remote)
    requires Reachable(false, r) && Awaits(r, p)
    requires c in r.cancels && c < r.calls && !HasCancel(r.wire, r.calls)
    ensures Leads(r, w) && w.results == r.results + [Result(r.calls, S.CANCELLED, Some(p))]
    ensures !HasCancel(w.wire, r.calls)
  {
    ReachableInv(r);
    LeadsNowhere(r);
    CancelSent(r, c, p);
    hide Leads, Inv, Numbered, Awaits, Flagged, Reachable, Next;
    w := Further(r, r, SendCancel(c, true));
    w := TakesAll(r, w, p);
    w := TurnEnds(r, w, p);
    w := HearsAnswer(r, w, p, S.CANCELLED);
  }

  lemma ReachableInv(r: Remote)
    requires Reachable(false, r)
    ensures Inv(r) && Numbered(r)
  {
    var states, moves :| Run(false, states, moves) && states[|moves|] == r;
    hide *;
    RunInv(false, states, moves, |moves|);
    RunCancelsFollow(false, states, moves, |moves|);
  }

  lemma CancelSent(r: Remote, c: nat, p: nat)
    requires Inv(r) && Numbered(r) && Awaits(r, p)
    requires c in r.cancels && c < r.calls && !HasCancel(r.wire, r.calls)
    ensures Enabled(r, SendCancel(c, true))
    ensures var w := Next(r, SendCancel(c, true));
            && Inv(w) && Numbered(w) && Awaits(w, p) && !HasCancel(w.wire, r.calls)
            && w.wire == r.wire + [S.Cancel(c)] && |w.session.handled| < |w.wire|
            && w.results == r.results && w.calls == r.calls
  {
    InvIs(r);
    hide *;
    CancelGoesOut(r, c, p);
    NextKeepsInv(r, SendCancel(c, true));
    NumberedKept(r, SendCancel(c, true));
    NotOwn(r.wire, c, r.calls);
  }

  lemma CancelGoesOut(r: Remote, c: nat, p: nat)
    requires Awaits(r, p) && c in r.cancels && Framed(r)
    ensures Enabled(r, SendCancel(c, true))
    ensures var w := Next(r, SendCancel(c, true));
            && Awaits(w, p) && w.wire == r.wire + [S.Cancel(c)] && |w.session.handled| < |w.wire|
            && w.results == r.results && w.calls == r.calls
  {
    AskedSnoc(r.wire, S.Cancel(c));
    hide Asked, S.Enabled, S.Step;
  }

  lemma NotOwn(wire: seq<S.ClientFrame>, c: nat, call: nat)
    requires !HasCancel(wire, call) && c != call
    ensures !HasCancel(wire + [S.Cancel(c)], call)
  {
    var w := wire + [S.Cancel(c)];
    forall j | 0 <= j < |w| ensures w[j] != S.Cancel(call) {
      assert j < |wire| ==> w[j] == wire[j];
    }
  }
}
