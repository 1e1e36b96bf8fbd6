// src/server/server.cpp as a whole: every connection's threads interleaved over the shared maps.
module ServerProtocol {
  import opened Bytes
  import opened Ordering
  import S = SessionProtocol
  import opened SwarmsServer

  // `sessions` holds one entry per id ever handed out, with the threads of that connection and,
  // as the thread proofs see them, its entries in the shared maps; Coupled ties the two together.
  datatype System = System(solo: bool, server: ServerState, sessions: map<string, S.Session>)

  datatype Move =
    | Hello(id: string, name: string, repo: string)
    | At(id: string, act: S.Label)

  function Initial(solo: bool): System { System(solo, InitialState(), map[]) }

  // An id is fresh when no connection has had it. The two idle tests read the shared state.
  predicate Enabled(s: System, m: Move) {
    match m
    case Hello(id, _, _) => id !in s.sessions
    case At(id, l) =>
      && id in s.sessions && S.Enabled(s.sessions[id], l)
      && (l.CheckIdle? ==> (l.idle <==> Idle(s.solo, s.server)))
      && (l.Clear? ==> (l.idle <==> NobodyConnected(s.solo, FinishTurn(s.server, id))))
  }

  // What a thread's step does to the shared state.
  function OnServer(server: ServerState, id: string, v: S.Session, l: S.Label): ServerState
    requires S.Enabled(v, l)
  {
    match l
    case CreateSlot => PutSlot(server, id)
    case Take(f) =>
      if S.IsPrompt(f) then Schedule(server, id)
      else if f.Cancel? then RaiseCancel(server, id, |v.handled|)
      else server
    case Remove => RemoveClient(server, id)
    case HandlerExit => if v.handler.idle then server.(closing := true) else server
    case Begin(_, provider) => if provider then ResetCancel(server, id) else server
    case Clear(_, _) => FinishTurn(server, id)
    case TurnExit(p) => if v.turns[p].phase.idle then server.(closing := true) else server
    case _ => server
  }

  function Next(s: System, m: Move): System
    requires Enabled(s, m)
  {
    match m
    case Hello(id, name, repo) =>
      s.(server := AddClient(s.server, id, name, repo), sessions := s.sessions[id := S.NewSession()])
    case At(id, l) =>
      s.(server := OnServer(s.server, id, s.sessions[id], l),
         sessions := s.sessions[id := S.Step(s.sessions[id], l)])
  }

  // `states` is what `moves` leads through from the start.
  ghost predicate Run(solo: bool, states: seq<System>, moves: seq<Move>) {
    && |states| == |moves| + 1 && states[0] == Initial(solo)
    && forall i :: 0 <= i < |moves| ==> Enabled(states[i], moves[i]) && states[i + 1] == Next(states[i], moves[i])
  }

  // ---- the thread view agrees with the shared maps ----

  predicate CoupledAt(server: ServerState, id: string, v: S.Session) {
    && (id in server.clients <==> v.connected)
    && (id in server.agents <==> v.slot.Some?)
    && (id in server.agents ==> server.agents[id] == v.slot.value)
  }

  ghost predicate Coupled(s: System) {
    && (forall id :: id in s.sessions ==> CoupledAt(s.server, id, s.sessions[id]))
    && (forall id :: id in s.server.clients || id in s.server.agents ==> id in s.sessions)
  }

  ghost predicate AllInv(s: System) {
    forall id :: id in s.sessions ==> S.Inv(s.sessions[id])
  }

  lemma StepCoupled(server: ServerState, id: string, v: S.Session, l: S.Label)
    requires S.Enabled(v, l) && S.Lifecycle(v) && CoupledAt(server, id, v)
    ensures CoupledAt(OnServer(server, id, v, l), id, S.Step(v, l))
  {
    if l.Take? {
      assert v.connected && v.slot.Some?;
      hide S.Lifecycle;
    } else {
      assert l.CreateSlot? || l.Remove? ==> v.connected;
      hide S.Lifecycle;
      if l.Clear? { CoupledClear(server, id, v, l); }
    }
  }

  lemma CoupledClear(server: ServerState, id: string, v: S.Session, l: S.Label)
    requires S.Enabled(v, l) && l.Clear? && CoupledAt(server, id, v)
    ensures CoupledAt(OnServer(server, id, v, l), id, S.Step(v, l))
  {
  }

  // A thread touches only its own id in the shared maps.
  lemma StepLocal(server: ServerState, id: string, v: S.Session, l: S.Label, other: string)
    requires S.Enabled(v, l) && other != id
    ensures var w := OnServer(server, id, v, l);
            && (other in w.clients <==> other in server.clients)
            && (other in w.agents <==> other in server.agents)
            && (other in w.agents ==> w.agents[other] == server.agents[other])
            && (id !in w.clients || id in server.clients)
  {
    hide LeaveRepo, ForgetReads, S.IsPrompt;
  }

  lemma CoupledKept(s: System, m: Move)
    requires Coupled(s) && AllInv(s) && Enabled(s, m)
    ensures Coupled(Next(s, m))
  {
    var w := Next(s, m);
    match m
    case Hello(id, name, repo) =>
      forall other | other in w.sessions ensures CoupledAt(w.server, other, w.sessions[other]) {
        if other != id { assert CoupledAt(s.server, other, s.sessions[other]); }
      }
    case At(id, l) =>
      var v := s.sessions[id];
      assert S.Inv(v);
      StepCoupled(s.server, id, v, l);
      hide OnServer;
      forall other | other in w.sessions ensures CoupledAt(w.server, other, w.sessions[other]) {
        if other != id {
          assert CoupledAt(s.server, other, s.sessions[other]);
          StepLocal(s.server, id, v, l, other);
        }
      }
      forall other | other in w.server.clients || other in w.server.agents ensures other in w.sessions {
        if other != id { StepLocal(s.server, id, v, l, other); }
      }
  }

  lemma AllInvKept(s: System, m: Move)
    requires AllInv(s) && Enabled(s, m)
    ensures AllInv(Next(s, m))
  {
    var w := Next(s, m);
    hide S.Inv;
    match m
    case Hello(id, _, _) => S.InitInv();
    case At(id, l) => S.StepKeepsInv(s.sessions[id], l);
  }

  lemma GroupedKept(s: System, m: Move)
    requires Coupled(s) && Grouped(s.server) && Enabled(s, m)
    ensures Grouped(Next(s, m).server)
  {
    match m
    case Hello(id, name, repo) =>
      hide Grouped;
      assert id !in s.server.clients;
      HelloKeepsGrouped(s.server, id, name, repo);
    case At(id, l) =>
      hide Grouped, Coupled;
      if l.Remove? {
        RemoveKeepsGrouped(s.server, id);
      } else {
        MembershipStays(s.server, id, s.sessions[id], l);
        GroupedFrame(s.server, Next(s, m).server);
      }
  }

  lemma MembershipStays(server: ServerState, id: string, v: S.Session, l: S.Label)
    requires S.Enabled(v, l) && !l.Remove?
    ensures OnServer(server, id, v, l).clients == server.clients
    ensures OnServer(server, id, v, l).repoMembers == server.repoMembers
  {
  }

  lemma GroupedFrame(s: ServerState, w: ServerState)
    requires Grouped(s) && w.clients == s.clients && w.repoMembers == s.repoMembers
    ensures Grouped(w)
  {
  }

  // ---- solo shutdown is never lost ----

  // Some thread of this connection still has to make the idle test or to act on it.
  ghost predicate Owes(v: S.Session) {
    || v.handler.Removed?
    || (v.handler.IdleChecked? && v.handler.idle)
    || (exists p :: p in v.turns && TurnOwes(v.turns[p]))
  }

  predicate TurnOwes(t: S.Turn) { S.Uncleared(t) || (t.phase.Cleared? && t.phase.idle) }

  ghost predicate ShutdownKept(s: System) {
    (s.solo && s.sessions != map[] && s.server.clients == map[] && !s.server.closing)
    ==> exists id :: id in s.sessions && Owes(s.sessions[id])
  }

  // A connection that owes the test stops owing it only by storing closing_, or by finding a
  // turn still running.
  lemma OwesKept(s: System, id: string, l: S.Label)
    requires Coupled(s) && AllInv(s) && Enabled(s, At(id, l)) && Owes(s.sessions[id])
    requires s.solo && s.server.clients == map[] && !Next(s, At(id, l)).server.closing
    ensures Owes(S.Step(s.sessions[id], l)) || (l.CheckIdle? && SomeBusy(s.server))
  {
    var v := s.sessions[id];
    var w := S.Step(v, l);
    hide Grouped;
    if exists p :: p in v.turns && TurnOwes(v.turns[p]) {
      var p :| p in v.turns && TurnOwes(v.turns[p]);
      TurnOwesKept(s.server, id, v, l, p);
    } else {
      assert !v.handler.Removed? || l.CheckIdle? || w.handler == v.handler;
    }
  }

  lemma TurnOwesKept(server: ServerState, id: string, v: S.Session, l: S.Label, p: nat)
    requires S.Enabled(v, l) && p in v.turns && TurnOwes(v.turns[p]) && S.Positions(v)
    requires l.Clear? ==> l.idle
    requires !OnServer(server, id, v, l).closing
    ensures p in S.Step(v, l).turns && TurnOwes(S.Step(v, l).turns[p])
  {
    if l.TurnExit? {
      hide S.Positions;
    } else {
      hide OnServer;
      TurnMovesOn(v, l, p);
    }
  }

  lemma TurnMovesOn(v: S.Session, l: S.Label, p: nat)
    requires S.Enabled(v, l) && p in v.turns && TurnOwes(v.turns[p]) && S.Positions(v)
    requires (l.Clear? ==> l.idle) && !l.TurnExit?
    ensures p in S.Step(v, l).turns && TurnOwes(S.Step(v, l).turns[p])
  {
    if l.Take? {
      assert p < |v.handled|;
      OthersStay(v, l, p);
    } else if l.CreateSlot? || l.RejectSend? || l.HangUp? || l.Remove? || l.CheckIdle? || l.HandlerExit? {
      OthersStay(v, l, p);
    } else if l.prompt != p {
      OthersStay(v, l, p);
    } else {
      hide S.Positions;
    }
  }

  // A step leaves the turns it is not about as they are.
  lemma OthersStay(v: S.Session, l: S.Label, p: nat)
    requires S.Enabled(v, l) && p in v.turns
    requires l.Take? ==> p < |v.handled|
    requires l.Begin? || l.Emit? || l.Return? || l.SendCtx? || l.SendDone? || l.Clear? || l.TurnExit? ==> l.prompt != p
    ensures p in S.Step(v, l).turns && S.Step(v, l).turns[p] == v.turns[p]
  {
  }

  // A busy slot means a turn thread that has yet to make the test.
  lemma BusyOwes(s: System, id: string)
    requires Coupled(s) && AllInv(s) && id in s.server.agents && s.server.agents[id].busy
    ensures id in s.sessions && exists p :: p in s.sessions[id].turns && S.Uncleared(s.sessions[id].turns[p])
    ensures Owes(s.sessions[id])
  {
    var v := s.sessions[id];
    assert CoupledAt(s.server, id, v) && S.Inv(v);
    var p :| p in v.turns && S.Uncleared(v.turns[p]);
    assert TurnOwes(v.turns[p]);
  }

  lemma ShutdownKeptKept(s: System, m: Move)
    requires Coupled(s) && AllInv(s) && ShutdownKept(s) && Enabled(s, m)
    ensures ShutdownKept(Next(s, m))
  {
    var w := Next(s, m);
    if m.At? {
      NextAt(s, m.id, m.act);
      hide Next, Enabled, Coupled, AllInv, OnServer;
      if s.solo && w.server.clients == map[] && !w.server.closing { ShutdownStep(s, m.id, m.act); }
    } else {
      hide Owes;
      assert m.id in w.server.clients;
    }
  }

  lemma NextAt(s: System, id: string, l: S.Label)
    requires Enabled(s, At(id, l))
    ensures id in s.sessions && S.Enabled(s.sessions[id], l)
    ensures Next(s, At(id, l)) == System(s.solo, OnServer(s.server, id, s.sessions[id], l),
                                         s.sessions[id := S.Step(s.sessions[id], l)])
  {
  }

  lemma ShutdownStep(s: System, id: string, l: S.Label)
    requires Coupled(s) && AllInv(s) && ShutdownKept(s) && Enabled(s, At(id, l))
    requires s.solo && Next(s, At(id, l)).server.clients == map[] && !Next(s, At(id, l)).server.closing
    ensures exists x :: x in Next(s, At(id, l)).sessions && Owes(Next(s, At(id, l)).sessions[x])
  {
    var w := Next(s, At(id, l));
    NextAt(s, id, l);
    ClosingStays(s.server, id, s.sessions[id], l);
    var x := Ower(s, id, l);
    hide *;
    assert id in w.sessions && x in w.sessions;
    if x == id && s.server.clients == map[] {
      OwesKept(s, id, l);
      if !Owes(w.sessions[id]) { BusyElsewhere(s, id, l); }
    } else {
      assert Owes(w.sessions[x]);
    }
  }

  // The connection to look at: the one that just left, or one that owed before.
  lemma Ower(s: System, id: string, l: S.Label) returns (x: string)
    requires Enabled(s, At(id, l)) && ShutdownKept(s)
    requires s.solo && Next(s, At(id, l)).server.clients == map[] && !s.server.closing
    ensures x in s.sessions
    ensures s.server.clients != map[] ==> x == id && Owes(Next(s, At(id, l)).sessions[id])
    ensures s.server.clients == map[] ==> Owes(s.sessions[x])
  {
    NextAt(s, id, l);
    if s.server.clients != map[] {
      x := id;
      LastOneLeaves(s, id, l);
    } else {
      hide Next, Enabled, Owes;
      x :| x in s.sessions && Owes(s.sessions[x]);
    }
  }

  lemma LastOneLeaves(s: System, id: string, l: S.Label)
    requires Enabled(s, At(id, l))
    requires s.server.clients != map[] && Next(s, At(id, l)).server.clients == map[]
    ensures Owes(Next(s, At(id, l)).sessions[id])
  {
    ClosingStays(s.server, id, s.sessions[id], l);
    hide OnServer;
    assert l.Remove?;
  }

  lemma BusyElsewhere(s: System, id: string, l: S.Label)
    requires Coupled(s) && AllInv(s) && Enabled(s, At(id, l)) && l.CheckIdle? && SomeBusy(s.server)
    ensures exists x :: x in Next(s, At(id, l)).sessions && Owes(Next(s, At(id, l)).sessions[x])
  {
    hide *;
    var y := SomeoneBusy(s.server);
    BusyOwes(s, y);
    TurnsStay(s, id, l, y);
    TurnsOwe(s.sessions[y], Next(s, At(id, l)).sessions[y]);
  }

  lemma SomeoneBusy(s: ServerState) returns (y: string)
    requires SomeBusy(s)
    ensures y in s.agents && s.agents[y].busy
  {
    y :| y in s.agents && s.agents[y].busy;
  }

  lemma TurnsStay(s: System, id: string, l: S.Label, y: string)
    requires Enabled(s, At(id, l)) && l.CheckIdle? && y in s.sessions
    ensures y in Next(s, At(id, l)).sessions && Next(s, At(id, l)).sessions[y].turns == s.sessions[y].turns
  {
    NextAt(s, id, l);
    hide Next, Enabled;
    CheckKeepsTurns(s.sessions[id], l);
  }

  lemma TurnsOwe(v: S.Session, w: S.Session)
    requires w.turns == v.turns && exists p :: p in v.turns && S.Uncleared(v.turns[p])
    ensures Owes(w)
  {
    var p :| p in v.turns && S.Uncleared(v.turns[p]);
    assert TurnOwes(w.turns[p]);
  }

  lemma CheckKeepsTurns(v: S.Session, l: S.Label)
    requires S.Enabled(v, l) && l.CheckIdle?
    ensures S.Step(v, l).turns == v.turns
  {
  }

  // closing_ is never taken back, and only leaving empties clients_.
  lemma ClosingStays(server: ServerState, id: string, v: S.Session, l: S.Label)
    requires S.Enabled(v, l)
    ensures server.closing ==> OnServer(server, id, v, l).closing
    ensures !l.Remove? ==> OnServer(server, id, v, l).clients == server.clients
  {
  }

  // Only a solo server shuts itself down.
  ghost predicate ClosesSolo(s: System) {
    && (s.server.closing ==> s.solo)
    && forall id :: id in s.sessions ==> IdleIsSolo(s.solo, s.sessions[id])
  }

  ghost predicate IdleIsSolo(solo: bool, v: S.Session) {
    && (v.handler.IdleChecked? && v.handler.idle ==> solo)
    && (forall p :: p in v.turns && v.turns[p].phase.Cleared? && v.turns[p].phase.idle ==> solo)
  }

  lemma ClosesSoloKept(s: System, m: Move)
    requires ClosesSolo(s) && Enabled(s, m)
    ensures ClosesSolo(Next(s, m))
  {
    var w := Next(s, m);
    if m.At? {
      IdleStep(s.solo, s.sessions[m.id], m.act);
      hide IdleIsSolo;
      forall x | x in w.sessions ensures IdleIsSolo(s.solo, w.sessions[x]) { }
      ClosingStep(s.solo, s.server, m.id, s.sessions[m.id], m.act);
    }
  }

  lemma IdleStep(solo: bool, v: S.Session, l: S.Label)
    requires S.Enabled(v, l) && IdleIsSolo(solo, v)
    requires (l.CheckIdle? || l.Clear?) && l.idle ==> solo
    ensures IdleIsSolo(solo, S.Step(v, l))
  {
  }

  lemma ClosingStep(solo: bool, server: ServerState, id: string, v: S.Session, l: S.Label)
    requires S.Enabled(v, l) && IdleIsSolo(solo, v) && (server.closing ==> solo)
    ensures OnServer(server, id, v, l).closing ==> solo
  {
  }

  // ---- every reachable state ----

  ghost predicate SystemInv(s: System) {
    Coupled(s) && AllInv(s) && Grouped(s.server) && ShutdownKept(s) && ClosesSolo(s)
  }

  lemma InitialInv(solo: bool)
    ensures SystemInv(Initial(solo))
  {
  }

  lemma NextInv(s: System, m: Move)
    requires SystemInv(s) && Enabled(s, m)
    ensures SystemInv(Next(s, m))
  {
    hide *;
    SystemInvIs(s);
    CoupledKept(s, m);
    AllInvKept(s, m);
    GroupedKept(s, m);
    ShutdownKeptKept(s, m);
    ClosesSoloKept(s, m);
    SystemInvIs(Next(s, m));
  }

  lemma SystemInvIs(s: System)
    ensures SystemInv(s) <==> Coupled(s) && AllInv(s) && Grouped(s.server) && ShutdownKept(s) && ClosesSolo(s)
  {
  }

  // The invariant holds all along every interleaving of every number of connections.
  lemma {:induction false} RunInv(solo: bool, states: seq<System>, moves: seq<Move>, i: nat)
    requires Run(solo, states, moves) && i <= |moves|
    ensures SystemInv(states[i]) && states[i].solo == solo
  {
    hide SystemInv, Next, Enabled;
    if i == 0 {
      InitialInv(solo);
    } else {
      RunInv(solo, states, moves, i - 1);
      NextInv(states[i - 1], moves[i - 1]);
      NextSolo(states[i - 1], moves[i - 1]);
    }
  }

  lemma NextSolo(s: System, m: Move)
    requires Enabled(s, m)
    ensures Next(s, m).solo == s.solo
  {
  }

  ghost predicate Reachable(solo: bool, s: System) {
    exists states, moves :: Run(solo, states, moves) && states[|moves|] == s
  }

  lemma ReachableInv(solo: bool, s: System)
    requires Reachable(solo, s)
    ensures SystemInv(s) && s.solo == solo
  {
    var states, moves :| Run(solo, states, moves) && states[|moves|] == s;
    RunInv(solo, states, moves, |moves|);
  }

  // While every send to a client has succeeded, each non-empty prompt its handler took has exactly
  // one turn_done, or is still to get it; no other frame has one.
  lemma AnsweredExactlyOnce(solo: bool, s: System, id: string, p: nat)
    requires Reachable(solo, s) && id in s.sessions && !s.sessions[id].failed
    ensures var v := s.sessions[id];
            S.Answers(v.sent, p)
            == if p < |v.handled| && S.IsPrompt(v.handled[p]) && !S.Pending(v, p) then 1 else 0
  {
    ReachableInv(solo, s);
    assert S.Inv(s.sessions[id]);
  }

  // To each client, the frames about one prompt go out as text, then the usage, then turn_done,
  // and nothing after it; and no frame is taken from a client after its bye.
  lemma FramesInOrder(solo: bool, s: System, id: string)
    requires Reachable(solo, s) && id in s.sessions
    ensures var sent := s.sessions[id].sent;
            forall i, j :: 0 <= i < j < |sent| && sent[i].prompt == sent[j].prompt ==>
              sent[i].Stream? || (sent[i].Ctx? && sent[j].TurnDone?)
    ensures var handled := s.sessions[id].handled;
            forall i :: 0 <= i < |handled| && handled[i].Bye? ==> i == |handled| - 1
  {
    ReachableInv(solo, s);
    assert S.Inv(s.sessions[id]);
    S.InvIs(s.sessions[id]);
    hide SystemInv, Reachable, S.Inv, S.Lifecycle, S.AnsweredOnce, S.CancelOrder, S.SentByNow;
    var sent := s.sessions[id].sent;
    forall i, j | 0 <= i < j < |sent| && sent[i].prompt == sent[j].prompt
      ensures sent[i].Stream? || (sent[i].Ctx? && sent[j].TurnDone?)
    {
      assert S.Before(sent[i], sent[j]);
    }
  }

  // A prompt that is still to be answered is never stuck: its own thread can always step, each
  // such step brings the answer nearer, and no move of any connection puts it off. So under fair
  // scheduling of the threads every prompt taken is answered, or its answer lost.
  lemma PendingIsNeverStuck(solo: bool, s: System, id: string, p: nat)
    requires Reachable(solo, s) && id in s.sessions && S.Pending(s.sessions[id], p)
    ensures exists l :: S.OwnStep(s.sessions[id], l, p) && Enabled(s, At(id, l))
    ensures forall m :: Enabled(s, m) ==>
              id in Next(s, m).sessions
              && S.Distance(Next(s, m).sessions[id], p) <= S.Distance(s.sessions[id], p)
              && (m.At? && m.id == id && S.OwnStep(s.sessions[id], m.act, p) ==>
                    S.Distance(Next(s, m).sessions[id], p) < S.Distance(s.sessions[id], p))
  {
    ReachableInv(solo, s);
    var v := s.sessions[id];
    assert S.Inv(v);
    var l := S.PendingHasStep(v, p);
    assert Enabled(s, At(id, l));
    hide SystemInv, Reachable, S.Distance, S.OwnStep, S.Pending, Enabled, Next;
    forall m | Enabled(s, m)
      ensures id in Next(s, m).sessions
              && S.Distance(Next(s, m).sessions[id], p) <= S.Distance(v, p)
              && (m.At? && m.id == id && S.OwnStep(v, m.act, p) ==> S.Distance(Next(s, m).sessions[id], p) < S.Distance(v, p))
    {
      MoveIs(s, m, id);
      if m.At? && m.id == id { S.StepsApproach(v, m.act, p); }
    }
  }

  // At most one turn thread per id has not cleared busy; its slot is still there and busy; and a
  // slot whose client has left is busy.
  lemma SlotsOutliveTurns(solo: bool, s: System, id: string, p: nat, q: nat)
    requires Reachable(solo, s) && id in s.sessions
    requires p in s.sessions[id].turns && S.Uncleared(s.sessions[id].turns[p])
    ensures id in s.server.agents && s.server.agents[id].busy
    ensures q in s.sessions[id].turns && S.Uncleared(s.sessions[id].turns[q]) ==> p == q
  {
    ReachableInv(solo, s);
    assert S.Inv(s.sessions[id]) && CoupledAt(s.server, id, s.sessions[id]);
  }

  lemma OrphanSlotsAreBusy(solo: bool, s: System, id: string)
    requires Reachable(solo, s) && id in s.server.agents && id !in s.server.clients
    ensures s.server.agents[id].busy && id in s.sessions
    ensures exists p :: p in s.sessions[id].turns && S.Uncleared(s.sessions[id].turns[p])
  {
    ReachableInv(solo, s);
    assert S.Inv(s.sessions[id]) && CoupledAt(s.server, id, s.sessions[id]);
  }

  // Some thread has decided to shut down, or left clients_, and has not finished acting on it.
  ghost predicate Deciding(v: S.Session) {
    || v.handler.Removed?
    || (v.handler.IdleChecked? && v.handler.idle)
    || (exists p :: p in v.turns && v.turns[p].phase.Cleared? && v.turns[p].phase.idle)
  }

  // Once a client has registered with a solo server, a state with no clients, no busy slot and no
  // thread between its removal or decision and its store has closing_ set.
  lemma SoloShutdownNeverLost(s: System)
    requires Reachable(true, s) && s.sessions != map[]
    requires s.server.clients == map[] && !SomeBusy(s.server)
    requires forall id :: id in s.sessions ==> !Deciding(s.sessions[id])
    ensures s.server.closing
  {
    ReachableInv(true, s);
    forall id | id in s.sessions ensures !Owes(s.sessions[id]) {
      assert S.Inv(s.sessions[id]) && CoupledAt(s.server, id, s.sessions[id]);
      NothingOwed(s.sessions[id]);
    }
  }

  lemma NothingOwed(v: S.Session)
    requires S.Lifecycle(v) && !Deciding(v) && (v.slot.Some? ==> !v.slot.value.busy)
    ensures !Owes(v)
  {
  }

  lemma OnlySoloShutsDown(s: System)
    requires Reachable(false, s)
    ensures !s.server.closing
  {
    ReachableInv(false, s);
  }

  // Routing to "repo" reaches exactly the other clients of the sender's repo, once each.
  lemma RepoReachesPeers(solo: bool, s: System, from: string)
    requires Reachable(solo, s) && from in s.server.clients
    ensures Distinct(Targets(s.server, from, "repo"))
    ensures forall id :: id in Targets(s.server, from, "repo")
              <==> id in s.server.clients && id != from && s.server.clients[id].repo == s.server.clients[from].repo
  {
    ReachableInv(solo, s);
    RepoRouting(s.server, from);
  }

  // ---- when shutting down breaks the documented rule ----

  // A turn of this connection has not passed the section that clears busy.
  ghost predicate Turning(v: S.Session) { exists p :: p in v.turns && S.Uncleared(v.turns[p]) }

  // The documented rule wants no client connected and no turn running.
  ghost predicate AtRest(s: System) { s.server.clients == map[] && !SomeBusy(s.server) }

  lemma BusyIsTurning(s: System, id: string)
    requires Coupled(s) && AllInv(s) && id in s.sessions
    ensures id in s.server.agents && s.server.agents[id].busy <==> Turning(s.sessions[id])
  {
    assert CoupledAt(s.server, id, s.sessions[id]) && S.Inv(s.sessions[id]);
  }

  // The test at the end of a turn differs from the documented one exactly when no client is
  // connected and a turn of another agent is still running.
  lemma TurnEndTest(solo: bool, s: System, id: string, p: nat, idle: bool)
    requires Reachable(solo, s) && Enabled(s, At(id, S.Clear(p, idle)))
    ensures (idle <==> solo && AtRest(Next(s, At(id, S.Clear(p, idle)))))
            <==> !(solo && s.server.clients == map[] && exists x :: x in s.sessions && x != id && Turning(s.sessions[x]))
  {
    ReachableInv(solo, s);
    SystemInvIs(s);
    NextAt(s, id, S.Clear(p, idle));
    hide SystemInv, Reachable, Grouped, ShutdownKept, ClosesSolo;
    ClearIs(s, id, p, idle);
    hide Enabled, Next, S.Enabled, S.Step;
    OthersBusy(s, id);
  }

  lemma ClearIs(s: System, id: string, p: nat, idle: bool)
    requires Enabled(s, At(id, S.Clear(p, idle))) && Coupled(s)
    ensures var w := Next(s, At(id, S.Clear(p, idle))).server;
            && (idle <==> s.solo && s.server.clients == map[]) && w.clients == s.server.clients
            && (SomeBusy(w) <==> exists x :: x in s.server.agents && x != id && s.server.agents[x].busy)
  {
    hide Coupled;
    var w := Next(s, At(id, S.Clear(p, idle))).server;
    assert w == FinishTurn(s.server, id);
    hide Enabled, Next, S.Enabled, S.Step;
    assert forall x :: x in w.agents && w.agents[x].busy <==> x in s.server.agents && x != id && s.server.agents[x].busy;
  }

  lemma OthersBusy(s: System, id: string)
    requires Coupled(s) && AllInv(s)
    ensures (exists x :: x in s.server.agents && x != id && s.server.agents[x].busy)
            <==> exists x :: x in s.sessions && x != id && Turning(s.sessions[x])
  {
    forall x | x in s.sessions ensures x in s.server.agents && s.server.agents[x].busy <==> Turning(s.sessions[x]) {
      BusyIsTurning(s, x);
    }
    assert forall x :: x in s.server.agents ==> x in s.sessions;
    hide AllInv, Coupled, Turning;
  }

  predicate Acts(decision: S.Label, store: S.Label) {
    || (decision == S.CheckIdle(true) && store.HandlerExit?)
    || (decision.Clear? && decision.idle && store == S.TurnExit(decision.prompt))
  }

  // A thread's decision to shut down, and the store of closing_ that acts on it.
  predicate Decides(decision: Move, store: Move) {
    decision.At? && store.At? && decision.id == store.id && Acts(decision.act, store.act)
  }

  predicate Stores(s: System, m: Move)
    requires Enabled(s, m)
  {
    m.At? && if m.act.HandlerExit? then s.sessions[m.id].handler.idle
             else m.act.TurnExit? && s.sessions[m.id].turns[m.act.prompt].phase.idle
  }

  predicate Announced(v: S.Session, store: S.Label) {
    || (store.HandlerExit? && v.handler == S.IdleChecked(true))
    || (store.TurnExit? && store.prompt in v.turns && v.turns[store.prompt].phase == S.Cleared(true))
  }

  lemma AnnouncedStep(v: S.Session, l: S.Label, store: S.Label)
    requires S.Enabled(v, l) && !Announced(v, store) && Announced(S.Step(v, l), store)
    ensures Acts(l, store)
  {
  }

  lemma {:induction false} AnnouncedFrom(solo: bool, states: seq<System>, moves: seq<Move>, k: nat, store: Move) returns (d: nat)
    requires Run(solo, states, moves) && k <= |moves|
    requires store.At? && store.id in states[k].sessions && Announced(states[k].sessions[store.id], store.act)
    ensures d < k && Decides(moves[d], store)
  {
    hide Enabled, Next, Announced;
    var s, m := states[k - 1], moves[k - 1];
    MoveIs(s, m, store.id);
    if store.id in s.sessions && Announced(s.sessions[store.id], store.act) {
      d := AnnouncedFrom(solo, states, moves, k - 1, store);
    } else {
      d := k - 1;
      if m.At? && m.id == store.id {
        AnnouncedStep(s.sessions[m.id], m.act, store.act);
      } else {
        NewHasNone(store.act);
      }
    }
  }

  lemma NewHasNone(store: S.Label)
    ensures !Announced(S.NewSession(), store)
  {
  }

  // What one move does to the connection `x`.
  lemma MoveIs(s: System, m: Move, x: string)
    requires Enabled(s, m)
    ensures m.At? ==> m.id in s.sessions && S.Enabled(s.sessions[m.id], m.act)
    ensures x in Next(s, m).sessions <==> x in s.sessions || (m.Hello? && m.id == x)
    ensures m.Hello? && m.id == x ==> x !in s.sessions && Next(s, m).sessions[x] == S.NewSession()
    ensures x in s.sessions ==>
              Next(s, m).sessions[x] == if m.At? && m.id == x then S.Step(s.sessions[x], m.act) else s.sessions[x]
  {
  }

  // Every store of closing_ acts on a decision of its own thread earlier in the run.
  lemma StoreHasDecision(solo: bool, states: seq<System>, moves: seq<Move>, k: nat) returns (d: nat)
    requires Run(solo, states, moves) && k < |moves| && Enabled(states[k], moves[k]) && Stores(states[k], moves[k])
    ensures d < k && Decides(moves[d], moves[k])
  {
    assert Announced(states[k].sessions[moves[k].id], moves[k].act);
    hide Enabled, Next, Announced, Stores;
    d := AnnouncedFrom(solo, states, moves, k, moves[k]);
  }

  // A connection that has left starts no turn and does not come back.
  lemma GoneStep(v: S.Session, l: S.Label)
    requires S.Enabled(v, l) && S.Lifecycle(v) && !v.connected
    ensures !S.Step(v, l).connected
    ensures forall p :: p in S.Step(v, l).turns && S.Uncleared(S.Step(v, l).turns[p]) ==>
              p in v.turns && S.Uncleared(v.turns[p])
  {
  }

  // Every turn of `w` that still runs already ran in `v`.
  ghost predicate NoNewTurns(v: S.Session, w: S.Session) {
    forall p :: p in w.turns && S.Uncleared(w.turns[p]) ==> p in v.turns && S.Uncleared(v.turns[p])
  }

  lemma {:induction false} StaysGone(solo: bool, states: seq<System>, moves: seq<Move>, i: nat, k: nat, x: string)
    requires Run(solo, states, moves) && i <= k <= |moves| && x in states[i].sessions && !states[i].sessions[x].connected
    ensures x in states[k].sessions && !states[k].sessions[x].connected
    ensures NoNewTurns(states[i].sessions[x], states[k].sessions[x])
    decreases k - i
  {
    hide Enabled, Next, SystemInv;
    if i < k {
      StaysGone(solo, states, moves, i, k - 1, x);
      RunInv(solo, states, moves, k - 1);
      StaysGoneStep(states[k - 1], moves[k - 1], x);
      hide S.Uncleared;
    }
  }

  lemma StaysGoneStep(s: System, m: Move, x: string)
    requires Enabled(s, m) && SystemInv(s) && x in s.sessions && !s.sessions[x].connected
    ensures x in Next(s, m).sessions && !Next(s, m).sessions[x].connected
    ensures NoNewTurns(s.sessions[x], Next(s, m).sessions[x])
  {
    MoveIs(s, m, x);
    assert S.Inv(s.sessions[x]);
    hide Enabled, Next, SystemInv, S.Enabled, S.Step;
    if m.At? && m.id == x { GoneStep(s.sessions[x], m.act); }
  }

  lemma {:induction false} RegisteredBetween(solo: bool, states: seq<System>, moves: seq<Move>, i: nat, k: nat, x: string)
    returns (j: nat)
    requires Run(solo, states, moves) && i <= k <= |moves| && x !in states[i].sessions && x in states[k].sessions
    ensures i <= j < k && moves[j].Hello? && moves[j].id == x
    decreases k - i
  {
    hide Enabled, Next;
    MoveIs(states[k - 1], moves[k - 1], x);
    if x in states[k - 1].sessions {
      j := RegisteredBetween(solo, states, moves, i, k - 1, x);
    } else {
      j := k - 1;
    }
  }

  ghost predicate Lively(v: S.Session) { v.connected || Turning(v) }

  // Someone registered between moves `d` and `k`, and is there or has a turn running.
  ghost predicate Newcomer(states: seq<System>, moves: seq<Move>, d: nat, k: nat, x: string)
    requires k < |moves| && |states| == |moves| + 1
  {
    && x in states[k].sessions && Lively(states[k].sessions[x])
    && exists j :: d < j < k && moves[j].Hello? && moves[j].id == x
  }

  // Another agent's turn ran at the decision and still runs at the store.
  ghost predicate Overlooked(s: System, w: System, id: string, x: string) {
    && x != id && x in s.sessions && x in w.sessions
    && exists p :: p in s.sessions[x].turns && p in w.sessions[x].turns
                   && S.Uncleared(s.sessions[x].turns[p]) && S.Uncleared(w.sessions[x].turns[p])
  }

  lemma AtRestIs(s: System)
    requires Coupled(s) && AllInv(s)
    ensures AtRest(s) <==> forall x :: x in s.sessions ==> !Lively(s.sessions[x])
  {
    forall x | x in s.sessions
      ensures Lively(s.sessions[x]) <==> x in s.server.clients || (x in s.server.agents && s.server.agents[x].busy)
    {
      assert CoupledAt(s.server, x, s.sessions[x]);
      BusyIsTurning(s, x);
    }
    assert forall x :: x in s.server.clients || x in s.server.agents ==> x in s.sessions;
    hide AllInv, Coupled, Lively;
  }

  // What holds when a thread has decided.
  ghost predicate Decided(s: System, m: Move, w: System) {
    && m.At? && (m.act.CheckIdle? || m.act.Clear?) && w.sessions.Keys == s.sessions.Keys
    && (forall x :: x in w.sessions ==> !w.sessions[x].connected)
    && (forall x :: x in w.sessions && (m.act.CheckIdle? || x == m.id) ==> !Turning(w.sessions[x]))
    && (forall x :: x in w.sessions && x != m.id ==> w.sessions[x] == s.sessions[x])
  }

  lemma DecisionIs(s: System, m: Move, store: Move)
    requires Enabled(s, m) && Coupled(s) && AllInv(s) && Decides(m, store)
    ensures Decided(s, m, Next(s, m))
  {
    hide *;
    DecidesMeans(m, store);
    var w := Next(s, m);
    NextAt(s, m.id, m.act);
    CoupledKept(s, m);
    AllInvKept(s, m);
    DecidedAlone(s, m);
    AllLeft(w);
    if m.act.CheckIdle? { NoneTurning(w); } else { BusyIsTurning(w, m.id); }
    assert w.sessions.Keys == s.sessions.Keys;
    DecidedIs(s, m, w);
  }

  lemma AllLeft(w: System)
    requires Coupled(w) && w.server.clients == map[]
    ensures forall x :: x in w.sessions ==> !w.sessions[x].connected
  {
    hide Coupled;
    forall x | x in w.sessions ensures !w.sessions[x].connected { LeftIs(w, x); }
  }

  lemma NoneTurning(w: System)
    requires Coupled(w) && AllInv(w) && !SomeBusy(w.server)
    ensures forall x :: x in w.sessions ==> !Turning(w.sessions[x])
  {
    hide Coupled, AllInv, Turning;
    forall x | x in w.sessions ensures !Turning(w.sessions[x]) {
      BusyIsTurning(w, x);
    }
  }

  lemma DecidesMeans(m: Move, store: Move)
    requires Decides(m, store)
    ensures m.At? && (m.act == S.CheckIdle(true) || (m.act.Clear? && m.act.idle))
  {
  }

  lemma DecidedIs(s: System, m: Move, w: System)
    requires m.At? && (m.act.CheckIdle? || m.act.Clear?) && w.sessions.Keys == s.sessions.Keys
    requires forall x :: x in w.sessions ==> !w.sessions[x].connected
    requires forall x :: x in w.sessions && (m.act.CheckIdle? || x == m.id) ==> !Turning(w.sessions[x])
    requires forall x :: x in w.sessions && x != m.id ==> w.sessions[x] == s.sessions[x]
    ensures Decided(s, m, w)
  {
    hide Turning;
  }

  lemma LeftIs(s: System, x: string)
    requires Coupled(s) && x in s.sessions && s.server.clients == map[]
    ensures !s.sessions[x].connected
  {
    assert CoupledAt(s.server, x, s.sessions[x]);
  }

  lemma DecidedAlone(s: System, m: Move)
    requires Enabled(s, m) && m.At? && (m.act == S.CheckIdle(true) || (m.act.Clear? && m.act.idle))
    ensures Next(s, m).server.clients == map[]
    ensures m.act.CheckIdle? ==> !SomeBusy(Next(s, m).server)
    ensures m.act.Clear? ==> !(m.id in Next(s, m).server.agents && Next(s, m).server.agents[m.id].busy)
  {
  }

  lemma StoreKeepsAll(s: System, m: Move)
    requires Enabled(s, m) && m.At? && (m.act.HandlerExit? || m.act.TurnExit?)
    ensures Next(s, m).server.clients == s.server.clients && Next(s, m).server.agents == s.server.agents
  {
  }

  // closing_ is stored with a client connected or an agent busy exactly when someone came after
  // the decision and is still about, or the decision was made at the end of a turn, while a turn
  // of another agent ran that is running still.
  lemma ClosesEarlyIff(states: seq<System>, moves: seq<Move>, d: nat, k: nat)
    requires Run(true, states, moves) && d < k < |moves| && Decides(moves[d], moves[k])
    ensures !AtRest(states[k + 1])
            <==> || (exists x :: Newcomer(states, moves, d, k, x))
                 || (moves[d].act.Clear? && exists x :: Overlooked(states[d], states[k], moves[d].id, x))
  {
    RunInv(true, states, moves, d);
    RunInv(true, states, moves, k);
    assert Enabled(states[d], moves[d]) && states[d + 1] == Next(states[d], moves[d]);
    assert Enabled(states[k], moves[k]) && states[k + 1] == Next(states[k], moves[k]);
    StoreKeepsAll(states[k], moves[k]);
    SystemInvIs(states[d]);
    SystemInvIs(states[k]);
    DecisionIs(states[d], moves[d], moves[k]);
    AtRestIs(states[k]);
    assert |states| == |moves| + 1 && moves[d].At? && (moves[d].act.CheckIdle? || moves[d].act.Clear?);
    hide *;
    AtRestFrame(states[k], states[k + 1]);
    if x :| x in states[k].sessions && Lively(states[k].sessions[x]) {
      WhoIsThere(states, moves, d, k, x);
    }
    if x :| Newcomer(states, moves, d, k, x) { NewcomerLively(states, moves, d, k, x); }
    if x :| Overlooked(states[d], states[k], moves[d].id, x) {
      OverlookedLively(states[d], states[k], moves[d].id, x);
    }
  }

  lemma AtRestFrame(s: System, w: System)
    requires w.server.clients == s.server.clients && w.server.agents == s.server.agents
    ensures AtRest(w) <==> AtRest(s)
  {
  }

  lemma NewcomerLively(states: seq<System>, moves: seq<Move>, d: nat, k: nat, x: string)
    requires k < |moves| && |states| == |moves| + 1 && Newcomer(states, moves, d, k, x)
    ensures x in states[k].sessions && Lively(states[k].sessions[x])
  {
  }

  lemma OverlookedLively(s: System, w: System, id: string, x: string)
    requires Overlooked(s, w, id, x)
    ensures x in w.sessions && Lively(w.sessions[x])
  {
  }

  lemma WhoIsThere(states: seq<System>, moves: seq<Move>, d: nat, k: nat, x: string)
    requires Run(true, states, moves) && d < k < |moves| && |states| == |moves| + 1
    requires Decided(states[d], moves[d], states[d + 1])
    requires x in states[k].sessions && Lively(states[k].sessions[x])
    ensures Newcomer(states, moves, d, k, x)
            || (moves[d].act.Clear? && Overlooked(states[d], states[k], moves[d].id, x))
  {
    hide Run;
    var s, w, now := states[d], states[d + 1], states[k];
    if x in w.sessions {
      StaysGone(true, states, moves, d + 1, k, x);
      var p :| p in now.sessions[x].turns && S.Uncleared(now.sessions[x].turns[p]);
      hide S.Uncleared;
      assert Turning(w.sessions[x]);
    } else {
      var j := RegisteredBetween(true, states, moves, d + 1, k, x);
    }
  }

  // ---- a run in which the end of one turn closes the server under another ----

  lemma ReachNext(solo: bool, s: System, m: Move)
    requires Reachable(solo, s) && Enabled(s, m)
    ensures Reachable(solo, Next(s, m))
  {
    hide Enabled, Next;
    var states, moves :| Run(solo, states, moves) && states[|moves|] == s;
    var longer, more := states + [Next(s, m)], moves + [m];
    forall i | 0 <= i < |more| ensures Enabled(longer[i], more[i]) && longer[i + 1] == Next(longer[i], more[i]) {
      assert longer[i] == states[i];
      if i < |moves| { assert longer[i + 1] == states[i + 1] && more[i] == moves[i]; }
    }
    assert Run(solo, longer, more) && longer[|more|] == Next(s, m);
  }

  lemma Walk(s: System, id: string, l: S.Label) returns (w: System)
    requires Reachable(true, s) && id in s.sessions && S.Enabled(s.sessions[id], l) && !l.CheckIdle? && !l.Clear?
    ensures Reachable(true, w) && w.sessions == s.sessions[id := S.Step(s.sessions[id], l)]
  {
    assert Enabled(s, At(id, l));
    w := Next(s, At(id, l));
    NextAt(s, id, l);
    hide *;
    ReachNext(true, s, At(id, l));
  }

  const PROMPT: S.ClientFrame := S.Prompt("hi", 0)

  // A connection that asked for a turn and was gone before the turn began.
  function GoneMidTurn(phase: S.Phase): S.Session {
    S.Session(false, Some(S.Slot(true, None)), S.Removed, [PROMPT], map[0 := S.Turn(phase, true)], [], {}, false)
  }

  lemma LeaveMidTurn(s: System, id: string) returns (w: System)
    requires Reachable(true, s) && id in s.sessions && s.sessions[id] == S.NewSession()
    ensures Reachable(true, w) && w.sessions == s.sessions[id := GoneMidTurn(S.Spawned)]
  {
    hide Reachable;
    w := Walk(s, id, S.CreateSlot);
    w := Walk(w, id, S.Take(PROMPT));
    w := Walk(w, id, S.HangUp);
    w := Walk(w, id, S.Remove);
    assert w.sessions[id].turns == map[0 := S.Turn(S.Spawned, true)] && w.sessions[id].handled == [PROMPT];
    assert w.sessions[id] == GoneMidTurn(S.Spawned);
  }

  lemma TwoTurnsOrphaned() returns (w: System)
    ensures Reachable(true, w)
    ensures w.sessions == map["a" := GoneMidTurn(S.Spawned), "b" := GoneMidTurn(S.Spawned)]
  {
    var s := Initial(true);
    assert Run(true, [s], []) && [s][0] == s;
    ReachNext(true, s, Hello("a", "ann", "repo"));
    w := Next(s, Hello("a", "ann", "repo"));
    ReachNext(true, w, Hello("b", "bob", "repo"));
    w := Next(w, Hello("b", "bob", "repo"));
    hide Reachable, Next;
    w := LeaveMidTurn(w, "a");
    w := LeaveMidTurn(w, "b");
    assert w.sessions.Keys == {"a", "b"};
  }

  lemma TurnAnswered(s: System, id: string) returns (w: System)
    requires Reachable(true, s) && id in s.sessions && s.sessions[id] == GoneMidTurn(S.Spawned)
    ensures Reachable(true, w) && w.sessions.Keys == s.sessions.Keys
    ensures forall x :: x in s.sessions && x != id ==> w.sessions[x] == s.sessions[x]
    ensures 0 in w.sessions[id].turns && w.sessions[id].turns[0].phase.Answered? && !w.sessions[id].connected
  {
    hide Reachable;
    w := Walk(s, id, S.Begin(0, false));
    w := Walk(w, id, S.SendCtx(0, false));
    w := Walk(w, id, S.SendDone(0, false));
  }

  // The comment on the shutdown rule promises an exit only when no agent is busy; a turn that
  // ends after all clients have left does not look.
  lemma ClosesUnderABusyAgent() returns (s: System)
    ensures Reachable(true, s) && s.server.closing && SomeBusy(s.server)
  {
    s := TwoTurnsOrphaned();
    s := TurnAnswered(s, "a");
    s := LastTurnDecides(s, "a", 0);
    s := TurnLeaves(s);
  }

  // With no client left, an answered turn decides to shut down, whoever else is busy.
  lemma LastTurnDecides(s: System, id: string, p: nat) returns (w: System)
    requires Reachable(true, s) && id in s.sessions
    requires p in s.sessions[id].turns && s.sessions[id].turns[p].phase.Answered?
    requires forall x :: x in s.sessions ==> !s.sessions[x].connected
    ensures Reachable(true, w) && w.sessions == s.sessions[id := S.Step(s.sessions[id], S.Clear(p, true))]
  {
    hide Reachable, SystemInv;
    ReachableInv(true, s);
    SystemInvIs(s);
    NobodyLeft(s);
    hide Coupled, AllInv, Grouped, ShutdownKept, ClosesSolo;
    ClearEnabled(s, id, p);
    hide Enabled, Next;
    ReachNext(true, s, At(id, S.Clear(p, true)));
    NextAt(s, id, S.Clear(p, true));
    w := Next(s, At(id, S.Clear(p, true)));
  }

  lemma ClearEnabled(s: System, id: string, p: nat)
    requires s.solo && s.server.clients == map[] && id in s.sessions
    requires p in s.sessions[id].turns && s.sessions[id].turns[p].phase.Answered?
    ensures Enabled(s, At(id, S.Clear(p, true)))
  {
  }

  lemma NobodyLeft(s: System)
    requires Coupled(s) && forall x :: x in s.sessions ==> !s.sessions[x].connected
    ensures s.server.clients == map[]
  {
    assert forall x :: x in s.server.clients ==> x in s.sessions && CoupledAt(s.server, x, s.sessions[x]);
  }

  lemma TurnLeaves(s: System) returns (w: System)
    requires Reachable(true, s) && {"a", "b"} <= s.sessions.Keys && s.sessions["b"] == GoneMidTurn(S.Spawned)
    requires 0 in s.sessions["a"].turns && s.sessions["a"].turns[0].phase == S.Cleared(true)
    ensures Reachable(true, w) && w.server.closing && SomeBusy(w.server)
  {
    var m := At("a", S.TurnExit(0));
    ReachNext(true, s, m);
    w := Next(s, m);
    assert w.sessions["b"] == GoneMidTurn(S.Spawned) && w.server.closing;
    ReachableInv(true, w);
    assert CoupledAt(w.server, "b", w.sessions["b"]);
    assert w.server.agents["b"].busy;
  }

  // ---- a run in which a client comes between the decision and the store ----

  lemma WalkIdle(s: System, id: string) returns (w: System)
    requires Reachable(true, s) && id in s.sessions && s.sessions[id].handler.Removed? && AtRest(s)
    ensures Reachable(true, w) && w.sessions == s.sessions[id := S.Step(s.sessions[id], S.CheckIdle(true))]
  {
    ReachableInv(true, s);
    var m := At(id, S.CheckIdle(true));
    assert Enabled(s, m);
    hide Enabled, Next, Reachable, SystemInv;
    ReachNext(true, s, m);
    NextAt(s, id, m.act);
    w := Next(s, m);
  }

  // A connection that has left, and whose thread has found the server idle.
  function Left(handler: S.Handler): S.Session {
    S.Session(false, None, handler, [], map[], [], {}, false)
  }

  lemma OneLeftDeciding() returns (w: System)
    ensures Reachable(true, w) && w.sessions == map["a" := Left(S.IdleChecked(true))]
  {
    var s := Initial(true);
    assert Run(true, [s], []) && [s][0] == s;
    ReachNext(true, s, Hello("a", "ann", "repo"));
    w := Next(s, Hello("a", "ann", "repo"));
    assert w.sessions == map["a" := S.NewSession()];
    hide Reachable, Next;
    w := Walk(w, "a", S.CreateSlot);
    w := Walk(w, "a", S.HangUp);
    w := Walk(w, "a", S.Remove);
    assert w.sessions == map["a" := Left(S.Removed)];
    EmptyAtRest(w);
    w := WalkIdle(w, "a");
  }

  lemma EmptyAtRest(s: System)
    requires Reachable(true, s) && s.sessions == map["a" := Left(S.Removed)]
    ensures AtRest(s)
  {
    ReachableInv(true, s);
    hide Reachable;
    assert CoupledAt(s.server, "a", s.sessions["a"]);
  }

  // The full idle test passed, and still closing_ is stored with a client connected and its agent
  // busy: they came in between.
  lemma ClosesOnANewcomer() returns (s: System)
    ensures Reachable(true, s) && s.server.closing && SomeBusy(s.server) && s.server.clients != map[]
  {
    s := OneLeftDeciding();
    var hello := Hello("b", "bob", "repo");
    ReachNext(true, s, hello);
    NewcomerIn(s, hello);
    s := Next(s, hello);
    hide Reachable, Next;
    s := Walk(s, "b", S.CreateSlot);
    s := Walk(s, "b", S.Take(PROMPT));
    s := HandlerLeaves(s);
  }

  lemma NewcomerIn(s: System, m: Move)
    requires Enabled(s, m) && m.Hello?
    ensures Next(s, m).sessions == s.sessions[m.id := S.NewSession()]
  {
  }

  lemma HandlerLeaves(s: System) returns (w: System)
    requires Reachable(true, s) && {"a", "b"} <= s.sessions.Keys && s.sessions["a"] == Left(S.IdleChecked(true))
    requires s.sessions["b"].connected && s.sessions["b"].slot == Some(S.Slot(true, None))
    ensures Reachable(true, w) && w.server.closing && SomeBusy(w.server) && w.server.clients != map[]
  {
    var m := At("a", S.HandlerExit);
    ReachNext(true, s, m);
    w := Next(s, m);
    assert w.sessions["b"] == s.sessions["b"] && w.server.closing;
    ReachableInv(true, w);
    assert CoupledAt(w.server, "b", w.sessions["b"]);
    assert w.server.agents["b"].busy && "b" in w.server.clients;
  }
}
