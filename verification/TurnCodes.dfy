// src/server/server.cpp, the turn thread, and src/remote/remote_agent.cpp, run_turn: the code a
// client's run_turn returns is the one the agent's turn returned.
module TurnCodes {
  import opened Bytes
  import opened RemoteSession
  import S = SessionProtocol

  // The server's steps in the first `i` moves of a run.
  ghost function Past(states: seq<Remote>, moves: seq<Move>, i: nat): seq<S.Event>
    requires |states| == |moves| + 1 && i <= |moves|
  {
    if i == 0 then []
    else Past(states, moves, i - 1)
         + if moves[i - 1].Server? then [S.Event(states[i - 1].session, moves[i - 1].act)] else []
  }

  lemma {:induction false} PastIsTheRun(states: seq<Remote>, moves: seq<Move>, i: nat, n: nat) returns (j: nat)
    requires |states| == |moves| + 1 && i <= |moves| && n < |Past(states, moves, i)|
    ensures j < i && moves[j] == Server(Past(states, moves, i)[n].act)
    ensures states[j].session == Past(states, moves, i)[n].before
  {
    if n < |Past(states, moves, i - 1)| {
      j := PastIsTheRun(states, moves, i - 1, n);
    } else {
      j := i - 1;
    }
  }

  lemma {:induction false} RunIsPast(states: seq<Remote>, moves: seq<Move>, i: nat, j: nat) returns (n: nat)
    requires |states| == |moves| + 1 && j < i <= |moves| && moves[j].Server?
    ensures n < |Past(states, moves, i)| && Past(states, moves, i)[n].act == moves[j].act
  {
    if j < i - 1 {
      n := RunIsPast(states, moves, i - 1, j);
    } else {
      n := |Past(states, moves, i - 1)|;
    }
  }

  lemma {:induction false} RunAccounted(disciplined: bool, states: seq<Remote>, moves: seq<Move>, i: nat)
    requires Run(disciplined, states, moves) && i <= |moves|
    ensures S.Accounted(states[i].session, Past(states, moves, i))
    ensures S.KeepsAll(states[i].session, Past(states, moves, i))
  {
    if i == 0 {
      NothingYet();
    } else {
      RunAccounted(disciplined, states, moves, i - 1);
      RunInv(disciplined, states, moves, i - 1);
      hide S.Accounted, S.KeepsAll, Inv, Next, Enabled, Disciplined;
      AccountedMove(states[i - 1], moves[i - 1], Past(states, moves, i - 1));
    }
  }

  lemma AccountedMove(r: Remote, m: Move, past: seq<S.Event>)
    requires Enabled(r, m) && Inv(r) && S.Accounted(r.session, past) && S.KeepsAll(r.session, past)
    ensures var more := past + if m.Server? then [S.Event(r.session, m.act)] else [];
            S.Accounted(Next(r, m).session, more) && S.KeepsAll(Next(r, m).session, more)
  {
    InvIs(r);
    hide Inv, Framed, Phases, Rendezvous, Honesty, S.Accounted, S.KeepsAll, S.Inv, S.Step, S.Enabled;
    if m.Server? {
      S.AccountedKept(r.session, past, m.act);
      S.KeepsAllKept(r.session, past, m.act);
    } else {
      assert past + [] == past;
    }
  }

  lemma NothingYet()
    ensures S.Accounted(Fresh().session, []) && S.KeepsAll(Fresh().session, [])
  {
  }

  // ---- on the moves of a run ----

  // The agent's turn for prompt `p` returned `rc`.
  predicate Returned(moves: seq<Move>, i: nat, p: nat, rc: int)
    requires i <= |moves|
  {
    exists j :: 0 <= j < i && moves[j] == Server(S.Return(p, rc))
  }

  predicate LackedProvider(moves: seq<Move>, i: nat, p: nat)
    requires i <= |moves|
  {
    exists j :: 0 <= j < i && moves[j] == Server(S.Begin(p, false))
  }

  // The server took prompt `p` while the turn before had not cleared busy.
  predicate Refused(states: seq<Remote>, moves: seq<Move>, i: nat, p: nat)
    requires |states| == |moves| + 1 && i <= |moves|
  {
    exists j :: 0 <= j < i && TakenBusy(states[j], moves[j], p)
  }

  predicate TakenBusy(r: Remote, m: Move, p: nat) {
    && m.Server? && m.act.Take? && m.act.frame.Prompt? && |r.session.handled| == p
    && r.session.slot.Some? && r.session.slot.value.busy
  }

  // What became of prompt `p`; no turn for it returned anything else.
  ghost predicate CameTo(states: seq<Remote>, moves: seq<Move>, i: nat, p: nat, rc: int)
    requires |states| == |moves| + 1 && i <= |moves|
  {
    && (Returned(moves, i, p, rc) || (rc == 1 && (LackedProvider(moves, i, p) || Refused(states, moves, i, p))))
    && forall other :: Returned(moves, i, p, other) ==> other == rc
  }

  lemma OutcomeIs(states: seq<Remote>, moves: seq<Move>, i: nat, p: nat, rc: int)
    requires |states| == |moves| + 1 && i <= |moves| && S.Outcome(Past(states, moves, i), p, rc)
    ensures Returned(moves, i, p, rc) || (rc == 1 && (LackedProvider(moves, i, p) || Refused(states, moves, i, p)))
  {
    var past := Past(states, moves, i);
    hide Past;
    if S.AgentReturned(past, p, rc) {
      var n :| 0 <= n < |past| && past[n].act == S.Return(p, rc);
      var j := PastIsTheRun(states, moves, i, n);
    } else if S.LackedProvider(past, p) {
      var n :| 0 <= n < |past| && past[n].act == S.Begin(p, false);
      var j := PastIsTheRun(states, moves, i, n);
    } else {
      var n :| 0 <= n < |past| && S.TakenBusy(past[n], p);
      var j := PastIsTheRun(states, moves, i, n);
      assert TakenBusy(states[j], moves[j], p);
    }
  }

  // Every turn_done of every run carries what became of its prompt: the code the agent's turn for
  // it returned, or 1 when the turn had no provider or the prompt was refused.
  lemma AnswersCarryTheOutcome(disciplined: bool, states: seq<Remote>, moves: seq<Move>, i: nat, n: nat)
    requires Run(disciplined, states, moves) && i <= |moves|
    requires n < |states[i].session.sent| && states[i].session.sent[n].TurnDone?
    ensures CameTo(states, moves, i, states[i].session.sent[n].prompt, states[i].session.sent[n].rc)
  {
    var f := states[i].session.sent[n];
    var past := Past(states, moves, i);
    RunAccounted(disciplined, states, moves, i);
    assert |states| == |moves| + 1;
    hide Run, Past, Returned, LackedProvider, Refused, S.Outcome;
    assert S.Outcome(past, f.prompt, f.rc);
    OutcomeIs(states, moves, i, f.prompt, f.rc);
    forall other | Returned(moves, i, f.prompt, other) ensures other == f.rc {
      ReturnedIsAnswered(states, moves, i, n, other);
    }
  }

  lemma ReturnedIsAnswered(states: seq<Remote>, moves: seq<Move>, i: nat, n: nat, rc: int)
    requires |states| == |moves| + 1 && i <= |moves|
    requires S.KeepsAll(states[i].session, Past(states, moves, i))
    requires n < |states[i].session.sent| && states[i].session.sent[n].TurnDone?
    requires Returned(moves, i, states[i].session.sent[n].prompt, rc)
    ensures states[i].session.sent[n].rc == rc
  {
    var p := states[i].session.sent[n].prompt;
    hide Past;
    var j :| 0 <= j < i && moves[j] == Server(S.Return(p, rc));
    var m := RunIsPast(states, moves, i, j);
    assert S.Keeps(states[i].session, p, rc);
  }

  // The k-th run_turn returns what became of that call's own prompt, or 1 when it never heard.
  lemma ResultIsTheTurns(disciplined: bool, states: seq<Remote>, moves: seq<Move>, i: nat, k: nat)
    requires Run(disciplined, states, moves) && i <= |moves| && k < |states[i].results|
    ensures var res := states[i].results[k];
            && res.call == k + 1 && |states| == |moves| + 1
            && if res.answer.None? then res.rc == 1
               else IsPromptOf(states[i].wire, res.answer.value, k + 1)
                    && CameTo(states, moves, i, res.answer.value, res.rc)
  {
    var r := states[i];
    ResultsAreTheirOwn(disciplined, states, moves, i, k);
    if r.results[k].answer.Some? {
      var f := S.TurnDone(r.results[k].rc, r.results[k].answer.value);
      var n :| 0 <= n < |r.session.sent| && r.session.sent[n] == f;
      AnswersCarryTheOutcome(disciplined, states, moves, i, n);
    }
    hide CameTo;
  }

  // ---- the frames themselves ----

  // In every run, what the server has sent is what its steps delivered, in order.
  lemma {:induction false} SentIsTheLog(disciplined: bool, states: seq<Remote>, moves: seq<Move>, i: nat)
    requires Run(disciplined, states, moves) && i <= |moves|
    ensures states[i].session.sent == S.Log(Past(states, moves, i))
  {
    if i > 0 {
      SentIsTheLog(disciplined, states, moves, i - 1);
      hide S.Log, Next, Enabled, Disciplined;
      LogMove(states[i - 1], moves[i - 1], Past(states, moves, i - 1));
    }
  }

  lemma LogMove(r: Remote, m: Move, past: seq<S.Event>)
    requires Enabled(r, m) && r.session.sent == S.Log(past)
    ensures Next(r, m).session.sent == S.Log(past + if m.Server? then [S.Event(r.session, m.act)] else [])
  {
    hide S.Log, S.Step, S.Enabled;
    if m.Server? {
      S.LogKept(r.session, past, m.act);
    } else {
      assert past + [] == past;
    }
  }

  // The frames about one prompt reach the client as text, then the usage, then turn_done, and
  // nothing follows a turn_done.
  lemma FramesInOrder(disciplined: bool, states: seq<Remote>, moves: seq<Move>, i: nat, m: nat, n: nat)
    requires Run(disciplined, states, moves) && i <= |moves| && m < n < |states[i].session.sent|
    requires states[i].session.sent[m].prompt == states[i].session.sent[n].prompt
    ensures states[i].session.sent[m].Stream? || (states[i].session.sent[m].Ctx? && states[i].session.sent[n].TurnDone?)
  {
    RunInv(disciplined, states, moves, i);
    InvIs(states[i]);
    S.InvIs(states[i].session);
    hide Run, Inv, S.Inv, S.AnsweredOnce, S.Lifecycle, S.CancelOrder, S.SentByNow;
    assert S.Before(states[i].session.sent[m], states[i].session.sent[n]);
  }

  // Once sending a turn's text has failed, nothing more about its prompt is sent.
  lemma {:induction false} NothingAfterFailure(disciplined: bool, states: seq<Remote>, moves: seq<Move>, j: nat, i: nat, p: nat)
    requires Run(disciplined, states, moves) && j < i <= |moves|
    requires moves[j] == Server(S.Emit(p, false)) && S.Live(states[j].session, p)
    ensures S.Silenced(states[i].session, p, S.About(states[j].session.sent, p))
  {
    hide S.Silenced, S.About, S.Live, Inv, Next, Enabled, Disciplined;
    assert Enabled(states[i - 1], moves[i - 1]) && states[i] == Next(states[i - 1], moves[i - 1]);
    if j == i - 1 {
      FailureMove(states[j], p);
    } else {
      NothingAfterFailure(disciplined, states, moves, j, i - 1, p);
      RunInv(disciplined, states, moves, i - 1);
      SilencedMove(states[i - 1], moves[i - 1], p, S.About(states[j].session.sent, p));
    }
  }

  lemma FailureMove(r: Remote, p: nat)
    requires Enabled(r, Server(S.Emit(p, false))) && S.Live(r.session, p)
    ensures S.Silenced(Next(r, Server(S.Emit(p, false))).session, p, S.About(r.session.sent, p))
  {
    hide S.Step, S.Enabled, S.Silenced, S.About, S.Live;
    S.FailureSilences(r.session, p);
  }

  lemma SilencedMove(r: Remote, m: Move, p: nat, sent: seq<S.ServerFrame>)
    requires Enabled(r, m) && Inv(r) && S.Silenced(r.session, p, sent)
    ensures S.Silenced(Next(r, m).session, p, sent)
  {
    InvIs(r);
    S.InvIs(r.session);
    hide Inv, Framed, Phases, Rendezvous, Honesty, S.Silenced, S.Inv, S.Step, S.Enabled, S.Positions;
    if m.Server? { S.SilencedKept(r.session, m.act, p, sent); }
  }
}
