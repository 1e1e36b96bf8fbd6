// src/server/server.cpp: the state mu_ protects, and the sections that change it.
module SwarmsServer {
  import opened Bytes
  import opened Ordering
  import opened SessionProtocol

  datatype Client = Client(name: string, repo: string)

  // path -> agent id -> hash of the contents that agent knows
  type ReadHashes = map<string, map<string, string>>

  datatype ServerState = ServerState(
    clients: map<string, Client>,
    repoMembers: map<string, seq<string>>,
    readHashes: ReadHashes,
    agents: map<string, Slot>,
    closing: bool)

  function InitialState(): ServerState { ServerState(map[], map[], map[], map[], false) }

  // ---- what each section does ----

  function Members(s: ServerState, repo: string): seq<string> {
    if repo in s.repoMembers then s.repoMembers[repo] else []
  }

  function AddClient(s: ServerState, id: string, name: string, repo: string): ServerState {
    s.(clients := s.clients[id := Client(name, repo)],
       repoMembers := s.repoMembers[repo := Members(s, repo) + [id]])
  }

  function Without(ids: seq<string>, id: string): seq<string> {
    if ids == [] then []
    else Without(ids[..|ids| - 1], id) + if ids[|ids| - 1] == id then [] else [ids[|ids| - 1]]
  }

  function LeaveRepo(members: map<string, seq<string>>, repo: string, id: string): map<string, seq<string>> {
    if repo !in members then members
    else if Without(members[repo], id) == [] then members - {repo}
    else members[repo := Without(members[repo], id)]
  }

  function ForgetReads(hashes: ReadHashes, id: string): ReadHashes {
    map path | path in hashes :: hashes[path] - {id}
  }

  function RemoveClient(s: ServerState, id: string): ServerState {
    if id !in s.clients then s
    else
      s.(clients := s.clients - {id},
         repoMembers := LeaveRepo(s.repoMembers, s.clients[id].repo, id),
         readHashes := ForgetReads(s.readHashes, id),
         agents := if id in s.agents && !s.agents[id].busy then s.agents - {id} else s.agents)
  }

  function PutSlot(s: ServerState, id: string): ServerState { s.(agents := s.agents[id := Slot(false, None)]) }

  datatype Decision = NoSlot | Rejected | Started

  function Decide(s: ServerState, id: string): Decision {
    if id !in s.agents then NoSlot else if s.agents[id].busy then Rejected else Started
  }

  function Schedule(s: ServerState, id: string): ServerState {
    if Decide(s, id).Started? then s.(agents := s.agents[id := s.agents[id].(busy := true)]) else s
  }

  function RaiseCancel(s: ServerState, id: string, pos: nat): ServerState {
    if id in s.agents && s.agents[id].busy then s.(agents := s.agents[id := s.agents[id].(cancel := Some(pos))]) else s
  }

  // run_turn's flag reset; it runs outside mu_, on the agent of a busy slot.
  function ResetCancel(s: ServerState, id: string): ServerState {
    if id in s.agents then s.(agents := s.agents[id := s.agents[id].(cancel := None)]) else s
  }

  function FinishTurn(s: ServerState, id: string): ServerState {
    if id !in s.agents then s
    else if id in s.clients then s.(agents := s.agents[id := s.agents[id].(busy := false)])
    else s.(agents := s.agents - {id})
  }

  predicate NobodyConnected(solo: bool, s: ServerState) { solo && s.clients == map[] }

  predicate SomeBusy(s: ServerState) { exists id :: id in s.agents && s.agents[id].busy }

  // maybe_shutdown_if_idle's test.
  predicate Idle(solo: bool, s: ServerState) { NobodyConnected(solo, s) && !SomeBusy(s) }

  function Targets(s: ServerState, from: string, to: string): seq<string> {
    if from !in s.clients then []
    else if to == "all" then Without(SortedKeys(s.clients.Keys), from)
    else if to == "repo" then Without(Members(s, s.clients[from].repo), from)
    else if to in s.clients && to != from then [to] else []
  }

  // ---- the class ----

  class Server {
    const solo: bool
    var clients: map<string, Client>
    var repoMembers: map<string, seq<string>>
    var readHashes: ReadHashes
    var agents: map<string, Slot>
    var closing: bool

    ghost function State(): ServerState
      reads this
    {
      ServerState(clients, repoMembers, readHashes, agents, closing)
    }

    constructor (solo: bool)
      ensures State() == InitialState() && this.solo == solo
    {
      this.solo := solo;
      clients, repoMembers, readHashes, agents, closing := map[], map[], map[], map[], false;
    }

    method HelloRegister(id: string, name: string, repo: string) returns (peers: seq<string>)
      modifies this
      ensures State() == AddClient(old(State()), id, name, repo)
      ensures clients == old(clients)[id := Client(name, repo)] && peers == SortedKeys(clients.Keys)
    {
      clients := clients[id := Client(name, repo)];
      repoMembers := repoMembers[repo := (if repo in repoMembers then repoMembers[repo] else []) + [id]];
      peers := SortedKeys(clients.Keys);
    }

    method RemoveClientLocked(id: string)
      modifies this
      ensures State() == RemoveClient(old(State()), id)
    {
      if id !in clients { return; }
      var repo := clients[id].repo;
      var paths := readHashes.Keys;
      while paths != {}
        invariant paths <= readHashes.Keys == old(readHashes).Keys
        invariant forall p :: p in readHashes ==>
                    readHashes[p] == if p in paths then old(readHashes)[p] else old(readHashes)[p] - {id}
        invariant clients == old(clients) && repoMembers == old(repoMembers)
        invariant agents == old(agents) && closing == old(closing)
        decreases paths
      {
        var p :| p in paths;
        readHashes := readHashes[p := readHashes[p] - {id}];
        paths := paths - {p};
      }
      assert readHashes == ForgetReads(old(readHashes), id);
      if repo in repoMembers {
        var kept := EraseAll(repoMembers[repo], id);
        repoMembers := if kept == [] then repoMembers - {repo} else repoMembers[repo := kept];
      }
      clients := clients - {id};
      if id in agents && !agents[id].busy { agents := agents - {id}; }
    }

    method CreateAgentSlot(id: string)
      modifies this
      ensures State() == PutSlot(old(State()), id)
    {
      agents := agents[id := Slot(false, None)];
    }

    // The locked part of schedule_prompt.
    method SchedulePrompt(id: string) returns (d: Decision)
      modifies this
      ensures d == Decide(old(State()), id) && State() == Schedule(old(State()), id)
    {
      if id !in agents { return NoSlot; }
      if agents[id].busy { return Rejected; }
      agents := agents[id := agents[id].(busy := true)];
      return Started;
    }

    // A cancel frame, the `pos`-th frame of its connection.
    method CancelFrame(id: string, pos: nat)
      modifies this
      ensures State() == RaiseCancel(old(State()), id, pos)
    {
      if id in agents && agents[id].busy {
        agents := agents[id := agents[id].(cancel := Some(pos))];
      }
    }

    // The locked part of a turn's end.
    method EndTurn(id: string) returns (idle: bool)
      modifies this
      ensures State() == FinishTurn(old(State()), id)
      ensures idle <==> NobodyConnected(solo, State())
    {
      if id in agents {
        agents := agents[id := agents[id].(busy := false)];
        if id !in clients { agents := agents - {id}; }
      }
      idle := solo && clients == map[];
    }

    // The locked part of maybe_shutdown_if_idle.
    method CheckIdle() returns (idle: bool)
      ensures idle <==> Idle(solo, State())
    {
      idle := solo && clients == map[];
      if idle {
        var ids := agents.Keys;
        while ids != {}
          invariant idle && ids <= agents.Keys
          invariant forall id :: id in agents && id !in ids ==> !agents[id].busy
          decreases ids
        {
          var id :| id in ids;
          if agents[id].busy { return false; }
          ids := ids - {id};
        }
      }
    }

    method RouteMessage(from: string, to: string) returns (targets: seq<string>)
      ensures targets == Targets(State(), from, to)
    {
      if from !in clients { return []; }
      if to == "all" {
        targets := EraseAll(SortedKeys(clients.Keys), from);
      } else if to == "repo" {
        var repo := clients[from].repo;
        targets := [];
        if repo in repoMembers { targets := EraseAll(repoMembers[repo], from); }
      } else {
        targets := if to in clients && to != from then [to] else [];
      }
    }
  }

  method EraseAll(ids: seq<string>, id: string) returns (kept: seq<string>)
    ensures kept == Without(ids, id)
  {
    kept := [];
    for i := 0 to |ids|
      invariant kept == Without(ids[..i], id)
    {
      assert ids[..i + 1][..i] == ids[..i];
      if ids[i] != id { kept := kept + [ids[i]]; }
    }
    assert ids[..|ids|] == ids;
  }

  // ---- repo_members_ groups the clients ----

  ghost predicate Grouped(s: ServerState) {
    && (forall r :: r in s.repoMembers ==> s.repoMembers[r] != [] && Distinct(s.repoMembers[r]))
    && (forall r, id :: r in s.repoMembers && id in s.repoMembers[r] ==> id in s.clients && s.clients[id].repo == r)
    && (forall id :: id in s.clients ==> s.clients[id].repo in s.repoMembers && id in s.repoMembers[s.clients[id].repo])
  }

  lemma {:induction false} WithoutKeeps(ids: seq<string>, id: string)
    ensures forall x :: x in Without(ids, id) <==> x in ids && x != id
    ensures Distinct(ids) ==> Distinct(Without(ids, id))
  {
    if ids != [] {
      var n := |ids| - 1;
      WithoutKeeps(ids[..n], id);
      assert ids == ids[..n] + [ids[n]];
      if Distinct(ids) {
        var kept := Without(ids[..n], id);
        assert forall i :: 0 <= i < |kept| ==> kept[i] in kept;
        assert forall x :: x in ids[..n] ==> x != ids[n];
      }
    }
  }

  lemma HelloKeepsGrouped(s: ServerState, id: string, name: string, repo: string)
    requires Grouped(s) && id !in s.clients
    ensures Grouped(AddClient(s, id, name, repo))
  {
    var w := AddClient(s, id, name, repo);
    var had := Members(s, repo);
    assert forall i :: 0 <= i < |had| ==> had[i] in had;
    assert w.repoMembers[repo] == had + [id];
  }

  lemma RemoveKeepsGrouped(s: ServerState, id: string)
    requires Grouped(s)
    ensures Grouped(RemoveClient(s, id))
  {
    if id in s.clients {
      WithoutKeeps(s.repoMembers[s.clients[id].repo], id);
    }
  }

  // With that grouping, addressing "repo" reaches every other client of the sender's repo once.
  lemma RepoRouting(s: ServerState, from: string)
    requires Grouped(s) && from in s.clients
    ensures Distinct(Targets(s, from, "repo"))
    ensures forall id :: id in Targets(s, from, "repo")
              <==> id in s.clients && id != from && s.clients[id].repo == s.clients[from].repo
  {
    var repo := s.clients[from].repo;
    MembersAre(s, repo);
    hide Grouped, Distinct;
    WithoutKeeps(Members(s, repo), from);
    assert Targets(s, from, "repo") == Without(Members(s, repo), from);
    hide Targets, Members, Without;
  }

  lemma MembersAre(s: ServerState, repo: string)
    requires Grouped(s)
    ensures Distinct(Members(s, repo))
    ensures forall id :: id in Members(s, repo) <==> id in s.clients && s.clients[id].repo == repo
  {
    hide Distinct;
    assert Distinct<string>([]) by { EmptyDistinct(); }
  }

  lemma EmptyDistinct()
    ensures Distinct<string>([])
  {
  }

  lemma AllRouting(s: ServerState, from: string)
    requires from in s.clients
    ensures Distinct(Targets(s, from, "all"))
    ensures forall id :: id in Targets(s, from, "all") <==> id in s.clients && id != from
  {
    SortedKeysDistinct(s.clients.Keys);
    WithoutKeeps(SortedKeys(s.clients.Keys), from);
    assert Targets(s, from, "all") == Without(SortedKeys(s.clients.Keys), from);
    hide Targets, Without, Distinct;
  }

  // Whom a message from `from` to `to` is meant for.
  predicate Addressed(s: ServerState, from: string, to: string, x: string) {
    && from in s.clients && x in s.clients && x != from
    && (to == "all" || if to == "repo" then s.clients[x].repo == s.clients[from].repo else x == to)
  }

  // Every message reaches exactly those it is meant for, once each.
  lemma RoutedIff(s: ServerState, from: string, to: string)
    requires Grouped(s)
    ensures Distinct(Targets(s, from, to))
    ensures forall x :: x in Targets(s, from, to) <==> Addressed(s, from, to, x)
  {
    EmptyDistinct();
    if from in s.clients {
      AllRouting(s, from);
      RepoRouting(s, from);
    }
    hide Grouped, Without, Members;
  }

  // A client that is removed leaves nothing behind but a slot whose turn is running, and nothing
  // of anybody else is lost.
  lemma RemovalIsClean(s: ServerState, id: string)
    requires Grouped(s) && id in s.clients
    ensures var w := RemoveClient(s, id);
            && (forall x :: x in w.clients <==> x in s.clients && x != id)
            && (forall x :: x in w.clients ==> w.clients[x] == s.clients[x])
            && (forall r, x :: r in w.repoMembers && x in w.repoMembers[r] ==> x != id)
            && (forall path :: path in w.readHashes <==> path in s.readHashes)
            && (forall path, x :: path in s.readHashes ==>
                  (x in w.readHashes[path] <==> x in s.readHashes[path] && x != id)
                  && (x in w.readHashes[path] ==> w.readHashes[path][x] == s.readHashes[path][x]))
            && (forall x :: x in w.agents <==> x in s.agents && (x == id ==> s.agents[x].busy))
            && (forall x :: x in w.agents ==> w.agents[x] == s.agents[x])
            && w.closing == s.closing
  {
    RemoveKeepsGrouped(s, id);
    assert Grouped(RemoveClient(s, id));
    hide Distinct, LeaveRepo;
  }
}
