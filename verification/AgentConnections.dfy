/** Which socket owns an agent id (server/ws-agent.js).

    Every connection draws a larger generation than all earlier ones. A socket that authenticates
    claims its agent id for its generation; the claim stays behind as a tombstone after the agent
    leaves, until no older socket that could still authenticate is waiting. The module models one
    synchronous callback as one step and proves, over every run, that pruning the tombstones never
    lets an older socket take an id back.
  */
module AgentConnections {

  type AgentId = string
  type SocketId = nat   // the socket together with its random temporary id

  /** An entry of `pendingAgentConnections`: a socket that has not authenticated yet. */
  datatype Pending = Pending(agentId: AgentId, instanceId: string, skipAuth: bool, generation: nat)

  /** The module's maps, and the `resolvedAgentId` variable each connection closes over. */
  datatype Server = Server(
    lastGeneration: nat,
    latest: map<AgentId, nat>,
    pending: map<SocketId, Pending>,
    agents: map<AgentId, SocketId>,
    resolved: map<SocketId, AgentId>)

  /** One synchronous callback. `Refused` covers an invalid secret and an exception raised before the
      claim; an accepted socket may still fail between its claim and the update of `agents`. */
  datatype Event =
    | Connected(socket: SocketId, agentId: AgentId, instanceId: string, skipAuth: bool)
    | TimedOut(socket: SocketId)
    | Unparseable(socket: SocketId)
    | Refused(socket: SocketId)
    | Accepted(socket: SocketId, ownerId: string, registers: bool)
    | Closed(socket: SocketId)

  function AgentMapKey(ownerId: string, agentName: string): AgentId {
    (if ownerId == "" then "global" else ownerId) + ":" + agentName
  }

  /** The id a pending socket claims once it is accepted. */
  function ResolvedId(p: Pending, ownerId: string): AgentId {
    if p.skipAuth then p.agentId
    else AgentMapKey(ownerId, if p.instanceId != "" then p.instanceId else p.agentId)
  }

  predicate MayStillClaim(p: Pending, agentId: AgentId) {
    if p.skipAuth then p.agentId == agentId else true
  }

  predicate HasOlderPending(pending: map<SocketId, Pending>, agentId: AgentId, generation: nat) {
    exists s :: s in pending && pending[s].generation < generation && MayStillClaim(pending[s], agentId)
  }

  function Pruned(s: Server): Server {
    s.(latest := map a | a in s.latest && (a in s.agents || HasOlderPending(s.pending, a, s.latest[a]))
                   :: s.latest[a])
  }

  predicate CanClaim(s: Server, agentId: AgentId, generation: nat) {
    agentId in s.latest ==> s.latest[agentId] <= generation
  }

  function Claimed(s: Server, agentId: AgentId, generation: nat): Server {
    s.(latest := s.latest[agentId := generation])
  }

  function WithoutPending(s: Server, socket: SocketId): Server {
    s.(pending := s.pending - {socket})
  }

  /** The server after `e`; a timer or frame of a socket that is no longer pending changes nothing. */
  function After(s: Server, e: Event): Server {
    match e
    case Connected(socket, agentId, instanceId, skipAuth) =>
      var generation := s.lastGeneration + 1;
      var s1 := s.(lastGeneration := generation);
      var s2 := if skipAuth && CanClaim(s1, agentId, generation) then Claimed(s1, agentId, generation) else s1;
      s2.(pending := s2.pending[socket := Pending(agentId, instanceId, skipAuth, generation)])
    case TimedOut(socket) =>
      if socket in s.pending then Pruned(WithoutPending(s, socket)) else s
    case Unparseable(socket) =>
      if socket in s.pending then Pruned(s) else s
    case Refused(socket) =>
      if socket in s.pending then Pruned(WithoutPending(s, socket)) else s
    case Accepted(socket, ownerId, registers) =>
      if socket !in s.pending then s else
      var p := s.pending[socket];
      var id := ResolvedId(p, ownerId);
      var s1 := WithoutPending(s, socket);
      if !CanClaim(s1, id, p.generation) then Pruned(s1) else
      var s2 := Claimed(s1, id, p.generation).(resolved := s1.resolved[socket := id]);
      Pruned(if registers then s2.(agents := s2.agents[id := socket]) else s2)
    case Closed(socket) =>
      var s1 := if socket in s.pending then Pruned(WithoutPending(s, socket)) else s;
      if socket in s1.resolved && s1.resolved[socket] in s1.agents && s1.agents[s1.resolved[socket]] == socket
      then Pruned(s1.(agents := s1.agents - {s1.resolved[socket]}))
      else s1
  }

  /** Whether `e` puts a socket into `agents`. */
  predicate Registers(s: Server, e: Event) {
    && e.Accepted? && e.registers && e.socket in s.pending
    && CanClaim(s, ResolvedId(s.pending[e.socket], e.ownerId), s.pending[e.socket].generation)
  }

  /** Whether `e` claims an id, by an accepted socket or by a connecting one that skips authentication. */
  predicate Claims(s: Server, e: Event) {
    || (e.Connected? && e.skipAuth && CanClaim(s, e.agentId, s.lastGeneration + 1))
    || (e.Accepted? && e.socket in s.pending
        && CanClaim(s, ResolvedId(s.pending[e.socket], e.ownerId), s.pending[e.socket].generation))
  }

  // ---------------------------------------------------------------- runs

  datatype Registration = Registration(agentId: AgentId, socket: SocketId, generation: nat)

  /** A server and what an observer saw of it: the registrations in order, the newest generation that
      ever claimed each id (never pruned), and the sockets seen and closed so far. */
  datatype Run = Run(server: Server, log: seq<Registration>, everClaimed: map<AgentId, nat>, seen: set<SocketId>,
                     closed: set<SocketId>)

  const START: Run := Run(Server(0, map[], map[], map[], map[]), [], map[], {}, {})

  /** Random ids: a connecting socket is new. */
  predicate Possible(r: Run, e: Event) {
    e.Connected? ==> e.socket !in r.seen
  }

  function Observe(r: Run, e: Event): Run {
    var log := if Registers(r.server, e)
               then var p := r.server.pending[e.socket];
                    r.log + [Registration(ResolvedId(p, e.ownerId), e.socket, p.generation)]
               else r.log;
    var everClaimed :=
      if !Claims(r.server, e) then r.everClaimed
      else if e.Connected? then r.everClaimed[e.agentId := r.server.lastGeneration + 1]
      else var p := r.server.pending[e.socket]; r.everClaimed[ResolvedId(p, e.ownerId) := p.generation];
    Run(After(r.server, e), log, everClaimed, if e.Connected? then r.seen + {e.socket} else r.seen,
        if e.Closed? && e.socket in r.seen then r.closed + {e.socket} else r.closed)
  }

  ghost predicate IsRun(es: seq<Event>) {
    es == [] || (IsRun(es[..|es| - 1]) && Possible(RunOf(es[..|es| - 1]), es[|es| - 1]))
  }

  function RunOf(es: seq<Event>): Run {
    if es == [] then START else Observe(RunOf(es[..|es| - 1]), es[|es| - 1])
  }

  // ---------------------------------------------------------------- the invariant

  ghost predicate GenerationsBounded(s: Server, everClaimed: map<AgentId, nat>, seen: set<SocketId>) {
    && (forall k :: k in s.pending ==> k in seen && s.pending[k].generation <= s.lastGeneration)
    && (forall j, k :: j in s.pending && k in s.pending && j != k
          ==> s.pending[j].generation != s.pending[k].generation)
    && (forall a :: a in everClaimed ==> everClaimed[a] <= s.lastGeneration)
  }

  /** The heart of the proof: a tombstone, while it exists, is the newest claim ever made; and it exists
      whenever a socket older than that claim may still authenticate under the id. */
  ghost predicate TombstonesCover(s: Server, everClaimed: map<AgentId, nat>) {
    && (forall a :: a in s.latest ==> a in everClaimed && s.latest[a] == everClaimed[a])
    && (forall a, k | a in everClaimed && k in s.pending && MayStillClaim(s.pending[k], a)
          :: s.pending[k].generation < everClaimed[a] ==> a in s.latest)
  }

  /** A registration claimed its id, and its socket waits no more. */
  ghost predicate IsPast(r: Run, entry: Registration) {
    && entry.agentId in r.everClaimed && entry.generation <= r.everClaimed[entry.agentId]
    && entry.socket !in r.server.pending && entry.socket in r.seen
    && forall s :: s in r.server.pending ==> r.server.pending[s].generation != entry.generation
  }

  ghost predicate LogOrdered(r: Run) {
    (forall i :: 0 <= i < |r.log| ==> IsPast(r, r.log[i])) && StrictlyIncreasingPerAgent(r.log)
  }

  ghost predicate StrictlyIncreasingPerAgent(log: seq<Registration>) {
    forall i, j :: 0 <= i < j < |log| && log[i].agentId == log[j].agentId ==> log[i].generation < log[j].generation
  }

  ghost predicate IsLastRegistration(log: seq<Registration>, i: int, a: AgentId, socket: SocketId) {
    && 0 <= i < |log| && log[i].agentId == a && log[i].socket == socket
    && forall j :: i < j < |log| ==> log[j].agentId != a
  }

  ghost predicate LiveAgentsAreNewest(r: Run) {
    && r.server.agents.Keys <= r.server.latest.Keys
    && forall a :: a in r.server.agents ==> exists i :: IsLastRegistration(r.log, i, a, r.server.agents[a])
  }

  ghost predicate QuietTableIsExact(r: Run) {
    r.server.pending == map[] ==> r.server.latest.Keys == r.server.agents.Keys
  }

  ghost predicate Inv(r: Run) {
    && GenerationsBounded(r.server, r.everClaimed, r.seen) && TombstonesCover(r.server, r.everClaimed)
    && LogOrdered(r) && LiveAgentsAreNewest(r) && QuietTableIsExact(r)
  }

  lemma BoundedStep(r: Run, e: Event)
    requires Inv(r) && Possible(r, e)
    ensures var r' := Observe(r, e); GenerationsBounded(r'.server, r'.everClaimed, r'.seen)
  {
    EntriesStay(r, e);
  }

  lemma PruningKeepsCover(s: Server, everClaimed: map<AgentId, nat>)
    requires TombstonesCover(s, everClaimed)
    ensures TombstonesCover(Pruned(s), everClaimed)
  {
    forall a, k | a in everClaimed && k in s.pending && MayStillClaim(s.pending[k], a)
                  && s.pending[k].generation < everClaimed[a]
      ensures a in Pruned(s).latest
    {
      assert HasOlderPending(s.pending, a, s.latest[a]);
    }
  }

  lemma ClaimKeepsCover(s: Server, everClaimed: map<AgentId, nat>, id: AgentId, generation: nat)
    requires TombstonesCover(s, everClaimed)
    ensures TombstonesCover(Claimed(s, id, generation), everClaimed[id := generation])
  {
  }

  lemma AcceptedKeepsCover(r: Run, e: Event)
    requires Inv(r) && e.Accepted?
    ensures TombstonesCover(Observe(r, e).server, Observe(r, e).everClaimed)
  {
    var s, claims := r.server, r.everClaimed;
    if e.socket in s.pending {
      var p := s.pending[e.socket];
      var id := ResolvedId(p, e.ownerId);
      var s1 := WithoutPending(s, e.socket);
      PruningKeepsCover(s1, claims);
      ClaimKeepsCover(s1, claims, id, p.generation);
      var s2 := Claimed(s1, id, p.generation).(resolved := s1.resolved[e.socket := id]);
      PruningKeepsCover(s2, claims[id := p.generation]);
      PruningKeepsCover(s2.(agents := s2.agents[id := e.socket]), claims[id := p.generation]);
    }
  }

  lemma TombstonesStep(r: Run, e: Event)
    requires Inv(r) && Possible(r, e)
    ensures TombstonesCover(Observe(r, e).server, Observe(r, e).everClaimed)
  {
    var s, claims := r.server, r.everClaimed;
    match e
    case Connected(socket, agentId, instanceId, skipAuth) =>
      ClaimKeepsCover(s, claims, agentId, s.lastGeneration + 1);
    case TimedOut(socket) =>
      PruningKeepsCover(WithoutPending(s, socket), claims);
    case Unparseable(socket) =>
      PruningKeepsCover(s, claims);
    case Refused(socket) =>
      PruningKeepsCover(WithoutPending(s, socket), claims);
    case Accepted(_, _, _) =>
      AcceptedKeepsCover(r, e);
    case Closed(socket) =>
      PruningKeepsCover(WithoutPending(s, socket), claims);
      var s1 := if socket in s.pending then Pruned(WithoutPending(s, socket)) else s;
      if socket in s1.resolved {
        PruningKeepsCover(s1.(agents := s1.agents - {s1.resolved[socket]}), claims);
      }
  }

  lemma PastStaysPast(r: Run, e: Event, entry: Registration)
    requires Inv(r) && Possible(r, e) && IsPast(r, entry) && entry.generation <= r.server.lastGeneration
    ensures IsPast(Observe(r, e), entry)
  {
    EntriesStay(r, e);
  }

  lemma RegisteredIsPast(r: Run, e: Event)
    requires Inv(r) && Possible(r, e) && Registers(r.server, e)
    ensures var p := r.server.pending[e.socket];
            IsPast(Observe(r, e), Registration(ResolvedId(p, e.ownerId), e.socket, p.generation))
  {
    EntriesStay(r, e);
  }

  /** Whoever registers is newer than all earlier registrations of the id. */
  lemma RegisteredIsNewest(r: Run, e: Event, i: nat)
    requires Inv(r) && Registers(r.server, e) && i < |r.log|
    requires r.log[i].agentId == ResolvedId(r.server.pending[e.socket], e.ownerId)
    ensures r.log[i].generation < r.server.pending[e.socket].generation
  {
    var p := r.server.pending[e.socket];
    var a := ResolvedId(p, e.ownerId);
    assert IsPast(r, r.log[i]) && MayStillClaim(p, a);
    assert r.everClaimed[a] <= p.generation;
  }

  lemma LogStep(r: Run, e: Event)
    requires Inv(r) && Possible(r, e)
    ensures LogOrdered(Observe(r, e))
  {
    var r' := Observe(r, e);
    forall i | 0 <= i < |r.log| ensures IsPast(r', r.log[i]) {
      assert IsPast(r, r.log[i]);
      PastStaysPast(r, e, r.log[i]);
    }
    if Registers(r.server, e) {
      RegisteredIsPast(r, e);
      forall i: nat | i < |r.log| && r.log[i].agentId == ResolvedId(r.server.pending[e.socket], e.ownerId)
        ensures r.log[i].generation < r.server.pending[e.socket].generation
      {
        RegisteredIsNewest(r, e, i);
      }
    }
  }

  lemma EntriesStay(r: Run, e: Event)
    requires Inv(r) && Possible(r, e)
    ensures forall a :: a in r.everClaimed ==>
              a in Observe(r, e).everClaimed && r.everClaimed[a] <= Observe(r, e).everClaimed[a]
    ensures forall s :: s in Observe(r, e).server.pending ==>
              || (s in r.server.pending && Observe(r, e).server.pending[s] == r.server.pending[s])
              || (s !in r.seen && Observe(r, e).server.pending[s].generation == r.server.lastGeneration + 1)
  {
  }

  lemma LiveStep(r: Run, e: Event)
    requires Inv(r) && Possible(r, e)
    ensures LiveAgentsAreNewest(Observe(r, e))
  {
    var r' := Observe(r, e);
    forall a | a in r'.server.agents
      ensures exists i :: IsLastRegistration(r'.log, i, a, r'.server.agents[a])
    {
      if Registers(r.server, e) && a == ResolvedId(r.server.pending[e.socket], e.ownerId) {
        assert IsLastRegistration(r'.log, |r.log|, a, r'.server.agents[a]);
      } else {
        var i :| IsLastRegistration(r.log, i, a, r.server.agents[a]);
        assert IsLastRegistration(r'.log, i, a, r'.server.agents[a]);
      }
    }
  }

  lemma PrunedIsExact(s: Server)
    requires s.agents.Keys <= s.latest.Keys
    ensures s.pending == map[] ==> Pruned(s).latest.Keys == s.agents.Keys
  {
    if s.pending == map[] {
      forall a | a in Pruned(s).latest ensures a in s.agents {
        assert !HasOlderPending(s.pending, a, s.latest[a]);
      }
    }
  }

  lemma QuietStep(r: Run, e: Event)
    requires Inv(r) && Possible(r, e)
    ensures QuietTableIsExact(Observe(r, e))
  {
    var s := r.server;
    match e
    case Connected(socket, _, _, _) =>
      assert socket in Observe(r, e).server.pending;
    case TimedOut(socket) =>
      PrunedIsExact(WithoutPending(s, socket));
    case Unparseable(socket) =>
      PrunedIsExact(s);
    case Refused(socket) =>
      PrunedIsExact(WithoutPending(s, socket));
    case Accepted(socket, ownerId, registers) =>
      if socket in s.pending {
        var id := ResolvedId(s.pending[socket], ownerId);
        var s1 := WithoutPending(s, socket);
        var s2 := Claimed(s1, id, s.pending[socket].generation).(resolved := s1.resolved[socket := id]);
        PrunedIsExact(s1);
        PrunedIsExact(s2);
        PrunedIsExact(s2.(agents := s2.agents[id := socket]));
      }
    case Closed(socket) =>
      PrunedIsExact(WithoutPending(s, socket));
      var s1 := if socket in s.pending then Pruned(WithoutPending(s, socket)) else s;
      if socket in s1.resolved {
        PrunedIsExact(s1.(agents := s1.agents - {s1.resolved[socket]}));
      }
  }

  lemma {:induction false} RunKeepsInv(es: seq<Event>)
    requires IsRun(es)
    ensures Inv(RunOf(es))
  {
    if es != [] {
      var r, e := RunOf(es[..|es| - 1]), es[|es| - 1];
      RunKeepsInv(es[..|es| - 1]);
      BoundedStep(r, e);
      TombstonesStep(r, e);
      LogStep(r, e);
      LiveStep(r, e);
      QuietStep(r, e);
    }
  }

  // ---------------------------------------------------------------- who is live

  /** A registered socket's connection knows its id, and the one registered last for an id is live until it closes. */
  ghost predicate LiveUntilClosed(r: Run) {
    && (forall s :: s in r.closed ==> s in r.seen && s !in r.server.pending)
    && (forall i :: 0 <= i < |r.log| ==>
          r.log[i].socket in r.server.resolved && r.server.resolved[r.log[i].socket] == r.log[i].agentId)
    && (forall i :: 0 <= i < |r.log| && IsLastRegistration(r.log, i, r.log[i].agentId, r.log[i].socket) ==>
          (r.log[i].agentId in r.server.agents <==> r.log[i].socket !in r.closed))
  }

  lemma ResolvedStays(r: Run, e: Event, i: nat)
    requires Inv(r) && LiveUntilClosed(r) && Possible(r, e) && i < |r.log|
    ensures var x, s' := r.log[i], Observe(r, e).server; x.socket in s'.resolved && s'.resolved[x.socket] == x.agentId
  {
    assert IsPast(r, r.log[i]);
  }

  /** An event that neither registers nor closes leaves the live agents alone. */
  lemma AgentsStay(r: Run, e: Event)
    requires Inv(r) && !Registers(r.server, e) && !e.Closed?
    ensures Observe(r, e).server.agents == r.server.agents && Observe(r, e).closed == r.closed
  {
  }

  lemma ClosingStep(r: Run, e: Event)
    requires Inv(r) && LiveUntilClosed(r) && Possible(r, e) && e.Closed?
    ensures LiveUntilClosed(Observe(r, e))
  {
    var r', socket := Observe(r, e), e.socket;
    forall i: nat | i < |r'.log| && IsLastRegistration(r'.log, i, r'.log[i].agentId, r'.log[i].socket)
      ensures r'.log[i].agentId in r'.server.agents <==> r'.log[i].socket !in r'.closed
    {
      var a := r.log[i].agentId;
      ResolvedStays(r, e, i);
      assert IsPast(r, r.log[i]);
      if a in r.server.agents {
        var j :| IsLastRegistration(r.log, j, a, r.server.agents[a]);
        assert j == i;
      }
    }
    forall i: nat | i < |r'.log| ensures r'.log[i].socket in r'.server.resolved
                                    && r'.server.resolved[r'.log[i].socket] == r'.log[i].agentId {
      ResolvedStays(r, e, i);
    }
  }

  /** The registering socket is live and has not closed, and nothing changes for other ids. */
  lemma RegisteringMakesLive(r: Run, e: Event)
    requires Inv(r) && LiveUntilClosed(r) && Possible(r, e) && Registers(r.server, e)
    ensures var r', id := Observe(r, e), ResolvedId(r.server.pending[e.socket], e.ownerId);
            (&& |r'.log| == |r.log| + 1 && r'.log[..|r.log|] == r.log
             && r'.log[|r.log|].agentId == id && r'.log[|r.log|].socket == e.socket
             && id in r'.server.agents && e.socket !in r'.closed && r'.closed == r.closed
             && e.socket in r'.server.resolved && r'.server.resolved[e.socket] == id
             && forall a :: a != id ==> (a in r'.server.agents <==> a in r.server.agents))
  {
  }

  lemma RegisteringStep(r: Run, e: Event)
    requires Inv(r) && LiveUntilClosed(r) && Possible(r, e) && Registers(r.server, e)
    ensures LiveUntilClosed(Observe(r, e))
  {
    var r', n := Observe(r, e), |r.log|;
    RegisteringMakesLive(r, e);
    EntriesStay(r, e);
    forall i: nat | i < n ensures r'.log[i] == r.log[i] && r'.log[i].socket in r'.server.resolved
                             && r'.server.resolved[r'.log[i].socket] == r'.log[i].agentId {
      ResolvedStays(r, e, i);
      assert r'.log[i] == r'.log[..n][i];
    }
    forall i: nat | i < n && IsLastRegistration(r'.log, i, r'.log[i].agentId, r'.log[i].socket)
      ensures r'.log[i].agentId in r'.server.agents <==> r'.log[i].socket !in r'.closed
    {
      assert r'.log[n].agentId != r'.log[i].agentId;
      assert IsLastRegistration(r.log, i, r.log[i].agentId, r.log[i].socket);
    }
  }

  lemma OtherStep(r: Run, e: Event)
    requires Inv(r) && LiveUntilClosed(r) && Possible(r, e) && !Registers(r.server, e) && !e.Closed?
    ensures LiveUntilClosed(Observe(r, e))
  {
    AgentsStay(r, e);
    EntriesStay(r, e);
    forall i: nat | i < |r.log| ensures r.log[i].socket in Observe(r, e).server.resolved
                                   && Observe(r, e).server.resolved[r.log[i].socket] == r.log[i].agentId {
      ResolvedStays(r, e, i);
    }
  }

  lemma {:induction false} RunKeepsLive(es: seq<Event>)
    requires IsRun(es)
    ensures LiveUntilClosed(RunOf(es))
  {
    if es != [] {
      var r, e := RunOf(es[..|es| - 1]), es[|es| - 1];
      RunKeepsInv(es[..|es| - 1]);
      RunKeepsLive(es[..|es| - 1]);
      if e.Closed? {
        ClosingStep(r, e);
      } else if Registers(r.server, e) {
        RegisteringStep(r, e);
      } else {
        OtherStep(r, e);
      }
    }
  }

  // ---------------------------------------------------------------- main results

  /** In every run the sockets registered for one agent id have strictly increasing generations, the
      live socket of an id is the one registered last, and the tombstones are exactly the live ids
      whenever nobody is waiting to authenticate. */
  lemma GenerationsStrictlyIncrease(es: seq<Event>)
    requires IsRun(es)
    ensures StrictlyIncreasingPerAgent(RunOf(es).log)
    ensures forall a :: a in RunOf(es).server.agents ==>
              exists i :: IsLastRegistration(RunOf(es).log, i, a, RunOf(es).server.agents[a])
    ensures RunOf(es).server.pending == map[] ==> RunOf(es).server.latest.Keys == RunOf(es).server.agents.Keys
  {
    RunKeepsInv(es);
  }

  /** In every run an id is live with a socket exactly if the socket was registered for it, nobody registered for it
      later, and the socket has not closed; so a closed socket is nobody's live connection. */
  lemma LiveExactlyUntilClosed(es: seq<Event>, a: AgentId, socket: SocketId)
    requires IsRun(es)
    ensures var r := RunOf(es);
            (a in r.server.agents && r.server.agents[a] == socket
             <==> socket !in r.closed && exists i :: IsLastRegistration(r.log, i, a, socket))
  {
    RunKeepsInv(es);
    RunKeepsLive(es);
    var r := RunOf(es);
    if a in r.server.agents {
      var j :| IsLastRegistration(r.log, j, a, r.server.agents[a]);
      forall i | IsLastRegistration(r.log, i, a, socket) ensures i == j {
      }
    }
  }

  /** Whatever was pruned before, a socket registers only if nobody newer ever claimed its id; and a
      socket that is the newest claimant of its id is never turned away by the fence. */
  lemma OnlyTheNewestClaimantRegisters(es: seq<Event>, socket: SocketId, ownerId: string)
    requires IsRun(es) && socket in RunOf(es).server.pending
    ensures var r := RunOf(es);
            var p := r.server.pending[socket];
            var id := ResolvedId(p, ownerId);
            Registers(r.server, Accepted(socket, ownerId, true))
              == (id in r.everClaimed ==> r.everClaimed[id] <= p.generation)
  {
    RunKeepsInv(es);
    var r := RunOf(es);
    assert MayStillClaim(r.server.pending[socket], ResolvedId(r.server.pending[socket], ownerId));
  }

  predicate EndsWaiting(e: Event, socket: SocketId) {
    (e.TimedOut? || e.Refused? || e.Accepted? || e.Closed?) && e.socket == socket
  }

  /** A socket waits from its connection, for which it draws the next generation, until it is timed out, refused,
      accepted or closed; nothing else changes what it waits as. */
  lemma WaitsExactly(s: Server, e: Event, socket: SocketId)
    ensures var s' := After(s, e);
            if e.Connected? && e.socket == socket
            then socket in s'.pending
                 && s'.pending[socket] == Pending(e.agentId, e.instanceId, e.skipAuth, s.lastGeneration + 1)
            else (socket in s'.pending <==> socket in s.pending && !EndsWaiting(e, socket))
                 && (socket in s'.pending ==> s'.pending[socket] == s.pending[socket])
    ensures After(s, e).lastGeneration == s.lastGeneration + if e.Connected? then 1 else 0
  {
  }

  // ---------------------------------------------------------------- the module's own state

  class Registry {
    var nextAgentConnectionGeneration: nat
    var latestAgentConnectionGenerations: map<AgentId, nat>
    var pendingAgentConnections: map<SocketId, Pending>
    var agents: map<AgentId, SocketId>
    var resolvedAgentIds: map<SocketId, AgentId>

    function Snapshot(): Server
      reads this
    {
      Server(nextAgentConnectionGeneration, latestAgentConnectionGenerations, pendingAgentConnections,
             agents, resolvedAgentIds)
    }

    constructor ()
      ensures Snapshot() == START.server
    {
      nextAgentConnectionGeneration := 0;
      latestAgentConnectionGenerations := map[];
      pendingAgentConnections := map[];
      agents := map[];
      resolvedAgentIds := map[];
    }

    method ClaimAgentConnection(agentId: AgentId, generation: nat) returns (claimed: bool)
      modifies this`latestAgentConnectionGenerations
      ensures claimed <==> CanClaim(old(Snapshot()), agentId, generation)
      ensures Snapshot() == if claimed then Claimed(old(Snapshot()), agentId, generation) else old(Snapshot())
    {
      if agentId in latestAgentConnectionGenerations && latestAgentConnectionGenerations[agentId] > generation {
        return false;
      }
      latestAgentConnectionGenerations := latestAgentConnectionGenerations[agentId := generation];
      return true;
    }

    method PruneAgentConnectionGenerations()
      modifies this`latestAgentConnectionGenerations
      ensures Snapshot() == Pruned(old(Snapshot()))
    {
      ghost var before := Snapshot();
      var unvisited := latestAgentConnectionGenerations.Keys;
      while unvisited != {}
        invariant unvisited <= latestAgentConnectionGenerations.Keys <= before.latest.Keys
        invariant forall a :: a in before.latest && a !in unvisited ==>
                    (a in latestAgentConnectionGenerations <==> a in Pruned(before).latest)
        invariant forall a :: a in latestAgentConnectionGenerations ==>
                    latestAgentConnectionGenerations[a] == before.latest[a]
      {
        var agentId :| agentId in unvisited;
        unvisited := unvisited - {agentId};
        if agentId in agents {
          continue;
        }
        var generation := latestAgentConnectionGenerations[agentId];
        var hasPotentiallyOlderConnection :=
          exists s :: s in pendingAgentConnections && pendingAgentConnections[s].generation < generation
                      && MayStillClaim(pendingAgentConnections[s], agentId);
        if !hasPotentiallyOlderConnection {
          latestAgentConnectionGenerations := latestAgentConnectionGenerations - {agentId};
        }
      }
    }

    method Connect(socket: SocketId, agentId: AgentId, instanceId: string, skipAuth: bool)
      modifies this
      ensures Snapshot() == After(old(Snapshot()), Connected(socket, agentId, instanceId, skipAuth))
    {
      nextAgentConnectionGeneration := nextAgentConnectionGeneration + 1;
      var connectionGeneration := nextAgentConnectionGeneration;
      if skipAuth {
        var _ := ClaimAgentConnection(agentId, connectionGeneration);
      }
      pendingAgentConnections :=
        pendingAgentConnections[socket := Pending(agentId, instanceId, skipAuth, connectionGeneration)];
    }

    /** The 30 second timer. */
    method AuthTimeout(socket: SocketId)
      modifies this
      ensures Snapshot() == After(old(Snapshot()), TimedOut(socket))
    {
      if socket in pendingAgentConnections {
        pendingAgentConnections := pendingAgentConnections - {socket};
        PruneAgentConnectionGenerations();
      }
    }

    /** A frame on a pending socket that cannot be parsed as JSON. */
    method ReceiveUnparseable(socket: SocketId)
      modifies this
      ensures Snapshot() == After(old(Snapshot()), Unparseable(socket))
    {
      if socket in pendingAgentConnections {
        PruneAgentConnectionGenerations();
      }
    }

    method RefuseAuth(socket: SocketId)
      modifies this
      ensures Snapshot() == After(old(Snapshot()), Refused(socket))
    {
      if socket in pendingAgentConnections {
        pendingAgentConnections := pendingAgentConnections - {socket};
        PruneAgentConnectionGenerations();
      }
    }

    /** The authentication frame of a socket whose secret is valid or not checked. `throws` says that
        the registration raised an exception before it reached `agents`. */
    method AcceptAuth(socket: SocketId, ownerId: string, throws: bool) returns (registered: bool)
      modifies this
      ensures registered <==> Registers(old(Snapshot()), Accepted(socket, ownerId, !throws))
      ensures Snapshot() == After(old(Snapshot()), Accepted(socket, ownerId, !throws))
    {
      if socket !in pendingAgentConnections {
        return false;
      }
      var pending := pendingAgentConnections[socket];
      pendingAgentConnections := pendingAgentConnections - {socket};
      var agentId := ResolvedId(pending, ownerId);
      var claimed := ClaimAgentConnection(agentId, pending.generation);
      if !claimed {
        PruneAgentConnectionGenerations();
        return false;
      }
      resolvedAgentIds := resolvedAgentIds[socket := agentId];
      if !throws {
        agents := agents[agentId := socket];
      }
      PruneAgentConnectionGenerations();
      return !throws;
    }

    method Close(socket: SocketId)
      modifies this
      ensures Snapshot() == After(old(Snapshot()), Closed(socket))
    {
      if socket in pendingAgentConnections {
        pendingAgentConnections := pendingAgentConnections - {socket};
        PruneAgentConnectionGenerations();
      }
      if socket in resolvedAgentIds {
        HandleAgentDisconnect(resolvedAgentIds[socket], socket);
      }
    }

    method HandleAgentDisconnect(agentId: AgentId, socket: SocketId)
      modifies this
      ensures Snapshot() ==
              var s := old(Snapshot());
              if agentId in s.agents && s.agents[agentId] == socket
              then Pruned(s.(agents := s.agents - {agentId})) else s
    {
      if agentId !in agents || agents[agentId] != socket {
        return;
      }
      agents := agents - {agentId};
      PruneAgentConnectionGenerations();
    }
  }
}
