/** Correlating workbench responses with requests (server/workbench-correlation.js).

    Three linked maps: the pending requests, the tombstones of requests that expired while an agent may
    still answer them without echoing their id, and the owners of terminals. Request ids are random and
    stand for themselves; the maps are kept in insertion order, and a whole synchronous call happens at
    one time `now`. EMPTY strings are absent fields.
  */
module WorkbenchCorrelation {
  import opened Text

  const REQUEST_TTL_MS := 120_000
  const MAX_PENDING: nat := 4096

  type RequestId = nat

  datatype Request = Request(
    agentId: string, requestId: RequestId, clientId: string, userId: string, routeKey: string,
    conversationId: string, generation: string, requestType: string, expected: set<string>,
    publicRequestId: string, terminalId: string, allowLegacy: bool, hasOnResponse: bool, expiresAt: int)

  /** The fields of `request` that the source copies are those the tombstone is matched and answered by. */
  datatype Tombstone = Tombstone(request: Request, expiresAt: int)

  datatype TerminalKey = TerminalKey(agentId: string, terminalId: string)

  datatype TerminalOwner = TerminalOwner(
    agentId: string, terminalId: string, clientId: string, userId: string, routeKey: string,
    conversationId: string, generation: string, pendingRequestId: Option<RequestId>)

  /** How a request ends, and whether its timeout callback is called. */
  datatype Ending = Consumed | Expired | Deleted | Cleared(notified: bool)

  datatype Outcome = Outcome(requestId: RequestId, ending: Ending)

  /** `outcomes` is what the module did to requests so far; the rest are its maps. */
  datatype State = State(pending: seq<Request>, tombstones: seq<Tombstone>, owners: map<TerminalKey, TerminalOwner>,
                         outcomes: seq<Outcome>)

  const EMPTY: State := State([], [], map[], [])

  // ---------------------------------------------------------------- expiry and quarantine

  function LiveTombstones(ts: seq<Tombstone>, now: int): seq<Tombstone> {
    if ts == [] then [] else (if ts[0].expiresAt > now then [ts[0]] else []) + LiveTombstones(ts[1..], now)
  }

  /** Drops oldest entries until a new one fits. */
  function MakeRoom<T>(s: seq<T>): seq<T> {
    if |s| >= MAX_PENDING then s[|s| - (MAX_PENDING - 1)..] else s
  }

  function Quarantined(ts: seq<Tombstone>, p: Request, now: int): seq<Tombstone> {
    if !p.allowLegacy then ts
    else MakeRoom(LiveTombstones(ts, now)) + [Tombstone(p, now + REQUEST_TTL_MS)]
  }

  function Released(owners: map<TerminalKey, TerminalOwner>, p: Request): map<TerminalKey, TerminalOwner> {
    var key := TerminalKey(p.agentId, p.terminalId);
    if p.terminalId != "" && key in owners && owners[key].pendingRequestId == Some(p.requestId)
    then owners - {key} else owners
  }

  function Without(ps: seq<Request>, id: RequestId): seq<Request> {
    if ps == [] then [] else (if ps[0].requestId == id then [] else [ps[0]]) + Without(ps[1..], id)
  }

  /** `expirePending` for a request that is pending. */
  function Expire(s: State, p: Request, now: int): State {
    State(Without(s.pending, p.requestId), Quarantined(s.tombstones, p, now), Released(s.owners, p),
          s.outcomes + [Outcome(p.requestId, Expired)])
  }

  function ExpireDue(s: State, candidates: seq<Request>, now: int): State
    decreases |candidates|
  {
    if candidates == [] then s
    else ExpireDue(if candidates[0].expiresAt > now then s else Expire(s, candidates[0], now), candidates[1..], now)
  }

  function Pruned(s: State, now: int): State {
    ExpireDue(s.(tombstones := LiveTombstones(s.tombstones, now)), s.pending, now)
  }

  function EvictUntilRoom(s: State, now: int): State
    decreases |s.pending|
  {
    if |s.pending| < MAX_PENDING then s
    else
      WithoutShrinks(s.pending, s.pending[0].requestId);
      EvictUntilRoom(Expire(s, s.pending[0], now), now)
  }

  lemma {:induction false} WithoutShrinks(ps: seq<Request>, id: RequestId)
    ensures |Without(ps, id)| <= |ps|
    ensures (exists p :: p in ps && p.requestId == id) ==> |Without(ps, id)| < |ps|
  {
    if ps != [] {
      WithoutShrinks(ps[1..], id);
    }
  }

  // ---------------------------------------------------------------- calls

  datatype Call =
    | Register(request: Request)
    | TimerFires(requestId: RequestId)
    | Peek(agentId: string, requestId: RequestId, responseType: string, routeKey: string)
    | Consume(agentId: string, requestId: RequestId, responseType: string, routeKey: string)
    | ConsumeLegacy(reply: LegacyReply)
    | Delete(agentId: string, requestId: RequestId)
    | RegisterOwner(owner: TerminalOwner)
    | DeleteOwner(key: TerminalKey)
    | ClearClient(clientId: string)
    | ClearAgent(agentId: string)

  datatype LegacyReply = LegacyReply(agentId: string, responseType: string, routeKey: string, userId: string,
                                     clientId: string, publicRequestId: string, terminalId: string)

  datatype Attribution = Nobody | To(request: Request) | InQuarantine(tombstone: Tombstone)

  function Find(ps: seq<Request>, agentId: string, id: RequestId): Option<Request> {
    if ps == [] then None
    else if ps[0].agentId == agentId && ps[0].requestId == id then Some(ps[0])
    else Find(ps[1..], agentId, id)
  }

  predicate IsComplete(r: Request) {
    && r.agentId != "" && r.clientId != "" && r.userId != "" && r.routeKey != "" && r.conversationId != ""
    && r.generation != "" && r.requestType != "" && r.expected != {}
  }

  function AfterRegister(s: State, r: Request, now: int): State {
    if !IsComplete(r) then s
    else
      var s1 := EvictUntilRoom(Pruned(s, now), now);
      s1.(pending := s1.pending + [r.(expiresAt := now + REQUEST_TTL_MS)])
  }

  function AfterTimer(s: State, id: RequestId, now: int): State {
    match FindId(s.pending, id)
    case None => s
    case Some(p) => Expire(s, p, now)
  }

  function FindId(ps: seq<Request>, id: RequestId): Option<Request> {
    if ps == [] then None else if ps[0].requestId == id then Some(ps[0]) else FindId(ps[1..], id)
  }

  /** What peek and consume find, in a pruned state. */
  function Answered(s: State, agentId: string, id: RequestId, responseType: string, routeKey: string): Option<Request> {
    match Find(s.pending, agentId, id)
    case None => None
    case Some(p) => if responseType in p.expected && (routeKey == "" || p.routeKey == routeKey) then Some(p) else None
  }

  function Take(s: State, p: Request): State {
    s.(pending := Without(s.pending, p.requestId), outcomes := s.outcomes + [Outcome(p.requestId, Consumed)])
  }

  function AfterConsume(s: State, agentId: string, id: RequestId, responseType: string, routeKey: string, now: int): State {
    if agentId == "" || responseType == "" then s else
    var s1 := Pruned(s, now);
    match Answered(s1, agentId, id, responseType, routeKey)
    case None => s1
    case Some(p) => Take(s1, p)
  }

  predicate Matches(p: Request, reply: LegacyReply) {
    && p.agentId == reply.agentId && p.routeKey == reply.routeKey && p.userId == reply.userId
    && reply.responseType in p.expected
    && (reply.clientId != "" ==> p.clientId == reply.clientId)
    && (reply.publicRequestId != "" ==> p.publicRequestId == reply.publicRequestId)
    && (reply.terminalId != "" ==> p.terminalId == reply.terminalId)
  }

  function MatchingTombstones(ts: seq<Tombstone>, reply: LegacyReply): seq<Tombstone> {
    if ts == [] then []
    else (if Matches(ts[0].request, reply) then [ts[0]] else []) + MatchingTombstones(ts[1..], reply)
  }

  function MatchingRequests(ps: seq<Request>, reply: LegacyReply): seq<Request> {
    if ps == [] then [] else (if Matches(ps[0], reply) then [ps[0]] else []) + MatchingRequests(ps[1..], reply)
  }

  predicate IsLegacyComplete(reply: LegacyReply) {
    reply.agentId != "" && reply.responseType != "" && reply.routeKey != "" && reply.userId != ""
  }

  /** Whom a legacy reply is attributed to, in a pruned state: a tombstone comes first, and of the
      pending requests exactly one must match. */
  function Attributed(s: State, reply: LegacyReply): Attribution {
    var ts, ps := MatchingTombstones(s.tombstones, reply), MatchingRequests(s.pending, reply);
    if ts != [] then InQuarantine(ts[0])
    else if |ps| == 1 then To(ps[0])
    else Nobody
  }

  function WithoutTombstone(ts: seq<Tombstone>, id: RequestId): seq<Tombstone> {
    if ts == [] then [] else (if ts[0].request.requestId == id then [] else [ts[0]]) + WithoutTombstone(ts[1..], id)
  }

  function Settle(s: State, reply: LegacyReply, to: Attribution): State {
    match to
    case Nobody => s
    case To(p) => Take(s, p)
    case InQuarantine(t) =>
      if reply.publicRequestId != "" then s.(tombstones := WithoutTombstone(s.tombstones, t.request.requestId)) else s
  }

  function AfterLegacy(s: State, reply: LegacyReply, now: int): State {
    if !IsLegacyComplete(reply) then s
    else var s1 := Pruned(s, now); Settle(s1, reply, Attributed(s1, reply))
  }

  function AfterDelete(s: State, agentId: string, id: RequestId): State {
    match Find(s.pending, agentId, id)
    case None => s
    case Some(p) => s.(pending := Without(s.pending, p.requestId), owners := Released(s.owners, p),
                       outcomes := s.outcomes + [Outcome(p.requestId, Deleted)])
  }

  predicate SameIdentity(a: TerminalOwner, b: TerminalOwner) {
    && a.clientId == b.clientId && a.userId == b.userId && a.routeKey == b.routeKey
    && a.generation == b.generation && a.conversationId == b.conversationId
  }

  predicate IsOwnerComplete(o: TerminalOwner) {
    && o.agentId != "" && o.terminalId != "" && o.clientId != "" && o.userId != "" && o.routeKey != ""
    && o.generation != ""
  }

  predicate OwnerAccepted(s: State, o: TerminalOwner) {
    var key := TerminalKey(o.agentId, o.terminalId);
    IsOwnerComplete(o) && (key in s.owners ==> SameIdentity(s.owners[key], o))
  }

  function AfterRegisterOwner(s: State, o: TerminalOwner): State {
    if OwnerAccepted(s, o) then s.(owners := s.owners[TerminalKey(o.agentId, o.terminalId) := o]) else s
  }

  /** The client or agent that is cleared. */
  datatype Whom = Client(id: string) | Agent(id: string)

  predicate Concerns(whom: Whom, p: Request) {
    match whom
    case Client(id) => p.clientId == id
    case Agent(id) => p.agentId == id
  }

  /** Removes the requests of `whom`, in order, releasing their reservations. */
  function Clear(s: State, candidates: seq<Request>, whom: Whom, notify: bool): State
    decreases |candidates|
  {
    if candidates == [] then s
    else
      var p := candidates[0];
      Clear(if Concerns(whom, p)
            then s.(pending := Without(s.pending, p.requestId), owners := Released(s.owners, p),
                    outcomes := s.outcomes + [Outcome(p.requestId, Cleared(notify && p.hasOnResponse))])
            else s,
            candidates[1..], whom, notify)
  }

  function KeepTombstones(ts: seq<Tombstone>, whom: Whom): seq<Tombstone> {
    if ts == [] then [] else (if Concerns(whom, ts[0].request) then [] else [ts[0]]) + KeepTombstones(ts[1..], whom)
  }

  function AfterClearClient(s: State, clientId: string): State {
    if clientId == "" then s else
    var s1 := s.(owners := map k | k in s.owners && s.owners[k].clientId != clientId :: s.owners[k]);
    var whom := Client(clientId);
    var s2 := Clear(s1, s1.pending, whom, false);
    s2.(tombstones := KeepTombstones(s2.tombstones, whom))
  }

  function AfterClearAgent(s: State, agentId: string): State {
    if agentId == "" then s else
    var whom := Agent(agentId);
    var s1 := Clear(s, s.pending, whom, true);
    s1.(tombstones := KeepTombstones(s1.tombstones, whom),
        owners := map k | k in s1.owners && s1.owners[k].agentId != agentId :: s1.owners[k])
  }

  function After(s: State, call: Call, now: int): State {
    match call
    case Register(r) => AfterRegister(s, r, now)
    case TimerFires(id) => AfterTimer(s, id, now)
    case Peek(agentId, id, responseType, routeKey) =>
      if agentId == "" || responseType == "" then s else Pruned(s, now)
    case Consume(agentId, id, responseType, routeKey) => AfterConsume(s, agentId, id, responseType, routeKey, now)
    case ConsumeLegacy(reply) => AfterLegacy(s, reply, now)
    case Delete(agentId, id) => AfterDelete(s, agentId, id)
    case RegisterOwner(o) => AfterRegisterOwner(s, o)
    case DeleteOwner(key) => s.(owners := s.owners - {key})
    case ClearClient(clientId) => AfterClearClient(s, clientId)
    case ClearAgent(agentId) => AfterClearAgent(s, agentId)
  }

  // ---------------------------------------------------------------- the requests that are pending

  function Ids(ps: seq<Request>): set<RequestId> {
    set p | p in ps :: p.requestId
  }

  ghost predicate DistinctIds(ps: seq<Request>) {
    forall i, j :: 0 <= i < j < |ps| ==> ps[i].requestId != ps[j].requestId
  }

  lemma {:induction false} WithoutMembers(ps: seq<Request>, id: RequestId)
    ensures forall p :: p in Without(ps, id) <==> p in ps && p.requestId != id
  {
    if ps != [] {
      WithoutMembers(ps[1..], id);
    }
  }

  lemma {:induction false} WithoutAbsent(ps: seq<Request>, id: RequestId)
    requires forall p :: p in ps ==> p.requestId != id
    ensures Without(ps, id) == ps
  {
    if ps != [] {
      WithoutAbsent(ps[1..], id);
      assert ps[0] in ps && [ps[0]] + ps[1..] == ps;
    }
  }

  lemma {:induction false} WithoutDistinct(ps: seq<Request>, id: RequestId)
    requires DistinctIds(ps)
    ensures DistinctIds(Without(ps, id))
  {
    if ps != [] {
      var rest := Without(ps[1..], id);
      WithoutDistinct(ps[1..], id);
      WithoutMembers(ps[1..], id);
      forall j | 0 <= j < |rest| ensures rest[j].requestId != ps[0].requestId {
        assert rest[j] in ps[1..];
      }
    }
  }

  lemma {:induction false} WithoutLength(ps: seq<Request>, id: RequestId)
    requires DistinctIds(ps)
    ensures |Without(ps, id)| == if exists p :: p in ps && p.requestId == id then |ps| - 1 else |ps|
  {
    if ps != [] {
      if ps[0].requestId == id {
        WithoutAbsent(ps[1..], id);
        assert ps[0] in ps;
      } else {
        WithoutLength(ps[1..], id);
        assert forall p :: p in ps <==> p == ps[0] || p in ps[1..];
      }
    }
  }

  lemma WithoutIs(ps: seq<Request>, id: RequestId)
    requires DistinctIds(ps)
    ensures forall p :: p in Without(ps, id) <==> p in ps && p.requestId != id
    ensures DistinctIds(Without(ps, id)) && Ids(Without(ps, id)) == Ids(ps) - {id}
    ensures |Without(ps, id)| == if id in Ids(ps) then |ps| - 1 else |ps|
  {
    WithoutMembers(ps, id);
    WithoutDistinct(ps, id);
    WithoutLength(ps, id);
  }

  /** Requests in the map have distinct ids, all ids were drawn before, and the outcomes so far are of
      requests that are no longer pending, one for each; neither table exceeds its cap. */
  ghost predicate Good(s: State, used: set<RequestId>) {
    && DistinctIds(s.pending) && Ids(s.pending) <= used
    && (forall i, j :: 0 <= i < j < |s.outcomes| ==> s.outcomes[i].requestId != s.outcomes[j].requestId)
    && (forall o :: o in s.outcomes ==> o.requestId in used && o.requestId !in Ids(s.pending))
    && |s.pending| <= MAX_PENDING && |s.tombstones| <= MAX_PENDING
  }

  /** One pending request leaves with one outcome. */
  lemma FinishKeepsGood(s: State, s': State, p: Request, ending: Ending, used: set<RequestId>)
    requires Good(s, used) && p in s.pending
    requires s'.pending == Without(s.pending, p.requestId) && |s'.tombstones| <= MAX_PENDING
    requires s'.outcomes == s.outcomes + [Outcome(p.requestId, ending)]
    ensures Good(s', used)
  {
    WithoutIs(s.pending, p.requestId);
    assert p.requestId in Ids(s.pending);
  }

  lemma {:induction false} LiveTombstonesAre(ts: seq<Tombstone>, now: int)
    ensures |LiveTombstones(ts, now)| <= |ts|
    ensures forall t :: t in LiveTombstones(ts, now) <==> t in ts && t.expiresAt > now
  {
    if ts != [] {
      LiveTombstonesAre(ts[1..], now);
    }
  }

  lemma ExpireKeepsGood(s: State, p: Request, now: int, used: set<RequestId>)
    requires Good(s, used) && p in s.pending
    ensures Good(Expire(s, p, now), used)
  {
    LiveTombstonesAre(s.tombstones, now);
    FinishKeepsGood(s, Expire(s, p, now), p, Expired, used);
  }

  ghost predicate AreCandidates(s: State, candidates: seq<Request>) {
    DistinctIds(candidates) && forall p :: p in candidates ==> p in s.pending
  }

  lemma CandidatesStay(s: State, candidates: seq<Request>, pending': seq<Request>)
    requires DistinctIds(s.pending) && AreCandidates(s, candidates) && candidates != []
    requires pending' in {s.pending, Without(s.pending, candidates[0].requestId)}
    ensures forall p :: p in candidates[1..] ==> p in pending'
    ensures DistinctIds(candidates[1..])
  {
    WithoutIs(s.pending, candidates[0].requestId);
    forall p | p in candidates[1..] ensures p in pending' {
      assert p in candidates && p.requestId != candidates[0].requestId;
    }
  }

  lemma {:induction false} ExpireDueKeepsGood(s: State, candidates: seq<Request>, now: int, used: set<RequestId>)
    requires Good(s, used) && AreCandidates(s, candidates)
    ensures Good(ExpireDue(s, candidates, now), used)
    ensures forall p :: p in ExpireDue(s, candidates, now).pending
              <==> p in s.pending && !(p in candidates && p.expiresAt <= now)
    decreases |candidates|
  {
    if candidates != [] {
      var p := candidates[0];
      var s1 := if p.expiresAt > now then s else Expire(s, p, now);
      if p.expiresAt <= now {
        ExpireKeepsGood(s, p, now, used);
        WithoutIs(s.pending, p.requestId);
      }
      CandidatesStay(s, candidates, s1.pending);
      ExpireDueKeepsGood(s1, candidates[1..], now, used);
      assert forall q :: q in candidates <==> q == p || q in candidates[1..];
      SameIdSame(s.pending, p);
    }
  }

  lemma SameIdSame(ps: seq<Request>, p: Request)
    requires DistinctIds(ps) && p in ps
    ensures forall q :: q in ps && q.requestId == p.requestId ==> q == p
  {
  }

  /** Pruning leaves exactly the requests whose time is not over. */
  lemma PrunedKeepsGood(s: State, now: int, used: set<RequestId>)
    requires Good(s, used)
    ensures Good(Pruned(s, now), used)
    ensures forall p :: p in Pruned(s, now).pending <==> p in s.pending && p.expiresAt > now
  {
    LiveTombstonesAre(s.tombstones, now);
    ExpireDueKeepsGood(s.(tombstones := LiveTombstones(s.tombstones, now)), s.pending, now, used);
  }

  lemma {:induction false} EvictKeepsGood(s: State, now: int, used: set<RequestId>)
    requires Good(s, used)
    ensures Good(EvictUntilRoom(s, now), used) && |EvictUntilRoom(s, now).pending| < MAX_PENDING
    decreases |s.pending|
  {
    if |s.pending| >= MAX_PENDING {
      ExpireKeepsGood(s, s.pending[0], now, used);
      WithoutIs(s.pending, s.pending[0].requestId);
      EvictKeepsGood(Expire(s, s.pending[0], now), now, used);
    }
  }

  lemma {:induction false} ClearKeepsGood(s: State, candidates: seq<Request>, whom: Whom, notify: bool,
                                          used: set<RequestId>)
    requires Good(s, used) && AreCandidates(s, candidates)
    ensures Good(Clear(s, candidates, whom, notify), used)
    decreases |candidates|
  {
    if candidates != [] {
      var p := candidates[0];
      var s1 := if Concerns(whom, p)
                then s.(pending := Without(s.pending, p.requestId), owners := Released(s.owners, p),
                        outcomes := s.outcomes + [Outcome(p.requestId, Cleared(notify && p.hasOnResponse))])
                else s;
      if Concerns(whom, p) {
        FinishKeepsGood(s, s1, p, Cleared(notify && p.hasOnResponse), used);
      }
      CandidatesStay(s, candidates, s1.pending);
      ClearKeepsGood(s1, candidates[1..], whom, notify, used);
    }
  }

  lemma {:induction false} FindIs(ps: seq<Request>, agentId: string, id: RequestId)
    ensures Find(ps, agentId, id).Some? ==>
              var p := Find(ps, agentId, id).value; p in ps && p.agentId == agentId && p.requestId == id
    ensures FindId(ps, id).Some? ==> FindId(ps, id).value in ps && FindId(ps, id).value.requestId == id
    ensures Find(ps, agentId, id).None? ==> forall p :: p in ps ==> !(p.agentId == agentId && p.requestId == id)
  {
    if ps != [] {
      FindIs(ps[1..], agentId, id);
    }
  }

  lemma {:induction false} MatchingRequestsAre(ps: seq<Request>, reply: LegacyReply)
    ensures forall p :: p in MatchingRequests(ps, reply) <==> p in ps && Matches(p, reply)
    ensures |MatchingRequests(ps, reply)| <= |ps|
  {
    if ps != [] {
      MatchingRequestsAre(ps[1..], reply);
    }
  }

  lemma {:induction false} MatchingTombstonesAre(ts: seq<Tombstone>, reply: LegacyReply)
    ensures forall t :: t in MatchingTombstones(ts, reply) <==> t in ts && Matches(t.request, reply)
  {
    if ts != [] {
      MatchingTombstonesAre(ts[1..], reply);
    }
  }

  lemma {:induction false} FewerTombstones(ts: seq<Tombstone>, id: RequestId, whom: Whom)
    ensures |WithoutTombstone(ts, id)| <= |ts| && |KeepTombstones(ts, whom)| <= |ts|
  {
    if ts != [] {
      FewerTombstones(ts[1..], id, whom);
    }
  }

  // ---------------------------------------------------------------- runs

  datatype Event = Event(call: Call, now: int)

  datatype Run = Run(state: State, used: set<RequestId>)

  /** Request ids are fresh. */
  predicate Possible(r: Run, e: Event) {
    e.call.Register? ==> e.call.request.requestId !in r.used
  }

  function Observe(r: Run, e: Event): Run {
    Run(After(r.state, e.call, e.now), if e.call.Register? then r.used + {e.call.request.requestId} else r.used)
  }

  function RunFrom(r: Run, es: seq<Event>): Run {
    if es == [] then r else Observe(RunFrom(r, es[..|es| - 1]), es[|es| - 1])
  }

  ghost predicate IsRun(r: Run, es: seq<Event>) {
    es == [] || (IsRun(r, es[..|es| - 1]) && Possible(RunFrom(r, es[..|es| - 1]), es[|es| - 1]))
  }

  const START: Run := Run(EMPTY, {})

  lemma RegisterKeepsGood(s: State, r: Request, now: int, used: set<RequestId>)
    requires Good(s, used) && r.requestId !in used
    ensures Good(AfterRegister(s, r, now), used + {r.requestId})
  {
    if IsComplete(r) {
      PrunedKeepsGood(s, now, used);
      EvictKeepsGood(Pruned(s, now), now, used);
      var s1 := EvictUntilRoom(Pruned(s, now), now);
      var pending := s1.pending + [r.(expiresAt := now + REQUEST_TTL_MS)];
      assert forall p :: p in s1.pending ==> p.requestId in Ids(s1.pending);
      assert Ids(pending) == Ids(s1.pending) + {r.requestId};
    }
  }

  lemma ConsumeKeepsGood(s: State, agentId: string, id: RequestId, responseType: string, routeKey: string, now: int,
                         used: set<RequestId>)
    requires Good(s, used)
    ensures Good(AfterConsume(s, agentId, id, responseType, routeKey, now), used)
  {
    var s1 := Pruned(s, now);
    PrunedKeepsGood(s, now, used);
    FindIs(s1.pending, agentId, id);
    var found := Answered(s1, agentId, id, responseType, routeKey);
    if found.Some? {
      FinishKeepsGood(s1, Take(s1, found.value), found.value, Consumed, used);
    }
  }

  lemma DeleteKeepsGood(s: State, agentId: string, id: RequestId, now: int, used: set<RequestId>)
    requires Good(s, used)
    ensures Good(AfterDelete(s, agentId, id), used) && Good(AfterTimer(s, id, now), used)
  {
    FindIs(s.pending, agentId, id);
    if FindId(s.pending, id).Some? {
      ExpireKeepsGood(s, FindId(s.pending, id).value, now, used);
    }
    if Find(s.pending, agentId, id).Some? {
      FinishKeepsGood(s, AfterDelete(s, agentId, id), Find(s.pending, agentId, id).value, Deleted, used);
    }
  }

  lemma ClearClientKeepsGood(s: State, clientId: string, used: set<RequestId>)
    requires Good(s, used)
    ensures Good(AfterClearClient(s, clientId), used)
  {
    var s1 := s.(owners := map k | k in s.owners && s.owners[k].clientId != clientId :: s.owners[k]);
    var whom := Client(clientId);
    ClearKeepsGood(s1, s1.pending, whom, false, used);
    FewerTombstones(Clear(s1, s1.pending, whom, false).tombstones, 0, whom);
  }

  lemma ClearAgentKeepsGood(s: State, agentId: string, used: set<RequestId>)
    requires Good(s, used)
    ensures Good(AfterClearAgent(s, agentId), used)
  {
    var whom := Agent(agentId);
    ClearKeepsGood(s, s.pending, whom, true, used);
    FewerTombstones(Clear(s, s.pending, whom, true).tombstones, 0, whom);
  }

  lemma GoodStep(r: Run, e: Event)
    requires Good(r.state, r.used) && Possible(r, e)
    ensures Good(Observe(r, e).state, Observe(r, e).used)
  {
    match e.call
    case Register(request) => RegisterKeepsGood(r.state, request, e.now, r.used);
    case TimerFires(id) => DeleteKeepsGood(r.state, "", id, e.now, r.used);
    case Peek(_, _, _, _) => PrunedKeepsGood(r.state, e.now, r.used);
    case Consume(agentId, id, responseType, routeKey) =>
      ConsumeKeepsGood(r.state, agentId, id, responseType, routeKey, e.now, r.used);
    case ConsumeLegacy(reply) =>
      PrunedKeepsGood(r.state, e.now, r.used);
      SettleKeepsGood(Pruned(r.state, e.now), reply, r.used);
    case Delete(agentId, id) => DeleteKeepsGood(r.state, agentId, id, e.now, r.used);
    case RegisterOwner(_) =>
    case DeleteOwner(_) =>
    case ClearClient(clientId) => ClearClientKeepsGood(r.state, clientId, r.used);
    case ClearAgent(agentId) => ClearAgentKeepsGood(r.state, agentId, r.used);
  }

  lemma SettleKeepsGood(s: State, reply: LegacyReply, used: set<RequestId>)
    requires Good(s, used)
    ensures Good(Settle(s, reply, Attributed(s, reply)), used)
  {
    MatchingRequestsAre(s.pending, reply);
    match Attributed(s, reply)
    case Nobody =>
    case To(p) =>
      assert p in MatchingRequests(s.pending, reply);
      FinishKeepsGood(s, Take(s, p), p, Consumed, used);
    case InQuarantine(t) =>
      FewerTombstones(s.tombstones, t.request.requestId, Agent(""));
  }

  lemma {:induction false} RunKeepsGood(r: Run, es: seq<Event>)
    requires Good(r.state, r.used) && IsRun(r, es)
    ensures Good(RunFrom(r, es).state, RunFrom(r, es).used)
  {
    if es != [] {
      RunKeepsGood(r, es[..|es| - 1]);
      GoodStep(RunFrom(r, es[..|es| - 1]), es[|es| - 1]);
    }
  }

  // ---------------------------------------------------------------- tombstones are apart

  /** Tombstones have distinct ids, drawn before, of requests that are no longer pending. */
  ghost predicate Apart(s: State, used: set<RequestId>) {
    && DistinctTombstones(s.tombstones)
    && forall t :: t in s.tombstones ==> t.request.requestId in used && t.request.requestId !in Ids(s.pending)
  }

  ghost predicate DistinctTombstones(ts: seq<Tombstone>) {
    forall i, j :: 0 <= i < j < |ts| ==> ts[i].request.requestId != ts[j].request.requestId
  }

  /** Some of the tombstones, still distinct. */
  ghost predicate AreSome(some: seq<Tombstone>, ts: seq<Tombstone>) {
    DistinctTombstones(some) && forall t :: t in some ==> t in ts
  }

  lemma {:induction false} LiveAreSome(ts: seq<Tombstone>, now: int)
    requires DistinctTombstones(ts)
    ensures AreSome(LiveTombstones(ts, now), ts)
  {
    if ts != [] {
      LiveAreSome(ts[1..], now);
      ConsAreSome(ts, LiveTombstones(ts[1..], now));
    }
  }

  lemma {:induction false} WithoutAreSome(ts: seq<Tombstone>, id: RequestId)
    requires DistinctTombstones(ts)
    ensures AreSome(WithoutTombstone(ts, id), ts)
  {
    if ts != [] {
      WithoutAreSome(ts[1..], id);
      ConsAreSome(ts, WithoutTombstone(ts[1..], id));
    }
  }

  lemma {:induction false} KeptAreSome(ts: seq<Tombstone>, whom: Whom)
    requires DistinctTombstones(ts)
    ensures AreSome(KeepTombstones(ts, whom), ts)
  {
    if ts != [] {
      KeptAreSome(ts[1..], whom);
      ConsAreSome(ts, KeepTombstones(ts[1..], whom));
    }
  }

  lemma ConsAreSome(ts: seq<Tombstone>, rest: seq<Tombstone>)
    requires ts != [] && DistinctTombstones(ts) && AreSome(rest, ts[1..])
    ensures AreSome([] + rest, ts) && AreSome([ts[0]] + rest, ts)
  {
    assert [] + rest == rest;
    forall j | 0 <= j < |rest| ensures rest[j] in ts && rest[j].request.requestId != ts[0].request.requestId {
      assert rest[j] in ts[1..];
      var i :| 0 <= i < |ts[1..]| && ts[1..][i] == rest[j];
      assert ts[i + 1] == rest[j];
    }
    ConsStaysDistinct(ts[0], rest);
  }

  lemma ConsStaysDistinct(t: Tombstone, rest: seq<Tombstone>)
    requires DistinctTombstones(rest)
    requires forall j :: 0 <= j < |rest| ==> rest[j].request.requestId != t.request.requestId
    ensures DistinctTombstones([t] + rest)
  {
    var all := [t] + rest;
    forall i, j | 0 <= i < j < |all| ensures all[i].request.requestId != all[j].request.requestId {
      assert all[j] == rest[j - 1];
    }
  }

  lemma SomeStayApart(s: State, s': State, used: set<RequestId>)
    requires Apart(s, used) && AreSome(s'.tombstones, s.tombstones) && Ids(s'.pending) <= Ids(s.pending)
    ensures Apart(s', used)
  {
  }

  lemma ExpireKeepsApart(s: State, p: Request, now: int, used: set<RequestId>)
    requires Good(s, used) && Apart(s, used) && p in s.pending
    ensures Apart(Expire(s, p, now), used)
  {
    WithoutIs(s.pending, p.requestId);
    assert p.requestId in Ids(s.pending);
    if p.allowLegacy {
      LiveAreSome(s.tombstones, now);
      var live := LiveTombstones(s.tombstones, now);
      RoomAreSome(live);
      var kept := MakeRoom(live);
      forall t | t in kept ensures t.request.requestId != p.requestId {
        assert t in live && t in s.tombstones;
      }
      assert Expire(s, p, now).tombstones == kept + [Tombstone(p, now + REQUEST_TTL_MS)];
    }
  }

  lemma RoomAreSome(ts: seq<Tombstone>)
    requires DistinctTombstones(ts)
    ensures AreSome(MakeRoom(ts), ts)
  {
  }

  lemma {:induction false} ExpireDueKeepsApart(s: State, candidates: seq<Request>, now: int, used: set<RequestId>)
    requires Good(s, used) && Apart(s, used) && AreCandidates(s, candidates)
    ensures Apart(ExpireDue(s, candidates, now), used)
    decreases |candidates|
  {
    if candidates != [] {
      var s1 := if candidates[0].expiresAt > now then s else Expire(s, candidates[0], now);
      if candidates[0].expiresAt <= now {
        ExpireKeepsGood(s, candidates[0], now, used);
        ExpireKeepsApart(s, candidates[0], now, used);
      }
      CandidatesStay(s, candidates, s1.pending);
      ExpireDueKeepsApart(s1, candidates[1..], now, used);
    }
  }

  lemma PrunedKeepsApart(s: State, now: int, used: set<RequestId>)
    requires Good(s, used) && Apart(s, used)
    ensures Apart(Pruned(s, now), used)
  {
    var s1 := s.(tombstones := LiveTombstones(s.tombstones, now));
    LiveTombstonesAre(s.tombstones, now);
    LiveAreSome(s.tombstones, now);
    SomeStayApart(s, s1, used);
    ExpireDueKeepsApart(s1, s.pending, now, used);
  }

  lemma {:induction false} EvictKeepsApart(s: State, now: int, used: set<RequestId>)
    requires Good(s, used) && Apart(s, used)
    ensures Apart(EvictUntilRoom(s, now), used)
    decreases |s.pending|
  {
    if |s.pending| >= MAX_PENDING {
      ExpireKeepsGood(s, s.pending[0], now, used);
      ExpireKeepsApart(s, s.pending[0], now, used);
      WithoutShrinks(s.pending, s.pending[0].requestId);
      EvictKeepsApart(Expire(s, s.pending[0], now), now, used);
    }
  }

  lemma RegisterKeepsApart(s: State, r: Request, now: int, used: set<RequestId>)
    requires Good(s, used) && Apart(s, used) && r.requestId !in used
    ensures Apart(AfterRegister(s, r, now), used + {r.requestId})
  {
    if IsComplete(r) {
      PrunedKeepsGood(s, now, used);
      PrunedKeepsApart(s, now, used);
      EvictKeepsApart(Pruned(s, now), now, used);
      var s1 := EvictUntilRoom(Pruned(s, now), now);
      var pending := s1.pending + [r.(expiresAt := now + REQUEST_TTL_MS)];
      assert Ids(pending) == Ids(s1.pending) + {r.requestId};
    }
  }

  lemma {:induction false} ClearLeavesTombstones(s: State, candidates: seq<Request>, whom: Whom, notify: bool)
    requires DistinctIds(s.pending)
    ensures Clear(s, candidates, whom, notify).tombstones == s.tombstones
    ensures Ids(Clear(s, candidates, whom, notify).pending) <= Ids(s.pending)
    decreases |candidates|
  {
    if candidates != [] {
      var p := candidates[0];
      WithoutIs(s.pending, p.requestId);
      ClearLeavesTombstones(if Concerns(whom, p)
                            then s.(pending := Without(s.pending, p.requestId), owners := Released(s.owners, p),
                                    outcomes := s.outcomes + [Outcome(p.requestId, Cleared(notify && p.hasOnResponse))])
                            else s,
                            candidates[1..], whom, notify);
    }
  }

  lemma SettleKeepsApart(s: State, reply: LegacyReply, used: set<RequestId>)
    requires Good(s, used) && Apart(s, used)
    ensures Apart(Settle(s, reply, Attributed(s, reply)), used)
  {
    match Attributed(s, reply)
    case Nobody =>
    case To(p) =>
      WithoutIs(s.pending, p.requestId);
      SomeStayApart(s, Take(s, p), used);
    case InQuarantine(t) =>
      WithoutAreSome(s.tombstones, t.request.requestId);
  }

  lemma FewerStayApart(s: State, id: RequestId, used: set<RequestId>, s': State)
    requires Good(s, used) && Apart(s, used) && s'.tombstones == s.tombstones && s'.pending == Without(s.pending, id)
    ensures Apart(s', used)
  {
    WithoutIs(s.pending, id);
    SomeStayApart(s, s', used);
  }

  lemma ClearedStaysApart(s: State, s1: State, whom: Whom, notify: bool, used: set<RequestId>, s': State)
    requires Good(s, used) && Apart(s, used) && s1.pending == s.pending && s1.tombstones == s.tombstones
    requires var s2 := Clear(s1, s1.pending, whom, notify);
             s'.pending == s2.pending && s'.tombstones == KeepTombstones(s2.tombstones, whom)
    ensures Apart(s', used)
  {
    ClearLeavesTombstones(s1, s1.pending, whom, notify);
    KeptAreSome(s.tombstones, whom);
    SomeStayApart(s, s', used);
  }

  lemma ConsumeKeepsApart(s: State, agentId: string, id: RequestId, responseType: string, routeKey: string, now: int,
                          used: set<RequestId>)
    requires Good(s, used) && Apart(s, used)
    ensures Apart(AfterConsume(s, agentId, id, responseType, routeKey, now), used)
  {
    PrunedKeepsGood(s, now, used);
    PrunedKeepsApart(s, now, used);
    var found := Answered(Pruned(s, now), agentId, id, responseType, routeKey);
    if found.Some? {
      FewerStayApart(Pruned(s, now), found.value.requestId, used, Take(Pruned(s, now), found.value));
    }
  }

  lemma LegacyKeepsApart(s: State, reply: LegacyReply, now: int, used: set<RequestId>)
    requires Good(s, used) && Apart(s, used)
    ensures Apart(AfterLegacy(s, reply, now), used)
  {
    PrunedKeepsGood(s, now, used);
    PrunedKeepsApart(s, now, used);
    SettleKeepsApart(Pruned(s, now), reply, used);
  }

  lemma DeleteKeepsApart(s: State, agentId: string, id: RequestId, now: int, used: set<RequestId>)
    requires Good(s, used) && Apart(s, used)
    ensures Apart(AfterDelete(s, agentId, id), used) && Apart(AfterTimer(s, id, now), used)
  {
    FindIs(s.pending, agentId, id);
    if FindId(s.pending, id).Some? {
      ExpireKeepsApart(s, FindId(s.pending, id).value, now, used);
    }
    FewerStayApart(s, id, used, s.(pending := Without(s.pending, id)));
  }

  lemma ClearKeepsApart(s: State, call: Call, used: set<RequestId>)
    requires Good(s, used) && Apart(s, used) && (call.ClearClient? || call.ClearAgent?)
    ensures Apart(After(s, call, 0), used)
  {
    match call
    case ClearClient(clientId) =>
      if clientId != "" {
        var s2 := s.(owners := map k | k in s.owners && s.owners[k].clientId != clientId :: s.owners[k]);
        ClearedStaysApart(s, s2, Client(clientId), false, used, After(s, call, 0));
      }
    case ClearAgent(agentId) =>
      if agentId != "" {
        ClearedStaysApart(s, s, Agent(agentId), true, used, After(s, call, 0));
      }
  }

  lemma ApartStep(r: Run, e: Event)
    requires Good(r.state, r.used) && Apart(r.state, r.used) && Possible(r, e)
    ensures Apart(Observe(r, e).state, Observe(r, e).used)
  {
    match e.call
    case Register(request) => RegisterKeepsApart(r.state, request, e.now, r.used);
    case TimerFires(id) => DeleteKeepsApart(r.state, "", id, e.now, r.used);
    case Peek(_, _, _, _) => PrunedKeepsApart(r.state, e.now, r.used);
    case Consume(agentId, id, responseType, routeKey) =>
      ConsumeKeepsApart(r.state, agentId, id, responseType, routeKey, e.now, r.used);
    case ConsumeLegacy(reply) => LegacyKeepsApart(r.state, reply, e.now, r.used);
    case Delete(agentId, id) => DeleteKeepsApart(r.state, agentId, id, e.now, r.used);
    case RegisterOwner(_) =>
    case DeleteOwner(_) =>
    case ClearClient(_) => ClearKeepsApart(r.state, e.call, r.used);
    case ClearAgent(_) => ClearKeepsApart(r.state, e.call, r.used);
  }

  lemma {:induction false} RunKeepsApart(r: Run, es: seq<Event>)
    requires Good(r.state, r.used) && Apart(r.state, r.used) && IsRun(r, es)
    ensures Apart(RunFrom(r, es).state, RunFrom(r, es).used)
  {
    if es != [] {
      RunKeepsApart(r, es[..|es| - 1]);
      RunKeepsGood(r, es[..|es| - 1]);
      ApartStep(RunFrom(r, es[..|es| - 1]), es[|es| - 1]);
    }
  }

  // ---------------------------------------------------------------- main results

  function TimesEnded(outcomes: seq<Outcome>, id: RequestId): nat {
    if outcomes == [] then 0
    else TimesEnded(outcomes[..|outcomes| - 1], id) + if outcomes[|outcomes| - 1].requestId == id then 1 else 0
  }

  lemma {:induction false} DistinctEndOnce(outcomes: seq<Outcome>, id: RequestId)
    requires forall i, j :: 0 <= i < j < |outcomes| ==> outcomes[i].requestId != outcomes[j].requestId
    ensures TimesEnded(outcomes, id) <= 1
    ensures (forall o :: o in outcomes ==> o.requestId != id) ==> TimesEnded(outcomes, id) == 0
  {
    if outcomes != [] {
      DistinctEndOnce(outcomes[..|outcomes| - 1], id);
    }
  }

  /** In every run each request ends at most once, as consumed, expired, deleted or cleared, and not at all
      while it is pending; so its timeout callback is called at most once, and never after an answer.
      Neither table ever exceeds its cap. */
  lemma RequestsEndAtMostOnce(es: seq<Event>, id: RequestId)
    requires IsRun(START, es)
    ensures var s := RunFrom(START, es).state;
            && TimesEnded(s.outcomes, id) <= 1
            && (id in Ids(s.pending) ==> TimesEnded(s.outcomes, id) == 0)
            && |s.pending| <= MAX_PENDING && |s.tombstones| <= MAX_PENDING
  {
    RunKeepsGood(START, es);
    DistinctEndOnce(RunFrom(START, es).state.outcomes, id);
  }

  /** A legacy reply is attributed to a request if and only if no live tombstone matches it and the request
      is the only one still in time that does. */
  lemma AttributedExactlyIfUnique(s: State, used: set<RequestId>, reply: LegacyReply, now: int, p: Request)
    requires Good(s, used)
    ensures Attributed(Pruned(s, now), reply) == To(p)
       <==> && (forall t :: t in Pruned(s, now).tombstones ==> !Matches(t.request, reply))
            && p in s.pending && p.expiresAt > now && Matches(p, reply)
            && forall q :: q in s.pending && q.expiresAt > now && Matches(q, reply) ==> q == p
  {
    var s1 := Pruned(s, now);
    PrunedKeepsGood(s, now, used);
    MatchingTombstonesAre(s1.tombstones, reply);
    MatchingRequestsAre(s1.pending, reply);
    var ts, ps := MatchingTombstones(s1.tombstones, reply), MatchingRequests(s1.pending, reply);
    if ts != [] { assert ts[0] in ts; }
    if |ps| == 1 { assert forall q :: q in ps <==> q == ps[0]; }
    if p in ps && forall q :: q in ps ==> q == p {
      MatchesDistinct(s1.pending, reply);
      OnlyOne(ps, p);
    }
  }

  lemma OnlyOne(ps: seq<Request>, p: Request)
    requires DistinctIds(ps) && forall q :: q in ps ==> q == p
    ensures |ps| <= 1
  {
    if |ps| > 1 {
      Member(ps, 0);
      Member(ps, 1);
    }
  }

  lemma Member(ps: seq<Request>, k: nat)
    requires k < |ps|
    ensures ps[k] in ps
  {
  }

  lemma {:induction false} MatchesDistinct(ps: seq<Request>, reply: LegacyReply)
    requires DistinctIds(ps)
    ensures DistinctIds(MatchingRequests(ps, reply))
  {
    if ps != [] {
      MatchesDistinct(ps[1..], reply);
      MatchingRequestsAre(ps[1..], reply);
      var rest := MatchingRequests(ps[1..], reply);
      forall j | 0 <= j < |rest| ensures rest[j].requestId != ps[0].requestId {
        assert rest[j] in ps[1..];
      }
      assert Matches(ps[0], reply) ==> MatchingRequests(ps, reply) == [ps[0]] + rest;
      assert !Matches(ps[0], reply) ==> MatchingRequests(ps, reply) == rest;
    }
  }

  // ---------------------------------------------------------------- the quarantine

  /** `t` is among the tombstones, and it, those behind it and the pending requests, which may still be
      put behind it, are at most `room`. */
  ghost predicate Guarded(s: State, t: Tombstone, room: int) {
    HasGuard(s.tombstones, t, room - |s.pending|)
  }

  ghost predicate HasGuard(ts: seq<Tombstone>, t: Tombstone, behind: int) {
    exists i :: GuardedAt(ts, t, i, behind)
  }

  ghost predicate GuardedAt(ts: seq<Tombstone>, t: Tombstone, i: int, behind: int) {
    0 <= i < |ts| && ts[i] == t && |ts| - i <= behind
  }

  lemma {:induction false} LiveTombstoneKept(ts: seq<Tombstone>, t: Tombstone, i: int, behind: int, now: int)
    requires GuardedAt(ts, t, i, behind) && t.expiresAt > now
    ensures HasGuard(LiveTombstones(ts, now), t, behind)
  {
    LiveTombstonesAre(ts[1..], now);
    var rest := LiveTombstones(ts[1..], now);
    if i > 0 {
      LiveTombstoneKept(ts[1..], t, i - 1, behind, now);
      var j :| GuardedAt(rest, t, j, behind);
      assert GuardedAt(LiveTombstones(ts, now), t, if ts[0].expiresAt > now then j + 1 else j, behind);
    } else {
      assert GuardedAt(LiveTombstones(ts, now), t, 0, behind);
    }
  }

  lemma QuarantineKept(ts: seq<Tombstone>, t: Tombstone, behind: int, p: Request, now: int)
    requires HasGuard(ts, t, behind) && t.expiresAt > now && behind < MAX_PENDING
    ensures HasGuard(Quarantined(ts, p, now), t, behind + 1)
  {
    var i :| GuardedAt(ts, t, i, behind);
    if p.allowLegacy {
      LiveTombstoneKept(ts, t, i, behind, now);
      var live := LiveTombstones(ts, now);
      var j :| GuardedAt(live, t, j, behind);
      var dropped := |live| - |MakeRoom(live)|;
      assert GuardedAt(Quarantined(ts, p, now), t, j - dropped, behind + 1);
    } else {
      assert GuardedAt(Quarantined(ts, p, now), t, i, behind + 1);
    }
  }

  lemma ExpireGuards(s: State, t: Tombstone, room: int, p: Request, now: int, used: set<RequestId>)
    requires Good(s, used) && p in s.pending
    requires Guarded(s, t, room) && t.expiresAt > now && room <= MAX_PENDING
    ensures Guarded(Expire(s, p, now), t, room)
  {
    WithoutIs(s.pending, p.requestId);
    assert p.requestId in Ids(s.pending) && |s.pending| > 0;
    QuarantineKept(s.tombstones, t, room - |s.pending|, p, now);
  }

  lemma {:induction false} ExpireDueGuards(s: State, candidates: seq<Request>, t: Tombstone, room: int, now: int,
                                           used: set<RequestId>)
    requires Good(s, used) && AreCandidates(s, candidates)
    requires Guarded(s, t, room) && t.expiresAt > now && room <= MAX_PENDING
    ensures Guarded(ExpireDue(s, candidates, now), t, room)
    decreases |candidates|
  {
    if candidates != [] {
      var s1 := if candidates[0].expiresAt > now then s else Expire(s, candidates[0], now);
      if candidates[0].expiresAt <= now {
        ExpireKeepsGood(s, candidates[0], now, used);
        ExpireGuards(s, t, room, candidates[0], now, used);
      }
      CandidatesStay(s, candidates, s1.pending);
      ExpireDueGuards(s1, candidates[1..], t, room, now, used);
    }
  }

  lemma PrunedGuards(s: State, t: Tombstone, room: int, now: int, used: set<RequestId>)
    requires Good(s, used) && Guarded(s, t, room) && t.expiresAt > now && room <= MAX_PENDING
    ensures Guarded(Pruned(s, now), t, room)
  {
    var i :| GuardedAt(s.tombstones, t, i, room - |s.pending|);
    LiveTombstoneKept(s.tombstones, t, i, room - |s.pending|, now);
    LiveTombstonesAre(s.tombstones, now);
    ExpireDueGuards(s.(tombstones := LiveTombstones(s.tombstones, now)), s.pending, t, room, now, used);
  }

  /** A request past its deadline whose timer has not fired yet is put into quarantine by the reply itself:
      a reply that matches it is attributed to nobody, however many other requests expire with it. */
  lemma OverdueReplyIsQuarantined(s: State, used: set<RequestId>, reply: LegacyReply, now: int, q: Request)
    requires Good(s, used) && q in s.pending && q.allowLegacy && q.expiresAt <= now && Matches(q, reply)
    ensures Attributed(Pruned(s, now), reply).InQuarantine?
  {
    LiveTombstonesAre(s.tombstones, now);
    ExpireDueQuarantines(s.(tombstones := LiveTombstones(s.tombstones, now)), s.pending, now, used, q);
    var t := Tombstone(q, now + REQUEST_TTL_MS);
    MatchingTombstonesAre(Pruned(s, now).tombstones, reply);
    assert t in Pruned(s, now).tombstones;
    assert t in MatchingTombstones(Pruned(s, now).tombstones, reply);
  }

  lemma {:induction false} ExpireDueQuarantines(s: State, candidates: seq<Request>, now: int, used: set<RequestId>,
                                                q: Request)
    requires Good(s, used) && AreCandidates(s, candidates)
    requires q in candidates && q.allowLegacy && q.expiresAt <= now
    ensures Tombstone(q, now + REQUEST_TTL_MS) in ExpireDue(s, candidates, now).tombstones
    decreases |candidates|
  {
    var p := candidates[0];
    var s1 := if p.expiresAt > now then s else Expire(s, p, now);
    if p.expiresAt <= now {
      ExpireKeepsGood(s, p, now, used);
      WithoutIs(s.pending, p.requestId);
      assert p.requestId in Ids(s.pending);
    }
    CandidatesStay(s, candidates, s1.pending);
    if p == q {
      var t := Tombstone(q, now + REQUEST_TTL_MS);
      assert GuardedAt(s1.tombstones, t, |s1.tombstones| - 1, MAX_PENDING - |s1.pending|);
      ExpireDueGuards(s1, candidates[1..], t, MAX_PENDING, now, used);
    } else {
      ExpireDueQuarantines(s1, candidates[1..], now, used, q);
    }
  }

  /** The call does not end the quarantine of `t` early: it is no matching reply with a public id, and it does
      not clear the client or the agent. */
  predicate Spares(call: Call, t: Tombstone) {
    match call
    case ConsumeLegacy(reply) => reply.publicRequestId == "" || !Matches(t.request, reply)
    case ClearClient(clientId) => clientId != t.request.clientId
    case ClearAgent(agentId) => agentId != t.request.agentId
    case _ => true
  }

  /** The events come while `t` lives, and do not end its quarantine. */
  ghost predicate AllSpare(es: seq<Event>, t: Tombstone) {
    forall i :: 0 <= i < |es| ==> t.expiresAt > es[i].now && Spares(es[i].call, t)
  }

  lemma FewerPendingGuards(s: State, s': State, t: Tombstone, room: int)
    requires Guarded(s, t, room) && s'.tombstones == s.tombstones && |s'.pending| <= |s.pending|
    ensures Guarded(s', t, room)
  {
    var i :| GuardedAt(s.tombstones, t, i, room - |s.pending|);
    assert GuardedAt(s'.tombstones, t, i, room - |s'.pending|);
  }

  lemma {:induction false} ClearGuards(s: State, candidates: seq<Request>, whom: Whom, notify: bool)
    requires DistinctIds(s.pending)
    ensures Clear(s, candidates, whom, notify).tombstones == s.tombstones
    ensures |Clear(s, candidates, whom, notify).pending| <= |s.pending|
    ensures DistinctIds(Clear(s, candidates, whom, notify).pending)
    decreases |candidates|
  {
    if candidates != [] {
      var p := candidates[0];
      WithoutIs(s.pending, p.requestId);
      ClearGuards(if Concerns(whom, p)
                  then s.(pending := Without(s.pending, p.requestId), owners := Released(s.owners, p),
                          outcomes := s.outcomes + [Outcome(p.requestId, Cleared(notify && p.hasOnResponse))])
                  else s,
                  candidates[1..], whom, notify);
    }
  }

  lemma {:induction false} KeepGuards(ts: seq<Tombstone>, whom: Whom, t: Tombstone, i: int, behind: int)
    requires GuardedAt(ts, t, i, behind) && !Concerns(whom, t.request)
    ensures HasGuard(KeepTombstones(ts, whom), t, behind)
  {
    FewerTombstones(ts[1..], 0, whom);
    var rest := KeepTombstones(ts[1..], whom);
    if i > 0 {
      KeepGuards(ts[1..], whom, t, i - 1, behind);
      var j :| GuardedAt(rest, t, j, behind);
      assert GuardedAt(KeepTombstones(ts, whom), t, if Concerns(whom, ts[0].request) then j else j + 1, behind);
    } else {
      assert GuardedAt(KeepTombstones(ts, whom), t, 0, behind);
    }
  }

  lemma ClearedGuards(s: State, s1: State, whom: Whom, notify: bool, t: Tombstone, room: int)
    requires DistinctIds(s.pending) && Guarded(s, t, room) && !Concerns(whom, t.request)
    requires s1.pending == s.pending && s1.tombstones == s.tombstones
    ensures var s2 := Clear(s1, s1.pending, whom, notify);
            HasGuard(KeepTombstones(s2.tombstones, whom), t, room - |s2.pending|)
  {
    ClearGuards(s1, s1.pending, whom, notify);
    var s2 := Clear(s1, s1.pending, whom, notify);
    FewerPendingGuards(s, s2, t, room);
    var i :| GuardedAt(s2.tombstones, t, i, room - |s2.pending|);
    KeepGuards(s2.tombstones, whom, t, i, room - |s2.pending|);
  }

  lemma {:induction false} RetireGuards(ts: seq<Tombstone>, id: RequestId, t: Tombstone, i: int, behind: int)
    requires GuardedAt(ts, t, i, behind) && t.request.requestId != id
    ensures HasGuard(WithoutTombstone(ts, id), t, behind)
  {
    var rest := WithoutTombstone(ts[1..], id);
    FewerTombstones(ts[1..], id, Agent(""));
    if i > 0 {
      RetireGuards(ts[1..], id, t, i - 1, behind);
      var j :| GuardedAt(rest, t, j, behind);
      assert GuardedAt(WithoutTombstone(ts, id), t, if ts[0].request.requestId == id then j else j + 1, behind);
    } else {
      assert GuardedAt(WithoutTombstone(ts, id), t, 0, behind);
    }
  }

  /** A legacy reply leaves `t` where it is, unless it retires it. */
  lemma SettleGuards(s: State, used: set<RequestId>, reply: LegacyReply, t: Tombstone, room: int)
    requires Good(s, used) && Apart(s, used) && Guarded(s, t, room)
    requires reply.publicRequestId == "" || !Matches(t.request, reply)
    ensures Guarded(Settle(s, reply, Attributed(s, reply)), t, room)
  {
    match Attributed(s, reply)
    case Nobody =>
    case To(p) =>
      WithoutIs(s.pending, p.requestId);
      FewerPendingGuards(s, Take(s, p), t, room);
    case InQuarantine(t0) =>
      if reply.publicRequestId != "" {
        var i :| GuardedAt(s.tombstones, t, i, room - |s.pending|);
        MatchingTombstonesAre(s.tombstones, reply);
        assert t0 in MatchingTombstones(s.tombstones, reply) && t0 in s.tombstones;
        var j :| 0 <= j < |s.tombstones| && s.tombstones[j] == t0;
        assert i != j;
        RetireGuards(s.tombstones, t0.request.requestId, t, i, room - |s.pending|);
      }
  }

  function Grown(room: int, call: Call): int {
    if call.Register? then room + 1 else room
  }

  lemma RegisterGuards(r: Run, request: Request, now: int, t: Tombstone, room: int)
    requires Good(r.state, r.used) && Guarded(r.state, t, room) && t.expiresAt > now && room < MAX_PENDING
    ensures Guarded(AfterRegister(r.state, request, now), t, room + 1)
  {
    if IsComplete(request) {
      PrunedKeepsGood(r.state, now, r.used);
      PrunedGuards(r.state, t, room, now, r.used);
      var s1 := Pruned(r.state, now);
      assert |s1.pending| < MAX_PENDING;
      assert EvictUntilRoom(s1, now) == s1;
    } else {
      var i :| GuardedAt(r.state.tombstones, t, i, room - |r.state.pending|);
      assert GuardedAt(r.state.tombstones, t, i, room + 1 - |r.state.pending|);
    }
  }

  lemma GuardedStep(r: Run, e: Event, t: Tombstone, room: int)
    requires Good(r.state, r.used) && Apart(r.state, r.used) && Possible(r, e)
    requires Guarded(r.state, t, room) && t.expiresAt > e.now && Grown(room, e.call) <= MAX_PENDING && Spares(e.call, t)
    ensures Guarded(Observe(r, e).state, t, Grown(room, e.call))
  {
    var s, now, used := r.state, e.now, r.used;
    PrunedGuards(s, t, room, now, used);
    PrunedKeepsGood(s, now, used);
    var s1 := Pruned(s, now);
    match e.call
    case Register(request) => RegisterGuards(r, request, now, t, room);
    case TimerFires(id) =>
      FindIs(s.pending, "", id);
      if FindId(s.pending, id).Some? {
        ExpireGuards(s, t, room, FindId(s.pending, id).value, now, used);
      }
    case Peek(_, _, _, _) =>
    case Consume(agentId, id, responseType, routeKey) =>
      var found := Answered(s1, agentId, id, responseType, routeKey);
      if found.Some? {
        WithoutIs(s1.pending, found.value.requestId);
        FewerPendingGuards(s1, Take(s1, found.value), t, room);
      }
    case ConsumeLegacy(reply) =>
      PrunedKeepsApart(s, now, used);
      SettleGuards(s1, used, reply, t, room);
    case Delete(agentId, id) =>
      if Find(s.pending, agentId, id).Some? {
        WithoutIs(s.pending, Find(s.pending, agentId, id).value.requestId);
        FewerPendingGuards(s, AfterDelete(s, agentId, id), t, room);
      }
    case RegisterOwner(_) =>
    case DeleteOwner(_) =>
    case ClearClient(clientId) =>
      var s2 := s.(owners := map k | k in s.owners && s.owners[k].clientId != clientId :: s.owners[k]);
      ClearedGuards(s, s2, Client(clientId), false, t, room);
    case ClearAgent(agentId) =>
      ClearedGuards(s, s, Agent(agentId), true, t, room);
  }

  function Registrations(es: seq<Event>): nat {
    if es == [] then 0
    else Registrations(es[..|es| - 1]) + if es[|es| - 1].call.Register? then 1 else 0
  }

  /** All that a run keeps of a tombstone's quarantine. */
  ghost predicate Guards(r: Run, t: Tombstone, room: int) {
    Good(r.state, r.used) && Apart(r.state, r.used) && Guarded(r.state, t, room)
  }

  lemma GuardsStep(r: Run, e: Event, t: Tombstone, room: int)
    requires Guards(r, t, room) && Possible(r, e)
    requires t.expiresAt > e.now && Grown(room, e.call) <= MAX_PENDING && Spares(e.call, t)
    ensures Guards(Observe(r, e), t, Grown(room, e.call))
  {
    GoodStep(r, e);
    ApartStep(r, e);
    GuardedStep(r, e, t, room);
  }

  lemma {:induction false} GuardedThroughout(r: Run, es: seq<Event>, t: Tombstone, room: int)
    requires Guards(r, t, room) && IsRun(r, es)
    requires room + Registrations(es) <= MAX_PENDING
    requires AllSpare(es, t)
    ensures Guards(RunFrom(r, es), t, room + Registrations(es))
  {
    if es != [] {
      var before, e := es[..|es| - 1], es[|es| - 1];
      assert AllSpare(before, t);
      GuardedThroughout(r, before, t, room);
      GuardsStep(RunFrom(r, before), e, t, room + Registrations(before));
    }
  }

  lemma GuardedQuarantines(s: State, used: set<RequestId>, t: Tombstone, room: int, reply: LegacyReply, now: int)
    requires Good(s, used) && Guarded(s, t, room) && room <= MAX_PENDING
    requires t.expiresAt > now && Matches(t.request, reply)
    ensures Attributed(Pruned(s, now), reply).InQuarantine?
  {
    PrunedGuards(s, t, room, now, used);
    var s1 := Pruned(s, now);
    var i :| GuardedAt(s1.tombstones, t, i, room - |s1.pending|);
    MatchingTombstonesAre(s1.tombstones, reply);
    assert t in MatchingTombstones(s1.tombstones, reply);
  }

  /** In every run that starts from a state with tombstone `t` and stays within its time to live, does not
      end its quarantine early and does not fill the tables: an identity-less reply that matches the expired
      request is attributed to no request, whatever newer requests it would also match. */
  lemma QuarantineHolds(r: Run, es: seq<Event>, t: Tombstone, room: int, reply: LegacyReply, now: int)
    requires Good(r.state, r.used) && Apart(r.state, r.used) && IsRun(r, es) && Guarded(r.state, t, room)
    requires room + Registrations(es) <= MAX_PENDING
    requires AllSpare(es, t)
    requires t.expiresAt > now && Matches(t.request, reply)
    ensures Attributed(Pruned(RunFrom(r, es).state, now), reply).InQuarantine?
  {
    GuardedThroughout(r, es, t, room);
    GuardedQuarantines(RunFrom(r, es).state, RunFrom(r, es).used, t, room + Registrations(es), reply, now);
  }

  lemma TimerExpires(s: State, used: set<RequestId>, p: Request, now: int)
    requires Good(s, used) && p in s.pending && p.allowLegacy
    ensures AfterTimer(s, p.requestId, now) == Expire(s, p, now)
    ensures Guarded(Expire(s, p, now), Tombstone(p, now + REQUEST_TTL_MS), |s.pending|)
  {
    FindFinds(s.pending, p);
    WithoutIs(s.pending, p.requestId);
    assert p.requestId in Ids(s.pending);
    var s' := Expire(s, p, now);
    assert GuardedAt(s'.tombstones, Tombstone(p, now + REQUEST_TTL_MS), |s'.tombstones| - 1, |s.pending| - |s'.pending|);
  }

  lemma {:induction false} FindFinds(ps: seq<Request>, p: Request)
    requires DistinctIds(ps) && p in ps
    ensures FindId(ps, p.requestId) == Some(p)
  {
    if ps[0].requestId == p.requestId {
      SameIdSame(ps, p);
    } else {
      FindFinds(ps[1..], p);
    }
  }

  /** From the moment its timer fires until its tombstone's time is over, no identity-less reply that matches a
      request is attributed to a newer one, in any run that neither retires the tombstone nor registers so many
      requests that the tables fill up. */
  lemma ExpiredRequestStaysQuarantined(es: seq<Event>, p: Request, firedAt: int, more: seq<Event>, reply: LegacyReply,
                                       now: int)
    requires IsRun(START, es) && p in RunFrom(START, es).state.pending && p.allowLegacy && Matches(p, reply)
    requires IsRun(Observe(RunFrom(START, es), Event(TimerFires(p.requestId), firedAt)), more)
    requires |RunFrom(START, es).state.pending| + Registrations(more) <= MAX_PENDING
    requires AllSpare(more, Tombstone(p, firedAt + REQUEST_TTL_MS)) && now < firedAt + REQUEST_TTL_MS
    ensures var r := RunFrom(Observe(RunFrom(START, es), Event(TimerFires(p.requestId), firedAt)), more);
            Attributed(Pruned(r.state, now), reply).InQuarantine?
  {
    var r, e := RunFrom(START, es), Event(TimerFires(p.requestId), firedAt);
    RunKeepsGood(START, es);
    RunKeepsApart(START, es);
    GoodStep(r, e);
    ApartStep(r, e);
    TimerExpires(r.state, r.used, p, firedAt);
    QuarantineHolds(Observe(r, e), more, Tombstone(p, firedAt + REQUEST_TTL_MS), |r.state.pending|, reply, now);
  }

  // ---------------------------------------------------------------- terminal owners

  /** The call may change the owner entry: its own owner reserves it again, or it is deleted or cleared. */
  predicate Addresses(call: Call, key: TerminalKey, o: TerminalOwner) {
    match call
    case RegisterOwner(o') =>
      TerminalKey(o'.agentId, o'.terminalId) == key && IsOwnerComplete(o') && SameIdentity(o, o')
    case DeleteOwner(key') => key' == key
    case ClearClient(clientId) => clientId == o.clientId
    case ClearAgent(agentId) => agentId == o.agentId
    case _ => false
  }

  /** The entry stands, and the request that reserved it is no longer pending. */
  ghost predicate Settled(s: State, key: TerminalKey, o: TerminalOwner) {
    && key in s.owners && s.owners[key] == o
    && (o.pendingRequestId.Some? ==> forall p :: p in s.pending ==> p.requestId != o.pendingRequestId.value)
  }

  lemma SettledAfterExpire(s: State, p: Request, now: int, key: TerminalKey, o: TerminalOwner)
    requires Settled(s, key, o) && p in s.pending
    ensures Settled(Expire(s, p, now), key, o)
  {
    WithoutMembers(s.pending, p.requestId);
  }

  lemma {:induction false} ExpireDueKeepsOwner(s: State, candidates: seq<Request>, now: int, key: TerminalKey,
                                               o: TerminalOwner, used: set<RequestId>)
    requires Good(s, used) && AreCandidates(s, candidates) && Settled(s, key, o)
    ensures Settled(ExpireDue(s, candidates, now), key, o)
    decreases |candidates|
  {
    if candidates != [] {
      var s1 := if candidates[0].expiresAt > now then s else Expire(s, candidates[0], now);
      if candidates[0].expiresAt <= now {
        ExpireKeepsGood(s, candidates[0], now, used);
        SettledAfterExpire(s, candidates[0], now, key, o);
      }
      CandidatesStay(s, candidates, s1.pending);
      ExpireDueKeepsOwner(s1, candidates[1..], now, key, o, used);
    }
  }

  lemma {:induction false} EvictKeepsOwner(s: State, now: int, key: TerminalKey, o: TerminalOwner)
    requires Settled(s, key, o)
    ensures Settled(EvictUntilRoom(s, now), key, o)
    decreases |s.pending|
  {
    if |s.pending| >= MAX_PENDING {
      SettledAfterExpire(s, s.pending[0], now, key, o);
      WithoutShrinks(s.pending, s.pending[0].requestId);
      EvictKeepsOwner(Expire(s, s.pending[0], now), now, key, o);
    }
  }

  lemma {:induction false} ClearKeepsOwner(s: State, candidates: seq<Request>, whom: Whom, notify: bool,
                                           key: TerminalKey, o: TerminalOwner, used: set<RequestId>)
    requires Good(s, used) && AreCandidates(s, candidates) && Settled(s, key, o)
    ensures Settled(Clear(s, candidates, whom, notify), key, o)
    decreases |candidates|
  {
    if candidates != [] {
      var p := candidates[0];
      var s1 := if Concerns(whom, p)
                then s.(pending := Without(s.pending, p.requestId), owners := Released(s.owners, p),
                        outcomes := s.outcomes + [Outcome(p.requestId, Cleared(notify && p.hasOnResponse))])
                else s;
      WithoutMembers(s.pending, p.requestId);
      if Concerns(whom, p) {
        FinishKeepsGood(s, s1, p, Cleared(notify && p.hasOnResponse), used);
      }
      CandidatesStay(s, candidates, s1.pending);
      ClearKeepsOwner(s1, candidates[1..], whom, notify, key, o, used);
    }
  }

  lemma PrunedKeepsOwner(s: State, now: int, key: TerminalKey, o: TerminalOwner, used: set<RequestId>)
    requires Good(s, used) && Settled(s, key, o)
    ensures Settled(Pruned(s, now), key, o)
  {
    LiveTombstonesAre(s.tombstones, now);
    ExpireDueKeepsOwner(s.(tombstones := LiveTombstones(s.tombstones, now)), s.pending, now, key, o, used);
  }

  /** A request that is taken out without touching the owners. */
  lemma TakenKeepsOwner(s: State, id: RequestId, s': State, key: TerminalKey, o: TerminalOwner)
    requires Settled(s, key, o) && s'.pending == Without(s.pending, id) && s'.owners == s.owners
    ensures Settled(s', key, o)
  {
    WithoutMembers(s.pending, id);
  }

  lemma DeleteKeepsOwner(s: State, agentId: string, id: RequestId, key: TerminalKey, o: TerminalOwner)
    requires Settled(s, key, o)
    ensures Settled(AfterDelete(s, agentId, id), key, o)
  {
    FindIs(s.pending, agentId, id);
    WithoutMembers(s.pending, id);
  }

  lemma RegisterOwnerKeepsOwner(s: State, o': TerminalOwner, key: TerminalKey, o: TerminalOwner)
    requires Settled(s, key, o) && !Addresses(RegisterOwner(o'), key, o)
    ensures Settled(AfterRegisterOwner(s, o'), key, o)
  {
  }

  lemma ClearedKeepsOwner(s: State, call: Call, key: TerminalKey, o: TerminalOwner, used: set<RequestId>)
    requires Good(s, used) && Settled(s, key, o) && o.agentId == key.agentId
    requires (call.ClearClient? || call.ClearAgent?) && !Addresses(call, key, o)
    ensures Settled(After(s, call, 0), key, o)
  {
    match call
    case ClearClient(clientId) =>
      var s2 := s.(owners := map k | k in s.owners && s.owners[k].clientId != clientId :: s.owners[k]);
      ClearKeepsOwner(s2, s2.pending, Client(clientId), false, key, o, used);
    case ClearAgent(agentId) =>
      ClearKeepsOwner(s, s.pending, Agent(agentId), true, key, o, used);
  }

  lemma SettledStep(r: Run, e: Event, key: TerminalKey, o: TerminalOwner)
    requires Good(r.state, r.used) && Possible(r, e) && Settled(r.state, key, o)
    requires o.pendingRequestId.Some? ==> o.pendingRequestId.value in r.used
    requires o.agentId == key.agentId && !Addresses(e.call, key, o)
    ensures Settled(Observe(r, e).state, key, o)
  {
    var s, now, used := r.state, e.now, r.used;
    PrunedKeepsOwner(s, now, key, o, used);
    var s1 := Pruned(s, now);
    match e.call
    case Register(request) =>
      EvictKeepsOwner(s1, now, key, o);
    case TimerFires(id) =>
      FindIs(s.pending, "", id);
      if FindId(s.pending, id).Some? {
        SettledAfterExpire(s, FindId(s.pending, id).value, now, key, o);
      }
    case Peek(_, _, _, _) =>
    case Consume(agentId, id, responseType, routeKey) =>
      var found := Answered(s1, agentId, id, responseType, routeKey);
      if found.Some? {
        TakenKeepsOwner(s1, found.value.requestId, Take(s1, found.value), key, o);
      }
    case ConsumeLegacy(reply) =>
      if Attributed(s1, reply).To? {
        var p := Attributed(s1, reply).request;
        TakenKeepsOwner(s1, p.requestId, Take(s1, p), key, o);
      }
    case Delete(agentId, id) => DeleteKeepsOwner(s, agentId, id, key, o);
    case RegisterOwner(o') => RegisterOwnerKeepsOwner(s, o', key, o);
    case DeleteOwner(_) =>
    case ClearClient(_) => ClearedKeepsOwner(s, e.call, key, o, used);
    case ClearAgent(_) => ClearedKeepsOwner(s, e.call, key, o, used);
  }

  /** Once the request that reserved a terminal is answered, the owner entry stands unchanged through every
      run, whatever other requests expire, are deleted or cleared and whoever else tries to reserve the terminal,
      until its owner reserves it again, or it is deleted, or its client or agent is cleared. */
  lemma {:induction false} OwnerSurvives(r: Run, es: seq<Event>, key: TerminalKey, o: TerminalOwner)
    requires Good(r.state, r.used) && IsRun(r, es) && Settled(r.state, key, o)
    requires o.pendingRequestId.Some? ==> o.pendingRequestId.value in r.used
    requires o.agentId == key.agentId
    requires forall e :: e in es ==> !Addresses(e.call, key, o)
    ensures Settled(RunFrom(r, es).state, key, o)
    ensures r.used <= RunFrom(r, es).used
  {
    if es != [] {
      OwnerSurvives(r, es[..|es| - 1], key, o);
      RunKeepsGood(r, es[..|es| - 1]);
      SettledStep(RunFrom(r, es[..|es| - 1]), es[|es| - 1], key, o);
    }
  }

  lemma {:induction false} ExpireDueOnlyReleases(s: State, candidates: seq<Request>, now: int, key: TerminalKey)
    requires key in ExpireDue(s, candidates, now).owners
    ensures key in s.owners && ExpireDue(s, candidates, now).owners[key] == s.owners[key]
    decreases |candidates|
  {
    if candidates != [] {
      ExpireDueOnlyReleases(if candidates[0].expiresAt > now then s else Expire(s, candidates[0], now),
                            candidates[1..], now, key);
    }
  }

  lemma {:induction false} EvictOnlyReleases(s: State, now: int, key: TerminalKey)
    requires key in EvictUntilRoom(s, now).owners
    ensures key in s.owners && EvictUntilRoom(s, now).owners[key] == s.owners[key]
    decreases |s.pending|
  {
    if |s.pending| >= MAX_PENDING {
      WithoutShrinks(s.pending, s.pending[0].requestId);
      EvictOnlyReleases(Expire(s, s.pending[0], now), now, key);
    }
  }

  lemma {:induction false} ClearOnlyReleases(s: State, candidates: seq<Request>, whom: Whom, notify: bool, key: TerminalKey)
    requires key in Clear(s, candidates, whom, notify).owners
    ensures key in s.owners && Clear(s, candidates, whom, notify).owners[key] == s.owners[key]
    decreases |candidates|
  {
    if candidates != [] {
      var p := candidates[0];
      ClearOnlyReleases(if Concerns(whom, p)
                        then s.(pending := Without(s.pending, p.requestId), owners := Released(s.owners, p),
                                outcomes := s.outcomes + [Outcome(p.requestId, Cleared(notify && p.hasOnResponse))])
                        else s,
                        candidates[1..], whom, notify, key);
    }
  }

  /** The entry, if it is still there, is the same. */
  ghost predicate OnlyReleases(s: State, s': State, key: TerminalKey) {
    key in s'.owners ==> key in s.owners && s'.owners[key] == s.owners[key]
  }

  lemma PrunedOnlyReleases(s: State, now: int, key: TerminalKey)
    ensures OnlyReleases(s, Pruned(s, now), key)
  {
    if key in Pruned(s, now).owners {
      ExpireDueOnlyReleases(s.(tombstones := LiveTombstones(s.tombstones, now)), s.pending, now, key);
    }
  }

  lemma RegisterOnlyReleases(s: State, request: Request, now: int, key: TerminalKey)
    ensures OnlyReleases(s, AfterRegister(s, request, now), key)
  {
    if IsComplete(request) && key in AfterRegister(s, request, now).owners {
      EvictOnlyReleases(Pruned(s, now), now, key);
      PrunedOnlyReleases(s, now, key);
    }
  }

  lemma ClearedOnlyReleases(s: State, call: Call, key: TerminalKey)
    requires call.ClearClient? || call.ClearAgent?
    ensures OnlyReleases(s, After(s, call, 0), key)
  {
    if key in After(s, call, 0).owners {
      match call
      case ClearClient(clientId) =>
        if clientId != "" {
          var s1 := s.(owners := map k | k in s.owners && s.owners[k].clientId != clientId :: s.owners[k]);
          ClearOnlyReleases(s1, s1.pending, Client(clientId), false, key);
        }
      case ClearAgent(agentId) =>
        if agentId != "" {
          ClearOnlyReleases(s, s.pending, Agent(agentId), true, key);
        }
    }
  }

  lemma AnswersOnlyRelease(s: State, call: Call, now: int, key: TerminalKey)
    requires call.Peek? || call.Consume? || call.ConsumeLegacy?
    ensures OnlyReleases(s, After(s, call, now), key)
  {
    PrunedOnlyReleases(s, now, key);
  }

  lemma DeletionsOnlyRelease(s: State, call: Call, now: int, key: TerminalKey)
    requires call.TimerFires? || call.Delete? || call.DeleteOwner?
    ensures OnlyReleases(s, After(s, call, now), key)
  {
  }

  /** No call changes whom an owner entry names: an id changes hands only after its entry was deleted. */
  lemma OwnerIdentityIsFixed(s: State, call: Call, now: int, key: TerminalKey)
    requires key in s.owners && key in After(s, call, now).owners
    ensures SameIdentity(s.owners[key], After(s, call, now).owners[key])
    ensures !call.RegisterOwner? ==> After(s, call, now).owners[key] == s.owners[key]
  {
    if call.RegisterOwner? {
    } else if call.Register? {
      RegisterOnlyReleases(s, call.request, now, key);
    } else if call.ClearClient? || call.ClearAgent? {
      ClearedOnlyReleases(s, call, key);
    } else if call.Peek? || call.Consume? || call.ConsumeLegacy? {
      AnswersOnlyRelease(s, call, now, key);
    } else {
      DeletionsOnlyRelease(s, call, now, key);
    }
  }

  // ---------------------------------------------------------------- what a call does to each request

  /** The reply names the agent and the id of a request in time, is of a type it expects, and names its route if any. */
  predicate Answers(p: Request, agentId: string, id: RequestId, responseType: string, routeKey: string, now: int) {
    && p.expiresAt > now && p.agentId == agentId && p.requestId == id
    && responseType in p.expected && routeKey in {"", p.routeKey}
  }

  /** A reply with an identity answers a request exactly if it is pending and the reply is one to it. */
  lemma IdentifiedReplyAnswers(s: State, used: set<RequestId>, agentId: string, id: RequestId, responseType: string,
                               routeKey: string, now: int, p: Request)
    requires Good(s, used)
    ensures Answered(Pruned(s, now), agentId, id, responseType, routeKey) == Some(p)
       <==> p in s.pending && Answers(p, agentId, id, responseType, routeKey, now)
  {
    PrunedKeepsGood(s, now, used);
    var s1 := Pruned(s, now);
    FindIs(s1.pending, agentId, id);
    if p in s1.pending && p.requestId == id {
      SameIdSame(s1.pending, p);
    }
  }

  /** Pruning ends exactly the overdue requests; the only new tombstones are theirs. */
  lemma PruningEndsOverdue(s: State, used: set<RequestId>, now: int)
    requires Good(s, used)
    ensures forall p :: p in Pruned(s, now).pending <==> p in s.pending && p.expiresAt > now
    ensures forall o :: o in Pruned(s, now).outcomes <==>
              o in s.outcomes || exists p :: p in s.pending && p.expiresAt <= now && o == Outcome(p.requestId, Expired)
    ensures forall t :: t in Pruned(s, now).tombstones ==>
              || (t in s.tombstones && t.expiresAt > now)
              || (t.request in s.pending && t.request.expiresAt <= now && t.request.allowLegacy
                  && t.expiresAt == now + 120_000)
  {
    PrunedKeepsGood(s, now, used);
    LiveTombstonesAre(s.tombstones, now);
    ExpireDueEnds(s.(tombstones := LiveTombstones(s.tombstones, now)), s.pending, now);
  }

  lemma {:induction false} ExpireDueEnds(s: State, candidates: seq<Request>, now: int)
    ensures forall o :: o in ExpireDue(s, candidates, now).outcomes <==>
              o in s.outcomes || exists p :: p in candidates && p.expiresAt <= now && o == Outcome(p.requestId, Expired)
    ensures forall t :: t in ExpireDue(s, candidates, now).tombstones ==>
              t in s.tombstones
              || (t.request in candidates && t.request.expiresAt <= now && t.request.allowLegacy
                  && t.expiresAt == now + 120_000)
    decreases |candidates|
  {
    if candidates != [] {
      var p := candidates[0];
      var s1 := if p.expiresAt > now then s else Expire(s, p, now);
      LiveTombstonesAre(s.tombstones, now);
      ExpireDueEnds(s1, candidates[1..], now);
      assert forall q :: q in candidates <==> q == p || q in candidates[1..];
    }
  }

  /** Consuming takes out the answered request and records it as consumed, and nothing but that and the pruning
      happens; without one nothing but the pruning. */
  lemma ConsumeTakesExactly(s: State, used: set<RequestId>, agentId: string, id: RequestId, responseType: string,
                            routeKey: string, now: int)
    requires Good(s, used) && agentId != "" && responseType != ""
    ensures var s' := AfterConsume(s, agentId, id, responseType, routeKey, now);
            && (forall p :: p in s'.pending <==>
                  p in s.pending && p.expiresAt > now && !Answers(p, agentId, id, responseType, routeKey, now))
            && (forall p :: p in s.pending ==>
                  (Outcome(p.requestId, Consumed) in s'.outcomes
                   <==> Answers(p, agentId, id, responseType, routeKey, now)))
            && s'.tombstones == Pruned(s, now).tombstones && s'.owners == Pruned(s, now).owners
  {
    var s1, s' := Pruned(s, now), AfterConsume(s, agentId, id, responseType, routeKey, now);
    PruningEndsOverdue(s, used, now);
    PrunedKeepsGood(s, now, used);
    forall p ensures Answered(s1, agentId, id, responseType, routeKey) == Some(p)
                <==> p in s.pending && Answers(p, agentId, id, responseType, routeKey, now) {
      IdentifiedReplyAnswers(s, used, agentId, id, responseType, routeKey, now, p);
    }
    if Answered(s1, agentId, id, responseType, routeKey).Some? {
      var q := Answered(s1, agentId, id, responseType, routeKey).value;
      WithoutIs(s1.pending, q.requestId);
      SameIdSame(s1.pending, q);
      assert forall o :: o in s'.outcomes <==> o in s1.outcomes || o == Outcome(q.requestId, Consumed);
    }
    forall p | p in s.pending ensures Outcome(p.requestId, Consumed) !in s1.outcomes {
      assert p.requestId in Ids(s.pending);
    }
  }

  lemma {:induction false} WithoutFirst(ps: seq<Request>)
    requires DistinctIds(ps) && ps != []
    ensures Without(ps, ps[0].requestId) == ps[1..]
  {
    forall p | p in ps[1..] ensures p.requestId != ps[0].requestId {
      var i :| 0 <= i < |ps[1..]| && ps[1..][i] == p;
      assert ps[i + 1] == p;
    }
    WithoutAbsent(ps[1..], ps[0].requestId);
  }

  /** A complete request is filed behind the others with its deadline; if the table is full the oldest one goes, and
      an incomplete request changes nothing. */
  lemma RegisteredIsFiled(s: State, used: set<RequestId>, r: Request, now: int)
    requires Good(s, used)
    ensures var s', live := AfterRegister(s, r, now), Pruned(s, now).pending;
            if r.agentId == "" || r.clientId == "" || r.userId == "" || r.routeKey == "" || r.conversationId == ""
               || r.generation == "" || r.requestType == "" || r.expected == {}
            then s' == s
            else s'.pending == (if |live| < 4096 then live else live[1..]) + [r.(expiresAt := now + 120_000)]
  {
    var s1 := Pruned(s, now);
    PrunedKeepsGood(s, now, used);
    if |s1.pending| >= MAX_PENDING {
      WithoutFirst(s1.pending);
      var s2 := Expire(s1, s1.pending[0], now);
      assert s2.pending == s1.pending[1..] && EvictUntilRoom(s2, now) == s2;
    }
  }

  /** The timer ends its own pending request and leaves a tombstone exactly if the request admits replies without
      identity; for any other id it does nothing. */
  lemma TimerEndsItsRequest(s: State, used: set<RequestId>, id: RequestId, now: int)
    requires Good(s, used)
    ensures var s' := AfterTimer(s, id, now);
            && (id !in Ids(s.pending) ==> s' == s)
            && (forall p :: p in s'.pending <==> p in s.pending && p.requestId != id)
            && (forall p :: p in s.pending && p.requestId == id ==>
                  if p.allowLegacy
                  then s'.tombstones != [] && s'.tombstones[|s'.tombstones| - 1] == Tombstone(p, now + 120_000)
                  else s'.tombstones == s.tombstones)
  {
    FindIs(s.pending, "", id);
    WithoutIs(s.pending, id);
    if FindId(s.pending, id).Some? {
      SameIdSame(s.pending, FindId(s.pending, id).value);
      assert FindId(s.pending, id).value.requestId in Ids(s.pending);
    } else if id in Ids(s.pending) {
      var p :| p in s.pending && p.requestId == id;
      FindFinds(s.pending, p);
    }
  }

  /** The terminal entry was reserved for the request. */
  predicate Reserves(key: TerminalKey, o: TerminalOwner, p: Request) {
    p.terminalId != "" && key == TerminalKey(p.agentId, p.terminalId) && o.pendingRequestId == Some(p.requestId)
  }

  /** A deletion takes out exactly the request of that agent with that id, and the terminal reserved for it. */
  lemma DeleteTakesExactly(s: State, used: set<RequestId>, agentId: string, id: RequestId)
    requires Good(s, used)
    ensures var s' := AfterDelete(s, agentId, id);
            && (forall p :: p in s'.pending <==> p in s.pending && !(p.agentId == agentId && p.requestId == id))
            && (forall key :: key in s'.owners <==>
                  key in s.owners
                  && forall p :: p in s.pending && p.agentId == agentId && p.requestId == id ==>
                       !Reserves(key, s.owners[key], p))
            && s'.tombstones == s.tombstones
  {
    FindIs(s.pending, agentId, id);
    WithoutIs(s.pending, id);
    if Find(s.pending, agentId, id).Some? {
      SameIdSame(s.pending, Find(s.pending, agentId, id).value);
    }
  }

  lemma {:induction false} KeptTombstonesAre(ts: seq<Tombstone>, whom: Whom)
    ensures forall t :: t in KeepTombstones(ts, whom) <==> t in ts && !Concerns(whom, t.request)
  {
    if ts != [] {
      KeptTombstonesAre(ts[1..], whom);
    }
  }

  lemma {:induction false} ClearTakesExactly(s: State, candidates: seq<Request>, whom: Whom, notify: bool)
    requires DistinctIds(s.pending) && AreCandidates(s, candidates)
    ensures forall p :: p in Clear(s, candidates, whom, notify).pending <==>
              p in s.pending && !(p in candidates && Concerns(whom, p))
    ensures forall key :: key in Clear(s, candidates, whom, notify).owners <==>
              key in s.owners && forall p :: p in candidates && Concerns(whom, p) ==> !Reserves(key, s.owners[key], p)
    ensures forall key :: key in Clear(s, candidates, whom, notify).owners ==>
              Clear(s, candidates, whom, notify).owners[key] == s.owners[key]
    decreases |candidates|
  {
    if candidates != [] {
      var p := candidates[0];
      var s1 := if Concerns(whom, p)
                then s.(pending := Without(s.pending, p.requestId), owners := Released(s.owners, p),
                        outcomes := s.outcomes + [Outcome(p.requestId, Cleared(notify && p.hasOnResponse))])
                else s;
      WithoutIs(s.pending, p.requestId);
      CandidatesStay(s, candidates, s1.pending);
      SameIdSame(s.pending, p);
      ClearTakesExactly(s1, candidates[1..], whom, notify);
      assert forall q :: q in candidates <==> q == p || q in candidates[1..];
    }
  }

  /** When a client goes, exactly its requests and tombstones go, and exactly the terminals that it owns or that are
      reserved for its requests. */
  lemma ClearClientTakesExactly(s: State, used: set<RequestId>, clientId: string)
    requires Good(s, used) && clientId != ""
    ensures var s' := AfterClearClient(s, clientId);
            && (forall p :: p in s'.pending <==> p in s.pending && p.clientId != clientId)
            && (forall t :: t in s'.tombstones <==> t in s.tombstones && t.request.clientId != clientId)
            && (forall key :: key in s'.owners <==>
                  key in s.owners && s.owners[key].clientId != clientId
                  && forall p :: p in s.pending && p.clientId == clientId ==> !Reserves(key, s.owners[key], p))
            && (forall key :: key in s'.owners ==> s'.owners[key] == s.owners[key])
  {
    var s1 := s.(owners := map k | k in s.owners && s.owners[k].clientId != clientId :: s.owners[k]);
    ClearTakesExactly(s1, s1.pending, Client(clientId), false);
    ClearLeavesTombstones(s1, s1.pending, Client(clientId), false);
    KeptTombstonesAre(s.tombstones, Client(clientId));
  }

  /** The same when an agent goes. */
  lemma ClearAgentTakesExactly(s: State, used: set<RequestId>, agentId: string)
    requires Good(s, used) && agentId != ""
    ensures var s' := AfterClearAgent(s, agentId);
            && (forall p :: p in s'.pending <==> p in s.pending && p.agentId != agentId)
            && (forall t :: t in s'.tombstones <==> t in s.tombstones && t.request.agentId != agentId)
            && (forall key :: key in s'.owners <==>
                  key in s.owners && s.owners[key].agentId != agentId
                  && forall p :: p in s.pending && p.agentId == agentId ==> !Reserves(key, s.owners[key], p))
            && (forall key :: key in s'.owners ==> s'.owners[key] == s.owners[key])
  {
    ClearTakesExactly(s, s.pending, Agent(agentId), true);
    ClearLeavesTombstones(s, s.pending, Agent(agentId), true);
    KeptTombstonesAre(s.tombstones, Agent(agentId));
  }

  /** A reply without identity to a request: of a type it expects, with or without the client, the public id and the
      terminal repeated. */
  function ReplyTo(p: Request, responseType: string, client: bool, public: bool, terminal: bool): LegacyReply {
    LegacyReply(p.agentId, responseType, p.routeKey, p.userId, if client then p.clientId else "",
                if public then p.publicRequestId else "", if terminal then p.terminalId else "")
  }

  /** The replies that match a request are exactly those to it. */
  lemma MatchesExactlyItsReplies(p: Request, reply: LegacyReply)
    ensures Matches(p, reply)
       <==> exists client, public, terminal ::
              reply == ReplyTo(p, reply.responseType, client, public, terminal) && reply.responseType in p.expected
  {
    if Matches(p, reply) {
      var client, public, terminal := reply.clientId != "", reply.publicRequestId != "", reply.terminalId != "";
      assert reply == ReplyTo(p, reply.responseType, client, public, terminal);
    }
  }

  /** A terminal's entry is set exactly by a complete owner, and against an entry only by one with its client, user,
      route, generation and conversation. */
  lemma OwnerIsSetExactly(s: State, o: TerminalOwner)
    ensures var key := TerminalKey(o.agentId, o.terminalId);
            AfterRegisterOwner(s, o) ==
              if && o.agentId != "" && o.terminalId != "" && o.clientId != "" && o.userId != "" && o.routeKey != ""
                 && o.generation != ""
                 && (key in s.owners ==> o == s.owners[key].(pendingRequestId := o.pendingRequestId,
                                                             agentId := o.agentId, terminalId := o.terminalId))
              then s.(owners := s.owners[key := o]) else s
  {
  }

  // ---------------------------------------------------------------- the module's own state

  class Correlations {
    var pendingRequests: seq<Request>
    var expiredRequests: seq<Tombstone>
    var terminalOwners: map<TerminalKey, TerminalOwner>
    ghost var outcomes: seq<Outcome>

    ghost function Snapshot(): State
      reads this
    {
      State(pendingRequests, expiredRequests, terminalOwners, outcomes)
    }

    constructor ()
      ensures Snapshot() == EMPTY
    {
      pendingRequests, expiredRequests, terminalOwners, outcomes := [], [], map[], [];
    }

    method ReleasePendingTerminalReservation(pending: Request)
      modifies this`terminalOwners
      ensures terminalOwners == Released(old(terminalOwners), pending)
    {
      if pending.terminalId == "" {
        return;
      }
      var key := TerminalKey(pending.agentId, pending.terminalId);
      if key in terminalOwners && terminalOwners[key].pendingRequestId == Some(pending.requestId) {
        terminalOwners := terminalOwners - {key};
      }
    }

    method PruneExpiredRequests(now: int)
      modifies this`expiredRequests
      ensures expiredRequests == LiveTombstones(old(expiredRequests), now)
    {
      var i := 0;
      while i < |expiredRequests|
        invariant 0 <= i <= |expiredRequests|
        invariant expiredRequests[..i] + LiveTombstones(expiredRequests[i..], now)
               == LiveTombstones(old(expiredRequests), now)
        decreases |expiredRequests| - i
      {
        ghost var ts := expiredRequests;
        assert ts[i..][1..] == ts[i + 1..];
        if expiredRequests[i].expiresAt > now {
          assert ts[..i + 1] == ts[..i] + [ts[i]];
          i := i + 1;
        } else {
          expiredRequests := expiredRequests[..i] + expiredRequests[i + 1..];
          assert expiredRequests[..i] == ts[..i] && expiredRequests[i..] == ts[i + 1..];
          assert LiveTombstones(ts[i..], now) == [] + LiveTombstones(ts[i + 1..], now);
        }
      }
      assert expiredRequests[..i] == expiredRequests;
    }

    method QuarantineExpiredRequest(pending: Request, now: int)
      modifies this`expiredRequests
      ensures expiredRequests == Quarantined(old(expiredRequests), pending, now)
    {
      if !pending.allowLegacy {
        return;
      }
      PruneExpiredRequests(now);
      ghost var live := expiredRequests;
      while |expiredRequests| >= MAX_PENDING
        invariant MakeRoom(expiredRequests) == MakeRoom(live)
      {
        expiredRequests := expiredRequests[1..];
      }
      expiredRequests := expiredRequests + [Tombstone(pending, now + REQUEST_TTL_MS)];
    }

    /** Nothing happens if the request is not pending any more. */
    method ExpirePending(pending: Request, now: int) returns (expired: bool)
      modifies this
      ensures expired <==> pending in old(pendingRequests)
      ensures Snapshot() == if expired then Expire(old(Snapshot()), pending, now) else old(Snapshot())
    {
      if pending !in pendingRequests {
        return false;
      }
      pendingRequests := Without(pendingRequests, pending.requestId);
      ReleasePendingTerminalReservation(pending);
      QuarantineExpiredRequest(pending, now);
      outcomes := outcomes + [Outcome(pending.requestId, Expired)];
      return true;
    }

    method Prune(now: int)
      requires DistinctIds(pendingRequests)
      modifies this
      ensures Snapshot() == Pruned(old(Snapshot()), now)
      ensures DistinctIds(pendingRequests)
    {
      PruneExpiredRequests(now);
      var candidates := pendingRequests;
      var i := 0;
      assert candidates[0..] == candidates;
      while i < |candidates|
        invariant 0 <= i <= |candidates|
        invariant DistinctIds(pendingRequests) && AreCandidates(Snapshot(), candidates[i..])
        invariant ExpireDue(Snapshot(), candidates[i..], now) == Pruned(old(Snapshot()), now)
      {
        ghost var s := Snapshot();
        assert candidates[i..][1..] == candidates[i + 1..] && candidates[i..][0] == candidates[i];
        assert candidates[i] in candidates[i..];
        if candidates[i].expiresAt <= now {
          var _ := ExpirePending(candidates[i], now);
        }
        CandidatesStay(s, candidates[i..], pendingRequests);
        WithoutIs(s.pending, candidates[i].requestId);
        i := i + 1;
      }
    }

    method RegisterWorkbenchRequest(request: Request, now: int) returns (registered: bool)
      requires DistinctIds(pendingRequests)
      modifies this
      ensures registered <==> IsComplete(request)
      ensures Snapshot() == After(old(Snapshot()), Register(request), now)
    {
      if !IsComplete(request) {
        return false;
      }
      Prune(now);
      ghost var pruned := Snapshot();
      while |pendingRequests| >= MAX_PENDING
        invariant EvictUntilRoom(Snapshot(), now) == EvictUntilRoom(pruned, now)
        decreases |pendingRequests|
      {
        WithoutShrinks(pendingRequests, pendingRequests[0].requestId);
        var _ := ExpirePending(pendingRequests[0], now);
      }
      pendingRequests := pendingRequests + [request.(expiresAt := now + REQUEST_TTL_MS)];
      return true;
    }

    method OnTimeout(requestId: RequestId, now: int)
      modifies this
      ensures Snapshot() == After(old(Snapshot()), TimerFires(requestId), now)
    {
      FindIs(pendingRequests, "", requestId);
      var pending := FindId(pendingRequests, requestId);
      if pending.Some? {
        var _ := ExpirePending(pending.value, now);
      }
    }

    method ConsumePending(pending: Request)
      modifies this`pendingRequests, this`outcomes
      ensures Snapshot() == Take(old(Snapshot()), pending)
    {
      pendingRequests := Without(pendingRequests, pending.requestId);
      outcomes := outcomes + [Outcome(pending.requestId, Consumed)];
    }

    method PeekWorkbenchRequest(agentId: string, requestId: RequestId, responseType: string, routeKey: string, now: int)
        returns (found: Option<Request>)
      requires DistinctIds(pendingRequests)
      modifies this
      ensures Snapshot() == After(old(Snapshot()), Peek(agentId, requestId, responseType, routeKey), now)
      ensures found == if agentId == "" || responseType == "" then None
                       else Answered(Pruned(old(Snapshot()), now), agentId, requestId, responseType, routeKey)
    {
      if agentId == "" || responseType == "" {
        return None;
      }
      Prune(now);
      found := Find(pendingRequests, agentId, requestId);
      if found.None? || responseType !in found.value.expected {
        return None;
      }
      if routeKey != "" && found.value.routeKey != routeKey {
        return None;
      }
    }

    method ConsumeWorkbenchRequest(agentId: string, requestId: RequestId, responseType: string, routeKey: string, now: int)
        returns (found: Option<Request>)
      requires DistinctIds(pendingRequests)
      modifies this
      ensures Snapshot() == After(old(Snapshot()), Consume(agentId, requestId, responseType, routeKey), now)
      ensures found == if agentId == "" || responseType == "" then None
                       else Answered(Pruned(old(Snapshot()), now), agentId, requestId, responseType, routeKey)
    {
      if agentId == "" || responseType == "" {
        return None;
      }
      Prune(now);
      found := Find(pendingRequests, agentId, requestId);
      if found.None? || responseType !in found.value.expected {
        return None;
      }
      if routeKey != "" && found.value.routeKey != routeKey {
        return None;
      }
      ConsumePending(found.value);
    }

    /** The first tombstone that matches. */
    method FindQuarantined(reply: LegacyReply) returns (found: Option<Tombstone>)
      ensures var matches := MatchingTombstones(expiredRequests, reply);
              found == if matches == [] then None else Some(matches[0])
    {
      var i := 0;
      assert expiredRequests[0..] == expiredRequests;
      while i < |expiredRequests|
        invariant 0 <= i <= |expiredRequests|
        invariant MatchingTombstones(expiredRequests, reply) == MatchingTombstones(expiredRequests[i..], reply)
      {
        assert expiredRequests[i..][1..] == expiredRequests[i + 1..];
        if Matches(expiredRequests[i].request, reply) {
          return Some(expiredRequests[i]);
        }
        i := i + 1;
      }
      return None;
    }

    /** The only pending request that matches. */
    method FindOnlyMatch(reply: LegacyReply) returns (found: Option<Request>)
      ensures var matches := MatchingRequests(pendingRequests, reply);
              found == if |matches| == 1 then Some(matches[0]) else None
    {
      found := None;
      var i := 0;
      assert pendingRequests[0..] == pendingRequests;
      while i < |pendingRequests|
        invariant 0 <= i <= |pendingRequests|
        invariant MatchingRequests(pendingRequests, reply)
               == (if found.Some? then [found.value] else []) + MatchingRequests(pendingRequests[i..], reply)
      {
        assert pendingRequests[i..][1..] == pendingRequests[i + 1..];
        if Matches(pendingRequests[i], reply) {
          if found.Some? {
            return None;
          }
          found := Some(pendingRequests[i]);
        }
        i := i + 1;
      }
    }

    method ConsumeLegacyWorkbenchRequest(reply: LegacyReply, now: int) returns (to: Attribution)
      requires DistinctIds(pendingRequests)
      modifies this
      ensures Snapshot() == After(old(Snapshot()), ConsumeLegacy(reply), now)
      ensures to == if IsLegacyComplete(reply) then Attributed(Pruned(old(Snapshot()), now), reply) else Nobody
    {
      if !IsLegacyComplete(reply) {
        return Nobody;
      }
      Prune(now);
      var expired := FindQuarantined(reply);
      if expired.Some? {
        if reply.publicRequestId != "" {
          expiredRequests := WithoutTombstone(expiredRequests, expired.value.request.requestId);
        }
        return InQuarantine(expired.value);
      }
      var found := FindOnlyMatch(reply);
      if found.None? {
        return Nobody;
      }
      ConsumePending(found.value);
      return To(found.value);
    }

    method DeleteWorkbenchRequest(agentId: string, requestId: RequestId) returns (deleted: bool)
      modifies this
      ensures Snapshot() == After(old(Snapshot()), Delete(agentId, requestId), 0)
      ensures deleted <==> Find(old(pendingRequests), agentId, requestId).Some?
    {
      var pending := Find(pendingRequests, agentId, requestId);
      if pending.None? {
        return false;
      }
      FindIs(pendingRequests, agentId, requestId);
      pendingRequests := Without(pendingRequests, requestId);
      ReleasePendingTerminalReservation(pending.value);
      outcomes := outcomes + [Outcome(requestId, Deleted)];
      return true;
    }

    method RegisterWorkbenchTerminalOwner(owner: TerminalOwner) returns (accepted: bool)
      modifies this
      ensures accepted <==> OwnerAccepted(old(Snapshot()), owner)
      ensures Snapshot() == After(old(Snapshot()), RegisterOwner(owner), 0)
    {
      if !IsOwnerComplete(owner) {
        return false;
      }
      var key := TerminalKey(owner.agentId, owner.terminalId);
      if key in terminalOwners && !SameIdentity(terminalOwners[key], owner) {
        return false;
      }
      terminalOwners := terminalOwners[key := owner];
      return true;
    }

    /** The loop over the pending requests that both clearing operations share. */
    method ClearPending(whom: Whom, notify: bool)
      requires DistinctIds(pendingRequests)
      modifies this
      ensures Snapshot() == Clear(old(Snapshot()), old(pendingRequests), whom, notify)
    {
      var candidates := pendingRequests;
      var i := 0;
      assert candidates[0..] == candidates;
      while i < |candidates|
        invariant 0 <= i <= |candidates|
        invariant Clear(Snapshot(), candidates[i..], whom, notify) == Clear(old(Snapshot()), candidates, whom, notify)
      {
        var pending := candidates[i];
        assert candidates[i..][1..] == candidates[i + 1..];
        if Concerns(whom, pending) {
          pendingRequests := Without(pendingRequests, pending.requestId);
          ReleasePendingTerminalReservation(pending);
          outcomes := outcomes + [Outcome(pending.requestId, Cleared(notify && pending.hasOnResponse))];
        }
        i := i + 1;
      }
    }

    /** The terminal owners are taken out first: the caller still needs them to stop the agent's work. */
    method ClearWorkbenchCorrelationsForClient(clientId: string) returns (terminals: set<TerminalOwner>)
      requires DistinctIds(pendingRequests)
      modifies this
      ensures Snapshot() == After(old(Snapshot()), ClearClient(clientId), 0)
      ensures clientId != "" ==>
                terminals == set k | k in old(terminalOwners) && old(terminalOwners)[k].clientId == clientId
                                   :: old(terminalOwners)[k]
    {
      terminals := {};
      if clientId == "" {
        return;
      }
      terminals := set k | k in terminalOwners && terminalOwners[k].clientId == clientId :: terminalOwners[k];
      terminalOwners := map k | k in terminalOwners && terminalOwners[k].clientId != clientId :: terminalOwners[k];
      ClearPending(Client(clientId), false);
      expiredRequests := KeepTombstones(expiredRequests, Client(clientId));
    }

    method ClearWorkbenchCorrelationsForAgent(agentId: string)
      requires DistinctIds(pendingRequests)
      modifies this
      ensures Snapshot() == After(old(Snapshot()), ClearAgent(agentId), 0)
    {
      if agentId == "" {
        return;
      }
      ClearPending(Agent(agentId), true);
      expiredRequests := KeepTombstones(expiredRequests, Agent(agentId));
      terminalOwners := map k | k in terminalOwners && terminalOwners[k].agentId != agentId :: terminalOwners[k];
    }
  }
}
