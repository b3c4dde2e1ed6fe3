/** Pending agent-settings requests (server/context.js, lines 48 to 142).

    The table is a map; `clients` are the browser clients connected at the time of a call and `now` is its time.
  */
module SettingsRequests {
  import opened Text

  const TTL_MS := 120_000
  const MAX_PENDING := 2048
  const MAX_PENDING_PER_CLIENT := 256

  datatype Key = Key(agentId: string, requestId: string)

  datatype Pending = Pending(agentId: string, operation: string, requestId: string, clientId: string,
                             allowLegacyReply: bool, expiresAt: int)

  type Table = map<Key, Pending>

  // ---------------------------------------------------------------- the specification

  predicate IsLive(p: Pending, clients: set<string>, now: int) {
    p.expiresAt > now && p.clientId in clients
  }

  function Live(m: Table, clients: set<string>, now: int): Table {
    map k | k in m && IsLive(m[k], clients, now) :: m[k]
  }

  function KeysOf(m: Table, clientId: string): set<Key> {
    set k | k in m && m[k].clientId == clientId
  }

  /** The requests an identity-less reply could answer. */
  function LegacyMatches(m: Table, agentId: string, operation: string): set<Key> {
    set k | k in m && IsLegacyMatch(m[k], agentId, operation)
  }

  predicate IsLegacyMatch(p: Pending, agentId: string, operation: string) {
    p.agentId == agentId && p.operation == operation && p.allowLegacyReply
  }

  predicate IsBusy(m: Table, agentId: string, operation: string) {
    exists k :: k in m && m[k].agentId == agentId && m[k].operation == operation
  }

  predicate IsComplete(r: Pending) {
    r.agentId != "" && r.operation != "" && r.requestId != "" && r.clientId != ""
  }

  predicate IsAdmitted(m: Table, r: Pending) {
    && Key(r.agentId, r.requestId) !in m
    && !(r.allowLegacyReply && IsBusy(m, r.agentId, r.operation))
    && |KeysOf(m, r.clientId)| < MAX_PENDING_PER_CLIENT && |m| < MAX_PENDING
  }

  datatype Call =
    | Register(request: Pending)
    | Consume(agentId: string, operation: string, requestId: string)
    | Delete(agentId: string, requestId: string, clientId: string)
    | ClearClient(clientId: string)
    | TakeAgent(agentId: string)

  function AfterRegister(m: Table, r: Pending, clients: set<string>, now: int): Table {
    if !IsComplete(r) then m
    else
      var live := Live(m, clients, now);
      if !IsAdmitted(live, r) then live
      else live[Key(r.agentId, r.requestId) := r.(expiresAt := now + TTL_MS)]
  }

  /** The request a reply answers: the one it names, or the only one an identity-less reply could answer. */
  ghost function Answered(m: Table, agentId: string, operation: string, requestId: string): Option<Key> {
    if requestId != "" then
      var key := Key(agentId, requestId);
      if key in m && m[key].operation == operation then Some(key) else None
    else Sole(LegacyMatches(m, agentId, operation))
  }

  ghost function Sole<T(!new)>(matches: set<T>): (k: Option<T>)
    ensures forall j :: matches == {j} ==> k == Some(j)
  {
    if exists k :: matches == {k} then var k :| matches == {k}; Some(k) else None
  }

  ghost function AfterConsume(m: Table, agentId: string, operation: string, requestId: string, clients: set<string>,
                              now: int): Table {
    if agentId == "" || operation == "" then m
    else
      var live := Live(m, clients, now);
      match Answered(live, agentId, operation, requestId)
      case None => live
      case Some(key) => live - {key}
  }

  function AfterDelete(m: Table, agentId: string, requestId: string, clientId: string): Table {
    var key := Key(agentId, requestId);
    if key !in m || (clientId != "" && m[key].clientId != clientId) then m else m - {key}
  }

  function WithoutClient(m: Table, clientId: string): Table {
    map k | k in m && !(clientId != "" && m[k].clientId == clientId) :: m[k]
  }

  function WithoutAgent(m: Table, agentId: string): Table {
    map k | k in m && !(agentId != "" && m[k].agentId == agentId) :: m[k]
  }

  function OfAgent(m: Table, agentId: string): Table {
    map k | k in m && agentId != "" && m[k].agentId == agentId :: m[k]
  }

  ghost function After(m: Table, call: Call, clients: set<string>, now: int): Table {
    match call
    case Register(r) => AfterRegister(m, r, clients, now)
    case Consume(agentId, operation, requestId) => AfterConsume(m, agentId, operation, requestId, clients, now)
    case Delete(agentId, requestId, clientId) => AfterDelete(m, agentId, requestId, clientId)
    case ClearClient(clientId) => WithoutClient(m, clientId)
    case TakeAgent(agentId) => WithoutAgent(m, agentId)
  }

  // ---------------------------------------------------------------- the invariant

  /** The two could answer the same identity-less reply. */
  predicate AreRivals(p: Pending, q: Pending) {
    p.allowLegacyReply && q.allowLegacyReply && p.agentId == q.agentId && p.operation == q.operation
  }

  ghost predicate HasNoRivals(m: Table) {
    forall k, l :: k in m && l in m && AreRivals(m[k], m[l]) ==> k == l
  }

  ghost predicate KeepsCaps(m: Table) {
    |m| <= MAX_PENDING && forall clientId :: |KeysOf(m, clientId)| <= MAX_PENDING_PER_CLIENT
  }

  /** No two pending requests could answer the same identity-less reply; requests are filed under their own ids;
      neither the table nor any client's share of it exceeds its cap. */
  ghost predicate Inv(m: Table) {
    HasNoRivals(m) && KeepsCaps(m) && forall k :: k in m ==> k == Key(m[k].agentId, m[k].requestId)
  }

  lemma SmallerSet<T>(a: set<T>, b: set<T>)
    requires a <= b
    ensures |a| <= |b|
  {
    assert b == a + (b - a);
  }

  lemma PartKeepsInv(m: Table, n: Table)
    requires Inv(m) && forall k :: k in n ==> k in m && n[k] == m[k]
    ensures Inv(n)
  {
    forall clientId ensures |KeysOf(n, clientId)| <= MAX_PENDING_PER_CLIENT {
      SmallerSet(KeysOf(n, clientId), KeysOf(m, clientId));
    }
    SmallerSet(n.Keys, m.Keys);
    assert |n| == |n.Keys| && |m| == |m.Keys|;
  }

  lemma AdmitCounts(m: Table, key: Key, r: Pending, clientId: string)
    requires key !in m
    ensures |KeysOf(m[key := r], clientId)| == |KeysOf(m, clientId)| + if clientId == r.clientId then 1 else 0
  {
    assert KeysOf(m[key := r], clientId)
        == if clientId == r.clientId then KeysOf(m, clientId) + {key} else KeysOf(m, clientId);
  }

  lemma AdmitKeepsCaps(m: Table, r: Pending)
    requires KeepsCaps(m) && IsAdmitted(m, r)
    ensures KeepsCaps(m[Key(r.agentId, r.requestId) := r])
  {
    var key := Key(r.agentId, r.requestId);
    var n := m[key := r];
    forall clientId ensures |KeysOf(n, clientId)| <= MAX_PENDING_PER_CLIENT {
      AdmitCounts(m, key, r, clientId);
    }
    assert n.Keys == m.Keys + {key};
  }

  lemma AdmitKeepsInv(m: Table, r: Pending)
    requires Inv(m) && IsAdmitted(m, r)
    ensures Inv(m[Key(r.agentId, r.requestId) := r])
  {
    AdmitKeepsCaps(m, r);
    var key := Key(r.agentId, r.requestId);
    forall k | k in m ensures !AreRivals(m[k], r) && !AreRivals(r, m[k]) {
      assert AreRivals(m[k], r) ==> IsBusy(m, r.agentId, r.operation);
    }
  }

  lemma StepKeepsInv(m: Table, call: Call, clients: set<string>, now: int)
    requires Inv(m)
    ensures Inv(After(m, call, clients, now))
  {
    PartKeepsInv(m, Live(m, clients, now));
    match call
    case Register(r) =>
      if IsComplete(r) && IsAdmitted(Live(m, clients, now), r) {
        AdmitKeepsInv(Live(m, clients, now), r.(expiresAt := now + TTL_MS));
      }
    case _ => PartKeepsInv(m, After(m, call, clients, now));
  }

  datatype Event = Event(call: Call, clients: set<string>, now: int)

  ghost function RunOf(es: seq<Event>): Table {
    if es == [] then map[]
    else After(RunOf(es[..|es| - 1]), es[|es| - 1].call, es[|es| - 1].clients, es[|es| - 1].now)
  }

  lemma {:induction false} RunKeepsInv(es: seq<Event>)
    ensures Inv(RunOf(es))
  {
    if es != [] {
      RunKeepsInv(es[..|es| - 1]);
      StepKeepsInv(RunOf(es[..|es| - 1]), es[|es| - 1].call, es[|es| - 1].clients, es[|es| - 1].now);
    }
  }

  // ---------------------------------------------------------------- main results

  /** In every run an identity-less reply answers a request exactly if some request in the table could be the one:
      there are never two, so no reply is dropped as ambiguous. */
  lemma NeverAmbiguous(es: seq<Event>, agentId: string, operation: string, clients: set<string>, now: int, key: Key)
    ensures var live := Live(RunOf(es), clients, now);
            && |LegacyMatches(live, agentId, operation)| <= 1
            && (Answered(live, agentId, operation, "") == Some(key) <==> key in LegacyMatches(live, agentId, operation))
  {
    RunKeepsInv(es);
    var live := Live(RunOf(es), clients, now);
    var matches := LegacyMatches(live, agentId, operation);
    if k :| k in matches {
      assert matches == {k};
    }
  }

  /** The pending request answers: it has not expired, its client is connected, and the reply names it, or names none
      and the request admits that. */
  predicate IsAnsweredBy(p: Pending, agentId: string, operation: string, requestId: string, clients: set<string>,
                         now: int) {
    && p.expiresAt > now && p.clientId in clients && p.agentId == agentId && p.operation == operation
    && if requestId != "" then p.requestId == requestId else p.allowLegacyReply
  }

  /** In every run a reply takes out exactly the request it answers; beside it only expired requests and those of
      disconnected clients go. */
  lemma ReplyTakesExactly(es: seq<Event>, agentId: string, operation: string, requestId: string, clients: set<string>,
                          now: int)
    requires agentId != "" && operation != ""
    ensures var m := RunOf(es);
            var m' := AfterConsume(m, agentId, operation, requestId, clients, now);
            && (forall k :: k in m' <==>
                  k in m && m[k].expiresAt > now && m[k].clientId in clients
                  && !IsAnsweredBy(m[k], agentId, operation, requestId, clients, now))
            && (forall k :: k in m' ==> m'[k] == m[k])
            && (forall k, l ::
                  (k in m && l in m && IsAnsweredBy(m[k], agentId, operation, requestId, clients, now)
                   && IsAnsweredBy(m[l], agentId, operation, requestId, clients, now)) ==> k == l)
  {
    RunKeepsInv(es);
    if requestId == "" {
      var live := Live(RunOf(es), clients, now);
      forall k ensures Answered(live, agentId, operation, "") == Some(k)
                  <==> k in live && IsAnsweredBy(live[k], agentId, operation, "", clients, now) {
        NeverAmbiguous(es, agentId, operation, clients, now, k);
      }
    }
  }

  /** A request under a new id is filed, for two minutes, exactly if it is complete, its operation is not in progress if
      it admits replies without identity, and neither its client nor the table is full, expired requests and those of
      disconnected clients not counted. */
  lemma RequestIsFiledExactly(m: Table, r: Pending, clients: set<string>, now: int)
    requires Key(r.agentId, r.requestId) !in m
    ensures var m', key := AfterRegister(m, r, clients, now), Key(r.agentId, r.requestId);
            var live := set k | k in m && m[k].expiresAt > now && m[k].clientId in clients;
            && (key in m'
                <==> && r.agentId != "" && r.operation != "" && r.requestId != "" && r.clientId != ""
                     && (r.allowLegacyReply ==>
                           forall k :: k in live ==> m[k].agentId != r.agentId || m[k].operation != r.operation)
                     && |set k | k in live && m[k].clientId == r.clientId| < 256 && |live| < 2048)
            && (key in m' ==> m'[key] == r.(expiresAt := now + 120_000))
            && (forall k :: k in m' && k != key ==> k in m && m'[k] == m[k])
            && (forall k :: k in live ==> k in m')
  {
    var live := Live(m, clients, now);
    assert live.Keys == set k | k in m && m[k].expiresAt > now && m[k].clientId in clients;
    assert KeysOf(live, r.clientId) == set k | k in live.Keys && m[k].clientId == r.clientId;
    assert |live| == |live.Keys|;
  }

  /** In every run the table and each client's share of it stay within their caps. */
  lemma CapsHold(es: seq<Event>, clientId: string)
    ensures |RunOf(es)| <= MAX_PENDING && |KeysOf(RunOf(es), clientId)| <= MAX_PENDING_PER_CLIENT
  {
    RunKeepsInv(es);
  }

  /** But the reply need not be the answer to that request: when the first request has expired and a second one for
      the same operation has been sent, a late reply to the first is taken for the second's. */
  lemma LateReplyAnswersTheNext(first: Pending, second: Pending, sent: int)
    requires IsComplete(first) && IsComplete(second) && AreRivals(first, second) && first.requestId != second.requestId
    ensures var clients := {first.clientId, second.clientId};
            var es := [Event(Register(first), clients, sent), Event(Register(second), clients, sent + TTL_MS)];
            var key := Key(second.agentId, second.requestId);
            Answered(Live(RunOf(es), clients, sent + TTL_MS), first.agentId, first.operation, "") == Some(key)
  {
    var clients := {first.clientId, second.clientId};
    var e, f := Event(Register(first), clients, sent), Event(Register(second), clients, sent + TTL_MS);
    var es := [e, f];
    assert es[..1] == [e] && [e][..0] == [];
    OneRegistered(map[], first, clients, sent);
    assert RunOf([e]) == map[Key(first.agentId, first.requestId) := first.(expiresAt := sent + TTL_MS)];
    assert Live(RunOf([e]), clients, sent + TTL_MS) == map[];
    OneRegistered(RunOf([e]), second, clients, sent + TTL_MS);
    var key := Key(second.agentId, second.requestId);
    assert Live(RunOf(es), clients, sent + TTL_MS) == RunOf(es);
    assert LegacyMatches(RunOf(es), first.agentId, first.operation) == {key};
  }

  lemma OneRegistered(m: Table, r: Pending, clients: set<string>, now: int)
    requires IsComplete(r) && Live(m, clients, now) == map[]
    ensures AfterRegister(m, r, clients, now) == map[Key(r.agentId, r.requestId) := r.(expiresAt := now + TTL_MS)]
  {
    assert KeysOf(map[], r.clientId) == {};
  }

  // ---------------------------------------------------------------- the module's own state

  class SettingsRequestRegistry {
    var pendingRequests: Table

    constructor ()
      ensures pendingRequests == map[]
    {
      pendingRequests := map[];
    }

    method Prune(clients: set<string>, now: int)
      modifies this
      ensures pendingRequests == Live(old(pendingRequests), clients, now)
    {
      var keys := pendingRequests.Keys;
      while keys != {}
        invariant keys <= pendingRequests.Keys <= old(pendingRequests).Keys
        invariant forall k :: k in pendingRequests ==> pendingRequests[k] == old(pendingRequests)[k]
        invariant forall k :: k in old(pendingRequests) && k !in keys ==>
                    (k in pendingRequests <==> IsLive(old(pendingRequests)[k], clients, now))
        decreases |keys|
      {
        var key :| key in keys;
        keys := keys - {key};
        if !IsLive(pendingRequests[key], clients, now) {
          pendingRequests := pendingRequests - {key};
        }
      }
    }

    /** How many requests the client has pending, unless a request that admits a legacy reply finds its operation
        busy. */
    method CountPending(r: Pending) returns (clientPending: nat, busy: bool)
      ensures busy <==> r.allowLegacyReply && IsBusy(pendingRequests, r.agentId, r.operation)
      ensures !busy ==> clientPending == |KeysOf(pendingRequests, r.clientId)|
    {
      clientPending, busy := 0, false;
      var keys := pendingRequests.Keys;
      while keys != {}
        invariant keys <= pendingRequests.Keys && clientPending == |KeysOf(pendingRequests, r.clientId) - keys|
        invariant forall k :: k in pendingRequests && k !in keys ==>
                    !(r.allowLegacyReply && pendingRequests[k].agentId == r.agentId
                      && pendingRequests[k].operation == r.operation)
        decreases |keys|
      {
        var key :| key in keys;
        CountOne(KeysOf(pendingRequests, r.clientId), keys, key);
        keys := keys - {key};
        var pending := pendingRequests[key];
        if pending.clientId == r.clientId {
          clientPending := clientPending + 1;
        }
        if r.allowLegacyReply && pending.agentId == r.agentId && pending.operation == r.operation {
          return clientPending, true;
        }
      }
      assert KeysOf(pendingRequests, r.clientId) - {} == KeysOf(pendingRequests, r.clientId);
    }

    method RegisterRequest(r: Pending, clients: set<string>, now: int) returns (registered: bool)
      modifies this
      ensures pendingRequests == After(old(pendingRequests), Register(r), clients, now)
      ensures registered <==> IsComplete(r) && IsAdmitted(Live(old(pendingRequests), clients, now), r)
    {
      if !IsComplete(r) {
        return false;
      }
      Prune(clients, now);
      var key := Key(r.agentId, r.requestId);
      if key in pendingRequests {
        return false;
      }
      var clientPending, busy := CountPending(r);
      if busy {
        return false;
      }
      if clientPending >= MAX_PENDING_PER_CLIENT || |pendingRequests| >= MAX_PENDING {
        return false;
      }
      pendingRequests := pendingRequests[key := r.(expiresAt := now + TTL_MS)];
      return true;
    }

    /** The only request an identity-less reply could answer. */
    method FindLegacy(agentId: string, operation: string) returns (found: Option<Key>)
      ensures found == Sole(LegacyMatches(pendingRequests, agentId, operation))
    {
      found := None;
      ghost var matches := LegacyMatches(pendingRequests, agentId, operation);
      var keys := pendingRequests.Keys;
      while keys != {}
        invariant keys <= pendingRequests.Keys
        invariant matches - keys == if found.Some? then {found.value} else {}
        decreases |keys|
      {
        var key :| key in keys;
        CountOne(matches, keys, key);
        keys := keys - {key};
        if IsLegacyMatch(pendingRequests[key], agentId, operation) {
          if found.Some? {
            TwoMatches(matches, found.value, key);
            return None;
          }
          found := Some(key);
        }
      }
      assert matches - {} == matches;
      if found.None? {
        NoMatch(matches);
      }
    }

    method ConsumeRequest(agentId: string, operation: string, requestId: string, clients: set<string>, now: int)
        returns (found: Option<Pending>)
      modifies this
      ensures pendingRequests == After(old(pendingRequests), Consume(agentId, operation, requestId), clients, now)
      ensures agentId == "" || operation == "" ==> found == None
      ensures agentId != "" && operation != "" ==>
                var live := Live(old(pendingRequests), clients, now);
                found == match Answered(live, agentId, operation, requestId)
                         case None => None
                         case Some(key) => if key in live then Some(live[key]) else None
    {
      if agentId == "" || operation == "" {
        return None;
      }
      Prune(clients, now);
      var key: Option<Key>;
      if requestId != "" {
        key := Some(Key(agentId, requestId));
        if key.value !in pendingRequests || pendingRequests[key.value].operation != operation {
          return None;
        }
      } else {
        key := FindLegacy(agentId, operation);
        if key.None? {
          return None;
        }
        assert key.value in LegacyMatches(pendingRequests, agentId, operation);
      }
      found := Some(pendingRequests[key.value]);
      pendingRequests := pendingRequests - {key.value};
    }

    method DeleteRequest(agentId: string, requestId: string, clientId: string) returns (deleted: bool)
      modifies this
      ensures pendingRequests == After(old(pendingRequests), Delete(agentId, requestId, clientId), {}, 0)
      ensures deleted <==> pendingRequests != old(pendingRequests)
      ensures forall k :: k in pendingRequests <==>
                k in old(pendingRequests)
                && !(k == Key(agentId, requestId) && clientId in {"", old(pendingRequests)[k].clientId})
    {
      var key := Key(agentId, requestId);
      if key !in pendingRequests || (clientId != "" && pendingRequests[key].clientId != clientId) {
        return false;
      }
      pendingRequests := pendingRequests - {key};
      return true;
    }

    method ClearRequestsForClient(clientId: string)
      modifies this
      ensures pendingRequests == After(old(pendingRequests), Call.ClearClient(clientId), {}, 0)
      ensures forall k :: k in pendingRequests <==>
                k in old(pendingRequests) && (clientId == "" || old(pendingRequests)[k].clientId != clientId)
    {
      if clientId == "" {
        return;
      }
      var keys := pendingRequests.Keys;
      while keys != {}
        invariant keys <= pendingRequests.Keys <= old(pendingRequests).Keys
        invariant forall k :: k in pendingRequests ==> pendingRequests[k] == old(pendingRequests)[k]
        invariant forall k :: k in old(pendingRequests) && k !in keys ==>
                    (k in pendingRequests <==> old(pendingRequests)[k].clientId != clientId)
        decreases |keys|
      {
        var key :| key in keys;
        keys := keys - {key};
        if pendingRequests[key].clientId == clientId {
          pendingRequests := pendingRequests - {key};
        }
      }
    }

    method TakeRequestsForAgent(agentId: string) returns (removed: Table)
      modifies this
      ensures pendingRequests == After(old(pendingRequests), TakeAgent(agentId), {}, 0)
      ensures removed == OfAgent(old(pendingRequests), agentId)
      ensures forall k :: k in removed <==>
                agentId != "" && k in old(pendingRequests) && old(pendingRequests)[k].agentId == agentId
      ensures forall k :: k in pendingRequests <==> k in old(pendingRequests) && k !in removed
    {
      removed := map[];
      if agentId == "" {
        return;
      }
      var keys := pendingRequests.Keys;
      while keys != {}
        invariant keys <= pendingRequests.Keys <= old(pendingRequests).Keys
        invariant forall k :: k in pendingRequests ==> pendingRequests[k] == old(pendingRequests)[k]
        invariant forall k :: k in old(pendingRequests) && k !in keys ==>
                    (k in pendingRequests <==> old(pendingRequests)[k].agentId != agentId)
        invariant forall k :: k in removed <==>
                    k in old(pendingRequests) && k !in keys && old(pendingRequests)[k].agentId == agentId
        invariant forall k :: k in removed ==> removed[k] == old(pendingRequests)[k]
        decreases |keys|
      {
        var key :| key in keys;
        keys := keys - {key};
        if pendingRequests[key].agentId == agentId {
          removed := removed[key := pendingRequests[key]];
          pendingRequests := pendingRequests - {key};
        }
      }
    }
  }

  lemma CountOne<T>(all: set<T>, keys: set<T>, key: T)
    requires key in keys
    ensures all - (keys - {key}) == if key in all then (all - keys) + {key} else all - keys
    ensures |all - (keys - {key})| == if key in all then |all - keys| + 1 else |all - keys|
  {
    assert all - (keys - {key}) == if key in all then (all - keys) + {key} else all - keys;
  }

  lemma TwoMatches<T(!new)>(matches: set<T>, k: T, l: T)
    requires k in matches && l in matches && k != l
    ensures Sole(matches) == None
  {
  }

  lemma NoMatch<T(!new)>(matches: set<T>)
    requires matches == {}
    ensures Sole(matches) == None
  {
    forall k ensures matches != {k} {
      assert k in {k};
    }
  }
}
