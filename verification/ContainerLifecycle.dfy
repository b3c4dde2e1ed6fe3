/** The container agents of the server's users (server/container-agent-service.js).

    Each lifecycle operation waits for the previous one of its owner on a chain of promises. A call is a record
    whose phase says which await it is in; an event is one synchronous stretch of code between two awaits. What
    Docker and the file system answer is part of the event, and every await may fail.
  */
module ContainerLifecycle {
  import opened Text

  // ---------------------------------------------------------------- container names

  predicate IsSafe(c: char) {
    'a' <= c <= 'z' || 'A' <= c <= 'Z' || '0' <= c <= '9' || c in "_.-"
  }

  function Sanitized(id: string): string {
    if id == "" then "" else [if IsSafe(id[0]) then id[0] else '-'] + Sanitized(id[1..])
  }

  function ManagedName(id: string): string {
    var clean := Sanitized(id);
    "sandbox-" + if |clean| <= 48 then clean else clean[..48]
  }

  predicate IsSafeId(id: string) {
    |id| <= 48 && forall i :: 0 <= i < |id| ==> IsSafe(id[i])
  }

  /** A random UUID as text, version 4 or not: lower-case hexadecimal digits in five groups. */
  predicate IsUuid(u: string) {
    |u| == 36 && forall i :: 0 <= i < 36 ==>
      if i in {8, 13, 18, 23} then u[i] == '-' else '0' <= u[i] <= '9' || 'a' <= u[i] <= 'f'
  }

  /** The ids the server gives its users (server/db/connection.js). */
  predicate IsUserId(id: string) {
    |id| == 41 && id[..5] == "user_" && IsUuid(id[5..])
  }

  lemma UserIdsAreSafe(id: string)
    requires IsUserId(id)
    ensures IsSafeId(id)
  {
    forall i | 0 <= i < |id| ensures IsSafe(id[i]) {
      if i < 5 {
        assert id[i] == id[..5][i];
      } else {
        assert id[i] == id[5..][i - 5];
      }
    }
  }

  // ---------------------------------------------------------------- the service

  type Owner = string

  datatype Kind = Create | Start | Retry | Stop | Remove | Unknown | Cleanup | PrepareDeletion

  /** The await a running call is in, `Deleting` being the short one before the account is deactivated. */
  datatype Await = Checking | Writing | Slicing | Creating | Acting | Removing | Erasing | Probing | Deleting | Snapshotting

  datatype Phase = Queued | Running(at: Await) | Finished

  /** `previous` is the call whose tail this one waits for. */
  datatype Call = Call(owner: Owner, kind: Kind, previous: Option<nat>, phase: Phase)

  /** `tails` is the service's map; `deleted` records whose account a deletion request has deactivated. */
  datatype State = State(calls: seq<Call>, tails: map<Owner, nat>, containers: set<string>, markers: set<string>,
                         active: set<Owner>, deleted: set<Owner>)

  /** `remains` says whether the file or container of a failed await is there afterwards. */
  datatype Event =
    | Request(owner: Owner, kind: Kind)
    | Begin(c: nat, enabled: bool)
    | Resume(c: nat, ok: bool, remains: bool)
    | NewUser(owner: Owner)
    | Restart

  /** The promise a call leaves for the next one: it is fulfilled when the call has released it and the
      previous tail is fulfilled. */
  predicate TailFulfilled(calls: seq<Call>, c: nat)
    requires c < |calls|
    decreases c
  {
    && calls[c].phase.Finished?
    && (calls[c].previous.None?
        || (calls[c].previous.value < c && TailFulfilled(calls, calls[c].previous.value)))
  }

  predicate CanBegin(s: State, c: nat) {
    && c < |s.calls| && s.calls[c].phase.Queued?
    && (s.calls[c].previous.None?
        || (s.calls[c].previous.value < c && TailFulfilled(s.calls, s.calls[c].previous.value)))
  }

  predicate Possible(s: State, e: Event) {
    match e
    case Begin(c, _) => CanBegin(s, c)
    case Resume(c, _, _) => c < |s.calls| && s.calls[c].phase.Running?
    case NewUser(owner) => owner !in s.deleted
    case _ => true
  }

  function Move(s: State, c: nat, at: Await): State
    requires c < |s.calls|
  {
    s.(calls := s.calls[c := s.calls[c].(phase := Running(at))])
  }

  /** The call releases the next one, and its map entry goes if it is still its own. */
  function Finish(s: State, c: nat): State
    requires c < |s.calls|
  {
    var owner := s.calls[c].owner;
    s.(calls := s.calls[c := s.calls[c].(phase := Finished)],
       tails := if owner in s.tails && s.tails[owner] == c then s.tails - {owner} else s.tails)
  }

  function Put(names: set<string>, name: string, present: bool): set<string> {
    if present then names + {name} else names - {name}
  }

  function AfterRequest(s: State, owner: Owner, kind: Kind): State {
    var previous := if owner in s.tails then Some(s.tails[owner]) else None;
    s.(calls := s.calls + [Call(owner, kind, previous, Queued)], tails := s.tails[owner := |s.calls|])
  }

  predicate IsPublic(kind: Kind) {
    !kind.Cleanup? && !kind.PrepareDeletion?
  }

  function AfterBegin(s: State, c: nat, enabled: bool): State
    requires c < |s.calls|
  {
    if !IsPublic(s.calls[c].kind) then Move(s, c, Probing)
    else if enabled then Move(s, c, Checking)
    else Finish(s, c)
  }

  /** After Docker has been found reachable and the owner active. */
  function Admitted(s: State, c: nat): State
    requires c < |s.calls|
  {
    match s.calls[c].kind
    case Create => Move(s, c, Writing)
    case Remove => Move(s, c, Removing)
    case Unknown => Finish(s, c)
    case _ => Move(s, c, Acting)
  }

  function AfterResume(s: State, c: nat, ok: bool, remains: bool): State
    requires c < |s.calls| && s.calls[c].phase.Running?
  {
    var owner, kind := s.calls[c].owner, s.calls[c].kind;
    var name := ManagedName(owner);
    match s.calls[c].phase.at
    case Checking => if ok && owner in s.active then Admitted(s, c) else Finish(s, c)
    case Writing =>
      if ok then Move(s.(markers := s.markers + {name}), c, Slicing)
      else Finish(s.(markers := if remains then s.markers + {name} else s.markers), c)
    case Slicing => if ok then Move(s, c, Creating) else Finish(s, c)
    case Creating =>
      if ok then Move(s.(containers := s.containers + {name}), c, Snapshotting)
      else Finish(s.(containers := Put(s.containers, name, remains)), c)
    case Acting => if ok then Move(s, c, Snapshotting) else Finish(s, c)
    case Removing =>
      if ok then Move(s.(containers := s.containers - {name}), c, Erasing)
      else Finish(s.(containers := if remains then s.containers else s.containers - {name}), c)
    case Erasing =>
      if !ok then Finish(s.(markers := if remains then s.markers else s.markers - {name}), c)
      else
        var s1 := s.(markers := s.markers - {name});
        if kind.PrepareDeletion? then Move(s1, c, Deleting)
        else if kind.Cleanup? then Finish(s1, c)
        else Move(s1, c, Snapshotting)
    case Probing =>
      if !ok then Finish(s, c)
      else if name in s.markers then Move(s, c, Removing)
      else if kind.PrepareDeletion? then Move(s, c, Deleting)
      else Finish(s, c)
    case Deleting =>
      if ok then Finish(s.(active := s.active - {owner}, deleted := s.deleted + {owner}), c) else Finish(s, c)
    case Snapshotting => Finish(s, c)
  }

  /** A restart forgets the calls and the map; containers, markers and accounts stay. */
  function Forgotten(calls: seq<Call>): seq<Call> {
    seq(|calls|, i requires 0 <= i < |calls| => calls[i].(phase := Finished))
  }

  function After(s: State, e: Event): State
    requires Possible(s, e)
  {
    match e
    case Request(owner, kind) => AfterRequest(s, owner, kind)
    case Begin(c, enabled) => AfterBegin(s, c, enabled)
    case Resume(c, ok, remains) => AfterResume(s, c, ok, remains)
    case NewUser(owner) => s.(active := s.active + {owner})
    case Restart => s.(calls := Forgotten(s.calls), tails := map[])
  }

  // ---------------------------------------------------------------- the queue

  /** A call starts only after all earlier calls of its owner have finished. */
  ghost predicate InTurn(calls: seq<Call>, c: nat)
    requires c < |calls|
  {
    !calls[c].phase.Queued? ==> EarlierFinished(calls, c)
  }

  ghost predicate EarlierFinished(calls: seq<Call>, c: nat)
    requires c < |calls|
  {
    forall b :: 0 <= b < c && calls[b].owner == calls[c].owner ==> calls[b].phase.Finished?
  }

  /** The previous call is the last earlier one of the owner; without one all earlier ones have finished. */
  ghost predicate Linked(calls: seq<Call>, c: nat)
    requires c < |calls|
  {
    match calls[c].previous
    case None => EarlierFinished(calls, c)
    case Some(p) =>
      && p < c && calls[p].owner == calls[c].owner
      && forall b :: p < b < c ==> calls[b].owner != calls[c].owner
  }

  /** The map holds the last call of each owner with an unfinished call. */
  ghost predicate TailsAreLast(s: State) {
    && (forall o :: o in s.tails ==>
          && s.tails[o] < |s.calls| && s.calls[s.tails[o]].owner == o && !s.calls[s.tails[o]].phase.Finished?
          && forall b :: s.tails[o] < b < |s.calls| ==> s.calls[b].owner != o)
    && (forall b :: 0 <= b < |s.calls| && !s.calls[b].phase.Finished? ==> s.calls[b].owner in s.tails)
  }

  ghost predicate QueueInv(s: State) {
    && TailsAreLast(s)
    && (forall c :: 0 <= c < |s.calls| ==> InTurn(s.calls, c))
    && (forall c :: 0 <= c < |s.calls| ==> Linked(s.calls, c))
  }

  lemma {:induction false} FulfilledIsFinished(s: State, c: nat)
    requires QueueInv(s) && c < |s.calls|
    ensures TailFulfilled(s.calls, c) <==> s.calls[c].phase.Finished?
    decreases c
  {
    if s.calls[c].phase.Finished? && s.calls[c].previous.Some? {
      assert InTurn(s.calls, c) && Linked(s.calls, c);
      FulfilledIsFinished(s, s.calls[c].previous.value);
    }
  }

  /** A queued call may begin exactly when every earlier call of its owner has finished. */
  lemma NextInLineCanBegin(s: State, c: nat)
    requires QueueInv(s) && c < |s.calls| && s.calls[c].phase.Queued?
    ensures CanBegin(s, c) <==> EarlierFinished(s.calls, c)
  {
    assert Linked(s.calls, c);
    if s.calls[c].previous.Some? {
      var p := s.calls[c].previous.value;
      FulfilledIsFinished(s, p);
      assert InTurn(s.calls, p);
    }
  }

  // ---------------------------------------------------------------- the queue is kept

  /** Only the phase of `c` changed, and it is running. */
  ghost predicate Moved(s: State, c: nat, s': State)
    requires c < |s.calls|
  {
    && |s'.calls| == |s.calls| && s'.calls[c].phase.Running? && s'.tails == s.tails
    && s'.calls == s.calls[c := s.calls[c].(phase := s'.calls[c].phase)]
  }

  ghost predicate Ended(s: State, c: nat, s': State)
    requires c < |s.calls|
  {
    s'.calls == Finish(s, c).calls && s'.tails == Finish(s, c).tails
  }

  lemma MovedKeepsQueue(s: State, c: nat, s': State)
    requires QueueInv(s) && c < |s.calls| && !s.calls[c].phase.Finished? && EarlierFinished(s.calls, c) && Moved(s, c, s')
    ensures QueueInv(s')
  {
    forall d | 0 <= d < |s'.calls| ensures InTurn(s'.calls, d) && Linked(s'.calls, d) {
      assert InTurn(s.calls, d) && Linked(s.calls, d);
    }
  }

  lemma EndedKeepsQueue(s: State, c: nat, s': State)
    requires QueueInv(s) && c < |s.calls| && !s.calls[c].phase.Finished? && EarlierFinished(s.calls, c) && Ended(s, c, s')
    ensures QueueInv(s')
  {
    forall d | 0 <= d < |s'.calls| ensures InTurn(s'.calls, d) && Linked(s'.calls, d) {
      assert InTurn(s.calls, d) && Linked(s.calls, d);
    }
    EndedKeepsTails(s, c, s');
  }

  lemma EndedKeepsTails(s: State, c: nat, s': State)
    requires TailsAreLast(s) && c < |s.calls| && !s.calls[c].phase.Finished? && EarlierFinished(s.calls, c)
    requires Ended(s, c, s')
    ensures TailsAreLast(s')
  {
    var owner := s.calls[c].owner;
    forall b | 0 <= b < |s'.calls| && !s'.calls[b].phase.Finished? ensures s'.calls[b].owner in s'.tails {
      assert b != c && s.calls[b].owner in s.tails;
      if s.calls[b].owner == owner {
        assert b > c;
      }
    }
  }

  lemma RequestKeepsQueue(s: State, owner: Owner, kind: Kind)
    requires QueueInv(s)
    ensures QueueInv(AfterRequest(s, owner, kind))
  {
    var s' := AfterRequest(s, owner, kind);
    forall d | 0 <= d < |s'.calls| ensures InTurn(s'.calls, d) && Linked(s'.calls, d) {
      if d < |s.calls| {
        assert InTurn(s.calls, d) && Linked(s.calls, d);
      }
    }
  }

  lemma BeginMovesOrEnds(s: State, c: nat, enabled: bool)
    requires c < |s.calls|
    ensures var s' := AfterBegin(s, c, enabled); Moved(s, c, s') || Ended(s, c, s')
  {
  }

  lemma ResumeMovesOrEnds(s: State, c: nat, ok: bool, remains: bool)
    requires c < |s.calls| && s.calls[c].phase.Running?
    ensures var s' := AfterResume(s, c, ok, remains); Moved(s, c, s') || Ended(s, c, s')
  {
  }

  lemma StepKeepsQueue(s: State, e: Event)
    requires QueueInv(s) && Possible(s, e)
    ensures QueueInv(After(s, e))
  {
    match e
    case Request(owner, kind) => RequestKeepsQueue(s, owner, kind);
    case Begin(c, enabled) =>
      NextInLineCanBegin(s, c);
      BeginMovesOrEnds(s, c, enabled);
      if Moved(s, c, After(s, e)) {
        MovedKeepsQueue(s, c, After(s, e));
      } else {
        EndedKeepsQueue(s, c, After(s, e));
      }
    case Resume(c, ok, remains) =>
      assert InTurn(s.calls, c);
      ResumeMovesOrEnds(s, c, ok, remains);
      if Moved(s, c, After(s, e)) {
        MovedKeepsQueue(s, c, After(s, e));
      } else {
        EndedKeepsQueue(s, c, After(s, e));
      }
    case NewUser(_) =>
      assert forall d :: 0 <= d < |s.calls| ==> InTurn(s.calls, d) && Linked(s.calls, d);
    case Restart =>
      assert forall d :: 0 <= d < |s.calls| ==> Linked(s.calls, d);
      forall d | 0 <= d < |s.calls| ensures Linked(After(s, e).calls, d) {
        assert Linked(s.calls, d);
      }
  }

  // ---------------------------------------------------------------- containers have markers

  /** Different owners have different container names. */
  ghost predicate DistinctNames(owners: set<Owner>) {
    forall o, p :: o in owners && p in owners && ManagedName(o) == ManagedName(p) ==> o == p
  }

  predicate IsAt(call: Call, at: Await) {
    call.phase == Running(at)
  }

  /** What a running call knows about its owner's container. */
  ghost predicate CallInv(s: State, call: Call) {
    var name := ManagedName(call.owner);
    && (IsAt(call, Slicing) || IsAt(call, Creating) ==> name in s.markers)
    && (IsAt(call, Erasing) || IsAt(call, Deleting) ==> name !in s.containers)
    && (IsAt(call, Deleting) ==> call.kind.PrepareDeletion?)
    && (call.owner in s.deleted && call.phase.Running? ==>
          if IsPublic(call.kind) then IsAt(call, Checking) else call.phase.at in {Probing, Removing, Erasing, Deleting})
  }

  ghost predicate Safe(s: State) {
    && s.containers <= s.markers && s.active !! s.deleted
    && (forall o :: o in s.deleted ==> ManagedName(o) !in s.containers)
    && forall c :: 0 <= c < |s.calls| ==> CallInv(s, s.calls[c])
  }

  ghost predicate CallsBy(s: State, owners: set<Owner>) {
    (forall c :: 0 <= c < |s.calls| ==> s.calls[c].owner in owners) && s.deleted <= owners
  }

  /** Nothing changed but what belongs to one owner's container. */
  ghost predicate TouchesOnly(s: State, s': State, owner: Owner) {
    && (forall name :: name != ManagedName(owner) ==>
          (name in s'.containers <==> name in s.containers) && (name in s'.markers <==> name in s.markers))
    && (forall o :: o != owner ==> (o in s'.deleted <==> o in s.deleted) && (o in s'.active <==> o in s.active))
  }

  lemma OthersUntouched(s: State, s': State, c: nat, owners: set<Owner>)
    requires Safe(s) && QueueInv(s) && CallsBy(s, owners) && DistinctNames(owners)
    requires c < |s.calls| && s.calls[c].phase.Running? && TouchesOnly(s, s', s.calls[c].owner)
    requires Moved(s, c, s') || Ended(s, c, s')
    requires CallInv(s', s'.calls[c]) && s'.active !! s'.deleted
    requires var o := s.calls[c].owner;
             && (ManagedName(o) in s'.containers ==> ManagedName(o) in s'.markers)
             && (o in s'.deleted ==> ManagedName(o) !in s'.containers)
    ensures Safe(s')
  {
    var owner := s.calls[c].owner;
    forall d | 0 <= d < |s'.calls| ensures CallInv(s', s'.calls[d]) {
      assert CallInv(s, s.calls[d]);
      if d != c && s.calls[d].owner == owner {
        OnlyOneRuns(s, c, d);
      }
    }
    forall o | o in s'.deleted ensures ManagedName(o) !in s'.containers {
    }
  }

  /** At most one operation of an owner runs at a time. */
  lemma OnlyOneRuns(s: State, c: nat, d: nat)
    requires QueueInv(s) && c < |s.calls| && d < |s.calls| && c != d && s.calls[c].owner == s.calls[d].owner
    requires s.calls[c].phase.Running?
    ensures !s.calls[d].phase.Running?
  {
    assert InTurn(s.calls, c) && InTurn(s.calls, d);
  }

  lemma ResumeTouchesItsOwn(s: State, c: nat, ok: bool, remains: bool)
    requires c < |s.calls| && s.calls[c].phase.Running?
    ensures TouchesOnly(s, AfterResume(s, c, ok, remains), s.calls[c].owner)
  {
  }

  lemma ResumeKeepsCall(s: State, c: nat, ok: bool, remains: bool)
    requires Safe(s) && c < |s.calls| && s.calls[c].phase.Running? && CallInv(s, s.calls[c])
    ensures CallInv(AfterResume(s, c, ok, remains), AfterResume(s, c, ok, remains).calls[c])
  {
  }

  lemma ResumeKeepsOwn(s: State, c: nat, ok: bool, remains: bool)
    requires Safe(s) && c < |s.calls| && s.calls[c].phase.Running? && CallInv(s, s.calls[c])
    ensures var s', name := AfterResume(s, c, ok, remains), ManagedName(s.calls[c].owner);
            && s'.active !! s'.deleted && (name in s'.containers ==> name in s'.markers)
            && (s.calls[c].owner in s'.deleted ==> name !in s'.containers)
  {
  }

  lemma ResumeKeepsSafe(s: State, c: nat, ok: bool, remains: bool, owners: set<Owner>)
    requires Safe(s) && QueueInv(s) && CallsBy(s, owners) && DistinctNames(owners)
    requires c < |s.calls| && s.calls[c].phase.Running?
    ensures Safe(AfterResume(s, c, ok, remains))
  {
    var s' := AfterResume(s, c, ok, remains);
    ResumeMovesOrEnds(s, c, ok, remains);
    ResumeTouchesItsOwn(s, c, ok, remains);
    assert CallInv(s, s.calls[c]);
    ResumeKeepsCall(s, c, ok, remains);
    ResumeKeepsOwn(s, c, ok, remains);
    OthersUntouched(s, s', c, owners);
  }

  lemma RequestKeepsSafe(s: State, owner: Owner, kind: Kind)
    requires Safe(s)
    ensures Safe(AfterRequest(s, owner, kind))
  {
    var s' := AfterRequest(s, owner, kind);
    forall d | 0 <= d < |s'.calls| ensures CallInv(s', s'.calls[d]) {
      if d < |s.calls| {
        assert CallInv(s, s.calls[d]);
      }
    }
  }

  lemma BeginKeepsSafe(s: State, c: nat, enabled: bool)
    requires Safe(s) && c < |s.calls|
    ensures Safe(AfterBegin(s, c, enabled))
  {
    var s' := AfterBegin(s, c, enabled);
    forall d | 0 <= d < |s'.calls| ensures CallInv(s', s'.calls[d]) {
      assert CallInv(s, s.calls[d]);
    }
  }

  lemma NewUserKeepsSafe(s: State, owner: Owner)
    requires Safe(s) && owner !in s.deleted
    ensures Safe(s.(active := s.active + {owner}))
  {
    forall d | 0 <= d < |s.calls| ensures CallInv(s.(active := s.active + {owner}), s.calls[d]) {
      assert CallInv(s, s.calls[d]);
    }
  }

  lemma StepKeepsSafe(s: State, e: Event, owners: set<Owner>)
    requires Safe(s) && QueueInv(s) && CallsBy(s, owners) && DistinctNames(owners) && Possible(s, e)
    ensures Safe(After(s, e))
  {
    match e
    case Request(owner, kind) => RequestKeepsSafe(s, owner, kind);
    case Begin(c, enabled) => BeginKeepsSafe(s, c, enabled);
    case Resume(c, ok, remains) => ResumeKeepsSafe(s, c, ok, remains, owners);
    case NewUser(owner) => NewUserKeepsSafe(s, owner);
    case Restart =>
  }

  lemma StepKeepsCallers(s: State, e: Event, owners: set<Owner>)
    requires CallsBy(s, owners) && Possible(s, e) && (e.Request? ==> e.owner in owners)
    ensures CallsBy(After(s, e), owners)
  {
    match e
    case Begin(c, enabled) => BeginMovesOrEnds(s, c, enabled);
    case Resume(c, ok, remains) =>
      ResumeMovesOrEnds(s, c, ok, remains);
      ResumeTouchesItsOwn(s, c, ok, remains);
    case _ =>
  }

  // ---------------------------------------------------------------- runs

  /** A fresh service, possibly with containers of an earlier one, each with its marker. */
  predicate IsStart(s: State) {
    s.calls == [] && s.tails == map[] && s.deleted == {} && s.containers <= s.markers
  }

  function RunFrom(s: State, es: seq<Event>): State
    requires IsRun(s, es)
    decreases |es|, 1
  {
    if es == [] then s else After(RunFrom(s, es[..|es| - 1]), es[|es| - 1])
  }

  predicate IsRun(s: State, es: seq<Event>)
    decreases |es|, 0
  {
    es == [] || (IsRun(s, es[..|es| - 1]) && Possible(RunFrom(s, es[..|es| - 1]), es[|es| - 1]))
  }

  ghost predicate RequestsBy(es: seq<Event>, owners: set<Owner>) {
    forall i :: 0 <= i < |es| && es[i].Request? ==> es[i].owner in owners
  }

  lemma {:induction false} RunKeepsQueue(s: State, es: seq<Event>)
    requires IsStart(s) && IsRun(s, es)
    ensures QueueInv(RunFrom(s, es))
  {
    if es != [] {
      RunKeepsQueue(s, es[..|es| - 1]);
      StepKeepsQueue(RunFrom(s, es[..|es| - 1]), es[|es| - 1]);
    }
  }

  lemma {:induction false} RunKeepsSafe(s: State, es: seq<Event>, owners: set<Owner>)
    requires IsStart(s) && IsRun(s, es) && RequestsBy(es, owners) && DistinctNames(owners)
    ensures Safe(RunFrom(s, es)) && CallsBy(RunFrom(s, es), owners)
  {
    if es != [] {
      var before := RunFrom(s, es[..|es| - 1]);
      RunKeepsSafe(s, es[..|es| - 1], owners);
      RunKeepsQueue(s, es[..|es| - 1]);
      StepKeepsSafe(before, es[|es| - 1], owners);
      StepKeepsCallers(before, es[|es| - 1], owners);
    }
  }

  // ---------------------------------------------------------------- main results

  /** The operations of an owner run one at a time and in the order of the requests: when one has started, all
      earlier ones have finished, and as soon as they have, it can. */
  lemma OperationsRunInRequestOrder(s: State, es: seq<Event>, b: nat, c: nat)
    requires IsStart(s) && IsRun(s, es)
    requires var calls := RunFrom(s, es).calls; b < c < |calls| && calls[b].owner == calls[c].owner
    ensures var calls := RunFrom(s, es).calls;
            && (!calls[c].phase.Queued? ==> calls[b].phase.Finished?)
            && (calls[c].phase.Queued? ==> (CanBegin(RunFrom(s, es), c) <==> EarlierFinished(calls, c)))
  {
    RunKeepsQueue(s, es);
    var s' := RunFrom(s, es);
    assert InTurn(s'.calls, c);
    if s'.calls[c].phase.Queued? {
      NextInLineCanBegin(s', c);
    }
  }

  ghost predicate HasUnfinished(calls: seq<Call>, owner: Owner) {
    exists c :: 0 <= c < |calls| && calls[c].owner == owner && !calls[c].phase.Finished?
  }

  /** The map keeps no entry for an owner without unfinished calls. */
  lemma NoTailIsLeftBehind(s: State, es: seq<Event>, owner: Owner)
    requires IsStart(s) && IsRun(s, es)
    ensures owner in RunFrom(s, es).tails <==> HasUnfinished(RunFrom(s, es).calls, owner)
  {
    RunKeepsQueue(s, es);
  }

  /** Whatever fails and whenever the server restarts, a container always has its marker, and an owner whose
      account a deletion request has deactivated has no container, then or ever after, as long as different owners'
      containers have different names. */
  lemma NoContainersWithDistinctNames(s: State, es: seq<Event>, owners: set<Owner>, owner: Owner)
    requires IsStart(s) && IsRun(s, es) && RequestsBy(es, owners) && DistinctNames(owners)
    ensures RunFrom(s, es).containers <= RunFrom(s, es).markers
    ensures owner in RunFrom(s, es).deleted ==>
              ManagedName(owner) !in RunFrom(s, es).containers && owner !in RunFrom(s, es).active
  {
    RunKeepsSafe(s, es, owners);
  }

  /** The ids of the server's own users meet that: a deleted user has no container in any run of users' requests. */
  lemma DeletedOwnersHaveNoContainer(s: State, es: seq<Event>, owner: Owner)
    requires IsStart(s) && IsRun(s, es) && forall i :: 0 <= i < |es| && es[i].Request? ==> IsUserId(es[i].owner)
    ensures RunFrom(s, es).containers <= RunFrom(s, es).markers
    ensures owner in RunFrom(s, es).deleted ==>
              ManagedName(owner) !in RunFrom(s, es).containers && owner !in RunFrom(s, es).active
  {
    var owners := set i | 0 <= i < |es| && es[i].Request? :: es[i].owner;
    forall o | o in owners ensures IsSafeId(o) {
      UserIdsAreSafe(o);
    }
    SafeIdsHaveDistinctNames(owners);
    NoContainersWithDistinctNames(s, es, owners, owner);
  }

  lemma {:induction false} DeletedStaysDeleted(s: State, es: seq<Event>, n: nat, owner: Owner)
    requires n <= |es| && IsRun(s, es) && IsRun(s, es[..n]) && owner in RunFrom(s, es[..n]).deleted
    ensures owner in RunFrom(s, es).deleted
    decreases |es|
  {
    if n < |es| {
      assert es[..|es| - 1][..n] == es[..n];
      DeletedStaysDeleted(s, es[..|es| - 1], n, owner);
      DeletedOnlyGrows(RunFrom(s, es[..|es| - 1]), es[|es| - 1], owner);
    } else {
      assert es[..n] == es;
    }
  }

  lemma DeletedOnlyGrows(s: State, e: Event, owner: Owner)
    requires Possible(s, e) && owner in s.deleted
    ensures owner in After(s, e).deleted
  {
  }

  // ---------------------------------------------------------------- what a call comes to

  /** The next `steps` awaits of the call succeed, or as many as there are. */
  function Succeeding(s: State, c: nat, steps: nat): State
    requires c < |s.calls|
    decreases steps
  {
    if steps == 0 || !s.calls[c].phase.Running? then s
    else Succeeding(AfterResume(s, c, true, false), c, steps - 1)
  }

  /** The call has ended; the containers, markers and accounts are these, and no other call changed. */
  ghost predicate EndsWith(s: State, c: nat, s': State, containers: set<string>, markers: set<string>,
                           active: set<Owner>, deleted: set<Owner>)
    requires c < |s.calls|
  {
    && s'.calls == s.calls[c := s.calls[c].(phase := Finished)] && s'.containers == containers && s'.markers == markers
    && s'.active == active && s'.deleted == deleted
  }

  lemma Again(s: State, c: nat, steps: nat)
    requires c < |s.calls| && steps > 0 && s.calls[c].phase.Running?
    ensures Succeeding(s, c, steps) == Succeeding(AfterResume(s, c, true, false), c, steps - 1)
  {
  }

  /** A creation in which nothing fails makes the container and its marker, for an active owner while the feature is on. */
  lemma CreationCreates(s: State, c: nat, enabled: bool)
    requires c < |s.calls| && s.calls[c].phase.Queued? && s.calls[c].kind.Create?
    ensures var owner := s.calls[c].owner;
            var made := if enabled && owner in s.active then {ManagedName(owner)} else {};
            EndsWith(s, c, Succeeding(AfterBegin(s, c, enabled), c, 5), s.containers + made, s.markers + made, s.active,
                     s.deleted)
  {
    if enabled && s.calls[c].owner in s.active {
      Again(Move(s, c, Checking), c, 5);
      Again(Move(s, c, Writing), c, 4);
      var s2 := s.(markers := s.markers + {ManagedName(s.calls[c].owner)});
      Again(Move(s2, c, Slicing), c, 3);
      Again(Move(s2, c, Creating), c, 2);
    }
  }

  /** A removal in which nothing fails takes both away; any other action leaves them alone. */
  lemma ActionActs(s: State, c: nat, enabled: bool)
    requires c < |s.calls| && s.calls[c].phase.Queued? && IsPublic(s.calls[c].kind) && !s.calls[c].kind.Create?
    ensures var owner := s.calls[c].owner;
            var gone := if s.calls[c].kind.Remove? && enabled && owner in s.active then {ManagedName(owner)} else {};
            EndsWith(s, c, Succeeding(AfterBegin(s, c, enabled), c, 4), s.containers - gone, s.markers - gone, s.active,
                     s.deleted)
  {
    if enabled && s.calls[c].owner in s.active {
      Again(Move(s, c, Checking), c, 4);
      if s.calls[c].kind.Remove? {
        Again(Move(s, c, Removing), c, 3);
        var s2 := s.(containers := s.containers - {ManagedName(s.calls[c].owner)});
        Again(Move(s2, c, Erasing), c, 2);
      } else if !s.calls[c].kind.Unknown? {
        Again(Move(s, c, Acting), c, 3);
      }
    }
  }

  /** A cleanup takes container and marker away if there is a marker, whether the feature is on or not; the deletion of
      an account also deactivates it. */
  lemma CleanupCleans(s: State, c: nat, enabled: bool)
    requires c < |s.calls| && s.calls[c].phase.Queued? && !IsPublic(s.calls[c].kind)
    ensures var owner := s.calls[c].owner;
            var gone := if ManagedName(owner) in s.markers then {ManagedName(owner)} else {};
            var left := if s.calls[c].kind.PrepareDeletion? then {owner} else {};
            EndsWith(s, c, Succeeding(AfterBegin(s, c, enabled), c, 4), s.containers - gone, s.markers - gone,
                     s.active - left, s.deleted + left)
  {
    var name := ManagedName(s.calls[c].owner);
    Again(Move(s, c, Probing), c, 4);
    if name in s.markers {
      Again(Move(s, c, Removing), c, 3);
      var s2 := s.(containers := s.containers - {name});
      Again(Move(s2, c, Erasing), c, 2);
      if s.calls[c].kind.PrepareDeletion? {
        Again(Move(s2.(markers := s2.markers - {name}), c, Deleting), c, 1);
      }
    } else if s.calls[c].kind.PrepareDeletion? {
      Again(Move(s, c, Deleting), c, 3);
    }
  }

  /** An await that fails ends the call, touches at most the owner's own container or marker, and no account. */
  lemma FailureEnds(s: State, c: nat, remains: bool)
    requires c < |s.calls| && s.calls[c].phase.Running?
    ensures var s' := AfterResume(s, c, false, remains);
            && s'.calls == s.calls[c := s.calls[c].(phase := Finished)] && s'.active == s.active && s'.deleted == s.deleted
            && forall name :: name != ManagedName(s.calls[c].owner) ==>
                 (name in s'.containers <==> name in s.containers) && (name in s'.markers <==> name in s.markers)
  {
  }

  // ---------------------------------------------------------------- names

  lemma {:induction false} SafeIsUnchanged(id: string)
    requires forall i :: 0 <= i < |id| ==> IsSafe(id[i])
    ensures Sanitized(id) == id
  {
    if id != "" {
      SafeIsUnchanged(id[1..]);
    }
  }

  /** Ids of at most 48 letters, digits, underscores, dots and dashes have distinct names. */
  lemma SafeIdsHaveDistinctNames(owners: set<Owner>)
    requires forall o :: o in owners ==> IsSafeId(o)
    ensures DistinctNames(owners)
  {
    forall o, p | o in owners && p in owners && ManagedName(o) == ManagedName(p) ensures o == p {
      SafeIsUnchanged(o);
      SafeIsUnchanged(p);
      assert ManagedName(o) == "sandbox-" + o && ManagedName(p) == "sandbox-" + p;
      assert ManagedName(o)[8..] == o && ManagedName(p)[8..] == p;
    }
  }

  /** The run goes on. */
  lemma Extend(s: State, es: seq<Event>, e: Event)
    requires IsRun(s, es) && Possible(RunFrom(s, es), e)
    ensures IsRun(s, es + [e]) && RunFrom(s, es + [e]) == After(RunFrom(s, es), e)
  {
    assert (es + [e])[..|es|] == es;
  }

  function TwoUsers(a: Owner, b: Owner): State {
    State([], map[], {}, {}, {a, b}, {})
  }

  function CallBy(owner: Owner, kind: Kind, phase: Phase): Call {
    Call(owner, kind, None, phase)
  }

  lemma Then(s: State, es: seq<Event>, e: Event) returns (es': seq<Event>)
    requires IsRun(s, es) && Possible(RunFrom(s, es), e)
    ensures IsRun(s, es') && RunFrom(s, es') == After(RunFrom(s, es), e) && es' == es + [e]
  {
    Extend(s, es, e);
    es' := es + [e];
  }

  /** The first user's creation and the second user's deletion, in the phases they are in. */
  function Meeting(a: Owner, b: Owner, creation: Phase, deletion: Phase, containers: set<string>,
                   markers: set<string>, active: set<Owner>, deleted: set<Owner>): State
  {
    State([CallBy(a, Create, creation), CallBy(b, PrepareDeletion, deletion)],
          (if creation.Finished? then map[] else map[a := 0]) + (if deletion.Finished? then map[] else map[b := 1]),
          containers, markers, active, deleted)
  }

  lemma CreationStarts(a: Owner, b: Owner) returns (es: seq<Event>)
    requires a != b && ManagedName(a) == ManagedName(b)
    ensures IsRun(TwoUsers(a, b), es) && RequestsBy(es, {a, b})
    ensures RunFrom(TwoUsers(a, b), es)
         == State([CallBy(a, Create, Running(Creating))], map[a := 0], {}, {ManagedName(a)}, {a, b}, {})
  {
    es := Then(TwoUsers(a, b), [], Request(a, Create));
    es := Then(TwoUsers(a, b), es, Begin(0, true));
    es := Then(TwoUsers(a, b), es, Resume(0, true, true));
    assert RunFrom(TwoUsers(a, b), es) == State([CallBy(a, Create, Running(Writing))], map[a := 0], {}, {}, {a, b}, {});
    es := Then(TwoUsers(a, b), es, Resume(0, true, true));
    es := Then(TwoUsers(a, b), es, Resume(0, true, true));
  }

  lemma DeletionStarts(a: Owner, b: Owner) returns (es: seq<Event>)
    requires a != b && ManagedName(a) == ManagedName(b)
    ensures IsRun(TwoUsers(a, b), es) && RequestsBy(es, {a, b})
    ensures RunFrom(TwoUsers(a, b), es)
         == Meeting(a, b, Running(Creating), Running(Removing), {}, {ManagedName(a)}, {a, b}, {})
  {
    es := CreationStarts(a, b);
    es := Then(TwoUsers(a, b), es, Request(b, PrepareDeletion));
    assert RunFrom(TwoUsers(a, b), es) == Meeting(a, b, Running(Creating), Queued, {}, {ManagedName(a)}, {a, b}, {});
    es := Then(TwoUsers(a, b), es, Begin(1, true));
    es := Then(TwoUsers(a, b), es, Resume(1, true, true));
  }

  lemma DeletionEnds(a: Owner, b: Owner) returns (es: seq<Event>)
    requires a != b && ManagedName(a) == ManagedName(b)
    ensures IsRun(TwoUsers(a, b), es) && RequestsBy(es, {a, b})
    ensures RunFrom(TwoUsers(a, b), es) == Meeting(a, b, Running(Creating), Finished, {}, {}, {a}, {b})
  {
    es := DeletionStarts(a, b);
    es := Then(TwoUsers(a, b), es, Resume(1, true, true));
    assert RunFrom(TwoUsers(a, b), es)
        == Meeting(a, b, Running(Creating), Running(Erasing), {}, {ManagedName(a)}, {a, b}, {});
    es := Then(TwoUsers(a, b), es, Resume(1, true, true));
    assert RunFrom(TwoUsers(a, b), es) == Meeting(a, b, Running(Creating), Running(Deleting), {}, {}, {a, b}, {});
    es := Then(TwoUsers(a, b), es, Resume(1, true, true));
  }

  lemma CreationEnds(a: Owner, b: Owner) returns (es: seq<Event>)
    requires a != b && ManagedName(a) == ManagedName(b)
    ensures IsRun(TwoUsers(a, b), es) && RequestsBy(es, {a, b})
    ensures RunFrom(TwoUsers(a, b), es) == Meeting(a, b, Finished, Finished, {ManagedName(a)}, {}, {a}, {b})
  {
    es := DeletionEnds(a, b);
    es := Then(TwoUsers(a, b), es, Resume(0, true, true));
    es := Then(TwoUsers(a, b), es, Resume(0, true, true));
  }

  /** If two users' names collide a container can outlive every account: the deletion of one user takes away the
      marker by which the deletion of the other would have found the container. */
  lemma CollidingNamesLeaveAContainer(a: Owner, b: Owner) returns (es: seq<Event>)
    requires a != b && ManagedName(a) == ManagedName(b)
    ensures IsStart(TwoUsers(a, b)) && IsRun(TwoUsers(a, b), es)
    ensures var s := RunFrom(TwoUsers(a, b), es);
            s.deleted == {a, b} && s.active == {} && ManagedName(a) in s.containers && s.markers == {}
    ensures RequestsBy(es, {a, b})
  {
    es := CreationEnds(a, b);
    es := Then(TwoUsers(a, b), es, Request(a, PrepareDeletion));
    es := Then(TwoUsers(a, b), es, Begin(2, true));
    es := Then(TwoUsers(a, b), es, Resume(2, true, true));
    assert RunFrom(TwoUsers(a, b), es).calls[2] == CallBy(a, PrepareDeletion, Running(Deleting));
    es := Then(TwoUsers(a, b), es, Resume(2, true, true));
  }

  ghost predicate Leaks(s: State, es: seq<Event>, owner: Owner)
    requires IsRun(s, es)
  {
    owner in RunFrom(s, es).deleted && ManagedName(owner) in RunFrom(s, es).containers
  }

  /** Deleted users are without containers in every run of these owners' requests exactly if the owners' names
      are distinct. */
  lemma NoLeaksExactlyWithDistinctNames(owners: set<Owner>)
    ensures DistinctNames(owners)
       <==> forall s, es, o :: IsStart(s) && IsRun(s, es) && RequestsBy(es, owners) ==> !Leaks(s, es, o)
  {
    if DistinctNames(owners) {
      forall s, es, o | IsStart(s) && IsRun(s, es) && RequestsBy(es, owners) ensures !Leaks(s, es, o) {
        NoContainersWithDistinctNames(s, es, owners, o);
      }
    } else {
      var a, b :| a in owners && b in owners && ManagedName(a) == ManagedName(b) && a != b;
      var es := CollidingNamesLeaveAContainer(a, b);
      assert RequestsBy(es, owners) && Leaks(TwoUsers(a, b), es, a);
    }
  }

  // ---------------------------------------------------------------- the service's own state

  /** The service with the world its operations change. */
  class ContainerAgentService {
    var calls: seq<Call>
    var ownerLifecycleTails: map<Owner, nat>
    var containers: set<string>
    var markers: set<string>
    var active: set<Owner>
    ghost var deleted: set<Owner>

    ghost function Snapshot(): State
      reads this
    {
      State(calls, ownerLifecycleTails, containers, markers, active, deleted)
    }

    constructor (containers: set<string>, markers: set<string>, active: set<Owner>)
      ensures Snapshot() == State([], map[], containers, markers, active, {})
    {
      calls, ownerLifecycleTails, this.containers, this.markers := [], map[], containers, markers;
      this.active, deleted := active, {};
    }

    method WithOwnerLifecycle(owner: Owner, kind: Kind)
      modifies this
      ensures Snapshot() == After(old(Snapshot()), Request(owner, kind))
    {
      var previous := None;
      if owner in ownerLifecycleTails {
        previous := Some(ownerLifecycleTails[owner]);
      }
      ownerLifecycleTails := ownerLifecycleTails[owner := |calls|];
      calls := calls + [Call(owner, kind, previous, Queued)];
    }

    method Await(c: nat, at: Await)
      requires c < |calls|
      modifies this`calls
      ensures Snapshot() == Move(old(Snapshot()), c, at)
    {
      calls := calls[c := calls[c].(phase := Running(at))];
    }

    method Release(c: nat)
      requires c < |calls|
      modifies this`calls, this`ownerLifecycleTails
      ensures Snapshot() == Finish(old(Snapshot()), c)
    {
      var owner := calls[c].owner;
      calls := calls[c := calls[c].(phase := Finished)];
      if owner in ownerLifecycleTails && ownerLifecycleTails[owner] == c {
        ownerLifecycleTails := ownerLifecycleTails - {owner};
      }
    }

    method BeginOperation(c: nat, enabled: bool)
      requires CanBegin(Snapshot(), c)
      modifies this
      ensures Snapshot() == After(old(Snapshot()), Begin(c, enabled))
    {
      if !IsPublic(calls[c].kind) {
        Await(c, Probing);
      } else if !enabled {
        Release(c);
      } else {
        Await(c, Checking);
      }
    }

    /** After the check that Docker is reachable, of which `ok` is the result. */
    method ResumeAdmission(c: nat, ok: bool)
      requires c < |calls| && IsAt(calls[c], Checking)
      modifies this
      ensures Snapshot() == AfterResume(old(Snapshot()), c, ok, true)
    {
      if !ok {
        Release(c);
        return;
      }
      if calls[c].owner !in active {
        Release(c);
        return;
      }
      match calls[c].kind
      case Create => Await(c, Writing);
      case Remove => Await(c, Removing);
      case Unknown => Release(c);
      case _ => Await(c, Acting);
    }

    method ResumeCreate(c: nat, ok: bool, remains: bool)
      requires c < |calls| && (IsAt(calls[c], Writing) || IsAt(calls[c], Slicing) || IsAt(calls[c], Creating))
      modifies this
      ensures Snapshot() == AfterResume(old(Snapshot()), c, ok, remains)
    {
      var name := ManagedName(calls[c].owner);
      if IsAt(calls[c], Writing) {
        if ok || remains {
          markers := markers + {name};
        }
      } else if IsAt(calls[c], Creating) {
        containers := if ok || remains then containers + {name} else containers - {name};
      }
      if !ok {
        Release(c);
      } else if IsAt(calls[c], Writing) {
        Await(c, Slicing);
      } else if IsAt(calls[c], Slicing) {
        Await(c, Creating);
      } else {
        Await(c, Snapshotting);
      }
    }

    method ResumeCleanup(c: nat, ok: bool, remains: bool)
      requires c < |calls| && (IsAt(calls[c], Probing) || IsAt(calls[c], Removing) || IsAt(calls[c], Erasing))
      modifies this
      ensures Snapshot() == AfterResume(old(Snapshot()), c, ok, remains)
    {
      var name := ManagedName(calls[c].owner);
      if IsAt(calls[c], Probing) {
        if !ok {
          Release(c);
        } else if name in markers {
          Await(c, Removing);
        } else {
          Cleaned(c, false);
        }
      } else if IsAt(calls[c], Removing) {
        if ok || !remains {
          containers := containers - {name};
        }
        if !ok {
          Release(c);
        } else {
          Await(c, Erasing);
        }
      } else {
        if ok || !remains {
          markers := markers - {name};
        }
        if !ok {
          Release(c);
        } else {
          Cleaned(c, true);
        }
      }
    }

    /** After a cleanup: the deletion of the account, a last look at the container, or nothing. */
    method Cleaned(c: nat, found: bool)
      requires c < |calls|
      modifies this`calls, this`ownerLifecycleTails
      ensures Snapshot() == if old(calls)[c].kind.PrepareDeletion? then Move(old(Snapshot()), c, Deleting)
                            else if old(calls)[c].kind.Cleanup? || !found then Finish(old(Snapshot()), c)
                            else Move(old(Snapshot()), c, Snapshotting)
    {
      if calls[c].kind.PrepareDeletion? {
        Await(c, Deleting);
      } else if calls[c].kind.Cleanup? || !found {
        Release(c);
      } else {
        Await(c, Snapshotting);
      }
    }

    method ResumeLast(c: nat, ok: bool)
      requires c < |calls| && (IsAt(calls[c], Acting) || IsAt(calls[c], Deleting) || IsAt(calls[c], Snapshotting))
      modifies this
      ensures Snapshot() == AfterResume(old(Snapshot()), c, ok, true)
    {
      if IsAt(calls[c], Acting) && ok {
        Await(c, Snapshotting);
        return;
      }
      if IsAt(calls[c], Deleting) && ok {
        active, deleted := active - {calls[c].owner}, deleted + {calls[c].owner};
      }
      Release(c);
    }
  }
}
