/** The agent's terminals (agent/terminal.js), and the deletion of a conversation
    (agent/conversation.js).

    Creating a terminal suspends while the PTY backend loads; closes, replacements, disconnects,
    conversation deletions, PTY data, timers and exits interleave with it. Callbacks are fenced by the
    identity of the record they were created for. A record object is an entry of `records` here, and
    its index is its identity; PTY processes are numbered the same way.
  */
module Terminals {
  import opened Text

  type TerminalId = string
  type RecordId = nat
  type PtyId = nat

  /** `terminalOwner`: absent fields are empty strings. */
  datatype Owner = Owner(conversationId: string, routeKey: string, generation: string)

  /** A request; `terminalId` is already defaulted to the conversation id. */
  datatype Request = Request(terminalId: TerminalId, owner: Owner, requestId: string)

  /** A pending creation has no PTY. `timer` is the record's field, `dataHooked` and `exitHooked` say
      which PTY callbacks were installed for it. */
  datatype Record = Record(terminalId: TerminalId, owner: Owner, requestId: string, pty: Option<PtyId>,
                           cancelled: bool, buffer: string, timer: bool, dataHooked: bool, exitHooked: bool)

  datatype PtyStatus = Live | Killed | Exited

  /** `armed` are the records whose timer is scheduled, `awaiting` the pending creations whose
      continuation has not run yet. */
  datatype Host = Host(terminals: map<TerminalId, RecordId>, records: seq<Record>, ptys: seq<PtyStatus>,
                       armed: set<RecordId>, awaiting: set<RecordId>)

  /** Messages to the server, with the record on whose behalf they are sent. */
  datatype Message =
    | Created(record: RecordId)
    | Output(record: RecordId, data: string)
    | Closed(record: RecordId)
    | Failed(record: RecordId)
    | OwnerMismatch(terminalId: TerminalId)

  /** How the code behind the `await` goes: no backend, the spawn throws, or a PTY is spawned and all
      or only the first of its callbacks are installed and announced before something throws. */
  datatype SpawnOutcome = NoBackend | SpawnThrows | Spawned(dataHooked: bool, exitHooked: bool, announced: bool)

  datatype Event =
    | Create(request: Request)
    | Resume(record: RecordId, outcome: SpawnOutcome)
    | Data(record: RecordId, data: string)
    | TimerFires(record: RecordId)
    | Exit(record: RecordId)
    | Close(request: Request)
    | Disconnect
    | DeleteConversation(conversationId: string)

  datatype Result = Result(host: Host, sent: seq<Message>)

  // ---------------------------------------------------------------- owners

  predicate RouteOwnerMatches(owner: Owner, request: Owner) {
    if owner.routeKey != "" then
      && request.routeKey == owner.routeKey && request.generation == owner.generation
      && request.conversationId == owner.conversationId
    else
      && request.routeKey == "" && request.generation == ""
      && request.conversationId == owner.conversationId
  }

  predicate OwnerMatches(term: Record, request: Request) {
    && RouteOwnerMatches(term.owner, request.owner)
    && (request.requestId == "" || request.requestId == term.requestId)
  }

  // ---------------------------------------------------------------- steps

  /** The fence of every callback. */
  predicate IsCurrent(h: Host, r: RecordId) {
    && r < |h.records| && h.records[r].terminalId in h.terminals
    && h.terminals[h.records[r].terminalId] == r && !h.records[r].cancelled
  }

  function Kill(h: Host, pty: Option<PtyId>): Host {
    if pty.Some? && pty.value < |h.ptys| && h.ptys[pty.value] == Live
    then h.(ptys := h.ptys[pty.value := Killed]) else h
  }

  /** `cancelled = true`, and the timer is cleared. */
  function Cancel(h: Host, r: RecordId): Host
    requires r < |h.records|
  {
    h.(records := h.records[r := h.records[r].(cancelled := true, timer := false)], armed := h.armed - {r})
  }

  predicate WellFormed(h: Host) {
    forall t :: t in h.terminals ==> h.terminals[t] < |h.records|
  }

  function AfterCreate(h: Host, request: Request): Result
    requires WellFormed(h)
  {
    var id := request.terminalId;
    if request.owner.routeKey != "" && request.owner.generation == "" then Result(h, [OwnerMismatch(id)])
    else if id in h.terminals && !RouteOwnerMatches(h.records[h.terminals[id]].owner, request.owner) then
      Result(h, [OwnerMismatch(id)])
    else
      var h1 := if id in h.terminals then EvictEntry(h, id) else h;
      var pending := |h1.records|;
      var record := Record(id, request.owner, request.requestId, None, false, "", false, false, false);
      Result(h1.(records := h1.records + [record], terminals := h1.terminals[id := pending],
                 awaiting := h1.awaiting + {pending}), [])
  }

  /** Cancels the record under `id`, takes the entry out of the map and kills the PTY. */
  function EvictEntry(h: Host, id: TerminalId): Host
    requires WellFormed(h) && id in h.terminals
  {
    var r := h.terminals[id];
    Kill(Cancel(h, r).(terminals := h.terminals - {id}), h.records[r].pty)
  }

  function AfterResume(h: Host, r: RecordId, outcome: SpawnOutcome): Result
    requires r < |h.records|
  {
    var h1 := h.(awaiting := h.awaiting - {r});
    if r !in h.awaiting || !IsCurrent(h, r) then Result(h1, []) else
    var p := h.records[r];
    match outcome
    case NoBackend => Result(h1.(terminals := h1.terminals - {p.terminalId}), [Failed(r)])
    case SpawnThrows => Result(h1.(terminals := h1.terminals - {p.terminalId}), [Failed(r)])
    case Spawned(dataHooked, exitHooked, announced) =>
      var terminal := |h.records|;
      var record := p.(pty := Some(|h.ptys|), dataHooked := dataHooked, exitHooked := dataHooked && exitHooked);
      Result(h1.(ptys := h1.ptys + [Live], records := h1.records + [record],
                 terminals := h1.terminals[p.terminalId := terminal]),
             if dataHooked && exitHooked && announced then [Created(terminal)] else [Failed(terminal)])
  }

  function AfterData(h: Host, r: RecordId, data: string): Result {
    if !IsCurrent(h, r) || !h.records[r].dataHooked then Result(h, []) else
    var record := h.records[r].(buffer := h.records[r].buffer + data, timer := true);
    Result(h.(records := h.records[r := record], armed := if h.records[r].timer then h.armed else h.armed + {r}), [])
  }

  function AfterTimer(h: Host, r: RecordId): Result {
    if r !in h.armed || r >= |h.records| then Result(h, []) else
    var record := h.records[r].(buffer := "", timer := false);
    Result(h.(records := h.records[r := record], armed := h.armed - {r}),
           if IsCurrent(h, r) then [Output(r, h.records[r].buffer)] else [])
  }

  function AfterExit(h: Host, r: RecordId): Result {
    if r >= |h.records| || h.records[r].pty.None? || h.records[r].pty.value >= |h.ptys| then Result(h, []) else
    var h1 := h.(ptys := h.ptys[h.records[r].pty.value := Exited]);
    if !IsCurrent(h, r) || !h.records[r].exitHooked then Result(h1, []) else
    var record := h.records[r].(buffer := "", timer := false);
    var flushed := if h.records[r].buffer != "" then [Output(r, h.records[r].buffer)] else [];
    Result(h1.(records := h.records[r := record], armed := h.armed - {r},
               terminals := h.terminals - {record.terminalId}), flushed + [Closed(r)])
  }

  function AfterClose(h: Host, request: Request): Result
    requires WellFormed(h)
  {
    var id := request.terminalId;
    if id !in h.terminals then Result(h, [])
    else if !OwnerMatches(h.records[h.terminals[id]], request) then Result(h, [OwnerMismatch(id)])
    else Result(EvictEntry(h, id), [Closed(h.terminals[id])])
  }

  function AfterDisconnect(h: Host): Result
    requires WellFormed(h)
  {
    Result(Host(map[],
                seq(|h.records|, r requires 0 <= r < |h.records| =>
                      if r in h.terminals.Values then h.records[r].(cancelled := true, timer := false)
                      else h.records[r]),
                seq(|h.ptys|, p requires 0 <= p < |h.ptys| =>
                      if h.ptys[p] == Live && HoldsPty(h, p) then Killed else h.ptys[p]),
                h.armed - h.terminals.Values, h.awaiting), [])
  }

  predicate HoldsPty(h: Host, p: PtyId)
    requires WellFormed(h)
  {
    exists t :: t in h.terminals && h.records[h.terminals[t]].pty == Some(p)
  }

  predicate BelongsTo(h: Host, id: TerminalId, conversationId: string)
    requires WellFormed(h) && id in h.terminals
  {
    h.records[h.terminals[id]].owner.conversationId == conversationId || id == conversationId
  }

  /** The PTYs are killed and the timers cleared, but the records are not marked as cancelled. */
  function AfterDelete(h: Host, conversationId: string): Result
    requires WellFormed(h)
  {
    var gone := set t | t in h.terminals && BelongsTo(h, t, conversationId) :: t;
    Result(h.(terminals := h.terminals - gone,
              ptys := seq(|h.ptys|, p requires 0 <= p < |h.ptys| =>
                            if h.ptys[p] == Live && exists t :: t in gone && h.records[h.terminals[t]].pty == Some(p)
                            then Killed else h.ptys[p]),
              armed := h.armed - set t | t in gone :: h.terminals[t]), [])
  }

  // ---------------------------------------------------------------- runs

  /** A host, what it sent so far, and the data each record's callback was handed so far. */
  datatype Run = Run(host: Host, log: seq<Message>, produced: map<RecordId, string>)

  const START: Run := Run(Host(map[], [], [], {}, {}), [], map[])

  function Produced(r: Run, record: RecordId): string {
    if record in r.produced then r.produced[record] else ""
  }

  function After(h: Host, e: Event): (result: Result)
    requires WellFormed(h)
    ensures WellFormed(result.host)
  {
    match e
    case Create(request) => AfterCreate(h, request)
    case Resume(r, outcome) => if r < |h.records| then AfterResume(h, r, outcome) else Result(h, [])
    case Data(r, data) => AfterData(h, r, data)
    case TimerFires(r) => AfterTimer(h, r)
    case Exit(r) => AfterExit(h, r)
    case Close(request) => AfterClose(h, request)
    case Disconnect => AfterDisconnect(h)
    case DeleteConversation(conversationId) => AfterDelete(h, conversationId)
  }

  function Observe(r: Run, e: Event): Run
    requires WellFormed(r.host)
  {
    var result := After(r.host, e);
    var handed := e.Data? && e.record < |r.host.records| && r.host.records[e.record].dataHooked;
    Run(result.host, r.log + result.sent,
        if handed then r.produced[e.record := Produced(r, e.record) + e.data] else r.produced)
  }

  function RunOf(es: seq<Event>): (r: Run)
    ensures WellFormed(r.host)
  {
    if es == [] then START else Observe(RunOf(es[..|es| - 1]), es[|es| - 1])
  }

  /** All `terminal_output` payloads of one record, concatenated. */
  function Outputs(log: seq<Message>, r: RecordId): string {
    if log == [] then "" else
    Outputs(log[..|log| - 1], r)
    + if log[|log| - 1].Output? && log[|log| - 1].record == r then log[|log| - 1].data else ""
  }

  predicate SentBy(m: Message, r: RecordId) {
    !m.OwnerMismatch? && m.record == r
  }

  // ---------------------------------------------------------------- the invariant

  /** Every entry leads to a record of its own id that is not cancelled. */
  ghost predicate MapConsistent(h: Host) {
    forall t :: t in h.terminals ==> EntryConsistent(h, t)
  }

  ghost predicate EntryConsistent(h: Host, t: TerminalId)
    requires t in h.terminals
  {
    var r := h.terminals[t];
    r < |h.records| && h.records[r].terminalId == t && !h.records[r].cancelled
  }

  /** No two records share a PTY, and the record of a live PTY is in the map. */
  ghost predicate PtysReferenced(h: Host) {
    && (forall r :: 0 <= r < |h.records| && h.records[r].pty.Some? ==> h.records[r].pty.value < |h.ptys|)
    && (forall r, s :: 0 <= r < s < |h.records| && h.records[r].pty.Some? ==> h.records[r].pty != h.records[s].pty)
    && (forall p :: 0 <= p < |h.ptys| && h.ptys[p] == Live ==> exists r :: Owns(h, r, p))
  }

  ghost predicate Owns(h: Host, r: RecordId, p: PtyId) {
    IsCurrent(h, r) && h.records[r].pty == Some(p)
  }

  /** A record in the map has a scheduled timer exactly if its field says so, and whenever it buffers
      data; a record without a PTY buffers nothing. */
  ghost predicate TimerConsistent(h: Host, r: RecordId)
    requires r < |h.records|
  {
    var record := h.records[r];
    && (record.pty.None? ==> record.buffer == "" && !record.dataHooked && !record.timer && r !in h.armed)
    && (record.pty.Some? ==> r !in h.awaiting)
    && (IsCurrent(h, r) ==> (record.timer <==> r in h.armed) && (record.buffer != "" ==> record.timer))
  }

  ghost predicate TimersConsistent(h: Host) {
    && (forall r :: r in h.armed ==> r < |h.records|) && (forall r :: r in h.awaiting ==> r < |h.records|)
    && (forall r: RecordId :: r < |h.records| ==> TimerConsistent(h, r))
  }

  /** What a record in the map was handed is what it sent and what it still buffers, in order. */
  ghost predicate DataConserved(r: Run) {
    && (forall m :: m in r.log && !m.OwnerMismatch? ==> m.record < |r.host.records|)
    && (forall k :: k in r.produced ==> k < |r.host.records|)
    && (forall k: RecordId :: IsCurrent(r.host, k) ==> Conserved(r, k))
  }

  ghost predicate Conserved(r: Run, k: RecordId)
    requires k < |r.host.records|
  {
    Outputs(r.log, k) + r.host.records[k].buffer == Produced(r, k)
  }

  ghost predicate Inv(r: Run) {
    MapConsistent(r.host) && PtysReferenced(r.host) && TimersConsistent(r.host) && DataConserved(r)
  }

  lemma MapStep(h: Host, e: Event)
    requires MapConsistent(h)
    ensures MapConsistent(After(h, e).host)
  {
    var h' := After(h, e).host;
    forall t | t in h'.terminals ensures EntryConsistent(h', t) {
      EntryKept(h, e, t);
    }
  }

  lemma EntryKept(h: Host, e: Event, t: TerminalId)
    requires MapConsistent(h) && t in After(h, e).host.terminals
    ensures EntryConsistent(After(h, e).host, t)
  {
    assert t in h.terminals ==> EntryConsistent(h, t);
  }

  /** A PTY that is still alive after a step and existed before it kept its record in the map. */
  lemma OwnerStays(h: Host, e: Event, r: RecordId, p: PtyId)
    requires MapConsistent(h) && PtysReferenced(h) && r < |h.records| && TimerConsistent(h, r)
    requires p < |h.ptys| && Owns(h, r, p) && After(h, e).host.ptys[p] == Live
    ensures Owns(After(h, e).host, r, p)
  {
    match e
    case Create(_) => OwnerStaysOnEviction(h, e, r, p);
    case Close(_) => OwnerStaysOnEviction(h, e, r, p);
    case Disconnect => DisconnectKillsHeld(h, r, p);
    case DeleteConversation(_) =>
    case _ => OwnerStaysOtherwise(h, e, r, p);
  }

  lemma DisconnectKillsHeld(h: Host, r: RecordId, p: PtyId)
    requires MapConsistent(h) && p < |h.ptys| && Owns(h, r, p)
    ensures AfterDisconnect(h).host.ptys[p] != Live
  {
    assert h.terminals[h.records[r].terminalId] == r;
  }

  lemma OwnerStaysOnEviction(h: Host, e: Event, r: RecordId, p: PtyId)
    requires MapConsistent(h) && (e.Create? || e.Close?)
    requires p < |h.ptys| && Owns(h, r, p) && After(h, e).host.ptys[p] == Live
    ensures Owns(After(h, e).host, r, p)
  {
  }

  lemma OwnerStaysOtherwise(h: Host, e: Event, r: RecordId, p: PtyId)
    requires MapConsistent(h) && PtysReferenced(h) && r < |h.records| && TimerConsistent(h, r)
    requires e.Resume? || e.Data? || e.TimerFires? || e.Exit?
    requires p < |h.ptys| && Owns(h, r, p) && After(h, e).host.ptys[p] == Live
    ensures Owns(After(h, e).host, r, p)
  {
  }

  /** Records and PTYs are only added, and keep their PTY. */
  lemma OldOnesStay(h: Host, e: Event)
    requires MapConsistent(h)
    ensures var h' := After(h, e).host;
            && |h.ptys| <= |h'.ptys| && |h.records| <= |h'.records|
            && (forall p :: 0 <= p < |h.ptys| && h'.ptys[p] == Live ==> h.ptys[p] == Live)
            && (forall r :: 0 <= r < |h.records| ==> h'.records[r].pty == h.records[r].pty)
  {
  }

  /** A new PTY belongs to a new record. */
  lemma OnlyAdded(h: Host, e: Event)
    requires MapConsistent(h)
    ensures var h' := After(h, e).host;
            && |h.ptys| <= |h'.ptys| && |h.records| <= |h'.records|
            && (forall p :: 0 <= p < |h.ptys| && h'.ptys[p] == Live ==> h.ptys[p] == Live)
            && (forall r :: 0 <= r < |h.records| ==> h'.records[r].pty == h.records[r].pty)
            && (|h.ptys| < |h'.ptys| ==> |h'.ptys| == |h.ptys| + 1 && Owns(h', |h.records|, |h.ptys|))
            && (|h.records| < |h'.records| ==>
                  && |h'.records| == |h.records| + 1
                  && h'.records[|h.records|].pty == if |h.ptys| < |h'.ptys| then Some(|h.ptys|) else None)
  {
    OldOnesStay(h, e);
  }

  lemma PtyStep(h: Host, e: Event)
    requires MapConsistent(h) && PtysReferenced(h) && TimersConsistent(h)
    ensures PtysReferenced(After(h, e).host)
  {
    var h' := After(h, e).host;
    OnlyAdded(h, e);
    forall p | 0 <= p < |h'.ptys| && h'.ptys[p] == Live
      ensures exists r :: Owns(h', r, p)
    {
      if p < |h.ptys| {
        var r :| Owns(h, r, p);
        OwnerStays(h, e, r, p);
      } else {
        assert Owns(h', |h.records|, p);
      }
    }
  }

  lemma TimerKept(h: Host, e: Event, r: RecordId)
    requires MapConsistent(h) && TimersConsistent(h) && r < |h.records| <= |After(h, e).host.records|
    ensures TimerConsistent(After(h, e).host, r)
  {
    assert TimerConsistent(h, r);
    match e
    case Create(_) => TimerKeptByEviction(h, e, r);
    case Resume(_, _) =>
    case Data(_, _) =>
    case TimerFires(_) =>
    case Exit(_) =>
    case Close(_) => TimerKeptByEviction(h, e, r);
    case Disconnect =>
    case DeleteConversation(_) =>
  }

  lemma TimerKeptByEviction(h: Host, e: Event, r: RecordId)
    requires MapConsistent(h) && TimersConsistent(h) && r < |h.records| <= |After(h, e).host.records|
    requires e.Create? || e.Close?
    ensures TimerConsistent(After(h, e).host, r)
  {
    assert TimerConsistent(h, r);
  }

  lemma TimerStep(h: Host, e: Event)
    requires MapConsistent(h) && TimersConsistent(h)
    ensures TimersConsistent(After(h, e).host)
  {
    var h' := After(h, e).host;
    OnlyAdded(h, e);
    forall r: RecordId | r < |h'.records| ensures TimerConsistent(h', r) {
      if r < |h.records| {
        TimerKept(h, e, r);
      } else {
        NewRecordConsistent(h, e);
      }
    }
    SetsBounded(h, e);
  }

  lemma NewRecordConsistent(h: Host, e: Event)
    requires MapConsistent(h) && TimersConsistent(h) && |h.records| < |After(h, e).host.records|
    ensures TimerConsistent(After(h, e).host, |h.records|)
  {
    assert |h.records| !in h.armed && |h.records| !in h.awaiting;
    if e.Resume? {
      assert TimerConsistent(h, e.record);
    }
  }

  lemma SetsBounded(h: Host, e: Event)
    requires MapConsistent(h) && TimersConsistent(h) && |h.records| <= |After(h, e).host.records|
    ensures forall r :: r in After(h, e).host.armed ==> r < |After(h, e).host.records|
    ensures forall r :: r in After(h, e).host.awaiting ==> r < |After(h, e).host.records|
  {
    match e
    case Create(_) =>
    case Resume(_, _) =>
    case Disconnect =>
    case DeleteConversation(_) =>
    case _ =>
  }

  // ---------------------------------------------------------------- data

  lemma {:induction false} OutputsConcat(a: seq<Message>, b: seq<Message>, r: RecordId)
    ensures Outputs(a + b, r) == Outputs(a, r) + Outputs(b, r)
  {
    if b == [] {
      assert a + b == a && Outputs(a, r) + "" == Outputs(a, r);
    } else {
      var m := b[|b| - 1];
      assert (a + b)[..|a + b| - 1] == a + b[..|b| - 1];
      OutputsConcat(a, b[..|b| - 1], r);
      var last := if m.Output? && m.record == r then m.data else "";
      assert (Outputs(a, r) + Outputs(b[..|b| - 1], r)) + last == Outputs(a, r) + (Outputs(b[..|b| - 1], r) + last);
    }
  }

  lemma {:induction false} NoOutputs(log: seq<Message>, r: RecordId)
    requires forall m :: m in log ==> !(m.Output? && m.record == r)
    ensures Outputs(log, r) == ""
  {
    if log != [] {
      NoOutputs(log[..|log| - 1], r);
    }
  }

  /** Only the record an event belongs to sends, and only while it is in the map; the one exception is
      the record the event creates. */
  lemma OnlyCurrentSend(h: Host, e: Event, r: RecordId)
    requires MapConsistent(h)
    ensures (exists m :: m in After(h, e).sent && SentBy(m, r)) ==> IsCurrent(h, r) || r == |h.records|
    ensures (exists m :: m in After(h, e).sent && m.Output? && m.record == r) ==> IsCurrent(h, r)
    ensures (exists m :: m in After(h, e).sent && SentBy(m, r)) ==> r < |After(h, e).host.records|
  {
  }

  /** A record that is not in the map does not come back, and is not touched by its callbacks' data. */
  lemma CurrentWasCurrent(h: Host, e: Event, r: RecordId)
    requires MapConsistent(h) && r < |h.records| && IsCurrent(After(h, e).host, r)
    ensures IsCurrent(h, r)
  {
  }

  lemma OutputsSnoc(log: seq<Message>, m: Message, r: RecordId)
    ensures Outputs(log + [m], r) == Outputs(log, r) + if m.Output? && m.record == r then m.data else ""
  {
    assert (log + [m])[..|log + [m]| - 1] == log;
  }

  lemma SilentOutputs(log: seq<Message>, sent: seq<Message>, r: RecordId)
    requires forall m :: m in sent ==> !(m.Output? && m.record == r)
    ensures Outputs(log + sent, r) == Outputs(log, r)
  {
    OutputsConcat(log, sent, r);
    NoOutputs(sent, r);
    assert Outputs(log, r) + "" == Outputs(log, r);
  }

  lemma DataStep(r: Run, e: Event)
    requires Inv(r)
    ensures DataConserved(Observe(r, e))
  {
    var h, h', sent := r.host, After(r.host, e).host, After(r.host, e).sent;
    OnlyAdded(h, e);
    forall m | m in r.log + sent && !m.OwnerMismatch? ensures m.record < |h'.records| {
      if m in sent {
        OnlyCurrentSend(h, e, m.record);
        assert SentBy(m, m.record);
      }
    }
    forall k: RecordId | IsCurrent(h', k)
      ensures Conserved(Observe(r, e), k)
    {
      if k < |h.records| {
        CurrentWasCurrent(h, e, k);
        RecordConserved(r, e, k);
      } else {
        assert k == |h.records|;
        NewRecordConserved(r, e);
      }
    }
  }

  lemma NewRecordConserved(r: Run, e: Event)
    requires Inv(r) && |r.host.records| < |After(r.host, e).host.records|
    ensures Conserved(Observe(r, e), |r.host.records|)
  {
    var h, k := r.host, |r.host.records|;
    NoOutputs(r.log, k);
    OnlyCurrentSend(h, e, k);
    SilentOutputs(r.log, After(h, e).sent, k);
    NewBufferEmpty(h, e);
    assert "" + "" == "";
  }

  lemma NewBufferEmpty(h: Host, e: Event)
    requires MapConsistent(h) && TimersConsistent(h) && |h.records| < |After(h, e).host.records|
    ensures After(h, e).host.records[|h.records|].buffer == ""
  {
    if e.Resume? {
      assert TimerConsistent(h, e.record);
    }
  }

  lemma BufferKept(h: Host, e: Event, k: RecordId)
    requires MapConsistent(h) && k < |h.records| <= |After(h, e).host.records|
    requires !((e.Data? || e.TimerFires? || e.Exit?) && e.record == k)
    ensures After(h, e).host.records[k].buffer == h.records[k].buffer
    ensures forall m :: m in After(h, e).sent ==> !(m.Output? && m.record == k)
  {
  }

  lemma RecordConserved(r: Run, e: Event, k: RecordId)
    requires Inv(r) && k < |r.host.records| <= |After(r.host, e).host.records|
    requires IsCurrent(r.host, k) && IsCurrent(After(r.host, e).host, k)
    ensures Conserved(Observe(r, e), k)
  {
    assert Conserved(r, k) && TimerConsistent(r.host, k);
    if e.Data? && e.record == k {
      HandedIsBuffered(r, k, e.data);
    } else if e.TimerFires? && e.record == k {
      TimerSendsBuffer(r, k);
    } else if e.Exit? && e.record == k {
      ExitWithoutCallback(r, k);
    } else {
      BufferKept(r.host, e, k);
      SilentOutputs(r.log, After(r.host, e).sent, k);
    }
  }

  lemma HandedIsBuffered(r: Run, k: RecordId, data: string)
    requires WellFormed(r.host) && IsCurrent(r.host, k) && Conserved(r, k)
    ensures var r' := Observe(r, Data(k, data)); k < |r'.host.records| && Conserved(r', k)
  {
    var out, buffer := Outputs(r.log, k), r.host.records[k].buffer;
    assert out + (buffer + data) == (out + buffer) + data;
    assert r.log + [] == r.log;
  }

  lemma TimerSendsBuffer(r: Run, k: RecordId)
    requires WellFormed(r.host) && IsCurrent(r.host, k) && Conserved(r, k)
    ensures var r' := Observe(r, TimerFires(k)); k < |r'.host.records| && Conserved(r', k)
  {
    var out, buffer := Outputs(r.log, k), r.host.records[k].buffer;
    assert r.log + [] == r.log;
    OutputsSnoc(r.log, Output(k, buffer), k);
    assert (out + buffer) + "" == out + buffer;
  }

  lemma ExitWithoutCallback(r: Run, k: RecordId)
    requires WellFormed(r.host) && IsCurrent(r.host, k) && Conserved(r, k)
    requires IsCurrent(After(r.host, Exit(k)).host, k)
    ensures var r' := Observe(r, Exit(k)); k < |r'.host.records| && Conserved(r', k)
  {
    assert r.log + [] == r.log;
  }

  lemma {:induction false} RunKeepsInv(es: seq<Event>)
    ensures Inv(RunOf(es))
  {
    if es != [] {
      var r, e := RunOf(es[..|es| - 1]), es[|es| - 1];
      RunKeepsInv(es[..|es| - 1]);
      MapStep(r.host, e);
      PtyStep(r.host, e);
      TimerStep(r.host, e);
      DataStep(r, e);
    }
  }

  // ---------------------------------------------------------------- main results

  ghost predicate Refers(h: Host, t: TerminalId, p: PtyId) {
    t in h.terminals && h.terminals[t] < |h.records| && h.records[h.terminals[t]].pty == Some(p)
  }

  lemma LiveReferencedOnce(h: Host, p: PtyId)
    requires MapConsistent(h) && PtysReferenced(h) && p < |h.ptys| && h.ptys[p] == Live
    ensures exists t :: Refers(h, t, p) && forall u :: Refers(h, u, p) ==> u == t
  {
    var r: RecordId :| Owns(h, r, p);
    var t := h.records[r].terminalId;
    assert Refers(h, t, p);
    forall u | Refers(h, u, p) ensures u == t {
      assert EntryConsistent(h, u);
    }
  }

  /** Under every interleaving, a spawned PTY that was neither killed nor exited is referenced by exactly
      one entry of the terminal map. */
  lemma LivePtyReferencedOnce(es: seq<Event>, p: PtyId)
    requires p < |RunOf(es).host.ptys| && RunOf(es).host.ptys[p] == Live
    ensures exists t :: Refers(RunOf(es).host, t, p) && forall u :: Refers(RunOf(es).host, u, p) ==> u == t
  {
    RunKeepsInv(es);
    LiveReferencedOnce(RunOf(es).host, p);
  }

  /** A data, timer or exit callback of a record that is not in the map sends nothing and leaves the map
      and every other record alone. */
  lemma StaleCallbackIsInert(h: Host, e: Event)
    requires MapConsistent(h) && (e.Data? || e.TimerFires? || e.Exit?) && !IsCurrent(h, e.record)
    ensures After(h, e).sent == []
    ensures After(h, e).host.terminals == h.terminals && |After(h, e).host.records| == |h.records|
    ensures forall s :: 0 <= s < |h.records| && s != e.record ==> After(h, e).host.records[s] == h.records[s]
    ensures forall s :: IsCurrent(After(h, e).host, s) <==> IsCurrent(h, s)
  {
  }

  ghost predicate SilentBetween(before: seq<Message>, after: seq<Message>, r: RecordId) {
    before <= after && forall i :: |before| <= i < |after| ==> !SentBy(after[i], r)
  }

  lemma GoneStaysGone(run: Run, e: Event, r: RecordId)
    requires Inv(run) && r < |run.host.records| && !IsCurrent(run.host, r)
    ensures r < |Observe(run, e).host.records| && !IsCurrent(Observe(run, e).host, r)
    ensures SilentBetween(run.log, Observe(run, e).log, r)
  {
    OnlyAdded(run.host, e);
    OnlyCurrentSend(run.host, e, r);
    if IsCurrent(After(run.host, e).host, r) {
      CurrentWasCurrent(run.host, e, r);
    }
    SilentSuffix(run.log, After(run.host, e).sent, r);
  }

  lemma SilentSuffix(log: seq<Message>, sent: seq<Message>, r: RecordId)
    requires forall m :: m in sent ==> !SentBy(m, r)
    ensures SilentBetween(log, log + sent, r)
  {
    forall i | |log| <= i < |log + sent| ensures !SentBy((log + sent)[i], r) {
      assert (log + sent)[i] == sent[i - |log|];
    }
  }

  /** In no run does a record that left the map come back, or send anything ever after. */
  lemma {:induction false} GoneRecordsStaySilent(es: seq<Event>, more: seq<Event>, r: RecordId)
    requires r < |RunOf(es).host.records| && !IsCurrent(RunOf(es).host, r)
    ensures r < |RunOf(es + more).host.records| && !IsCurrent(RunOf(es + more).host, r)
    ensures SilentBetween(RunOf(es).log, RunOf(es + more).log, r)
  {
    if more == [] {
      assert es + more == es;
    } else {
      var before, e := more[..|more| - 1], more[|more| - 1];
      assert more == before + [e];
      GoneRecordsStaySilent(es, before, r);
      RunExtended(es, before, e);
      RunKeepsInv(es + before);
      var run := RunOf(es + before);
      GoneStaysGone(run, e, r);
      SilentThroughout(RunOf(es).log, run.log, Observe(run, e).log, r);
    }
  }

  lemma SilentThroughout(a: seq<Message>, b: seq<Message>, c: seq<Message>, r: RecordId)
    requires SilentBetween(a, b, r) && SilentBetween(b, c, r)
    ensures SilentBetween(a, c, r)
  {
    forall i | |a| <= i < |c| ensures !SentBy(c[i], r) {
      if i < |b| { assert c[i] == b[i]; }
    }
  }

  lemma RunExtended(es: seq<Event>, before: seq<Event>, e: Event)
    ensures RunOf(es + (before + [e])) == Observe(RunOf(es + before), e)
  {
    var all := es + (before + [e]);
    assert all[..|all| - 1] == es + before && all[|all| - 1] == e;
  }

  function FlushAndClose(r: RecordId, buffer: string): seq<Message> {
    (if buffer != "" then [Output(r, buffer)] else []) + [Closed(r)]
  }

  lemma FlushedLog(log: seq<Message>, r: RecordId, buffer: string)
    ensures var after := log + FlushAndClose(r, buffer);
            Outputs(after, r) == Outputs(log, r) + buffer && log < after && after[|after| - 1] == Closed(r)
  {
    if buffer == "" {
      assert FlushAndClose(r, buffer) == [Closed(r)];
      OutputsSnoc(log, Closed(r), r);
    } else {
      var flushed := log + [Output(r, buffer)];
      OutputsSnoc(log, Output(r, buffer), r);
      OutputsSnoc(flushed, Closed(r), r);
      assert log + FlushAndClose(r, buffer) == flushed + [Closed(r)];
    }
    var out := Outputs(log, r);
    assert (out + buffer) + "" == out + buffer && out + "" == out;
  }

  lemma ExitDelivers(run: Run, r: RecordId)
    requires WellFormed(run.host) && IsCurrent(run.host, r) && Conserved(run, r)
    requires run.host.records[r].exitHooked
    requires run.host.records[r].pty.Some? && run.host.records[r].pty.value < |run.host.ptys|
    ensures var after := Observe(run, Exit(r));
            && Outputs(after.log, r) == Produced(after, r) == Produced(run, r)
            && run.log < after.log && after.log[|after.log| - 1] == Closed(r) && !IsCurrent(after.host, r)
  {
    assert After(run.host, Exit(r)).sent == FlushAndClose(r, run.host.records[r].buffer);
    FlushedLog(run.log, r, run.host.records[r].buffer);
  }

  /** When a terminal exits by itself, its output messages carry everything its callback was handed, in
      order and once, and the closing message comes after them. */
  lemma NaturalExitDeliversEverything(es: seq<Event>, r: RecordId)
    requires IsCurrent(RunOf(es).host, r) && RunOf(es).host.records[r].exitHooked
    requires RunOf(es).host.records[r].pty.Some?
    ensures var after := RunOf(es + [Exit(r)]);
            && Outputs(after.log, r) == Produced(after, r) == Produced(RunOf(es), r)
            && RunOf(es).log < after.log && after.log[|after.log| - 1] == Closed(r) && !IsCurrent(after.host, r)
  {
    RunKeepsInv(es);
    var run := RunOf(es);
    assert Conserved(run, r);
    ExitDelivers(run, r);
    RunSnoc(es, Exit(r));
  }

  lemma RunSnoc(es: seq<Event>, e: Event)
    ensures RunOf(es + [e]) == Observe(RunOf(es), e)
  {
    assert (es + [e])[..|es|] == es;
  }

  /** Data a record in the map still holds back is going to be sent: its timer is scheduled. */
  lemma BufferedDataIsScheduled(es: seq<Event>, r: RecordId)
    requires IsCurrent(RunOf(es).host, r) && RunOf(es).host.records[r].buffer != ""
    ensures r in RunOf(es).host.armed
  {
    RunKeepsInv(es);
    assert TimerConsistent(RunOf(es).host, r);
  }

  /** A step that leaves an id in the map leaves it with its owner: another record can take its place only
      for the same conversation and route, and the same workspace generation if there is a route. */
  lemma OnlyItsOwnerReplacesATerminal(h: Host, e: Event, t: TerminalId)
    requires MapConsistent(h) && t in h.terminals && t in After(h, e).host.terminals
    ensures After(h, e).host.terminals[t] < |After(h, e).host.records|
    ensures var was := h.records[h.terminals[t]].owner;
            var now := After(h, e).host.records[After(h, e).host.terminals[t]].owner;
            && now.conversationId == was.conversationId && now.routeKey == was.routeKey
            && (was.routeKey != "" ==> now.generation == was.generation)
  {
    assert EntryConsistent(h, t);
  }

  // ---------------------------------------------------------------- what each event comes to

  /** Nothing changes for other ids. */
  ghost predicate SameOtherEntries(h: Host, h': Host, id: TerminalId) {
    forall t :: t != id ==> (t in h.terminals <==> t in h'.terminals)
                            && (t in h.terminals ==> h.terminals[t] == h'.terminals[t])
  }

  /** `owner` may ask for the terminal under `id`: it names a generation if it names a route, and is the owner of what
      is there. */
  predicate MayCreate(h: Host, id: TerminalId, owner: Owner)
    requires WellFormed(h)
  {
    && (owner.routeKey != "" ==> owner.generation != "")
    && (id in h.terminals ==> RouteOwnerMatches(h.records[h.terminals[id]].owner, owner))
  }

  /** A creation is rejected, or waits under its id with the requested owner; what was there is gone, cancelled and its
      process killed. */
  lemma CreationWaits(es: seq<Event>, request: Request)
    ensures var h := RunOf(es).host;
            var r, id := After(h, Create(request)), request.terminalId;
            if !MayCreate(h, id, request.owner) then r == Result(h, [OwnerMismatch(id)])
            else
              && r.sent == [] && id in r.host.terminals && r.host.terminals[id] == |h.records|
              && IsCurrent(r.host, |h.records|) && |h.records| in r.host.awaiting
              && r.host.records[|h.records|].owner == request.owner
              && r.host.records[|h.records|].requestId == request.requestId
              && (id in h.terminals ==> IsStopped(r.host, h.terminals[id])) && SameOtherEntries(h, r.host, id)
  {
    RunKeepsInv(es);
    var h := RunOf(es).host;
    assert request.terminalId in h.terminals ==> EntryConsistent(h, request.terminalId);
    if request.terminalId in h.terminals {
      assert TimerConsistent(h, h.terminals[request.terminalId]);
    }
  }

  /** The record is cancelled, its timer off and its process, if it has one, not running. */
  ghost predicate IsStopped(h: Host, r: RecordId) {
    && r < |h.records| && h.records[r].cancelled && r !in h.armed
    && (h.records[r].pty.Some? && h.records[r].pty.value < |h.ptys| ==> h.ptys[h.records[r].pty.value] != Live)
  }

  /** A creation that still stands when its backend is loaded ends with a new record under its id, on a live process of
      its own and for the owner that asked, if a process was spawned; it is announced as created exactly if nothing
      threw, and as failed otherwise. Without a process the id is free again. */
  lemma CreationIsAnswered(es: seq<Event>, r: RecordId, outcome: SpawnOutcome)
    requires IsCurrent(RunOf(es).host, r) && r in RunOf(es).host.awaiting
    ensures var h := RunOf(es).host;
            var result, id, k := After(h, Resume(r, outcome)), h.records[r].terminalId, |h.records|;
            && SameOtherEntries(h, result.host, id) && r !in result.host.awaiting
            && (outcome.Spawned? ==>
                  && id in result.host.terminals && result.host.terminals[id] == k && IsCurrent(result.host, k)
                  && result.host.records[k].owner == h.records[r].owner
                  && result.host.records[k].pty == Some(|h.ptys|) && result.host.ptys == h.ptys + [Live]
                  && (result.sent == [Created(k)] <==> outcome == Spawned(true, true, true))
                  && (result.sent == [Failed(k)] <==> outcome != Spawned(true, true, true)))
            && (!outcome.Spawned? ==>
                  id !in result.host.terminals && result.host.ptys == h.ptys && result.sent == [Failed(r)])
  {
    RunKeepsInv(es);
  }

  /** A creation that was closed, replaced, deleted or disconnected in the meantime ends without a word. */
  lemma LostCreationIsSilent(h: Host, r: RecordId, outcome: SpawnOutcome)
    requires WellFormed(h) && (!IsCurrent(h, r) || r !in h.awaiting)
    ensures var result := After(h, Resume(r, outcome));
            result.sent == [] && result.host.terminals == h.terminals && result.host.ptys == h.ptys
            && result.host.records == h.records
  {
  }

  /** The armed timer of a record in the map sends everything the record was handed and has not sent, and holds
      nothing back. */
  lemma TimerDelivers(es: seq<Event>, r: RecordId)
    requires IsCurrent(RunOf(es).host, r) && r in RunOf(es).host.armed
    ensures var run := RunOf(es + [TimerFires(r)]);
            && r < |run.host.records| && run.host.records[r].buffer == "" && IsCurrent(run.host, r)
            && Outputs(run.log, r) == Produced(run, r) == Produced(RunOf(es), r)
  {
    RunSnoc(es, TimerFires(r));
    RunKeepsInv(es);
    RunKeepsInv(es + [TimerFires(r)]);
    var run := RunOf(es + [TimerFires(r)]);
    assert Conserved(run, r);
    assert Outputs(run.log, r) + "" == Outputs(run.log, r);
  }

  /** A process that exits by itself while its record is in the map with its exit callback frees the id and is
      announced as closed. */
  lemma ExitFrees(es: seq<Event>, r: RecordId)
    requires var h := RunOf(es).host; IsCurrent(h, r) && h.records[r].pty.Some? && h.records[r].exitHooked
    ensures var h := RunOf(es).host;
            var result, id := After(h, Exit(r)), h.records[r].terminalId;
            && id !in result.host.terminals && SameOtherEntries(h, result.host, id)
            && result.sent != [] && result.sent[|result.sent| - 1] == Closed(r)
            && r !in result.host.armed && result.host.records[r].buffer == ""
  {
    RunKeepsInv(es);
  }

  /** A terminal closes for a request of its owner, which names its creation if it names one, and is rejected to others. */
  lemma CloseFreesExactly(es: seq<Event>, request: Request)
    ensures var h := RunOf(es).host;
            var result, id := After(h, Close(request)), request.terminalId;
            if id !in h.terminals then result == Result(h, [])
            else
              var r := h.terminals[id];
              if RouteOwnerMatches(h.records[r].owner, request.owner) && request.requestId in {"", h.records[r].requestId}
              then && id !in result.host.terminals && IsStopped(result.host, r) && result.sent == [Closed(r)]
                   && SameOtherEntries(h, result.host, id)
              else result == Result(h, [OwnerMismatch(id)])
  {
    RunKeepsInv(es);
  }

  /** A disconnect empties the map and stops every terminal that was in it, without a word. */
  lemma DisconnectStopsAll(es: seq<Event>)
    ensures var h := RunOf(es).host;
            var result := After(h, Disconnect);
            && result.host.terminals == map[] && result.sent == []
            && forall t :: t in h.terminals ==> IsStopped(result.host, h.terminals[t])
  {
    RunKeepsInv(es);
    var h := RunOf(es).host;
    var h' := After(h, Disconnect).host;
    forall t | t in h.terminals ensures IsStopped(h', h.terminals[t]) {
      var r := h.terminals[t];
      if h.records[r].pty.Some? {
        assert HoldsPty(h, h.records[r].pty.value);
      }
    }
  }

  /** Deleting a conversation frees exactly the ids that are its own or of terminals it owns, and no process of theirs
      runs on. */
  lemma DeletionFreesExactly(es: seq<Event>, conversationId: string, t: TerminalId)
    requires t in RunOf(es).host.terminals
    ensures var h := RunOf(es).host;
            var result, r := After(h, DeleteConversation(conversationId)), h.terminals[t];
            var gone := t == conversationId || h.records[r].owner.conversationId == conversationId;
            && (t in result.host.terminals <==> !gone) && (!gone ==> result.host.terminals[t] == r) && result.sent == []
            && (gone ==> r !in result.host.armed)
            && (gone && h.records[r].pty.Some? ==>
                  h.records[r].pty.value < |result.host.ptys| && result.host.ptys[h.records[r].pty.value] != Live)
  {
    RunKeepsInv(es);
    var h := RunOf(es).host;
    assert EntryConsistent(h, t);
  }

  /** A terminal answers to its own owner unless it was created with a generation but no route. */
  lemma OwnerMatchesItself(owner: Owner)
    ensures RouteOwnerMatches(owner, owner) <==> (owner.routeKey != "" || owner.generation == "")
  {
  }

  // ---------------------------------------------------------------- the agent's own state

  class TerminalHost {
    var terminals: map<TerminalId, RecordId>
    var records: seq<Record>
    var ptys: seq<PtyStatus>
    var armed: set<RecordId>
    var awaiting: set<RecordId>

    function Snapshot(): Host
      reads this
    {
      Host(terminals, records, ptys, armed, awaiting)
    }

    constructor ()
      ensures Snapshot() == START.host
    {
      terminals, records, ptys, armed, awaiting := map[], [], [], {}, {};
    }

    method KillPty(pty: Option<PtyId>)
      modifies this`ptys
      ensures Snapshot() == Kill(old(Snapshot()), pty)
    {
      if pty.Some? && pty.value < |ptys| && ptys[pty.value] == Live {
        ptys := ptys[pty.value := Killed];
      }
    }

    method CancelRecord(r: RecordId)
      requires r < |records|
      modifies this`records, this`armed
      ensures Snapshot() == Cancel(old(Snapshot()), r)
    {
      records := records[r := records[r].(cancelled := true, timer := false)];
      armed := armed - {r};
    }

    /** `handleTerminalCreate` up to its `await`. */
    method HandleTerminalCreate(request: Request) returns (sent: seq<Message>)
      requires WellFormed(Snapshot())
      modifies this
      ensures Result(Snapshot(), sent) == After(old(Snapshot()), Create(request))
    {
      var id := request.terminalId;
      if request.owner.routeKey != "" && request.owner.generation == "" {
        return [OwnerMismatch(id)];
      }
      if id in terminals {
        var existing := terminals[id];
        if !RouteOwnerMatches(records[existing].owner, request.owner) {
          return [OwnerMismatch(id)];
        }
        CancelRecord(existing);
        terminals := terminals - {id};
        KillPty(records[existing].pty);
      }
      var pendingCreation := |records|;
      records := records + [Record(id, request.owner, request.requestId, None, false, "", false, false, false)];
      terminals := terminals[id := pendingCreation];
      awaiting := awaiting + {pendingCreation};
      return [];
    }

    /** The rest of `handleTerminalCreate`. */
    method ResumeTerminalCreate(pendingCreation: RecordId, outcome: SpawnOutcome) returns (sent: seq<Message>)
      requires pendingCreation < |records| && WellFormed(Snapshot())
      modifies this
      ensures Result(Snapshot(), sent) == After(old(Snapshot()), Resume(pendingCreation, outcome))
    {
      if pendingCreation !in awaiting {
        return [];
      }
      awaiting := awaiting - {pendingCreation};
      var p := records[pendingCreation];
      if p.terminalId !in terminals || terminals[p.terminalId] != pendingCreation || p.cancelled {
        return [];
      }
      if !outcome.Spawned? {
        terminals := terminals - {p.terminalId};
        return [Failed(pendingCreation)];
      }
      var ptyProcess, terminalRecord := |ptys|, |records|;
      ptys := ptys + [Live];
      records := records + [p.(pty := Some(ptyProcess), dataHooked := outcome.dataHooked,
                               exitHooked := outcome.dataHooked && outcome.exitHooked)];
      terminals := terminals[p.terminalId := terminalRecord];
      if outcome.dataHooked && outcome.exitHooked && outcome.announced {
        return [Created(terminalRecord)];
      }
      return [Failed(terminalRecord)];
    }

    method OnData(terminalRecord: RecordId, data: string)
      requires WellFormed(Snapshot())
      modifies this
      ensures Result(Snapshot(), []) == After(old(Snapshot()), Data(terminalRecord, data))
    {
      if !IsCurrent(Snapshot(), terminalRecord) || !records[terminalRecord].dataHooked {
        return;
      }
      var hadTimer := records[terminalRecord].timer;
      records := records[terminalRecord :=
        records[terminalRecord].(buffer := records[terminalRecord].buffer + data, timer := true)];
      if !hadTimer {
        armed := armed + {terminalRecord};
      }
    }

    method OnTimer(terminalRecord: RecordId) returns (sent: seq<Message>)
      requires WellFormed(Snapshot())
      modifies this
      ensures Result(Snapshot(), sent) == After(old(Snapshot()), TimerFires(terminalRecord))
    {
      if terminalRecord !in armed || terminalRecord >= |records| {
        return [];
      }
      sent := if IsCurrent(Snapshot(), terminalRecord) then [Output(terminalRecord, records[terminalRecord].buffer)] else [];
      armed := armed - {terminalRecord};
      records := records[terminalRecord := records[terminalRecord].(buffer := "", timer := false)];
    }

    method OnExit(terminalRecord: RecordId) returns (sent: seq<Message>)
      requires WellFormed(Snapshot())
      modifies this
      ensures Result(Snapshot(), sent) == After(old(Snapshot()), Exit(terminalRecord))
    {
      sent := [];
      if terminalRecord >= |records| || records[terminalRecord].pty.None?
         || records[terminalRecord].pty.value >= |ptys| {
        return;
      }
      ptys := ptys[records[terminalRecord].pty.value := Exited];
      if !IsCurrent(Snapshot(), terminalRecord) || !records[terminalRecord].exitHooked {
        return;
      }
      var term := records[terminalRecord];
      if term.buffer != "" {
        sent := [Output(terminalRecord, term.buffer)];
      }
      records := records[terminalRecord := term.(buffer := "", timer := false)];
      armed := armed - {terminalRecord};
      terminals := terminals - {term.terminalId};
      sent := sent + [Closed(terminalRecord)];
    }

    method HandleTerminalClose(request: Request) returns (sent: seq<Message>)
      requires WellFormed(Snapshot())
      modifies this
      ensures Result(Snapshot(), sent) == After(old(Snapshot()), Close(request))
    {
      var id := request.terminalId;
      if id !in terminals {
        return [];
      }
      var term := terminals[id];
      if !OwnerMatches(records[term], request) {
        return [OwnerMismatch(id)];
      }
      CancelRecord(term);
      terminals := terminals - {id};
      KillPty(records[term].pty);
      return [Closed(term)];
    }

    /** First every record is cancelled and the map is emptied, only then are the PTYs killed. */
    method CleanupTerminalsForDisconnect()
      requires WellFormed(Snapshot())
      modifies this
      ensures Result(Snapshot(), []) == After(old(Snapshot()), Disconnect)
    {
      var entries := terminals;
      CancelRecords(entries);
      terminals := map[];
      KillPtys(entries);
    }

    method CancelRecords(entries: map<TerminalId, RecordId>)
      requires forall t :: t in entries ==> entries[t] < |records|
      modifies this`records, this`armed
      ensures armed == old(armed) - entries.Values && |records| == |old(records)|
      ensures forall r :: 0 <= r < |records| ==>
                records[r] == (if r in entries.Values then old(records)[r].(cancelled := true, timer := false)
                               else old(records)[r])
    {
      var unvisited := entries.Keys;
      while unvisited != {}
        invariant unvisited <= entries.Keys && |records| == |old(records)|
        invariant forall r :: 0 <= r < |records| ==>
                    records[r] == (if Visited(entries, unvisited, r)
                                   then old(records)[r].(cancelled := true, timer := false) else old(records)[r])
        invariant forall r :: r in armed <==> r in old(armed) && !Visited(entries, unvisited, r)
      {
        var t :| t in unvisited;
        ghost var left := unvisited;
        unvisited := unvisited - {t};
        assert unvisited + {t} == left;
        CancelRecord(entries[t]);
        forall r: RecordId
          ensures Visited(entries, unvisited, r) <==> Visited(entries, left, r) || r == entries[t] {
          VisitOne(entries, unvisited, t, r);
        }
      }
    }

    method KillPtys(entries: map<TerminalId, RecordId>)
      requires forall t :: t in entries ==> entries[t] < |records|
      modifies this`ptys
      ensures |ptys| == |old(ptys)|
      ensures forall p :: 0 <= p < |ptys| ==>
                ptys[p] == (if old(ptys)[p] == Live && VisitedPty(entries, records, {}, p)
                            then Killed else old(ptys)[p])
    {
      var unvisited := entries.Keys;
      while unvisited != {}
        invariant unvisited <= entries.Keys && |ptys| == |old(ptys)|
        invariant forall p :: 0 <= p < |ptys| ==>
                    ptys[p] == (if old(ptys)[p] == Live && VisitedPty(entries, records, unvisited, p)
                                then Killed else old(ptys)[p])
      {
        var t :| t in unvisited;
        unvisited := unvisited - {t};
        KillPty(records[entries[t]].pty);
      }
    }

    method DeleteConversationTerminals(conversationId: string)
      requires WellFormed(Snapshot())
      modifies this
      ensures Result(Snapshot(), []) == After(old(Snapshot()), DeleteConversation(conversationId))
    {
      ghost var before := Snapshot();
      var unvisited := terminals.Keys;
      while unvisited != {}
        invariant unvisited <= terminals.Keys && DeletedFrom(before, unvisited, conversationId, Snapshot())
        invariant DisarmedFrom(before, unvisited, conversationId, Snapshot())
        invariant KilledFrom(before, unvisited, conversationId, Snapshot())
      {
        var t :| t in unvisited;
        ghost var h, left := Snapshot(), unvisited;
        unvisited := unvisited - {t};
        assert unvisited + {t} == left;
        var term := terminals[t];
        if records[term].owner.conversationId == conversationId || t == conversationId {
          KillPty(records[term].pty);
          armed := armed - {term};
          terminals := terminals - {t};
        }
        DeletedOne(before, unvisited, conversationId, t, h, Snapshot());
        DisarmedOne(before, unvisited, conversationId, t, h, Snapshot());
        KilledOne(before, unvisited, conversationId, t, h, Snapshot());
      }
      DeletionDone(before, conversationId, Snapshot());
    }
  }

  lemma DeletionDone(before: Host, conversationId: string, h: Host)
    requires WellFormed(before)
    requires DeletedFrom(before, {}, conversationId, h) && DisarmedFrom(before, {}, conversationId, h)
    requires KilledFrom(before, {}, conversationId, h)
    ensures AfterDelete(before, conversationId) == Result(h, [])
  {
  }

  /** How far the deletion of a conversation's terminals has come: the map, the timers, the PTYs. */
  ghost predicate DeletedFrom(before: Host, unvisited: set<TerminalId>, conversationId: string, h: Host)
    requires WellFormed(before)
  {
    && h.records == before.records && h.awaiting == before.awaiting
    && h.terminals.Keys <= before.terminals.Keys
    && (forall t :: t in h.terminals ==> h.terminals[t] == before.terminals[t])
    && (forall t :: t in before.terminals ==>
          (t in h.terminals <==> t in unvisited || !BelongsTo(before, t, conversationId)))
  }

  ghost predicate DisarmedFrom(before: Host, unvisited: set<TerminalId>, conversationId: string, h: Host)
    requires WellFormed(before)
  {
    forall r :: r in h.armed <==> r in before.armed && !DroppedRecord(before, unvisited, conversationId, r)
  }

  ghost predicate KilledFrom(before: Host, unvisited: set<TerminalId>, conversationId: string, h: Host)
    requires WellFormed(before)
  {
    && |h.ptys| == |before.ptys|
    && forall p :: 0 <= p < |h.ptys| ==>
         h.ptys[p] == (if before.ptys[p] == Live && DroppedPty(before, unvisited, conversationId, p)
                       then Killed else before.ptys[p])
  }

  lemma DeletedOne(before: Host, unvisited: set<TerminalId>, conversationId: string, t: TerminalId, h: Host, h': Host)
    requires WellFormed(before) && t in before.terminals && t !in unvisited
    requires DeletedFrom(before, unvisited + {t}, conversationId, h)
    requires h'.records == h.records && h'.awaiting == h.awaiting
    requires h'.terminals == if BelongsTo(before, t, conversationId) then h.terminals - {t} else h.terminals
    ensures DeletedFrom(before, unvisited, conversationId, h')
  {
  }

  lemma DisarmedOne(before: Host, unvisited: set<TerminalId>, conversationId: string, t: TerminalId, h: Host, h': Host)
    requires WellFormed(before) && t in before.terminals && t !in unvisited
    requires DisarmedFrom(before, unvisited + {t}, conversationId, h)
    requires h'.armed == if BelongsTo(before, t, conversationId) then h.armed - {before.terminals[t]} else h.armed
    ensures DisarmedFrom(before, unvisited, conversationId, h')
  {
    DropOne(before, unvisited, conversationId, t);
  }

  lemma KilledOne(before: Host, unvisited: set<TerminalId>, conversationId: string, t: TerminalId, h: Host, h': Host)
    requires WellFormed(before) && t in before.terminals && t !in unvisited
    requires KilledFrom(before, unvisited + {t}, conversationId, h)
    requires h'.ptys == if BelongsTo(before, t, conversationId)
                        then Kill(h, before.records[before.terminals[t]].pty).ptys else h.ptys
    ensures KilledFrom(before, unvisited, conversationId, h')
  {
    DropOne(before, unvisited, conversationId, t);
  }

  ghost predicate Visited(entries: map<TerminalId, RecordId>, unvisited: set<TerminalId>, r: RecordId) {
    exists t :: t in entries && t !in unvisited && entries[t] == r
  }

  lemma VisitOne(entries: map<TerminalId, RecordId>, unvisited: set<TerminalId>, t: TerminalId, r: RecordId)
    requires t in entries && t !in unvisited
    ensures Visited(entries, unvisited, r) <==> Visited(entries, unvisited + {t}, r) || r == entries[t]
  {
  }

  ghost predicate VisitedPty(entries: map<TerminalId, RecordId>, records: seq<Record>, unvisited: set<TerminalId>,
                             p: PtyId)
    requires forall t :: t in entries ==> entries[t] < |records|
  {
    exists t :: t in entries && t !in unvisited && records[entries[t]].pty == Some(p)
  }

  lemma DropOne(h: Host, unvisited: set<TerminalId>, conversationId: string, t: TerminalId)
    requires WellFormed(h) && t in h.terminals && t !in unvisited
    ensures forall r: RecordId :: DroppedRecord(h, unvisited, conversationId, r) <==>
              || DroppedRecord(h, unvisited + {t}, conversationId, r)
              || (BelongsTo(h, t, conversationId) && h.terminals[t] == r)
    ensures forall p: PtyId :: DroppedPty(h, unvisited, conversationId, p) <==>
              || DroppedPty(h, unvisited + {t}, conversationId, p)
              || (BelongsTo(h, t, conversationId) && h.records[h.terminals[t]].pty == Some(p))
  {
  }

  ghost predicate DroppedRecord(h: Host, unvisited: set<TerminalId>, conversationId: string, r: RecordId)
    requires WellFormed(h)
  {
    exists t :: t in h.terminals && t !in unvisited && BelongsTo(h, t, conversationId) && h.terminals[t] == r
  }

  ghost predicate DroppedPty(h: Host, unvisited: set<TerminalId>, conversationId: string, p: PtyId)
    requires WellFormed(h)
  {
    exists t :: t in h.terminals && t !in unvisited && BelongsTo(h, t, conversationId)
                && h.records[h.terminals[t]].pty == Some(p)
  }
}
