/** The Windows upgrade handoff (agent/upgrade-command.js, agent/windows-upgrade-bootstrap.js,
    agent/windows-upgrade-runner.js).

    Of every upgrade attempt three processes take part: the agent that launches it, a short-lived
    bootstrap, and the detached runner that removes the PM2 app and installs. They share one lock
    directory per instance and, per attempt, the files `started`, `authorized` and `cancelled`. One
    action below is one file-system or process operation of one of them; any process may die between
    two actions, and attempts interleave freely.
  */
module WindowsUpgrade {
  import opened Text

  type RunId = nat

  /** The lock directory and the run its `owner.json` names, if that file can be read. */
  datatype Lock = Free | Held(owner: Option<RunId>)

  /** A marker file; while it is being written it cannot be parsed. */
  datatype Marker = Absent | Torn | Written

  /** A look at a file: it finds what it is after, or not, or the file cannot be read. */
  datatype Look = Found | NotFound | Unreadable

  datatype LauncherPc =
    | Idle | Locked | Owned | Undoing | Prepared | Copied
    | AwaitSpawn | AwaitHandoff | AwaitExit | Authorizing
    | Cancelling | Killing | RemovingHandoff
    | Releasing | Removing
    | Returned | Threw

  datatype BootstrapPc = NotStarted | Running | ExitedWell | ExitedBadly

  datatype RunnerPc =
    | NotSpawned | Started | Announcing | PollCancel | PollAuthorize | AwaitParent | LastCheck
    | Stopping | Restoring | Installing | Restarting
    | CleaningUp | ReleasingLock | RemovingLock
    | Finished

  /** One attempt. The last six fields are history: the attempt made the lock directory, removed it,
      completed its authorization, completed its cancel marker, could not read that marker when it looked
      for the last time, and what it had PM2 and npm do. */
  datatype Attempt = Attempt(
    launcher: LauncherPc, parentAlive: bool, bootstrapSpawned: bool, bootstrap: BootstrapPc, runner: RunnerPc,
    handoff: Marker, authorize: Marker, cancel: Marker,
    acquired: bool, released: bool, authorizeWritten: bool, cancelWritten: bool, blind: bool, work: seq<RunnerAction>)

  const FRESH: Attempt := Attempt(Idle, true, false, NotStarted, NotSpawned, Absent, Absent, Absent,
                                  false, false, false, false, false, [])

  /** Attempts that were never begun are not in the map. */
  datatype System = System(lock: Lock, attempts: map<RunId, Attempt>)

  const START: System := System(Free, map[])

  datatype LauncherAction =
    // createWindowsUpgradeRun and prepareWindowsUpgradeRunner
    | MakeLock(free: bool) | WriteOwner(ok: bool, landed: bool) | MakeRunDir(ok: bool) | CopyFiles(ok: bool)
    // launchWindowsUpgradeScript
    | SpawnThrows | Spawn(starts: bool) | SeeSpawn | SeeSpawnError | SeeHandoff | GiveUpHandoff
    | SeeExit | GiveUpExit | BeginAuthorize | EndAuthorize | AuthorizeReturns | AuthorizeThrows
    | BeginCancel | EndCancel | CancelOver | KillBootstrap | RemoveHandoff(ok: bool)
    // releaseWindowsUpgradeLock and the recursive removal, by the launcher
    | ReadOwner(look: Look) | RemoveOwner | RemoveLock | RemovalFails

  datatype RunnerAction =
    // runWindowsUpgrade
    | CheckCancelled(ok: bool, look: Look) | BeginHandoff | EndHandoff | HandoffFails
    | ReadCancel(look: Look) | ReadAuthorize(look: Look) | PollTimeout | SeeParentGone | ParentTimeout
    | CheckAgain(look: Look)
    | StopService(ok: bool) | RestoreService(ok: bool) | Install(ok: bool) | RestartService(ok: bool) | RemoveMarkers
    // releaseWindowsUpgradeLock, by the runner
    | RunnerReadsOwner(look: Look) | RunnerRemovesOwner | RunnerRemovesLock | RunnerRemovalFails
    | RunnerDies

  datatype Action =
    | ByLauncher(launched: LauncherAction)
    | ByRunner(ran: RunnerAction)
    | ParentDies
    // the bootstrap
    | BootstrapSpawns | BootstrapExits(well: bool)

  // ---------------------------------------------------------------- the programs

  function GoIf<Pc>(here: bool, next: Pc): Option<Pc> {
    if here then Some(next) else None
  }

  function Reached<Pc>(next: Option<Pc>, pc: Pc): Pc {
    if next.Some? then next.value else pc
  }

  /** The launcher's program: where it goes from `pc` with the action, if that can come next; `spawned` is the
      program's variable of that name. */
  function LauncherGoes(pc: LauncherPc, spawned: bool, a: LauncherAction): Option<LauncherPc> {
    match a
    case MakeLock(free) => GoIf(pc.Idle?, if free then Locked else Threw)
    case WriteOwner(ok, _) => GoIf(pc.Locked?, if ok then Owned else Undoing)
    case MakeRunDir(ok) => GoIf(pc.Owned?, if ok then Prepared else Undoing)
    case CopyFiles(ok) => GoIf(pc.Prepared?, if ok then Copied else Releasing)
    case SpawnThrows => GoIf(pc.Copied?, Releasing)
    case Spawn(_) => GoIf(pc.Copied?, AwaitSpawn)
    case SeeSpawn => GoIf(pc.AwaitSpawn?, AwaitHandoff)
    case SeeSpawnError => GoIf(pc.AwaitSpawn?, Cancelling)
    case SeeHandoff => GoIf(pc.AwaitHandoff?, AwaitExit)
    case GiveUpHandoff => GoIf(pc.AwaitHandoff?, Cancelling)
    case SeeExit => GoIf(pc.AwaitExit?, Authorizing)
    case GiveUpExit => GoIf(pc.AwaitExit?, Cancelling)
    case BeginAuthorize => GoIf(pc.Authorizing?, Authorizing)
    case EndAuthorize => GoIf(pc.Authorizing?, Authorizing)
    case AuthorizeReturns => GoIf(pc.Authorizing?, Returned)
    case AuthorizeThrows => GoIf(pc.Authorizing?, Cancelling)
    case BeginCancel => GoIf(pc.Cancelling?, Cancelling)
    case EndCancel => GoIf(pc.Cancelling?, Cancelling)
    case CancelOver => GoIf(pc.Cancelling?, Killing)
    case KillBootstrap => GoIf(pc.Killing?, RemovingHandoff)
    case RemoveHandoff(_) => GoIf(pc.RemovingHandoff?, if spawned then Threw else Releasing)
    case ReadOwner(look) => GoIf(pc.Releasing?, if look.Found? then Removing else Threw)
    case RemoveOwner => GoIf(pc.Removing? || pc.Undoing?, pc)
    case RemoveLock => GoIf(pc.Removing? || pc.Undoing?, Threw)
    case RemovalFails => GoIf(pc.Removing? || pc.Undoing?, Threw)
  }

  /** The runner's program. */
  function RunnerGoes(pc: RunnerPc, a: RunnerAction): Option<RunnerPc> {
    match a
    case CheckCancelled(ok, look) => GoIf(pc.Started?, if ok && !look.Found? then Announcing else CleaningUp)
    case BeginHandoff => GoIf(pc.Announcing?, Announcing)
    case EndHandoff => GoIf(pc.Announcing?, PollCancel)
    case HandoffFails => GoIf(pc.Announcing?, CleaningUp)
    case ReadCancel(look) => GoIf(pc.PollCancel?, if look.Found? then CleaningUp else PollAuthorize)
    case ReadAuthorize(look) => GoIf(pc.PollAuthorize?, if look.Found? then AwaitParent else PollCancel)
    case PollTimeout => GoIf(pc.PollCancel?, CleaningUp)
    case SeeParentGone => GoIf(pc.AwaitParent?, LastCheck)
    case ParentTimeout => GoIf(pc.AwaitParent?, CleaningUp)
    case CheckAgain(look) => GoIf(pc.LastCheck?, if look.Found? then CleaningUp else Stopping)
    case StopService(ok) => GoIf(pc.Stopping?, if ok then Installing else Restoring)
    case RestoreService(_) => GoIf(pc.Restoring?, CleaningUp)
    case Install(_) => GoIf(pc.Installing?, RunnerPc.Restarting)
    case RestartService(_) => GoIf(pc.Restarting?, CleaningUp)
    case RemoveMarkers => GoIf(pc.CleaningUp?, ReleasingLock)
    case RunnerReadsOwner(look) => GoIf(pc.ReleasingLock?, if look.Found? then RemovingLock else Finished)
    case RunnerRemovesOwner => GoIf(pc.RemovingLock?, RemovingLock)
    case RunnerRemovesLock => GoIf(pc.RemovingLock?, Finished)
    case RunnerRemovalFails => GoIf(pc.RemovingLock?, Finished)
    case RunnerDies => GoIf(!pc.NotSpawned? && !pc.Finished?, Finished)
  }

  // ---------------------------------------------------------------- one attempt among files and processes

  /** Whether the runner of this attempt still is a process. */
  predicate RunnerAlive(x: Attempt) {
    !x.runner.NotSpawned? && !x.runner.Finished?
  }

  /** A look finds what is there, unless the file cannot be read. */
  predicate IsTrue(look: Look, there: bool) {
    look.Unreadable? || (look.Found? <==> there)
  }

  /** Whether the launcher can take the action, given the files. `SeeHandoff` and `SeeExit` do not ask whether the
      runner lives: its process id may have been taken over by another process. */
  predicate LauncherEnabled(lock: Lock, r: RunId, x: Attempt, a: LauncherAction) {
    && x.parentAlive && LauncherGoes(x.launcher, x.bootstrapSpawned, a).Some?
    && match a
       case MakeLock(free) => free == lock.Free?
       case SeeSpawn => !x.bootstrap.NotStarted?
       case SeeSpawnError => x.bootstrap.NotStarted?
       case SeeHandoff => x.handoff.Written?
       case SeeExit => x.bootstrap.ExitedWell?
       case BeginAuthorize => x.authorize.Absent?
       case EndAuthorize => x.authorize.Torn?
       case AuthorizeReturns => x.authorizeWritten
       case BeginCancel => x.cancel.Absent?
       case EndCancel => x.cancel.Torn?
       case ReadOwner(look) => IsTrue(look, lock == Held(Some(r)))
       case RemoveLock => lock == Held(None)
       case _ => true
  }

  predicate RunnerEnabled(lock: Lock, r: RunId, x: Attempt, a: RunnerAction) {
    && RunnerGoes(x.runner, a).Some?
    && match a
       case CheckCancelled(_, look) => IsTrue(look, x.cancel.Written?)
       case ReadCancel(look) => IsTrue(look, x.cancel.Written?)
       case CheckAgain(look) => IsTrue(look, x.cancel.Written?)
       case ReadAuthorize(look) => IsTrue(look, x.authorize.Written?)
       case RunnerReadsOwner(look) => IsTrue(look, lock == Held(Some(r)))
       case SeeParentGone => !x.parentAlive
       case RunnerRemovesLock => lock == Held(None)
       case _ => true
  }

  /** Whether the process concerned can take the action now. */
  predicate Enabled(lock: Lock, r: RunId, x: Attempt, a: Action) {
    match a
    case ByLauncher(l) => LauncherEnabled(lock, r, x, l)
    case ByRunner(q) => RunnerEnabled(lock, r, x, q)
    case ParentDies => x.parentAlive && !x.launcher.Idle?
    case BootstrapSpawns => x.bootstrap.Running? && x.runner.NotSpawned?
    case BootstrapExits(_) => x.bootstrap.Running?
  }

  /** The attempt after an enabled action. */
  function AttemptAfter(x: Attempt, a: Action): Attempt {
    match a
    case ByLauncher(l) =>
      var next := LauncherGoes(x.launcher, x.bootstrapSpawned, l);
      LauncherEffect(x.(launcher := Reached(next, x.launcher)), l)
    case ByRunner(q) => RunnerEffect(x.(runner := Reached(RunnerGoes(x.runner, q), x.runner)), q)
    case ParentDies => x.(parentAlive := false)
    case BootstrapSpawns => x.(runner := Started)
    case BootstrapExits(well) => x.(bootstrap := if well then ExitedWell else ExitedBadly)
  }

  function LauncherEffect(x: Attempt, a: LauncherAction): Attempt {
    match a
    case MakeLock(free) => if free then x.(acquired := true) else x
    case Spawn(starts) => x.(bootstrap := if starts then Running else NotStarted)
    case SeeSpawn => x.(bootstrapSpawned := true)
    case BeginAuthorize => x.(authorize := Torn)
    case EndAuthorize => x.(authorize := Written, authorizeWritten := true)
    case BeginCancel => x.(cancel := Torn)
    case EndCancel => x.(cancel := Written, cancelWritten := true)
    case KillBootstrap => x.(bootstrap := if x.bootstrap.Running? then ExitedBadly else x.bootstrap)
    case RemoveHandoff(ok) => x.(handoff := if ok then Absent else x.handoff)
    case RemoveLock => x.(released := true)
    case _ => x
  }

  function RunnerEffect(x: Attempt, a: RunnerAction): Attempt {
    match a
    case BeginHandoff => x.(handoff := Torn)
    case EndHandoff => x.(handoff := Written)
    case CheckAgain(look) => x.(blind := look.Unreadable?)
    case StopService(_) => x.(work := x.work + [a])
    case RestoreService(_) => x.(work := x.work + [a])
    case Install(_) => x.(work := x.work + [a])
    case RestartService(_) => x.(work := x.work + [a])
    case RemoveMarkers => x.(handoff := Absent, authorize := Absent, cancel := Absent)
    case RunnerRemovesLock => x.(released := true)
    case _ => x
  }

  function WithoutOwner(lock: Lock): Lock {
    if lock.Held? then Held(None) else lock
  }

  function LauncherLock(lock: Lock, r: RunId, a: LauncherAction): Lock {
    match a
    case MakeLock(_) => if lock.Free? then Held(None) else lock
    case WriteOwner(ok, landed) => if lock.Held? then Held(if ok || landed then Some(r) else None) else lock
    case RemoveOwner => WithoutOwner(lock)
    case RemoveLock => Free
    case _ => lock
  }

  function RunnerLock(lock: Lock, a: RunnerAction): Lock {
    match a
    case RunnerRemovesOwner => WithoutOwner(lock)
    case RunnerRemovesLock => Free
    case _ => lock
  }

  function LockAfter(lock: Lock, r: RunId, a: Action): Lock {
    match a
    case ByLauncher(l) => LauncherLock(lock, r, l)
    case ByRunner(q) => RunnerLock(lock, q)
    case _ => lock
  }

  function AttemptOf(s: System, r: RunId): Attempt {
    if r in s.attempts then s.attempts[r] else FRESH
  }

  predicate Possible(s: System, r: RunId, a: Action) {
    Enabled(s.lock, r, AttemptOf(s, r), a)
  }

  function Next(s: System, r: RunId, a: Action): System {
    System(LockAfter(s.lock, r, a), s.attempts[r := AttemptAfter(AttemptOf(s, r), a)])
  }

  datatype Event = Event(run: RunId, action: Action)

  ghost predicate IsTrace(es: seq<Event>) {
    es == [] || (IsTrace(es[..|es| - 1])
                 && Possible(After(es[..|es| - 1]), es[|es| - 1].run, es[|es| - 1].action))
  }

  function After(es: seq<Event>): System {
    if es == [] then START
    else Next(After(es[..|es| - 1]), es[|es| - 1].run, es[|es| - 1].action)
  }

  // ---------------------------------------------------------------- one attempt

  /** The runner is past the authorization it polled for, and past its last look at the cancel marker. */
  predicate PastAuthorization(pc: RunnerPc) {
    pc in {AwaitParent, LastCheck} || PastLastCheck(pc)
  }

  predicate PastLastCheck(pc: RunnerPc) {
    pc in {Stopping, Restoring, Installing, Restarting}
  }

  /** The attempt ran PM2 or npm. */
  predicate Touched(x: Attempt) {
    x.work != []
  }

  /** Nothing is touched but after the authorization and after the death of the parent. */
  ghost predicate AuthorizationInv(x: Attempt) {
    && (x.authorize.Written? || PastAuthorization(x.runner) || Touched(x) ==> x.authorizeWritten)
    && (x.authorizeWritten ==> x.bootstrapSpawned)
    && (x.launcher.Returned? ==> x.authorizeWritten)
    && (x.runner.LastCheck? || PastLastCheck(x.runner) || Touched(x) ==> !x.parentAlive)
  }

  /** And after a look at the cancel marker that nobody can write any more, unless that look failed. */
  ghost predicate CancellationInv(x: Attempt) {
    && (PastLastCheck(x.runner) || Touched(x) ==> !x.cancelWritten || x.blind)
    && (Touched(x) ==> PastLastCheck(x.runner) || IsLeaving(x.runner))
    && (x.cancelWritten && !IsLeaving(x.runner) ==> x.cancel.Written?)
  }

  ghost predicate HandoffInv(x: Attempt) {
    AuthorizationInv(x) && CancellationInv(x)
  }

  /** PM2 removes the app, npm installs, PM2 starts the app again, in this order and each once; if the app cannot be
      removed PM2 starts it again and npm is never run. */
  predicate IsUpgradeInOrder(work: seq<RunnerAction>) {
    || work == [] || (|work| == 1 && work[0].StopService?)
    || (|work| == 2 && work[0] == StopService(false) && work[1].RestoreService?)
    || (|work| == 2 && work[0] == StopService(true) && work[1].Install?)
    || (|work| == 3 && work[0] == StopService(true) && work[1].Install? && work[2].RestartService?)
  }

  /** What is done of it where the runner is. */
  ghost predicate WorkInv(x: Attempt) {
    && IsUpgradeInOrder(x.work)
    && (x.work == [] || PastLastCheck(x.runner) || IsLeaving(x.runner))
    && (x.runner.Stopping? ==> x.work == [])
    && (x.runner.Restoring? ==> x.work == [StopService(false)])
    && (x.runner.Installing? ==> x.work == [StopService(true)])
    && (x.runner.Restarting? ==> |x.work| == 2 && x.work[1].Install?)
  }

  predicate IsLeaving(pc: RunnerPc) {
    pc in {CleaningUp, ReleasingLock, RemovingLock, Finished}
  }

  predicate HandedOver(pc: LauncherPc) {
    pc in {AwaitHandoff, AwaitExit, Authorizing, Returned, Cancelling, Killing, RemovingHandoff, Threw}
  }

  predicate HasLock(x: Attempt) {
    x.acquired && !x.released
  }

  /** Who still may need or remove the lock: the launcher until it hands over, then the runner. Only the
      launcher of an attempt whose bootstrap never started goes back to the lock. */
  ghost predicate ProgressInv(x: Attempt) {
    && (x.launcher in {AwaitHandoff, AwaitExit, Authorizing, Returned} ==> x.bootstrapSpawned)
    && (x.bootstrapSpawned ==> !x.bootstrap.NotStarted? && HandedOver(x.launcher))
    && (!x.bootstrap.NotStarted? ==> x.bootstrapSpawned || x.launcher.AwaitSpawn?)
    && (!x.runner.NotSpawned? ==> !x.bootstrap.NotStarted?)
    && (!x.acquired ==> x.launcher in {Idle, Threw} && x.bootstrap.NotStarted? && !x.released)
    && (x.launcher.Idle? ==> !x.acquired)
    && (!x.launcher.Idle? && !x.launcher.Threw? && !x.bootstrapSpawned && x.bootstrap.NotStarted? ==> HasLock(x))
    && (RunnerAlive(x) || (x.runner.NotSpawned? && !x.bootstrap.NotStarted?) ==> HasLock(x))
  }

  lemma LauncherKeepsAuthorization(lock: Lock, r: RunId, x: Attempt, a: LauncherAction)
    requires AuthorizationInv(x) && ProgressInv(x) && LauncherEnabled(lock, r, x, a)
    ensures AuthorizationInv(AttemptAfter(x, ByLauncher(a)))
  {
  }

  lemma LauncherKeepsCancellation(lock: Lock, r: RunId, x: Attempt, a: LauncherAction)
    requires HandoffInv(x) && LauncherEnabled(lock, r, x, a)
    ensures CancellationInv(AttemptAfter(x, ByLauncher(a)))
  {
  }

  lemma LauncherKeepsProgress(lock: Lock, r: RunId, x: Attempt, a: LauncherAction)
    requires ProgressInv(x) && LauncherEnabled(lock, r, x, a)
    ensures ProgressInv(AttemptAfter(x, ByLauncher(a)))
  {
  }

  lemma RunnerKeepsAuthorization(lock: Lock, r: RunId, x: Attempt, a: RunnerAction)
    requires AuthorizationInv(x) && ProgressInv(x) && RunnerEnabled(lock, r, x, a)
    ensures AuthorizationInv(AttemptAfter(x, ByRunner(a)))
  {
  }

  lemma RunnerKeepsCancellation(lock: Lock, r: RunId, x: Attempt, a: RunnerAction)
    requires HandoffInv(x) && RunnerEnabled(lock, r, x, a)
    ensures CancellationInv(AttemptAfter(x, ByRunner(a)))
  {
  }

  lemma RunnerKeepsProgress(lock: Lock, r: RunId, x: Attempt, a: RunnerAction)
    requires ProgressInv(x) && RunnerEnabled(lock, r, x, a)
    ensures ProgressInv(AttemptAfter(x, ByRunner(a)))
  {
  }

  lemma RunnerWorks(lock: Lock, r: RunId, x: Attempt, a: RunnerAction)
    requires WorkInv(x) && RunnerEnabled(lock, r, x, a)
    requires a.StopService? || a.RestoreService? || a.Install? || a.RestartService?
    ensures WorkInv(AttemptAfter(x, ByRunner(a)))
  {
    assert x.work == [] ==> x.work + [a] == [a];
  }

  lemma RunnerKeepsWork(lock: Lock, r: RunId, x: Attempt, a: RunnerAction)
    requires WorkInv(x) && RunnerEnabled(lock, r, x, a)
    ensures WorkInv(AttemptAfter(x, ByRunner(a)))
  {
    if a.StopService? || a.RestoreService? || a.Install? || a.RestartService? {
      RunnerWorks(lock, r, x, a);
    } else {
      assert AttemptAfter(x, ByRunner(a)).work == x.work;
    }
  }

  ghost predicate AttemptInv(x: Attempt) {
    HandoffInv(x) && ProgressInv(x) && WorkInv(x)
  }

  lemma AttemptStep(lock: Lock, r: RunId, x: Attempt, a: Action)
    requires AttemptInv(x) && Enabled(lock, r, x, a)
    ensures AttemptInv(AttemptAfter(x, a))
  {
    match a
    case ByLauncher(l) =>
      LauncherKeepsAuthorization(lock, r, x, l);
      LauncherKeepsCancellation(lock, r, x, l);
      LauncherKeepsProgress(lock, r, x, l);
    case ByRunner(q) =>
      RunnerKeepsAuthorization(lock, r, x, q);
      RunnerKeepsCancellation(lock, r, x, q);
      RunnerKeepsProgress(lock, r, x, q);
      RunnerKeepsWork(lock, r, x, q);
    case _ =>
  }

  // ---------------------------------------------------------------- all attempts on one instance

  /** The launcher or the runner counts on the owner record to name this attempt. */
  predicate CountsOnOwner(x: Attempt) {
    || x.launcher in {Owned, Prepared, Copied}
    || (x.runner.NotSpawned? && !x.bootstrap.NotStarted?)
    || (RunnerAlive(x) && !x.runner.RemovingLock?)
  }

  predicate Holder(s: System, r: RunId) {
    r in s.attempts && HasLock(s.attempts[r])
  }

  ghost predicate LockInv(s: System) {
    && (forall r, q :: Holder(s, r) && Holder(s, q) ==> r == q)
    && (s.lock.Held? <==> exists r :: Holder(s, r))
    && (s.lock.Held? && s.lock.owner.Some? ==>
          Holder(s, s.lock.owner.value))
    && (forall r :: r in s.attempts && CountsOnOwner(s.attempts[r]) ==> s.lock == Held(Some(r)))
  }

  ghost predicate Inv(s: System) {
    && (forall r :: r in s.attempts ==> AttemptInv(s.attempts[r]))
    && LockInv(s)
  }

  /** Whatever the action, an attempt that counts on the owner record holds the lock. */
  lemma CountingHolds(x: Attempt)
    requires ProgressInv(x) && CountsOnOwner(x)
    ensures HasLock(x)
  {
  }

  /** Making, keeping and removing the lock directory, seen from one attempt. */
  predicate OwnLockMoves(r: RunId, x: Attempt, lock: Lock, x': Attempt, lock': Lock) {
    && (HasLock(x) && !HasLock(x') ==> lock' == Free)
    && (!HasLock(x) && HasLock(x') ==> lock == Free && lock' == Held(None))
    && (!HasLock(x) && !HasLock(x') ==> lock' == lock)
    && (HasLock(x) && HasLock(x') ==> lock'.Held? && lock' in {lock, Held(None), Held(Some(r))})
  }

  lemma LauncherMovesLock(lock: Lock, r: RunId, x: Attempt, a: LauncherAction)
    requires ProgressInv(x) && LauncherEnabled(lock, r, x, a) && (HasLock(x) ==> lock.Held?)
    ensures OwnLockMoves(r, x, lock, AttemptAfter(x, ByLauncher(a)), LauncherLock(lock, r, a))
  {
  }

  lemma RunnerMovesLock(lock: Lock, r: RunId, x: Attempt, a: RunnerAction)
    requires ProgressInv(x) && RunnerEnabled(lock, r, x, a) && (HasLock(x) ==> lock.Held?)
    ensures OwnLockMoves(r, x, lock, AttemptAfter(x, ByRunner(a)), RunnerLock(lock, a))
  {
  }

  lemma OwnLock(lock: Lock, r: RunId, x: Attempt, a: Action)
    requires ProgressInv(x) && Enabled(lock, r, x, a) && (HasLock(x) ==> lock.Held?)
    ensures OwnLockMoves(r, x, lock, AttemptAfter(x, a), LockAfter(lock, r, a))
  {
    match a
    case ByLauncher(l) => LauncherMovesLock(lock, r, x, l);
    case ByRunner(q) => RunnerMovesLock(lock, r, x, q);
    case _ =>
  }

  lemma LauncherKeepsRecord(lock: Lock, r: RunId, x: Attempt, a: LauncherAction)
    requires ProgressInv(x) && LauncherEnabled(lock, r, x, a) && (HasLock(x) ==> lock.Held?)
    requires CountsOnOwner(x) ==> lock == Held(Some(r))
    ensures CountsOnOwner(AttemptAfter(x, ByLauncher(a))) ==> LauncherLock(lock, r, a) == Held(Some(r))
  {
  }

  lemma RunnerKeepsRecord(lock: Lock, r: RunId, x: Attempt, a: RunnerAction)
    requires ProgressInv(x) && RunnerEnabled(lock, r, x, a)
    requires CountsOnOwner(x) ==> lock == Held(Some(r))
    ensures CountsOnOwner(AttemptAfter(x, ByRunner(a))) ==> RunnerLock(lock, a) == Held(Some(r))
  {
  }

  lemma OwnRecord(lock: Lock, r: RunId, x: Attempt, a: Action)
    requires ProgressInv(x) && Enabled(lock, r, x, a) && (HasLock(x) ==> lock.Held?)
    requires CountsOnOwner(x) ==> lock == Held(Some(r))
    ensures CountsOnOwner(AttemptAfter(x, a)) ==> LockAfter(lock, r, a) == Held(Some(r))
  {
    match a
    case ByLauncher(l) => LauncherKeepsRecord(lock, r, x, l);
    case ByRunner(q) => RunnerKeepsRecord(lock, r, x, q);
    case _ =>
  }

  /** What the step does to the lock, seen from all attempts. */
  lemma HoldersStep(s: System, r: RunId, a: Action)
    requires Inv(s) && Possible(s, r, a)
    ensures var s' := Next(s, r, a);
            && (forall p, q :: Holder(s', p) && Holder(s', q) ==> p == q)
            && (s'.lock.Held? ==> exists q :: Holder(s', q))
            && (s'.lock.Free? ==> forall q :: !Holder(s', q))
  {
    var s', x := Next(s, r, a), AttemptOf(s, r);
    assert ProgressInv(x);
    assert HasLock(x) ==> Holder(s, r);
    OwnLock(s.lock, r, x, a);
    assert Holder(s', r) <==> HasLock(AttemptAfter(x, a));
    forall q | q != r ensures Holder(s', q) <==> Holder(s, q) {
    }
    if s'.lock.Held? && !Holder(s', r) {
      var q :| Holder(s, q);
      assert Holder(s', q);
    }
  }

  lemma OwnerStep(s: System, r: RunId, a: Action)
    requires Inv(s) && Possible(s, r, a)
    ensures var s' := Next(s, r, a); s'.lock.Held? && s'.lock.owner.Some? ==> Holder(s', s'.lock.owner.value)
  {
    var s', x := Next(s, r, a), AttemptOf(s, r);
    assert ProgressInv(x);
    assert HasLock(x) ==> Holder(s, r);
    OwnLock(s.lock, r, x, a);
    assert Holder(s', r) <==> HasLock(AttemptAfter(x, a));
    forall q | q != r ensures Holder(s', q) <==> Holder(s, q) {
    }
  }

  lemma RecordStep(s: System, r: RunId, a: Action)
    requires Inv(s) && Possible(s, r, a)
    ensures var s' := Next(s, r, a);
            forall q :: q in s'.attempts && CountsOnOwner(s'.attempts[q]) ==> s'.lock == Held(Some(q))
  {
    var s', x := Next(s, r, a), AttemptOf(s, r);
    assert ProgressInv(x);
    assert HasLock(x) ==> Holder(s, r);
    OwnLock(s.lock, r, x, a);
    OwnRecord(s.lock, r, x, a);
    forall q | q in s'.attempts && CountsOnOwner(s'.attempts[q]) ensures s'.lock == Held(Some(q)) {
      if q != r {
        CountingHolds(s.attempts[q]);
        assert Holder(s, q) && s.lock == Held(Some(q));
      }
    }
  }

  lemma LockStep(s: System, r: RunId, a: Action)
    requires Inv(s) && Possible(s, r, a)
    ensures LockInv(Next(s, r, a))
  {
    HoldersStep(s, r, a);
    OwnerStep(s, r, a);
    RecordStep(s, r, a);
  }

  lemma StepKeepsInv(s: System, r: RunId, a: Action)
    requires Inv(s) && Possible(s, r, a)
    ensures Inv(Next(s, r, a))
  {
    LockStep(s, r, a);
    var s' := Next(s, r, a);
    forall q | q in s'.attempts ensures AttemptInv(s'.attempts[q]) {
      if q == r {
        assert AttemptInv(AttemptOf(s, r));
        AttemptStep(s.lock, r, AttemptOf(s, r), a);
      }
    }
  }

  lemma {:induction false} TraceKeepsInv(es: seq<Event>)
    requires IsTrace(es)
    ensures Inv(After(es))
  {
    if es != [] {
      TraceKeepsInv(es[..|es| - 1]);
      StepKeepsInv(After(es[..|es| - 1]), es[|es| - 1].run, es[|es| - 1].action);
    }
  }

  // ---------------------------------------------------------------- main results

  /** In every interleaving: an attempt whose cancel marker was completed runs PM2 or npm only if its last look at
      that marker could not read it; and one that runs them was authorized by its launcher, and its parent process
      is gone. */
  lemma TouchesOnlyAuthorized(es: seq<Event>, r: RunId)
    requires IsTrace(es) && r in After(es).attempts
    ensures var x := After(es).attempts[r];
            && (Touched(x) && x.cancelWritten ==> x.blind)
            && (Touched(x) ==> x.authorizeWritten && !x.parentAlive)
  {
    TraceKeepsInv(es);
  }

  /** In every interleaving, what an attempt had PM2 and npm do is an upgrade in order, perhaps cut short by the
      death of the runner; so npm never runs before the app is removed, and an attempt that has started it again after
      removing it has installed. And a launcher that returned has authorized its runner. */
  lemma UpgradesInOrder(es: seq<Event>, r: RunId)
    requires IsTrace(es) && r in After(es).attempts
    ensures var x := After(es).attempts[r];
            && IsUpgradeInOrder(x.work) && (x.launcher.Returned? ==> x.authorizeWritten)
  {
    TraceKeepsInv(es);
  }

  /** The runner's last look at a marker that was completed stops it exactly if the file can be read. */
  lemma LastLookDecides(es: seq<Event>, r: RunId, look: Look)
    requires IsTrace(es) && r in After(es).attempts && Possible(After(es), r, ByRunner(CheckAgain(look)))
    requires After(es).attempts[r].cancelWritten
    ensures AttemptAfter(After(es).attempts[r], ByRunner(CheckAgain(look))).runner.Stopping? <==> look.Unreadable?
  {
    TraceKeepsInv(es);
  }

  /** In every interleaving of any number of attempts on one instance: while a runner is alive the lock
      names its attempt, up to the moment it removes that lock itself; so only one runner is alive. */
  lemma OneRunnerAndItsLock(es: seq<Event>, r: RunId)
    requires IsTrace(es) && r in After(es).attempts && RunnerAlive(After(es).attempts[r])
    ensures !After(es).attempts[r].runner.RemovingLock? ==> After(es).lock == Held(Some(r))
    ensures After(es).lock.Held?
    ensures forall q :: q in After(es).attempts && RunnerAlive(After(es).attempts[q]) ==> q == r
  {
    TraceKeepsInv(es);
    var s := After(es);
    assert Holder(s, r);
    forall q | q in s.attempts && RunnerAlive(s.attempts[q]) ensures q == r {
      assert Holder(s, q);
    }
  }

  predicate RemovesFromLock(a: Action) {
    a in {ByLauncher(RemoveOwner), ByLauncher(RemoveLock), ByRunner(RunnerRemovesOwner), ByRunner(RunnerRemovesLock)}
  }

  lemma RemoverHasLock(lock: Lock, r: RunId, x: Attempt, a: Action)
    requires ProgressInv(x) && Enabled(lock, r, x, a) && RemovesFromLock(a)
    ensures HasLock(x)
  {
  }

  /** Whoever removes the lock directory, or a file in it, is the attempt that made it; nobody else
      holds the lock then, and no other attempt has a runner. */
  lemma OnlyTheHolderRemovesTheLock(es: seq<Event>, r: RunId, a: Action)
    requires IsTrace(es) && Possible(After(es), r, a) && RemovesFromLock(a)
    ensures Holder(After(es), r) && forall q :: Holder(After(es), q) ==> q == r
    ensures forall q :: q in After(es).attempts && RunnerAlive(After(es).attempts[q]) ==> q == r
  {
    TraceKeepsInv(es);
    var s := After(es);
    RemoverHasLock(s.lock, r, AttemptOf(s, r), a);
    assert Holder(s, r);
    forall q | q in s.attempts && RunnerAlive(s.attempts[q]) ensures q == r {
      assert Holder(s, q);
    }
  }

  /** The launcher that sees its spawn fail, and only such a launcher, goes back to the lock after it
      handed over; so its release cannot race with a runner of the same attempt. */
  lemma ReleasingLauncherHasNoRunner(es: seq<Event>, r: RunId)
    requires IsTrace(es) && r in After(es).attempts
    requires After(es).attempts[r].launcher in {Undoing, Releasing, Removing}
    ensures After(es).attempts[r].runner.NotSpawned? && After(es).attempts[r].bootstrap.NotStarted?
  {
    TraceKeepsInv(es);
  }

  // ---------------------------------------------------------------- runs that happen

  /** The lock and the first attempt after the trace. */
  ghost predicate IsAt(es: seq<Event>, lock: Lock, x: Attempt) {
    IsTrace(es) && After(es).lock == lock && AttemptOf(After(es), 0) == x && After(es).attempts.Keys <= {0}
  }

  lemma Then(es: seq<Event>, lock: Lock, x: Attempt, a: Action) returns (es': seq<Event>)
    requires IsAt(es, lock, x) && Enabled(lock, 0, x, a)
    ensures IsAt(es', LockAfter(lock, 0, a), AttemptAfter(x, a))
  {
    es' := es + [Event(0, a)];
    assert es'[..|es|] == es;
  }

  lemma LockIsOwned() returns (es: seq<Event>)
    ensures IsAt(es, Held(Some(0)), FRESH.(launcher := Owned, acquired := true))
  {
    es := Then([], Free, FRESH, ByLauncher(MakeLock(true)));
    var x := FRESH.(launcher := Locked, acquired := true);
    es := Then(es, Held(None), x, ByLauncher(WriteOwner(true, true)));
  }

  lemma BootstrapIsSpawned() returns (es: seq<Event>)
    ensures IsAt(es, Held(Some(0)), FRESH.(launcher := AwaitSpawn, acquired := true, bootstrap := Running))
  {
    es := LockIsOwned();
    var own, x := Held(Some(0)), FRESH.(launcher := Owned, acquired := true);
    es := Then(es, own, x, ByLauncher(MakeRunDir(true)));
    es := Then(es, own, x.(launcher := Prepared), ByLauncher(CopyFiles(true)));
    es := Then(es, own, x.(launcher := Copied), ByLauncher(Spawn(true)));
  }

  /** An attempt whose bootstrap was seen to start. */
  function Midway(launcher: LauncherPc, bootstrap: BootstrapPc, runner: RunnerPc, handoff: Marker, authorize: Marker)
    : Attempt
  {
    Attempt(launcher, true, true, bootstrap, runner, handoff, authorize, Absent,
            true, false, authorize.Written?, false, false, [])
  }

  lemma RunnerIsSpawned() returns (es: seq<Event>)
    ensures IsAt(es, Held(Some(0)), Midway(AwaitHandoff, Running, Started, Absent, Absent))
  {
    es := BootstrapIsSpawned();
    var own, x := Held(Some(0)), FRESH.(launcher := AwaitSpawn, acquired := true, bootstrap := Running);
    es := Then(es, own, x, ByLauncher(SeeSpawn));
    es := Then(es, own, Midway(AwaitHandoff, Running, NotSpawned, Absent, Absent), BootstrapSpawns);
  }

  lemma RunnerAnswers() returns (es: seq<Event>)
    ensures IsAt(es, Held(Some(0)), Midway(AwaitHandoff, Running, PollCancel, Written, Absent))
  {
    es := RunnerIsSpawned();
    var own := Held(Some(0));
    es := Then(es, own, Midway(AwaitHandoff, Running, Started, Absent, Absent), ByRunner(CheckCancelled(true, NotFound)));
    es := Then(es, own, Midway(AwaitHandoff, Running, Announcing, Absent, Absent), ByRunner(BeginHandoff));
    es := Then(es, own, Midway(AwaitHandoff, Running, Announcing, Torn, Absent), ByRunner(EndHandoff));
  }

  lemma RunnerIsHeard() returns (es: seq<Event>)
    ensures IsAt(es, Held(Some(0)), Midway(AwaitExit, ExitedWell, PollCancel, Written, Absent))
  {
    es := RunnerAnswers();
    var own := Held(Some(0));
    es := Then(es, own, Midway(AwaitHandoff, Running, PollCancel, Written, Absent), ByLauncher(SeeHandoff));
    es := Then(es, own, Midway(AwaitExit, Running, PollCancel, Written, Absent), BootstrapExits(true));
  }

  lemma AuthorizationBegins() returns (es: seq<Event>)
    ensures IsAt(es, Held(Some(0)), Midway(Authorizing, ExitedWell, PollCancel, Written, Torn))
  {
    es := RunnerIsHeard();
    var own := Held(Some(0));
    es := Then(es, own, Midway(AwaitExit, ExitedWell, PollCancel, Written, Absent), ByLauncher(SeeExit));
    es := Then(es, own, Midway(Authorizing, ExitedWell, PollCancel, Written, Absent), ByLauncher(BeginAuthorize));
  }

  lemma RunnerIsAuthorized() returns (es: seq<Event>)
    ensures IsAt(es, Held(Some(0)), Midway(Authorizing, ExitedWell, PollAuthorize, Written, Written))
  {
    es := AuthorizationBegins();
    var own := Held(Some(0));
    es := Then(es, own, Midway(Authorizing, ExitedWell, PollCancel, Written, Torn), ByLauncher(EndAuthorize));
    es := Then(es, own, Midway(Authorizing, ExitedWell, PollCancel, Written, Written), ByRunner(ReadCancel(NotFound)));
  }

  /** The runner reads its authorization and waits for the launcher. */
  lemma RunnerAwaitsParent() returns (es: seq<Event>)
    ensures IsAt(es, Held(Some(0)), Midway(Authorizing, ExitedWell, AwaitParent, Written, Written))
  {
    es := RunnerIsAuthorized();
    es := Then(es, Held(Some(0)), Midway(Authorizing, ExitedWell, PollAuthorize, Written, Written),
               ByRunner(ReadAuthorize(Found)));
  }

  lemma ParentIsGone() returns (es: seq<Event>)
    ensures IsAt(es, Held(Some(0)), Midway(Returned, ExitedWell, AwaitParent, Written, Written).(parentAlive := false))
  {
    es := RunnerAwaitsParent();
    var own := Held(Some(0));
    es := Then(es, own, Midway(Authorizing, ExitedWell, AwaitParent, Written, Written), ByLauncher(AuthorizeReturns));
    es := Then(es, own, Midway(Returned, ExitedWell, AwaitParent, Written, Written), ParentDies);
  }

  /** The same attempt without its launcher. */
  function Alone(runner: RunnerPc, work: seq<RunnerAction>): Attempt {
    Midway(Returned, ExitedWell, runner, Written, Written).(parentAlive := false, work := work)
  }

  lemma RunnerMayTouch() returns (es: seq<Event>)
    ensures IsAt(es, Held(Some(0)), Alone(Stopping, []))
  {
    es := ParentIsGone();
    es := Then(es, Held(Some(0)), Alone(AwaitParent, []), ByRunner(SeeParentGone));
    es := Then(es, Held(Some(0)), Alone(LastCheck, []), ByRunner(CheckAgain(NotFound)));
  }

  lemma RunnerInstalls() returns (es: seq<Event>)
    ensures IsAt(es, Held(Some(0)), Alone(RunnerPc.Restarting, [StopService(true), Install(true)]))
  {
    es := RunnerMayTouch();
    es := Then(es, Held(Some(0)), Alone(Stopping, []), ByRunner(StopService(true)));
    es := Then(es, Held(Some(0)), Alone(Installing, [StopService(true)]), ByRunner(Install(true)));
  }

  lemma RunnerUpgrades() returns (es: seq<Event>)
    ensures IsAt(es, Held(Some(0)), Alone(ReleasingLock, FullUpgrade()).(handoff := Absent, authorize := Absent))
  {
    es := RunnerInstalls();
    es := Then(es, Held(Some(0)), Alone(RunnerPc.Restarting, [StopService(true), Install(true)]),
               ByRunner(RestartService(true)));
    es := Then(es, Held(Some(0)), Alone(CleaningUp, FullUpgrade()), ByRunner(RemoveMarkers));
  }

  function FullUpgrade(): seq<RunnerAction> {
    [StopService(true), Install(true), RestartService(true)]
  }

  lemma OwnerIsRemoved() returns (es: seq<Event>)
    ensures IsAt(es, Held(None), Alone(RemovingLock, FullUpgrade()).(handoff := Absent, authorize := Absent))
  {
    es := RunnerUpgrades();
    var x := Alone(ReleasingLock, FullUpgrade()).(handoff := Absent, authorize := Absent);
    es := Then(es, Held(Some(0)), x, ByRunner(RunnerReadsOwner(Found)));
    es := Then(es, Held(Some(0)), x.(runner := RemovingLock), ByRunner(RunnerRemovesOwner));
  }

  /** An upgrade can succeed: an attempt does all of it in order and leaves the instance free for the next. */
  lemma AnUpgradeSucceeds() returns (es: seq<Event>)
    ensures IsTrace(es) && After(es).lock == Free && 0 in After(es).attempts
    ensures var x := After(es).attempts[0];
            && x.launcher.Returned? && x.runner.Finished?
            && x.work == [StopService(true), Install(true), RestartService(true)]
    ensures Possible(After(es), 1, ByLauncher(MakeLock(true)))
  {
    es := OwnerIsRemoved();
    var x := Alone(RemovingLock, FullUpgrade()).(handoff := Absent, authorize := Absent);
    es := Then(es, Held(None), x, ByRunner(RunnerRemovesLock));
  }

  /** The exception for cancelled attempts is real: a launcher whose authorization fails after the file is complete
      cancels in vain if the runner's last look at the cancel marker cannot read it. */
  lemma UnreadableCancelIsOverrun() returns (es: seq<Event>)
    ensures IsTrace(es) && 0 in After(es).attempts
    ensures After(es).attempts[0].cancelWritten && After(es).attempts[0].work == [StopService(true)]
  {
    es := CancelIsUnread();
    var x := Cancelled(LastCheck).(parentAlive := false);
    es := Then(es, Held(Some(0)), x, ByRunner(CheckAgain(Unreadable)));
    es := Then(es, Held(Some(0)), x.(runner := Stopping, blind := true), ByRunner(StopService(true)));
  }

  function Cancelled(runner: RunnerPc): Attempt {
    Midway(Cancelling, ExitedWell, runner, Written, Written).(cancel := Written, cancelWritten := true)
  }

  lemma CancelIsUnread() returns (es: seq<Event>)
    ensures IsAt(es, Held(Some(0)), Cancelled(LastCheck).(parentAlive := false))
  {
    es := CancelledTooLate();
    es := Then(es, Held(Some(0)), Cancelled(AwaitParent), ParentDies);
    es := Then(es, Held(Some(0)), Cancelled(AwaitParent).(parentAlive := false), ByRunner(SeeParentGone));
  }

  lemma AuthorizationFails() returns (es: seq<Event>)
    ensures IsAt(es, Held(Some(0)), Midway(Cancelling, ExitedWell, AwaitParent, Written, Written))
  {
    es := RunnerAwaitsParent();
    es := Then(es, Held(Some(0)), Midway(Authorizing, ExitedWell, AwaitParent, Written, Written),
               ByLauncher(AuthorizeThrows));
  }

  lemma CancelledTooLate() returns (es: seq<Event>)
    ensures IsAt(es, Held(Some(0)), Cancelled(AwaitParent))
  {
    es := AuthorizationFails();
    var x := Midway(Cancelling, ExitedWell, AwaitParent, Written, Written);
    es := Then(es, Held(Some(0)), x, ByLauncher(BeginCancel));
    es := Then(es, Held(Some(0)), x.(cancel := Torn), ByLauncher(EndCancel));
  }

  // ---------------------------------------------------------------- the runner's program, statement by statement

  /** The step changes a file or has another program do something. */
  predicate IsRunnerEffect(a: RunnerAction) {
    || a.BeginHandoff? || a.EndHandoff? || a.StopService? || a.RestoreService? || a.Install? || a.RestartService?
    || a.RemoveMarkers? || a.RunnerRemovesOwner? || a.RunnerRemovesLock?
  }

  /** Where the runner is, and what it has changed up to there, in order. */
  datatype RunnerAt = RunnerAt(pc: RunnerPc, effects: seq<RunnerAction>)

  function RunnerNext(at: RunnerAt, a: RunnerAction): RunnerAt {
    RunnerAt(Reached(RunnerGoes(at.pc, a), at.pc), at.effects + if IsRunnerEffect(a) then [a] else [])
  }

  /** The steps lead from the start through these places. */
  ghost predicate RunnerPasses(ats: seq<RunnerAt>, steps: seq<RunnerAction>) {
    && |ats| == |steps| + 1 && ats[0] == RunnerAt(Started, [])
    && forall i :: 0 <= i < |steps| ==> RunnerGoes(ats[i].pc, steps[i]).Some? && ats[i + 1] == RunnerNext(ats[i], steps[i])
  }

  /** The runner has taken these steps, with these effects among them, and is there now. */
  ghost predicate RunnerDid(pc: RunnerPc, steps: seq<RunnerAction>, effects: seq<RunnerAction>) {
    exists ats :: RunnerPasses(ats, steps) && ats[|steps|] == RunnerAt(pc, effects)
  }

  lemma RunnerEffectsAre(pc: RunnerPc, steps: seq<RunnerAction>, effects: seq<RunnerAction>, a: RunnerAction)
    requires RunnerDid(pc, steps, effects)
    ensures a in effects <==> a in steps && IsRunnerEffect(a)
  {
    var ats :| RunnerPasses(ats, steps) && ats[|steps|] == RunnerAt(pc, effects);
    EffectsUpTo(ats, steps, |steps|, a);
    assert steps[..|steps|] == steps;
  }

  lemma {:induction false} EffectsUpTo(ats: seq<RunnerAt>, steps: seq<RunnerAction>, n: nat, a: RunnerAction)
    requires RunnerPasses(ats, steps) && n <= |steps|
    ensures a in ats[n].effects <==> a in steps[..n] && IsRunnerEffect(a)
  {
    if n > 0 {
      EffectsUpTo(ats, steps, n - 1, a);
      assert steps[..n] == steps[..n - 1] + [steps[n - 1]];
      assert ats[n - 1 + 1] == RunnerNext(ats[n - 1], steps[n - 1]);
    }
  }

  lemma RunnerStarts()
    ensures RunnerDid(Started, [], [])
  {
    assert RunnerPasses([RunnerAt(Started, [])], []);
  }

  lemma RunnerSnoc(pc: RunnerPc, steps: seq<RunnerAction>, effects: seq<RunnerAction>, a: RunnerAction)
    requires RunnerDid(pc, steps, effects) && RunnerGoes(pc, a).Some?
    ensures RunnerDid(RunnerGoes(pc, a).value, steps + [a], effects + if IsRunnerEffect(a) then [a] else [])
  {
    var ats :| RunnerPasses(ats, steps) && ats[|steps|] == RunnerAt(pc, effects);
    assert RunnerPasses(ats + [RunnerNext(ats[|steps|], a)], steps + [a]);
  }

  /** A step of the runner that changes nothing. */
  method RunnerLooks(ghost pc: RunnerPc, steps: seq<RunnerAction>, ghost effects: seq<RunnerAction>, a: RunnerAction)
      returns (steps': seq<RunnerAction>)
    requires RunnerDid(pc, steps, effects) && RunnerGoes(pc, a).Some? && !IsRunnerEffect(a)
    ensures RunnerDid(RunnerGoes(pc, a).value, steps', effects)
  {
    RunnerSnoc(pc, steps, effects, a);
    steps' := steps + [a];
    assert effects + [] == effects;
  }

  /** A step that does. */
  method RunnerActs(ghost pc: RunnerPc, steps: seq<RunnerAction>, ghost effects: seq<RunnerAction>, a: RunnerAction)
      returns (steps': seq<RunnerAction>)
    requires RunnerDid(pc, steps, effects) && RunnerGoes(pc, a).Some? && IsRunnerEffect(a)
    ensures RunnerDid(RunnerGoes(pc, a).value, steps', effects + [a])
  {
    RunnerSnoc(pc, steps, effects, a);
    steps' := steps + [a];
  }

  datatype Poll = Poll(cancel: Look, authorize: Look)

  /** What the runner meets: the outcome of each operation and of each look at a marker before the deadline. */
  datatype RunnerWorld = RunnerWorld(
    dirMade: bool, cancelAtStart: Look, handoffWritten: bool, polls: seq<Poll>, parentExited: bool,
    cancelAtEnd: Look, stopped: bool, restored: bool, installed: bool, restarted: bool,
    owner: Look, lockRemoved: bool)

  /** Some look finds the authorization, and no look up to then finds the cancellation. */
  predicate IsAuthorized(polls: seq<Poll>) {
    exists i :: 0 <= i < |polls| && polls[i].authorize.Found? && forall j :: 0 <= j <= i ==> !polls[j].cancel.Found?
  }

  /** All that must come together before PM2 or npm is run. */
  predicate MayTouch(w: RunnerWorld) {
    && w.dirMade && !w.cancelAtStart.Found? && w.handoffWritten
    && IsAuthorized(w.polls) && w.parentExited && !w.cancelAtEnd.Found?
  }

  method WaitForHandoffAuthorization(polls: seq<Poll>, before: seq<RunnerAction>, ghost effects: seq<RunnerAction>)
      returns (authorized: bool, steps: seq<RunnerAction>)
    requires RunnerDid(PollCancel, before, effects)
    ensures RunnerDid(if authorized then AwaitParent else CleaningUp, steps, effects)
    ensures authorized <==> IsAuthorized(polls)
  {
    steps := before;
    var i := 0;
    while i < |polls|
      invariant 0 <= i <= |polls| && RunnerDid(PollCancel, steps, effects)
      invariant forall j :: 0 <= j < i ==> !polls[j].cancel.Found? && !polls[j].authorize.Found?
    {
      steps := RunnerLooks(PollCancel, steps, effects, ReadCancel(polls[i].cancel));
      if polls[i].cancel.Found? {
        return false, steps;
      }
      steps := RunnerLooks(PollAuthorize, steps, effects, ReadAuthorize(polls[i].authorize));
      if polls[i].authorize.Found? {
        return true, steps;
      }
      i := i + 1;
    }
    steps := RunnerLooks(PollCancel, steps, effects, PollTimeout);
    return false, steps;
  }

  /** What an upgrade has PM2 and npm do. */
  function UpgradeOf(w: RunnerWorld): seq<RunnerAction> {
    if w.stopped then [StopService(true), Install(w.installed), RestartService(w.restarted)]
    else [StopService(false), RestoreService(w.restored)]
  }

  function AnnouncementOf(w: RunnerWorld): seq<RunnerAction> {
    if !w.dirMade || w.cancelAtStart.Found? then []
    else if w.handoffWritten then [BeginHandoff, EndHandoff]
    else [BeginHandoff]
  }

  function RunnerReleaseOf(w: RunnerWorld): seq<RunnerAction> {
    if w.owner.Found? && w.lockRemoved then [RunnerRemovesOwner, RunnerRemovesLock] else []
  }

  /** The part that runs PM2 and npm. */
  method Upgrade(w: RunnerWorld, before: seq<RunnerAction>, ghost effects: seq<RunnerAction>)
      returns (exitCode: int, restarted: bool, steps: seq<RunnerAction>)
    requires RunnerDid(Stopping, before, effects)
    ensures RunnerDid(CleaningUp, steps, effects + UpgradeOf(w))
    ensures exitCode == 0 <==> w.stopped && w.installed && w.restarted
    ensures restarted == if w.stopped then w.restarted else w.restored
  {
    steps := RunnerActs(Stopping, before, effects, StopService(w.stopped));
    ghost var done := effects + [StopService(w.stopped)];
    if !w.stopped {
      steps := RunnerActs(Restoring, steps, done, RestoreService(w.restored));
      assert done + [RestoreService(w.restored)] == effects + UpgradeOf(w);
      return 1, w.restored, steps;
    }
    steps := RunnerActs(Installing, steps, done, Install(w.installed));
    done := done + [Install(w.installed)];
    steps := RunnerActs(RunnerPc.Restarting, steps, done, RestartService(w.restarted));
    assert done + [RestartService(w.restarted)] == effects + UpgradeOf(w);
    return if w.installed && w.restarted then 0 else 1, w.restarted, steps;
  }

  /** The announcement of the runner and the answer to it. */
  method HandOff(w: RunnerWorld) returns (authorized: bool, steps: seq<RunnerAction>)
    ensures RunnerDid(if authorized then AwaitParent else CleaningUp, steps, AnnouncementOf(w))
    ensures authorized <==> w.dirMade && !w.cancelAtStart.Found? && w.handoffWritten && IsAuthorized(w.polls)
  {
    RunnerStarts();
    steps := RunnerLooks(Started, [], [], CheckCancelled(w.dirMade, w.cancelAtStart));
    if !w.dirMade || w.cancelAtStart.Found? {
      return false, steps;
    }
    steps := RunnerActs(Announcing, steps, [], BeginHandoff);
    if !w.handoffWritten {
      steps := RunnerLooks(Announcing, steps, [BeginHandoff], HandoffFails);
      return false, steps;
    }
    steps := RunnerActs(Announcing, steps, [BeginHandoff], EndHandoff);
    authorized, steps := WaitForHandoffAuthorization(w.polls, steps, AnnouncementOf(w));
  }

  /** Everything before the cleaning up; `touched` says whether PM2 or npm was run. */
  method HandleUpgrade(w: RunnerWorld)
      returns (exitCode: int, restarted: bool, touched: bool, steps: seq<RunnerAction>)
    ensures RunnerDid(CleaningUp, steps, AnnouncementOf(w) + if touched then UpgradeOf(w) else [])
    ensures touched <==> MayTouch(w)
    ensures exitCode == 0 <==> touched && w.stopped && w.installed && w.restarted
    ensures restarted <==> touched && if w.stopped then w.restarted else w.restored
  {
    exitCode, restarted, touched := 1, false, false;
    var authorized;
    authorized, steps := HandOff(w);
    ghost var effects := AnnouncementOf(w);
    assert effects + [] == effects;
    if !authorized {
      return;
    }
    if !w.parentExited {
      steps := RunnerLooks(AwaitParent, steps, effects, ParentTimeout);
      return;
    }
    steps := RunnerLooks(AwaitParent, steps, effects, SeeParentGone);
    steps := RunnerLooks(LastCheck, steps, effects, CheckAgain(w.cancelAtEnd));
    if w.cancelAtEnd.Found? {
      return;
    }
    exitCode, restarted, steps := Upgrade(w, steps, effects);
    touched := true;
  }

  /** `releaseWindowsUpgradeLock`, by the runner. */
  method ReleaseRunnerLock(w: RunnerWorld, before: seq<RunnerAction>, ghost effects: seq<RunnerAction>)
      returns (released: bool, steps: seq<RunnerAction>)
    requires RunnerDid(ReleasingLock, before, effects)
    ensures RunnerDid(Finished, steps, effects + RunnerReleaseOf(w))
    ensures released <==> w.owner.Found? && w.lockRemoved
  {
    assert effects + [] == effects;
    steps := RunnerLooks(ReleasingLock, before, effects, RunnerReadsOwner(w.owner));
    if !w.owner.Found? {
      return false, steps;
    }
    if !w.lockRemoved {
      steps := RunnerLooks(RemovingLock, steps, effects, RunnerRemovalFails);
      return false, steps;
    }
    steps := RunnerActs(RemovingLock, steps, effects, RunnerRemovesOwner);
    steps := RunnerActs(RemovingLock, steps, effects + [RunnerRemovesOwner], RunnerRemovesLock);
    assert effects + [RunnerRemovesOwner] + [RunnerRemovesLock] == effects + RunnerReleaseOf(w);
    return true, steps;
  }

  /** All that the runner does to files and to other programs. */
  function RunOf(w: RunnerWorld): seq<RunnerAction> {
    AnnouncementOf(w) + (if MayTouch(w) then UpgradeOf(w) else []) + [RemoveMarkers] + RunnerReleaseOf(w)
  }

  /** `runWindowsUpgrade`. It throws, which ends the process with code 1, if the lock is not released. */
  method RunWindowsUpgrade(w: RunnerWorld)
      returns (exitCode: int, restarted: bool, touched: bool, steps: seq<RunnerAction>)
    ensures RunnerDid(Finished, steps, RunOf(w))
    ensures touched <==> MayTouch(w)
    ensures Install(w.installed) in steps <==> touched && w.stopped
    ensures RestoreService(w.restored) in steps <==> touched && !w.stopped
    ensures exitCode == 0 <==> Install(true) in steps && RestartService(true) in steps && RunnerRemovesLock in steps
    ensures restarted <==> RestartService(true) in steps || RestoreService(true) in steps
  {
    exitCode, restarted, touched, steps := HandleUpgrade(w);
    ghost var effects := AnnouncementOf(w) + if touched then UpgradeOf(w) else [];
    steps := RunnerActs(CleaningUp, steps, effects, RemoveMarkers);
    var released;
    released, steps := ReleaseRunnerLock(w, steps, effects + [RemoveMarkers]);
    if !released {
      exitCode := 1;
    }
    RunMembers(w, steps, true);
    RunMembers(w, steps, false);
  }

  lemma InUpgrade(w: RunnerWorld, a: RunnerAction)
    ensures a in UpgradeOf(w) <==>
              if w.stopped then a in {StopService(true), Install(w.installed), RestartService(w.restarted)}
              else a in {StopService(false), RestoreService(w.restored)}
  {
  }

  lemma InRun(w: RunnerWorld, steps: seq<RunnerAction>, touched: bool, a: RunnerAction)
    requires RunnerDid(Finished, steps, AnnouncementOf(w) + (if touched then UpgradeOf(w) else []) + [RemoveMarkers]
                                        + RunnerReleaseOf(w))
    requires a.Install? || a.RestartService? || a.RestoreService? || a.RunnerRemovesLock?
    ensures a in steps <==> (touched && a in UpgradeOf(w)) || a in RunnerReleaseOf(w)
  {
    RunnerEffectsAre(Finished, steps, AnnouncementOf(w) + (if touched then UpgradeOf(w) else []) + [RemoveMarkers]
                                      + RunnerReleaseOf(w), a);
    assert a !in AnnouncementOf(w);
  }

  lemma RunMembers(w: RunnerWorld, steps: seq<RunnerAction>, ok: bool)
    requires RunnerDid(Finished, steps, RunOf(w))
    ensures Install(ok) in steps <==> MayTouch(w) && w.stopped && ok == w.installed
    ensures RestartService(ok) in steps <==> MayTouch(w) && w.stopped && ok == w.restarted
    ensures RestoreService(ok) in steps <==> MayTouch(w) && !w.stopped && ok == w.restored
    ensures RunnerRemovesLock in steps <==> w.owner.Found? && w.lockRemoved
  {
    var touched := MayTouch(w);
    InRun(w, steps, touched, Install(ok));
    InRun(w, steps, touched, RestartService(ok));
    InRun(w, steps, touched, RestoreService(ok));
    InRun(w, steps, touched, RunnerRemovesLock);
    InUpgrade(w, Install(ok));
    InUpgrade(w, RestartService(ok));
    InUpgrade(w, RestoreService(ok));
    InUpgrade(w, RunnerRemovesLock);
  }

  // ---------------------------------------------------------------- the launcher's programs

  /** Where the launcher is, and its variable `bootstrapSpawned`. */
  datatype LauncherAt = LauncherAt(pc: LauncherPc, spawned: bool)

  predicate IsLauncherEffect(a: LauncherAction) {
    || a == MakeLock(true) || a.WriteOwner? || a.MakeRunDir? || a.Spawn? || a.BeginAuthorize? || a.EndAuthorize?
    || a.BeginCancel? || a.EndCancel? || a.KillBootstrap? || a.RemoveHandoff? || a.RemoveOwner? || a.RemoveLock?
  }

  datatype LauncherState = LauncherState(at: LauncherAt, effects: seq<LauncherAction>)

  function LauncherNext(at: LauncherAt, a: LauncherAction): LauncherAt {
    LauncherAt(Reached(LauncherGoes(at.pc, at.spawned, a), at.pc), at.spawned || a.SeeSpawn?)
  }

  function LauncherStateNext(x: LauncherState, a: LauncherAction): LauncherState {
    LauncherState(LauncherNext(x.at, a), x.effects + if IsLauncherEffect(a) then [a] else [])
  }

  /** The steps lead from there through these states. */
  ghost predicate LauncherPasses(from: LauncherPc, xs: seq<LauncherState>, steps: seq<LauncherAction>) {
    && |xs| == |steps| + 1 && xs[0] == LauncherState(LauncherAt(from, false), [])
    && forall i :: 0 <= i < |steps| ==>
         LauncherGoes(xs[i].at.pc, xs[i].at.spawned, steps[i]).Some? && xs[i + 1] == LauncherStateNext(xs[i], steps[i])
  }

  /** The launcher has taken these steps, with these effects among them, and is there now. */
  ghost predicate LauncherDid(from: LauncherPc, at: LauncherAt, steps: seq<LauncherAction>, effects: seq<LauncherAction>) {
    exists xs :: LauncherPasses(from, xs, steps) && xs[|steps|] == LauncherState(at, effects)
  }

  lemma LauncherEffectsAre(from: LauncherPc, at: LauncherAt, steps: seq<LauncherAction>, effects: seq<LauncherAction>,
                           a: LauncherAction)
    requires LauncherDid(from, at, steps, effects)
    ensures a in effects <==> a in steps && IsLauncherEffect(a)
  {
    var xs :| LauncherPasses(from, xs, steps) && xs[|steps|] == LauncherState(at, effects);
    LauncherEffectsUpTo(from, xs, steps, |steps|, a);
    assert steps[..|steps|] == steps;
  }

  lemma {:induction false} LauncherEffectsUpTo(from: LauncherPc, xs: seq<LauncherState>, steps: seq<LauncherAction>,
                                               n: nat, a: LauncherAction)
    requires LauncherPasses(from, xs, steps) && n <= |steps|
    ensures a in xs[n].effects <==> a in steps[..n] && IsLauncherEffect(a)
  {
    if n > 0 {
      LauncherEffectsUpTo(from, xs, steps, n - 1, a);
      assert steps[..n] == steps[..n - 1] + [steps[n - 1]];
      assert xs[n - 1 + 1] == LauncherStateNext(xs[n - 1], steps[n - 1]);
    }
  }

  lemma LauncherStarts(from: LauncherPc)
    ensures LauncherDid(from, LauncherAt(from, false), [], [])
  {
    assert LauncherPasses(from, [LauncherState(LauncherAt(from, false), [])], []);
  }

  lemma LauncherSnoc(from: LauncherPc, at: LauncherAt, steps: seq<LauncherAction>, effects: seq<LauncherAction>,
                     a: LauncherAction)
    requires LauncherDid(from, at, steps, effects) && LauncherGoes(at.pc, at.spawned, a).Some?
    ensures LauncherDid(from, LauncherNext(at, a), steps + [a], effects + if IsLauncherEffect(a) then [a] else [])
  {
    var xs :| LauncherPasses(from, xs, steps) && xs[|steps|] == LauncherState(at, effects);
    assert LauncherPasses(from, xs + [LauncherStateNext(xs[|steps|], a)], steps + [a]);
  }

  /** A step of the launcher that changes nothing. */
  method LauncherLooks(ghost from: LauncherPc, ghost at: LauncherAt, steps: seq<LauncherAction>,
                       ghost effects: seq<LauncherAction>, a: LauncherAction)
      returns (steps': seq<LauncherAction>)
    requires LauncherDid(from, at, steps, effects) && LauncherGoes(at.pc, at.spawned, a).Some? && !IsLauncherEffect(a)
    ensures LauncherDid(from, LauncherNext(at, a), steps', effects)
  {
    LauncherSnoc(from, at, steps, effects, a);
    steps' := steps + [a];
    assert effects + [] == effects;
  }

  /** A step that does. */
  method LauncherActs(ghost from: LauncherPc, ghost at: LauncherAt, steps: seq<LauncherAction>,
                      ghost effects: seq<LauncherAction>, a: LauncherAction)
      returns (steps': seq<LauncherAction>)
    requires LauncherDid(from, at, steps, effects) && LauncherGoes(at.pc, at.spawned, a).Some? && IsLauncherEffect(a)
    ensures LauncherDid(from, LauncherNext(at, a), steps', effects + [a])
  {
    LauncherSnoc(from, at, steps, effects, a);
    steps' := steps + [a];
  }

  datatype Write = Complete | Incomplete | NotBegun

  datatype CreateWorld = CreateWorld(lockFree: bool, ownerWrite: Write, dirMade: bool, lockRemoved: bool)

  predicate IsCreated(w: CreateWorld) {
    w.lockFree && w.ownerWrite.Complete? && w.dirMade
  }

  function UndoOf(lockRemoved: bool): seq<LauncherAction> {
    if lockRemoved then [RemoveOwner, RemoveLock] else []
  }

  function LockingOf(w: CreateWorld): seq<LauncherAction> {
    [MakeLock(true), WriteOwner(w.ownerWrite.Complete?, w.ownerWrite.Incomplete?)]
    + if w.ownerWrite.Complete? then [MakeRunDir(w.dirMade)] else []
  }

  /** All that the creation does: a lock that is not free is left alone, and one that was made is undone if what
      follows fails. */
  function CreationOf(w: CreateWorld): seq<LauncherAction> {
    if !w.lockFree then []
    else LockingOf(w) + if IsCreated(w) then [] else UndoOf(w.lockRemoved)
  }

  /** `createWindowsUpgradeRun`. */
  method CreateWindowsUpgradeRun(w: CreateWorld) returns (created: bool, steps: seq<LauncherAction>)
    ensures LauncherDid(Idle, LauncherAt(if created then Prepared else Threw, false), steps, CreationOf(w))
    ensures created <==> IsCreated(w)
  {
    LauncherStarts(Idle);
    if !w.lockFree {
      steps := LauncherLooks(Idle, LauncherAt(Idle, false), [], [], MakeLock(false));
      return false, steps;
    }
    steps := LauncherActs(Idle, LauncherAt(Idle, false), [], [], MakeLock(true));
    steps := LauncherActs(Idle, LauncherAt(Locked, false), steps, [MakeLock(true)],
                          WriteOwner(w.ownerWrite.Complete?, w.ownerWrite.Incomplete?));
    ghost var effects := [MakeLock(true), WriteOwner(w.ownerWrite.Complete?, w.ownerWrite.Incomplete?)];
    assert [MakeLock(true)] + [WriteOwner(w.ownerWrite.Complete?, w.ownerWrite.Incomplete?)] == effects;
    if w.ownerWrite.Complete? {
      steps := LauncherActs(Idle, LauncherAt(Owned, false), steps, effects, MakeRunDir(w.dirMade));
      if w.dirMade {
        assert LockingOf(w) + [] == LockingOf(w);
        return true, steps;
      }
    }
    assert effects + [] == effects;
    steps := RemoveLockDirectory(Idle, LauncherAt(Undoing, false), steps, LockingOf(w), w.lockRemoved);
    return false, steps;
  }

  method RemoveLockDirectory(ghost from: LauncherPc, ghost at: LauncherAt, before: seq<LauncherAction>,
                             ghost effects: seq<LauncherAction>, lockRemoved: bool)
      returns (steps: seq<LauncherAction>)
    requires LauncherDid(from, at, before, effects) && at.pc in {Undoing, Removing}
    ensures LauncherDid(from, LauncherAt(Threw, at.spawned), steps, effects + UndoOf(lockRemoved))
  {
    steps := before;
    if !lockRemoved {
      steps := LauncherLooks(from, at, steps, effects, RemovalFails);
      assert effects + [] == effects;
      return;
    }
    steps := LauncherActs(from, at, steps, effects, RemoveOwner);
    steps := LauncherActs(from, at, steps, effects + [RemoveOwner], RemoveLock);
    assert effects + [RemoveOwner] + [RemoveLock] == effects + UndoOf(true);
  }

  /** What the launcher finds each time it looks for the handoff. */
  datatype HandoffPoll = HandoffPoll(childError: bool, runnerAnswers: bool, bootstrapFailed: bool)

  datatype LaunchWorld = LaunchWorld(
    spawnThrows: bool, spawned: bool, polls: seq<HandoffPoll>, exitedCleanly: bool, runnerAlive: bool,
    authorizeWrite: Write, cancelWrite: Write, handoffRemoved: bool, owner: Look, lockRemoved: bool)

  /** Some look finds a living runner's handoff; until then there was no error of the bootstrap, and no bad exit
      before. */
  predicate IsHandedOff(polls: seq<HandoffPoll>) {
    exists i :: 0 <= i < |polls| && polls[i].runnerAnswers && !polls[i].childError
                && forall j :: 0 <= j < i ==> !polls[j].childError && !polls[j].bootstrapFailed
  }

  method WaitForUpgradeHandoff(polls: seq<HandoffPoll>, before: seq<LauncherAction>, ghost effects: seq<LauncherAction>)
      returns (seen: bool, steps: seq<LauncherAction>)
    requires LauncherDid(Copied, LauncherAt(AwaitHandoff, true), before, effects)
    ensures LauncherDid(Copied, LauncherAt(if seen then AwaitExit else Cancelling, true), steps, effects)
    ensures seen <==> IsHandedOff(polls)
  {
    var i := 0;
    while i < |polls|
      invariant 0 <= i <= |polls|
      invariant forall j :: 0 <= j < i ==>
                  !polls[j].childError && !polls[j].runnerAnswers && !polls[j].bootstrapFailed
    {
      if polls[i].childError {
        break;
      }
      if polls[i].runnerAnswers {
        steps := LauncherLooks(Copied, LauncherAt(AwaitHandoff, true), before, effects, SeeHandoff);
        return true, steps;
      }
      if polls[i].bootstrapFailed {
        break;
      }
      i := i + 1;
    }
    steps := LauncherLooks(Copied, LauncherAt(AwaitHandoff, true), before, effects, GiveUpHandoff);
    return false, steps;
  }

  /** The runner has answered and outlived the bootstrap, so the launcher writes the authorization. */
  predicate MayAuthorize(w: LaunchWorld) {
    !w.spawnThrows && w.spawned && IsHandedOff(w.polls) && w.exitedCleanly && w.runnerAlive
  }

  predicate IsLaunched(w: LaunchWorld) {
    MayAuthorize(w) && w.authorizeWrite.Complete?
  }

  function AuthorizationOf(write: Write): seq<LauncherAction> {
    match write
    case NotBegun => []
    case Incomplete => [BeginAuthorize]
    case Complete => [BeginAuthorize, EndAuthorize]
  }

  function CancelMarkerOf(write: Write): seq<LauncherAction> {
    match write
    case NotBegun => []
    case Incomplete => [BeginCancel]
    case Complete => [BeginCancel, EndCancel]
  }

  function CancellationOf(w: LaunchWorld): seq<LauncherAction> {
    CancelMarkerOf(w.cancelWrite) + [KillBootstrap, RemoveHandoff(w.handoffRemoved)]
  }

  function ReleaseOf(w: LaunchWorld): seq<LauncherAction> {
    if w.owner.Found? then UndoOf(w.lockRemoved) else []
  }

  function TryOf(w: LaunchWorld): seq<LauncherAction> {
    [Spawn(w.spawned)] + if MayAuthorize(w) then AuthorizationOf(w.authorizeWrite) else []
  }

  /** The steps up to the authorization, or to the error that prevents it. */
  method TryLaunch(w: LaunchWorld) returns (launched: bool, steps: seq<LauncherAction>)
    requires !w.spawnThrows
    ensures LauncherDid(Copied, LauncherAt(if launched then Returned else Cancelling, w.spawned), steps, TryOf(w))
    ensures launched <==> IsLaunched(w)
  {
    LauncherStarts(Copied);
    steps := LauncherActs(Copied, LauncherAt(Copied, false), [], [], Spawn(w.spawned));
    ghost var effects := [Spawn(w.spawned)];
    assert [] + effects == effects && effects + [] == effects;
    if !w.spawned {
      steps := LauncherLooks(Copied, LauncherAt(AwaitSpawn, false), steps, effects, SeeSpawnError);
      return false, steps;
    }
    steps := LauncherLooks(Copied, LauncherAt(AwaitSpawn, false), steps, effects, SeeSpawn);
    var seen;
    seen, steps := WaitForUpgradeHandoff(w.polls, steps, effects);
    if !seen {
      return false, steps;
    }
    launched, steps := AfterHandoff(w, steps, effects);
  }

  method AfterHandoff(w: LaunchWorld, before: seq<LauncherAction>, ghost effects: seq<LauncherAction>)
      returns (launched: bool, steps: seq<LauncherAction>)
    requires LauncherDid(Copied, LauncherAt(AwaitExit, true), before, effects)
    ensures launched <==> w.exitedCleanly && w.runnerAlive && w.authorizeWrite.Complete?
    ensures LauncherDid(Copied, LauncherAt(if launched then Returned else Cancelling, true), steps,
                        effects + if w.exitedCleanly && w.runnerAlive then AuthorizationOf(w.authorizeWrite) else [])
  {
    if !w.exitedCleanly || !w.runnerAlive {
      steps := LauncherLooks(Copied, LauncherAt(AwaitExit, true), before, effects, GiveUpExit);
      assert effects + [] == effects;
      return false, steps;
    }
    steps := LauncherLooks(Copied, LauncherAt(AwaitExit, true), before, effects, SeeExit);
    launched, steps := WriteAuthorization(w.authorizeWrite, steps, effects);
  }

  method WriteAuthorization(write: Write, before: seq<LauncherAction>, ghost effects: seq<LauncherAction>)
      returns (written: bool, steps: seq<LauncherAction>)
    requires LauncherDid(Copied, LauncherAt(Authorizing, true), before, effects)
    ensures LauncherDid(Copied, LauncherAt(if written then Returned else Cancelling, true), steps,
                        effects + AuthorizationOf(write))
    ensures written <==> write.Complete?
  {
    ghost var at := LauncherAt(Authorizing, true);
    steps := before;
    if write.NotBegun? {
      steps := LauncherLooks(Copied, at, steps, effects, AuthorizeThrows);
      assert effects + [] == effects;
      return false, steps;
    }
    steps := LauncherActs(Copied, at, steps, effects, BeginAuthorize);
    if write.Incomplete? {
      steps := LauncherLooks(Copied, at, steps, effects + [BeginAuthorize], AuthorizeThrows);
      return false, steps;
    }
    steps := LauncherActs(Copied, at, steps, effects + [BeginAuthorize], EndAuthorize);
    assert effects + [BeginAuthorize] + [EndAuthorize] == effects + AuthorizationOf(write);
    steps := LauncherLooks(Copied, at, steps, effects + AuthorizationOf(write), AuthorizeReturns);
    return true, steps;
  }

  method WriteCancel(write: Write, spawned: bool, before: seq<LauncherAction>, ghost effects: seq<LauncherAction>)
      returns (steps: seq<LauncherAction>)
    requires LauncherDid(Copied, LauncherAt(Cancelling, spawned), before, effects)
    ensures LauncherDid(Copied, LauncherAt(Killing, spawned), steps, effects + CancelMarkerOf(write))
  {
    ghost var at := LauncherAt(Cancelling, spawned);
    steps := before;
    if write.NotBegun? {
      assert effects + [] == effects;
    } else {
      steps := BeginAndEndCancel(write.Complete?, spawned, before, effects);
    }
    steps := LauncherLooks(Copied, at, steps, effects + CancelMarkerOf(write), CancelOver);
  }

  method BeginAndEndCancel(complete: bool, spawned: bool, before: seq<LauncherAction>, ghost effects: seq<LauncherAction>)
      returns (steps: seq<LauncherAction>)
    requires LauncherDid(Copied, LauncherAt(Cancelling, spawned), before, effects)
    ensures LauncherDid(Copied, LauncherAt(Cancelling, spawned), steps,
                        effects + CancelMarkerOf(if complete then Complete else Incomplete))
  {
    ghost var at := LauncherAt(Cancelling, spawned);
    steps := LauncherActs(Copied, at, before, effects, BeginCancel);
    if complete {
      steps := LauncherActs(Copied, at, steps, effects + [BeginCancel], EndCancel);
      assert effects + [BeginCancel] + [EndCancel] == effects + [BeginCancel, EndCancel];
    }
  }

  /** What follows every error after the spawn: cancel, kill, remove the handoff. */
  method CancelLaunch(w: LaunchWorld, before: seq<LauncherAction>, ghost effects: seq<LauncherAction>)
      returns (steps: seq<LauncherAction>)
    requires LauncherDid(Copied, LauncherAt(Cancelling, w.spawned), before, effects)
    ensures LauncherDid(Copied, LauncherAt(if w.spawned then Threw else Releasing, w.spawned), steps,
                        effects + CancellationOf(w))
  {
    steps := WriteCancel(w.cancelWrite, w.spawned, before, effects);
    ghost var done := effects + CancelMarkerOf(w.cancelWrite);
    steps := LauncherActs(Copied, LauncherAt(Killing, w.spawned), steps, done, KillBootstrap);
    done := done + [KillBootstrap];
    steps := LauncherActs(Copied, LauncherAt(RemovingHandoff, w.spawned), steps, done, RemoveHandoff(w.handoffRemoved));
    assert done + [RemoveHandoff(w.handoffRemoved)] == effects + CancellationOf(w);
  }

  /** All that the launcher does to files and to other processes. */
  function LaunchOf(w: LaunchWorld): seq<LauncherAction> {
    if w.spawnThrows then ReleaseOf(w)
    else
      TryOf(w) + if IsLaunched(w) then [] else CancellationOf(w) + if w.spawned then [] else ReleaseOf(w)
  }

  /** `launchWindowsUpgradeScript`. */
  method LaunchWindowsUpgradeScript(w: LaunchWorld) returns (launched: bool, steps: seq<LauncherAction>)
    ensures LauncherDid(Copied, LauncherAt(if launched then Returned else Threw, !w.spawnThrows && w.spawned), steps,
                        LaunchOf(w))
    ensures launched <==> IsLaunched(w)
    ensures launched <==> EndAuthorize in steps
    ensures KillBootstrap in steps <==> !w.spawnThrows && !launched
    ensures EndCancel in steps <==> !w.spawnThrows && !launched && w.cancelWrite.Complete?
    ensures RemoveLock in steps <==> (w.spawnThrows || !w.spawned) && w.owner.Found? && w.lockRemoved
  {
    LauncherStarts(Copied);
    if w.spawnThrows {
      steps := LauncherLooks(Copied, LauncherAt(Copied, false), [], [], SpawnThrows);
      steps := ReleaseLock(w, steps, []);
      launched := false;
      assert [] + ReleaseOf(w) == ReleaseOf(w);
    } else {
      launched, steps := TryLaunch(w);
      assert TryOf(w) + [] == TryOf(w);
      if !launched {
        steps := CancelLaunch(w, steps, TryOf(w));
        assert CancellationOf(w) + [] == CancellationOf(w);
        if !w.spawned {
          steps := ReleaseLock(w, steps, TryOf(w) + CancellationOf(w));
          assert TryOf(w) + CancellationOf(w) + ReleaseOf(w) == TryOf(w) + (CancellationOf(w) + ReleaseOf(w));
        }
      }
    }
    ghost var at := LauncherAt(if launched then Returned else Threw, !w.spawnThrows && w.spawned);
    InLaunch(w, at, steps, EndAuthorize);
    InLaunch(w, at, steps, KillBootstrap);
    InLaunch(w, at, steps, EndCancel);
    InLaunch(w, at, steps, RemoveLock);
  }

  lemma InTry(w: LaunchWorld, a: LauncherAction)
    ensures a in TryOf(w) <==> (|| a == Spawn(w.spawned)
                                || (MayAuthorize(w) && a == BeginAuthorize && !w.authorizeWrite.NotBegun?)
                                || (IsLaunched(w) && a == EndAuthorize))
  {
  }

  lemma InCancellation(w: LaunchWorld, a: LauncherAction)
    requires a.EndAuthorize? || a.KillBootstrap? || a.EndCancel? || a.RemoveLock?
    ensures a in CancellationOf(w) <==> a.KillBootstrap? || (a.EndCancel? && w.cancelWrite.Complete?)
  {
  }

  lemma InLaunch(w: LaunchWorld, at: LauncherAt, steps: seq<LauncherAction>, a: LauncherAction)
    requires LauncherDid(Copied, at, steps, LaunchOf(w))
    requires a.EndAuthorize? || a.KillBootstrap? || a.EndCancel? || a.RemoveLock?
    ensures a.EndAuthorize? ==> (a in steps <==> IsLaunched(w))
    ensures a.RemoveLock? ==> (a in steps <==> (w.spawnThrows || !w.spawned) && w.owner.Found? && w.lockRemoved)
    ensures a.KillBootstrap? ==> (a in steps <==> !w.spawnThrows && !IsLaunched(w))
    ensures a.EndCancel? ==> (a in steps <==> !w.spawnThrows && !IsLaunched(w) && w.cancelWrite.Complete?)
  {
    LauncherEffectsAre(Copied, at, steps, LaunchOf(w), a);
    InTry(w, a);
    InCancellation(w, a);
    assert a in ReleaseOf(w) <==> a.RemoveLock? && w.owner.Found? && w.lockRemoved;
  }

  /** `releaseWindowsUpgradeLock`, by the launcher. */
  method ReleaseLock(w: LaunchWorld, before: seq<LauncherAction>, ghost effects: seq<LauncherAction>)
      returns (steps: seq<LauncherAction>)
    requires LauncherDid(Copied, LauncherAt(Releasing, false), before, effects)
    ensures LauncherDid(Copied, LauncherAt(Threw, false), steps, effects + ReleaseOf(w))
  {
    steps := LauncherLooks(Copied, LauncherAt(Releasing, false), before, effects, ReadOwner(w.owner));
    if w.owner.Found? {
      steps := RemoveLockDirectory(Copied, LauncherAt(Removing, false), steps, effects, w.lockRemoved);
    } else {
      assert effects + [] == effects;
    }
  }
}
