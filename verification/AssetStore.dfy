/** The quota-accounted image store (server/yeaft-asset-store.js).

    A scope id is a keyed digest of owner, agent and session, and an asset id is the digest of the bytes; the
    model takes both as injective and uses the digested values themselves. The disk is a table of data files
    and a table of metadata files. Clock readings are arguments, one for each call; writes and removals may
    fail, and a failing removal stops the operation where it is.
  */
module AssetStore {
  import opened Text
  import opened Utf8

  const MAX_ASSET_BYTES := 20_971_520
  const ONE_HOUR := 3_600_000.0

  datatype Config = Config(maxScopeBytes: int, maxOwnerBytes: int, maxGlobalBytes: int, maxScopeAssets: int,
                           maxGlobalAssets: int, retentionMs: real, orphanGraceMs: real)

  datatype Scope = Scope(ownerId: string, agentId: string, sessionId: string)

  datatype Slot = Slot(scope: Scope, asset: seq<Byte>)

  /** Parsed metadata: `scope` is what its scope id stands for, `named` the three ids it spells out. */
  datatype Meta = Meta(scope: Scope, named: Scope, asset: seq<Byte>, size: int, createdAt: real, lastReferencedAt: real)

  /** A metadata file that does not parse has no content. */
  datatype MetaFile = MetaFile(mtime: real, content: Option<Meta>)

  datatype Files = Files(data: map<Slot, real>, meta: map<Slot, MetaFile>)

  datatype File = DataFile(slot: Slot) | MetadataFile(slot: Slot)

  type Rows = map<Slot, Meta>

  // ---------------------------------------------------------------- accounting

  /** What the store limits. */
  datatype Quantity =
    | TotalBytes
    | TotalCount
    | ScopeBytes(scope: Scope)
    | ScopeCount(scope: Scope)
    | OwnerBytes(ownerId: string)

  datatype Counters = Counters(scopeUsage: map<Scope, int>, scopeCounts: map<Scope, int>,
                               ownerUsage: map<string, int>, totalUsage: int, assetCount: int)

  function Get<K>(m: map<K, int>, k: K): int {
    if k in m then m[k] else 0
  }

  function Counter(c: Counters, q: Quantity): int {
    match q
    case TotalBytes => c.totalUsage
    case TotalCount => c.assetCount
    case ScopeBytes(scope) => Get(c.scopeUsage, scope)
    case ScopeCount(scope) => Get(c.scopeCounts, scope)
    case OwnerBytes(ownerId) => Get(c.ownerUsage, ownerId)
  }

  function Limit(cfg: Config, q: Quantity): int {
    match q
    case TotalBytes => cfg.maxGlobalBytes
    case TotalCount => cfg.maxGlobalAssets
    case ScopeBytes(_) => cfg.maxScopeBytes
    case ScopeCount(_) => cfg.maxScopeAssets
    case OwnerBytes(_) => cfg.maxOwnerBytes
  }

  /** How much one row adds to a quantity. */
  function Weight(m: Meta, q: Quantity): int {
    match q
    case TotalBytes => m.size
    case TotalCount => 1
    case ScopeBytes(scope) => if m.scope == scope then m.size else 0
    case ScopeCount(scope) => if m.scope == scope then 1 else 0
    case OwnerBytes(ownerId) => if m.named.ownerId == ownerId then m.size else 0
  }

  predicate IsRow(files: Files, slot: Slot) {
    && slot in files.data && slot in files.meta && files.meta[slot].content.Some?
    && files.meta[slot].content.value.scope == slot.scope && files.meta[slot].content.value.asset == slot.asset
  }

  function MetadataRows(files: Files): Rows {
    map slot | slot in files.meta && IsRow(files, slot) :: files.meta[slot].content.value
  }

  ghost function Sum(rows: Rows, q: Quantity): int
    decreases |rows|
  {
    if rows == map[] then 0
    else
      var slot :| slot in rows;
      Weight(rows[slot], q) + Sum(rows - {slot}, q)
  }

  /** How much of a quantity the files on disk use. */
  ghost function Used(files: Files, q: Quantity): int {
    Sum(MetadataRows(files), q)
  }

  ghost predicate Exact(files: Files, c: Counters) {
    forall q :: Counter(c, q) == Used(files, q)
  }

  ghost predicate Bounding(files: Files, c: Counters) {
    forall q :: Used(files, q) <= Counter(c, q)
  }

  function Added(c: Counters, m: Meta): Counters {
    Counters(c.scopeUsage[m.scope := Get(c.scopeUsage, m.scope) + m.size],
             c.scopeCounts[m.scope := Get(c.scopeCounts, m.scope) + 1],
             c.ownerUsage[m.named.ownerId := Get(c.ownerUsage, m.named.ownerId) + m.size],
             c.totalUsage + m.size, c.assetCount + 1)
  }

  // ---------------------------------------------------------------- operations

  datatype State = State(files: Files, counters: Counters, lastCleanupAt: real)

  function ReferencedAt(m: Meta): real {
    if m.lastReferencedAt != 0.0 then m.lastReferencedAt else if m.createdAt != 0.0 then m.createdAt else 0.0
  }

  predicate IsExpired(cfg: Config, m: Meta, now: real) {
    ReferencedAt(m) < now - cfg.retentionMs
  }

  predicate IsOld(cfg: Config, mtime: real, now: real) {
    now - mtime >= cfg.orphanGraceMs
  }

  /** The garbage collector removes expired rows and, after a grace period, files that belong to no row. */
  predicate DataDue(cfg: Config, files: Files, slot: Slot, now: real)
    requires slot in files.data
  {
    if IsRow(files, slot) then IsExpired(cfg, files.meta[slot].content.value, now)
    else IsOld(cfg, files.data[slot], now)
  }

  predicate MetaDue(cfg: Config, files: Files, slot: Slot, now: real)
    requires slot in files.meta
  {
    if IsRow(files, slot) then IsExpired(cfg, files.meta[slot].content.value, now)
    else IsOld(cfg, files.meta[slot].mtime, now)
  }

  function Collected(cfg: Config, files: Files, now: real): Files {
    Files(map slot | slot in files.data && !DataDue(cfg, files, slot, now) :: files.data[slot],
          map slot | slot in files.meta && !MetaDue(cfg, files, slot, now) :: files.meta[slot])
  }

  /** A collection that stopped at a file it could not remove. */
  ghost predicate IsPartlyCollected(cfg: Config, files: Files, files': Files, now: real) {
    && (forall slot :: slot in files'.data ==> slot in files.data && files'.data[slot] == files.data[slot])
    && (forall slot :: slot in files'.meta ==> slot in files.meta && files'.meta[slot] == files.meta[slot])
    && (forall slot :: slot in files.data && slot !in files'.data ==> DataDue(cfg, files, slot, now))
    && (forall slot :: slot in files.meta && slot !in files'.meta ==> MetaDue(cfg, files, slot, now))
  }

  ghost predicate CollectStep(cfg: Config, s: State, completed: bool, now: real, s': State) {
    if completed
    then s'.files == Collected(cfg, s.files, now) && Exact(s'.files, s'.counters) && s'.lastCleanupAt == now
    else IsPartlyCollected(cfg, s.files, s'.files, now) && s'.counters == s.counters && s'.lastCleanupAt == s.lastCleanupAt
  }

  function WithoutScope(files: Files, scope: Scope): Files {
    Files(map slot | slot in files.data && slot.scope != scope :: files.data[slot],
          map slot | slot in files.meta && slot.scope != scope :: files.meta[slot])
  }

  /** Part of a scope's files is gone. */
  ghost predicate IsPartlyDeleted(files: Files, files': Files, scope: Scope) {
    && (forall slot :: slot in files'.data ==> slot in files.data && files'.data[slot] == files.data[slot])
    && (forall slot :: slot in files'.meta ==> slot in files.meta && files'.meta[slot] == files.meta[slot])
    && (forall slot :: slot in files.data && slot !in files'.data ==> slot.scope == scope)
    && (forall slot :: slot in files.meta && slot !in files'.meta ==> slot.scope == scope)
  }

  predicate HasIds(scope: Scope) {
    scope.ownerId != "" && scope.agentId != "" && scope.sessionId != ""
  }

  ghost predicate DeleteStep(s: State, scope: Scope, completed: bool, s': State) {
    if !HasIds(scope) then s' == s
    else if completed
    then s'.files == WithoutScope(s.files, scope) && Exact(s'.files, s'.counters) && s'.lastCleanupAt == s.lastCleanupAt
    else IsPartlyDeleted(s.files, s'.files, scope) && s'.counters == s.counters && s'.lastCleanupAt == s.lastCleanupAt
  }

  datatype Request = Request(scope: Scope, buffer: seq<Byte>, mimeType: string, assetId: Option<seq<Byte>>)

  datatype DataWrite = Written | NotWritten | PartlyWritten

  /** How the writes and the removal of a rollback go. */
  datatype Faults = Faults(dataWrite: DataWrite, metaWritten: bool, rolledBack: bool)

  datatype Answer =
    | MissingIds
    | BadSize
    | NotAnImage
    | WrongMime
    | WrongAssetId
    | ScopeCountExceeded
    | GlobalCountExceeded
    | ScopeBytesExceeded
    | OwnerBytesExceeded
    | GlobalBytesExceeded
    | WriteFailed
    | Stored(meta: Meta)

  /** Decoding as ASCII drops the top bit of each byte. */
  function Ascii(b: seq<Byte>): string {
    seq(|b|, i requires 0 <= i < |b| => (b[i] % 128) as char)
  }

  function DetectImageMime(b: seq<Byte>): Option<string> {
    if |b| < 10 then None
    else if b[..8] == [0x89, 0x50, 0x4e, 0x47, 0x0d, 0x0a, 0x1a, 0x0a] then Some("image/png")
    else if b[..3] == [0xff, 0xd8, 0xff] then Some("image/jpeg")
    else if Ascii(b[..6]) == "GIF87a" || Ascii(b[..6]) == "GIF89a" then Some("image/gif")
    else if |b| >= 12 && Ascii(b[..4]) == "RIFF" && Ascii(b[8..12]) == "WEBP" then Some("image/webp")
    else None
  }

  /** Why a request is refused before any file is looked at. */
  function Refusal(r: Request): Option<Answer> {
    if !HasIds(r.scope) then Some(MissingIds)
    else if r.buffer == [] || |r.buffer| > MAX_ASSET_BYTES then Some(BadSize)
    else match DetectImageMime(r.buffer)
      case None => Some(NotAnImage)
      case Some(mime) =>
        if r.mimeType != "" && r.mimeType != mime then Some(WrongMime)
        else if r.assetId.Some? && r.assetId.value != r.buffer then Some(WrongAssetId)
        else None
  }

  function SlotOf(r: Request): Slot {
    Slot(r.scope, r.buffer)
  }

  predicate IsDuplicate(files: Files, slot: Slot) {
    slot in files.data && slot in files.meta
  }

  /** The quota a new asset would exceed, in the order in which they are checked. */
  function Exceeded(cfg: Config, c: Counters, r: Request): Option<Answer> {
    if Get(c.scopeCounts, r.scope) + 1 > cfg.maxScopeAssets then Some(ScopeCountExceeded)
    else if c.assetCount + 1 > cfg.maxGlobalAssets then Some(GlobalCountExceeded)
    else if Get(c.scopeUsage, r.scope) + |r.buffer| > cfg.maxScopeBytes then Some(ScopeBytesExceeded)
    else if Get(c.ownerUsage, r.scope.ownerId) + |r.buffer| > cfg.maxOwnerBytes then Some(OwnerBytesExceeded)
    else if c.totalUsage + |r.buffer| > cfg.maxGlobalBytes then Some(GlobalBytesExceeded)
    else None
  }

  function NewMeta(files: Files, r: Request, now: real): Meta {
    var slot := SlotOf(r);
    var existing := if IsDuplicate(files, slot) then files.meta[slot].content else None;
    Meta(r.scope, r.scope, r.buffer, |r.buffer|,
         if existing.Some? && existing.value.createdAt != 0.0 then existing.value.createdAt else now, now)
  }

  datatype PutResult = PutResult(state: State, answer: Answer)

  /** Storing an image, after a collection that may have been due. */
  function AfterPut(cfg: Config, s: State, r: Request, faults: Faults, now: real): PutResult {
    if Refusal(r).Some? then PutResult(s, Refusal(r).value)
    else if !IsDuplicate(s.files, SlotOf(r)) && Exceeded(cfg, s.counters, r).Some?
    then PutResult(s, Exceeded(cfg, s.counters, r).value)
    else AfterWrites(s, r, faults, now)
  }

  function AfterWrites(s: State, r: Request, faults: Faults, now: real): PutResult {
    var slot, duplicate := SlotOf(r), IsDuplicate(s.files, SlotOf(r));
    if slot !in s.files.data && faults.dataWrite == NotWritten then PutResult(s, WriteFailed)
    else
      var data := if slot in s.files.data then s.files.data else s.files.data[slot := now];
      if slot !in s.files.data && faults.dataWrite == PartlyWritten
      then PutResult(s.(files := s.files.(data := data)), WriteFailed)
      else if !faults.metaWritten
      then PutResult(s.(files := s.files.(data := if !duplicate && faults.rolledBack then data - {slot} else data)),
                     WriteFailed)
      else
        var m := NewMeta(s.files, r, now);
        PutResult(s.(files := Files(data, s.files.meta[slot := MetaFile(now, Some(m))]),
                     counters := if duplicate then s.counters else Added(s.counters, m)),
                  Stored(m))
  }

  function Slack(cfg: Config): real {
    if cfg.retentionMs / 2.0 < ONE_HOUR then cfg.retentionMs / 2.0 else ONE_HOUR
  }

  function Described(files: Files, slot: Slot): Option<Meta> {
    if !HasIds(slot.scope) || slot.asset == [] || !IsDuplicate(files, slot) then None
    else match files.meta[slot].content
      case None => None
      case Some(m) => if m.named != slot.scope || m.asset != slot.asset then None else Some(m)
  }

  /** Describing an asset renews its reference if it is old enough and the metadata can be written. */
  function AfterDescribe(cfg: Config, s: State, slot: Slot, writable: bool, now: real): State {
    match Described(s.files, slot)
    case None => s
    case Some(m) =>
      if now - m.lastReferencedAt > Slack(cfg) && writable
      then s.(files := s.files.(meta := s.files.meta[slot := MetaFile(now, Some(m.(lastReferencedAt := now)))]))
      else s
  }

  // ---------------------------------------------------------------- sums

  lemma {:induction false} SumRemove(rows: Rows, slot: Slot, q: Quantity)
    requires slot in rows
    ensures Sum(rows, q) == Weight(rows[slot], q) + Sum(rows - {slot}, q)
    decreases |rows|
  {
    var first :| first in rows && Sum(rows, q) == Weight(rows[first], q) + Sum(rows - {first}, q);
    if first != slot {
      SumRemove(rows - {first}, slot, q);
      SumRemove(rows - {slot}, first, q);
      assert rows - {first} - {slot} == rows - {slot} - {first};
    }
  }

  lemma SumUpdate(rows: Rows, slot: Slot, m: Meta, q: Quantity)
    ensures Sum(rows[slot := m], q)
         == Sum(rows, q) + Weight(m, q) - if slot in rows then Weight(rows[slot], q) else 0
  {
    SumRemove(rows[slot := m], slot, q);
    assert rows[slot := m] - {slot} == rows - {slot};
    if slot in rows {
      SumRemove(rows, slot, q);
    } else {
      assert rows - {slot} == rows;
    }
  }

  ghost predicate IsPartOf(less: Rows, rows: Rows) {
    forall slot :: slot in less ==> slot in rows && less[slot] == rows[slot]
  }

  lemma {:induction false} SumOfPart(less: Rows, rows: Rows, q: Quantity)
    requires IsPartOf(less, rows) && forall slot :: slot in rows ==> rows[slot].size >= 0
    ensures Sum(less, q) <= Sum(rows, q)
    decreases |rows|
  {
    if rows == map[] {
      assert less == map[];
    } else {
      var slot :| slot in rows;
      SumRemove(rows, slot, q);
      SumOfPart(less - {slot}, rows - {slot}, q);
      if slot in less {
        SumRemove(less, slot, q);
      } else {
        assert less - {slot} == less;
      }
    }
  }

  lemma AddedCounts(c: Counters, m: Meta, q: Quantity)
    ensures Counter(Added(c, m), q) == Counter(c, q) + Weight(m, q)
  {
  }

  // ---------------------------------------------------------------- one step

  datatype Step =
    | Collect(completed: bool, now: real)
    | Put(request: Request, faults: Faults, now: real)
    | Describe(slot: Slot, writable: bool, now: real)
    | DeleteScope(scope: Scope, completed: bool)

  /** A collection that a put triggers is a step of its own, at the same time. */
  ghost predicate Next(cfg: Config, s: State, step: Step, s': State) {
    match step
    case Collect(completed, now) => CollectStep(cfg, s, completed, now, s')
    case Put(r, faults, now) => s' == AfterPut(cfg, s, r, faults, now).state
    case Describe(slot, writable, now) => s' == AfterDescribe(cfg, s, slot, writable, now)
    case DeleteScope(scope, completed) => DeleteStep(s, scope, completed, s')
  }

  ghost predicate Succeeds(step: Step) {
    match step
    case Collect(completed, _) => completed
    case DeleteScope(_, completed) => completed
    case _ => true
  }

  /** Nothing stands against the request before the writes begin. */
  predicate IsAdmitted(cfg: Config, s: State, r: Request) {
    Refusal(r).None? && (IsDuplicate(s.files, SlotOf(r)) || Exceeded(cfg, s.counters, r).None?)
  }

  /** Metadata an interrupted removal left behind: they would be a row if the data were there. */
  predicate IsStray(files: Files, slot: Slot) {
    && slot !in files.data && slot in files.meta && files.meta[slot].content.Some?
    && files.meta[slot].content.value.scope == slot.scope && files.meta[slot].content.value.asset == slot.asset
  }

  /** The put fails and leaves its data. */
  predicate LeavesData(faults: Faults) {
    faults.dataWrite == PartlyWritten || (faults.dataWrite == Written && !faults.metaWritten && !faults.rolledBack)
  }

  /** A failing put makes stray metadata a row again, uncounted. */
  predicate Revives(cfg: Config, s: State, r: Request, faults: Faults) {
    IsAdmitted(cfg, s, r) && IsStray(s.files, SlotOf(r)) && LeavesData(faults)
  }

  /** The files count as much as the metadata the request would write. */
  predicate IsCountedAs(files: Files, r: Request) {
    && IsRow(files, SlotOf(r))
    && files.meta[SlotOf(r)].content.value.size == |r.buffer|
    && files.meta[SlotOf(r)].content.value.named.ownerId == r.scope.ownerId
  }

  /** A put that takes the asset for a duplicate rewrites metadata that were counted otherwise, or not at all. */
  predicate Repairs(cfg: Config, s: State, r: Request, faults: Faults) {
    && IsAdmitted(cfg, s, r) && IsDuplicate(s.files, SlotOf(r)) && faults.metaWritten
    && !IsCountedAs(s.files, r)
  }

  /** The steps whose effect on the disk the counters do not follow. */
  predicate Drifts(cfg: Config, s: State, step: Step) {
    step.Put? && (Revives(cfg, s, step.request, step.faults) || Repairs(cfg, s, step.request, step.faults))
  }

  // ---------------------------------------------------------------- what a step does to one quantity

  lemma StoredRows(s: State, r: Request, faults: Faults, now: real)
    requires AfterWrites(s, r, faults, now).answer.Stored?
    ensures var after := AfterWrites(s, r, faults, now);
            MetadataRows(after.state.files) == MetadataRows(s.files)[SlotOf(r) := after.answer.meta]
  {
  }

  lemma NotStoredRows(s: State, r: Request, faults: Faults, now: real)
    requires AfterWrites(s, r, faults, now).answer == WriteFailed
    ensures MetadataRows(AfterWrites(s, r, faults, now).state.files)
         == if IsStray(s.files, SlotOf(r)) && LeavesData(faults)
            then MetadataRows(s.files)[SlotOf(r) := s.files.meta[SlotOf(r)].content.value] else MetadataRows(s.files)
  {
  }

  /** How much more of a quantity the disk uses after a put, and how much more the counters say. */
  function Gained(cfg: Config, s: State, r: Request, faults: Faults, now: real, q: Quantity): int {
    var slot, answer := SlotOf(r), AfterPut(cfg, s, r, faults, now).answer;
    if answer.Stored? then
      Weight(answer.meta, q) - if IsRow(s.files, slot) then Weight(s.files.meta[slot].content.value, q) else 0
    else if Revives(cfg, s, r, faults) then Weight(s.files.meta[slot].content.value, q)
    else 0
  }

  function Charged(cfg: Config, s: State, r: Request, faults: Faults, now: real, q: Quantity): int {
    var answer := AfterPut(cfg, s, r, faults, now).answer;
    if answer.Stored? && !IsDuplicate(s.files, SlotOf(r)) then Weight(answer.meta, q) else 0
  }

  lemma PutUses(cfg: Config, s: State, r: Request, faults: Faults, now: real, q: Quantity)
    ensures Used(AfterPut(cfg, s, r, faults, now).state.files, q)
         == Used(s.files, q) + Gained(cfg, s, r, faults, now, q)
  {
    var slot, after := SlotOf(r), AfterPut(cfg, s, r, faults, now);
    if after.answer.Stored? {
      StoredRows(s, r, faults, now);
      SumUpdate(MetadataRows(s.files), slot, after.answer.meta, q);
    } else if after.answer == WriteFailed {
      NotStoredRows(s, r, faults, now);
      if Revives(cfg, s, r, faults) {
        SumUpdate(MetadataRows(s.files), slot, s.files.meta[slot].content.value, q);
      }
    }
  }

  lemma PutCounts(cfg: Config, s: State, r: Request, faults: Faults, now: real, q: Quantity)
    ensures Counter(AfterPut(cfg, s, r, faults, now).state.counters, q)
         == Counter(s.counters, q) + Charged(cfg, s, r, faults, now, q)
    ensures Charged(cfg, s, r, faults, now, q) > 0 ==>
              Counter(s.counters, q) + Charged(cfg, s, r, faults, now, q) <= Limit(cfg, q)
  {
    var answer := AfterPut(cfg, s, r, faults, now).answer;
    if answer.Stored? {
      AddedCounts(s.counters, answer.meta, q);
    }
  }

  /** What the disk gains is what is charged, unless the put drifts; then some quantity is off. */
  lemma GainedIsCharged(cfg: Config, s: State, r: Request, faults: Faults, now: real)
    ensures !Drifts(cfg, s, Put(r, faults, now)) ==>
              forall q :: Gained(cfg, s, r, faults, now, q) == Charged(cfg, s, r, faults, now, q)
    ensures Drifts(cfg, s, Put(r, faults, now)) ==>
              exists q :: Gained(cfg, s, r, faults, now, q) != Charged(cfg, s, r, faults, now, q)
  {
    if Revives(cfg, s, r, faults) {
      assert Gained(cfg, s, r, faults, now, TotalCount) == 1 && Charged(cfg, s, r, faults, now, TotalCount) == 0;
    } else if Repairs(cfg, s, r, faults) {
      RepairIsOff(cfg, s, r, faults, now);
    }
  }

  lemma RepairIsOff(cfg: Config, s: State, r: Request, faults: Faults, now: real)
    requires Repairs(cfg, s, r, faults)
    ensures exists q :: Gained(cfg, s, r, faults, now, q) != Charged(cfg, s, r, faults, now, q)
  {
    var slot := SlotOf(r);
    assert AfterPut(cfg, s, r, faults, now).answer == Stored(NewMeta(s.files, r, now));
    if !IsRow(s.files, slot) {
      assert Gained(cfg, s, r, faults, now, TotalCount) == 1;
    } else {
      var m := s.files.meta[slot].content.value;
      assert Gained(cfg, s, r, faults, now, TotalBytes) == |r.buffer| - m.size;
      if m.size == |r.buffer| {
        assert Gained(cfg, s, r, faults, now, OwnerBytes(r.scope.ownerId)) == |r.buffer|;
      }
    }
  }

  lemma DescribeUsesTheSame(cfg: Config, s: State, slot: Slot, writable: bool, now: real, q: Quantity)
    ensures var s' := AfterDescribe(cfg, s, slot, writable, now);
            Used(s'.files, q) == Used(s.files, q) && s'.counters == s.counters
  {
    var s' := AfterDescribe(cfg, s, slot, writable, now);
    if s' != s {
      var m := Described(s.files, slot).value.(lastReferencedAt := now);
      if IsRow(s.files, slot) {
        assert MetadataRows(s'.files) == MetadataRows(s.files)[slot := m];
        SumUpdate(MetadataRows(s.files), slot, m, q);
      } else {
        assert MetadataRows(s'.files) == MetadataRows(s.files);
      }
    }
  }

  /** No row has a negative size. */
  ghost predicate HasSizes(files: Files) {
    forall slot :: slot in files.meta && files.meta[slot].content.Some? ==> files.meta[slot].content.value.size >= 0
  }

  /** Removing files only ever lowers what is used. */
  lemma FewerFilesUseLess(files: Files, files': Files, q: Quantity)
    requires HasSizes(files)
    requires forall slot :: slot in files'.data ==> slot in files.data
    requires forall slot :: slot in files'.meta ==> slot in files.meta && files'.meta[slot] == files.meta[slot]
    ensures Used(files', q) <= Used(files, q) && HasSizes(files')
  {
    SumOfPart(MetadataRows(files'), MetadataRows(files), q);
  }

  lemma CollectUsesLess(cfg: Config, s: State, completed: bool, now: real, s': State, q: Quantity)
    requires HasSizes(s.files) && CollectStep(cfg, s, completed, now, s')
    ensures HasSizes(s'.files) && Used(s'.files, q) <= Used(s.files, q)
  {
    FewerFilesUseLess(s.files, s'.files, q);
  }

  lemma DeleteUsesLess(s: State, scope: Scope, completed: bool, s': State, q: Quantity)
    requires HasSizes(s.files) && DeleteStep(s, scope, completed, s')
    ensures HasSizes(s'.files) && Used(s'.files, q) <= Used(s.files, q)
  {
    FewerFilesUseLess(s.files, s'.files, q);
  }

  // ---------------------------------------------------------------- results about one step

  /** The counters stay equal to a recount of the disk across a put, whatever is on the disk and whatever fails,
      if and only if the put neither revives stray metadata nor repairs miscounted ones. */
  lemma PutStaysExactUnlessItDrifts(cfg: Config, s: State, r: Request, faults: Faults, now: real)
    requires Exact(s.files, s.counters)
    ensures var s' := AfterPut(cfg, s, r, faults, now).state;
            Exact(s'.files, s'.counters) <==> !Revives(cfg, s, r, faults) && !Repairs(cfg, s, r, faults)
  {
    var s' := AfterPut(cfg, s, r, faults, now).state;
    GainedIsCharged(cfg, s, r, faults, now);
    if Drifts(cfg, s, Put(r, faults, now)) {
      var q :| Gained(cfg, s, r, faults, now, q) != Charged(cfg, s, r, faults, now, q);
      PutUses(cfg, s, r, faults, now, q);
      PutCounts(cfg, s, r, faults, now, q);
      assert Counter(s.counters, q) == Used(s.files, q) && Counter(s'.counters, q) != Used(s'.files, q);
    } else {
      forall q ensures Counter(s'.counters, q) == Used(s'.files, q) {
        PutUses(cfg, s, r, faults, now, q);
        PutCounts(cfg, s, r, faults, now, q);
      }
    }
  }

  lemma StepKeepsExact(cfg: Config, s: State, step: Step, s': State)
    requires Next(cfg, s, step, s') && Succeeds(step) && !Drifts(cfg, s, step) && Exact(s.files, s.counters)
    ensures Exact(s'.files, s'.counters)
  {
    match step
    case Collect(completed, now) =>
    case Put(r, faults, now) => PutStaysExactUnlessItDrifts(cfg, s, r, faults, now);
    case Describe(slot, writable, now) =>
      forall q ensures Counter(s'.counters, q) == Used(s'.files, q) {
        DescribeUsesTheSame(cfg, s, slot, writable, now, q);
      }
    case DeleteScope(scope, completed) =>
  }

  lemma PutKeepsSizes(cfg: Config, s: State, r: Request, faults: Faults, now: real)
    requires HasSizes(s.files)
    ensures HasSizes(AfterPut(cfg, s, r, faults, now).state.files)
  {
  }

  /** Whatever fails, a step that does not drift keeps the counters at or above what is used, and no quantity grows
      beyond its limit. */
  lemma StepKeepsQuota(cfg: Config, s: State, step: Step, s': State, q: Quantity)
    requires Next(cfg, s, step, s') && !Drifts(cfg, s, step)
    requires HasSizes(s.files) && Used(s.files, q) <= Counter(s.counters, q)
    ensures HasSizes(s'.files) && Used(s'.files, q) <= Counter(s'.counters, q)
    ensures Used(s'.files, q) <= Used(s.files, q) || Used(s'.files, q) <= Limit(cfg, q)
  {
    match step
    case Collect(completed, now) => CollectUsesLess(cfg, s, completed, now, s', q);
    case Put(r, faults, now) =>
      PutKeepsSizes(cfg, s, r, faults, now);
      GainedIsCharged(cfg, s, r, faults, now);
      PutUses(cfg, s, r, faults, now, q);
      PutCounts(cfg, s, r, faults, now, q);
    case Describe(slot, writable, now) => DescribeUsesTheSame(cfg, s, slot, writable, now, q);
    case DeleteScope(scope, completed) => DeleteUsesLess(s, scope, completed, s', q);
  }

  // ---------------------------------------------------------------- what is stored and what is refused

  /** The first bytes of an image. */
  predicate HasSignature(b: seq<Byte>, mime: string) {
    if mime == "image/png" then |b| >= 10 && [0x89, 0x50, 0x4e, 0x47, 0x0d, 0x0a, 0x1a, 0x0a] <= b
    else if mime == "image/jpeg" then |b| >= 10 && [0xff, 0xd8, 0xff] <= b
    else if mime == "image/gif" then |b| >= 10 && (SpellsAt(b, 0, "GIF87a") || SpellsAt(b, 0, "GIF89a"))
    else mime == "image/webp" && |b| >= 12 && SpellsAt(b, 0, "RIFF") && SpellsAt(b, 8, "WEBP")
  }

  /** The bytes from `i` on spell the text, their top bits aside. */
  predicate SpellsAt(b: seq<Byte>, i: nat, text: string)
    requires i + |text| <= |b|
  {
    forall j :: 0 <= j < |text| ==> b[i + j] % 128 == text[j] as int
  }

  lemma SpellsIsAscii(b: seq<Byte>, i: nat, text: string)
    requires i + |text| <= |b|
    ensures Ascii(b[i..i + |text|]) == text <==> SpellsAt(b, i, text)
  {
    var t := Ascii(b[i..i + |text|]);
    assert forall j :: 0 <= j < |text| ==> t[j] as int == b[i + j] % 128;
    if SpellsAt(b, i, text) {
      assert forall j :: 0 <= j < |text| ==> t[j] as int == text[j] as int;
    }
  }

  /** The type of an image is detected exactly by its signature. */
  lemma DetectsSignatures(b: seq<Byte>, mime: string)
    ensures DetectImageMime(b) == Some(mime) <==> HasSignature(b, mime)
  {
    if |b| >= 10 {
      SignatureParts(b);
      SpellsIsAscii(b, 0, "GIF87a");
      SpellsIsAscii(b, 0, "GIF89a");
      SpellsIsAscii(b, 0, "RIFF");
    }
    if |b| >= 12 {
      SpellsIsAscii(b, 8, "WEBP");
    }
  }

  lemma SignatureParts(b: seq<Byte>)
    requires |b| >= 10
    ensures b[0..0 + |"GIF87a"|] == b[0..0 + |"GIF89a"|] == b[..6] && b[0..0 + |"RIFF"|] == b[..4]
    ensures |b| >= 12 ==> b[8..8 + |"WEBP"|] == b[8..12]
    ensures SpellsAt(b, 0, "RIFF") ==> !SpellsAt(b, 0, "GIF87a") && !SpellsAt(b, 0, "GIF89a")
    ensures SpellsAt(b, 0, "RIFF") || SpellsAt(b, 0, "GIF87a") || SpellsAt(b, 0, "GIF89a") ==>
              b[0] as int % 128 in {'R' as int, 'G' as int}
    ensures [0x89, 0x50, 0x4e, 0x47, 0x0d, 0x0a, 0x1a, 0x0a] <= b
       <==> b[..8] == [0x89, 0x50, 0x4e, 0x47, 0x0d, 0x0a, 0x1a, 0x0a]
    ensures [0xff, 0xd8, 0xff] <= b <==> b[..3] == [0xff, 0xd8, 0xff]
  {
    assert "RIFF"[0] == 'R' && "GIF87a"[0] == 'G' && "GIF89a"[0] == 'G';
    assert SpellsAt(b, 0, "RIFF") ==> b[0 + 0] % 128 == 'R' as int;
    assert SpellsAt(b, 0, "GIF87a") ==> b[0 + 0] % 128 == 'G' as int;
    assert SpellsAt(b, 0, "GIF89a") ==> b[0 + 0] % 128 == 'G' as int;
  }

  /** The request names its ids, carries an image of admissible size, and says nothing else about it. */
  ghost predicate IsProper(r: Request) {
    && r.scope.ownerId != "" && r.scope.agentId != "" && r.scope.sessionId != ""
    && 0 < |r.buffer| <= 20_971_520
    && (exists mime :: HasSignature(r.buffer, mime) && r.mimeType in {"", mime})
    && r.assetId in {None, Some(r.buffer)}
  }

  lemma RefusedExactlyIfImproper(r: Request)
    ensures Refusal(r).None? <==> IsProper(r)
  {
    if DetectImageMime(r.buffer).Some? {
      var mime := DetectImageMime(r.buffer).value;
      DetectsSignatures(r.buffer, mime);
      assert r.mimeType in {"", mime} ==> HasSignature(r.buffer, mime) && r.mimeType in {"", mime};
    }
    forall mime | HasSignature(r.buffer, mime) ensures DetectImageMime(r.buffer) == Some(mime) {
      DetectsSignatures(r.buffer, mime);
    }
  }

  /** The quantities a new asset adds to, in the order of their quotas, and how it is answered if one is exceeded. */
  function Charges(r: Request): seq<(Quantity, int, Answer)> {
    [(ScopeCount(r.scope), 1, ScopeCountExceeded), (TotalCount, 1, GlobalCountExceeded),
     (ScopeBytes(r.scope), |r.buffer|, ScopeBytesExceeded), (OwnerBytes(r.scope.ownerId), |r.buffer|, OwnerBytesExceeded),
     (TotalBytes, |r.buffer|, GlobalBytesExceeded)]
  }

  /** What is used already and what the request adds stay within the limit. */
  predicate HasRoomFor(cfg: Config, used: int, charge: (Quantity, int, Answer)) {
    used + charge.1 <= Limit(cfg, charge.0)
  }

  predicate IsWithinQuotas(cfg: Config, c: Counters, r: Request) {
    forall i :: 0 <= i < 5 ==> HasRoomFor(cfg, Counter(c, Charges(r)[i].0), Charges(r)[i])
  }

  lemma ExceededExactly(cfg: Config, c: Counters, r: Request)
    ensures Exceeded(cfg, c, r).None? <==> IsWithinQuotas(cfg, c, r)
    ensures forall i :: 0 <= i < 5 ==>
              (Exceeded(cfg, c, r) == Some(Charges(r)[i].2)
               <==> && !HasRoomFor(cfg, Counter(c, Charges(r)[i].0), Charges(r)[i])
                    && forall j :: 0 <= j < i ==> HasRoomFor(cfg, Counter(c, Charges(r)[j].0), Charges(r)[j]))
  {
    var charges := Charges(r);
    assert HasRoomFor(cfg, Counter(c, charges[0].0), charges[0]) <==> Get(c.scopeCounts, r.scope) + 1 <= cfg.maxScopeAssets;
    assert HasRoomFor(cfg, Counter(c, charges[1].0), charges[1]) <==> c.assetCount + 1 <= cfg.maxGlobalAssets;
    assert HasRoomFor(cfg, Counter(c, charges[2].0), charges[2])
       <==> Get(c.scopeUsage, r.scope) + |r.buffer| <= cfg.maxScopeBytes;
    assert HasRoomFor(cfg, Counter(c, charges[3].0), charges[3])
       <==> Get(c.ownerUsage, r.scope.ownerId) + |r.buffer| <= cfg.maxOwnerBytes;
    assert HasRoomFor(cfg, Counter(c, charges[4].0), charges[4]) <==> c.totalUsage + |r.buffer| <= cfg.maxGlobalBytes;
  }

  /** A proper image is stored exactly if it is there already or every quota has room for it, and the writes succeed;
      so one that is there already is never refused for a quota. */
  lemma StoredExactly(cfg: Config, s: State, r: Request, faults: Faults, now: real)
    ensures AfterPut(cfg, s, r, faults, now).answer.Stored?
       <==> && IsProper(r)
            && ((SlotOf(r) in s.files.data && SlotOf(r) in s.files.meta) || IsWithinQuotas(cfg, s.counters, r))
            && (SlotOf(r) in s.files.data || faults.dataWrite == Written) && faults.metaWritten
  {
    RefusedExactlyIfImproper(r);
    ExceededExactly(cfg, s.counters, r);
  }

  /** From exact counters what counts is what the disk uses. */
  lemma StoredExactlyWithinUse(cfg: Config, s: State, r: Request, faults: Faults, now: real)
    requires Exact(s.files, s.counters) && !IsDuplicate(s.files, SlotOf(r))
    requires faults.dataWrite == Written && faults.metaWritten
    ensures AfterPut(cfg, s, r, faults, now).answer.Stored?
       <==> IsProper(r) && forall i :: 0 <= i < 5 ==> HasRoomFor(cfg, Used(s.files, Charges(r)[i].0), Charges(r)[i])
  {
    StoredExactly(cfg, s, r, faults, now);
    forall i | 0 <= i < 5
      ensures HasRoomFor(cfg, Counter(s.counters, Charges(r)[i].0), Charges(r)[i])
         <==> HasRoomFor(cfg, Used(s.files, Charges(r)[i].0), Charges(r)[i])
    {
      assert Counter(s.counters, Charges(r)[i].0) == Used(s.files, Charges(r)[i].0);
    }
  }

  /** A quota that is exceeded is named, the first of them in the order of the charges, and nothing is stored. */
  lemma FirstExceededIsNamed(cfg: Config, s: State, r: Request, faults: Faults, now: real, i: nat)
    requires IsProper(r) && !IsDuplicate(s.files, SlotOf(r)) && i < 5
    ensures var after := AfterPut(cfg, s, r, faults, now);
            (&& !HasRoomFor(cfg, Counter(s.counters, Charges(r)[i].0), Charges(r)[i])
             && forall j :: 0 <= j < i ==> HasRoomFor(cfg, Counter(s.counters, Charges(r)[j].0), Charges(r)[j]))
            ==> after.answer == Charges(r)[i].2 && after.state == s
  {
    RefusedExactlyIfImproper(r);
    ExceededExactly(cfg, s.counters, r);
    assert Exceeded(cfg, s.counters, r) == Some(Charges(r)[i].2)
       <==> && !HasRoomFor(cfg, Counter(s.counters, Charges(r)[i].0), Charges(r)[i])
            && forall j :: 0 <= j < i ==> HasRoomFor(cfg, Counter(s.counters, Charges(r)[j].0), Charges(r)[j]);
  }

  /** What is stored can be described by its owner with its size, referenced now; nothing else on disk changes. */
  lemma StoredIsDescribed(cfg: Config, s: State, r: Request, faults: Faults, now: real)
    requires AfterPut(cfg, s, r, faults, now).answer.Stored?
    ensures var after := AfterPut(cfg, s, r, faults, now);
            && Described(after.state.files, Slot(r.scope, r.buffer)) == Some(after.answer.meta)
            && after.answer.meta.named == after.answer.meta.scope == r.scope
            && after.answer.meta.size == |r.buffer| && after.answer.meta.lastReferencedAt == now
    ensures var files' := AfterPut(cfg, s, r, faults, now).state.files;
            forall slot :: slot != Slot(r.scope, r.buffer) ==> SameFiles(s.files, files', slot)
  {
    RefusedExactlyIfImproper(r);
  }

  predicate SameFiles(files: Files, files': Files, slot: Slot) {
    && (slot in files.data <==> slot in files'.data) && (slot in files.data ==> files.data[slot] == files'.data[slot])
    && (slot in files.meta <==> slot in files'.meta) && (slot in files.meta ==> files.meta[slot] == files'.meta[slot])
  }

  /** A completed collection keeps exactly the assets referenced within the retention time, and of the other files
      those younger than the grace period. */
  lemma CollectionKeeps(cfg: Config, s: State, now: real, s': State, slot: Slot)
    requires CollectStep(cfg, s, true, now, s')
    ensures IsRow(s'.files, slot)
       <==> IsRow(s.files, slot) && now - ReferencedAt(s.files.meta[slot].content.value) <= cfg.retentionMs
    ensures IsRow(s.files, slot) && !IsRow(s'.files, slot) ==> slot !in s'.files.data && slot !in s'.files.meta
    ensures IsRow(s'.files, slot) ==> SameFiles(s.files, s'.files, slot)
    ensures !IsRow(s.files, slot) ==>
              && (slot in s'.files.data <==> slot in s.files.data && now - s.files.data[slot] < cfg.orphanGraceMs)
              && (slot in s'.files.meta <==> slot in s.files.meta && now - s.files.meta[slot].mtime < cfg.orphanGraceMs)
  {
  }

  /** After a completed deletion nothing of the scope can be described, and everything else as before. */
  lemma DeletedScopeIsGone(s: State, scope: Scope, s': State, slot: Slot)
    requires DeleteStep(s, scope, true, s') && HasIds(scope)
    ensures Described(s'.files, slot) == if slot.scope == scope then None else Described(s.files, slot)
  {
  }

  // ---------------------------------------------------------------- runs

  ghost predicate IsRun(cfg: Config, states: seq<State>, steps: seq<Step>) {
    |states| == |steps| + 1 && forall i :: 0 <= i < |steps| ==> Next(cfg, states[i], steps[i], states[i + 1])
  }

  ghost predicate DriftsNowhere(cfg: Config, states: seq<State>, steps: seq<Step>)
    requires |states| == |steps| + 1
  {
    forall i :: 0 <= i < |steps| ==> !Drifts(cfg, states[i], steps[i])
  }

  /** Once the counters are exact, as they are when the store has been opened, they are exactly what a recount of
      the disk would find after any steps of which the collections and deletions complete and no put drifts.
      Otherwise puts may fail in any way. */
  lemma {:induction false} RunKeepsCountersExact(cfg: Config, states: seq<State>, steps: seq<Step>, i: nat)
    requires IsRun(cfg, states, steps) && i <= |steps| && forall j :: 0 <= j < |steps| ==> Succeeds(steps[j])
    requires Exact(states[0].files, states[0].counters) && DriftsNowhere(cfg, states, steps)
    ensures Exact(states[i].files, states[i].counters)
  {
    if i > 0 {
      RunKeepsCountersExact(cfg, states, steps, i - 1);
      assert Next(cfg, states[i - 1], steps[i - 1], states[i]) && !Drifts(cfg, states[i - 1], steps[i - 1]);
      StepKeepsExact(cfg, states[i - 1], steps[i - 1], states[i]);
    }
  }

  /** Even when collections and deletions stop half-way the counters never fall below what is used, and every
      quota that held still holds. */
  lemma {:induction false} RunKeepsQuotas(cfg: Config, states: seq<State>, steps: seq<Step>, i: nat, q: Quantity)
    requires IsRun(cfg, states, steps) && i <= |steps| && DriftsNowhere(cfg, states, steps)
    requires HasSizes(states[0].files) && Bounding(states[0].files, states[0].counters)
    ensures HasSizes(states[i].files) && Used(states[i].files, q) <= Counter(states[i].counters, q)
    ensures Used(states[0].files, q) <= Limit(cfg, q) ==> Used(states[i].files, q) <= Limit(cfg, q)
  {
    if i > 0 {
      RunKeepsQuotas(cfg, states, steps, i - 1, q);
      assert Next(cfg, states[i - 1], steps[i - 1], states[i]) && !Drifts(cfg, states[i - 1], steps[i - 1]);
      StepKeepsQuota(cfg, states[i - 1], steps[i - 1], states[i], q);
    }
  }

  // ---------------------------------------------------------------- stores without leftovers

  /** Every metadata file describes the data beside it. */
  ghost predicate Tidy(files: Files) {
    forall slot :: slot in files.meta ==>
      && slot in files.data && files.meta[slot].content.Some?
      && var m := files.meta[slot].content.value;
         m.scope == m.named == slot.scope && m.asset == slot.asset && m.size == |slot.asset|
  }

  lemma TidyNeverDrifts(cfg: Config, s: State, step: Step)
    requires Tidy(s.files)
    ensures !Drifts(cfg, s, step)
  {
  }

  lemma StepKeepsTidy(cfg: Config, s: State, step: Step, s': State)
    requires Next(cfg, s, step, s') && Succeeds(step) && Tidy(s.files)
    ensures Tidy(s'.files)
  {
  }

  /** On a disk without leftovers nothing drifts as long as collections and deletions complete, so the counters stay
      exact whatever fails inside puts. */
  lemma {:induction false} TidyRunKeepsCountersExact(cfg: Config, states: seq<State>, steps: seq<Step>, i: nat)
    requires IsRun(cfg, states, steps) && i <= |steps| && forall j :: 0 <= j < |steps| ==> Succeeds(steps[j])
    requires Tidy(states[0].files) && Exact(states[0].files, states[0].counters)
    ensures Tidy(states[i].files) && Exact(states[i].files, states[i].counters)
  {
    if i > 0 {
      TidyRunKeepsCountersExact(cfg, states, steps, i - 1);
      assert Next(cfg, states[i - 1], steps[i - 1], states[i]);
      TidyNeverDrifts(cfg, states[i - 1], steps[i - 1]);
      StepKeepsTidy(cfg, states[i - 1], steps[i - 1], states[i]);
      StepKeepsExact(cfg, states[i - 1], steps[i - 1], states[i]);
    }
  }

  // ---------------------------------------------------------------- how the counters can go wrong

  const NOTHING_USED: Counters := Counters(map[], map[], map[], 0, 0)

  function SmallPng(): seq<Byte> {
    [0x89, 0x50, 0x4e, 0x47, 0x0d, 0x0a, 0x1a, 0x0a, 0, 0]
  }

  function SmallRequest(scope: Scope): Request {
    Request(scope, SmallPng(), "image/png", None)
  }

  /** Room for one small image. */
  predicate HasRoom(cfg: Config) {
    && cfg.maxScopeBytes >= 10 && cfg.maxOwnerBytes >= 10 && cfg.maxGlobalBytes >= 10
    && cfg.maxScopeAssets >= 1 && cfg.maxGlobalAssets >= 1
  }

  lemma NothingIsExact(files: Files)
    requires MetadataRows(files) == map[]
    ensures Exact(files, NOTHING_USED)
  {
  }

  /** In a store where only the metadata of an image are left, an upload of the image that breaks off while its data
      are written leaves the counters one image short. */
  lemma BrokenUploadIsNotCounted(cfg: Config, scope: Scope, now: real)
    requires HasRoom(cfg) && HasIds(scope)
    ensures var r := SmallRequest(scope);
            var m := Meta(scope, scope, SmallPng(), 10, now, now);
            var s := State(Files(map[], map[SlotOf(r) := MetaFile(now, Some(m))]), NOTHING_USED, now);
            var s' := AfterPut(cfg, s, r, Faults(PartlyWritten, true, true), now).state;
            && Exact(s.files, s.counters) && !Exact(s'.files, s'.counters)
            && Used(s'.files, TotalCount) == Counter(s'.counters, TotalCount) + 1
  {
    var r, faults := SmallRequest(scope), Faults(PartlyWritten, true, true);
    var m := Meta(scope, scope, SmallPng(), 10, now, now);
    var s := State(Files(map[], map[SlotOf(r) := MetaFile(now, Some(m))]), NOTHING_USED, now);
    SmallPngIsAdmitted(scope);
    NothingIsExact(s.files);
    PutStaysExactUnlessItDrifts(cfg, s, r, faults, now);
    PutUses(cfg, s, r, faults, now, TotalCount);
    PutCounts(cfg, s, r, faults, now, TotalCount);
  }

  /** In a store where an image's metadata do not parse, uploading the image again makes them whole without counting
      the image. */
  lemma RepairedUploadIsNotCounted(cfg: Config, scope: Scope, now: real)
    requires HasIds(scope)
    ensures var r := SmallRequest(scope);
            var s := State(Files(map[SlotOf(r) := now], map[SlotOf(r) := MetaFile(now, None)]), NOTHING_USED, now);
            var s' := AfterPut(cfg, s, r, Faults(Written, true, true), now).state;
            && Exact(s.files, s.counters) && !Exact(s'.files, s'.counters)
            && Used(s'.files, TotalCount) == Counter(s'.counters, TotalCount) + 1
  {
    var r, faults := SmallRequest(scope), Faults(Written, true, true);
    var s := State(Files(map[SlotOf(r) := now], map[SlotOf(r) := MetaFile(now, None)]), NOTHING_USED, now);
    SmallPngIsAdmitted(scope);
    NothingIsExact(s.files);
    PutStaysExactUnlessItDrifts(cfg, s, r, faults, now);
    PutUses(cfg, s, r, faults, now, TotalCount);
    PutCounts(cfg, s, r, faults, now, TotalCount);
  }

  lemma SmallPngIsAdmitted(scope: Scope)
    requires HasIds(scope)
    ensures Refusal(SmallRequest(scope)).None? && |SmallPng()| == 10
  {
    var b := SmallPng();
    assert b[..8] == [0x89, 0x50, 0x4e, 0x47, 0x0d, 0x0a, 0x1a, 0x0a];
  }

  // ---------------------------------------------------------------- retention

  /** The asset can be described, and was referenced no earlier than `since`. */
  ghost predicate Kept(files: Files, slot: Slot, since: real) {
    && IsRow(files, slot) && Described(files, slot).Some?
    && ReferencedAt(files.meta[slot].content.value) >= since && files.meta[slot].content.value.createdAt >= 0.0
  }

  /** The step does not interfere with an asset referenced at `t`: it is not the deletion of its scope, its clock
      is not behind, and a collection does not come too late. */
  ghost predicate Spares(cfg: Config, step: Step, slot: Slot, t: real) {
    match step
    case Collect(_, now) => now <= t + cfg.retentionMs - Slack(cfg)
    case Put(_, _, now) => now >= t
    case Describe(_, _, now) => now >= t
    case DeleteScope(scope, _) => scope != slot.scope
  }

  lemma StepKeepsAsset(cfg: Config, s: State, step: Step, s': State, slot: Slot, t: real)
    requires Next(cfg, s, step, s') && Spares(cfg, step, slot, t) && cfg.retentionMs > 0.0 && t >= 0.0
    requires Kept(s.files, slot, t - Slack(cfg))
    ensures Kept(s'.files, slot, t - Slack(cfg))
  {
  }

  /** An asset that was described at `t`, its reference being renewed if that was due, can still be described
      after every garbage collection up to `t` plus the retention time less half of it or one hour, whichever
      is less, as long as its scope is not deleted. */
  lemma {:induction false} DescribedAssetIsRetained(cfg: Config, states: seq<State>, steps: seq<Step>, slot: Slot,
                                                    t: real, i: nat)
    requires IsRun(cfg, states, steps) && 0 < i <= |steps| && cfg.retentionMs > 0.0 && t >= 0.0
    requires steps[0] == Describe(slot, true, t) && Described(states[0].files, slot).Some?
    requires IsRow(states[0].files, slot) && Described(states[0].files, slot).value.createdAt >= 0.0
    requires forall j :: 0 < j < |steps| ==> Spares(cfg, steps[j], slot, t)
    ensures Described(states[i].files, slot).Some? && Kept(states[i].files, slot, t - Slack(cfg))
  {
    if i == 1 {
      assert Next(cfg, states[0], steps[0], states[1]);
    } else {
      DescribedAssetIsRetained(cfg, states, steps, slot, t, i - 1);
      assert Next(cfg, states[i - 1], steps[i - 1], states[i]);
      StepKeepsAsset(cfg, states[i - 1], steps[i - 1], states[i], slot, t);
    }
  }

  // ---------------------------------------------------------------- the store's own state

  /** The counters hold everything but what `rows` add. */
  ghost predicate CountedBut(c: Counters, rows: Rows, all: Rows) {
    forall q :: Counter(c, q) + Sum(rows, q) == Sum(all, q)
  }

  lemma RecountStep(rows: Rows, slot: Slot, c: Counters, all: Rows)
    requires slot in rows && CountedBut(c, rows, all)
    ensures CountedBut(Added(c, rows[slot]), rows - {slot}, all)
  {
    forall q ensures Counter(Added(c, rows[slot]), q) + Sum(rows - {slot}, q) == Sum(all, q) {
      SumRemove(rows, slot, q);
      AddedCounts(c, rows[slot], q);
    }
  }

  function Minus(files: Files, data: set<Slot>, meta: set<Slot>): Files {
    Files(files.data - data, files.meta - meta)
  }

  function ExpiredSlots(cfg: Config, rows: Rows, now: real): set<Slot> {
    set slot | slot in rows && IsExpired(cfg, rows[slot], now)
  }

  function DueData(cfg: Config, files: Files, now: real): set<Slot> {
    set slot | slot in files.data && DataDue(cfg, files, slot, now)
  }

  function DueMeta(cfg: Config, files: Files, now: real): set<Slot> {
    set slot | slot in files.meta && MetaDue(cfg, files, slot, now)
  }

  function OrphanData(cfg: Config, files: Files, rows: Rows, now: real): set<Slot> {
    set slot | slot in files.data && slot !in rows && IsOld(cfg, files.data[slot], now)
  }

  function OrphanMeta(cfg: Config, files: Files, rows: Rows, now: real): set<Slot> {
    set slot | slot in files.meta && slot !in rows && IsOld(cfg, files.meta[slot].mtime, now)
  }

  lemma MinusMinus(files: Files, data: set<Slot>, meta: set<Slot>, data': set<Slot>, meta': set<Slot>)
    ensures Minus(Minus(files, data, meta), data', meta') == Minus(files, data + data', meta + meta')
  {
    assert files.data - data - data' == files.data - (data + data');
    assert files.meta - meta - meta' == files.meta - (meta + meta');
  }

  /** A loop that has dealt with `due` except for what is left deals with one more. */
  lemma OneMore(due: set<Slot>, left: set<Slot>, slot: Slot)
    requires slot in left
    ensures due - (left - {slot}) == if slot in due then (due - left) + {slot} else due - left
    ensures |due - (left - {slot})| == if slot in due then |due - left| + 1 else |due - left|
  {
    assert due - (left - {slot}) == if slot in due then (due - left) + {slot} else due - left;
  }

  lemma DueIs(cfg: Config, files: Files, now: real)
    ensures var rows := MetadataRows(files);
            && DueData(cfg, files, now) == ExpiredSlots(cfg, rows, now) + OrphanData(cfg, files, rows, now)
            && DueMeta(cfg, files, now) == ExpiredSlots(cfg, rows, now) + OrphanMeta(cfg, files, rows, now)
  {
  }

  /** Removing rows makes no orphans, and orphaned data say nothing about orphaned metadata. */
  lemma OrphansAreIndependent(cfg: Config, files: Files, rows: Rows, gone: set<Slot>, gone': set<Slot>, data: set<Slot>,
                              now: real)
    requires gone <= rows.Keys && gone' <= rows.Keys
    ensures OrphanData(cfg, Minus(files, gone, gone'), rows, now) == OrphanData(cfg, files, rows, now)
    ensures OrphanMeta(cfg, Minus(Minus(files, gone, gone'), data, {}), rows, now) == OrphanMeta(cfg, files, rows, now)
  {
  }

  lemma ThreePhases(files: Files, gone: set<Slot>, gone': set<Slot>, data: set<Slot>, meta: set<Slot>)
    ensures Minus(Minus(Minus(files, gone, gone'), data, {}), {}, meta) == Minus(files, gone + data, gone' + meta)
    ensures data == {} && meta == {} ==> Minus(files, gone, gone') == Minus(files, gone + data, gone' + meta)
    ensures meta == {} ==> Minus(Minus(files, gone, gone'), data, {}) == Minus(files, gone + data, gone' + meta)
  {
    MinusMinus(files, gone, gone', data, {});
    MinusMinus(files, gone + data, gone' + {}, {}, meta);
    assert gone + data + {} == gone + data && gone' + {} + meta == gone' + meta;
    assert data == {} ==> gone + data == gone;
    assert meta == {} ==> gone' + meta == gone' == gone' + {};
  }

  /** Whatever due files are gone, the collection is at least partly done; it is complete when all are gone. */
  lemma MinusDue(cfg: Config, files: Files, data: set<Slot>, meta: set<Slot>, now: real)
    requires data <= DueData(cfg, files, now) && meta <= DueMeta(cfg, files, now)
    ensures IsPartlyCollected(cfg, files, Minus(files, data, meta), now)
    ensures data == DueData(cfg, files, now) && meta == DueMeta(cfg, files, now) ==>
              Minus(files, data, meta) == Collected(cfg, files, now)
  {
  }

  class YeaftAssetStore {
    const cfg: Config
    var files: Files
    var scopeUsage: map<Scope, int>
    var scopeCounts: map<Scope, int>
    var ownerUsage: map<string, int>
    var totalUsage: int
    var assetCount: int
    var lastCleanupAt: real

    ghost function Usage(): Counters
      reads this
    {
      Counters(scopeUsage, scopeCounts, ownerUsage, totalUsage, assetCount)
    }

    ghost function Snapshot(): State
      reads this
    {
      State(files, Usage(), lastCleanupAt)
    }

    /** The store opens with a collection of whatever is on disk; if that fails there is no store. */
    constructor (cfg: Config, files: Files, now: real)
      ensures this.cfg == cfg && Snapshot() == State(Collected(cfg, files, now), Usage(), now)
      ensures Exact(this.files, Usage())
    {
      this.cfg, this.files := cfg, files;
      scopeUsage, scopeCounts, ownerUsage, totalUsage, assetCount, lastCleanupAt := map[], map[], map[], 0, 0, 0.0;
      new;
      var _, _ := CollectGarbage(now, {});
    }

    method Count(metadata: Meta)
      modifies this`scopeUsage, this`scopeCounts, this`ownerUsage, this`totalUsage, this`assetCount
      ensures Usage() == Added(old(Usage()), metadata)
    {
      totalUsage := totalUsage + metadata.size;
      assetCount := assetCount + 1;
      scopeUsage := scopeUsage[metadata.scope := Get(scopeUsage, metadata.scope) + metadata.size];
      scopeCounts := scopeCounts[metadata.scope := Get(scopeCounts, metadata.scope) + 1];
      ownerUsage := ownerUsage[metadata.named.ownerId := Get(ownerUsage, metadata.named.ownerId) + metadata.size];
    }

    method RebuildUsage()
      modifies this`scopeUsage, this`scopeCounts, this`ownerUsage, this`totalUsage, this`assetCount
      ensures Exact(files, Usage())
    {
      scopeUsage, scopeCounts, ownerUsage, totalUsage, assetCount := map[], map[], map[], 0, 0;
      var rows := MetadataRows(files);
      while rows != map[]
        invariant CountedBut(Usage(), rows, MetadataRows(files))
        decreases |rows|
      {
        var slot :| slot in rows;
        RecountStep(rows, slot, Usage(), MetadataRows(files));
        Count(rows[slot]);
        rows := rows - {slot};
      }
    }

    /** Removing a file that is not there succeeds; removing one that is stuck throws. */
    method RemoveData(slot: Slot, stuck: set<File>) returns (done: bool)
      modifies this`files
      ensures files == if done then Minus(old(files), {slot}, {}) else old(files)
      ensures done <==> !(slot in old(files).data && DataFile(slot) in stuck)
    {
      if slot in files.data && DataFile(slot) in stuck {
        return false;
      }
      files := files.(data := files.data - {slot});
      assert files.meta - {} == files.meta;
      return true;
    }

    method RemoveMetadata(slot: Slot, stuck: set<File>) returns (done: bool)
      modifies this`files
      ensures files == if done then Minus(old(files), {}, {slot}) else old(files)
      ensures done <==> !(slot in old(files).meta && MetadataFile(slot) in stuck)
    {
      if slot in files.meta && MetadataFile(slot) in stuck {
        return false;
      }
      files := files.(meta := files.meta - {slot});
      assert files.data - {} == files.data;
      return true;
    }

    method RemoveRow(slot: Slot, stuck: set<File>, ghost before: Files, ghost gone: set<Slot>)
        returns (done: bool, ghost data: set<Slot>, ghost meta: set<Slot>)
      requires files == Minus(before, gone, gone)
      modifies this`files
      ensures files == Minus(before, data, meta) && data <= gone + {slot} && meta <= gone + {slot}
      ensures done ==> data == meta == gone + {slot}
      ensures stuck == {} ==> done
    {
      data, meta := gone, gone;
      done := RemoveData(slot, stuck);
      if !done {
        return;
      }
      MinusMinus(before, gone, gone, {slot}, {});
      MinusMinus(before, gone + {slot}, gone, {}, {slot});
      data := gone + {slot};
      done := RemoveMetadata(slot, stuck);
      if done {
        meta := gone + {slot};
      }
    }

    /** The first half of a collection: the expired rows. `data` and `meta` are the files removed. */
    method RemoveExpired(rows: Rows, now: real, stuck: set<File>)
        returns (completed: bool, removed: nat, ghost data: set<Slot>, ghost meta: set<Slot>)
      modifies this`files
      ensures files == Minus(old(files), data, meta)
      ensures if completed then data == meta == ExpiredSlots(cfg, rows, now) && removed == |data|
              else data <= ExpiredSlots(cfg, rows, now) && meta <= ExpiredSlots(cfg, rows, now)
      ensures stuck == {} ==> completed
    {
      ghost var due := ExpiredSlots(cfg, rows, now);
      var slots := rows.Keys;
      removed, data, meta := 0, {}, {};
      assert due - slots == {};
      while slots != {}
        invariant slots <= rows.Keys && data == meta == due - slots && removed == |due - slots|
        invariant files == Minus(old(files), data, data)
        decreases |slots|
      {
        var slot :| slot in slots;
        OneMore(due, slots, slot);
        slots := slots - {slot};
        if IsExpired(cfg, rows[slot], now) {
          completed, data, meta := RemoveRow(slot, stuck, old(files), data);
          if !completed {
            return;
          }
          removed := removed + 1;
        }
      }
      completed := true;
    }

    /** The second half: files that belong to no row. */
    method RemoveOrphanData(rows: Rows, now: real, stuck: set<File>) returns (completed: bool, ghost data: set<Slot>)
      modifies this`files
      ensures files == Minus(old(files), data, {})
      ensures data <= OrphanData(cfg, old(files), rows, now)
      ensures completed ==> data == OrphanData(cfg, old(files), rows, now)
      ensures stuck == {} ==> completed
    {
      ghost var before, due := files, OrphanData(cfg, files, rows, now);
      var listing := files.data;
      var slots := listing.Keys;
      data := {};
      while slots != {}
        invariant slots <= listing.Keys && files == Minus(before, data, {}) && data <= due
        invariant forall slot :: slot in due && slot !in slots ==> slot in data
        decreases |slots|
      {
        var slot :| slot in slots;
        slots := slots - {slot};
        if slot !in rows && IsOld(cfg, listing[slot], now) {
          completed := RemoveData(slot, stuck);
          if !completed {
            return;
          }
          MinusMinus(before, data, {}, {slot}, {});
          data := data + {slot};
        }
      }
      completed := true;
    }

    method RemoveOrphanMetadata(rows: Rows, now: real, stuck: set<File>) returns (completed: bool, ghost meta: set<Slot>)
      modifies this`files
      ensures files == Minus(old(files), {}, meta)
      ensures meta <= OrphanMeta(cfg, old(files), rows, now)
      ensures completed ==> meta == OrphanMeta(cfg, old(files), rows, now)
      ensures stuck == {} ==> completed
    {
      ghost var before, due := files, OrphanMeta(cfg, files, rows, now);
      var listing := files.meta;
      var slots := listing.Keys;
      meta := {};
      while slots != {}
        invariant slots <= listing.Keys && files == Minus(before, {}, meta) && meta <= due
        invariant forall slot :: slot in due && slot !in slots ==> slot in meta
        decreases |slots|
      {
        var slot :| slot in slots;
        slots := slots - {slot};
        if slot !in rows && IsOld(cfg, listing[slot].mtime, now) {
          completed := RemoveMetadata(slot, stuck);
          if !completed {
            return;
          }
          MinusMinus(before, {}, meta, {}, {slot});
          meta := meta + {slot};
        }
      }
      completed := true;
    }

    /** `removed` is the number of expired rows. */
    method CollectGarbage(now: real, stuck: set<File>) returns (completed: bool, removed: nat)
      modifies this
      ensures CollectStep(cfg, old(Snapshot()), completed, now, Snapshot())
      ensures completed ==> removed == |ExpiredSlots(cfg, MetadataRows(old(files)), now)|
      ensures stuck == {} ==> completed
    {
      completed, removed := RemoveDue(now, stuck);
      if completed {
        lastCleanupAt := now;
        RebuildUsage();
      }
    }

    method RemoveDue(now: real, stuck: set<File>) returns (completed: bool, removed: nat)
      modifies this`files
      ensures if completed then files == Collected(cfg, old(files), now)
              else IsPartlyCollected(cfg, old(files), files, now)
      ensures completed ==> removed == |ExpiredSlots(cfg, MetadataRows(old(files)), now)|
      ensures stuck == {} ==> completed
    {
      ghost var gone, gone', data, meta: set<Slot>;
      var rows := MetadataRows(files);
      DueIs(cfg, files, now);
      data, meta := {}, {};
      completed, removed, gone, gone' := RemoveExpired(rows, now, stuck);
      OrphansAreIndependent(cfg, old(files), rows, gone, gone', data, now);
      ThreePhases(old(files), gone, gone', data, meta);
      if completed {
        completed, data := RemoveOrphanData(rows, now, stuck);
        OrphansAreIndependent(cfg, old(files), rows, gone, gone', data, now);
        ThreePhases(old(files), gone, gone', data, meta);
      }
      if completed {
        completed, meta := RemoveOrphanMetadata(rows, now, stuck);
        ThreePhases(old(files), gone, gone', data, meta);
      }
      MinusDue(cfg, old(files), gone + data, gone' + meta, now);
    }

    /** Nothing but the removal of the session's directory can fail; `leftover` is what is on disk if it did. */
    method DeleteScope(scope: Scope, leftover: Option<Files>) returns (removed: Option<nat>)
      requires leftover.Some? ==> IsPartlyDeleted(files, leftover.value, scope)
      modifies this
      ensures DeleteStep(old(Snapshot()), scope, leftover.None?, Snapshot())
      ensures HasIds(scope) && leftover.None? ==>
                removed == Some(|set slot | slot in MetadataRows(old(files)) && slot.scope == scope|)
    {
      if !HasIds(scope) {
        return Some(0);
      }
      var rows := set slot | slot in MetadataRows(files) && slot.scope == scope;
      if leftover.Some? {
        files := leftover.value;
        return None;
      }
      files := WithoutScope(files, scope);
      RebuildUsage();
      return Some(|rows|);
    }

    method DescribeAsset(slot: Slot, writable: bool, now: real) returns (found: Option<Meta>)
      modifies this`files
      ensures Snapshot() == AfterDescribe(cfg, old(Snapshot()), slot, writable, now)
      ensures found == Described(files, slot) && (found.None? <==> Described(old(files), slot).None?)
    {
      if !HasIds(slot.scope) || slot.asset == [] {
        return None;
      }
      if slot !in files.data || slot !in files.meta {
        return None;
      }
      if files.meta[slot].content.None? {
        return None;
      }
      var metadata := files.meta[slot].content.value;
      if metadata.named != slot.scope || metadata.asset != slot.asset {
        return None;
      }
      if now - metadata.lastReferencedAt > Slack(cfg) && writable {
        metadata := metadata.(lastReferencedAt := now);
        files := files.(meta := files.meta[slot := MetaFile(now, Some(metadata))]);
      }
      return Some(metadata);
    }

    /** No answer if the collection that was due could not be completed. `mid` is the state after it. */
    method PutAsset(r: Request, faults: Faults, now: real, stuck: set<File>)
        returns (answer: Option<Answer>, ghost mid: State)
      modifies this
      ensures if Refusal(r).None? && now - old(lastCleanupAt) > ONE_HOUR
              then CollectStep(cfg, old(Snapshot()), answer.Some?, now, mid) else mid == old(Snapshot()) && answer.Some?
      ensures if answer.None? then Snapshot() == mid
              else PutResult(Snapshot(), answer.value) == AfterPut(cfg, mid, r, faults, now)
    {
      mid := Snapshot();
      if Refusal(r).Some? {
        return Refusal(r), mid;
      }
      var slot := SlotOf(r);
      if now - lastCleanupAt > ONE_HOUR {
        var completed, _ := CollectGarbage(now, stuck);
        mid := Snapshot();
        if !completed {
          return None, mid;
        }
      }
      var duplicate := slot in files.data && slot in files.meta;
      if !duplicate {
        var exceeded := CheckQuotas(r);
        if exceeded.Some? {
          return exceeded, mid;
        }
      }
      var written := Write(r, faults, now);
      return Some(written), mid;
    }

    method CheckQuotas(r: Request) returns (exceeded: Option<Answer>)
      ensures exceeded == Exceeded(cfg, Usage(), r)
    {
      if Get(scopeCounts, r.scope) + 1 > cfg.maxScopeAssets {
        return Some(ScopeCountExceeded);
      }
      if assetCount + 1 > cfg.maxGlobalAssets {
        return Some(GlobalCountExceeded);
      }
      if Get(scopeUsage, r.scope) + |r.buffer| > cfg.maxScopeBytes {
        return Some(ScopeBytesExceeded);
      }
      if Get(ownerUsage, r.scope.ownerId) + |r.buffer| > cfg.maxOwnerBytes {
        return Some(OwnerBytesExceeded);
      }
      if totalUsage + |r.buffer| > cfg.maxGlobalBytes {
        return Some(GlobalBytesExceeded);
      }
      return None;
    }

    method Write(r: Request, faults: Faults, now: real) returns (answer: Answer)
      modifies this
      ensures PutResult(Snapshot(), answer) == AfterWrites(old(Snapshot()), r, faults, now)
    {
      var slot := SlotOf(r);
      var duplicate := IsDuplicate(files, slot);
      var metadata := NewMeta(files, r, now);
      if slot !in files.data {
        if faults.dataWrite == NotWritten {
          return WriteFailed;
        }
        files := files.(data := files.data[slot := now]);
        if faults.dataWrite == PartlyWritten {
          return WriteFailed;
        }
      }
      if !faults.metaWritten {
        if !duplicate && faults.rolledBack {
          files := files.(data := files.data - {slot});
        }
        return WriteFailed;
      }
      files := files.(meta := files.meta[slot := MetaFile(now, Some(metadata))]);
      if !duplicate {
        Count(metadata);
      }
      return Stored(metadata);
    }
  }
}
