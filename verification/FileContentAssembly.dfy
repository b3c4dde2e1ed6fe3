/** Reassembling file contents from chunks (server/file-content-assembly.js).

    Transfers are keyed by agent and request and share one byte budget. The budget counter is a field of
    the class and proved to be the sum of what the live assemblies received; the specification works on
    the map alone. A whole synchronous call happens at one time `now`.
  */
module FileContentAssembly {
  import opened Text
  import opened Utf8
  import opened Base64

  const MAX_ASSEMBLIES := 64
  const MAX_ASSEMBLY_BYTES := 134_217_728
  const MAX_PREVIEW_FILE_BYTES := 104_857_600
  const ASSEMBLY_TTL_MS := 120_000

  datatype Key = Key(agentId: string, requestId: string)

  /** What every chunk of a transfer must repeat. */
  datatype Meta = Meta(mimeType: string, filePath: string, requestedFilePath: string, conversationId: string,
                       routeKey: string, generation: string)

  /** A message; a number that is not a safe integer has no value. */
  datatype Chunk = Chunk(key: Key, index: Option<int>, count: Option<int>, totalBytes: Option<int>, meta: Meta,
                         content: string)

  datatype Assembly = Assembly(chunkCount: int, totalBytes: int, meta: Meta, nextIndex: int, receivedBytes: int,
                               chunks: seq<seq<Byte>>, expiresAt: int)

  type Assemblies = map<Key, Assembly>

  datatype Status = Invalid | OutOfOrder | Capacity | Pending | Complete(buffer: seq<Byte>)

  datatype Result = Result(assemblies: Assemblies, status: Status)

  function CeilDiv(n: int): int {
    (n + MAX_CHUNK_BYTES - 1) / MAX_CHUNK_BYTES
  }

  function Concat(chunks: seq<seq<Byte>>): seq<Byte> {
    if chunks == [] then [] else Concat(chunks[..|chunks| - 1]) + chunks[|chunks| - 1]
  }

  // ---------------------------------------------------------------- the specification

  /** The sum of `receivedBytes`. */
  ghost function Total(m: Assemblies): int
    decreases |m|
  {
    if m == map[] then 0
    else
      var k :| k in m;
      m[k].receivedBytes + Total(m - {k})
  }

  function Live(m: Assemblies, now: int): Assemblies {
    map k | k in m && m[k].expiresAt > now :: m[k]
  }

  function WithoutAgent(m: Assemblies, agentId: string): Assemblies {
    map k | k in m && k.agentId != agentId :: m[k]
  }

  predicate WellFormed(c: Chunk) {
    && c.key.agentId != "" && c.key.requestId != ""
    && c.index.Some? && c.index.value >= 0
    && c.count.Some? && 2 <= c.count.value <= CeilDiv(MAX_PREVIEW_FILE_BYTES)
    && c.totalBytes.Some? && MAX_CHUNK_BYTES < c.totalBytes.value <= MAX_PREVIEW_FILE_BYTES
    && c.index.value < c.count.value
  }

  /** The bytes of a chunk whose position and size fit the transfer it announces. */
  function Payload(c: Chunk): Option<seq<Byte>> {
    if !WellFormed(c) then None else
    match DecodeChunk(c.content)
    case None => None
    case Some(buffer) =>
      var expectedBytes := if c.index.value == c.count.value - 1
                           then c.totalBytes.value - (c.count.value - 1) * MAX_CHUNK_BYTES else MAX_CHUNK_BYTES;
      if c.count.value != CeilDiv(c.totalBytes.value) || |buffer| != expectedBytes then None else Some(buffer)
  }

  function NewAssembly(c: Chunk, now: int): Assembly
    requires WellFormed(c)
  {
    Assembly(c.count.value, c.totalBytes.value, c.meta, 0, 0, [], now + ASSEMBLY_TTL_MS)
  }

  predicate Fits(a: Assembly, c: Chunk)
    requires WellFormed(c)
  {
    a.chunkCount == c.count.value && a.totalBytes == c.totalBytes.value && a.meta == c.meta
  }

  function Grown(a: Assembly, buffer: seq<Byte>, now: int): Assembly {
    a.(chunks := a.chunks + [buffer], nextIndex := a.nextIndex + 1, receivedBytes := a.receivedBytes + |buffer|,
       expiresAt := now + ASSEMBLY_TTL_MS)
  }

  ghost function AfterAppend(m: Assemblies, c: Chunk, now: int): Result {
    match Payload(c)
    case None => Result(Live(m, now), Invalid)
    case Some(buffer) => Accept(Live(m, now), c, buffer, now)
  }

  /** A chunk with its payload meets the live assemblies. */
  ghost function Accept(m: Assemblies, c: Chunk, buffer: seq<Byte>, now: int): Result
    requires WellFormed(c)
  {
    if c.key !in m && c.index.value != 0 then Result(m, OutOfOrder)
    else if c.key !in m && (|m| >= MAX_ASSEMBLIES || Total(m) + |buffer| > MAX_ASSEMBLY_BYTES)
    then Result(m, Capacity)
    else
      Extend(m, c, buffer, if c.key in m then m[c.key] else NewAssembly(c, now), now)
  }

  /** What becomes of the assembly `a` the chunk belongs to. */
  ghost function Extend(m: Assemblies, c: Chunk, buffer: seq<Byte>, a: Assembly, now: int): Result
    requires WellFormed(c)
  {
    if a.nextIndex != c.index.value then Result(m - {c.key}, OutOfOrder)
    else if !Fits(a, c) then Result(m - {c.key}, Invalid)
    else if Total(m) + |buffer| > MAX_ASSEMBLY_BYTES then Result(m - {c.key}, Capacity)
    else
      var b := Grown(a, buffer, now);
      if b.nextIndex != b.chunkCount then Result(m[c.key := b], Pending)
      else if b.receivedBytes != b.totalBytes then Result(m - {c.key}, Invalid)
      else Result(m - {c.key}, Complete(Concat(b.chunks)))
  }

  datatype Event =
    | Append(chunk: Chunk)
    | TimerFires(key: Key)
    | Discard(key: Key)
    | ClearAgent(agentId: string)

  /** A timer that fires was armed when the assembly last grew; it is due when the assembly expires. */
  ghost function After(m: Assemblies, e: Event, now: int): Assemblies {
    match e
    case Append(c) => AfterAppend(m, c, now).assemblies
    case TimerFires(k) => if k in m && m[k].expiresAt <= now then m - {k} else m
    case Discard(k) => m - {k}
    case ClearAgent(agentId) => WithoutAgent(m, agentId)
  }

  // ---------------------------------------------------------------- sums

  lemma {:induction false} TotalRemove(m: Assemblies, k: Key)
    requires k in m
    ensures Total(m) == m[k].receivedBytes + Total(m - {k})
    decreases |m|
  {
    var j :| j in m && Total(m) == m[j].receivedBytes + Total(m - {j});
    if j != k {
      TotalRemove(m - {j}, k);
      TotalRemove(m - {k}, j);
      assert m - {j} - {k} == m - {k} - {j};
    }
  }

  lemma TotalInsert(m: Assemblies, k: Key, a: Assembly)
    ensures Total(m[k := a]) == a.receivedBytes + Total(m - {k})
  {
    TotalRemove(m[k := a], k);
    assert m[k := a] - {k} == m - {k};
  }

  ghost predicate IsPartOf(n: Assemblies, m: Assemblies) {
    forall k :: k in n ==> k in m && n[k] == m[k]
  }

  lemma {:induction false} TotalSubset(m: Assemblies, n: Assemblies)
    requires IsPartOf(n, m) && forall k :: k in m ==> m[k].receivedBytes >= 0
    ensures 0 <= Total(n) <= Total(m) && |n| <= |m|
    decreases |m|
  {
    if m == map[] {
      assert n == map[];
    } else {
      var k :| k in m;
      TotalRemove(m, k);
      TotalSubset(m - {k}, n - {k});
      if k in n {
        TotalRemove(n, k);
      } else {
        assert n - {k} == n;
      }
    }
  }

  // ---------------------------------------------------------------- the invariant

  /** A live assembly holds the first chunks of its transfer, all of full size, and at least one. */
  ghost predicate Consistent(a: Assembly) {
    && MAX_CHUNK_BYTES < a.totalBytes <= MAX_PREVIEW_FILE_BYTES && a.chunkCount == CeilDiv(a.totalBytes)
    && 0 < a.nextIndex < a.chunkCount && |a.chunks| == a.nextIndex
    && a.receivedBytes == a.nextIndex * MAX_CHUNK_BYTES
  }

  ghost predicate Inv(m: Assemblies) {
    && (forall k :: k in m ==> Consistent(m[k]))
    && |m| <= MAX_ASSEMBLIES && Total(m) <= MAX_ASSEMBLY_BYTES
  }

  lemma SubsetKeepsInv(m: Assemblies, n: Assemblies)
    requires Inv(m) && IsPartOf(n, m)
    ensures Inv(n)
  {
    TotalSubset(m, n);
  }

  lemma WithoutAgentKeepsInv(m: Assemblies, agentId: string)
    requires Inv(m)
    ensures Inv(WithoutAgent(m, agentId))
  {
    SubsetKeepsInv(m, WithoutAgent(m, agentId));
  }

  lemma UpdateSize(m: Assemblies, k: Key, a: Assembly)
    ensures |m[k := a]| == if k in m then |m| else |m| + 1
  {
    assert m[k := a].Keys == m.Keys + {k};
  }

  lemma UpdateKeepsInv(m: Assemblies, k: Key, a: Assembly)
    requires Inv(m) && Consistent(a) && (k in m || |m| < MAX_ASSEMBLIES)
    requires Total(m - {k}) + a.receivedBytes <= MAX_ASSEMBLY_BYTES
    ensures Inv(m[k := a])
  {
    TotalInsert(m, k, a);
    UpdateSize(m, k, a);
  }

  /** The payload has the size its position in the announced transfer asks for. */
  ghost predicate InPlace(c: Chunk, buffer: seq<Byte>)
    requires WellFormed(c)
  {
    && c.count.value == CeilDiv(c.totalBytes.value) && 0 < |buffer| <= MAX_CHUNK_BYTES
    && |buffer| == if c.index.value < c.count.value - 1 then MAX_CHUNK_BYTES
                   else c.totalBytes.value - (c.count.value - 1) * MAX_CHUNK_BYTES
  }

  lemma PayloadIs(c: Chunk)
    requires Payload(c).Some?
    ensures WellFormed(c) && InPlace(c, Payload(c).value)
  {
    DecodesExactlyCanonical(c.content, Payload(c).value);
  }

  lemma GrowKeepsInv(m: Assemblies, k: Key, b: Assembly)
    requires Inv(m) && Consistent(b) && (k in m || |m| < MAX_ASSEMBLIES)
    requires Total(m) + b.receivedBytes <= MAX_ASSEMBLY_BYTES + if k in m then m[k].receivedBytes else 0
    ensures Inv(m[k := b])
  {
    if k in m {
      TotalRemove(m, k);
    } else {
      assert m - {k} == m;
    }
    UpdateKeepsInv(m, k, b);
  }

  /** The assembly a well-placed payload meets is the live one, or a new one for a first chunk. */
  ghost predicate Meets(m: Assemblies, c: Chunk, a: Assembly, now: int)
    requires WellFormed(c)
  {
    if c.key in m then a == m[c.key] else a == NewAssembly(c, now) && c.index.value == 0
  }

  lemma GrownIsConsistent(m: Assemblies, c: Chunk, buffer: seq<Byte>, a: Assembly, now: int)
    requires WellFormed(c) && InPlace(c, buffer) && Meets(m, c, a, now) && (c.key in m ==> Consistent(m[c.key]))
    requires a.nextIndex == c.index.value && Fits(a, c) && a.nextIndex + 1 != a.chunkCount
    ensures Consistent(Grown(a, buffer, now)) && Grown(a, buffer, now).receivedBytes == a.receivedBytes + |buffer|
    ensures c.key !in m ==> a.receivedBytes == 0
  {
  }

  lemma AcceptKeepsInv(m: Assemblies, c: Chunk, buffer: seq<Byte>, now: int)
    requires Inv(m) && WellFormed(c) && InPlace(c, buffer)
    ensures Inv(Accept(m, c, buffer, now).assemblies)
  {
    SubsetKeepsInv(m, m - {c.key});
    var a := if c.key in m then m[c.key] else NewAssembly(c, now);
    if Accept(m, c, buffer, now).status.Pending? {
      GrownIsConsistent(m, c, buffer, a, now);
      GrowKeepsInv(m, c.key, Grown(a, buffer, now));
    }
  }

  lemma AppendKeepsInv(m: Assemblies, c: Chunk, now: int)
    requires Inv(m)
    ensures Inv(AfterAppend(m, c, now).assemblies)
  {
    SubsetKeepsInv(m, Live(m, now));
    if Payload(c).Some? {
      PayloadIs(c);
      AcceptKeepsInv(Live(m, now), c, Payload(c).value, now);
    }
  }

  /** Every event keeps the assemblies consistent and the budget and the number of assemblies bounded. */
  lemma EventKeepsInv(m: Assemblies, e: Event, now: int)
    requires Inv(m)
    ensures Inv(After(m, e, now))
  {
    match e
    case Append(c) => AppendKeepsInv(m, c, now);
    case TimerFires(k) => SubsetKeepsInv(m, After(m, e, now));
    case Discard(k) => SubsetKeepsInv(m, After(m, e, now));
    case ClearAgent(agentId) => WithoutAgentKeepsInv(m, agentId);
  }

  /** A transfer that has received its last chunk has received exactly the bytes it announced: the check
      before the completion never fails. */
  lemma LastChunkCompletes(m: Assemblies, c: Chunk, now: int)
    requires Inv(m) && Payload(c).Some? && c.key in Live(m, now)
    requires var a := m[c.key]; a.nextIndex == c.index.value && Fits(a, c) && c.index.value == c.count.value - 1
    ensures Grown(m[c.key], Payload(c).value, now).receivedBytes == m[c.key].totalBytes
    ensures AfterAppend(m, c, now).status in {Capacity, Complete(Concat(m[c.key].chunks + [Payload(c).value]))}
  {
    PayloadIs(c);
  }

  // ---------------------------------------------------------------- what one chunk is answered

  function Min(a: int, b: int): int { if a < b then a else b }

  /** A chunk has a payload exactly if it is the canonical text of a piece that stands where it says in a transfer of
      an admissible size. */
  lemma PayloadExactly(c: Chunk, buffer: seq<Byte>)
    ensures Payload(c) == Some(buffer)
       <==> && c.key.agentId != "" && c.key.requestId != ""
            && c.totalBytes.Some? && 1_048_576 < c.totalBytes.value <= 104_857_600
            && c.count == Some(CeilDiv(c.totalBytes.value))
            && c.index.Some? && 0 <= c.index.value < c.count.value
            && |buffer| == Min(1_048_576, c.totalBytes.value - c.index.value * 1_048_576)
            && c.content == Encode(buffer)
  {
    DecodesExactlyCanonical(c.content, buffer);
    if DecodeChunk(c.content).Some? {
      DecodesExactlyCanonical(c.content, DecodeChunk(c.content).value);
    }
  }

  /** The tables agree on every other key. */
  ghost predicate SameElsewhere(m: Assemblies, n: Assemblies, key: Key) {
    forall k :: k != key ==> (k in m <==> k in n) && (k in m ==> m[k] == n[k])
  }

  /** `a` with one chunk more, alive for two minutes from `now` on. */
  ghost predicate IsOneLonger(b: Assembly, a: Assembly, buffer: seq<Byte>, now: int) {
    && b.chunks == a.chunks + [buffer] && b.nextIndex == a.nextIndex + 1
    && b.receivedBytes == a.receivedBytes + |buffer| && b.expiresAt == now + 120_000
    && b.chunkCount == a.chunkCount && b.totalBytes == a.totalBytes && b.meta == a.meta
  }

  /** There is no room for a first chunk among 64 assemblies or beyond the budget, nor for a later one beyond it. */
  ghost predicate LacksRoom(live: Assemblies, key: Key, bytes: int) {
    Total(live) + bytes > 134_217_728 || (key !in live && |live| >= 64)
  }

  /** A chunk without payload is invalid and changes nothing but what has expired. */
  lemma BadChunkIsRefused(m: Assemblies, c: Chunk, now: int)
    ensures Payload(c).None? ==> AfterAppend(m, c, now) == Result(Live(m, now), Invalid)
    ensures Payload(c).Some? ==> SameElsewhere(AfterAppend(m, c, now).assemblies, Live(m, now), c.key)
  {
  }

  /** The answer to a chunk of a key without a live assembly. */
  lemma FirstChunkIsAnswered(m: Assemblies, c: Chunk, buffer: seq<Byte>, now: int)
    requires Payload(c) == Some(buffer) && (c.key in m ==> m[c.key].expiresAt <= now)
    ensures var r, live := AfterAppend(m, c, now), Live(m, now);
            && (r.status == OutOfOrder <==> c.index != Some(0))
            && (r.status == Capacity <==> c.index == Some(0) && LacksRoom(live, c.key, |buffer|))
            && (r.status in {OutOfOrder, Capacity} ==> r.assemblies == live)
            && (r.status !in {OutOfOrder, Capacity} ==>
                  && r.status == Pending && c.key in r.assemblies
                  && IsOneLonger(r.assemblies[c.key],
                                 Assembly(c.count.value, c.totalBytes.value, c.meta, 0, 0, [], 0), buffer, now))
  {
    PayloadIs(c);
    assert Live(m, now) - {c.key} == Live(m, now);
  }

  /** A chunk repeats what the first one of its transfer said. */
  predicate Repeats(c: Chunk, a: Assembly) {
    c.count == Some(a.chunkCount) && c.totalBytes == Some(a.totalBytes) && c.meta == a.meta
  }

  /** The answer to a chunk of a live assembly. */
  lemma LaterChunkIsAnswered(m: Assemblies, c: Chunk, buffer: seq<Byte>, now: int)
    requires Inv(m) && Payload(c) == Some(buffer) && c.key in m && m[c.key].expiresAt > now
    ensures var r, live, a := AfterAppend(m, c, now), Live(m, now), m[c.key];
            && (r.status == OutOfOrder <==> c.index != Some(a.nextIndex))
            && (r.status == Invalid <==> c.index == Some(a.nextIndex) && !Repeats(c, a))
            && (r.status == Capacity
                <==> c.index == Some(a.nextIndex) && Repeats(c, a) && LacksRoom(live, c.key, |buffer|))
            && (r.status != Pending ==> r.assemblies == live - {c.key})
            && (r.status == Pending ==> c.key in r.assemblies && IsOneLonger(r.assemblies[c.key], a, buffer, now))
            && (r.status == Pending ==> a.nextIndex + 1 < a.chunkCount)
            && (r.status.Complete? ==> a.nextIndex + 1 == a.chunkCount && r.status.buffer == Concat(a.chunks + [buffer]))
  {
    PayloadIs(c);
    var a := m[c.key];
    assert Repeats(c, a) <==> Fits(a, c);
    assert Consistent(a);
  }

  // ---------------------------------------------------------------- a transfer

  /** The `i`-th piece of a file. */
  function Piece(file: seq<Byte>, i: nat): seq<Byte>
    requires i * MAX_CHUNK_BYTES <= |file|
  {
    file[i * MAX_CHUNK_BYTES..Min((i + 1) * MAX_CHUNK_BYTES, |file|)]
  }

  function Pieces(file: seq<Byte>, n: nat): seq<seq<Byte>>
    requires n * MAX_CHUNK_BYTES <= |file| + MAX_CHUNK_BYTES
  {
    if n == 0 then [] else Pieces(file, n - 1) + [Piece(file, n - 1)]
  }

  predicate IsTransferable(key: Key, file: seq<Byte>) {
    key.agentId != "" && key.requestId != "" && MAX_CHUNK_BYTES < |file| <= MAX_PREVIEW_FILE_BYTES
  }

  /** The message that carries the `i`-th piece, as the agent sends it. */
  function ChunkOf(key: Key, meta: Meta, file: seq<Byte>, i: nat): Chunk
    requires i * MAX_CHUNK_BYTES <= |file|
  {
    Chunk(key, Some(i), Some(CeilDiv(|file|)), Some(|file|), meta, Encode(Piece(file, i)))
  }

  lemma ChunkPayload(key: Key, meta: Meta, file: seq<Byte>, i: nat)
    requires IsTransferable(key, file) && i < CeilDiv(|file|)
    ensures i * MAX_CHUNK_BYTES < |file| && Payload(ChunkOf(key, meta, file, i)) == Some(Piece(file, i))
  {
    DecodesExactlyCanonical(Encode(Piece(file, i)), Piece(file, i));
  }

  lemma {:induction false} PiecesConcat(file: seq<Byte>, n: nat)
    requires n * MAX_CHUNK_BYTES < |file| + MAX_CHUNK_BYTES
    ensures Concat(Pieces(file, n)) == file[..Min(n * MAX_CHUNK_BYTES, |file|)]
  {
    if n > 0 {
      PiecesConcat(file, n - 1);
      PiecesLength(file, n - 1);
      var before := Pieces(file, n - 1);
      assert Pieces(file, n)[..n - 1] == before;
      assert file[..(n - 1) * MAX_CHUNK_BYTES] + Piece(file, n - 1) == file[..Min(n * MAX_CHUNK_BYTES, |file|)];
    }
  }

  /** How far a transfer has come: `fed` pieces arrived, the last of them at a time before `deadline`. */
  ghost predicate Progress(m: Assemblies, key: Key, meta: Meta, file: seq<Byte>, fed: nat, deadline: int)
    requires fed <= CeilDiv(|file|)
  {
    if fed == 0 || fed == CeilDiv(|file|) then key !in m
    else
      && key in m
      && m[key] == Assembly(CeilDiv(|file|), |file|, meta, fed, fed * MAX_CHUNK_BYTES, Pieces(file, fed), deadline)
  }

  /** The next piece of a transfer is refused for lack of capacity, or it advances the transfer, and the last
      piece completes it with exactly the file. */
  lemma NextPiece(m: Assemblies, key: Key, meta: Meta, file: seq<Byte>, fed: nat, deadline: int, now: int)
    requires Inv(m) && IsTransferable(key, file) && fed < CeilDiv(|file|)
    requires Progress(m, key, meta, file, fed, deadline) && (fed > 0 ==> now < deadline)
    ensures fed * MAX_CHUNK_BYTES <= |file|
    ensures var r := AfterAppend(m, ChunkOf(key, meta, file, fed), now);
            || (r.status.Capacity? && key !in r.assemblies)
            || (&& Progress(r.assemblies, key, meta, file, fed + 1, now + ASSEMBLY_TTL_MS)
                && r.status == if fed + 1 < CeilDiv(|file|) then Pending else Complete(file))
  {
    ChunkPayload(key, meta, file, fed);
    NextAccepted(Live(m, now), key, meta, file, fed, deadline, now);
  }

  lemma PieceSize(file: seq<Byte>, i: nat)
    requires i < CeilDiv(|file|)
    ensures i * MAX_CHUNK_BYTES < |file|
    ensures |Piece(file, i)| == if i + 1 < CeilDiv(|file|) then MAX_CHUNK_BYTES else |file| - i * MAX_CHUNK_BYTES
  {
  }

  lemma NextAccepted(m: Assemblies, key: Key, meta: Meta, file: seq<Byte>, fed: nat, deadline: int, now: int)
    requires IsTransferable(key, file) && fed < CeilDiv(|file|) && Progress(m, key, meta, file, fed, deadline)
    ensures fed * MAX_CHUNK_BYTES <= |file| && WellFormed(ChunkOf(key, meta, file, fed))
    ensures var r := Accept(m, ChunkOf(key, meta, file, fed), Piece(file, fed), now);
            || (r.status.Capacity? && key !in r.assemblies)
            || (&& Progress(r.assemblies, key, meta, file, fed + 1, now + ASSEMBLY_TTL_MS)
                && r.status == if fed + 1 < CeilDiv(|file|) then Pending else Complete(file))
  {
    PieceSize(file, fed);
    var a := Assembly(CeilDiv(|file|), |file|, meta, fed, fed * MAX_CHUNK_BYTES, Pieces(file, fed),
                      if fed == 0 then now + ASSEMBLY_TTL_MS else deadline);
    PieceExtends(m, key, meta, file, fed, a, now);
  }

  /** A chunk that is the next one of its transfer, and completes the size if it is the last. */
  lemma NextExtends(m: Assemblies, c: Chunk, buffer: seq<Byte>, a: Assembly, now: int)
    requires WellFormed(c) && a.nextIndex == c.index.value && Fits(a, c)
    requires a.nextIndex + 1 == a.chunkCount ==> a.receivedBytes + |buffer| == a.totalBytes
    ensures var r, b := Extend(m, c, buffer, a, now), Grown(a, buffer, now);
            || r == Result(m - {c.key}, Capacity)
            || r == if a.nextIndex + 1 < a.chunkCount then Result(m[c.key := b], Pending)
                    else Result(m - {c.key}, Complete(Concat(b.chunks)))
  {
  }

  lemma PieceExtends(m: Assemblies, key: Key, meta: Meta, file: seq<Byte>, fed: nat, a: Assembly, now: int)
    requires IsTransferable(key, file) && fed < CeilDiv(|file|) && fed * MAX_CHUNK_BYTES <= |file|
    requires WellFormed(ChunkOf(key, meta, file, fed))
    requires a == Assembly(CeilDiv(|file|), |file|, meta, fed, fed * MAX_CHUNK_BYTES, Pieces(file, fed), a.expiresAt)
    ensures var r := Extend(m, ChunkOf(key, meta, file, fed), Piece(file, fed), a, now);
            || r == Result(m - {key}, Capacity)
            || (&& Progress(r.assemblies, key, meta, file, fed + 1, now + ASSEMBLY_TTL_MS)
                && r.status == if fed + 1 < CeilDiv(|file|) then Pending else Complete(file))
  {
    PieceSize(file, fed);
    NextExtends(m, ChunkOf(key, meta, file, fed), Piece(file, fed), a, now);
    if fed + 1 == CeilDiv(|file|) {
      AllPieces(file, fed + 1);
    }
  }

  lemma {:induction false} PiecesLength(file: seq<Byte>, n: nat)
    requires n * MAX_CHUNK_BYTES < |file| + MAX_CHUNK_BYTES
    ensures |Pieces(file, n)| == n
  {
    if n > 0 {
      PiecesLength(file, n - 1);
    }
  }

  lemma AllPieces(file: seq<Byte>, n: nat)
    requires file != [] && n == CeilDiv(|file|)
    ensures n * MAX_CHUNK_BYTES < |file| + MAX_CHUNK_BYTES && Concat(Pieces(file, n)) == file
  {
    PiecesConcat(file, n);
    assert file[..|file|] == file;
  }

  /** The event is not about the transfer's key. */
  predicate Elsewhere(e: Event, key: Key) {
    match e
    case Append(c) => c.key != key
    case TimerFires(k) => true
    case Discard(k) => k != key
    case ClearAgent(agentId) => agentId != key.agentId
  }

  lemma OthersLeaveTransfer(m: Assemblies, key: Key, meta: Meta, file: seq<Byte>, fed: nat, deadline: int,
                            e: Event, now: int)
    requires fed <= CeilDiv(|file|) && Progress(m, key, meta, file, fed, deadline) && Elsewhere(e, key)
    requires 0 < fed < CeilDiv(|file|) ==> now < deadline
    ensures Progress(After(m, e, now), key, meta, file, fed, deadline)
  {
  }

  datatype Timed = Timed(event: Event, now: int)

  ghost function RunOf(es: seq<Timed>): Assemblies {
    if es == [] then map[] else After(RunOf(es[..|es| - 1]), es[|es| - 1].event, es[|es| - 1].now)
  }

  predicate IsOwn(e: Event, key: Key) {
    e.Append? && e.chunk.key == key
  }

  /** The number of pieces fed so far, and the time at which the transfer expires. */
  function Fed(es: seq<Timed>, key: Key): nat {
    if es == [] then 0 else Fed(es[..|es| - 1], key) + if IsOwn(es[|es| - 1].event, key) then 1 else 0
  }

  function Deadline(es: seq<Timed>, key: Key): int {
    if es == [] then 0
    else if IsOwn(es[|es| - 1].event, key) then es[|es| - 1].now + ASSEMBLY_TTL_MS
    else Deadline(es[..|es| - 1], key)
  }

  /** The pieces of the file arrive in order, each before the transfer expires, among arbitrary events that
      are not about its key. */
  ghost predicate IsTransfer(es: seq<Timed>, key: Key, meta: Meta, file: seq<Byte>) {
    es == [] ||
    (var before, last := es[..|es| - 1], es[|es| - 1];
     && IsTransfer(before, key, meta, file)
     && (0 < Fed(before, key) < CeilDiv(|file|) ==> last.now < Deadline(before, key))
     && (Elsewhere(last.event, key)
         || (Fed(before, key) < CeilDiv(|file|) && Fed(before, key) * MAX_CHUNK_BYTES <= |file|
             && last.event == Append(ChunkOf(key, meta, file, Fed(before, key))))))
  }

  /** What the pieces were answered, in order. */
  ghost function Answers(es: seq<Timed>, key: Key): seq<Status> {
    if es == [] then []
    else
      var before, last := es[..|es| - 1], es[|es| - 1];
      Answers(before, key)
      + if IsOwn(last.event, key) then [AfterAppend(RunOf(before), last.event.chunk, last.now).status] else []
  }

  ghost predicate InOrder(answers: seq<Status>, file: seq<Byte>) {
    forall i :: 0 <= i < |answers| ==> answers[i] == if i + 1 < CeilDiv(|file|) then Pending else Complete(file)
  }

  lemma {:induction false} RunKeepsInv(es: seq<Timed>)
    ensures Inv(RunOf(es))
  {
    if es != [] {
      RunKeepsInv(es[..|es| - 1]);
      EventKeepsInv(RunOf(es[..|es| - 1]), es[|es| - 1].event, es[|es| - 1].now);
    }
  }

  lemma InOrderSnoc(answers: seq<Status>, file: seq<Byte>, status: Status)
    requires InOrder(answers, file)
    ensures status == (if |answers| + 1 < CeilDiv(|file|) then Pending else Complete(file)) ==>
              InOrder(answers + [status], file)
    ensures status == Capacity ==> Capacity in answers + [status]
  {
  }

  /** The answers so far are those of a transfer that goes well, or one of them is a refusal. */
  ghost predicate GoesWell(m: Assemblies, key: Key, meta: Meta, file: seq<Byte>, answers: seq<Status>, deadline: int) {
    && |answers| <= CeilDiv(|file|)
    && (Capacity in answers || (InOrder(answers, file) && Progress(m, key, meta, file, |answers|, deadline)))
  }

  lemma OwnPieceGoesWell(m: Assemblies, key: Key, meta: Meta, file: seq<Byte>, answers: seq<Status>, deadline: int,
                         now: int)
    requires Inv(m) && IsTransferable(key, file) && GoesWell(m, key, meta, file, answers, deadline)
    requires 0 < |answers| < CeilDiv(|file|) ==> now < deadline
    requires |answers| < CeilDiv(|file|) && |answers| * MAX_CHUNK_BYTES <= |file|
    ensures var r := AfterAppend(m, ChunkOf(key, meta, file, |answers|), now);
            GoesWell(r.assemblies, key, meta, file, answers + [r.status], now + ASSEMBLY_TTL_MS)
  {
    var r := AfterAppend(m, ChunkOf(key, meta, file, |answers|), now);
    if Capacity !in answers {
      NextPiece(m, key, meta, file, |answers|, deadline, now);
    }
    AnswerGoesWell(r.assemblies, key, meta, file, answers, r.status, now + ASSEMBLY_TTL_MS);
  }

  lemma AnswerGoesWell(m: Assemblies, key: Key, meta: Meta, file: seq<Byte>, answers: seq<Status>, status: Status,
                       deadline: int)
    requires |answers| < CeilDiv(|file|)
    requires || Capacity in answers || status == Capacity
             || (&& InOrder(answers, file) && Progress(m, key, meta, file, |answers| + 1, deadline)
                 && status == if |answers| + 1 < CeilDiv(|file|) then Pending else Complete(file))
    ensures GoesWell(m, key, meta, file, answers + [status], deadline)
  {
    if Capacity !in answers {
      if status == Capacity {
        assert (answers + [status])[|answers|] == Capacity;
      } else {
        InOrderSnoc(answers, file, status);
      }
    }
  }

  lemma OtherEventGoesWell(m: Assemblies, key: Key, meta: Meta, file: seq<Byte>, answers: seq<Status>, deadline: int,
                           e: Event, now: int)
    requires GoesWell(m, key, meta, file, answers, deadline) && Elsewhere(e, key)
    requires 0 < |answers| < CeilDiv(|file|) ==> now < deadline
    ensures GoesWell(After(m, e, now), key, meta, file, answers, deadline)
  {
    if Capacity !in answers {
      OthersLeaveTransfer(m, key, meta, file, |answers|, deadline, e, now);
    }
  }

  /** One event more of a transfer. */
  lemma EventGoesWell(m: Assemblies, key: Key, meta: Meta, file: seq<Byte>, answers: seq<Status>, deadline: int,
                      e: Event, now: int)
    requires Inv(m) && IsTransferable(key, file) && GoesWell(m, key, meta, file, answers, deadline)
    requires 0 < |answers| < CeilDiv(|file|) ==> now < deadline
    requires Elsewhere(e, key)
          || (|answers| < CeilDiv(|file|) && |answers| * MAX_CHUNK_BYTES <= |file|
              && e == Append(ChunkOf(key, meta, file, |answers|)))
    ensures if IsOwn(e, key)
            then GoesWell(After(m, e, now), key, meta, file, answers + [AfterAppend(m, e.chunk, now).status],
                          now + ASSEMBLY_TTL_MS)
            else GoesWell(After(m, e, now), key, meta, file, answers, deadline)
  {
    if Elsewhere(e, key) {
      OtherEventGoesWell(m, key, meta, file, answers, deadline, e, now);
    } else {
      OwnPieceGoesWell(m, key, meta, file, answers, deadline, now);
    }
  }

  lemma {:induction false} TransferGoesWell(es: seq<Timed>, key: Key, meta: Meta, file: seq<Byte>)
    requires IsTransferable(key, file) && IsTransfer(es, key, meta, file)
    ensures |Answers(es, key)| == Fed(es, key)
    ensures GoesWell(RunOf(es), key, meta, file, Answers(es, key), Deadline(es, key))
  {
    if es != [] {
      var before, last := es[..|es| - 1], es[|es| - 1];
      TransferGoesWell(before, key, meta, file);
      RunKeepsInv(before);
      EventGoesWell(RunOf(before), key, meta, file, Answers(before, key), Deadline(before, key), last.event, last.now);
      assert Answers(before, key) + [] == Answers(before, key);
    }
  }

  /** Whatever else goes on, the pieces of a file, sent in order and in time, are answered as pending and the
      last of them with exactly the file; unless some piece is refused for lack of capacity. */
  lemma TransferYieldsTheFile(es: seq<Timed>, key: Key, meta: Meta, file: seq<Byte>)
    requires IsTransferable(key, file) && IsTransfer(es, key, meta, file)
    ensures |Answers(es, key)| == Fed(es, key) <= CeilDiv(|file|)
    ensures Capacity in Answers(es, key)
         || (InOrder(Answers(es, key), file)
             && Progress(RunOf(es), key, meta, file, Fed(es, key), Deadline(es, key)))
  {
    TransferGoesWell(es, key, meta, file);
  }

  /** At none of the pieces fed so far room was lacking. */
  ghost predicate HasRoom(es: seq<Timed>, key: Key) {
    es == [] ||
    (var before, last := es[..|es| - 1], es[|es| - 1];
     && HasRoom(before, key)
     && (IsOwn(last.event, key) && Payload(last.event.chunk).Some? ==>
           !LacksRoom(Live(RunOf(before), last.now), key, |Payload(last.event.chunk).value|)))
  }

  /** The next piece of a transfer is refused exactly if room is lacking. */
  lemma PieceIsRefusedExactly(m: Assemblies, key: Key, meta: Meta, file: seq<Byte>, fed: nat, deadline: int, now: int)
    requires Inv(m) && IsTransferable(key, file) && fed < CeilDiv(|file|)
    requires Progress(m, key, meta, file, fed, deadline) && (fed > 0 ==> now < deadline)
    ensures fed * MAX_CHUNK_BYTES < |file|
    ensures AfterAppend(m, ChunkOf(key, meta, file, fed), now).status == Capacity
       <==> LacksRoom(Live(m, now), key, |Piece(file, fed)|)
  {
    ChunkPayload(key, meta, file, fed);
    var c := ChunkOf(key, meta, file, fed);
    if fed == 0 {
      FirstChunkIsAnswered(m, c, Piece(file, fed), now);
    } else {
      LaterChunkIsAnswered(m, c, Piece(file, fed), now);
    }
  }

  /** Some piece is refused for lack of capacity exactly if at some piece room was lacking. */
  lemma {:induction false} RefusedExactlyWithoutRoom(es: seq<Timed>, key: Key, meta: Meta, file: seq<Byte>)
    requires IsTransferable(key, file) && IsTransfer(es, key, meta, file)
    ensures HasRoom(es, key) <==> Capacity !in Answers(es, key)
  {
    if es != [] {
      var before, last := es[..|es| - 1], es[|es| - 1];
      RefusedExactlyWithoutRoom(before, key, meta, file);
      if IsOwn(last.event, key) && HasRoom(before, key) {
        TransferGoesWell(before, key, meta, file);
        RunKeepsInv(before);
        ChunkPayload(key, meta, file, Fed(before, key));
        PieceIsRefusedExactly(RunOf(before), key, meta, file, Fed(before, key), Deadline(before, key), last.now);
      }
    }
  }

  /** Whatever else goes on, the pieces of a file, sent in order and in time, are answered as pending and the last of
      them with exactly the file, as long as the others leave room. */
  lemma TransferWithRoomYieldsTheFile(es: seq<Timed>, key: Key, meta: Meta, file: seq<Byte>)
    requires IsTransferable(key, file) && IsTransfer(es, key, meta, file) && HasRoom(es, key)
    ensures |Answers(es, key)| == Fed(es, key) && InOrder(Answers(es, key), file)
  {
    RefusedExactlyWithoutRoom(es, key, meta, file);
    TransferYieldsTheFile(es, key, meta, file);
  }

  /** No other transfer sends anything. */
  predicate IsAlone(es: seq<Timed>, key: Key) {
    forall i :: 0 <= i < |es| && es[i].event.Append? ==> es[i].event.chunk.key == key
  }

  lemma {:induction false} OnlyItsKey(es: seq<Timed>, key: Key)
    requires IsAlone(es, key)
    ensures RunOf(es).Keys <= {key}
  {
    if es != [] {
      OnlyItsKey(es[..|es| - 1], key);
    }
  }

  lemma TotalOfOne(m: Assemblies, key: Key)
    requires m.Keys <= {key}
    ensures Total(m) == (if key in m then m[key].receivedBytes else 0) && |m| <= 1
  {
    if key in m {
      assert m.Keys == {key};
      TotalRemove(m, key);
      assert m - {key} == map[];
    } else {
      assert m == map[];
    }
  }

  lemma {:induction false} AloneHasRoom(es: seq<Timed>, key: Key, meta: Meta, file: seq<Byte>)
    requires IsTransferable(key, file) && IsTransfer(es, key, meta, file) && IsAlone(es, key)
    ensures HasRoom(es, key)
  {
    if es != [] {
      var before, last := es[..|es| - 1], es[|es| - 1];
      AloneHasRoom(before, key, meta, file);
      if IsOwn(last.event, key) {
        OnlyItsKey(before, key);
        TransferWithRoomGoesOn(before, key, meta, file);
        ChunkPayload(key, meta, file, Fed(before, key));
        PieceSize(file, Fed(before, key));
        TotalOfOne(Live(RunOf(before), last.now), key);
      }
    }
  }

  lemma TransferWithRoomGoesOn(es: seq<Timed>, key: Key, meta: Meta, file: seq<Byte>)
    requires IsTransferable(key, file) && IsTransfer(es, key, meta, file) && HasRoom(es, key)
    ensures Fed(es, key) <= CeilDiv(|file|) && Progress(RunOf(es), key, meta, file, Fed(es, key), Deadline(es, key))
  {
    RefusedExactlyWithoutRoom(es, key, meta, file);
    TransferYieldsTheFile(es, key, meta, file);
  }

  /** A transfer of any admissible file succeeds on an idle server. */
  lemma LoneTransferYieldsTheFile(es: seq<Timed>, key: Key, meta: Meta, file: seq<Byte>)
    requires IsTransferable(key, file) && IsTransfer(es, key, meta, file) && IsAlone(es, key)
    ensures |Answers(es, key)| == Fed(es, key) && InOrder(Answers(es, key), file)
  {
    AloneHasRoom(es, key, meta, file);
    TransferWithRoomYieldsTheFile(es, key, meta, file);
  }

  // ---------------------------------------------------------------- the module's own state

  lemma StoreThenRemove(m: Assemblies, k: Key, a: Assembly)
    ensures m[k := a] - {k} == m - {k}
  {
  }

  /** Putting an empty assembly in the table first makes no difference. */
  lemma NewIsNeutral(m: Assemblies, c: Chunk, buffer: seq<Byte>, now: int)
    requires WellFormed(c) && c.key !in m
    ensures var a := NewAssembly(c, now); Extend(m[c.key := a], c, buffer, a, now) == Extend(m, c, buffer, a, now)
  {
    var a := NewAssembly(c, now);
    StoreThenRemove(m, c.key, a);
    assert m - {c.key} == m;
    TotalInsert(m, c.key, a);
    assert m[c.key := a][c.key := Grown(a, buffer, now)] == m[c.key := Grown(a, buffer, now)];
  }

  class FileContentAssembler {
    var assemblies: Assemblies
    var assemblyBytes: int

    ghost predicate Counted()
      reads this
    {
      assemblyBytes == Total(assemblies) && forall k :: k in assemblies ==> assemblies[k].receivedBytes >= 0
    }

    ghost predicate Valid()
      reads this
    {
      Counted() && Inv(assemblies)
    }

    constructor ()
      ensures Valid() && assemblies == map[]
    {
      assemblies, assemblyBytes := map[], 0;
    }

    /** The counter never has to be clamped. */
    method Remove(key: Key)
      requires Counted()
      modifies this
      ensures Counted() && assemblies == old(assemblies) - {key}
      ensures assemblyBytes
           == old(assemblyBytes) - if key in old(assemblies) then old(assemblies)[key].receivedBytes else 0
    {
      if key !in assemblies {
        return;
      }
      TotalRemove(assemblies, key);
      TotalSubset(assemblies - {key}, assemblies - {key});
      assemblyBytes := if assemblyBytes - assemblies[key].receivedBytes < 0 then 0
                       else assemblyBytes - assemblies[key].receivedBytes;
      assemblies := assemblies - {key};
    }

    method Prune(now: int)
      requires Counted()
      modifies this
      ensures Counted() && assemblies == Live(old(assemblies), now)
    {
      var keys := assemblies.Keys;
      while keys != {}
        invariant Counted() && keys <= assemblies.Keys <= old(assemblies).Keys
        invariant forall k :: k in assemblies ==> assemblies[k] == old(assemblies)[k]
        invariant forall k :: k in old(assemblies) && k !in keys ==>
                    (k in assemblies <==> old(assemblies)[k].expiresAt > now)
        decreases |keys|
      {
        var key :| key in keys;
        keys := keys - {key};
        if assemblies[key].expiresAt <= now {
          Remove(key);
        }
      }
    }

    method AppendFileContentChunk(c: Chunk, now: int) returns (status: Status)
      requires Valid()
      modifies this
      ensures Valid() && Result(assemblies, status) == AfterAppend(old(assemblies), c, now)
    {
      Prune(now);
      SubsetKeepsInv(old(assemblies), assemblies);
      if !WellFormed(c) {
        return Invalid;
      }
      var decoded := DecodeChunk(c.content);
      if decoded.None? {
        return Invalid;
      }
      var buffer := decoded.value;
      var expectedCount := CeilDiv(c.totalBytes.value);
      var expectedBytes := if c.index.value == c.count.value - 1
                           then c.totalBytes.value - (c.count.value - 1) * MAX_CHUNK_BYTES else MAX_CHUNK_BYTES;
      if c.count.value != expectedCount || |buffer| != expectedBytes {
        return Invalid;
      }
      PayloadIs(c);
      status := Place(c, buffer, now);
    }

    /** The second half of the call, once the payload is known to be well placed. */
    method Place(c: Chunk, buffer: seq<Byte>, now: int) returns (status: Status)
      requires Valid() && WellFormed(c) && InPlace(c, buffer)
      modifies this
      ensures Valid() && Result(assemblies, status) == Accept(old(assemblies), c, buffer, now)
    {
      AcceptKeepsInv(assemblies, c, buffer, now);
      if c.key !in assemblies {
        if c.index.value != 0 {
          return OutOfOrder;
        }
        if |assemblies| >= MAX_ASSEMBLIES || assemblyBytes + |buffer| > MAX_ASSEMBLY_BYTES {
          return Capacity;
        }
        NewIsNeutral(assemblies, c, buffer, now);
        Store(c.key, NewAssembly(c, now));
      }
      status := Advance(c, buffer, now);
    }

    method Advance(c: Chunk, buffer: seq<Byte>, now: int) returns (status: Status)
      requires Counted() && WellFormed(c) && c.key in assemblies
      modifies this
      ensures Counted()
      ensures Result(assemblies, status) == Extend(old(assemblies), c, buffer, old(assemblies)[c.key], now)
    {
      var assembly := assemblies[c.key];
      if assembly.nextIndex != c.index.value {
        Remove(c.key);
        return OutOfOrder;
      }
      if !Fits(assembly, c) {
        Remove(c.key);
        return Invalid;
      }
      if assemblyBytes + |buffer| > MAX_ASSEMBLY_BYTES {
        Remove(c.key);
        return Capacity;
      }
      var grown := Grown(assembly, buffer, now);
      Store(c.key, grown);
      if grown.nextIndex != grown.chunkCount {
        return Pending;
      }
      StoreThenRemove(old(assemblies), c.key, grown);
      Remove(c.key);
      if grown.receivedBytes != grown.totalBytes {
        return Invalid;
      }
      return Complete(Concat(grown.chunks));
    }

    /** Put an assembly in the table and count what it has received more than the one it replaces. */
    method Store(key: Key, assembly: Assembly)
      requires Counted() && assembly.receivedBytes >= 0
      modifies this
      ensures Counted() && assemblies == old(assemblies)[key := assembly]
    {
      var before := if key in assemblies then assemblies[key].receivedBytes else 0;
      TotalInsert(assemblies, key, assembly);
      if key in assemblies {
        TotalRemove(assemblies, key);
      } else {
        assert assemblies - {key} == assemblies;
      }
      assemblies := assemblies[key := assembly];
      assemblyBytes := assemblyBytes + assembly.receivedBytes - before;
    }

    /** A timer is armed for as long as the assembly lives and is disarmed when the assembly grows or goes. */
    method OnTimeout(key: Key, now: int)
      requires Valid()
      modifies this
      ensures Valid() && assemblies == After(old(assemblies), TimerFires(key), now)
      ensures assemblies == if key in old(assemblies) && old(assemblies)[key].expiresAt <= now
                            then old(assemblies) - {key} else old(assemblies)
    {
      EventKeepsInv(assemblies, TimerFires(key), now);
      if key in assemblies && assemblies[key].expiresAt <= now {
        Remove(key);
      }
    }

    method DiscardFileContentAssembly(key: Key)
      requires Valid()
      modifies this
      ensures Valid() && assemblies == After(old(assemblies), Discard(key), 0) == old(assemblies) - {key}
    {
      EventKeepsInv(assemblies, Discard(key), 0);
      Remove(key);
    }

    method ClearFileContentAssembliesForAgent(agentId: string)
      requires Valid()
      modifies this
      ensures Valid() && assemblies == After(old(assemblies), ClearAgent(agentId), 0)
      ensures forall k :: k in assemblies <==> k in old(assemblies) && k.agentId != agentId
    {
      WithoutAgentKeepsInv(assemblies, agentId);
      RemoveForAgent(agentId);
    }

    method RemoveForAgent(agentId: string)
      requires Counted()
      modifies this
      ensures Counted() && assemblies == WithoutAgent(old(assemblies), agentId)
    {
      var keys := assemblies.Keys;
      while keys != {}
        invariant Counted() && keys <= assemblies.Keys <= old(assemblies).Keys
        invariant forall k :: k in assemblies ==> assemblies[k] == old(assemblies)[k]
        invariant forall k :: k in old(assemblies) && k !in keys ==> (k in assemblies <==> k.agentId != agentId)
        decreases |keys|
      {
        var key :| key in keys;
        keys := keys - {key};
        if key.agentId == agentId {
          Remove(key);
        }
      }
    }
  }
}
