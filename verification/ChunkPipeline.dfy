/**
 * Upload side of the data path: reading a chunk window, encrypting it, and
 * collecting the per-chunk records from which the manifest is made.
 *
 * The cipher and the hash are arbitrary functions. All that is used of the
 * cipher is that decryption under the same key and associated data inverts
 * encryption and that a ciphertext is never empty (it carries nonce and tag).
 */
module ChunkPipeline {
  import opened Basics
  import opened Partition
  import Base64

  type Key = Bytes
  type Nonce = Bytes

  datatype Aad =
    | FileChunkAad(vaultId: string, fileId: string, chunkIndex: int, chunkSize: int, totalChunks: int)
    | ResumeFileKeyAad(uploadSessionId: string)

  datatype Crypto = Crypto(
    encrypt: (Key, Aad, Nonce, Bytes) -> Bytes,
    decrypt: (Key, Aad, Bytes) -> Option<Bytes>,
    hash: Bytes -> Bytes)

  ghost predicate Sound(crypto: Crypto)
  {
    forall key, aad, nonce, plain ::
      && crypto.decrypt(key, aad, crypto.encrypt(key, aad, nonce, plain)) == Some(plain)
      && |crypto.encrypt(key, aad, nonce, plain)| > 0
  }

  /** One file being transferred: what is read, under which key and identity. */
  datatype FileJob = FileJob(crypto: Crypto, key: Key, vaultId: string, fileId: string, content: Bytes)

  datatype ChunkRecord = ChunkRecord(number: nat, plainSize: nat, cipherSize: nat, hash: string)

  datatype PartResult = PartResult(
    plan: PartPlan,
    chunks: seq<ChunkRecord>,
    uploadHash: string,
    etag: string,
    combinedHashes: Bytes)

  function ChunkAad(job: FileJob, number: nat): Aad
  {
    FileChunkAad(job.vaultId, job.fileId, CastInt(number), CHUNK_SIZE, CastInt(ChunkCount(|job.content|)))
  }

  // ------------------------------------------------- what records say about bytes

  /** The record fits `piece`, and `piece` is chunk `number` sealed under its own associated data. */
  ghost predicate Sealed(job: FileJob, number: nat, c: ChunkRecord, piece: Bytes)
  {
    && 1 <= number <= ChunkCount(|job.content|)
    && c.number == number
    && c.plainSize == |Chunk(job.content, number)|
    && c.cipherSize == |piece| > 0
    && job.crypto.decrypt(job.key, ChunkAad(job, number), piece) == Some(Chunk(job.content, number))
    && c.hash == Base64.Encode(job.crypto.hash(piece))
  }

  /**
   * The records describe `body`: it is cut by their cipher sizes into pieces
   * that decrypt, one by one, to the file's chunks `first`, `first + 1`, ...
   */
  ghost predicate Describes(job: FileJob, first: nat, chunks: seq<ChunkRecord>, body: Bytes)
    requires first >= 1
    decreases |chunks|
  {
    if chunks == [] then body == []
    else
      && chunks[0].cipherSize <= |body|
      && Sealed(job, first, chunks[0], body[..chunks[0].cipherSize])
      && Describes(job, first + 1, chunks[1..], body[chunks[0].cipherSize..])
  }

  /** Concatenated hashes of the pieces the records cut `body` into. */
  function PieceHashes(hash: Bytes -> Bytes, chunks: seq<ChunkRecord>, body: Bytes): Bytes
    decreases |chunks|
  {
    if chunks == [] || chunks[0].cipherSize > |body| then []
    else hash(body[..chunks[0].cipherSize]) + PieceHashes(hash, chunks[1..], body[chunks[0].cipherSize..])
  }

  lemma {:induction false} DescribesConcat(job: FileJob, first: nat,
      a: seq<ChunkRecord>, bodyA: Bytes, b: seq<ChunkRecord>, bodyB: Bytes)
    requires first >= 1
    requires Describes(job, first, a, bodyA)
    requires Describes(job, first + |a|, b, bodyB)
    ensures Describes(job, first, a + b, bodyA + bodyB)
    ensures PieceHashes(job.crypto.hash, a + b, bodyA + bodyB)
         == PieceHashes(job.crypto.hash, a, bodyA) + PieceHashes(job.crypto.hash, b, bodyB)
    decreases |a|
  {
    hide Describes, PieceHashes;
    if a == [] {
      DescribesNil(job, first, bodyA);
      assert a + b == b && bodyA + bodyB == bodyB;
      assert [] + PieceHashes(job.crypto.hash, b, bodyB) == PieceHashes(job.crypto.hash, b, bodyB);
    } else {
      var n := a[0].cipherSize;
      DescribesHead(job, first, a, bodyA);
      DescribesHead(job, first, a + b, bodyA + bodyB);
      ConcatSplits(a, b, 1);
      ConcatSplits(bodyA, bodyB, n);
      DescribesConcat(job, first + 1, a[1..], bodyA[n..], b, bodyB);
      ConcatAssociates(job.crypto.hash(bodyA[..n]), PieceHashes(job.crypto.hash, a[1..], bodyA[n..]),
                       PieceHashes(job.crypto.hash, b, bodyB));
    }
  }

  lemma DescribesNil(job: FileJob, first: nat, body: Bytes)
    requires first >= 1
    ensures Describes(job, first, [], body) <==> body == []
    ensures PieceHashes(job.crypto.hash, [], body) == []
  {
  }

  /** What records say about a body, one record at a time. */
  lemma DescribesHead(job: FileJob, first: nat, chunks: seq<ChunkRecord>, body: Bytes)
    requires first >= 1 && chunks != []
    ensures var n := chunks[0].cipherSize;
            && (Describes(job, first, chunks, body) <==>
                  && n <= |body|
                  && Sealed(job, first, chunks[0], body[..n])
                  && Describes(job, first + 1, chunks[1..], body[n..]))
            && (n <= |body| ==>
                  PieceHashes(job.crypto.hash, chunks, body)
                  == job.crypto.hash(body[..n]) + PieceHashes(job.crypto.hash, chunks[1..], body[n..]))
  {
    hide Sealed;
  }

  /** A part as the uploader must leave it: its own range, its own window, its own bytes. */
  ghost predicate PartDescribed(job: FileJob, part: nat, result: PartResult, body: Bytes)
    requires Supported(|job.content|) && 1 <= part <= PartCount(|job.content|)
  {
    && result.plan == MakePartPlan(part, CreatePlan(|job.content|))
    && |result.chunks| == WindowLength(|job.content|, part)
    && Describes(job, WindowFirst(|job.content|, part), result.chunks, body)
    && result.uploadHash == Base64.Encode(job.crypto.hash(body))
    && result.combinedHashes == PieceHashes(job.crypto.hash, result.chunks, body)
  }

  // ---------------------------------------------------------------- reading a window

  datatype EncryptedChunk = EncryptedChunk(number: nat, plainSize: nat, ciphertext: Bytes, isLast: bool)

  class ChunkReader {
    const crypto: Crypto
    const content: Bytes
    const key: Key
    const vaultId: string
    const fileId: string
    const chunkSize: nat
    const totalChunks: nat
    const endChunkIndex: nat
    var nextChunkIndex: nat
    var position: nat

    constructor (job: FileJob, chunkSize: nat, totalChunks: nat, firstChunkNumber: nat, chunkCount: nat)
      requires CheckWindow(chunkSize, totalChunks, firstChunkNumber, chunkCount) == None
      ensures crypto == job.crypto && content == job.content && key == job.key
      ensures vaultId == job.vaultId && fileId == job.fileId
      ensures this.chunkSize == chunkSize && this.totalChunks == totalChunks
      ensures nextChunkIndex == firstChunkNumber - 1
      ensures endChunkIndex == Wrap64(firstChunkNumber - 1 + chunkCount)
      ensures position == Wrap64((firstChunkNumber - 1) * chunkSize)
    {
      crypto, content, key := job.crypto, job.content, job.key;
      vaultId, fileId := job.vaultId, job.fileId;
      this.chunkSize, this.totalChunks := chunkSize, totalChunks;
      nextChunkIndex := firstChunkNumber - 1;
      endChunkIndex := Wrap64(firstChunkNumber - 1 + chunkCount);
      position := Wrap64((firstChunkNumber - 1) * chunkSize);
    }

    predicate HasNextChunk()
      reads this
    {
      nextChunkIndex < endChunkIndex
    }

    /** Reads at most one chunk from the current position and seals it under its number. */
    method NextEncryptedChunk(nonce: Nonce) returns (r: Result<EncryptedChunk>)
      modifies this
      ensures r.Ok? <==> old(HasNextChunk()) && old(position) < |content| && chunkSize > 0
      ensures r.Err? ==> nextChunkIndex == old(nextChunkIndex)
      ensures r.Ok? ==>
                var plain := content[old(position)..Min(old(position) + chunkSize, |content|)];
                && r.value.number == nextChunkIndex == old(nextChunkIndex) + 1
                && r.value.plainSize == |plain| > 0
                && r.value.ciphertext == crypto.encrypt(key,
                     FileChunkAad(vaultId, fileId, CastInt(nextChunkIndex), chunkSize,
                         CastInt(totalChunks)), nonce, plain)
                && r.value.isLast == (nextChunkIndex == totalChunks)
                && position == old(position) + |plain|
    {
      if !HasNextChunk() {
        return Err("No more chunks available");
      }
      var end := Min(position + chunkSize, |content|);
      if end <= position {
        return Err("Unable to read next file chunk");
      }
      var plain := content[position..end];
      var number := nextChunkIndex + 1;
      var aad := FileChunkAad(vaultId, fileId, CastInt(number), chunkSize, CastInt(totalChunks));
      var ciphertext := crypto.encrypt(key, aad, nonce, plain);
      nextChunkIndex := number;
      position := end;
      r := Ok(EncryptedChunk(number, |plain|, ciphertext, number == totalChunks));
    }
  }

  /** One more sealed chunk extends what the records describe. */
  lemma DescribesSealed(job: FileJob, first: nat, chunks: seq<ChunkRecord>, body: Bytes, c: ChunkRecord,
      ciphertext: Bytes)
    requires first >= 1 && Describes(job, first, chunks, body)
    requires Sealed(job, first + |chunks|, c, ciphertext)
    ensures Describes(job, first, chunks + [c], body + ciphertext)
    ensures PieceHashes(job.crypto.hash, chunks + [c], body + ciphertext)
         == PieceHashes(job.crypto.hash, chunks, body) + job.crypto.hash(ciphertext)
  {
    assert c.cipherSize == |ciphertext|;
    hide Sealed;
    assert ciphertext[..c.cipherSize] == ciphertext;
    assert [c][1..] == [] && ciphertext[c.cipherSize..] == [];
    assert Describes(job, first + |chunks| + 1, [], []);
    assert Describes(job, first + |chunks|, [c], ciphertext);
    assert PieceHashes(job.crypto.hash, [], []) == [];
    assert PieceHashes(job.crypto.hash, [c], ciphertext) == job.crypto.hash(ciphertext);
    DescribesConcat(job, first, chunks, body, [c], ciphertext);
  }

  // ---------------------------------------------------------------- what a worker sends

  /** The ciphertext of chunk `number` under a nonce. */
  function Ciphertext(job: FileJob, number: nat, nonce: Nonce): Bytes
    requires 1 <= number <= ChunkCount(|job.content|)
  {
    job.crypto.encrypt(job.key, ChunkAad(job, number), nonce, Chunk(job.content, number))
  }

  function SealedRecord(job: FileJob, number: nat, nonce: Nonce): ChunkRecord
    requires 1 <= number <= ChunkCount(|job.content|)
  {
    var ciphertext := Ciphertext(job, number, nonce);
    ChunkRecord(number, |Chunk(job.content, number)|, |ciphertext|, Base64.Encode(job.crypto.hash(ciphertext)))
  }

  /** Chunks `first`, ..., `first + n - 1` exist. */
  predicate InWindow(job: FileJob, first: nat, n: nat) { first >= 1 && first - 1 + n <= ChunkCount(|job.content|) }

  /** The records of a window sealed with the given nonces. */
  function SealedRecords(job: FileJob, first: nat, n: nat, nonces: nat -> Nonce): (r: seq<ChunkRecord>)
    requires InWindow(job, first, n)
    ensures |r| == n
  {
    if n == 0 then []
    else SealedRecords(job, first, n - 1, nonces) + [SealedRecord(job, first + n - 1, nonces(first + n - 1))]
  }

  /** The ciphertexts of a window, concatenated. */
  function SealedBytes(job: FileJob, first: nat, n: nat, nonces: nat -> Nonce): Bytes
    requires InWindow(job, first, n)
  {
    if n == 0 then []
    else SealedBytes(job, first, n - 1, nonces) + Ciphertext(job, first + n - 1, nonces(first + n - 1))
  }

  /** The hashes of a window's ciphertexts, concatenated. */
  function SealedHashes(job: FileJob, first: nat, n: nat, nonces: nat -> Nonce): Bytes
    requires InWindow(job, first, n)
  {
    if n == 0 then []
    else
      var ciphertext := Ciphertext(job, first + n - 1, nonces(first + n - 1));
      SealedHashes(job, first, n - 1, nonces) + job.crypto.hash(ciphertext)
  }

  /** With a sound cipher the records of a window describe its bytes, and the hashes are those of its pieces. */
  lemma {:induction false} SealedWindowDescribed(job: FileJob, first: nat, n: nat, nonces: nat -> Nonce)
    requires Sound(job.crypto) && InWindow(job, first, n)
    ensures Describes(job, first, SealedRecords(job, first, n, nonces), SealedBytes(job, first, n, nonces))
    ensures SealedHashes(job, first, n, nonces)
         == PieceHashes(job.crypto.hash, SealedRecords(job, first, n, nonces), SealedBytes(job, first, n, nonces))
    decreases n
  {
    hide Describes, PieceHashes, Sound, ChunkCount, SealedRecords, SealedBytes, SealedHashes, SealedRecord, Ciphertext;
    if n == 0 {
      SealedNothing(job, first, nonces);
      NothingDescribed(job, first);
    } else {
      SealedWindowDescribed(job, first, n - 1, nonces);
      var number := first + n - 1;
      SealedOneMore(job, first, n - 1, nonces);
      SealedByCipher(job, number, nonces(number));
      DescribesSealed(job, first, SealedRecords(job, first, n - 1, nonces), SealedBytes(job, first, n - 1, nonces),
                      SealedRecord(job, number, nonces(number)), Ciphertext(job, number, nonces(number)));
    }
  }

  lemma SealedNothing(job: FileJob, first: nat, nonces: nat -> Nonce)
    requires InWindow(job, first, 0)
    ensures SealedRecords(job, first, 0, nonces) == []
    ensures SealedBytes(job, first, 0, nonces) == SealedHashes(job, first, 0, nonces) == []
  {
  }

  lemma SealedOneMore(job: FileJob, first: nat, n: nat, nonces: nat -> Nonce)
    requires InWindow(job, first, n + 1)
    ensures var number := first + n;
            var ciphertext := Ciphertext(job, number, nonces(number));
            && SealedRecords(job, first, n + 1, nonces)
               == SealedRecords(job, first, n, nonces) + [SealedRecord(job, number, nonces(number))]
            && SealedBytes(job, first, n + 1, nonces) == SealedBytes(job, first, n, nonces) + ciphertext
            && SealedHashes(job, first, n + 1, nonces) == SealedHashes(job, first, n,
                nonces) + job.crypto.hash(ciphertext)
  {
    hide SealedRecord, Ciphertext, ChunkCount;
  }

  /** The body a worker sends for a part. */
  function SealedBody(job: FileJob, part: nat, nonces: nat -> Nonce): Bytes
    requires Supported(|job.content|) && 1 <= part <= PartCount(|job.content|)
  {
    WindowWithin(|job.content|, part);
    SealedBytes(job, WindowFirst(|job.content|, part), WindowLength(|job.content|, part), nonces)
  }

  /** The result a worker keeps of a part it sealed, once storage answered with the etag. */
  function SealedPart(job: FileJob, part: nat, nonces: nat -> Nonce, etag: string): PartResult
    requires Supported(|job.content|) && 1 <= part <= PartCount(|job.content|)
  {
    WindowWithin(|job.content|, part);
    var first, n := WindowFirst(|job.content|, part), WindowLength(|job.content|, part);
    PartResult(MakePartPlan(part, CreatePlan(|job.content|)), SealedRecords(job, first, n, nonces),
               Base64.Encode(job.crypto.hash(SealedBody(job, part, nonces))), etag, SealedHashes(job, first, n, nonces))
  }

  /** What a worker sends and keeps of a part describes that part. */
  lemma SealedPartDescribed(job: FileJob, part: nat, nonces: nat -> Nonce, etag: string)
    requires Sound(job.crypto) && Supported(|job.content|) && 1 <= part <= PartCount(|job.content|)
    ensures PartDescribed(job, part, SealedPart(job, part, nonces, etag), SealedBody(job, part, nonces))
  {
    hide Describes, PieceHashes, Sound, SealedRecords, SealedBytes, SealedHashes, MakePartPlan, CreatePlan, ChunkCount,
      Base64.Encode;
    WindowWithin(|job.content|, part);
    SealedWindowDescribed(job, WindowFirst(|job.content|, part), WindowLength(|job.content|, part), nonces);
  }

  lemma DescribedNotEmpty(job: FileJob, first: nat, chunks: seq<ChunkRecord>, body: Bytes)
    requires first >= 1 && chunks != [] && Describes(job, first, chunks, body)
    ensures body != []
  {
  }

  /** The reader's chunk loop over one window of an exact plan. */
  method SealWindow(job: FileJob, first: nat, chunkCount: nat, nonces: nat -> Nonce)
    returns (chunks: seq<ChunkRecord>, body: Bytes, combined: Bytes)
    requires Supported(|job.content|)
    requires InWindow(job, first, chunkCount) && chunkCount >= 1
    ensures chunks == SealedRecords(job, first, chunkCount, nonces)
    ensures body == SealedBytes(job, first, chunkCount, nonces)
    ensures combined == SealedHashes(job, first, chunkCount, nonces)
  {
    hide Base64.Encode, CastInt, CheckWindow, ChunkCount, Wrap64, ChunkStart, Chunk, SealedRecords, SealedBytes,
      SealedHashes;
    SealedNothing(job, first, nonces);
    var size := |job.content|;
    WindowOpens(size, first, chunkCount);
    var reader := new ChunkReader(job, CHUNK_SIZE, ChunkCount(size), first, chunkCount);
    body, chunks, combined := [], [], [];
    while reader.HasNextChunk()
      invariant first - 1 <= reader.nextChunkIndex <= reader.endChunkIndex == first - 1 + chunkCount
      invariant reader.position == ChunkStart(size, reader.nextChunkIndex + 1)
      invariant chunks == SealedRecords(job, first, reader.nextChunkIndex - (first - 1), nonces)
      invariant body == SealedBytes(job, first, reader.nextChunkIndex - (first - 1), nonces)
      invariant combined == SealedHashes(job, first, reader.nextChunkIndex - (first - 1), nonces)
      decreases reader.endChunkIndex - reader.nextChunkIndex
    {
      var number := reader.nextChunkIndex + 1;
      ChunksTileTheContent(job.content, number);
      ChunkIsRead(job.content, number);
      SealedOneMore(job, first, number - first, nonces);
      var sealed := reader.NextEncryptedChunk(nonces(number));
      var ciphertext := sealed.value.ciphertext;
      var pieceHash := job.crypto.hash(ciphertext);
      combined := combined + pieceHash;
      body := body + ciphertext;
      chunks := chunks + [ChunkRecord(sealed.value.number, sealed.value.plainSize, |ciphertext|,
          Base64.Encode(pieceHash))];
    }
  }

  lemma WindowOpens(size: nat, first: nat, chunkCount: nat)
    requires Supported(size)
    requires 1 <= first && 1 <= chunkCount && first - 1 + chunkCount <= ChunkCount(size)
    ensures CheckWindow(CHUNK_SIZE, ChunkCount(size), first, chunkCount) == None
    ensures Wrap64(first - 1 + chunkCount) == first - 1 + chunkCount
    ensures Wrap64((first - 1) * CHUNK_SIZE) == ChunkStart(size, first)
  {
  }

  lemma SealedByCipher(job: FileJob, number: nat, nonce: Nonce)
    requires Sound(job.crypto)
    requires 1 <= number <= ChunkCount(|job.content|)
    ensures Sealed(job, number, SealedRecord(job, number, nonce), Ciphertext(job, number, nonce))
  {
  }

  /** What the reader takes at a chunk's start is that chunk. */
  lemma ChunkIsRead(content: Bytes, number: nat)
    requires 1 <= number <= ChunkCount(|content|)
    ensures var start := ChunkStart(|content|, number);
            start < |content| && content[start..Min(start + CHUNK_SIZE, |content|)] == Chunk(content, number)
  {
  }

  /**
   * The work of one upload worker on one claimed part, up to the PUT: open the
   * window, seal every chunk, hash and concatenate. An empty file fails here.
   */
  method PreparePart(job: FileJob, partNumber: nat, nonces: nat -> Nonce) returns (r: Result<(PartResult, Bytes)>)
    requires Sound(job.crypto)
    requires |job.content| <= MAX_SIZE
    requires 1 <= partNumber <= CreatePlan(|job.content|).uploadPartCount
    ensures r.Ok? <==> |job.content| >= 1
    ensures r.Ok? ==> PartCount(|job.content|) == CreatePlan(|job.content|).uploadPartCount
    ensures r.Ok? ==>
              && r.value.0 == SealedPart(job, partNumber, nonces, "")
              && r.value.1 == SealedBody(job, partNumber, nonces)
              && PartDescribed(job, partNumber, r.value.0, r.value.1)
  {
    var size := |job.content|;
    var plan := CreatePlan(size);
    var part := MakePartPlan(partNumber, plan);
    var chunkCount := PartChunkCount(part, plan);
    if CheckWindow(plan.fileChunkSize, plan.totalChunks, part.firstChunkNumber, chunkCount) != None {
      WindowsAcceptedIffNotEmpty(size);
      return Err("chunk window refused");
    }
    if size == 0 {
      EmptyFileWindow();
      assert false;
    }
    PlanIsExact(size);
    PartIsExact(size, partNumber);
    WindowsTileTheChunks(size);
    WindowWithin(size, partNumber);
    hide CreatePlan, MakePartPlan, PartChunkCount, CheckWindow, SealedRecords, SealedBytes, SealedHashes, Describes,
      PieceHashes, Sound, ChunkCount, Base64.Encode;
    var chunks, body, combined := SealWindow(job, part.firstChunkNumber, chunkCount, nonces);
    SealedPartDescribed(job, partNumber, nonces, "");
    DescribedNotEmpty(job, part.firstChunkNumber, chunks, body);
    if body == [] {
      return Err("upload part had no encrypted chunk payload");
    }
    var uploadHash := Base64.Encode(job.crypto.hash(body));
    r := Ok((PartResult(part, chunks, uploadHash, "", combined), body));
  }

  lemma WindowWithin(size: nat, part: nat)
    requires Supported(size) && 1 <= part <= PartCount(size)
    ensures WindowLength(size, part) >= 1
    ensures WindowFirst(size, part) - 1 + WindowLength(size, part) <= ChunkCount(size)
  {
  }

  lemma EmptyFileWindow()
    ensures var plan := CreatePlan(0);
            var part := MakePartPlan(1, plan);
            plan.uploadPartCount == 1
            && CheckWindow(plan.fileChunkSize, plan.totalChunks, part.firstChunkNumber,
                PartChunkCount(part, plan)) != None
  {
    assert Wrap64(0 + CHUNK_SIZE - 1) == 4194303 && Wrap64(1) == 1 && Wrap64(CHUNK_SIZE) == CHUNK_SIZE;
    assert CreatePlan(0) == UploadPlan(0, CHUNK_SIZE, 1, CHUNK_SIZE, 1, 1);
    assert MakePartPlan(1, CreatePlan(0)) == PartPlan(1, 0, 0, 1);
    assert Wrap64(0) == 0;
  }

  // ---------------------------------------------------------------- manifest assembly

  function ChunkLists(parts: seq<PartResult>): seq<seq<ChunkRecord>>
  {
    seq(|parts|, i requires 0 <= i < |parts| => parts[i].chunks)
  }

  function HashLists(parts: seq<PartResult>): seq<Bytes>
  {
    seq(|parts|, i requires 0 <= i < |parts| => parts[i].combinedHashes)
  }

  /** The two loops of the finalizer: chunk records in part order, hashes alongside. */
  method AssembleManifest(parts: seq<PartResult>) returns (manifest: seq<ChunkRecord>, combined: Bytes)
    ensures manifest == Flatten(ChunkLists(parts))
    ensures combined == Flatten(HashLists(parts))
  {
    manifest, combined := [], [];
    var i := 0;
    while i < |parts|
      invariant 0 <= i <= |parts|
      invariant manifest == Flatten(ChunkLists(parts[..i]))
      invariant combined == Flatten(HashLists(parts[..i]))
    {
      var j := 0;
      var before := manifest;
      while j < |parts[i].chunks|
        invariant 0 <= j <= |parts[i].chunks|
        invariant manifest == before + parts[i].chunks[..j]
      {
        manifest := manifest + [parts[i].chunks[j]];
        j := j + 1;
      }
      combined := combined + parts[i].combinedHashes;
      FlattenSnoc(ChunkLists(parts[..i]), parts[i].chunks);
      FlattenSnoc(HashLists(parts[..i]), parts[i].combinedHashes);
      assert ChunkLists(parts[..i + 1]) == ChunkLists(parts[..i]) + [parts[i].chunks];
      assert HashLists(parts[..i + 1]) == HashLists(parts[..i]) + [parts[i].combinedHashes];
      i := i + 1;
    }
    assert parts[..i] == parts;
  }

  /** Every slot holds its own part and every body is that part's bytes. */
  ghost predicate AllPartsDescribed(job: FileJob, parts: seq<PartResult>, bodies: seq<Bytes>)
  {
    && Supported(|job.content|)
    && |parts| == |bodies| == PartCount(|job.content|)
    && forall i | 0 <= i < |parts| :: PartDescribed(job, i + 1, parts[i], bodies[i])
  }

  lemma NothingDescribed(job: FileJob, first: nat)
    requires first >= 1
    ensures Describes(job, first, [], []) && PieceHashes(job.crypto.hash, [], []) == []
  {
  }

  lemma NothingFlattened(parts: seq<PartResult>, bodies: seq<Bytes>)
    ensures Flatten(ChunkLists(parts[..0])) == [] && Flatten(HashLists(parts[..0])) == [] && Flatten(bodies[..0]) == []
  {
    assert ChunkLists(parts[..0]) == [] && HashLists(parts[..0]) == [] && bodies[..0] == [];
  }

  lemma FlattenPrefix(parts: seq<PartResult>, bodies: seq<Bytes>, n: nat)
    requires n < |parts| == |bodies|
    ensures Flatten(ChunkLists(parts[..n + 1])) == Flatten(ChunkLists(parts[..n])) + parts[n].chunks
    ensures Flatten(HashLists(parts[..n + 1])) == Flatten(HashLists(parts[..n])) + parts[n].combinedHashes
    ensures Flatten(bodies[..n + 1]) == Flatten(bodies[..n]) + bodies[n]
  {
    hide Flatten;
    FlattenSnoc(ChunkLists(parts[..n]), parts[n].chunks);
    FlattenSnoc(HashLists(parts[..n]), parts[n].combinedHashes);
    FlattenSnoc(bodies[..n], bodies[n]);
    assert bodies[..n + 1] == bodies[..n] + [bodies[n]];
    assert ChunkLists(parts[..n + 1]) == ChunkLists(parts[..n]) + [parts[n].chunks];
    assert HashLists(parts[..n + 1]) == HashLists(parts[..n]) + [parts[n].combinedHashes];
  }

  lemma {:induction false} PartsDescribePrefix(job: FileJob, parts: seq<PartResult>, bodies: seq<Bytes>, n: nat)
    requires AllPartsDescribed(job, parts, bodies)
    requires n <= |parts|
    ensures var manifest := Flatten(ChunkLists(parts[..n]));
            && |manifest| == (if n == 0 then 0 else WindowFirst(|job.content|, n) + WindowLength(|job.content|, n) - 1)
            && Describes(job, 1, manifest, Flatten(bodies[..n]))
            && Flatten(HashLists(parts[..n])) == PieceHashes(job.crypto.hash, manifest, Flatten(bodies[..n]))
    decreases n
  {
    hide Describes, PieceHashes, MakePartPlan, CreatePlan, Base64.Encode, ChunkCount;
    hide Flatten, ChunkLists, HashLists;
    if n == 0 {
      NothingDescribed(job, 1);
      NothingFlattened(parts, bodies);
    } else {
      var size := |job.content|;
      PartsDescribePrefix(job, parts, bodies, n - 1);
      WindowsTileTheChunks(size);
      var m, b := Flatten(ChunkLists(parts[..n - 1])), Flatten(bodies[..n - 1]);
      var last := parts[n - 1];
      assert PartDescribed(job, n - 1 + 1, last, bodies[n - 1]);
      assert 1 + |m| == WindowFirst(size, n);
      DescribesConcat(job, 1, m, b, last.chunks, bodies[n - 1]);
      FlattenPrefix(parts, bodies, n - 1);
    }
  }

  /**
   * Storage concatenates the part bodies by number. If every part was left
   * described, the assembled manifest has one record per chunk, describes the
   * whole stored object, and the combined hash input is the hashes of exactly
   * the object's pieces.
   */
  lemma ManifestDescribesObject(job: FileJob, parts: seq<PartResult>, bodies: seq<Bytes>)
    requires AllPartsDescribed(job, parts, bodies)
    ensures var manifest := Flatten(ChunkLists(parts));
            && |manifest| == ChunkCount(|job.content|)
            && Describes(job, 1, manifest, Flatten(bodies))
            && Flatten(HashLists(parts)) == PieceHashes(job.crypto.hash, manifest, Flatten(bodies))
  {
    PlanIsExact(|job.content|);
    WindowsTileTheChunks(|job.content|);
    PartsDescribePrefix(job, parts, bodies, |parts|);
    assert parts[..|parts|] == parts && bodies[..|bodies|] == bodies;
  }
}
