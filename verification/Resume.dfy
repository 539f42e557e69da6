/**
 * Crash-safe resumption of one path's upload: the session row and part rows
 * that survive a crash, the server's sessions, and the volatile attempt.
 *
 * A run is any sequence of steps: calls with changing file contents, every
 * step of every upload worker, each database statement on its own, lost
 * answers, 404/409 resets, other errors, and crashes between any two of them.
 */
module Resume {
  import opened Basics
  import opened Partition
  import opened ChunkPipeline
  import opened PartClaiming
  import Base64
  import Download
  import RoundTrip

  // ---------------------------------------------------------------- part records

  /** A row of upload_resume_parts; the combined hashes are stored as Base64 text. */
  datatype PartRecord = PartRecord(partNumber: int, etag: string, uploadHash: string,
                                   chunks: seq<ChunkRecord>, combinedHashes: string)

  function MakeRecord(part: PartResult): PartRecord
  {
    PartRecord(CastInt(part.plan.partNumber), part.etag, part.uploadHash, part.chunks,
        Base64.Encode(part.combinedHashes))
  }

  function ReadRecord(record: PartRecord, plan: UploadPlan): Result<PartResult>
    requires plan.fileChunkSize > 0
  {
    var hashes := Base64.Decode(record.combinedHashes);
    if hashes.Err? then Err(hashes.message)
    else if record.partNumber < 0 then Err("completed part number exceeds upload plan")
    else Ok(PartResult(MakePartPlan(record.partNumber, plan), record.chunks, record.uploadHash, record.etag,
        hashes.value))
  }

  /** A part record reads back to the part it was made from. */
  lemma RecordRoundTrip(part: PartResult, plan: UploadPlan)
    requires plan.fileChunkSize > 0
    requires part.plan.partNumber <= INT_MAX
    requires part.plan == MakePartPlan(part.plan.partNumber, plan)
    ensures ReadRecord(MakeRecord(part), plan) == Ok(part)
  {
    Base64.RoundTripPlain(part.combinedHashes);
    hide MakePartPlan, Base64.Encode, Base64.Decode;
  }

  // ---------------------------------------------------------------- world

  datatype Env = Env(crypto: Crypto, masterKey: Key, contentHash: Bytes -> string, serverCap: int)

  ghost predicate ValidEnv(env: Env)
  {
    && Sound(env.crypto)
    && forall a, b :: env.contentHash(a) == env.contentHash(b) ==> a == b
  }

  /** One call of uploadFile: the bytes at the path and what the entry records of them. */
  datatype Request = Request(content: Bytes, contentHash: Option<string>, mtime: Option<string>,
      folderId: Option<string>)

  datatype SessionRow = SessionRow(
    sessionId: string, localSize: int, localMtime: Option<string>, localHash: Option<string>, folderId: Option<string>,
    vaultId: string, fileId: string, multipart: bool,
    fileChunkSize: int, totalChunks: int, uploadPartSize: int, uploadPartCount: int,
    keyBlob: string)

  /** What the server was told when it completed a session. */
  datatype Completion = Completion(slots: seq<PartResult>, storage: map<nat, Bytes>,
                                   registered: map<nat, Registration>, key: Key)

  /**
   * A server session; `job` is the binding fixed when the client opened it, and
   * `sentSince` is history: something was sent to it after its last completion.
   */
  datatype Session = Session(job: FileJob, multipart: bool, storage: map<nat, Bytes>,
                             registered: map<nat, Registration>,
                             completed: Option<Completion>, sentSince: bool)

  datatype Client =
    | Idle
    | Looking(request: Request, attempt: nat)
    | Opening(request: Request, attempt: nat)
    | Persisting(request: Request, attempt: nat, row: SessionRow)
    | Transferring(request: Request, attempt: nat, resumed: bool, sessionId: string, call: Call, pool: Pool)
    | DeletingParts(sessionId: string, after: Client)
    | DeletingSession(sessionId: string, after: Client)

  /** What a call that returns hands to its caller, with the bytes it was called for (history). */
  datatype Returned = Returned(content: Bytes, sessionId: string, vaultId: string, fileId: string)

  datatype World = World(
    row: Option<SessionRow>,
    parts: map<(string, int), PartRecord>,
    server: map<string, Session>,
    client: Client,
    returned: seq<Returned>)

  datatype Step =
    | Begin(request: Request)
    | Lookup
    | DeletePartRows
    | DeleteSessionRow
    | Open(sessionId: string, vaultId: string, fileId: string, multipart: bool, key: Key, nonce: Nonce)
    | Persist
    | PoolStep(step: PartClaiming.Step)
    | Complete
    | CompleteUnanswered               // the server completed, the client sees an error
    | HttpFailure(status: int)         // a request of the attempt is answered with an error status
    | Fail                             // any other error
    | Crash

  function SessionMatches(row: SessionRow, request: Request, plan: UploadPlan): bool
  {
    if row.localSize != |request.content| then false
    else if row.folderId != request.folderId then false
    else if row.fileChunkSize != plan.fileChunkSize || row.totalChunks != CastInt(plan.totalChunks)
         || row.uploadPartSize != plan.uploadPartSize || row.uploadPartCount != CastInt(plan.uploadPartCount) then false
    else if row.localHash.Some? && request.contentHash.Some? then row.localHash == request.contentHash
    else row.localMtime == request.mtime
  }

  const BLANK: PartResult := PartResult(PartPlan(0, 0, 0, 0), [], "", "", [])

  /** The part rows of a session can all be read into slots of the plan. */
  predicate RowsReadable(parts: map<(string, int), PartRecord>, sid: string, plan: UploadPlan)
    requires plan.fileChunkSize > 0
  {
    forall key | key in parts && key.0 == sid ::
      1 <= key.1 <= plan.uploadPartCount && parts[key].partNumber == key.1 && ReadRecord(parts[key], plan).Ok?
  }

  /** The result slots an attempt starts from. */
  function ResumedSlots(parts: map<(string, int), PartRecord>, sid: string, plan: UploadPlan): seq<PartResult>
    requires plan.fileChunkSize > 0 && RowsReadable(parts, sid, plan)
  {
    seq(plan.uploadPartCount, i requires 0 <= i < plan.uploadPartCount =>
      if (sid, i + 1) in parts then ReadRecord(parts[(sid, i + 1)], plan).value else BLANK)
  }

  function OpenKey(env: Env, row: SessionRow): Option<Key>
  {
    var blob := Base64.Decode(row.keyBlob);
    if blob.Err? then None else env.crypto.decrypt(env.masterKey, ResumeFileKeyAad(row.sessionId), blob.value)
  }

  function Workers(env: Env, plan: UploadPlan): nat { ResolvePartConcurrency(plan.uploadPartCount, env.serverCap) }

  /** Enter the transfer of a session with the given slots. */
  function Transfer(env: Env, w: World, request: Request, attempt: nat, resumed: bool, row: SessionRow, key: Key,
      slots: seq<PartResult>): Client
    requires row.sessionId in w.server
  {
    var job := FileJob(env.crypto, key, row.vaultId, row.fileId, request.content);
    var call := Call(job, row.multipart, slots, w.server[row.sessionId].storage);
    Transferring(request, attempt, resumed, row.sessionId, call,
        Start(call, Workers(env, CreatePlan(|request.content|))))
  }

  predicate ShouldReset(status: int) { status == 404 || status == 409 }

  /** The attempt's error path for statuses that invalidate a resumed session. */
  function AfterReset(w: World): Client
    requires w.client.Transferring?
  {
    if w.client.attempt == 0 && w.client.resumed then
      if w.row.Some? then DeletingParts(w.row.value.sessionId, Looking(w.client.request, 1))
      else Looking(w.client.request, 1)
    else Idle
  }

  ghost function Next(env: Env, w: World, step: Step): World
  {
    match step
    case Begin(request) =>
      if w.client.Idle? && Supported(|request.content|) then w.(client := Looking(request, 0)) else w
    case Lookup =>
      if !w.client.Looking? then w
      else
        var request, attempt := w.client.request, w.client.attempt;
        var plan := CreatePlan(|request.content|);
        if w.row.None? then w.(client := Opening(request, attempt))
        else if !SessionMatches(w.row.value, request, plan) then
          w.(client := DeletingParts(w.row.value.sessionId, Opening(request, attempt)))
        else
          var row := w.row.value;
          var key := OpenKey(env, row);
          if key.None? || row.sessionId !in w.server || !RowsReadable(w.parts, row.sessionId, plan)
          then w.(client := Idle)
          else w.(client := Transfer(env, w, request, attempt, true, row, key.value,
                                     ResumedSlots(w.parts, row.sessionId, plan)))
    case DeletePartRows =>
      if !w.client.DeletingParts? then w
      else w.(parts := map key | key in w.parts && key.0 != w.client.sessionId :: w.parts[key],
              client := DeletingSession(w.client.sessionId, w.client.after))
    case DeleteSessionRow =>
      if !w.client.DeletingSession? then w
      else w.(row := if w.row.Some? && w.row.value.sessionId == w.client.sessionId then None else w.row,
              client := w.client.after)
    case Open(sid, vaultId, fileId, multipart, key, nonce) =>
      if CanOpen(w, sid, multipart) then AfterOpen(env, w, sid, vaultId, fileId, multipart, key, nonce) else w
    case Persist =>
      if !w.client.Persisting? || w.client.row.sessionId !in w.server then w
      else if w.row.Some? then w.(client := DeletingParts(w.row.value.sessionId, w.client))
      else
        var row := w.client.row;
        var blank := seq(CreatePlan(|w.client.request.content|).uploadPartCount, i => BLANK);
        w.(row := Some(row),
           client := Transfer(env, w, w.client.request, w.client.attempt, false, row, w.server[row.sessionId].job.key,
               blank))
    case PoolStep(step) =>
      if InTransfer(w) then AfterPoolStep(w, step) else w
    case Complete =>
      if !CanComplete(w) then w
      else AfterComplete(w, true)
    case CompleteUnanswered =>
      if !CanComplete(w) then w else AfterComplete(w, false)
    case HttpFailure(status) =>
      if !InTransfer(w) then w
      else if ShouldReset(status) then w.(client := AfterReset(w))
      else w.(client := Idle)
    case Fail =>
      w.(client := Idle)
    case Crash =>
      w.(client := Idle)
  }

  /** The server opens a session with a new id; without a multipart id only for a one-chunk file. */
  predicate CanOpen(w: World, sid: string, multipart: bool)
  {
    w.client.Opening? && sid !in w.server
    && (multipart || CreatePlan(|w.client.request.content|).totalChunks <= 1)
  }

  /** The session the server opens, and the row the client is about to write for it, with the file key sealed. */
  function AfterOpen(env: Env, w: World, sid: string, vaultId: string, fileId: string, multipart: bool, key: Key,
      nonce: Nonce): World
    requires CanOpen(w, sid, multipart)
  {
    var request := w.client.request;
    var plan := CreatePlan(|request.content|);
    var blob := Base64.Encode(env.crypto.encrypt(env.masterKey, ResumeFileKeyAad(sid), nonce, key));
    var row := SessionRow(sid, |request.content|, request.mtime, request.contentHash, request.folderId,
      vaultId, fileId, multipart, plan.fileChunkSize, CastInt(plan.totalChunks), plan.uploadPartSize,
      CastInt(plan.uploadPartCount), blob);
    var job := FileJob(env.crypto, key, vaultId, fileId, request.content);
    w.(server := w.server[sid := Session(job, multipart, map[], map[], None, false)],
       client := Persisting(request, w.client.attempt, row))
  }

  /** The server completes the session; the client returns and cleans up, if it hears of it. */
  ghost function AfterComplete(w: World, answered: bool): World
    requires CanComplete(w)
  {
    var c, job := w.client, w.client.call.job;
    if answered then
      w.(server := Completed(w), client := DeletingParts(c.sessionId, Idle),
         returned := w.returned + [Returned(c.request.content, c.sessionId, job.vaultId, job.fileId)])
    else w.(server := Completed(w), client := Idle)
  }

  /** A worker's step; a registration also writes the part row. */
  ghost function AfterPoolStep(w: World, step: PartClaiming.Step): World
    requires InTransfer(w)
  {
    var c := w.client;
    var pool := PartClaiming.Next(c.call, c.pool, step);
    var session := w.server[c.sessionId];
    w.(server := w.server[c.sessionId := session.(
         storage := pool.storage, registered := session.registered + pool.registered,
         sentSince := session.sentSince || pool.puts != c.pool.puts)],
       parts := if Registers(c.pool, step)
                then
                  var me := c.pool.workers[step.w];
                  w.parts[(c.sessionId, me.part as int) := MakeRecord(me.result)]
                else w.parts,
       client := c.(pool := pool))
  }

  ghost predicate InTransfer(w: World)
  {
    w.client.Transferring? && w.client.sessionId in w.server && ValidCall(w.client.call)
  }

  /** The step is a worker registering the part it has just stored. */
  predicate Registers(pool: Pool, step: PartClaiming.Step)
  {
    step.Register? && step.w < |pool.workers| && pool.workers[step.w].Stored?
  }

  /** The uploader returned normally, so the finalizer runs. */
  ghost predicate CanComplete(w: World)
  {
    InTransfer(w) && Joined(w.client.pool) && w.client.pool.firstError.None?
  }

  ghost function Completed(w: World): map<string, Session>
    requires CanComplete(w)
  {
    var c := w.client;
    var session := w.server[c.sessionId];
    w.server[c.sessionId := session.(
      completed := Some(Completion(c.pool.slots, session.storage, session.registered, c.call.job.key)),
      sentSince := false)]
  }

  ghost function Run(env: Env, w: World, steps: seq<Step>): World
    decreases |steps|
  {
    if steps == [] then w else Run(env, Next(env, w, steps[0]), steps[1..])
  }

  const EMPTY: World := World(None, map[], map[], Idle, [])

  // ---------------------------------------------------------------- invariant

  /**
   * The completion is whole: one key, one content. Every part was stored (and,
   * when multipart, registered with the hash and etag of its slot), and every slot of the manifest describes the
   * stored part as a slice of the session's content under the session's key.
   */
  ghost predicate WholeCompletion(job: FileJob, multipart: bool, done: Completion)
  {
    && Supported(|job.content|)
    && done.key == job.key
    && |done.slots| == PartCount(|job.content|)
    && forall n | 1 <= n <= |done.slots| ::
         && n in done.storage
         && PartDescribed(job, n, done.slots[n - 1], done.storage[n])
         && (multipart ==>
               n in done.registered
               && done.registered[n] == Registration(done.slots[n - 1].uploadHash, done.slots[n - 1].etag))
  }

  /** A part row with an etag stands for a stored and registered part. */
  ghost predicate RecordInv(session: Session, n: int, record: PartRecord)
    requires Supported(|session.job.content|)
  {
    var plan := CreatePlan(|session.job.content|);
    && 1 <= n <= PartCount(|session.job.content|)
    && record.partNumber == n
    && ReadRecord(record, plan).Ok?
    && (record.etag != "" ==>
          && n in session.storage && n in session.registered
          && session.registered[n] == Registration(record.uploadHash, record.etag)
          && PartDescribed(session.job, n, ReadRecord(record, plan).value, session.storage[n]))
  }

  ghost predicate SessionInv(env: Env, session: Session)
  {
    && Supported(|session.job.content|)
    && session.job.crypto == env.crypto
    && (session.completed.Some? ==> WholeCompletion(session.job, session.multipart, session.completed.value))
    && (session.completed.Some? && !session.sentSince ==> session.storage == session.completed.value.storage)
  }

  /** The session row can only lead back to the content, key and identity the session was opened with. */
  ghost predicate RowInv(env: Env, row: SessionRow, job: FileJob, multipart: bool)
  {
    && row.localHash == Some(env.contentHash(job.content))
    && row.vaultId == job.vaultId && row.fileId == job.fileId
    && row.multipart == multipart
    && OpenKey(env, row) == Some(job.key)
  }

  ghost predicate RowOf(env: Env, row: SessionRow, server: map<string, Session>)
  {
    row.sessionId in server && RowInv(env, row, server[row.sessionId].job, server[row.sessionId].multipart)
  }

  predicate Hashed(env: Env, request: Request)
  {
    Supported(|request.content|) && request.contentHash == Some(env.contentHash(request.content))
  }

  predicate Extends(a: map<nat, Registration>, b: map<nat, Registration>)
  {
    forall n | n in a :: n in b && b[n] == a[n]
  }

  /** The part of a row was registered, in this attempt or an earlier one, with the row's hash and etag. */
  predicate RecordedIn(pool: Pool, n: nat, record: PartRecord)
  {
    n in pool.registered && pool.registered[n] == Registration(record.uploadHash, record.etag)
  }

  /** Rows of the session being transferred: recorded parts are the resumed ones or were sent in this attempt. */
  ghost predicate TransferInv(env: Env, w: World)
    requires w.client.Transferring?
  {
    var c := w.client;
    && Hashed(env, c.request)
    && c.sessionId in w.server
    && ValidCall(c.call) && Inv(c.call, c.pool)
    && |c.pool.workers| >= 1
    && c.call.job == w.server[c.sessionId].job
    && c.call.job.content == c.request.content
    && c.call.multipart == w.server[c.sessionId].multipart
    && c.pool.storage == w.server[c.sessionId].storage
    && Extends(c.pool.registered, w.server[c.sessionId].registered)
    && w.row.Some? && w.row.value.sessionId == c.sessionId
    && (forall key | key in w.parts && key.0 == c.sessionId && w.parts[key].etag != "" ::
          key.1 >= 1 && RecordedIn(c.pool, key.1, w.parts[key]))
  }

  ghost predicate ClientInv(env: Env, w: World, client: Client)
    decreases client
  {
    match client
    case Idle => true
    case Looking(request, _) => Hashed(env, request)
    case Opening(request, _) => Hashed(env, request)
    case Persisting(request, _, row) =>
      && Hashed(env, request)
      && RowOf(env, row, w.server)
      && w.server[row.sessionId].job.content == request.content
      && w.server[row.sessionId].storage == map[]
      && (forall key | key in w.parts :: key.0 != row.sessionId)
    case Transferring(_, _, _, _, _, _) => true
    case DeletingParts(_, after) => !after.Transferring? && ClientInv(env, w, after)
    case DeletingSession(_, after) => !after.Transferring? && ClientInv(env, w, after)
  }

  /** A returned call stands for a completed session of its own content and identity. */
  ghost predicate ReturnedInv(server: map<string, Session>, r: Returned)
  {
    && r.sessionId in server && server[r.sessionId].completed.Some?
    && server[r.sessionId].job.content == r.content
    && server[r.sessionId].job.vaultId == r.vaultId && server[r.sessionId].job.fileId == r.fileId
  }

  ghost predicate WorldInv(env: Env, w: World)
  {
    && (forall i | 0 <= i < |w.returned| :: ReturnedInv(w.server, w.returned[i]))
    && (forall sid | sid in w.server :: SessionInv(env, w.server[sid]))
    && (forall key | key in w.parts :: key.0 in w.server && RecordInv(w.server[key.0], key.1, w.parts[key]))
    && (w.row.Some? ==> RowOf(env, w.row.value, w.server))
    && ClientInv(env, w, w.client)
    && (w.client.Transferring? ==> TransferInv(env, w))
  }

  // ---------------------------------------------------------------- every step keeps it

  lemma NextWorldInv(env: Env, w: World, step: Step)
    requires ValidEnv(env) && WorldInv(env, w)
    requires step.Begin? ==> Hashed(env, step.request)
    ensures WorldInv(env, Next(env, w, step))
  {
    hide RecordInv, SessionInv, RowInv, Hashed, TransferInv, SessionMatches, RowsReadable, Supported, CreatePlan,
      AfterOpen, AfterComplete, CanComplete, CanOpen, AfterPoolStep, ReturnedInv;
    match step
    case Begin(_) =>
    case Lookup => LookupInv(env, w);
    case DeletePartRows => DeletePartRowsInv(env, w);
    case DeleteSessionRow => DeleteSessionRowInv(env, w);
    case Open(_, _, _, _, _, _) => if CanOpen(w, step.sessionId, step.multipart) { OpenInv(env, w, step); }
    case Persist => PersistInv(env, w);
    case PoolStep(_) => PoolStepInv(env, w, step);
    case Complete => if CanComplete(w) { CompleteInv(env, w, true); }
    case CompleteUnanswered => if CanComplete(w) { CompleteInv(env, w, false); }
    case HttpFailure(status) => ResetInv(env, w, status);
    case Fail =>
    case Crash =>
  }

  lemma ResetInv(env: Env, w: World, status: int)
    requires WorldInv(env, w)
    ensures WorldInv(env, Next(env, w, HttpFailure(status)))
  {
    hide RecordInv, SessionInv, RowOf, Hashed;
    if InTransfer(w) {
      assert ClientInv(env, Next(env, w, HttpFailure(status)), Looking(w.client.request, 1));
    }
  }

  lemma DeletePartRowsInv(env: Env, w: World)
    requires WorldInv(env, w)
    ensures WorldInv(env, Next(env, w, DeletePartRows))
  {
    hide RecordInv, SessionInv, RowInv, Hashed, TransferInv;
    if w.client.DeletingParts? {
      FewerParts(env, w, Next(env, w, DeletePartRows), w.client.after);
    }
  }

  lemma DeleteSessionRowInv(env: Env, w: World)
    requires WorldInv(env, w)
    ensures WorldInv(env, Next(env, w, DeleteSessionRow))
  {
    hide RecordInv, SessionInv, RowInv, Hashed, TransferInv;
    if w.client.DeletingSession? {
      FewerParts(env, w, Next(env, w, DeleteSessionRow), w.client.after);
    }
  }

  /** What a client waits for does not depend on part rows being there. */
  lemma {:induction false} FewerParts(env: Env, w: World, w': World, client: Client)
    requires ClientInv(env, w, client)
    requires w'.server == w.server && w'.parts.Keys <= w.parts.Keys
    ensures ClientInv(env, w', client)
    decreases client
  {
    hide RowInv, Hashed;
    if client.DeletingParts? || client.DeletingSession? {
      FewerParts(env, w, w', client.after);
    }
  }

  /** A matching session row leads back to the very job the session was opened with. */
  lemma MatchingRowIsSameJob(env: Env, w: World, request: Request, row: SessionRow)
    requires ValidEnv(env) && Hashed(env, request)
    requires RowOf(env, row, w.server) && SessionInv(env, w.server[row.sessionId])
    requires SessionMatches(row, request, CreatePlan(|request.content|))
    ensures OpenKey(env, row).Some?
    ensures FileJob(env.crypto, OpenKey(env, row).value, row.vaultId, row.fileId, request.content)
         == w.server[row.sessionId].job
    ensures row.multipart == w.server[row.sessionId].multipart
  {
    hide OpenKey, CreatePlan, Supported, WholeCompletion;
    assert env.contentHash(request.content) == env.contentHash(w.server[row.sessionId].job.content);
  }

  lemma ResumedSlot(w: World, sid: string, plan: UploadPlan, n: nat)
    requires plan.fileChunkSize > 0 && RowsReadable(w.parts, sid, plan) && 1 <= n <= plan.uploadPartCount
    ensures var slot := ResumedSlots(w.parts, sid, plan)[n - 1];
            if (sid, n) in w.parts
            then
              && ReadRecord(w.parts[(sid, n)], plan) == Ok(slot)
              && slot.etag == w.parts[(sid, n)].etag && slot.uploadHash == w.parts[(sid, n)].uploadHash
            else slot.etag == ""
  {
    assert (sid, n) in w.parts ==> ReadRecord(w.parts[(sid, n)], plan).Ok?;
    hide Base64.Decode, MakePartPlan;
  }

  lemma RecordFacts(session: Session, n: int, record: PartRecord)
    requires Supported(|session.job.content|) && RecordInv(session, n, record)
    ensures 1 <= n <= PartCount(|session.job.content|)
    ensures var read := ReadRecord(record, CreatePlan(|session.job.content|));
            read.Ok? && (record.etag != "" ==>
              && n in session.storage && n in session.registered
              && session.registered[n] == Registration(record.uploadHash, record.etag)
              && PartDescribed(session.job, n, read.value, session.storage[n]))
  {
  }

  /** The server was told of every resumed part what its slot says. */
  ghost predicate ResumedRegistered(call: Call, session: Session)
  {
    forall n | 1 <= n <= |call.resumed| && IsResumed(call, n) ::
      n in session.registered && session.registered[n] == RegistrationOf(call.resumed[n - 1])
  }

  /** The slot of part `n` was read from the row. */
  predicate ResumedFrom(call: Call, n: int, record: PartRecord)
  {
    n >= 1 && IsResumed(call, n) && RegistrationOf(call.resumed[n - 1]) == Registration(record.uploadHash, record.etag)
  }

  /** Slots read back from the part rows make a valid call. */
  lemma ResumedCallIsValid(w: World, sid: string, call: Call)
    requires sid in w.server && call.job == w.server[sid].job && call.resumedStorage == w.server[sid].storage
    requires Sound(call.job.crypto) && Supported(|call.job.content|)
    requires forall key | key in w.parts && key.0 == sid :: RecordInv(w.server[sid], key.1, w.parts[key])
    requires RowsReadable(w.parts, sid, CreatePlan(|call.job.content|))
    requires call.resumed == ResumedSlots(w.parts, sid, CreatePlan(|call.job.content|))
    ensures ValidCall(call)
    ensures ResumedRegistered(call, w.server[sid])
    ensures forall key | key in w.parts && key.0 == sid && w.parts[key].etag != "" ::
              ResumedFrom(call, key.1, w.parts[key])
  {
    PlanIsExact(|call.job.content|);
    var plan := CreatePlan(|call.job.content|);
    hide PartDescribed, CreatePlan, PartCount, ReadRecord, RowsReadable, RecordInv, Sound;
    assert |call.resumed| == plan.uploadPartCount;
    hide ResumedSlots, Supported;
    forall n | 1 <= n <= |call.resumed| && call.resumed[n - 1].etag != ""
      ensures n in call.resumedStorage && PartDescribed(call.job, n, call.resumed[n - 1], call.resumedStorage[n])
      ensures n in w.server[sid].registered && w.server[sid].registered[n] == RegistrationOf(call.resumed[n - 1])
    {
      ResumedSlot(w, sid, plan, n);
      var key := (sid, n as int);
      RecordFacts(w.server[sid], key.1, w.parts[key]);
    }
    forall key | key in w.parts && key.0 == sid && w.parts[key].etag != ""
      ensures ResumedFrom(call, key.1, w.parts[key])
    {
      RecordedIsResumed(w, sid, call, key);
    }
  }

  lemma RecordedIsResumed(w: World, sid: string, call: Call, key: (string, int))
    requires sid in w.server && call.job == w.server[sid].job
    requires Supported(|call.job.content|)
    requires RowsReadable(w.parts, sid, CreatePlan(|call.job.content|))
    requires call.resumed == ResumedSlots(w.parts, sid, CreatePlan(|call.job.content|))
    requires key in w.parts && key.0 == sid && w.parts[key].etag != "" && RecordInv(w.server[sid], key.1, w.parts[key])
    ensures ResumedFrom(call, key.1, w.parts[key])
  {
    PlanIsExact(|call.job.content|);
    hide PartDescribed, CreatePlan, PartCount, ReadRecord, RowsReadable, RecordInv, Supported;
    RecordFacts(w.server[sid], key.1, w.parts[key]);
    ResumedSlot(w, sid, CreatePlan(|call.job.content|), key.1);
    assert key == (sid, key.1);
  }

  /** A call with valid slots starts a transfer that satisfies the invariant. */
  lemma StartedTransfer(env: Env, w: World, c: Client, call: Call)
    requires c.Transferring? && Hashed(env, c.request) && c.sessionId in w.server
    requires c.call == call && ValidCall(call)
    requires call.job == w.server[c.sessionId].job && call.multipart == w.server[c.sessionId].multipart
    requires call.job.content == c.request.content
    requires call.resumedStorage == w.server[c.sessionId].storage
    requires c.pool == Start(call, Workers(env, CreatePlan(|c.request.content|)))
    requires ResumedRegistered(call, w.server[c.sessionId])
    requires forall key | key in w.parts && key.0 == c.sessionId && w.parts[key].etag != "" ::
               ResumedFrom(call, key.1, w.parts[key])
    requires w.row.Some? && w.row.value.sessionId == c.sessionId
    ensures TransferInv(env, w.(client := c))
  {
    PlanIsExact(|c.request.content|);
    ConcurrencyBounds(|c.request.content|, env.serverCap);
    StartInv(call, Workers(env, CreatePlan(|c.request.content|)));
    hide PartDescribed, CreatePlan, PartCount, ResolvePartConcurrency, Inv;
    assert Extends(c.pool.registered, w.server[c.sessionId].registered);
  }

  lemma LookupInv(env: Env, w: World)
    requires ValidEnv(env) && WorldInv(env, w)
    ensures WorldInv(env, Next(env, w, Lookup))
  {
    hide SessionInv, RecordInv, RowOf, SessionMatches, OpenKey, TransferInv, Start, ResumedSlots, RowsReadable,
      CreatePlan, Hashed, ValidCall, ValidEnv;
    var w' := Next(env, w, Lookup);
    if w.client.Looking? && w'.client.Transferring? {
      ResumedTransfer(env, w);
      assert w' == w.(client := w'.client);
    } else if w.client.Looking? {
      assert ClientInv(env, w', Opening(w.client.request, w.client.attempt));
    }
  }

  lemma ResumedTransfer(env: Env, w: World)
    requires ValidEnv(env) && WorldInv(env, w) && w.client.Looking?
    requires Next(env, w, Lookup).client.Transferring?
    ensures TransferInv(env, w.(client := Next(env, w, Lookup).client))
  {
    var c := Next(env, w, Lookup).client;
    hide SessionMatches, OpenKey, TransferInv, Start, ResumedSlots, RowsReadable, RowOf, RecordInv, WholeCompletion,
      Hashed, CreatePlan, ValidCall;
    var row := w.row.value;
    assert SessionInv(env, w.server[row.sessionId]);
    MatchingRowIsSameJob(env, w, w.client.request, row);
    ResumedCallIsValid(w, row.sessionId, c.call);
    StartedTransfer(env, w, c, c.call);
  }

  lemma OpenInv(env: Env, w: World, step: Step)
    requires ValidEnv(env) && WorldInv(env, w) && step.Open? && CanOpen(w, step.sessionId, step.multipart)
    ensures WorldInv(env,
        AfterOpen(env, w, step.sessionId, step.vaultId, step.fileId, step.multipart, step.key, step.nonce))
  {
    var w' := AfterOpen(env, w, step.sessionId, step.vaultId, step.fileId, step.multipart, step.key, step.nonce);
    OpenedSession(env, w, step);
    hide AfterOpen, RecordInv, SessionInv, RowInv, ValidEnv, TransferInv, CreatePlan, Hashed;
    assert forall sid | sid in w.server :: w'.server[sid] == w.server[sid];
  }

  /** A new session beside the old ones, none of whose part rows belong to it. */
  lemma OpenedSession(env: Env, w: World, step: Step)
    requires ValidEnv(env) && WorldInv(env, w) && step.Open? && CanOpen(w, step.sessionId, step.multipart)
    ensures var w' := AfterOpen(env, w, step.sessionId, step.vaultId, step.fileId, step.multipart, step.key,
        step.nonce);
            && w'.row == w.row && w'.parts == w.parts && w'.returned == w.returned
            && w'.server.Keys == w.server.Keys + {step.sessionId}
            && (forall sid | sid in w.server :: w'.server[sid] == w.server[sid])
            && SessionInv(env, w'.server[step.sessionId]) && ClientInv(env, w', w'.client) && !w'.client.Transferring?
  {
    OpenedRow(env, step.key, step.nonce, step.sessionId);
    hide RecordInv, CreatePlan, Base64.Encode, Base64.Decode, WholeCompletion, ValidEnv, TransferInv, SessionMatches;
    var w' := AfterOpen(env, w, step.sessionId, step.vaultId, step.fileId, step.multipart, step.key, step.nonce);
    assert RowOf(env, w'.client.row, w'.server);
    assert forall key | key in w.parts :: key.0 in w.server;
  }

  /** The sealed file key of a session row opens to that key. */
  lemma OpenedRow(env: Env, key: Key, nonce: Nonce, sid: string)
    requires ValidEnv(env)
    ensures var blob := Base64.Decode(Base64.Encode(env.crypto.encrypt(env.masterKey, ResumeFileKeyAad(sid), nonce,
        key)));
            blob.Ok? && env.crypto.decrypt(env.masterKey, ResumeFileKeyAad(sid), blob.value) == Some(key)
  {
    Base64.RoundTripPlain(env.crypto.encrypt(env.masterKey, ResumeFileKeyAad(sid), nonce, key));
  }

  lemma PersistInv(env: Env, w: World)
    requires ValidEnv(env) && WorldInv(env, w)
    ensures WorldInv(env, Next(env, w, Persist))
  {
    hide SessionInv, RecordInv, TransferInv, Start, CreatePlan, ValidCall, RowInv;
    var w' := Next(env, w, Persist);
    if w.client.Persisting? && w.row.Some? {
      assert ClientInv(env, w', w.client);
    } else if w'.client.Transferring? && w.client.Persisting? {
      PersistedTransfer(env, w);
    }
  }

  lemma PersistedTransfer(env: Env, w: World)
    requires ValidEnv(env) && WorldInv(env, w) && w.client.Persisting? && w.row.None?
    ensures TransferInv(env, Next(env, w, Persist))
  {
    PlanIsExact(|w.client.request.content|);
    hide SessionMatches, OpenKey, TransferInv, Start, RecordInv, CreatePlan, PartCount, WholeCompletion, Sound;
    var w' := Next(env, w, Persist);
    assert SessionInv(env, w.server[w.client.row.sessionId]);
    assert ValidCall(w'.client.call);
    StartedTransfer(env, w', w'.client, w'.client.call);
    assert w' == w'.(client := w'.client);
  }

  lemma CompleteInv(env: Env, w: World, answered: bool)
    requires WorldInv(env, w) && CanComplete(w)
    ensures WorldInv(env, AfterComplete(w, answered))
  {
    var w', sid := AfterComplete(w, answered), w.client.sessionId;
    CompletedSession(env, w, answered);
    CompletedRecords(w, w', sid);
    CompletedReturns(w, w', sid);
    hide AfterComplete, CanComplete, SessionInv, RecordInv, RowInv, TransferInv, ReturnedInv, Supported;
    assert ClientInv(env, w', Idle);
  }

  /** The two worlds differ in one session, whose binding, storage and registrations are the same. */
  ghost predicate SameButCompleted(w: World, w': World, sid: string)
  {
    && sid in w.server && w'.server.Keys == w.server.Keys && w'.row == w.row && w'.parts == w.parts
    && (forall s | s in w.server && s != sid :: w'.server[s] == w.server[s])
    && w'.server[sid].job == w.server[sid].job && w'.server[sid].multipart == w.server[sid].multipart
    && w'.server[sid].storage == w.server[sid].storage && w'.server[sid].registered == w.server[sid].registered
    && w'.server[sid].completed.Some?
  }

  lemma CompletedRecords(w: World, w': World, sid: string)
    requires SameButCompleted(w, w', sid)
    requires forall key | key in w.parts ::
               key.0 in w.server && Supported(|w.server[key.0].job.content|)
                   && RecordInv(w.server[key.0], key.1, w.parts[key])
    ensures forall key | key in w'.parts :: key.0 in w'.server && RecordInv(w'.server[key.0], key.1, w'.parts[key])
  {
    hide RecordInv, Supported;
    forall key | key in w'.parts ensures key.0 in w'.server && RecordInv(w'.server[key.0], key.1, w'.parts[key]) {
      assert RecordInv(w.server[key.0], key.1, w.parts[key]);
      if key.0 == sid { SameRecord(w.server[sid], w'.server[sid], key.1, w.parts[key]); }
    }
  }

  lemma CompletedReturns(w: World, w': World, sid: string)
    requires SameButCompleted(w, w', sid)
    requires forall i | 0 <= i < |w.returned| :: ReturnedInv(w.server, w.returned[i])
    requires w.returned <= w'.returned && |w'.returned| <= |w.returned| + 1
    requires |w'.returned| > |w.returned| ==> ReturnedInv(w'.server, w'.returned[|w.returned|])
    ensures forall i | 0 <= i < |w'.returned| :: ReturnedInv(w'.server, w'.returned[i])
  {
    hide ReturnedInv;
    forall i | 0 <= i < |w'.returned| ensures ReturnedInv(w'.server, w'.returned[i]) {
      if i < |w.returned| {
        assert ReturnedInv(w.server, w.returned[i]);
        StillReturned(w.server, w'.server, sid, w.returned[i]);
      }
    }
  }

  lemma StillReturned(before: map<string, Session>, after: map<string, Session>, sid: string, r: Returned)
    requires ReturnedInv(before, r) && after.Keys == before.Keys && sid in after
    requires forall s | s in before && s != sid :: after[s] == before[s]
    requires after[sid].job == before[sid].job && after[sid].completed.Some?
    ensures ReturnedInv(after, r)
  {
  }

  lemma SameRecord(a: Session, b: Session, n: int, record: PartRecord)
    requires Supported(|a.job.content|) && a.job == b.job && a.storage == b.storage && a.registered == b.registered
    requires RecordInv(a, n, record)
    ensures RecordInv(b, n, record)
  {
    hide ReadRecord, PartDescribed, CreatePlan;
  }

  /** Completion changes the one session, and leaves its binding, storage and registrations alone. */
  lemma CompletedSession(env: Env, w: World, answered: bool)
    requires WorldInv(env, w) && CanComplete(w)
    ensures var w', sid := AfterComplete(w, answered), w.client.sessionId;
            && SameButCompleted(w, w', sid) && SessionInv(env, w'.server[sid])
            && (forall s | s in w.server :: Supported(|w.server[s].job.content|))
            && w'.client == (if answered then DeletingParts(sid, Idle) else Idle)
            && w.returned <= w'.returned && |w'.returned| <= |w.returned| + 1
            && (|w'.returned| > |w.returned| ==> ReturnedInv(w'.server, w'.returned[|w.returned|]))
  {
    CompletionIsWhole(env, w);
    hide WholeCompletion, RecordInv, Inv, ValidCall, RowOf, Supported, Joined;
    assert SessionInv(env, w.server[w.client.sessionId]);
    assert forall s | s in w.server :: SessionInv(env, w.server[s]);
  }

  lemma CompletionIsWhole(env: Env, w: World)
    requires WorldInv(env, w) && CanComplete(w)
    ensures var session := Completed(w)[w.client.sessionId];
            session.completed.Some? && WholeCompletion(session.job, session.multipart, session.completed.value)
  {
    var c := w.client;
    SettledWhenJoined(c.call, c.pool);
    hide PartDescribed, RecordInv, Inv, PartCount, CreatePlan;
    assert SessionInv(env, w.server[c.sessionId]);
    assert Extends(c.pool.registered, w.server[c.sessionId].registered);
  }

  // -------- one step of an upload worker

  /** A registered part is neither stored nor registered again in the same call. */
  lemma PoolStepEffect(call: Call, s: Pool, step: PartClaiming.Step, n: nat)
    requires ValidCall(call) && Inv(call, s) && 1 <= n <= |s.slots| && n in s.registered
    ensures var s' := PartClaiming.Next(call, s, step);
            && |s'.slots| == |s.slots|
            && (n in s.storage <==> n in s'.storage)
            && (n in s.storage ==> s'.storage[n] == s.storage[n])
            && n in s'.registered && s'.registered[n] == s.registered[n]
  {
    hide Effect, Moved, ValidCall, Inv, Enabled;
    if step.w < |s.workers| {
      var me := s.workers[step.w];
      if !Holds(me, n) {
        StepTouchesOwnPart(call, s, step, n);
      } else if Enabled(call, s, me, step) {
        HolderState(call, s, step.w, n);
        HolderKeeps(call, s, me, step, n);
      }
    }
  }

  lemma HolderState(call: Call, s: Pool, w: nat, n: nat)
    requires ValidCall(call) && Inv(call, s) && w < |s.workers| && Holds(s.workers[w], n) && n in s.registered
    ensures !s.workers[w].Working? && !s.workers[w].Stored?
  {
    assert WorkerInv(call, s, w);
    hide ValidCall, Sent, PartInv;
  }

  lemma HolderKeeps(call: Call, s: Pool, me: Worker, step: PartClaiming.Step, n: nat)
    requires ValidCall(call) && n in s.registered && Enabled(call, s, me, step)
    requires Holds(me, n) && !me.Working? && !me.Stored?
    ensures var s' := Effect(call, s, me, step);
            |s'.slots| == |s.slots| && s'.storage == s.storage && s'.registered == s.registered
  {
    hide ValidCall, PartCount, SealedBody;
  }

  /** A registering worker's record reads back to what storage holds for its part, with the etag storage answered. */
  lemma RegisteredRecord(session: Session, call: Call, s: Pool, step: PartClaiming.Step)
    requires ValidCall(call) && Inv(call, s) && Registers(s, step) && session.job == call.job
    requires session.storage == s.storage
    requires var me := s.workers[step.w];
             me.part in session.registered && session.registered[me.part] == RegistrationOf(me.result)
    ensures var me := s.workers[step.w];
            var record := MakeRecord(me.result);
            var read := ReadRecord(record, CreatePlan(|call.job.content|));
            && RecordInv(session, me.part, record)
            && 1 <= me.part && me.part in s.answered
            && read.Ok? && read.value.etag == record.etag == s.answered[me.part]
  {
    var me := s.workers[step.w];
    assert WorkerInv(call, s, step.w);
    assert PartDescribed(call.job, me.part, me.result, s.storage[me.part]);
    PlanIsExact(|call.job.content|);
    RecordRoundTrip(me.result, CreatePlan(|call.job.content|));
    hide PartDescribed, WorkerInv, Inv;
  }

  lemma RegisterEffect(call: Call, s: Pool, step: PartClaiming.Step)
    requires ValidCall(call) && Registers(s, step)
    ensures var me, s' := s.workers[step.w], PartClaiming.Next(call, s, step);
            && s'.storage == s.storage && s'.answered == s.answered
            && me.part in s'.registered && s'.registered[me.part] == RegistrationOf(me.result)
  {
    hide ValidCall;
  }

  lemma PoolStepRecord(env: Env, w: World, step: PartClaiming.Step, key: (string, int))
    requires WorldInv(env, w) && InTransfer(w)
    requires key in AfterPoolStep(w, step).parts
    ensures var w' := AfterPoolStep(w, step);
            key.0 in w'.server && Supported(|w'.server[key.0].job.content|)
                && RecordInv(w'.server[key.0], key.1, w'.parts[key])
            && (key.0 == w.client.sessionId && w'.parts[key].etag != "" ==>
                  key.1 >= 1 && RecordedIn(w'.client.pool, key.1, w'.parts[key]))
  {
    hide PartClaiming.Next, Inv, RowOf, MakeRecord, ReadRecord, WholeCompletion, Supported, ValidCall, PartDescribed,
      CreatePlan, PartCount, IsResumed;
    var c, w' := w.client, AfterPoolStep(w, step);
    assert SessionInv(env, w.server[c.sessionId]);
    if Registers(c.pool, step) && key == (c.sessionId, c.pool.workers[step.w].part as int) {
      RegisterEffect(c.call, c.pool, step);
      RegisteredRecord(w'.server[c.sessionId], c.call, c.pool, step);
      RecordColumns(c.pool.workers[step.w].result);
    } else {
      assert key in w.parts && w'.parts[key] == w.parts[key];
      assert RecordInv(w.server[key.0], key.1, w.parts[key]);
      if key.0 == c.sessionId && w.parts[key].etag != "" {
        SlotCount(c.call, c.pool);
        PoolStepEffect(c.call, c.pool, step, key.1);
      }
    }
  }

  lemma RecordColumns(result: PartResult)
    ensures MakeRecord(result).uploadHash == result.uploadHash && MakeRecord(result).etag == result.etag
  {
  }

  lemma SlotCount(call: Call, s: Pool)
    requires ValidCall(call) && Inv(call, s)
    ensures |s.slots| == PartCount(|call.job.content|)
  {
  }

  lemma PoolStepTransfer(env: Env, w: World, step: PartClaiming.Step)
    requires WorldInv(env, w) && InTransfer(w)
    ensures TransferInv(env, AfterPoolStep(w, step))
  {
    var c, w' := w.client, AfterPoolStep(w, step);
    NextInv(c.call, c.pool, step);
    SlotCount(c.call, c.pool);
    SlotCount(c.call, w'.client.pool);
    if step.w < |c.pool.workers| { StepFrame(c.call, c.pool, step); }
    hide PartClaiming.Next, Inv, RowOf, RecordInv, SessionInv, PartCount, ValidCall, Hashed;
    forall key | key in w'.parts && key.0 == c.sessionId && w'.parts[key].etag != ""
      ensures key.1 >= 1 && RecordedIn(w'.client.pool, key.1, w'.parts[key])
    {
      PoolStepRecord(env, w, step, key);
    }
  }

  lemma PoolStepInv(env: Env, w: World, step: Step)
    requires ValidEnv(env) && WorldInv(env, w) && step.PoolStep?
    ensures WorldInv(env, Next(env, w, step))
  {
    hide Next;
    PoolStepIs(env, w, step);
    if InTransfer(w) {
      var w' := AfterPoolStep(w, step.step);
      TransferStorage(env, w);
      hide AfterPoolStep, InTransfer, Inv, TransferInv, RowInv, RecordInv, SessionInv;
      PoolStepFrame(w, step.step);
      PoolStepTransfer(env, w, step.step);
      forall key | key in w'.parts ensures key.0 in w'.server && RecordInv(w'.server[key.0], key.1, w'.parts[key]) {
        PoolStepRecord(env, w, step.step, key);
      }
      forall sid | sid in w'.server ensures SessionInv(env, w'.server[sid]) {
        assert SessionInv(env, w.server[sid]);
        SameBinding(env, w.server[sid], w'.server[sid]);
      }
    }
  }

  lemma PoolStepIs(env: Env, w: World, step: Step)
    requires step.PoolStep?
    ensures Next(env, w, step) == if InTransfer(w) then AfterPoolStep(w, step.step) else w
  {
    hide AfterPoolStep, InTransfer;
  }

  /** A worker's step leaves every session's binding and completion, and the session row, as they were. */
  lemma PoolStepFrame(w: World, step: PartClaiming.Step)
    requires InTransfer(w) && w.client.pool.storage == w.server[w.client.sessionId].storage
    ensures var w' := AfterPoolStep(w, step);
            && w'.row == w.row && w'.returned == w.returned && w'.client.Transferring?
                && w'.server.Keys == w.server.Keys
            && forall sid | sid in w.server :: SameSession(w.server[sid], w'.server[sid])
  {
    UnsentKeepsStorage(w.client.call, w.client.pool, step);
    hide PartClaiming.Next, MakeRecord, ValidCall;
  }

  lemma UnsentKeepsStorage(call: Call, s: Pool, step: PartClaiming.Step)
    requires ValidCall(call)
    ensures PartClaiming.Next(call, s, step).puts == s.puts ==> PartClaiming.Next(call, s, step).storage == s.storage
  {
    hide ValidCall, SealedPart, SealedBody;
    if step.w < |s.workers| && s.workers[step.w].Working? {
      var n := s.workers[step.w].part;
      assert (s.puts + multiset{n})[n] == s.puts[n] + 1;
    }
  }

  lemma TransferStorage(env: Env, w: World)
    requires w.client.Transferring? && TransferInv(env, w)
    ensures w.client.pool.storage == w.server[w.client.sessionId].storage
  {
  }

  ghost predicate SameSession(a: Session, b: Session)
  {
    && a.job == b.job && a.multipart == b.multipart && a.completed == b.completed
    && (!b.sentSince ==> !a.sentSince && a.storage == b.storage)
  }

  lemma SameBinding(env: Env, a: Session, b: Session)
    requires SessionInv(env, a) && SameSession(a, b)
    ensures SessionInv(env, b)
  {
    hide WholeCompletion;
  }

  // ---------------------------------------------------------------- results

  /** Every call in the run is for an entry whose recorded hash is that of the bytes at the path. */
  ghost predicate HashedRun(env: Env, steps: seq<Step>)
  {
    forall i | 0 <= i < |steps| && steps[i].Begin? :: Hashed(env, steps[i].request)
  }

  lemma {:induction false} RunWorldInv(env: Env, w: World, steps: seq<Step>)
    requires ValidEnv(env) && WorldInv(env, w) && HashedRun(env, steps)
    ensures WorldInv(env, Run(env, w, steps))
    decreases |steps|
  {
    hide WorldInv, ValidEnv, Next, Hashed;
    if steps != [] {
      NextWorldInv(env, w, steps[0]);
      assert HashedRun(env, steps[1..]);
      RunWorldInv(env, Next(env, w, steps[0]), steps[1..]);
    }
  }

  /**
   * Crash and resume safety. In every run of hashed calls, with crashes, lost
   * answers, resets and content changes anywhere, a session the server was told
   * to complete has all its parts stored (and registered when multipart) under
   * the one key and from the one content it was opened with; the manifest it
   * was completed with makes the stored object download to that content; and
   * the session's storage still is that object unless something was sent to it
   * after its last completion.
   */
  lemma CompletedOnlyWhole(env: Env, steps: seq<Step>, sid: string)
    requires ValidEnv(env) && HashedRun(env, steps)
    requires var w := Run(env, EMPTY, steps); sid in w.server && w.server[sid].completed.Some?
    ensures var session := Run(env, EMPTY, steps).server[sid];
            var done := session.completed.value;
            && WholeCompletion(session.job, session.multipart, done)
            && (|RoundTrip.StoredObject(done.storage, |done.slots|)| < TWO_TO_64 ==>
                  Download.Faithful(session.job, RoundTrip.EchoedRecord(session.job, Flatten(ChunkLists(done.slots))),
                                    RoundTrip.StoredObject(done.storage, |done.slots|)))
            && (!session.sentSince ==> session.storage == done.storage)
  {
    hide Run, PartDescribed, RecordInv, RowOf, Hashed, ValidEnv, Download.Faithful, RoundTrip.EchoedRecord, PartCount;
    RunWorldInv(env, EMPTY, steps);
    var session := Run(env, EMPTY, steps).server[sid];
    assert SessionInv(env, session);
    var done := session.completed.value;
    if |RoundTrip.StoredObject(done.storage, |done.slots|)| < TWO_TO_64 {
      RoundTrip.DescribedPartsAreFaithful(session.job, done.slots, done.storage);
    }
  }

  /**
   * A call that returns has completed a session of the very content it was
   * called for, and returns that session's own vault and file id.
   */
  lemma ReturnedIsCompleted(env: Env, steps: seq<Step>, i: nat)
    requires ValidEnv(env) && HashedRun(env, steps) && i < |Run(env, EMPTY, steps).returned|
    ensures var w := Run(env, EMPTY, steps);
            var r := w.returned[i];
            && ReturnedInv(w.server, r)
            && WholeCompletion(w.server[r.sessionId].job, w.server[r.sessionId].multipart,
                               w.server[r.sessionId].completed.value)
  {
    hide Run, RecordInv, RowOf, Hashed, ValidEnv, WholeCompletion;
    RunWorldInv(env, EMPTY, steps);
    var w := Run(env, EMPTY, steps);
    assert ReturnedInv(w.server, w.returned[i]);
    assert SessionInv(env, w.server[w.returned[i].sessionId]);
  }

  /** Without a multipart id the server opens a session for a file of at most one chunk and for no other. */
  lemma OpensExactly(w: World, sid: string)
    requires w.client.Opening? && sid !in w.server && Supported(|w.client.request.content|)
    ensures CanOpen(w, sid, true)
    ensures CanOpen(w, sid, false) <==> |w.client.request.content| <= 4194304
  {
    PlanIsExact(|w.client.request.content|);
    hide CreatePlan;
  }

  // ---------------------------------------------------------------- giving up a session

  /** No row of the session is left. */
  predicate Forgotten(w: World, sid: string)
  {
    (w.row.Some? ==> w.row.value.sessionId != sid) && forall key | key in w.parts :: key.0 != sid
  }

  /** The two deletes forget the session, and nothing else, and go on as planned. */
  lemma DeletesForget(env: Env, w: World)
    requires w.client.DeletingParts?
    ensures var sid := w.client.sessionId;
            var w' := Next(env, Next(env, w, DeletePartRows), DeleteSessionRow);
            && Forgotten(w', sid) && w'.client == w.client.after && w'.server == w.server
            && (forall key | key in w.parts && key.0 != sid :: key in w'.parts && w'.parts[key] == w.parts[key])
            && w'.row == (if w.row.Some? && w.row.value.sessionId == sid then None else w.row)
  {
  }

  /**
   * A resumed session that the server no longer knows is given up for good:
   * after a 404 or 409 in a first, resumed attempt, its rows are deleted and
   * the second attempt opens a new session. Any other error status, and any in
   * a second attempt or a fresh session, ends the call with its rows kept.
   */
  lemma ResetStartsOver(env: Env, steps: seq<Step>, status: int)
    requires ValidEnv(env) && HashedRun(env, steps) && InTransfer(Run(env, EMPTY, steps))
    ensures var w := Run(env, EMPTY, steps);
            var w1 := Next(env, w, HttpFailure(status));
            if (status == 404 || status == 409) && w.client.attempt == 0 && w.client.resumed then
              var w2 := Next(env, Next(env, Next(env, w1, DeletePartRows), DeleteSessionRow), Lookup);
              w2.client == Opening(w.client.request, 1) && w2.row.None? && Forgotten(w2, w.client.sessionId)
            else w1 == w.(client := Idle)
  {
    hide Run, ValidEnv;
    RunWorldInv(env, EMPTY, steps);
    var w := Run(env, EMPTY, steps);
    TransferRow(env, w);
    var w1 := Next(env, w, HttpFailure(status));
    if (status == 404 || status == 409) && w.client.attempt == 0 && w.client.resumed {
      DeletesForget(env, w1);
    }
    hide WorldInv;
  }

  lemma TransferRow(env: Env, w: World)
    requires WorldInv(env, w) && w.client.Transferring?
    ensures w.row.Some? && w.row.value.sessionId == w.client.sessionId
  {
  }

  /** Where a call can be once it has given up session `sid`, until it ends. */
  ghost predicate StartingOver(w: World, sid: string)
  {
    && sid in w.server
    && match w.client
       case Idle => true
       case Looking(_, attempt) => attempt == 1 && w.row.None?
       case Opening(_, attempt) => attempt == 1 && w.row.None?
       case Persisting(_, attempt, row) => attempt == 1 && w.row.None? && row.sessionId != sid
       case Transferring(_, attempt, resumed, other, _, _) => attempt == 1 && !resumed && other != sid
       case DeletingParts(other, after) => Discarding(w, sid, other, after)
       case DeletingSession(other, after) => Discarding(w, sid, other, after)
  }

  predicate Discarding(w: World, sid: string, other: string, after: Client)
  {
    || (other == sid && after.Looking? && after.attempt == 1 && w.row.Some? && w.row.value.sessionId == sid)
    || (other != sid && after.Idle?)
  }

  /** Whatever happens in the rest of the call, its second attempt never transfers into the session given up. */
  lemma {:induction false} SecondAttemptIsFresh(env: Env, w: World, sid: string, steps: seq<Step>)
    requires StartingOver(w, sid) && forall i | 0 <= i < |steps| :: !steps[i].Begin?
    ensures var w' := Run(env, w, steps);
            && StartingOver(w', sid)
            && (w'.client.Transferring? ==> w'.client.attempt == 1 && w'.client.sessionId != sid)
    decreases |steps|
  {
    hide Next;
    if steps != [] {
      assert !steps[0].Begin?;
      StaysStartingOver(env, w, sid, steps[0]);
      SecondAttemptIsFresh(env, Next(env, w, steps[0]), sid, steps[1..]);
    }
  }

  lemma StaysStartingOver(env: Env, w: World, sid: string, step: Step)
    requires StartingOver(w, sid) && !step.Begin?
    ensures StartingOver(Next(env, w, step), sid)
  {
    hide ValidCall, CreatePlan, SessionMatches, OpenKey, RowsReadable, ResumedSlots, Start, PartClaiming.Next;
    hide MakeRecord, Joined;
  }

  /** The reset itself puts the call there. */
  lemma ResetIsStartingOver(env: Env, w: World, status: int)
    requires WorldInv(env, w) && InTransfer(w) && ShouldReset(status) && w.client.attempt == 0 && w.client.resumed
    ensures StartingOver(Next(env, w, HttpFailure(status)), w.client.sessionId)
  {
    TransferRow(env, w);
    hide WorldInv, ValidCall;
  }

  /** A finished session is forgotten before the call returns, and so is one that no longer matches before a new one. */
  lemma OldSessionsAreForgotten(env: Env, w: World)
    ensures CanComplete(w) ==>
              var w' := Next(env, Next(env, Next(env, w, Complete), DeletePartRows), DeleteSessionRow);
              w'.client.Idle? && Forgotten(w', w.client.sessionId)
    ensures w.client.Looking? && w.row.Some?
            && !SessionMatches(w.row.value, w.client.request, CreatePlan(|w.client.request.content|)) ==>
              var w' := Next(env, Next(env, Next(env, w, Lookup), DeletePartRows), DeleteSessionRow);
              w'.client == Opening(w.client.request, w.client.attempt) && w'.row.None?
              && Forgotten(w', w.row.value.sessionId)
  {
    hide SessionMatches, CreatePlan, Joined, InTransfer;
    if CanComplete(w) { DeletesForget(env, Next(env, w, Complete)); }
    if w.client.Looking? && w.row.Some?
       && !SessionMatches(w.row.value, w.client.request, CreatePlan(|w.client.request.content|)) {
      DeletesForget(env, Next(env, w, Lookup));
    }
  }

  // ---------------------------------------------------------------- completed sessions

  /** What a completion records, heard of or not, and what the call returns if it hears of it. */
  lemma CompletionIsRecorded(env: Env, w: World, step: Step)
    requires CanComplete(w) && (step.Complete? || step.CompleteUnanswered?)
    ensures var w' := Next(env, w, step);
            var c, sid, before := w.client, w.client.sessionId, w.server[w.client.sessionId];
            && w'.server == w.server[sid := w'.server[sid]] && w'.row == w.row && w'.parts == w.parts
            && w'.server[sid].completed ==
               Some(Completion(c.pool.slots, before.storage, before.registered, c.call.job.key))
            && w'.server[sid].storage == before.storage && !w'.server[sid].sentSince
            && w'.returned ==
               (if step.Complete? then
                  w.returned + [Returned(c.request.content, sid, c.call.job.vaultId, c.call.job.fileId)]
                else w.returned)
  {
    hide Joined;
  }

  /** Only a call that transfers into the session touches it, and only by a PUT does it send something. */
  lemma OnlyPutsSend(env: Env, w: World, step: Step, sid: string)
    requires sid in w.server
    ensures var after := Next(env, w, step).server;
            && sid in after
            && (!(w.client.Transferring? && w.client.sessionId == sid) ==> after[sid] == w.server[sid])
            && (after[sid].sentSince && !w.server[sid].sentSince ==>
                  step.PoolStep? && (step.step.Put? || step.step.ThrowAfterPut?))
  {
    hide CreatePlan, SessionMatches, OpenKey, RowsReadable, ResumedSlots, Start, MakeRecord, Joined;
    hide SealedPart, SealedBody, PartCount, ValidCall;
  }

  /** The client has nothing to do with the session, and will not when it goes on. */
  predicate Spares(client: Client, sid: string)
  {
    match client
    case Persisting(_, _, row) => row.sessionId != sid
    case Transferring(_, _, _, other, _, _) => other != sid
    case DeletingParts(_, after) => Spares(after, sid)
    case DeletingSession(_, after) => Spares(after, sid)
    case _ => true
  }

  lemma StaysSpared(env: Env, w: World, sid: string, step: Step)
    requires sid in w.server && Forgotten(w, sid) && Spares(w.client, sid)
    ensures var w' := Next(env, w, step);
            && sid in w'.server && w'.server[sid] == w.server[sid]
            && Forgotten(w', sid) && Spares(w'.client, sid)
  {
    OnlyPutsSend(env, w, step, sid);
    StaysForgotten(env, w, sid, step);
    StaysAway(env, w, sid, step);
    hide Next, Forgotten;
  }

  lemma StaysForgotten(env: Env, w: World, sid: string, step: Step)
    requires Forgotten(w, sid) && Spares(w.client, sid)
    ensures Forgotten(Next(env, w, step), sid)
  {
    hide ValidCall, CreatePlan, SessionMatches, OpenKey, RowsReadable, ResumedSlots, PartClaiming.Next;
    hide MakeRecord, Joined, Completed, Transfer;
  }

  lemma StaysAway(env: Env, w: World, sid: string, step: Step)
    requires sid in w.server && Forgotten(w, sid) && Spares(w.client, sid)
    ensures Spares(Next(env, w, step).client, sid)
  {
    hide ValidCall, CreatePlan, SessionMatches, OpenKey, RowsReadable, ResumedSlots, Start, PartClaiming.Next;
    hide MakeRecord, Joined, Completed;
  }

  lemma {:induction false} SparedForGood(env: Env, w: World, sid: string, steps: seq<Step>)
    requires sid in w.server && Forgotten(w, sid) && Spares(w.client, sid)
    ensures var w' := Run(env, w, steps); sid in w'.server && w'.server[sid] == w.server[sid]
    decreases |steps|
  {
    hide Next, Forgotten, Spares;
    if steps != [] {
      StaysSpared(env, w, sid, steps[0]);
      SparedForGood(env, Next(env, w, steps[0]), sid, steps[1..]);
    }
  }

  /**
   * What a call has returned stays: once the completed session's rows are gone,
   * no later call, answer or crash touches the session again, so that its
   * storage still is the object the server was told of.
   */
  lemma ReturnedForGood(env: Env, w: World, steps: seq<Step>)
    requires CanComplete(w)
    ensures var sid := w.client.sessionId;
            var done := Next(env, w, Complete);
            var w' := Run(env, Next(env, Next(env, done, DeletePartRows), DeleteSessionRow), steps);
            && sid in w'.server && sid in done.server && w'.server[sid] == done.server[sid]
            && w'.server[sid].completed.Some? && w'.server[sid].completed.value.storage == w'.server[sid].storage
  {
    hide Run, Joined;
    var done := Next(env, w, Complete);
    CompletionIsRecorded(env, w, Complete);
    DeletesForget(env, done);
    SparedForGood(env, Next(env, Next(env, done, DeletePartRows), DeleteSessionRow), w.client.sessionId, steps);
  }

  /** A new session's row takes the place of whatever row the path had, and its parts start out unsent. */
  lemma PersistReplaces(env: Env, w: World)
    requires w.client.Persisting? && w.client.row.sessionId in w.server
    ensures var cleared := if w.row.None? then w
                           else Next(env, Next(env, Next(env, w, Persist), DeletePartRows), DeleteSessionRow);
            var w' := Next(env, cleared, Persist);
            && w'.row == Some(w.client.row) && w'.server == w.server
            && (w.row.Some? ==> forall key | key in w'.parts :: key.0 != w.row.value.sessionId)
            && w'.client.Transferring? && w'.client.sessionId == w.client.row.sessionId && !w'.client.resumed
            && w'.client.request == w.client.request && w'.client.attempt == w.client.attempt
            && forall i | 0 <= i < |w'.client.call.resumed| :: w'.client.call.resumed[i].etag == ""
  {
    hide CreatePlan, Start, Workers;
    if w.row.Some? { DeletesForget(env, Next(env, w, Persist)); }
  }

  /** An error, a crash or a session that cannot be read back ends the call and keeps every row for a later one. */
  lemma ErrorsKeepTheRows(env: Env, w: World)
    ensures Next(env, w, Fail) == Next(env, w, Crash) == w.(client := Idle)
    ensures w.client.Looking? && w.row.Some? ==>
              var plan := CreatePlan(|w.client.request.content|);
              var row := w.row.value;
              SessionMatches(row, w.client.request, plan)
              && (OpenKey(env, row).None? || row.sessionId !in w.server
                  || exists key :: key in w.parts && key.0 == row.sessionId && ReadRecord(w.parts[key], plan).Err?) ==>
                Next(env, w, Lookup) == w.(client := Idle)
  {
    hide SessionMatches, OpenKey, ReadRecord, ResumedSlots;
  }

  /** A row with another size, or written under other chunk or part sizes or counts, never matches. */
  lemma MatchPinsThePlan(row: SessionRow, request: Request)
    requires Supported(|request.content|) && SessionMatches(row, request, CreatePlan(|request.content|))
    ensures row.localSize == |request.content| && row.folderId == request.folderId
    ensures row.fileChunkSize == 4194304 && row.totalChunks == ChunkCount(|request.content|)
    ensures row.uploadPartCount == PartCount(|request.content|)
    ensures row.uploadPartSize == if ChunkCount(|request.content|) == 1 then 4194304 else 8388608
  {
    PlanIsExact(|request.content|);
    hide CreatePlan, ChunkCount, PartCount;
  }

  /**
   * When a session row matches an entry, exactly: the size and the folder are
   * those the session was opened with, and so is the content hash or, when one
   * of the two has none, the modification time.
   */
  lemma MatchesExactly(env: Env, w: World, step: Step, request: Request)
    requires step.Open? && CanOpen(w, step.sessionId, step.multipart)
    ensures var first := w.client.request;
            var row := Next(env, w, step).client.row;
            SessionMatches(row, request, CreatePlan(|request.content|)) <==>
              && |request.content| == |first.content| && request.folderId == first.folderId
              && (if first.contentHash.Some? && request.contentHash.Some? then request.contentHash == first.contentHash
                  else request.mtime == first.mtime)
  {
    hide CreatePlan, Base64.Encode;
  }

  /**
   * Work done is not done again: a part registered with a non-empty etag is
   * skipped by the next matching call, even if the program dies right after.
   */
  lemma RegisteredSurvivesCrash(env: Env, steps: seq<Step>, v: nat, request: Request)
    requires ValidEnv(env) && HashedRun(env, steps) && Hashed(env, request)
    requires var w := Run(env, EMPTY, steps);
             && InTransfer(w) && Registers(w.client.pool, PartClaiming.Register(v))
             && w.row.Some? && SessionMatches(w.row.value, request, CreatePlan(|request.content|))
             && var n := w.client.pool.workers[v].part; n in w.client.pool.answered && w.client.pool.answered[n] != ""
    ensures var w := Run(env, EMPTY, steps);
            var w1 := Next(env, Next(env, w, PoolStep(PartClaiming.Register(v))), Crash);
            var c := Next(env, Next(env, w1, Begin(request)), Lookup).client;
            && c.Transferring? && c.sessionId == w.client.sessionId
            && IsResumed(c.call, w.client.pool.workers[v].part)
  {
    hide Run, ValidEnv;
    RunWorldInv(env, EMPTY, steps);
    RegisteredIsResumed(env, Run(env, EMPTY, steps), v, request);
  }

  /**
   * Resumption works whenever it is allowed: after any run, a call whose entry
   * matches the session row continues that session's own job, and skips exactly
   * the parts recorded with an etag.
   */
  lemma MatchingCallResumes(env: Env, steps: seq<Step>)
    requires ValidEnv(env) && HashedRun(env, steps)
    requires var w := Run(env, EMPTY, steps);
             w.client.Looking? && w.row.Some?
             && SessionMatches(w.row.value, w.client.request, CreatePlan(|w.client.request.content|))
    ensures var w := Run(env, EMPTY, steps);
            var sid := w.row.value.sessionId;
            var c := Next(env, w, Lookup).client;
            && c.Transferring? && c.sessionId == sid && sid in w.server && c.call.job == w.server[sid].job
            && c.resumed && c.attempt == w.client.attempt && c.request == w.client.request
            && (forall n: nat :: IsResumed(c.call, n) <==>
                (sid, n as int) in w.parts && w.parts[(sid, n as int)].etag != "")
  {
    hide Run, ValidEnv;
    RunWorldInv(env, EMPTY, steps);
    LookupResumes(env, Run(env, EMPTY, steps));
  }

  lemma RegisteredIsResumed(env: Env, w: World, v: nat, request: Request)
    requires ValidEnv(env) && WorldInv(env, w) && Hashed(env, request)
    requires InTransfer(w) && Registers(w.client.pool, PartClaiming.Register(v)) && w.row.Some?
    requires SessionMatches(w.row.value, request, CreatePlan(|request.content|))
    requires var n := w.client.pool.workers[v].part; n in w.client.pool.answered && w.client.pool.answered[n] != ""
    ensures var w1 := Next(env, Next(env, w, PoolStep(PartClaiming.Register(v))), Crash);
            var c := Next(env, Next(env, w1, Begin(request)), Lookup).client;
            && c.Transferring? && c.sessionId == w.client.sessionId
            && IsResumed(c.call, w.client.pool.workers[v].part)
  {
    var step := PoolStep(PartClaiming.Register(v));
    TransferRow(env, w);
    NextWorldInv(env, w, step);
    RegisteredRow(env, w, v);
    var w1 := Next(env, w, step);
    NextWorldInv(env, w1, Crash);
    var w2 := Next(env, w1, Crash);
    NextWorldInv(env, w2, Begin(request));
    var w3 := Next(env, w2, Begin(request));
    CrashAndBegin(env, w1, request);
    hide Next, WorldInv, ValidEnv, SessionMatches, CreatePlan;
    LookupResumes(env, w3);
  }

  lemma CrashAndBegin(env: Env, w: World, request: Request)
    requires Supported(|request.content|)
    ensures Next(env, Next(env, w, Crash), Begin(request)) == w.(client := Looking(request, 0))
  {
  }

  /** Registration writes the part row with the etag storage answered, and leaves the session row. */
  lemma RegisteredRow(env: Env, w: World, v: nat)
    requires WorldInv(env, w) && InTransfer(w) && Registers(w.client.pool, PartClaiming.Register(v))
    ensures var n := w.client.pool.workers[v].part;
            var w' := Next(env, w, PoolStep(PartClaiming.Register(v)));
            && w'.row == w.row && (w.client.sessionId, n as int) in w'.parts
            && n in w.client.pool.answered && w'.parts[(w.client.sessionId, n as int)].etag == w.client.pool.answered[n]
  {
    PoolStepIs(env, w, PoolStep(PartClaiming.Register(v)));
    StoredAnswer(w.client.call, w.client.pool, v);
    RecordColumns(w.client.pool.workers[v].result);
    hide Next, PartClaiming.Next, MakeRecord, ValidCall, Inv;
  }

  lemma StoredAnswer(call: Call, s: Pool, v: nat)
    requires ValidCall(call) && Inv(call, s) && v < |s.workers| && s.workers[v].Stored?
    ensures s.workers[v].part in s.answered && s.workers[v].result.etag == s.answered[s.workers[v].part]
  {
    assert WorkerInv(call, s, v);
    hide PartDescribed, ValidCall, PartInv;
  }

  lemma RecordsAreReadable(w: World, sid: string)
    requires sid in w.server && Supported(|w.server[sid].job.content|)
    requires forall key | key in w.parts && key.0 == sid :: RecordInv(w.server[sid], key.1, w.parts[key])
    ensures RowsReadable(w.parts, sid, CreatePlan(|w.server[sid].job.content|))
  {
    PlanIsExact(|w.server[sid].job.content|);
    hide PartDescribed, CreatePlan, PartCount, ReadRecord;
  }

  lemma LookupResumes(env: Env, w: World)
    requires ValidEnv(env) && WorldInv(env, w) && w.client.Looking? && w.row.Some?
    requires SessionMatches(w.row.value, w.client.request, CreatePlan(|w.client.request.content|))
    ensures var sid := w.row.value.sessionId;
            var c := Next(env, w, Lookup).client;
            && c.Transferring? && c.sessionId == sid && sid in w.server && c.call.job == w.server[sid].job
            && c.resumed && c.attempt == w.client.attempt && c.request == w.client.request
            && (forall n: nat :: IsResumed(c.call, n) <==>
                (sid, n as int) in w.parts && w.parts[(sid, n as int)].etag != "")
  {
    LookupTransfers(env, w);
    hide WorldInv, ValidEnv, Next, SessionMatches, CreatePlan, ResumedSlots, RowsReadable;
    var sid, plan := w.row.value.sessionId, CreatePlan(|w.client.request.content|);
    var c := Next(env, w, Lookup).client;
    forall n: nat
      ensures IsResumed(c.call, n) <==> (sid, n as int) in w.parts && w.parts[(sid, n as int)].etag != ""
    {
      ResumedIffRecorded(w, sid, plan, c.call, n);
    }
  }

  lemma ResumedIffRecorded(w: World, sid: string, plan: UploadPlan, call: Call, n: nat)
    requires plan.fileChunkSize > 0 && RowsReadable(w.parts, sid, plan)
    requires call.resumed == ResumedSlots(w.parts, sid, plan) && |call.resumed| == plan.uploadPartCount
    ensures IsResumed(call, n) <==> (sid, n as int) in w.parts && w.parts[(sid, n as int)].etag != ""
  {
    if 1 <= n <= plan.uploadPartCount {
      ResumedSlot(w, sid, plan, n);
    } else if (sid, n as int) in w.parts {
      RowInRange(w, sid, plan, n);
    }
    hide ResumedSlots, RowsReadable, ReadRecord;
  }

  lemma RowInRange(w: World, sid: string, plan: UploadPlan, n: int)
    requires plan.fileChunkSize > 0 && RowsReadable(w.parts, sid, plan) && (sid, n) in w.parts
    ensures 1 <= n <= plan.uploadPartCount
  {
    var key := (sid, n);
    assert key.0 == sid;
    hide ReadRecord;
  }

  lemma LookupTransfers(env: Env, w: World)
    requires ValidEnv(env) && WorldInv(env, w) && w.client.Looking? && w.row.Some?
    requires SessionMatches(w.row.value, w.client.request, CreatePlan(|w.client.request.content|))
    ensures var sid, plan := w.row.value.sessionId, CreatePlan(|w.client.request.content|);
            var c := Next(env, w, Lookup).client;
            && c.Transferring? && c.sessionId == sid && sid in w.server && c.call.job == w.server[sid].job
            && plan.fileChunkSize > 0 && RowsReadable(w.parts, sid, plan)
            && c.call.resumed == ResumedSlots(w.parts, sid, plan) && |c.call.resumed| == plan.uploadPartCount
  {
    hide SessionMatches, OpenKey, Start, RowInv, WholeCompletion, CreatePlan, ValidEnv, RecordInv, RowsReadable,
      TransferInv, Supported;
    var row, request := w.row.value, w.client.request;
    assert SessionInv(env, w.server[row.sessionId]);
    MatchingRowIsSameJob(env, w, request, row);
    PlanIsExact(|request.content|);
    RecordsAreReadable(w, row.sessionId);
  }
}
