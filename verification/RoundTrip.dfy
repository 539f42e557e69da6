/**
 * The whole data path: upload by any interleaving of workers, manifest,
 * storage that concatenates parts by number, record echoed by the server,
 * download with any partial writes.
 */
module RoundTrip {
  import opened Basics
  import opened Partition
  import opened ChunkPipeline
  import opened PartClaiming
  import opened Download

  /** Storage's object once the upload is completed: the parts in numeric order. */
  function StoredObject(storage: map<nat, Bytes>, parts: nat): Bytes
    requires forall n | 1 <= n <= parts :: n in storage
  {
    Flatten(seq(parts, i requires 0 <= i < parts => storage[i + 1]))
  }

  /** The file record of a completed upload, with the plan echoed by the server. */
  function EchoedRecord(job: FileJob, manifest: seq<ChunkRecord>): FileRecord
    requires Supported(|job.content|)
  {
    PlanIsExact(|job.content|);
    FileRecord(job.key, job.vaultId, job.fileId, CHUNK_SIZE, CastInt(CreatePlan(|job.content|).totalChunks),
               |job.content|, CreatePlan(|job.content|).originalSize, ManifestOf(manifest))
  }

  /** Described parts, assembled and concatenated, make a faithful record. */
  lemma DescribedPartsAreFaithful(job: FileJob, slots: seq<PartResult>, storage: map<nat, Bytes>)
    requires Supported(|job.content|) && |slots| == PartCount(|job.content|)
    requires forall n | 1 <= n <= |slots| :: n in storage && PartDescribed(job, n, slots[n - 1], storage[n])
    requires |StoredObject(storage, |slots|)| < TWO_TO_64
    ensures Faithful(job, EchoedRecord(job, Flatten(ChunkLists(slots))), StoredObject(storage, |slots|))
  {
    hide PartDescribed, PartCount, ChunkCount, Describes, Supported, Flatten, ChunkLists, HashLists, PieceHashes,
      Faithful, EchoedRecord;
    var bodies := seq(|slots|, i requires 0 <= i < |slots| => storage[i + 1]);
    forall i | 0 <= i < |slots| ensures PartDescribed(job, i + 1, slots[i], bodies[i]) {
      var n := i + 1;
      assert PartDescribed(job, n, slots[n - 1], storage[n]);
    }
    assert AllPartsDescribed(job, slots, bodies);
    ManifestDescribesObject(job, slots, bodies);
    EchoIsFaithful(job, Flatten(ChunkLists(slots)), Flatten(bodies));
  }

  lemma EchoIsFaithful(job: FileJob, manifest: seq<ChunkRecord>, stored: Bytes)
    requires Supported(|job.content|) && |stored| < TWO_TO_64
    requires |manifest| == ChunkCount(|job.content|) && Describes(job, 1, manifest, stored)
    ensures Faithful(job, EchoedRecord(job, manifest), stored)
  {
    PlanIsExact(|job.content|);
    hide CastInt, CreatePlan, ChunkCount, Describes, ManifestOf, Supported;
  }

  lemma JoinedPoolIsFaithful(call: Call, concurrency: nat, steps: seq<Step>)
    requires ValidCall(call) && concurrency >= 1
    requires var s := Run(call, Start(call, concurrency), steps); Joined(s) && s.firstError.None?
    ensures var s := Run(call, Start(call, concurrency), steps);
            && |s.slots| == PartCount(|call.job.content|)
            && (forall n | 1 <= n <= |s.slots| :: n in s.storage)
            && (|StoredObject(s.storage, |s.slots|)| < TWO_TO_64 ==>
                  Faithful(call.job, EchoedRecord(call.job, Flatten(ChunkLists(s.slots))),
                      StoredObject(s.storage, |s.slots|)))
  {
    hide Run, PartDescribed, CastInt, CreatePlan, PartCount, Faithful, EchoedRecord, Settled;
    NormalReturn(call, concurrency, steps);
    var s := Run(call, Start(call, concurrency), steps);
    if |StoredObject(s.storage, |s.slots|)| < TWO_TO_64 {
      DescribedPartsAreFaithful(call.job, s.slots, s.storage);
    }
  }

  /**
   * For every content of a supported size, every schedule of the upload
   * workers that returns normally, and every pattern of partial writes: if the
   * download returns, the target holds exactly the uploaded bytes; if it
   * throws, the target is untouched.
   */
  method UploadThenDownload(call: Call, serverCap: int, ghost steps: seq<Step>,
      slots: seq<PartResult>, io: DownloadIo, writer: AtomicFileWriter)
    returns (r: Result<()>)
    requires ValidCall(call)
    requires var s := Run(call, Start(call, ResolvePartConcurrency(PartCount(|call.job.content|), serverCap)), steps);
             && Joined(s) && s.firstError.None? && slots == s.slots
             && (forall n | 1 <= n <= |s.slots| :: n in s.storage)
             && io.stored == StoredObject(s.storage, |s.slots|)
    requires |io.stored| < TWO_TO_64
    requires writer.temp == Some([]) && writer.isOpen && !writer.committed
    modifies writer
    ensures r.Ok? ==> writer.target == Some(call.job.content)
    ensures r.Err? ==> writer.target == old(writer.target)
    ensures AllSucceed(io) ==> r.Ok?
  {
    PlanIsExact(|call.job.content|);
    ConcurrencyBounds(|call.job.content|, serverCap);
    JoinedPoolIsFaithful(call, ResolvePartConcurrency(PartCount(|call.job.content|), serverCap), steps);
    hide Run, Faithful, CastInt;
    var manifest, combined := AssembleManifest(slots);
    r := DownloadFile(call.job.crypto, EchoedRecord(call.job, manifest), io, writer, call.job);
  }
}
