/**
 * Download side of the data path: manifest parsing into byte ranges, the
 * atomic file writer with its short-write loop, and the chunk loop that
 * commits or rolls back.
 */
module Download {
  import opened Basics
  import opened Partition
  import opened ChunkPipeline
  import Base64

  /** One manifest array element; 0 stands for a missing size, as `value(name, 0)` reads it. */
  datatype ManifestEntry = ManifestEntry(plainSize: nat, cipherSize: nat, hash: string)

  datatype DownloadChunk = DownloadChunk(
    index: nat,
    cipherStart: nat,
    cipherEnd: nat,
    cipherSize: nat,
    plainStart: nat,
    plainSize: nat,
    hash: string)

  // ---------------------------------------------------------------- manifest parsing

  /** Plain size of an entry, filled in from the record when the manifest omits it. */
  function PlainSize(entry: ManifestEntry, fallbackChunkSize: nat, plaintextSize: nat, plainOffset: nat): nat
  {
    if entry.plainSize == 0 && fallbackChunkSize > 0 then
      if plaintextSize > plainOffset && plaintextSize - plainOffset < fallbackChunkSize
      then plaintextSize - plainOffset
      else fallbackChunkSize
    else entry.plainSize
  }

  /** A missing size is what is left of the file, at most a whole chunk; past the end it is a whole chunk. */
  lemma MissingSize(entry: ManifestEntry, fallbackChunkSize: nat, plaintextSize: nat, plainOffset: nat)
    ensures PlainSize(entry, fallbackChunkSize, plaintextSize, plainOffset) ==
            if entry.plainSize > 0 then entry.plainSize
            else if plainOffset < plaintextSize then Min(fallbackChunkSize, plaintextSize - plainOffset)
            else fallbackChunkSize
  {
  }

  function AppendParsed(before: seq<DownloadChunk>, rest: Result<seq<DownloadChunk>>): Result<seq<DownloadChunk>>
  {
    if rest.Ok? then Ok(before + rest.value) else rest
  }

  function ParsedChunk(entry: ManifestEntry, plain: nat, cipherOffset: nat, plainOffset: nat, index: nat): DownloadChunk
  {
    DownloadChunk(index, cipherOffset, Wrap64(cipherOffset + entry.cipherSize - 1), entry.cipherSize,
                  plainOffset, plain, entry.hash)
  }

  /** The remainder of the parse loop from the given offsets. */
  function ParseFrom(entries: seq<ManifestEntry>, cipherOffset: nat, plainOffset: nat, index: nat,
      fallbackChunkSize: nat, plaintextSize: nat): Result<seq<DownloadChunk>>
    decreases |entries|
  {
    if entries == [] then Ok([])
    else
      var e := entries[0];
      var plain := PlainSize(e, fallbackChunkSize, plaintextSize, plainOffset);
      if e.cipherSize == 0 || plain == 0 then Err("Download manifest has an empty chunk")
      else
        AppendParsed([ParsedChunk(e, plain, cipherOffset, plainOffset, index)],
          ParseFrom(entries[1..], Wrap64(cipherOffset + e.cipherSize), Wrap64(plainOffset + plain), index + 1,
                    fallbackChunkSize, plaintextSize))
  }

  method ParseDownloadManifest(entries: seq<ManifestEntry>, fallbackChunkSize: nat, plaintextSize: nat)
    returns (r: Result<seq<DownloadChunk>>)
    ensures r == ParseFrom(entries, 0, 0, 0, fallbackChunkSize, plaintextSize)
  {
    hide Wrap64, PlainSize;
    var chunks: seq<DownloadChunk> := [];
    var cipherOffset: nat, plainOffset: nat, index: nat := 0, 0, 0;
    ghost var all := ParseFrom(entries, 0, 0, 0, fallbackChunkSize, plaintextSize);
    assert entries[0..] == entries;
    assert all.Ok? ==> [] + all.value == all.value;
    while index < |entries|
      invariant 0 <= index <= |entries|
      invariant all == AppendParsed(chunks,
                  ParseFrom(entries[index..], cipherOffset, plainOffset, index, fallbackChunkSize, plaintextSize))
    {
      var e := entries[index];
      ghost var before := chunks;
      assert entries[index..][0] == e && entries[index..][1..] == entries[index + 1..];
      var plain := PlainSize(e, fallbackChunkSize, plaintextSize, plainOffset);
      if e.cipherSize == 0 || plain == 0 {
        return Err("Download manifest has an empty chunk");
      }
      var chunk := ParsedChunk(e, plain, cipherOffset, plainOffset, index);
      chunks := chunks + [chunk];
      cipherOffset := Wrap64(cipherOffset + e.cipherSize);
      plainOffset := Wrap64(plainOffset + plain);
      index := index + 1;
      ghost var rest := ParseFrom(entries[index..], cipherOffset, plainOffset, index, fallbackChunkSize, plaintextSize);
      AppendTwice(before, chunk, rest);
    }
    assert chunks + [] == chunks;
    r := Ok(chunks);
  }

  lemma AppendTwice(before: seq<DownloadChunk>, chunk: DownloadChunk, rest: Result<seq<DownloadChunk>>)
    ensures AppendParsed(before, AppendParsed([chunk], rest)) == AppendParsed(before + [chunk], rest)
  {
    if rest.Ok? {
      assert before + ([chunk] + rest.value) == (before + [chunk]) + rest.value;
    }
  }

  // ---------------------------------------------------------------- file writer

  datatype Pwrite = Wrote(count: nat) | Interrupted | Failed

  function Zeros(n: nat): Bytes { seq(n, i => 0) }

  function Extended(file: Bytes, size: nat): Bytes
  {
    if |file| >= size then file else file + Zeros(size - |file|)
  }

  /** A file after `data` has been written at `offset`. */
  function Overwrite(file: Bytes, offset: nat, data: Bytes): Bytes
  {
    if data == [] then file
    else
      var f := Extended(file, offset + |data|);
      f[..offset] + data + f[offset + |data|..]
  }

  lemma OverwriteNothing(file: Bytes, offset: nat)
    ensures Overwrite(file, offset, []) == file
  {
  }

  lemma PrefixGrows(data: Bytes, done: nat, written: nat)
    requires done + written <= |data|
    ensures data[..done] + data[done..][..written] == data[..done + written]
    ensures data[done..][written..] == data[done + written..]
  {
  }

  lemma OverwriteInTwo(file: Bytes, offset: nat, a: Bytes, b: Bytes)
    ensures Overwrite(Overwrite(file, offset, a), offset + |a|, b) == Overwrite(file, offset, a + b)
  {
    if a == [] {
      assert a + b == b;
    } else if b == [] {
      assert a + b == a;
    } else {
      var two := Overwrite(Overwrite(file, offset, a), offset + |a|, b);
      var whole := Overwrite(file, offset, a + b);
      hide Overwrite;
      TwoWritesSize(file, offset, a, b);
      forall i | 0 <= i < |two| ensures two[i] == whole[i] {
        TwoWritesAt(file, offset, a, b, i);
      }
    }
  }

  lemma TwoWritesSize(file: Bytes, offset: nat, a: Bytes, b: Bytes)
    requires a != [] && b != []
    ensures |Overwrite(Overwrite(file, offset, a), offset + |a|, b)| == |Overwrite(file, offset, a + b)|
  {
    hide Overwrite;
    OverwriteSize(file, offset, a);
    OverwriteSize(Overwrite(file, offset, a), offset + |a|, b);
    OverwriteSize(file, offset, a + b);
  }

  lemma TwoWritesAt(file: Bytes, offset: nat, a: Bytes, b: Bytes, i: nat)
    requires a != [] && b != [] && i < |Overwrite(Overwrite(file, offset, a), offset + |a|, b)|
    ensures i < |Overwrite(file, offset, a + b)|
    ensures Overwrite(Overwrite(file, offset, a), offset + |a|, b)[i] == Overwrite(file, offset, a + b)[i]
  {
    hide Overwrite;
    var one := Overwrite(file, offset, a);
    TwoWritesSize(file, offset, a, b);
    OverwriteSize(file, offset, a);
    OverwriteAt(one, offset + |a|, b, i);
    OverwriteAt(file, offset, a + b, i);
    if i < |one| { OverwriteAt(file, offset, a, i); }
  }

  lemma OverwriteSize(file: Bytes, offset: nat, data: Bytes)
    requires data != []
    ensures |Overwrite(file, offset, data)| == Max(|file|, offset + |data|)
  {
  }

  /** What each byte of the file is after a write. */
  lemma OverwriteAt(file: Bytes, offset: nat, data: Bytes, i: nat)
    requires data != [] && i < |Overwrite(file, offset, data)|
    ensures Overwrite(file, offset, data)[i] ==
            if offset <= i < offset + |data| then data[i - offset] else if i < |file| then file[i] else 0
  {
  }

  class AtomicFileWriter {
    var target: Option<Bytes>  // what the final path holds
    var temp: Option<Bytes>    // the temporary file, if it exists
    var isOpen: bool
    var committed: bool

    constructor (existing: Option<Bytes>)
      ensures target == existing && temp == Some([]) && isOpen && !committed
    {
      target, temp, isOpen, committed := existing, Some([]), true, false;
    }

    method Preallocate(size: nat, granted: bool) returns (r: Result<()>)
      requires temp.Some?
      modifies this`temp
      ensures r.Ok? == granted
      ensures temp == if granted then Some(Extended(old(temp.value), size)) else old(temp)
    {
      if !granted {
        return Err("posix_fallocate failed");
      }
      temp := Some(Extended(temp.value, size));
      r := Ok(());
    }

    /**
     * Writes all of `data` at `offset` through however many partial and
     * interrupted calls `outcomes` lists; once the list is used up the call
     * takes the rest. If it returns, the file is as after one whole write.
     */
    method WriteAt(offset: nat, data: Bytes, outcomes: seq<Pwrite>) returns (r: Result<()>)
      requires temp.Some?
      modifies this`temp
      ensures temp.Some?
      ensures r.Ok? ==> temp == Some(Overwrite(old(temp.value), offset, data))
      ensures r.Err? ==> exists n | 0 <= n < |data| :: temp == Some(Overwrite(old(temp.value), offset, data[..n]))
      ensures (forall k | 0 <= k < |outcomes| :: outcomes[k] != Failed && outcomes[k] != Wrote(0)) ==> r.Ok?
    {
      hide Overwrite;
      var rest, at, k := data, offset, 0;
      ghost var done := 0;
      OverwriteNothing(temp.value, offset);
      assert data[..0] == [];
      while rest != []
        invariant 0 <= k <= |outcomes|
        invariant 0 <= done <= |data| && rest == data[done..] && at == offset + done
        invariant temp == Some(Overwrite(old(temp.value), offset, data[..done]))
        decreases |outcomes| - k, |rest|
      {
        var outcome := if k < |outcomes| then outcomes[k] else Wrote(|rest|);
        if k < |outcomes| {
          k := k + 1;
        }
        if outcome == Interrupted {
          continue;
        }
        if outcome == Failed {
          return Err("pwrite failed");
        }
        var written := Min(outcome.count, |rest|);
        if written == 0 {
          return Err("pwrite wrote 0 bytes");
        }
        OverwriteInTwo(old(temp.value), offset, data[..done], rest[..written]);
        PrefixGrows(data, done, written);
        temp := Some(Overwrite(temp.value, at, rest[..written]));
        rest := rest[written..];
        at := at + written;
        done := done + written;
      }
      assert data[..done] == data;
      r := Ok(());
    }

    method Commit(synced: bool, closed: bool, renamed: bool) returns (r: Result<()>)
      requires temp.Some? && isOpen && !committed
      modifies this
      ensures r.Ok? == (synced && closed && renamed) == committed && isOpen == !synced
      ensures r.Ok? ==> target == old(temp) && temp == None
      ensures r.Err? ==> target == old(target) && temp == old(temp)
    {
      if !synced {
        return Err("fdatasync failed");
      }
      isOpen := false;
      if !closed {
        return Err("close failed");
      }
      if !renamed {
        return Err("rename failed");
      }
      target, temp, committed := temp, None, true;
      r := Ok(());
    }

    method Rollback()
      modifies this
      ensures !isOpen && target == old(target) && committed == old(committed)
      ensures temp == if committed then old(temp) else None
    {
      isOpen := false;
      if !committed {
        temp := None;
      }
    }
  }

  // ---------------------------------------------------------------- download loop

  /** The server's file record together with what the key and the manifest decrypt to. */
  datatype FileRecord = FileRecord(
    key: Key, vaultId: string, fileId: string,
    chunkSize: nat, totalChunks: nat, plaintextSize: nat,
    manifestSize: nat, manifest: seq<ManifestEntry>)

  /** The environment of one download: storage contents and every I/O outcome. */
  datatype DownloadIo = DownloadIo(
    stored: Bytes, granted: bool, writes: nat -> seq<Pwrite>, synced: bool, closed: bool, renamed: bool)

  function ManifestOf(chunks: seq<ChunkRecord>): seq<ManifestEntry>
  {
    seq(|chunks|, i requires 0 <= i < |chunks| => ManifestEntry(chunks[i].plainSize, chunks[i].cipherSize,
        chunks[i].hash))
  }

  /** The same manifest, except that plain sizes may be missing. */
  predicate Thinned(full: seq<ManifestEntry>, thin: seq<ManifestEntry>)
  {
    |full| == |thin| && forall i | 0 <= i < |full| :: thin[i] == full[i] || thin[i] == full[i].(plainSize := 0)
  }

  /**
   * The record is what the server keeps of an upload of `job`, with or without
   * plain sizes in the manifest, and storage holds the described object.
   */
  ghost predicate Faithful(job: FileJob, record: FileRecord, stored: Bytes)
  {
    && Supported(|job.content|)
    && |stored| < TWO_TO_64
    && record.key == job.key && record.vaultId == job.vaultId && record.fileId == job.fileId
    && record.chunkSize == CHUNK_SIZE && record.totalChunks == CastInt(ChunkCount(|job.content|))
    && record.plaintextSize == record.manifestSize == |job.content|
    && exists chunks: seq<ChunkRecord> ::
         |chunks| == ChunkCount(|job.content|) && Describes(job, 1, chunks, stored)
             && Thinned(ManifestOf(chunks), record.manifest)
  }

  /** Every parsed range holds its own chunk, at its own place. */
  ghost predicate Readable(job: FileJob, first: nat, chunks: seq<DownloadChunk>, stored: Bytes)
    requires first >= 1
  {
    forall i | 0 <= i < |chunks| ::
      && first + i <= ChunkCount(|job.content|)
      && chunks[i].index == first + i - 1
      && chunks[i].cipherStart + chunks[i].cipherSize <= |stored|
      && chunks[i].cipherSize > 0 && chunks[i].cipherEnd == chunks[i].cipherStart + chunks[i].cipherSize - 1
      && chunks[i].plainStart == ChunkStart(|job.content|, first + i)
      && job.crypto.decrypt(job.key, ChunkAad(job, first + i),
           stored[chunks[i].cipherStart..chunks[i].cipherStart + chunks[i].cipherSize])
               == Some(Chunk(job.content, first + i))
  }

  /** Parsing a describing manifest never fails and yields readable ranges, one per record. */
  lemma {:induction false} DescribedManifestIsReadable(job: FileJob, first: nat, chunks: seq<ChunkRecord>,
      prefix: Bytes, body: Bytes, fallback: nat, plaintextSize: nat)
    requires Supported(|job.content|) && 1 <= first <= ChunkCount(|job.content|) + 1
    requires Describes(job, first, chunks, body)
    requires |prefix + body| < TWO_TO_64
    ensures var r := ParseFrom(ManifestOf(chunks), |prefix|, ChunkStart(|job.content|, first), first - 1, fallback,
        plaintextSize);
            r.Ok? && |r.value| == |chunks| && Readable(job, first, r.value, prefix + body)
    decreases |chunks|
  {
    hide Sealed, Readable, Chunk, ChunkCount, ChunkStart, Wrap64, CastInt;
    if chunks == [] {
      ReadableNil(job, first, prefix + body);
    } else {
      var size := |job.content|;
      var c := chunks[0];
      var piece, rest := body[..c.cipherSize], body[c.cipherSize..];
      assert (prefix + piece) + rest == prefix + body;
      assert (prefix + body)[|prefix|..|prefix| + c.cipherSize] == piece;
      var e := ManifestOf(chunks)[0];
      var head := ParsedChunk(e, e.plainSize, |prefix|, ChunkStart(size, first), first - 1);
      EndDoesNotWrap(|prefix|, c.cipherSize, |prefix + body|);
      SealedHead(job, first, c, piece, head, prefix + body);
      DescribedManifestIsReadable(job, first + 1, chunks[1..], prefix + piece, rest, fallback, plaintextSize);
      assert ManifestOf(chunks)[1..] == ManifestOf(chunks[1..]);
      OffsetsDoNotWrap(size, first, |prefix|, c.cipherSize, e.plainSize, |prefix + body|);
      var tail := ParseFrom(ManifestOf(chunks[1..]), |prefix + piece|, ChunkStart(size, first + 1), first, fallback,
          plaintextSize);
      assert ParseFrom(ManifestOf(chunks), |prefix|, ChunkStart(size, first), first - 1, fallback, plaintextSize)
          == AppendParsed([head], tail);
      ReadableCons(job, first, head, tail.value, prefix + body);
    }
  }

  /** Leaving out any plain sizes of a describing manifest changes nothing: the parser finds them again. */
  lemma {:induction false} MissingSizesAreFilledIn(job: FileJob, first: nat, chunks: seq<ChunkRecord>, body: Bytes,
      entries: seq<ManifestEntry>, cipherOffset: nat)
    requires Supported(|job.content|) && 1 <= first <= ChunkCount(|job.content|) + 1
    requires Describes(job, first, chunks, body) && Thinned(ManifestOf(chunks), entries)
    ensures ParseFrom(entries, cipherOffset, ChunkStart(|job.content|, first), first - 1, CHUNK_SIZE, |job.content|)
         == ParseFrom(ManifestOf(chunks), cipherOffset, ChunkStart(|job.content|, first), first - 1, CHUNK_SIZE,
                      |job.content|)
    decreases |chunks|
  {
    hide Chunk, ChunkCount, ChunkStart, Wrap64, PlainSize, Sealed, ParseFrom;
    if chunks == [] {
      assert entries == ManifestOf(chunks);
    } else {
      var size, full, c := |job.content|, ManifestOf(chunks), chunks[0];
      PlainSizeOf(job, first, c, body[..c.cipherSize]);
      MissingSize(full[0], CHUNK_SIZE, size, ChunkStart(size, first));
      MissingSize(entries[0], CHUNK_SIZE, size, ChunkStart(size, first));
      assert full[1..] == ManifestOf(chunks[1..]);
      OffsetsDoNotWrap(size, first, 0, 0, c.plainSize, 0);
      MissingSizesAreFilledIn(job, first + 1, chunks[1..], body[c.cipherSize..], entries[1..],
        Wrap64(cipherOffset + c.cipherSize));
      SameHeadSameParse(entries, full, cipherOffset, ChunkStart(size, first), first - 1, CHUNK_SIZE, size);
    }
  }

  lemma SameHeadSameParse(a: seq<ManifestEntry>, b: seq<ManifestEntry>, cipherOffset: nat, plainOffset: nat, index: nat,
      fallback: nat, size: nat)
    requires a != [] && b != [] && a[0].cipherSize == b[0].cipherSize && a[0].hash == b[0].hash
    requires PlainSize(a[0], fallback, size, plainOffset) == PlainSize(b[0], fallback, size, plainOffset)
    requires var cipher := Wrap64(cipherOffset + a[0].cipherSize);
             var plain := Wrap64(plainOffset + PlainSize(a[0], fallback, size, plainOffset));
             ParseFrom(a[1..], cipher, plain, index + 1, fallback, size)
             == ParseFrom(b[1..], cipher, plain, index + 1, fallback, size)
    ensures ParseFrom(a, cipherOffset, plainOffset, index, fallback, size)
         == ParseFrom(b, cipherOffset, plainOffset, index, fallback, size)
  {
    hide Wrap64, PlainSize;
  }

  /** The plain size in a record is a whole chunk or, in the last one, what is left of the file. */
  lemma PlainSizeOf(job: FileJob, number: nat, c: ChunkRecord, piece: Bytes)
    requires Sealed(job, number, c, piece)
    ensures number <= ChunkCount(|job.content|) && ChunkStart(|job.content|, number) < |job.content|
    ensures c.plainSize == Min(CHUNK_SIZE, |job.content| - ChunkStart(|job.content|, number)) > 0
    ensures ChunkStart(|job.content|, number) + c.plainSize == ChunkStart(|job.content|, number + 1)
  {
  }

  lemma ReadableNil(job: FileJob, first: nat, stored: Bytes)
    requires first >= 1
    ensures Readable(job, first, [], stored)
  {
  }

  /** A sealed piece found where the parsed head points makes the head readable. */
  lemma SealedHead(job: FileJob, first: nat, c: ChunkRecord, piece: Bytes, head: DownloadChunk, stored: Bytes)
    requires first >= 1 && Sealed(job, first, c, piece)
    requires head.index == first - 1 && head.cipherSize == c.cipherSize
    requires head.cipherStart + c.cipherSize <= |stored|
    requires c.cipherSize > 0 ==> head.cipherEnd == head.cipherStart + c.cipherSize - 1
    requires stored[head.cipherStart..head.cipherStart + c.cipherSize] == piece
    requires head.plainStart == ChunkStart(|job.content|, first)
    ensures first <= ChunkCount(|job.content|)
    ensures c.cipherSize > 0 && c.plainSize > 0
    ensures ChunkStart(|job.content|, first) + c.plainSize == ChunkStart(|job.content|, first + 1)
    ensures Readable(job, first, [head], stored)
  {
    ChunksTileTheContent(job.content, first);
  }

  lemma EndDoesNotWrap(prefix: nat, cipher: nat, total: nat)
    requires prefix + cipher <= total < TWO_TO_64
    ensures cipher > 0 ==> Wrap64(prefix + cipher - 1) == prefix + cipher - 1
  {
  }

  lemma OffsetsDoNotWrap(size: nat, first: nat, prefix: nat, cipher: nat, plain: nat, total: nat)
    requires Supported(size) && 1 <= first <= ChunkCount(size)
    requires ChunkStart(size, first) + plain == ChunkStart(size, first + 1)
    requires prefix + cipher <= total < TWO_TO_64
    ensures Wrap64(prefix + cipher) == prefix + cipher
    ensures Wrap64(ChunkStart(size, first) + plain) == ChunkStart(size, first + 1)
  {
  }

  lemma ReadableCons(job: FileJob, first: nat, head: DownloadChunk, tail: seq<DownloadChunk>, stored: Bytes)
    requires first >= 1
    requires Readable(job, first, [head], stored) && Readable(job, first + 1, tail, stored)
    ensures Readable(job, first, [head] + tail, stored)
  {
    hide Chunk, ChunkCount, ChunkStart;
    var all := [head] + tail;
    forall i | 0 <= i < |all|
      ensures Readable(job, first + i, [all[i]], stored)
    {
      if i > 0 {
        assert all[i] == tail[i - 1];
      }
    }
    forall i | 0 <= i < |all|
      ensures [all[i]][0] == all[i]
    {
    }
  }

  /** Writing chunk after chunk grows the correct prefix. */
  lemma WrittenPrefixGrows(content: Bytes, file: Bytes, number: nat)
    requires 1 <= number <= ChunkCount(|content|)
    requires |file| == |content|
    requires file[..ChunkStart(|content|, number)] == content[..ChunkStart(|content|, number)]
    ensures var file' := Overwrite(file, ChunkStart(|content|, number), Chunk(content, number));
            && |file'| == |content|
            && file'[..ChunkStart(|content|, number + 1)] == content[..ChunkStart(|content|, number + 1)]
  {
    ChunksTileTheContent(content, number);
    var at := ChunkStart(|content|, number);
    var file' := Overwrite(file, at, Chunk(content, number));
    assert file'[..at + |Chunk(content, number)|] == file[..at] + Chunk(content, number);
  }

  /** Range request and decryption of one chunk; None when either fails. */
  function FetchPlain(crypto: Crypto, record: FileRecord, chunk: DownloadChunk, stored: Bytes): Option<Bytes>
  {
    if chunk.cipherStart >= |stored| then None
    else
      crypto.decrypt(record.key,
        FileChunkAad(record.vaultId, record.fileId, CastInt(chunk.index + 1), record.chunkSize, record.totalChunks),
        stored[chunk.cipherStart..Min(chunk.cipherStart + chunk.cipherSize, |stored|)])
  }

  lemma FaithfulFetch(job: FileJob, record: FileRecord, chunks: seq<DownloadChunk>, stored: Bytes, i: nat)
    requires Faithful(job, record, stored) && Readable(job, 1, chunks, stored) && i < |chunks|
    ensures 1 + i <= ChunkCount(|job.content|)
    ensures FetchPlain(job.crypto, record, chunks[i], stored) == Some(Chunk(job.content, 1 + i))
    ensures chunks[i].plainStart == ChunkStart(|job.content|, 1 + i)
  {
    RecordAad(job, record, stored, 1 + i);
    hide Chunk, ChunkCount, ChunkStart, CastInt, Faithful;
    assert chunks[i].index == 1 + i - 1;
  }

  /** No write outcome in the list makes the writer give up. */
  predicate Benign(outcomes: seq<Pwrite>)
  {
    forall k | 0 <= k < |outcomes| :: outcomes[k] != Failed && outcomes[k] != Wrote(0)
  }

  /** Neither the writes nor the other system calls of a download fail. */
  ghost predicate AllSucceed(io: DownloadIo)
  {
    io.granted && io.synced && io.closed && io.renamed && forall c :: Benign(io.writes(c))
  }

  /** The chunks are those of a faithful record of the job, and the file has been given its size. */
  ghost predicate Expected(crypto: Crypto, record: FileRecord, chunks: seq<DownloadChunk>, stored: Bytes, job: FileJob,
      size: nat)
  {
    && crypto == job.crypto && Faithful(job, record, stored) && Readable(job, 1, chunks, stored)
    && |chunks| == ChunkCount(|job.content|) && size == |job.content|
  }

  lemma ExpectedStart(crypto: Crypto, record: FileRecord, chunks: seq<DownloadChunk>, stored: Bytes, job: FileJob,
      file: Bytes)
    requires Expected(crypto, record, chunks, stored, job, |file|)
    ensures |job.content| >= 1 && |chunks| == ChunkCount(|job.content|) && WrittenUpTo(job.content, file, 1)
  {
    hide Readable, ChunkCount;
    NothingWritten(job.content, file);
  }

  lemma ExpectedChunk(crypto: Crypto, record: FileRecord, chunks: seq<DownloadChunk>, stored: Bytes, job: FileJob,
      size: nat, i: nat)
    requires Expected(crypto, record, chunks, stored, job, size) && i < |chunks|
    ensures i + 1 <= ChunkCount(|job.content|) && chunks[i].plainStart == ChunkStart(|job.content|, i + 1)
    ensures FetchPlain(crypto, record, chunks[i], stored) == Some(Chunk(job.content, i + 1))
  {
    hide Readable, Faithful, ChunkCount, FetchPlain, Chunk, ChunkStart;
    FaithfulFetch(job, record, chunks, stored, i);
  }

  /** The chunk loop: fetch, decrypt, write in place; stops at the first failure. */
  method WriteChunks(crypto: Crypto, record: FileRecord, chunks: seq<DownloadChunk>, io: DownloadIo,
      writer: AtomicFileWriter, ghost job: FileJob)
    returns (r: Result<()>)
    requires writer.temp.Some?
    modifies writer`temp
    ensures writer.temp.Some?
    ensures Expected(crypto, record, chunks, io.stored, job, |old(writer.temp.value)|) ==>
              && (r.Ok? ==> writer.temp == Some(job.content))
              && ((forall c :: Benign(io.writes(c))) ==> r.Ok?)
  {
    hide Chunk, ChunkCount, ChunkStart, Overwrite, FetchPlain, WrittenUpTo, Benign, Expected;
    var i := 0;
    ghost var faithful := Expected(crypto, record, chunks, io.stored, job, |writer.temp.value|);
    if faithful {
      ExpectedStart(crypto, record, chunks, io.stored, job, writer.temp.value);
    }
    while i < |chunks|
      invariant 0 <= i <= |chunks|
      invariant writer.temp.Some?
      invariant faithful ==> |chunks| == ChunkCount(|job.content|) && WrittenUpTo(job.content, writer.temp.value, i + 1)
    {
      if faithful {
        ExpectedChunk(crypto, record, chunks, io.stored, job, |old(writer.temp.value)|, i);
        WrittenOneMore(job.content, writer.temp.value, i + 1);
      }
      var plain := FetchPlain(crypto, record, chunks[i], io.stored);
      if plain.None? {
        return Err("chunk could not be fetched and decrypted");
      }
      r := writer.WriteAt(chunks[i].plainStart, plain.value, io.writes(i));
      if r.Err? {
        NotBenign(io.writes(i));
        return;
      }
      i := i + 1;
    }
    if faithful {
      WholeFileWritten(job.content, writer.temp.value);
    }
    r := Ok(());
  }

  /** The file has its final size and the chunks before `number` are in place. */
  predicate WrittenUpTo(content: Bytes, file: Bytes, number: nat)
    requires 1 <= number <= ChunkCount(|content|) + 1
  {
    |file| == |content| && 0 <= ChunkStart(|content|, number) <= |content|
    && file[..ChunkStart(|content|, number)] == content[..ChunkStart(|content|, number)]
  }

  lemma NothingWritten(content: Bytes, file: Bytes)
    requires |file| == |content|
    ensures WrittenUpTo(content, file, 1)
  {
    FirstChunkStart(content);
  }

  lemma WrittenOneMore(content: Bytes, file: Bytes, number: nat)
    requires 1 <= number <= ChunkCount(|content|) && WrittenUpTo(content, file, number)
    ensures WrittenUpTo(content, Overwrite(file, ChunkStart(|content|, number), Chunk(content, number)), number + 1)
  {
    WrittenPrefixGrows(content, file, number);
    StartWithin(|content|, number + 1);
  }

  lemma NotBenign(outcomes: seq<Pwrite>)
    ensures (forall k | 0 <= k < |outcomes| :: outcomes[k] != Failed && outcomes[k] != Wrote(0)) <==> Benign(outcomes)
  {
  }

  lemma StartWithin(size: nat, number: nat)
    requires 1 <= number <= ChunkCount(size) + 1
    ensures 0 <= ChunkStart(size, number) <= size
  {
  }

  lemma FirstChunkStart(content: Bytes)
    ensures ChunkStart(|content|, 1) == 0
  {
  }

  /**
   * Downloads a file through its record. A failed call leaves the target path
   * as it was and no temporary file. A successful call on a faithful record
   * leaves exactly the uploaded content, whatever partial writes occurred.
   */
  method DownloadFile(crypto: Crypto, record: FileRecord, io: DownloadIo, writer: AtomicFileWriter, ghost job: FileJob)
    returns (r: Result<()>)
    requires writer.temp == Some([]) && writer.isOpen && !writer.committed
    modifies writer
    ensures r.Err? ==> writer.target == old(writer.target) && writer.temp == None && !writer.isOpen
    ensures r.Ok? ==> writer.committed && writer.temp == None
    ensures r.Ok? && crypto == job.crypto && Faithful(job, record, io.stored) ==> writer.target == Some(job.content)
    ensures crypto == job.crypto && Faithful(job, record, io.stored) && AllSucceed(io) ==> r.Ok?
  {
    var parsed := ParseDownloadManifest(record.manifest, record.chunkSize, record.plaintextSize);
    if crypto == job.crypto && Faithful(job, record, io.stored) {
      FaithfulIsReadable(job, record, io.stored);
    }
    hide ParseFrom, Faithful, Readable;
    if parsed.Err? {
      writer.Rollback();
      return Err(parsed.message);
    }
    r := writer.Preallocate(record.manifestSize, io.granted);
    if r.Ok? {
      r := WriteChunks(crypto, record, parsed.value, io, writer, job);
    }
    if r.Ok? {
      r := writer.Commit(io.synced, io.closed, io.renamed);
    }
    if r.Err? {
      writer.Rollback();
    }
  }

  lemma WholeFileWritten(content: Bytes, file: Bytes)
    requires |content| >= 1 && WrittenUpTo(content, file, ChunkCount(|content|) + 1)
    ensures file == content
  {
    ChunksTileTheContent(content, ChunkCount(|content|));
  }

  lemma RecordAad(job: FileJob, record: FileRecord, stored: Bytes, number: nat)
    requires Faithful(job, record, stored)
    ensures FileChunkAad(record.vaultId, record.fileId, CastInt(number), record.chunkSize, record.totalChunks)
         == ChunkAad(job, number)
    ensures record.key == job.key
  {
  }

  lemma FaithfulIsReadable(job: FileJob, record: FileRecord, stored: Bytes)
    requires Faithful(job, record, stored)
    ensures var r := ParseFrom(record.manifest, 0, 0, 0, record.chunkSize, record.plaintextSize);
            r.Ok? && |r.value| == ChunkCount(|job.content|) && Readable(job, 1, r.value, stored)
    ensures record.manifestSize == |job.content| >= 1
    ensures ChunkStart(|job.content|, 1) == 0
  {
    var chunks: seq<ChunkRecord> :|
      |chunks| == ChunkCount(|job.content|) && Describes(job, 1, chunks, stored)
          && Thinned(ManifestOf(chunks), record.manifest);
    assert [] + stored == stored;
    assert ChunkStart(|job.content|, 1) == 0;
    MissingSizesAreFilledIn(job, 1, chunks, stored, record.manifest, 0);
    DescribedManifestIsReadable(job, 1, chunks, [], stored, record.chunkSize, record.plaintextSize);
  }
}
