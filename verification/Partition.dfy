/**
 * Chunk and part arithmetic: the upload planner, the per-part byte range, the
 * chunk window handed to the file reader, and the reader's own checks.
 *
 * The source computes in uint64_t. Sums, differences and products are written
 * with an explicit reduction modulo 2^64, so that freedom from wrap-around is
 * something proved and not something assumed.
 */
module Partition {
  import opened Basics

  const CHUNK_SIZE: nat := 4194304
  const MULTIPART_PART_SIZE: nat := 8388608
  const TWO_TO_64: nat := 18446744073709551616
  const INT_MAX: nat := 2147483647
  const INT64_MAX: nat := 9223372036854775807

  /** Largest size whose chunk numbers still fit the C++ `int` of the protocol. */
  const MAX_SIZE: nat := 9007199250546688

  function Wrap64(x: int): (r: nat)
    ensures r < TWO_TO_64
  {
    x % TWO_TO_64
  }

  /** `static_cast<int>` of an unsigned value: keep 32 bits, read them as signed. */
  function CastInt(x: nat): int
  {
    var low := x % 4294967296;
    if low <= INT_MAX then low else low - 4294967296
  }

  /** The cast keeps the value modulo 2^32 and is a 32-bit int. */
  lemma CastIsTruncation(x: nat)
    ensures -2147483648 <= CastInt(x) <= 2147483647 && (x - CastInt(x)) % 4294967296 == 0
  {
    assert x == x / 4294967296 * 4294967296 + x % 4294967296;
  }

  datatype UploadPlan = UploadPlan(
    originalSize: nat,
    fileChunkSize: nat,
    totalChunks: nat,
    uploadPartSize: nat,
    chunksPerUploadPart: nat,
    uploadPartCount: nat)

  datatype PartPlan = PartPlan(
    partNumber: nat,
    partStart: nat,
    partEnd: nat,
    firstChunkNumber: nat)

  function CreatePlan(size: nat): UploadPlan
  {
    var totalChunks := Max(1, Wrap64(size + CHUNK_SIZE - 1) / CHUNK_SIZE);
    var uploadPartSize := if totalChunks > 1 then MULTIPART_PART_SIZE else CHUNK_SIZE;
    var chunksPerUploadPart := Max(1, uploadPartSize / CHUNK_SIZE);
    var uploadPartCount := Max(1, Wrap64(totalChunks + chunksPerUploadPart - 1) / chunksPerUploadPart);
    UploadPlan(size, CHUNK_SIZE, totalChunks, uploadPartSize, chunksPerUploadPart, uploadPartCount)
  }

  function MakePartPlan(partNumber: nat, plan: UploadPlan): PartPlan
    requires plan.fileChunkSize > 0
  {
    var partStart := Wrap64(Wrap64(partNumber - 1) * plan.uploadPartSize);
    var partEnd := Min(Wrap64(partStart + plan.uploadPartSize), plan.originalSize);
    PartPlan(partNumber, partStart, partEnd, Wrap64(partStart / plan.fileChunkSize + 1))
  }

  /** Number of chunks a worker asks its reader for. */
  function PartChunkCount(part: PartPlan, plan: UploadPlan): nat
    requires plan.fileChunkSize > 0
  {
    Wrap64(Wrap64(part.partEnd - part.partStart) + plan.fileChunkSize - 1) / plan.fileChunkSize
  }

  datatype WindowError =
    | ChunkSizeZero | TotalChunksZero | FirstChunkZero | ChunkCountZero
    | FirstChunkBeyondTotal | WindowBeyondTotal

  /** The constructor checks of the windowed reader, in source order. */
  function CheckWindow(chunkSize: nat, totalChunks: nat, firstChunkNumber: nat, chunkCount: nat): Option<WindowError>
  {
    var next := if firstChunkNumber > 0 then firstChunkNumber - 1 else 0;
    var end := Wrap64(next + chunkCount);
    if chunkSize == 0 then Some(ChunkSizeZero)
    else if totalChunks == 0 then Some(TotalChunksZero)
    else if firstChunkNumber == 0 then Some(FirstChunkZero)
    else if chunkCount == 0 then Some(ChunkCountZero)
    else if next >= totalChunks then Some(FirstChunkBeyondTotal)
    else if end > totalChunks then Some(WindowBeyondTotal)
    else None
  }

  /**
   * Which windows pass, for all 64-bit arguments: those within the chunks of
   * the file, and those so long that their end wraps around. The errors are
   * told in the order of the checks.
   */
  lemma WindowAcceptedExactly(chunkSize: nat, totalChunks: nat, firstChunkNumber: nat, chunkCount: nat)
    requires totalChunks < TWO_TO_64 && firstChunkNumber < TWO_TO_64 && chunkCount < TWO_TO_64
    ensures var error := CheckWindow(chunkSize, totalChunks, firstChunkNumber, chunkCount);
            && (error == None <==>
                  && chunkSize >= 1 && 1 <= firstChunkNumber <= totalChunks && chunkCount >= 1
                  && (firstChunkNumber + chunkCount <= totalChunks + 1 || firstChunkNumber + chunkCount > TWO_TO_64))
            && (error == Some(ChunkSizeZero) <==> chunkSize == 0)
            && (error == Some(TotalChunksZero) <==> chunkSize > 0 && totalChunks == 0)
            && (error == Some(FirstChunkZero) <==> chunkSize > 0 && totalChunks > 0 && firstChunkNumber == 0)
            && (error == Some(ChunkCountZero) <==>
                  chunkSize > 0 && totalChunks > 0 && firstChunkNumber > 0 && chunkCount == 0)
            && (error == Some(FirstChunkBeyondTotal) <==>
                  chunkSize > 0 && totalChunks > 0 && chunkCount > 0 && firstChunkNumber > totalChunks)
  {
  }

  /** Sizes for which the whole pipeline is defined. */
  predicate Supported(size: nat) { 1 <= size <= MAX_SIZE }

  /** Ceiling division by the chunk size, the number of chunks of a non-empty file. */
  function ChunkCount(size: nat): nat { (size + 4194303) / 4194304 }

  /** First chunk number of a part, in closed form. */
  function WindowFirst(size: nat, part: nat): nat
    requires part >= 1
  {
    if ChunkCount(size) == 1 then part else 2 * part - 1
  }

  /** Number of parts, in closed form. */
  function PartCount(size: nat): nat
  {
    if ChunkCount(size) == 1 then 1 else (ChunkCount(size) + 1) / 2
  }

  /** Number of chunks of a part, in closed form. */
  function WindowLength(size: nat, part: nat): nat
    requires Supported(size) && 1 <= part <= PartCount(size)
  {
    if ChunkCount(size) == 1 then 1 else Min(2, ChunkCount(size) - 2 * (part - 1))
  }

  /** For supported sizes no 64-bit operation of the planner wraps. */
  lemma PlanIsExact(size: nat)
    requires Supported(size)
    ensures var plan := CreatePlan(size);
            && plan.originalSize == size
            && plan.fileChunkSize == CHUNK_SIZE
            && plan.totalChunks == ChunkCount(size)
            && plan.uploadPartCount == PartCount(size)
            && plan.uploadPartSize == plan.chunksPerUploadPart * CHUNK_SIZE
            && plan.chunksPerUploadPart == (if ChunkCount(size) == 1 then 1 else 2)
    ensures 1 <= ChunkCount(size) <= INT_MAX
    ensures 1 <= PartCount(size) <= ChunkCount(size)
  {
  }

  /** Every part's byte range and chunk window, without wrap-around. */
  lemma PartIsExact(size: nat, part: nat)
    requires Supported(size) && 1 <= part <= PartCount(size)
    ensures var plan := CreatePlan(size);
            var p := MakePartPlan(part, plan);
            && p.partNumber == part
            && p.partStart == CHUNK_SIZE * (WindowFirst(size, part) - 1)
            && p.partEnd == Min(p.partStart + plan.uploadPartSize, size)
            && p.firstChunkNumber == WindowFirst(size, part)
            && p.partStart < p.partEnd <= size
            && PartChunkCount(p, plan) == WindowLength(size, part)
  {
    hide CreatePlan, MakePartPlan, PartChunkCount, Wrap64, ChunkCount;
    PlanIsExact(size);
    var plan := CreatePlan(size);
    if ChunkCount(size) == 1 {
      OnlyPart(size, plan);
    } else {
      MultipartRange(size, part);
      UnwrappedPart(part, plan);
    }
  }

  lemma OnlyPart(size: nat, plan: UploadPlan)
    requires Supported(size) && ChunkCount(size) == 1
    requires plan.originalSize == size && plan.fileChunkSize == plan.uploadPartSize == 4194304
    ensures var p := MakePartPlan(1, plan);
            p == PartPlan(1, 0, size, 1) && PartChunkCount(p, plan) == 1 && size <= 4194304
  {
  }

  /** A part of a multipart plan whose range stays below 2^63 is computed without wrap-around. */
  lemma UnwrappedPart(part: nat, plan: UploadPlan)
    requires part >= 1 && plan.fileChunkSize == 4194304 && plan.uploadPartSize == 8388608
    requires 8388608 * part < 9223372036854775807
    requires 8388608 * (part - 1) < plan.originalSize < 9223372036854775807
    ensures var p := MakePartPlan(part, plan);
            && p.partNumber == part
            && p.partStart == 8388608 * (part - 1)
            && p.partEnd == Min(8388608 * part, plan.originalSize)
            && p.firstChunkNumber == 2 * part - 1
            && PartChunkCount(p, plan) == (p.partEnd - p.partStart + 4194303) / 4194304
  {
    assert Wrap64(part - 1) == part - 1;
    assert Wrap64((part - 1) * 8388608) == 8388608 * (part - 1);
    assert Wrap64(8388608 * (part - 1) + 8388608) == 8388608 * part;
  }

  lemma MultipartRange(size: nat, part: nat)
    requires Supported(size) && ChunkCount(size) > 1 && 1 <= part <= PartCount(size)
    ensures 8388608 * (part - 1) < size
    ensures 8388608 * part < 9223372036854775807
    ensures (8388608 * (part - 1)) / 4194304 == 2 * (part - 1)
    ensures var end := Min(8388608 * part, size);
            (end - 8388608 * (part - 1) + 4194303) / 4194304 == Min(2, ChunkCount(size) - 2 * (part - 1))
  {
  }

  /** The part byte ranges are non-empty and tile [0, size) in order. */
  lemma PartsTileTheFile(size: nat)
    requires Supported(size)
    ensures var plan := CreatePlan(size);
            && MakePartPlan(1, plan).partStart == 0
            && MakePartPlan(plan.uploadPartCount, plan).partEnd == size
            && (forall n | 1 <= n <= plan.uploadPartCount ::
                  MakePartPlan(n, plan).partStart < MakePartPlan(n, plan).partEnd)
            && (forall n | 1 <= n < plan.uploadPartCount ::
                  MakePartPlan(n, plan).partEnd == MakePartPlan(n + 1, plan).partStart)
  {
    PlanIsExact(size);
    var plan := CreatePlan(size);
    PartIsExact(size, 1);
    PartIsExact(size, plan.uploadPartCount);
    forall n | 1 <= n <= plan.uploadPartCount
      ensures MakePartPlan(n, plan).partStart < MakePartPlan(n, plan).partEnd
    {
      PartIsExact(size, n);
    }
    forall n | 1 <= n < plan.uploadPartCount
      ensures MakePartPlan(n, plan).partEnd == MakePartPlan(n + 1, plan).partStart
    {
      PartIsExact(size, n);
      PartIsExact(size, n + 1);
    }
  }

  /** The chunk windows tile 1..totalChunks in order. */
  lemma WindowsTileTheChunks(size: nat)
    requires Supported(size)
    ensures WindowFirst(size, 1) == 1
    ensures forall n | 1 <= n < PartCount(size) ::
              WindowFirst(size, n) + WindowLength(size, n) == WindowFirst(size, n + 1)
    ensures WindowFirst(size, PartCount(size)) + WindowLength(size, PartCount(size)) == ChunkCount(size) + 1
  {
    PlanIsExact(size);
  }

  /**
   * The windowed reader accepts every part of a plan exactly when the file is
   * not empty: the planner still gives an empty file one part, whose window
   * holds no chunk and is refused.
   */
  lemma WindowsAcceptedIffNotEmpty(size: nat)
    requires size <= MAX_SIZE
    ensures var plan := CreatePlan(size);
            (forall n | 1 <= n <= plan.uploadPartCount ::
               var p := MakePartPlan(n, plan);
               CheckWindow(plan.fileChunkSize, plan.totalChunks, p.firstChunkNumber, PartChunkCount(p, plan)) == None)
            <==> size >= 1
  {
    var plan := CreatePlan(size);
    if size == 0 {
      var p := MakePartPlan(1, plan);
      assert plan.uploadPartCount == 1;
      assert CheckWindow(plan.fileChunkSize, plan.totalChunks, p.firstChunkNumber, PartChunkCount(p, plan))
          == Some(ChunkCountZero);
    } else {
      PlanIsExact(size);
      forall n | 1 <= n <= plan.uploadPartCount
        ensures var p := MakePartPlan(n, plan);
                CheckWindow(plan.fileChunkSize, plan.totalChunks, p.firstChunkNumber, PartChunkCount(p, plan)) == None
      {
        PartIsExact(size, n);
      }
    }
  }

  /**
   * The protocol carries chunk and part counts as `int`. For the sizes a file
   * entry can record (int64), the casts keep both values exactly up to
   * MAX_SIZE bytes.
   */
  lemma CastsExactIffSupported(size: nat)
    requires size <= INT64_MAX
    ensures var plan := CreatePlan(size);
            (CastInt(plan.totalChunks) == plan.totalChunks && CastInt(plan.uploadPartCount) == plan.uploadPartCount)
            <==> size <= MAX_SIZE
  {
    CountsOf(size);
    CastIntExact(CreatePlan(size).totalChunks);
    CastIntExact(CreatePlan(size).uploadPartCount);
    hide CreatePlan, CastInt, ChunkCount;
  }

  lemma CountsOf(size: nat)
    requires size <= INT64_MAX
    ensures CreatePlan(size).totalChunks <= INT_MAX <==> size <= MAX_SIZE
    ensures CreatePlan(size).uploadPartCount <= CreatePlan(size).totalChunks
  {
    assert Wrap64(size + CHUNK_SIZE - 1) == size + 4194303;
    assert CreatePlan(size).totalChunks == Max(1, ChunkCount(size));
  }

  lemma CastIntExact(x: nat)
    ensures CastInt(x) == x <==> x <= INT_MAX
  {
  }

  // ---------------------------------------------------------------- chunks

  /** The bytes of chunk `number` (numbered from 1). */
  function Chunk(content: Bytes, number: nat): (r: Bytes)
    requires 1 <= number <= ChunkCount(|content|)
    ensures 1 <= |r| <= CHUNK_SIZE
    ensures number < ChunkCount(|content|) ==> |r| == CHUNK_SIZE
  {
    content[(number - 1) * 4194304 .. Min(number * 4194304, |content|)]
  }

  /** Offset of the first byte of chunk `number`; also valid one past the last chunk. */
  function ChunkStart(size: nat, number: nat): nat
    requires 1 <= number <= ChunkCount(size) + 1
  {
    Min((number - 1) * 4194304, size)
  }

  /** The chunks are consecutive slices of the content and cover it. */
  lemma ChunksTileTheContent(content: Bytes, number: nat)
    requires 1 <= number <= ChunkCount(|content|)
    ensures ChunkStart(|content|, number) + |Chunk(content, number)| == ChunkStart(|content|, number + 1)
    ensures content[..ChunkStart(|content|, number)] + Chunk(content, number)
        == content[..ChunkStart(|content|, number + 1)]
    ensures ChunkStart(|content|, ChunkCount(|content|) + 1) == |content|
  {
  }
}
