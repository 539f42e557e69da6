/**
 * The upload job runner: claimed queue jobs become batch items, and the batch's
 * results become job results and entry marks.
 */
module JobRunner {
  import opened Basics
  import opened Batch

  datatype Job = Job(id: string, entryId: string)

  /** A job with an empty error is marked done by the queue, any other one failed. */
  datatype JobResult = JobResult(job: Job, error: string)

  /** `markEntryUploaded` as called: entry, remote file id, remote parent. */
  datatype Mark = Mark(entryId: string, fileId: string, folderId: Option<string>)

  /**
   * `prepare` is the check of one job: it throws, finds that the policy no
   * longer decides Upload, or yields the item to upload. `mark` records an
   * upload on its entry, and may throw.
   */
  datatype Runner = Runner(prepare: Job -> Result<Option<Item>>, world: World, mark: Mark -> Result<()>)

  /** Exceptions carry a message: literals, system, database, curl, cipher and HTTP errors all do. */
  ghost predicate RunnerSpeaks(r: Runner)
  {
    Speaks(r.world) && forall job :: r.prepare(job).Err? ==> r.prepare(job).message != ""
  }

  function ItemOf(r: Runner, job: Job): Item
    requires r.prepare(job).Ok? && r.prepare(job).value.Some?
  {
    r.prepare(job).value.value.(id := job.id)
  }

  predicate IsItem(r: Runner, job: Job) { r.prepare(job).Ok? && r.prepare(job).value.Some? }

  function Items(r: Runner, jobs: seq<Job>): seq<Item>
  {
    if jobs == [] then []
    else
      var n := |jobs| - 1;
      Items(r, jobs[..n]) + if IsItem(r, jobs[n]) then [ItemOf(r, jobs[n])] else []
  }

  predicate DistinctJobs(jobs: seq<Job>)
  {
    forall i, j | 0 <= i < |jobs| && 0 <= j < |jobs| && jobs[i].id == jobs[j].id :: i == j
  }

  function Base(r: Runner, job: Job): string
  {
    if r.prepare(job).Err? then r.prepare(job).message else ""
  }

  predicate MatchesJobs(jobs: seq<Job>, results: seq<JobResult>)
  {
    |results| == |jobs| && forall k | 0 <= k < |jobs| :: results[k].job == jobs[k]
  }

  // ---------------------------------------------------------------- items of a batch

  lemma {:induction false} ItemsOrigin(r: Runner, jobs: seq<Job>, i: nat)
    requires i < |Items(r, jobs)|
    ensures exists k :: 0 <= k < |jobs| && IsItem(r, jobs[k]) && Items(r, jobs)[i] == ItemOf(r, jobs[k])
    decreases |jobs|
  {
    var n := |jobs| - 1;
    if i < |Items(r, jobs[..n])| {
      ItemsOrigin(r, jobs[..n], i);
      var k :| 0 <= k < n && IsItem(r, jobs[..n][k]) && Items(r, jobs[..n])[i] == ItemOf(r, jobs[..n][k]);
      assert jobs[k] == jobs[..n][k];
    } else {
      assert jobs[n] == jobs[n];
    }
  }

  lemma {:induction false} ItemsCover(r: Runner, jobs: seq<Job>, k: nat)
    requires k < |jobs| && IsItem(r, jobs[k])
    ensures ItemOf(r, jobs[k]) in Items(r, jobs)
    decreases |jobs|
  {
    var n := |jobs| - 1;
    if k < n {
      ItemsCover(r, jobs[..n], k);
    }
  }

  lemma {:induction false} ItemsDistinct(r: Runner, jobs: seq<Job>)
    requires DistinctJobs(jobs)
    ensures Distinct(Items(r, jobs))
    decreases |jobs|
  {
    if jobs != [] {
      var n := |jobs| - 1;
      var before := Items(r, jobs[..n]);
      ItemsDistinct(r, jobs[..n]);
      if IsItem(r, jobs[n]) {
        forall i | 0 <= i < |before| ensures before[i].id != jobs[n].id {
          ItemsOrigin(r, jobs[..n], i);
          var k :| 0 <= k < n && IsItem(r, jobs[..n][k]) && before[i] == ItemOf(r, jobs[..n][k]);
          assert jobs[k].id == jobs[..n][k].id;
        }
      }
    }
  }

  // ---------------------------------------------------------------- the runner

  method PrepareJobs(r: Runner, jobs: seq<Job>) returns (results: seq<JobResult>, items: seq<Item>)
    ensures MatchesJobs(jobs, results)
    ensures forall k | 0 <= k < |jobs| :: results[k].error == Base(r, jobs[k])
    ensures items == Items(r, jobs)
  {
    results, items := [], [];
    var i := 0;
    while i < |jobs|
      invariant 0 <= i <= |jobs| && |results| == i
      invariant forall k | 0 <= k < i :: results[k] == JobResult(jobs[k], Base(r, jobs[k]))
      invariant items == Items(r, jobs[..i])
    {
      assert jobs[..i + 1][..i] == jobs[..i];
      match r.prepare(jobs[i])
      {
        case Err(message) => results := results + [JobResult(jobs[i], message)];
        case Ok(item) =>
          if item.Some? {
            items := items + [item.value.(id := jobs[i].id)];
          }
          results := results + [JobResult(jobs[i], "")];
      }
      i := i + 1;
    }
    assert jobs[..i] == jobs;
  }

  method LocateJob(results: seq<JobResult>, id: string) returns (k: nat)
    ensures k <= |results|
    ensures k < |results| ==> results[k].job.id == id
    ensures forall i | 0 <= i < k :: results[i].job.id != id
  {
    k := 0;
    while k < |results| && results[k].job.id != id
      invariant k <= |results|
      invariant forall i | 0 <= i < k :: results[i].job.id != id
    {
      k := k + 1;
    }
  }

  /** What one batch result makes of its job's error. */
  function ErrorOf(upload: BatchResult): string
  {
    if upload.response.Some? then "" else if upload.error == "" then "Upload failed" else upload.error
  }

  function MarkOf(job: Job, item: Item, upload: BatchResult): Mark
    requires upload.response.Some?
  {
    Mark(job.entryId, upload.response.value.fileId, item.folderId)
  }

  /** The job errors after the first `n` batch results were handed out. */
  ghost predicate HandedOut(r: Runner, jobs: seq<Job>, results: seq<JobResult>, uploads: seq<BatchResult>, n: nat)
    requires n <= |uploads| == |Items(r, jobs)|
  {
    && MatchesJobs(jobs, results)
    && (forall k | 0 <= k < |jobs| && !IsItem(r, jobs[k]) :: results[k].error == Base(r, jobs[k]))
    && (forall k, i | 0 <= k < |jobs| && IsItem(r, jobs[k]) && 0 <= i < |uploads|
        && Items(r, jobs)[i] == ItemOf(r, jobs[k]) ::
          results[k].error == if i < n then ErrorOf(uploads[i]) else "")
  }

  /** Job `k` owns item `i` of the batch. */
  predicate Owns(r: Runner, jobs: seq<Job>, k: int, i: int)
  {
    0 <= k < |jobs| && IsItem(r, jobs[k]) && 0 <= i < |Items(r, jobs)| && Items(r, jobs)[i] == ItemOf(r, jobs[k])
  }

  /** Exactly the responses among the first `n` results are marked, each on the entry of the job that owns it. */
  ghost predicate MarkedExactly(r: Runner, jobs: seq<Job>, uploads: seq<BatchResult>, n: nat, marks: seq<Mark>)
    requires n <= |uploads| == |Items(r, jobs)|
  {
    && (forall k, i | Owns(r, jobs, k, i) && i < n && uploads[i].response.Some? ::
          MarkOf(jobs[k], ItemOf(r, jobs[k]), uploads[i]) in marks)
    && (forall m | m in marks ::
          exists k, i :: Owns(r, jobs, k, i) && i < n && uploads[i].response.Some?
                         && m == MarkOf(jobs[k], ItemOf(r, jobs[k]), uploads[i]))
  }

  method LocateItem(items: seq<Item>, id: string) returns (k: nat)
    ensures k <= |items|
    ensures k < |items| ==> items[k].id == id
    ensures forall i | 0 <= i < k :: items[i].id != id
  {
    k := 0;
    while k < |items| && items[k].id != id
      invariant k <= |items|
      invariant forall i | 0 <= i < k :: items[i].id != id
    {
      k := k + 1;
    }
  }

  /** With distinct jobs an item has one owner, and it is found by id. */
  lemma OwnerFound(r: Runner, jobs: seq<Job>, i: nat, k: nat)
    requires DistinctJobs(jobs) && i < |Items(r, jobs)|
    requires k <= |jobs| && (k < |jobs| ==> jobs[k].id == Items(r, jobs)[i].id)
    requires forall j | 0 <= j < k :: jobs[j].id != Items(r, jobs)[i].id
    ensures k < |jobs| && Owns(r, jobs, k, i)
    ensures forall k', i' | Owns(r, jobs, k', i') && (k' == k || i' == i) :: k' == k && i' == i
  {
    ItemsOrigin(r, jobs, i);
    ItemsDistinct(r, jobs);
    var o :| 0 <= o < |jobs| && IsItem(r, jobs[o]) && Items(r, jobs)[i] == ItemOf(r, jobs[o]);
    assert jobs[o].id == Items(r, jobs)[i].id;
  }

  /** Recording the response of item `i` on its owner's entry throws. */
  ghost predicate MarkFails(r: Runner, jobs: seq<Job>, uploads: seq<BatchResult>, i: int)
    requires |uploads| == |Items(r, jobs)|
  {
    exists k :: Owns(r, jobs, k, i) && uploads[i].response.Some?
                && r.mark(MarkOf(jobs[k], ItemOf(r, jobs[k]), uploads[i])).Err?
  }

  /** Exactly the first `n` results were handed out and marked, and marking the next one threw, or none is left. */
  ghost predicate MarkedUntil(r: Runner, jobs: seq<Job>, uploads: seq<BatchResult>, n: nat, marks: seq<Mark>)
    requires n <= |uploads| == |Items(r, jobs)|
  {
    && MarkedExactly(r, jobs, uploads, n, marks)
    && (forall i | 0 <= i < n :: !MarkFails(r, jobs, uploads, i))
    && (n < |uploads| ==> MarkFails(r, jobs, uploads, n))
  }

  /**
   * The loop that hands out the batch's results; `marks` are the entry updates
   * it makes, in order. An entry update that throws ends it after `n` results.
   */
  method HandOut(r: Runner, jobs: seq<Job>, items: seq<Item>, uploads: seq<BatchResult>, given: seq<JobResult>)
    returns (error: Option<string>, results: seq<JobResult>, marks: seq<Mark>, ghost n: nat)
    requires items == Items(r, jobs) && SameIds(items, uploads)
    requires MatchesJobs(jobs, given) && forall k | 0 <= k < |jobs| :: given[k].error == Base(r, jobs[k])
    ensures MatchesJobs(jobs, results)
    ensures n <= |uploads| && (error.None? <==> n == |uploads|)
    ensures DistinctJobs(jobs) ==> HandedOut(r, jobs, results, uploads, n)
    ensures DistinctJobs(jobs) ==> MarkedUntil(r, jobs, uploads, n, marks)
  {
    hide Items, HandedOut, MarkedExactly, Owns, MarkFails;
    HandOutStart(r, jobs, uploads, given);
    error, results, marks := None, given, [];
    var i := 0;
    while i < |uploads|
      invariant 0 <= i <= |uploads| && MatchesJobs(jobs, results)
      invariant DistinctJobs(jobs) ==> HandedOut(r, jobs, results, uploads, i)
      invariant DistinctJobs(jobs) ==> MarkedExactly(r, jobs, uploads, i, marks)
      invariant DistinctJobs(jobs) ==> forall j | 0 <= j < i :: !MarkFails(r, jobs, uploads, j)
    {
      var upload := uploads[i];
      var k := LocateJob(results, upload.id);
      if DistinctJobs(jobs) {
        OwnerFound(r, jobs, i, k);
        OwnersItem(r, jobs, k, i);
        ItemsDistinct(r, jobs);
        NotYetHanded(r, jobs, results, uploads, i, k);
        FailsIffOwnerFails(r, jobs, uploads, i, k);
      }
      ghost var results0, marks0 := results, marks;
      if k < |results| {
        if upload.response.None? {
          results := results[k := results[k].(error := if upload.error == "" then "Upload failed" else upload.error)];
        } else {
          var at := LocateItem(items, upload.id);
          if at < |items| {
            var mark := Mark(results[k].job.entryId, upload.response.value.fileId, items[at].folderId);
            var marked := r.mark(mark);
            if marked.Err? {
              return Some(marked.message), results, marks, i;
            }
            marks := marks + [mark];
          }
        }
      }
      if DistinctJobs(jobs) {
        HandedOneMore(r, jobs, results0, results, uploads, i, k);
        MarkedOneMore(r, jobs, uploads, i, k, marks0, marks);
      }
      i := i + 1;
    }
    n := i;
  }

  lemma FailsIffOwnerFails(r: Runner, jobs: seq<Job>, uploads: seq<BatchResult>, i: nat, k: nat)
    requires i < |uploads| == |Items(r, jobs)| && Owns(r, jobs, k, i)
    requires forall k', i' | Owns(r, jobs, k', i') && (k' == k || i' == i) :: k' == k && i' == i
    ensures MarkFails(r, jobs, uploads, i) <==>
              uploads[i].response.Some? && r.mark(MarkOf(jobs[k], ItemOf(r, jobs[k]), uploads[i])).Err?
  {
    hide Items;
  }

  lemma HandOutStart(r: Runner, jobs: seq<Job>, uploads: seq<BatchResult>, given: seq<JobResult>)
    requires |uploads| == |Items(r, jobs)|
    requires MatchesJobs(jobs, given) && forall k | 0 <= k < |jobs| :: given[k].error == Base(r, jobs[k])
    ensures HandedOut(r, jobs, given, uploads, 0) && MarkedExactly(r, jobs, uploads, 0, [])
  {
    hide Items;
  }

  lemma OwnersItem(r: Runner, jobs: seq<Job>, k: nat, i: nat)
    requires Owns(r, jobs, k, i)
    ensures k < |jobs| && IsItem(r, jobs[k]) && i < |Items(r, jobs)| && Items(r, jobs)[i] == ItemOf(r, jobs[k])
  {
  }

  lemma NotYetHanded(r: Runner, jobs: seq<Job>, results: seq<JobResult>, uploads: seq<BatchResult>, i: nat, k: nat)
    requires i < |uploads| == |Items(r, jobs)| && Owns(r, jobs, k, i) && HandedOut(r, jobs, results, uploads, i)
    ensures k < |results| && results[k] == JobResult(jobs[k], "")
  {
    hide Items;
  }

  lemma HandedOneMore(r: Runner, jobs: seq<Job>, before: seq<JobResult>, after: seq<JobResult>,
      uploads: seq<BatchResult>,
      i: nat, k: nat)
    requires i < |uploads| == |Items(r, jobs)| && Owns(r, jobs, k, i)
    requires forall k', i' | Owns(r, jobs, k', i') && (k' == k || i' == i) :: k' == k && i' == i
    requires HandedOut(r, jobs, before, uploads, i)
    requires after == before[k := JobResult(jobs[k], ErrorOf(uploads[i]))]
    ensures HandedOut(r, jobs, after, uploads, i + 1)
  {
    hide Items;
    forall k', i' | 0 <= k' < |jobs| && IsItem(r, jobs[k']) && 0 <= i' < |uploads|
        && Items(r, jobs)[i'] == ItemOf(r, jobs[k'])
      ensures after[k'].error == if i' < i + 1 then ErrorOf(uploads[i']) else ""
    {
      assert Owns(r, jobs, k', i');
    }
  }

  lemma MarkedOneMore(r: Runner, jobs: seq<Job>, uploads: seq<BatchResult>, i: nat, k: nat, before: seq<Mark>,
      after: seq<Mark>)
    requires i < |uploads| == |Items(r, jobs)| && Owns(r, jobs, k, i)
    requires forall k', i' | Owns(r, jobs, k', i') && (k' == k || i' == i) :: k' == k && i' == i
    requires MarkedExactly(r, jobs, uploads, i, before)
    requires after == before
               + if uploads[i].response.Some? then [MarkOf(jobs[k], ItemOf(r, jobs[k]), uploads[i])] else []
    ensures MarkedExactly(r, jobs, uploads, i + 1, after)
  {
    hide Items;
    forall m | m in after
      ensures exists k', i' :: Owns(r, jobs, k', i') && i' < i + 1 && uploads[i'].response.Some?
                               && m == MarkOf(jobs[k'], ItemOf(r, jobs[k']), uploads[i'])
    {
      if m in before {
        var k', i' :| Owns(r, jobs, k', i') && i' < i && uploads[i'].response.Some?
                      && m == MarkOf(jobs[k'], ItemOf(r, jobs[k']), uploads[i']);
      } else {
        assert Owns(r, jobs, k, i);
      }
    }
  }

  /** Gives the batch's exception to every job that has no error of its own. */
  method FailAll(jobs: seq<Job>, given: seq<JobResult>, message: string) returns (results: seq<JobResult>)
    requires MatchesJobs(jobs, given)
    ensures MatchesJobs(jobs, results)
    ensures forall k | 0 <= k < |jobs| :: results[k].error == if given[k].error == "" then message else given[k].error
  {
    results := given;
    var k := 0;
    while k < |results|
      invariant 0 <= k <= |results| && MatchesJobs(jobs, results)
      invariant forall j | 0 <= j < |results| ::
                  results[j].error == if j < k && given[j].error == "" then message else given[j].error
    {
      if results[k].error == "" {
        results := results[k := results[k].(error := message)];
      }
      k := k + 1;
    }
  }

  /** `runBatch`: the results in job order, and the entry marks; or the exception that marking an entry threw. */
  method RunBatch(r: Runner, jobs: seq<Job>) returns (outcome: Result<seq<JobResult>>, marks: seq<Mark>)
    ensures outcome.Ok? ==> MatchesJobs(jobs, outcome.value)
    ensures DistinctJobs(jobs) ==> RunSpec(r, jobs, outcome, marks)
  {
    hide HandedOut, MarkedUntil, Items, BatchSpec, Distinct;
    var results, items := PrepareJobs(r, jobs);
    marks := [];
    if DistinctJobs(jobs) { ItemsDistinct(r, jobs); }
    if items == [] {
      NoItems(r, jobs);
      return Ok(results), [];
    }
    var uploads := UploadFilesBatch(r.world, items);
    if uploads.Err? {
      results := FailAll(jobs, results, uploads.message);
      return Ok(results), [];
    }
    var error: Option<string>;
    ghost var n;
    error, results, marks, n := HandOut(r, jobs, items, uploads.value, results);
    outcome := if error.Some? then Err(error.value) else Ok(results);
  }

  lemma NoItems(r: Runner, jobs: seq<Job>)
    requires Items(r, jobs) == []
    ensures forall k | 0 <= k < |jobs| :: !IsItem(r, jobs[k])
  {
    forall k | 0 <= k < |jobs| ensures !IsItem(r, jobs[k]) {
      if IsItem(r, jobs[k]) { ItemsCover(r, jobs, k); }
    }
  }

  /** What a run leaves behind, in terms of the batch's specification. */
  ghost predicate RunSpec(r: Runner, jobs: seq<Job>, outcome: Result<seq<JobResult>>, marks: seq<Mark>)
  {
    && (outcome.Ok? ==> MatchesJobs(jobs, outcome.value))
    && if Items(r, jobs) == [] then
         outcome.Ok? && marks == [] && forall k | 0 <= k < |jobs| :: outcome.value[k].error == Base(r, jobs[k])
       else
         var batch := BatchSpec(r.world, Items(r, jobs));
         if batch.Err? then
           outcome.Ok? && marks == [] && forall k | 0 <= k < |jobs| ::
             outcome.value[k].error == if Base(r, jobs[k]) == "" then batch.message else Base(r, jobs[k])
         else
           |batch.value| == |Items(r, jobs)|
           && exists n: nat :: n <= |batch.value| && MarkedUntil(r, jobs, batch.value, n, marks)
                && (outcome.Ok? <==> n == |batch.value|)
                && (outcome.Ok? ==> HandedOut(r, jobs, outcome.value, batch.value, n))
  }

  // ---------------------------------------------------------------- what done means

  /** The policy no longer wants the job's upload, and nothing ended the batch. */
  predicate Unwanted(r: Runner, jobs: seq<Job>, job: Job)
  {
    r.prepare(job) == Ok(None) && (Items(r, jobs) == [] || BatchSpec(r.world, Items(r, jobs)).Ok?)
  }

  /**
   * The job's own item got a response, the response is its own, and the job's
   * entry was marked with that response's file id.
   */
  ghost predicate Uploaded(r: Runner, jobs: seq<Job>, k: nat, marks: seq<Mark>)
    requires k < |jobs|
  {
    var batch := BatchSpec(r.world, Items(r, jobs));
    && IsItem(r, jobs[k]) && batch.Ok? && |batch.value| == |Items(r, jobs)|
    && exists i :: Owns(r, jobs, k, i) && batch.value[i].response.Some?
         && var response := batch.value[i].response.value;
            && Mark(jobs[k].entryId, response.fileId, ItemOf(r, jobs[k]).folderId) in marks
            && (|| Check(r.world, ItemOf(r, jobs[k])) == Ok(Some(response))
                || ServerCompleted(r.world, Items(r, jobs), ItemOf(r, jobs[k]), response))
  }

  /**
   * A job ends without error if and only if its upload is unwanted, or was
   * completed by the server under the job's own client id (or by resuming its
   * own session) and recorded on the job's own entry.
   */
  lemma DoneIffUploadedOrUnwanted(r: Runner, jobs: seq<Job>, results: seq<JobResult>, marks: seq<Mark>, k: nat)
    requires RunnerSpeaks(r) && DistinctJobs(jobs) && k < |jobs| && RunSpec(r, jobs, Ok(results), marks)
    ensures results[k].error == "" <==> Unwanted(r, jobs, jobs[k]) || Uploaded(r, jobs, k, marks)
  {
    hide BatchSpec, Items, ServerCompleted, Speaks;
    var items := Items(r, jobs);
    BatchErrorSpeaks(r.world, items);
    if items == [] {
      NoItems(r, jobs);
    } else if IsItem(r, jobs[k]) && BatchSpec(r.world, items).Ok? {
      UploadedIff(r, jobs, results, marks, k);
    }
  }

  lemma UploadedIff(r: Runner, jobs: seq<Job>, results: seq<JobResult>, marks: seq<Mark>, k: nat)
    requires DistinctJobs(jobs) && k < |jobs| && RunSpec(r, jobs, Ok(results), marks)
    requires IsItem(r, jobs[k]) && BatchSpec(r.world, Items(r, jobs)).Ok?
    ensures results[k].error == "" <==> Uploaded(r, jobs, k, marks)
  {
    ItemsCover(r, jobs, k);
    ItemsDistinct(r, jobs);
    hide BatchSpec, Items, ServerCompleted;
    var items, batch := Items(r, jobs), BatchSpec(r.world, Items(r, jobs)).value;
    var n: nat :| n <= |batch| && MarkedUntil(r, jobs, batch, n, marks) && HandedOut(r, jobs, results, batch, n);
    var i :| 0 <= i < |items| && items[i] == ItemOf(r, jobs[k]);
    assert Owns(r, jobs, k, i);
    assert results[k].error == ErrorOf(batch[i]);
    if results[k].error == "" {
      ResponseIsOwn(r.world, items, i);
      assert MarkOf(jobs[k], ItemOf(r, jobs[k]), batch[i]) in marks;
    }
    assert forall i' | Owns(r, jobs, k, i') :: results[k].error == ErrorOf(batch[i']);
  }
}
