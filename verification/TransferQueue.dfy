/**
 * The transfer queue: rows queued, claimed, done, failed and retried, with the
 * partial unique index on active rows as a guard on every statement, and the
 * tick that drains the queue through the folder worker and the upload runner.
 */
module TransferQueue {
  import opened Basics
  import opened JobRunner

  datatype JobType = CreateFolder | UploadFile

  datatype Status = Queued | Running | Done | Failed

  datatype Row = Row(entryId: string, kind: JobType, status: Status, createdAt: int, retries: nat)

  type Table = map<string, Row>

  predicate Active(r: Row) { r.status == Queued || r.status == Running }

  predicate SameKey(a: Row, b: Row) { a.entryId == b.entryId && a.kind == b.kind }

  /** At most one queued or running row per entry and job type. */
  predicate OneActiveEach(t: Table)
  {
    forall i, j | i in t && j in t && Active(t[i]) && Active(t[j]) && SameKey(t[i], t[j]) :: i == j
  }

  // ---------------------------------------------------------------- statements

  /** A statement that would break the index is refused and changes nothing. */
  function Guarded(before: Table, after: Table): Table { if OneActiveEach(after) then after else before }

  function WithStatus(t: Table, id: string, status: Status): Table
  {
    if id in t then t[id := t[id].(status := status)] else t
  }

  function Retried(r: Row): Row { r.(status := Queued, retries := r.retries + 1) }

  function RetryAll(t: Table, from: Status): Table
  {
    map id | id in t :: if t[id].status == from then Retried(t[id]) else t[id]
  }

  datatype Statement =
    | Enqueue(id: string, entryId: string, kind: JobType, createdAt: int)
    | Claim(id: string)
    | MarkDone(id: string)
    | MarkFailed(id: string)
    | RetryJob(id: string)
    | RetryFailed
    | RetryRunning
    | ClearDone

  /** What a statement would leave if no index stood in its way. */
  function Unguarded(t: Table, s: Statement): Table
  {
    match s
    case Enqueue(id, entryId, kind, createdAt) =>
      if id in t then t else t[id := Row(entryId, kind, Queued, createdAt, 0)]
    case Claim(id) => if id in t && t[id].status == Queued then WithStatus(t, id, Running) else t
    case MarkDone(id) => WithStatus(t, id, Done)
    case MarkFailed(id) => WithStatus(t, id, Failed)
    case RetryJob(id) => if id in t then t[id := Retried(t[id])] else t
    case RetryFailed => RetryAll(t, Failed)
    case RetryRunning => RetryAll(t, Running)
    case ClearDone => map id | id in t && t[id].status != Done :: t[id]
  }

  function Execute(t: Table, s: Statement): Table { Guarded(t, Unguarded(t, s)) }

  function Run(t: Table, statements: seq<Statement>): Table
    decreases |statements|
  {
    if statements == [] then t else Run(Execute(t, statements[0]), statements[1..])
  }

  /** What the statements do to a row, when nothing stands in their way. */
  lemma StatementsRecord(t: Table, id: string)
    requires id in t
    ensures Unguarded(t, MarkDone(id)) == t[id := t[id].(status := Done)]
    ensures Unguarded(t, MarkFailed(id)) == t[id := t[id].(status := Failed)]
    ensures Unguarded(t, Claim(id)) == (if t[id].status == Queued then t[id := t[id].(status := Running)] else t)
    ensures Unguarded(t, RetryJob(id)) == t[id := t[id].(status := Queued, retries := t[id].retries + 1)]
    ensures Unguarded(t, RetryFailed).Keys == Unguarded(t, RetryRunning).Keys == t.Keys
    ensures Unguarded(t, RetryFailed)[id] ==
            (if t[id].status == Failed then t[id].(status := Queued, retries := t[id].retries + 1) else t[id])
    ensures Unguarded(t, RetryRunning)[id] ==
            (if t[id].status == Running then t[id].(status := Queued, retries := t[id].retries + 1) else t[id])
    ensures id in Unguarded(t, ClearDone) <==> t[id].status != Done
    ensures var kept := Unguarded(t, ClearDone); kept.Keys <= t.Keys && forall j | j in kept :: kept[j] == t[j]
  {
  }

  /** Another row is active for the same entry and job type. */
  predicate Rivalled(t: Table, id: string)
    requires id in t
  {
    exists j :: j in t && j != id && Active(t[j]) && SameKey(t[id], t[j])
  }

  /** Two rows that a retry of all failed rows would make active together. */
  predicate Clash(t: Table)
  {
    exists i, j :: i in t && j in t && i != j && t[i].status == Failed && (Active(t[j]) || t[j].status == Failed)
                   && SameKey(t[i], t[j])
  }

  /**
   * The statement meets the index: an enqueue of a key that is active, a retry
   * of a job with an active rival, or a retry of all failed jobs when two of
   * them, or one of them and an active one, share a key.
   */
  predicate Refused(t: Table, s: Statement)
  {
    match s
    case Enqueue(id, entryId, kind, _) =>
      id !in t && exists j :: j in t && Active(t[j]) && t[j].entryId == entryId && t[j].kind == kind
    case RetryJob(id) => id in t && Rivalled(t, id)
    case RetryFailed => Clash(t)
    case _ => false
  }

  /**
   * The index refuses a statement exactly in those cases. In particular claims,
   * marks, recovery of running rows and clean-up are never refused.
   */
  lemma RefusedExactly(t: Table, s: Statement)
    requires OneActiveEach(t)
    ensures OneActiveEach(Unguarded(t, s)) <==> !Refused(t, s)
    ensures Refused(t, s) ==> Unguarded(t, s) != t
  {
    match s
    case Enqueue(id, entryId, kind, createdAt) =>
      if id !in t { EnqueueRefused(t, s); }
    case RetryJob(id) => if id in t { RetryJobRefused(t, id); }
    case RetryFailed =>
      RetryFailedRefused(t);
      if Clash(t) {
        var i :| i in t && t[i].status == Failed;
        assert RetryAll(t, Failed)[i].status == Queued;
      }
    case _ =>
  }

  lemma EnqueueRefused(t: Table, s: Statement)
    requires OneActiveEach(t) && s.Enqueue? && s.id !in t
    ensures OneActiveEach(Unguarded(t, s)) <==>
              forall j | j in t && Active(t[j]) :: !(t[j].entryId == s.entryId && t[j].kind == s.kind)
  {
    var t' := Unguarded(t, s);
    assert t'[s.id] == Row(s.entryId, s.kind, Queued, s.createdAt, 0);
    forall j | j in t ensures t'[j] == t[j] { }
    if j :| j in t && Active(t[j]) && t[j].entryId == s.entryId && t[j].kind == s.kind {
      assert Active(t'[j]) && Active(t'[s.id]) && SameKey(t'[j], t'[s.id]);
    }
  }

  lemma RetryJobRefused(t: Table, id: string)
    requires OneActiveEach(t) && id in t
    ensures OneActiveEach(Unguarded(t, RetryJob(id))) <==> !Rivalled(t, id)
  {
    var t' := Unguarded(t, RetryJob(id));
    if Rivalled(t, id) {
      var j :| j in t && j != id && Active(t[j]) && SameKey(t[id], t[j]);
      assert Active(t'[j]) && Active(t'[id]) && SameKey(t'[id], t'[j]);
    }
  }

  lemma RetryFailedRefused(t: Table)
    requires OneActiveEach(t)
    ensures OneActiveEach(RetryAll(t, Failed)) <==> !Clash(t)
  {
    var t' := RetryAll(t, Failed);
    if Clash(t) {
      var i, j :| i in t && j in t && i != j && t[i].status == Failed && (Active(t[j]) || t[j].status == Failed)
                  && SameKey(t[i], t[j]);
      assert Active(t'[i]) && Active(t'[j]) && SameKey(t'[i], t'[j]);
    }
    if !OneActiveEach(t') {
      var i, j :| i in t' && j in t' && Active(t'[i]) && Active(t'[j]) && SameKey(t'[i], t'[j]) && i != j;
      assert t[i].status == Failed || t[j].status == Failed;
      if t[i].status == Failed { assert Clash(t); } else { assert SameKey(t[j], t[i]); }
    }
  }

  /** The statements run against a table without the index. */
  function UnguardedRun(t: Table, statements: seq<Statement>): Table
    decreases |statements|
  {
    if statements == [] then t else UnguardedRun(Unguarded(t, statements[0]), statements[1..])
  }

  /** No statement of the run is one of those the index refuses. */
  predicate Disciplined(t: Table, statements: seq<Statement>)
    decreases |statements|
  {
    statements == []
    || (!Refused(t, statements[0]) && Disciplined(Unguarded(t, statements[0]), statements[1..]))
  }

  /** The index never shows: after every statement of the run the tables with and without it are the same. */
  ghost predicate IndexUnseen(t: Table, statements: seq<Statement>)
  {
    forall n | 0 <= n <= |statements| :: Run(t, statements[..n]) == UnguardedRun(t, statements[..n])
  }

  /**
   * A run keeps at most one active row per key by itself, without ever meeting
   * the index, if and only if it enqueues no active key and retries no row that
   * has a rival.
   */
  lemma {:induction false} IndexUnseenIffDisciplined(t: Table, statements: seq<Statement>)
    requires OneActiveEach(t)
    ensures IndexUnseen(t, statements) <==> Disciplined(t, statements)
    ensures Disciplined(t, statements) ==> OneActiveEach(UnguardedRun(t, statements))
    decreases |statements|
  {
    if statements == [] {
      assert statements[..0] == [];
    } else {
      var head, rest := statements[0], statements[1..];
      RefusedExactly(t, head);
      RunsFromHead(t, statements);
      hide Unguarded, Refused, OneActiveEach;
      if Refused(t, head) {
        assert Run(t, statements[..1]) != UnguardedRun(t, statements[..1]);
      } else {
        IndexUnseenIffDisciplined(Unguarded(t, head), rest);
        UnseenFromHead(t, statements);
      }
    }
  }

  lemma RunsFromHead(t: Table, statements: seq<Statement>)
    requires statements != []
    ensures Run(t, statements[..1]) == Execute(t, statements[0])
    ensures UnguardedRun(t, statements[..1]) == Unguarded(t, statements[0])
    ensures forall n | 0 <= n <= |statements| - 1 ::
              && Run(t, statements[..n + 1]) == Run(Execute(t, statements[0]), statements[1..][..n])
              && UnguardedRun(t, statements[..n + 1]) == UnguardedRun(Unguarded(t, statements[0]), statements[1..][..n])
  {
    assert statements[..1][1..] == [];
    forall n | 0 <= n <= |statements| - 1
      ensures Run(t, statements[..n + 1]) == Run(Execute(t, statements[0]), statements[1..][..n])
      ensures UnguardedRun(t, statements[..n + 1]) == UnguardedRun(Unguarded(t, statements[0]), statements[1..][..n])
    {
      assert statements[..n + 1][1..] == statements[1..][..n];
    }
  }

  lemma UnseenFromHead(t: Table, statements: seq<Statement>)
    requires statements != [] && Execute(t, statements[0]) == Unguarded(t, statements[0])
    ensures IndexUnseen(t, statements) <==> IndexUnseen(Unguarded(t, statements[0]), statements[1..])
  {
    RunsFromHead(t, statements);
    var t', rest := Unguarded(t, statements[0]), statements[1..];
    hide Execute, Unguarded;
    if IndexUnseen(t, statements) {
      forall n | 0 <= n <= |rest| ensures Run(t', rest[..n]) == UnguardedRun(t', rest[..n]) {
        assert Run(t, statements[..n + 1]) == UnguardedRun(t, statements[..n + 1]);
      }
    }
    if IndexUnseen(t', rest) {
      forall n | 0 <= n <= |statements| ensures Run(t, statements[..n]) == UnguardedRun(t, statements[..n]) {
        if n > 0 {
          assert Run(t', rest[..n - 1]) == UnguardedRun(t', rest[..n - 1]);
          assert n - 1 + 1 == n;
        } else {
          assert statements[..0] == [];
        }
      }
    }
  }

  // ---------------------------------------------------------------- the tick

  const UPLOAD_BATCH: nat := 100

  predicate IsQueued(t: Table, id: string, kind: JobType) { id in t && t[id].status == Queued && t[id].kind == kind }

  /** A queued row of the kind, none of which is older. */
  predicate IsNext(t: Table, kind: JobType, id: string)
  {
    IsQueued(t, id, kind) && forall j | j in t && IsQueued(t, j, kind) :: t[id].createdAt <= t[j].createdAt
  }

  function QueuedIds(t: Table, kind: JobType): set<string> { set id | id in t && IsQueued(t, id, kind) }

  predicate NoDuplicates(ids: seq<string>)
  {
    forall i, j | 0 <= i < |ids| && 0 <= j < |ids| && ids[i] == ids[j] :: i == j
  }

  /** From `t0` to `t`, exactly the rows in `finished` went from queued to done or failed; nothing else changed. */
  predicate Finished(t0: Table, t: Table, finished: seq<string>)
  {
    && NoDuplicates(finished)
    && t.Keys == t0.Keys
    && (forall id | id in finished :: id in t0 && t0[id].status == Queued
          && (t[id] == t0[id].(status := Done) || t[id] == t0[id].(status := Failed)))
    && (forall id | id in t0 && id !in finished :: t[id] == t0[id])
  }

  /** The rows of `ids` have been claimed. */
  function ClaimedAll(t: Table, ids: seq<string>): Table
  {
    map id | id in t :: if id in ids then t[id].(status := Running) else t[id]
  }

  function JobIds(jobs: seq<Job>): seq<string> { seq(|jobs|, i requires 0 <= i < |jobs| => jobs[i].id) }

  /** The status a job result leads to. */
  function StatusFor(error: string): Status { if error == "" then Done else Failed }

  /** One batch of uploads as it went: the jobs, their results, the entry marks. */
  datatype UploadBatch = UploadBatch(runner: Runner, jobs: seq<Job>, results: seq<JobResult>, marks: seq<Mark>)

  ghost predicate ValidBatch(b: UploadBatch)
  {
    1 <= |b.jobs| <= UPLOAD_BATCH && DistinctJobs(b.jobs) && RunSpec(b.runner, b.jobs, Ok(b.results), b.marks)
  }

  /** The row ended as its result in the batch says. */
  predicate DecidedBy(t: Table, id: string, b: UploadBatch)
  {
    exists k :: 0 <= k < |b.jobs| && k < |b.results| && b.jobs[k].id == id && id in t
        && t[id].status == StatusFor(b.results[k].error)
  }

  class QueueRepo {
    var rows: Table

    constructor (rows: Table)
      ensures this.rows == rows
    {
      this.rows := rows;
    }

    /** Claims an oldest queued row of the kind; none is left when it returns nothing. */
    method ClaimNextQueuedByType(kind: JobType) returns (r: Option<string>)
      modifies this
      ensures r.None? ==> rows == old(rows) && QueuedIds(rows, kind) == {}
      ensures r.Some? ==> IsNext(old(rows), kind, r.value) && rows == WithStatus(old(rows), r.value, Running)
    {
      r := FindNextQueued(kind);
      if r.Some? {
        rows := rows[r.value := rows[r.value].(status := Running)];
      }
    }

    method FindNextQueued(kind: JobType) returns (r: Option<string>)
      ensures r.None? ==> QueuedIds(rows, kind) == {}
      ensures r.Some? ==> IsNext(rows, kind, r.value)
    {
      r := None;
      var rest := rows.Keys;
      while rest != {}
        invariant rest <= rows.Keys
        invariant r.None? ==> forall id | id in rows && id !in rest :: !IsQueued(rows, id, kind)
        invariant r.Some? ==> IsQueued(rows, r.value, kind)
        invariant r.Some? ==>
            forall id | id !in rest && IsQueued(rows, id, kind) :: rows[r.value].createdAt <= rows[id].createdAt
        decreases |rest|
      {
        var id :| id in rest;
        if rows[id].status == Queued && rows[id].kind == kind
           && (r.None? || rows[id].createdAt < rows[r.value].createdAt) {
          r := Some(id);
        }
        rest := rest - {id};
      }
    }

    /** The folder loop: claim, run, mark, until no folder job is queued. */
    method RunFolderJobs(succeeds: string -> bool) returns (finished: seq<string>)
      modifies this
      ensures Finished(old(rows), rows, finished)
      ensures QueuedIds(rows, CreateFolder) == {}
      ensures forall id | id in finished ::
                old(rows)[id].kind == CreateFolder && rows[id].status == (if succeeds(id) then Done else Failed)
    {
      hide Finished;
      finished := [];
      NothingFinished(rows);
      while true
        invariant Finished(old(rows), rows, finished)
        invariant forall id | id in finished ::
                    id in old(rows) && id in rows && old(rows)[id].kind == CreateFolder
                        && rows[id].status == (if succeeds(id) then Done else Failed)
        decreases |QueuedIds(rows, CreateFolder)|
      {
        ghost var before := rows;
        var job := ClaimNextQueuedByType(CreateFolder);
        if job.None? {
          break;
        }
        var id := job.value;
        if succeeds(id) {
          rows := rows[id := rows[id].(status := Done)];
        } else {
          rows := rows[id := rows[id].(status := Failed)];
        }
        OneFinished(old(rows), before, rows, finished, id);
        FewerQueued(before, rows, CreateFolder, id);
        finished := finished + [id];
      }
    }

    /** Claims up to a hundred upload jobs. */
    method ClaimUploads() returns (jobs: seq<Job>)
      modifies this
      ensures |jobs| <= UPLOAD_BATCH && NoDuplicates(JobIds(jobs))
      ensures forall k | 0 <= k < |jobs| ::
          IsQueued(old(rows), jobs[k].id, UploadFile) && jobs[k].entryId == old(rows)[jobs[k].id].entryId
      ensures rows == ClaimedAll(old(rows), JobIds(jobs))
      ensures jobs == [] ==> QueuedIds(old(rows), UploadFile) == {}
    {
      jobs := [];
      var i := 0;
      while i < UPLOAD_BATCH
        invariant 0 <= i <= UPLOAD_BATCH && |jobs| == i && NoDuplicates(JobIds(jobs))
        invariant forall k | 0 <= k < |jobs| ::
                    IsQueued(old(rows), jobs[k].id, UploadFile) && jobs[k].entryId == old(rows)[jobs[k].id].entryId
        invariant rows == ClaimedAll(old(rows), JobIds(jobs))
      {
        var job := ClaimNextQueuedByType(UploadFile);
        if job.None? {
          break;
        }
        var claimed := Job(job.value, rows[job.value].entryId);
        assert JobIds(jobs + [claimed]) == JobIds(jobs) + [job.value];
        jobs := jobs + [claimed];
        i := i + 1;
      }
    }

    /** Marks every job of a batch by its result. */
    method MarkResults(jobs: seq<Job>, results: seq<JobResult>)
      requires MatchesJobs(jobs, results) && DistinctJobs(jobs)
      requires forall k | 0 <= k < |jobs| :: jobs[k].id in rows
      modifies this
      ensures rows.Keys == old(rows).Keys
      ensures forall k | 0 <= k < |jobs| ::
                rows[jobs[k].id] == old(rows)[jobs[k].id].(status := StatusFor(results[k].error))
      ensures forall id | id in rows && id !in JobIds(jobs) :: rows[id] == old(rows)[id]
    {
      var n := 0;
      while n < |results|
        invariant 0 <= n <= |results| && rows.Keys == old(rows).Keys
        invariant forall k | 0 <= k < |jobs| ::
                    rows[jobs[k].id] == if k < n then old(rows)[jobs[k].id].(status := StatusFor(results[k].error))
                                        else old(rows)[jobs[k].id]
        invariant forall id | id in rows && id !in JobIds(jobs) :: rows[id] == old(rows)[id]
      {
        var id := results[n].job.id;
        assert JobIds(jobs)[n] == id;
        if results[n].error == "" {
          rows := rows[id := rows[id].(status := Done)];
        } else {
          rows := rows[id := rows[id].(status := Failed)];
        }
        n := n + 1;
      }
    }

    /**
     * The upload loop: claim a batch, run it, mark its results, until no upload
     * is queued. An exception from a batch ends the loop with its rows running.
     */
    method RunUploadJobs(runners: nat -> Runner)
      returns (error: Option<string>, finished: seq<string>, batches: seq<UploadBatch>, stuck: seq<string>)
      modifies this
      ensures Finished(old(rows), Requeued(rows, stuck), finished)
      ensures error.None? <==> stuck == []
      ensures error.None? ==> QueuedIds(rows, UploadFile) == {}
      ensures forall id | id in stuck :: id in rows && rows[id].status == Running && rows[id].kind == UploadFile
      ensures forall b | b in batches :: ValidBatch(b)
      ensures forall id | id in finished :: Decided(old(rows), rows, id, batches)
    {
      hide RunSpec, Requeued;
      error, finished, batches, stuck := None, [], [], [];
      NothingStuck(rows);
      while true
        invariant Finished(old(rows), rows, finished)
        invariant forall b | b in batches :: ValidBatch(b)
        invariant forall id | id in finished :: Decided(old(rows), rows, id, batches)
        decreases |QueuedIds(rows, UploadFile)|
      {
        ghost var before := rows;
        var jobs := ClaimUploads();
        if jobs == [] {
          break;
        }
        ClaimedJobs(before, jobs);
        var outcome, marks := RunBatch(runners(|batches|), jobs);
        if outcome.Err? {
          StuckBatch(old(rows), before, finished, batches, jobs);
          return Some(outcome.message), finished, batches, JobIds(jobs);
        }
        MarkResults(jobs, outcome.value);
        var batch := UploadBatch(runners(|batches|), jobs, outcome.value, marks);
        BatchFinished(old(rows), before, rows, finished, batches, batch);
        finished := finished + JobIds(jobs);
        batches := batches + [batch];
      }
      NothingStuck(rows);
    }

    /**
     * One tick. With both workers and no exception from a batch it ends, leaves
     * no queued row, and moves each row that was queued to done or failed
     * exactly once; every other row is as it was. An upload ends done exactly if
     * its result in its batch carries no error. Without a worker its part of the
     * queue is left alone. An exception ends the tick with that batch's rows
     * running, and recovering them makes the table as if they were never claimed.
     */
    method RunTick(hasFolderWorker: bool, hasUploadRunner: bool, succeeds: string -> bool, runners: nat -> Runner)
      returns (error: Option<string>, finished: seq<string>, batches: seq<UploadBatch>, stuck: seq<string>)
      modifies this
      ensures Finished(old(rows), Requeued(rows, stuck), finished)
      ensures error.None? <==> stuck == []
      ensures !hasFolderWorker || !hasUploadRunner ==> error.None?
      ensures forall id | id in stuck :: id in rows && rows[id].status == Running && rows[id].kind == UploadFile
      ensures !hasFolderWorker ==> finished == []
      ensures hasFolderWorker && !hasUploadRunner ==> forall id | id in finished :: old(rows)[id].kind == CreateFolder
      ensures hasFolderWorker && hasUploadRunner && error.None? ==>
                forall id | id in rows :: id in finished <==> old(rows)[id].status == Queued
      ensures forall b | b in batches :: ValidBatch(b)
      ensures forall id | id in finished && old(rows)[id].kind == UploadFile :: Decided(old(rows), rows, id, batches)
    {
      error, finished, batches, stuck := None, [], [], [];
      NothingStuck(rows);
      if !hasFolderWorker {
        return;
      }
      finished := RunFolderJobs(succeeds);
      NothingStuck(rows);
      if !hasUploadRunner {
        return;
      }
      ghost var middle := rows;
      var uploads: seq<string>;
      error, uploads, batches, stuck := RunUploadJobs(runners);
      FinishedTwice(old(rows), middle, Requeued(rows, stuck), finished, uploads);
      NothingStuck(rows);
      forall id | error.None? && id in rows && old(rows)[id].status == Queued ensures id in finished + uploads {
        assert !IsQueued(rows, id, UploadFile) by { assert id !in QueuedIds(rows, UploadFile); }
        assert !IsQueued(middle, id, CreateFolder) by { assert id !in QueuedIds(middle, CreateFolder); }
      }
      finished := finished + uploads;
    }
  }

  /** The table with the rows put back into the queue. */
  function Requeued(t: Table, ids: seq<string>): Table
  {
    map id | id in t :: if id in ids then t[id].(status := Queued) else t[id]
  }

  lemma NothingStuck(t: Table)
    ensures Requeued(t, []) == t
  {
  }

  /** A claimed batch that ends in an exception leaves its rows running, and nothing else different. */
  lemma StuckBatch(t0: Table, before: Table, finished: seq<string>, batches: seq<UploadBatch>, jobs: seq<Job>)
    requires Finished(t0, before, finished)
    requires forall id | id in finished :: Decided(t0, before, id, batches)
    requires forall k | 0 <= k < |jobs| :: IsQueued(before, jobs[k].id, UploadFile)
    ensures var after := ClaimedAll(before, JobIds(jobs));
            && Requeued(after, JobIds(jobs)) == before
            && (forall id | id in JobIds(jobs) ::
                id in after && after[id].status == Running && after[id].kind == UploadFile)
            && (forall id | id in finished :: Decided(t0, after, id, batches))
  {
    var ids, after := JobIds(jobs), ClaimedAll(before, JobIds(jobs));
    forall id | id in ids ensures IsQueued(before, id, UploadFile) {
      var k :| 0 <= k < |ids| && ids[k] == id;
      assert ids[k] == jobs[k].id;
    }
    forall id | id in finished ensures Decided(t0, after, id, batches) {
      assert Decided(t0, before, id, batches);
      var b :| 0 <= b < |batches| && DecidedBy(before, id, batches[b]);
      SameDecision(before, after, id, batches[b]);
    }
  }

  /** The row was a queued upload and ended as its result in one of the batches says. */
  predicate Decided(t0: Table, t: Table, id: string, batches: seq<UploadBatch>)
  {
    id in t0 && t0[id].kind == UploadFile && exists b :: 0 <= b < |batches| && DecidedBy(t, id, batches[b])
  }

  lemma ClaimedJobs(t: Table, jobs: seq<Job>)
    requires NoDuplicates(JobIds(jobs))
    requires forall k | 0 <= k < |jobs| :: IsQueued(t, jobs[k].id, UploadFile)
    ensures DistinctJobs(jobs)
    ensures forall k | 0 <= k < |jobs| :: jobs[k].id in ClaimedAll(t, JobIds(jobs))
  {
    assert forall k | 0 <= k < |jobs| :: JobIds(jobs)[k] == jobs[k].id;
  }

  lemma BatchFinished(t0: Table, before: Table, after: Table, finished: seq<string>, batches: seq<UploadBatch>,
      batch: UploadBatch)
    requires Finished(t0, before, finished)
    requires forall id | id in finished :: Decided(t0, before, id, batches)
    requires batch.jobs != [] && NoDuplicates(JobIds(batch.jobs)) && MatchesJobs(batch.jobs, batch.results)
    requires forall k | 0 <= k < |batch.jobs| :: IsQueued(before, batch.jobs[k].id, UploadFile)
    requires after.Keys == before.Keys
    requires forall k | 0 <= k < |batch.jobs| ::
               batch.jobs[k].id in after
               && after[batch.jobs[k].id] == before[batch.jobs[k].id].(status := StatusFor(batch.results[k].error))
    requires forall id | id in after && id !in JobIds(batch.jobs) :: after[id] == before[id]
    ensures Finished(t0, after, finished + JobIds(batch.jobs))
    ensures forall id | id in finished + JobIds(batch.jobs) :: Decided(t0, after, id, batches + [batch])
    ensures |QueuedIds(after, UploadFile)| < |QueuedIds(before, UploadFile)|
  {
    var ids := JobIds(batch.jobs);
    forall id | id in ids
      ensures id in before && id in t0 && id !in finished && t0[id] == before[id] && before[id].status == Queued
      ensures after[id] == t0[id].(status := Done) || after[id] == t0[id].(status := Failed)
      ensures DecidedBy(after, id, batch) && t0[id].kind == UploadFile
    {
      var k :| 0 <= k < |ids| && ids[k] == id;
      assert IsQueued(before, batch.jobs[k].id, UploadFile);
      assert batch.jobs[k].id == id && after[id].status == StatusFor(batch.results[k].error);
    }
    hide DecidedBy;
    ConcatNoDuplicates(finished, ids);
    forall id | id in finished + ids ensures Decided(t0, after, id, batches + [batch]) {
      if id in ids {
        assert (batches + [batch])[|batches|] == batch;
      } else {
        assert Decided(t0, before, id, batches);
        var b :| 0 <= b < |batches| && DecidedBy(before, id, batches[b]);
        SameDecision(before, after, id, batches[b]);
        assert (batches + [batch])[b] == batches[b];
      }
    }
    assert ids[0] == batch.jobs[0].id;
    FewerQueued(before, after, UploadFile, batch.jobs[0].id);
  }

  lemma SameDecision(before: Table, after: Table, id: string, b: UploadBatch)
    requires id in before && id in after && before[id] == after[id] && DecidedBy(before, id, b)
    ensures DecidedBy(after, id, b)
  {
  }

  lemma FinishedTwice(t0: Table, t1: Table, t2: Table, a: seq<string>, b: seq<string>)
    requires Finished(t0, t1, a) && Finished(t1, t2, b)
    ensures Finished(t0, t2, a + b)
  {
    assert forall id | id in b :: t1[id].status == Queued;
    assert forall id | id in a :: t1[id].status != Queued;
    ConcatNoDuplicates(a, b);
  }

  lemma ConcatNoDuplicates(a: seq<string>, b: seq<string>)
    requires NoDuplicates(a) && NoDuplicates(b) && forall x | x in a :: x !in b
    ensures NoDuplicates(a + b)
  {
    assert forall i | 0 <= i < |a| :: a[i] !in b;
  }

  lemma NothingFinished(t: Table)
    ensures Finished(t, t, [])
  {
  }

  /** One more row finished. */
  lemma OneFinished(t0: Table, before: Table, after: Table, finished: seq<string>, id: string)
    requires Finished(t0, before, finished) && id in before && before[id].status == Queued
    requires after == WithStatus(before, id, Done) || after == WithStatus(before, id, Failed)
    ensures Finished(t0, after, finished + [id])
    ensures id !in finished
  {
    assert id !in finished;
    ConcatNoDuplicates(finished, [id]);
  }

  /**
   * What done means for a queued upload, end to end: a row decided by a batch
   * ends done if and only if the policy no longer wanted the upload, or it was
   * completed under the job's own client id and the job's own entry was marked.
   */
  lemma DoneUploadIsReal(b: UploadBatch, t: Table, id: string)
    requires RunnerSpeaks(b.runner) && ValidBatch(b) && DecidedBy(t, id, b)
    ensures t[id].status == Done <==>
              exists k :: 0 <= k < |b.jobs| && b.jobs[k].id == id
                && (Unwanted(b.runner, b.jobs, b.jobs[k]) || Uploaded(b.runner, b.jobs, k, b.marks))
  {
    hide RunSpec, Uploaded, Unwanted, RunnerSpeaks;
    forall k | 0 <= k < |b.jobs|
      ensures k < |b.results|
      ensures b.results[k].error == "" <==>
          Unwanted(b.runner, b.jobs, b.jobs[k]) || Uploaded(b.runner, b.jobs, k, b.marks)
    {
      ResultCount(b);
      DoneIffUploadedOrUnwanted(b.runner, b.jobs, b.results, b.marks, k);
    }
    var k :| 0 <= k < |b.jobs| && k < |b.results| && b.jobs[k].id == id
        && t[id].status == StatusFor(b.results[k].error);
    assert forall j | 0 <= j < |b.jobs| && b.jobs[j].id == id :: j == k;
  }

  lemma ResultCount(b: UploadBatch)
    requires ValidBatch(b)
    ensures |b.results| == |b.jobs|
  {
  }

  lemma FewerQueued(before: Table, after: Table, kind: JobType, id: string)
    requires IsQueued(before, id, kind) && !IsQueued(after, id, kind)
    requires forall j | IsQueued(after, j, kind) :: IsQueued(before, j, kind)
    ensures |QueuedIds(after, kind)| < |QueuedIds(before, kind)|
  {
    assert QueuedIds(after, kind) <= QueuedIds(before, kind) - {id};
    SubsetSize(QueuedIds(after, kind), QueuedIds(before, kind) - {id});
  }

  lemma SubsetSize(a: set<string>, b: set<string>)
    requires a <= b
    ensures |a| <= |b|
  {
    assert b == a + (b - a);
  }
}
