/**
 * The resumable mark-and-sweep scan of one root: batches of at most 500 marked
 * entries, a cursor persisted with every batch, an iterator cached in memory
 * between batches, and a sweep in the transaction that completes the job.
 *
 * The tree is static: `tree` is what the recursive iterator enumerates, in its
 * order. Everything a batch writes is in one transaction, so a crash, an
 * exception or a rollback anywhere in it is the loss of the iterator alone.
 */
module RootScan {
  import opened Basics
  import opened EntrySync

  const MAX_BATCH: nat := 500

  datatype Kind = Directory | Regular(file: File, reuse: bool) | Symlink | Other

  datatype Node = Node(path: string, kind: Kind)

  /** The running row of `scan_jobs`; the partial unique index allows one per root. */
  datatype ScanJob = ScanJob(id: string, cursor: Option<string>)

  predicate Markable(n: Node) { n.kind.Directory? || n.kind.Regular? }

  predicate ValidTree(tree: seq<Node>)
  {
    forall i, j | 0 <= i < |tree| && 0 <= j < |tree| && tree[i].path == tree[j].path :: i == j
  }

  /** The upsert a scan makes for one node. */
  function MarkOne(rows: map<string, Entry>, n: Node, scan: string): map<string, Entry>
  {
    match n.kind
    case Directory => rows[n.path := DirectoryScanned(Find(rows, n.path), scan)]
    case Regular(file, reuse) => rows[n.path := FileScanned(Find(rows, n.path), file, reuse, scan)]
    case Symlink => rows
    case Other => rows
  }

  /** The rows once the first `n` nodes of the tree have been marked. */
  function Marked(rows: map<string, Entry>, tree: seq<Node>, n: nat, scan: string): map<string, Entry>
    requires n <= |tree|
  {
    if n == 0 then rows else MarkOne(Marked(rows, tree, n - 1, scan), tree[n - 1], scan)
  }

  function Sweep(rows: map<string, Entry>, scan: string): map<string, Entry>
  {
    map path | path in rows :: Swept(rows[path], scan)
  }

  /** Where a batch that may still mark `budget` entries stops. */
  function BatchEnd(tree: seq<Node>, from: nat, budget: nat): (r: nat)
    requires from <= |tree|
    ensures from <= r <= |tree|
    ensures from < |tree| && budget > 0 ==> from < r
    ensures r < |tree| && budget > 0 ==> Markable(tree[r - 1])
    decreases |tree| - from
  {
    if from == |tree| || budget == 0 then from
    else if Markable(tree[from]) then
      if budget == 1 then from + 1 else BatchEnd(tree, from + 1, budget - 1)
    else BatchEnd(tree, from + 1, budget)
  }

  /** What a re-seek finds: just past the cursor, or the root when the cursor is missing or last. */
  function Seek(tree: seq<Node>, cursor: Option<string>): (r: nat)
    ensures r <= |tree|
  {
    if cursor.None? then 0 else SeekFrom(tree, cursor.value, 0)
  }

  function SeekFrom(tree: seq<Node>, cursor: string, i: nat): (r: nat)
    requires i <= |tree|
    ensures r <= |tree|
    decreases |tree| - i
  {
    if i == |tree| then 0
    else if tree[i].path == cursor then (if i + 1 == |tree| then 0 else i + 1)
    else SeekFrom(tree, cursor, i + 1)
  }

  // ---------------------------------------------------------------- specification

  /** Database (rows, running job), memory (iterator position). */
  datatype State = State(rows: map<string, Entry>, job: Option<ScanJob>, active: Option<nat>)

  /** One call of `scanRoot` that is not interrupted. */
  function AfterBatch(tree: seq<Node>, s: State, newId: string): State
    requires s.active.Some? ==> s.active.value <= |tree|
  {
    var job := if s.job.Some? then s.job.value else ScanJob(newId, None);
    var from := if s.active.Some? then s.active.value else Seek(tree, job.cursor);
    var end := BatchEnd(tree, from, MAX_BATCH);
    var rows := MarkedRange(s.rows, tree, from, end, job.id);
    if end == |tree| then State(Sweep(rows, job.id), None, None)
    else State(rows, Some(job.(cursor := Some(tree[end - 1].path))), Some(end))
  }

  function MarkedRange(rows: map<string, Entry>, tree: seq<Node>, from: nat, end: nat, scan: string): map<string, Entry>
    requires from <= end <= |tree|
  {
    if from == end then rows else MarkOne(MarkedRange(rows, tree, from, end - 1, scan), tree[end - 1], scan)
  }

  datatype Step = Batch(newId: string) | Interrupted

  function Next(tree: seq<Node>, s: State, step: Step): State
  {
    match step
    case Batch(newId) => if s.active.Some? && s.active.value > |tree| then s else AfterBatch(tree, s, newId)
    case Interrupted => s.(active := None)
  }

  function Run(tree: seq<Node>, s: State, steps: seq<Step>): State
    decreases |steps|
  {
    if steps == [] then s else Run(tree, Next(tree, s, steps[0]), steps[1..])
  }

  // ---------------------------------------------------------------- the scanner

  class RootScanner {
    const tree: seq<Node>
    var rows: map<string, Entry>
    var job: Option<ScanJob>
    var active: Option<nat>

    constructor (tree: seq<Node>, rows: map<string, Entry>, job: Option<ScanJob>)
      ensures this.tree == tree && this.rows == rows && this.job == job && active == None
    {
      this.tree, this.rows, this.job, this.active := tree, rows, job, None;
    }

    function Snapshot(): State
      reads this
    {
      State(rows, job, active)
    }

    method PositionAfterCursor(cursor: Option<string>) returns (it: nat)
      ensures it == Seek(tree, cursor)
    {
      if cursor.None? {
        return 0;
      }
      it := 0;
      while it < |tree| && tree[it].path != cursor.value
        invariant 0 <= it <= |tree|
        invariant SeekFrom(tree, cursor.value, 0) == SeekFrom(tree, cursor.value, it)
      {
        it := it + 1;
      }
      if it < |tree| {
        it := it + 1;
      }
      if it == |tree| {
        it := 0;
      }
    }

    /** The batch loop: marks nodes from `from` on until the budget is spent or the tree ends. */
    method MarkBatch(from: nat, id: string) returns (it: nat, marked: map<string, Entry>, lastCursor: Option<string>)
      requires from <= |tree|
      ensures it == BatchEnd(tree, from, MAX_BATCH)
      ensures marked == MarkedRange(rows, tree, from, it, id)
      ensures it < |tree| ==> lastCursor == Some(tree[it - 1].path)
    {
      hide MarkOne;
      it, marked, lastCursor := from, rows, None;
      var processed := 0;
      while it < |tree| && processed < MAX_BATCH
        invariant from <= it <= |tree| && processed <= MAX_BATCH
        invariant marked == MarkedRange(rows, tree, from, it, id)
        invariant BatchEnd(tree, from, MAX_BATCH) == BatchEnd(tree, it, MAX_BATCH - processed)
        invariant processed == MAX_BATCH ==> it > from && lastCursor == Some(tree[it - 1].path)
      {
        var node := tree[it];
        marked := MarkOne(marked, node, id);
        if Markable(node) {
          lastCursor := Some(node.path);
          processed := processed + 1;
        }
        it := it + 1;
      }
    }

    /** One uninterrupted call: marks a batch, then checkpoints or completes. */
    method ScanRoot(newId: string)
      requires active.Some? ==> active.value <= |tree|
      modifies this
      ensures Snapshot() == AfterBatch(tree, old(Snapshot()), newId)
      ensures active.Some? ==> active.value <= |tree|
    {
      hide Seek, Sweep, BatchEnd, MarkedRange;
      var current := if job.Some? then job.value else ScanJob(newId, None);
      var from := 0;
      if active.None? {
        from := PositionAfterCursor(current.cursor);
      } else {
        from := active.value;
      }
      var it, marked, lastCursor := MarkBatch(from, current.id);
      if it == |tree| {
        rows, job, active := Sweep(marked, current.id), None, None;
      } else {
        rows, job, active := marked, Some(current.(cursor := lastCursor)), Some(it);
      }
    }
  }

  // ---------------------------------------------------------------- restarts do not matter

  /**
   * The job `id` started from `rows0`. Its progress is a position: the rows are
   * those marked up to it, the cursor names the node before it, and a cached
   * iterator stands exactly there.
   */
  ghost predicate Progress(tree: seq<Node>, rows0: map<string, Entry>, id: string, s: State, p: nat)
  {
    && p < |tree|
    && s.job == Some(ScanJob(id, if p == 0 then None else Some(tree[p - 1].path)))
    && s.rows == Marked(rows0, tree, p, id)
    && (s.active.Some? ==> s.active.value == p)
  }

  /** In a valid tree, seeking past the node before `p` leads back to `p`. */
  lemma {:induction false} SeekReturns(tree: seq<Node>, p: nat, i: nat)
    requires ValidTree(tree) && 1 <= p < |tree| && i < p
    ensures SeekFrom(tree, tree[p - 1].path, i) == p
    decreases p - i
  {
    if i + 1 < p {
      assert tree[i].path != tree[p - 1].path;
      SeekReturns(tree, p, i + 1);
    }
  }

  /** Continuing the cached iterator and re-seeking from the persisted cursor are the same. */
  lemma ReseekIsContinue(tree: seq<Node>, rows0: map<string, Entry>, id: string, s: State, p: nat, newId: string)
    requires ValidTree(tree) && Progress(tree, rows0, id, s, p)
    ensures AfterBatch(tree, s, newId) == AfterBatch(tree, s.(active := None), newId)
    ensures AfterBatch(tree, s, newId) == AfterBatch(tree, s.(active := Some(p)), newId)
  {
    if p > 0 { SeekReturns(tree, p, 0); }
  }

  lemma {:induction false} MarkedInTwo(rows0: map<string, Entry>, tree: seq<Node>, p: nat, q: nat, id: string)
    requires p <= q <= |tree|
    ensures MarkedRange(Marked(rows0, tree, p, id), tree, p, q, id) == Marked(rows0, tree, q, id)
    decreases q - p
  {
    hide MarkOne;
    if p < q { MarkedInTwo(rows0, tree, p, q - 1, id); }
  }

  /** An interruption loses the iterator and nothing else. */
  lemma InterruptionForgets(tree: seq<Node>, s: State)
    ensures Next(tree, s, Interrupted).active.None?
    ensures Next(tree, s, Interrupted).rows == s.rows && Next(tree, s, Interrupted).job == s.job
  {
  }

  /** A batch moves the position forward, or completes with everything marked and swept. */
  lemma BatchAdvances(tree: seq<Node>, rows0: map<string, Entry>, id: string, s: State, p: nat, newId: string)
    requires ValidTree(tree) && Progress(tree, rows0, id, s, p)
    ensures var s' := AfterBatch(tree, s, newId);
            || s' == State(Sweep(Marked(rows0, tree, |tree|, id), id), None, None)
            || (BatchEnd(tree, p, MAX_BATCH) > p && Progress(tree, rows0, id, s', BatchEnd(tree, p, MAX_BATCH)))
  {
    hide Sweep, MarkOne, Marked, Seek, BatchEnd, ValidTree;
    ReseekIsContinue(tree, rows0, id, s, p, newId);
    MarkedInTwo(rows0, tree, p, BatchEnd(tree, p, MAX_BATCH), id);
    assert AfterBatch(tree, s, newId) == AfterBatch(tree, s.(active := Some(p)), newId);
  }

  /** As long as the job is running its progress is intact, whatever the batches and interruptions so far. */
  lemma {:induction false} RunProgress(tree: seq<Node>, rows0: map<string, Entry>, id: string, s: State, p: nat,
      steps: seq<Step>)
    returns (q: nat)
    requires ValidTree(tree) && Progress(tree, rows0, id, s, p)
    requires forall n | 0 <= n < |steps| :: Run(tree, s, steps[..n]).job.Some?
    ensures p <= q
    ensures var s' := Run(tree, s, steps);
            if s'.job.Some? then Progress(tree, rows0, id, s', q)
            else s' == State(Sweep(Marked(rows0, tree, |tree|, id), id), None, None)
    decreases |steps|
  {
    hide Sweep, Marked, AfterBatch, BatchEnd;
    if steps == [] {
      q := p;
    } else {
      var s1 := Next(tree, s, steps[0]);
      FirstSteps(tree, s, steps);
      if steps[0].Batch? {
        BatchAdvances(tree, rows0, id, s, p, steps[0].newId);
        q := BatchEnd(tree, p, MAX_BATCH);
      } else {
        q := p;
      }
      if s1.job.Some? {
        q := RunProgress(tree, rows0, id, s1, q, steps[1..]);
      } else {
        assert Run(tree, s, steps[..1]) == s1;
        assert |steps| == 1;
        assert steps[1..] == [];
      }
    }
  }

  lemma FirstSteps(tree: seq<Node>, s: State, steps: seq<Step>)
    requires steps != []
    ensures forall n | 0 <= n < |steps| - 1 ::
        Run(tree, Next(tree, s, steps[0]), steps[1..][..n]) == Run(tree, s, steps[..n + 1])
    ensures Run(tree, s, steps[..1]) == Next(tree, s, steps[0])
  {
    forall n | 0 <= n < |steps| - 1
      ensures Run(tree, Next(tree, s, steps[0]), steps[1..][..n]) == Run(tree, s, steps[..n + 1])
    {
      assert steps[..n + 1][1..] == steps[1..][..n];
    }
    assert steps[..1][1..] == [];
  }

  /**
   * Scan `id` has not begun: no scan is running and the first call will create
   * it, or its row was inserted by a full-rescan event and has no cursor yet.
   */
  predicate Unbegun(s: State, id: string) { s.active.None? && (s.job.None? || s.job == Some(ScanJob(id, None))) }

  /** The first batch starts a job that has made progress, or completes at once. */
  lemma FirstBatch(tree: seq<Node>, s: State, id: string, newId: string)
    requires ValidTree(tree) && Unbegun(s, id) && (s.job.None? ==> newId == id)
    ensures var s' := AfterBatch(tree, s, newId);
            || s' == State(Sweep(Marked(s.rows, tree, |tree|, id), id), None, None)
            || Progress(tree, s.rows, id, s', BatchEnd(tree, 0, MAX_BATCH))
  {
    MarkedInTwo(s.rows, tree, 0, BatchEnd(tree, 0, MAX_BATCH), id);
    hide Sweep, MarkOne;
  }

  // ---------------------------------------------------------------- what a completed scan leaves

  predicate Live(rows: map<string, Entry>, path: string) { path in rows && rows[path].state != Deleted }

  predicate InTree(tree: seq<Node>, n: nat, path: string)
    requires n <= |tree|
  {
    exists i :: 0 <= i < n && tree[i].path == path && Markable(tree[i])
  }

  /** After marking, the rows seen by the scan are live and are those of the marked nodes. */
  lemma {:induction false} MarkedRows(rows0: map<string, Entry>, tree: seq<Node>, n: nat, id: string, path: string)
    requires n <= |tree|
    requires forall q | q in rows0 :: rows0[q].lastSeen != Some(id)
    ensures var rows := Marked(rows0, tree, n, id);
            && (path in rows && rows[path].lastSeen == Some(id) <==> InTree(tree, n, path))
            && (InTree(tree, n, path) ==> rows[path].state != Deleted)
    decreases n
  {
    if n > 0 {
      MarkedRows(rows0, tree, n - 1, id, path);
      hide FileScanned, DirectoryScanned;
      ScannedRow(Find(Marked(rows0, tree, n - 1, id), tree[n - 1].path), tree[n - 1], id);
      assert InTree(tree, n, path) <==>
          InTree(tree, n - 1, path) || (tree[n - 1].path == path && Markable(tree[n - 1]));
    }
  }

  lemma ScannedRow(row: Option<Entry>, n: Node, id: string)
    ensures n.kind.Directory? ==>
        DirectoryScanned(row, id).lastSeen == Some(id) && DirectoryScanned(row, id).state != Deleted
    ensures n.kind.Regular? ==>
              var e := FileScanned(row, n.kind.file, n.kind.reuse, id); e.lastSeen == Some(id) && e.state != Deleted
  {
  }

  /** What a scan records of a node: its kind, and for a file its size, time and hash. */
  predicate Records(e: Entry, n: Node, id: string)
  {
    && e.lastSeen == Some(id) && !e.localDeleted && e.isDirectory == n.kind.Directory?
    && (n.kind.Regular? ==> e.size == Some(n.kind.file.size) && e.mtime == Some(n.kind.file.mtime) && e.hash.Some?)
    && (n.kind.Regular? && !n.kind.reuse ==> e.hash == Some(n.kind.file.hash))
  }

  /** Every marked node's row records that node, whatever was marked after it. */
  lemma {:induction false} MarkedContent(rows0: map<string, Entry>, tree: seq<Node>, n: nat, id: string, i: nat)
    requires ValidTree(tree) && i < n <= |tree| && Markable(tree[i])
    ensures var rows := Marked(rows0, tree, n, id);
            tree[i].path in rows && Records(rows[tree[i].path], tree[i], id)
    decreases n
  {
    if i < n - 1 {
      assert tree[i].path != tree[n - 1].path;
      MarkedContent(rows0, tree, n - 1, id, i);
      hide Records, FileScanned, DirectoryScanned;
    }
  }

  /**
   * Resumable mark and sweep. Take any run of batches and interruptions that
   * begins before scan `id` has begun and ends with its completion. Whatever
   * the batch boundaries and restarts, the rows that are not deleted are
   * exactly the regular files and directories of the tree, each recording its
   * node, and the whole database is the same as after a scan without restarts.
   */
  lemma {:induction false} CompletedScanIsExact(tree: seq<Node>, s: State, id: string, steps: seq<Step>)
    requires ValidTree(tree) && Unbegun(s, id)
    requires forall q | q in s.rows :: s.rows[q].lastSeen != Some(id)
    requires steps != [] && steps[0].Batch? && (s.job.None? ==> steps[0].newId == id)
    requires forall n | 1 <= n < |steps| :: Run(tree, s, steps[..n]).job.Some?
    requires Run(tree, s, steps).job.None?
    ensures Run(tree, s, steps) == State(Sweep(Marked(s.rows, tree, |tree|, id), id), None, None)
    ensures forall path :: Live(Run(tree, s, steps).rows, path) <==> InTree(tree, |tree|, path)
    ensures forall i | 0 <= i < |tree| && Markable(tree[i]) ::
              Live(Run(tree, s, steps).rows, tree[i].path)
                  && Records(Run(tree, s, steps).rows[tree[i].path], tree[i], id)
  {
    var s1 := AfterBatch(tree, s, steps[0].newId);
    FirstBatch(tree, s, id, steps[0].newId);
    FirstSteps(tree, s, steps);
    RunUnfold(tree, s, steps);
    if s1.job.Some? {
      forall n | 0 <= n < |steps[1..]| ensures Run(tree, s1, steps[1..][..n]).job.Some? {
        assert Run(tree, s1, steps[1..][..n]) == Run(tree, s, steps[..n + 1]);
      }
      var q := RunProgress(tree, s.rows, id, s1, BatchEnd(tree, 0, MAX_BATCH), steps[1..]);
    } else {
      assert |steps| == 1;
      assert steps[1..] == [];
    }
    hide Run, AfterBatch, Marked, InTree;
    forall path ensures Live(Run(tree, s, steps).rows, path) <==> InTree(tree, |tree|, path) {
      MarkedRows(s.rows, tree, |tree|, id, path);
    }
    forall i | 0 <= i < |tree| && Markable(tree[i])
      ensures Live(Run(tree, s, steps).rows, tree[i].path)
          && Records(Run(tree, s, steps).rows[tree[i].path], tree[i], id)
    {
      MarkedContent(s.rows, tree, |tree|, id, i);
      MarkedIsInTree(tree, i);
    }
  }

  lemma MarkedIsInTree(tree: seq<Node>, i: nat)
    requires i < |tree| && Markable(tree[i])
    ensures InTree(tree, |tree|, tree[i].path)
  {
  }

  lemma RunUnfold(tree: seq<Node>, s: State, steps: seq<Step>)
    requires steps != []
    ensures Run(tree, s, steps) == Run(tree, Next(tree, s, steps[0]), steps[1..])
  {
  }
}
