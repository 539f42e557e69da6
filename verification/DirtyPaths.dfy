/**
 * The dirty-path queue: change events become rows, rows are claimed, scanned
 * and marked done or failed. The partial unique indexes allow one pending row
 * per path, and one pending full rescan per root.
 */
module DirtyPaths {
  import opened Basics

  datatype Action = Scan | Delete | FullRescan

  datatype Status = Pending | Running | Done | Failed

  /** What a row is about: a path of a root, or (no path) the whole root. */
  datatype Key = Key(rootId: string, path: Option<string>)

  datatype Row = Row(key: Key, action: Action, status: Status, createdAt: int)

  // ---------------------------------------------------------------- recording events

  datatype EventType =
    | Created | Modified | AttributeChanged | MovedTo | Deleted | MovedFrom | Renamed | Overflow | Unknown

  /** A file event; `path` and `oldPath` are relative to the root, absent when outside it. */
  datatype FileEvent = FileEvent(rootId: string, kind: EventType, path: Option<string>,
      oldPath: Option<Option<string>>, temporary: bool)

  function PathInsert(rootId: string, path: Option<string>, action: Action): seq<(Key, Action)>
  {
    if path.None? then [] else [(Key(rootId, path), action)]
  }

  /** The inserts an event leads to, in order. */
  function Inserts(e: FileEvent, roots: seq<string>): seq<(Key, Action)>
  {
    if e.kind == Unknown then []
    else if e.kind == Overflow then seq(|roots|, i requires 0 <= i < |roots| => (Key(roots[i], None), FullRescan))
    else if e.rootId !in roots || e.temporary then []
    else if e.kind in {Created, Modified, AttributeChanged, MovedTo} then PathInsert(e.rootId, e.path, Scan)
    else if e.kind in {Deleted, MovedFrom} then PathInsert(e.rootId, e.path, Delete)
    else (if e.oldPath.Some? then PathInsert(e.rootId, e.oldPath.value, Delete) else [])
         + PathInsert(e.rootId, e.path, Scan)
  }

  /**
   * Which paths an event of a known root leads to, exactly: its path and, for a
   * rename, the path it left, as far as they lie inside the root; an overflow
   * leads to a full rescan of every root.
   */
  lemma RecordedKeys(e: FileEvent, roots: seq<string>, key: Key)
    ensures (exists k :: 0 <= k < |Inserts(e, roots)| && Inserts(e, roots)[k].0 == key) <==>
              (if e.kind == Overflow then key.path.None? && key.rootId in roots
               else e.kind != Unknown && e.rootId in roots && !e.temporary && key.rootId == e.rootId && key.path.Some?
                    && (key.path == e.path || (e.kind == Renamed && e.oldPath == Some(key.path))))
  {
    var inserts := Inserts(e, roots);
    if e.kind == Overflow {
      if key.path.None? && key.rootId in roots {
        var i :| 0 <= i < |roots| && roots[i] == key.rootId;
        assert inserts[i].0 == key;
      }
    } else if inserts != [] {
      assert inserts[0].0 == key || inserts[|inserts| - 1].0 == key
        || forall k | 0 <= k < |inserts| :: inserts[k].0 != key;
    }
  }

  /**
   * What is to be done about each path, exactly: a path that came or changed is
   * scanned, a path that went is deleted, a rename first deletes the path it
   * left and then scans the new one, and an overflow rescans whole roots.
   */
  lemma RecordedActions(e: FileEvent, roots: seq<string>, k: nat)
    requires k < |Inserts(e, roots)|
    ensures var (key, action) := Inserts(e, roots)[k];
            match e.kind
            case Overflow => action == FullRescan && key.path.None?
            case Created => action == Scan && key.path == e.path
            case Modified => action == Scan && key.path == e.path
            case AttributeChanged => action == Scan && key.path == e.path
            case MovedTo => action == Scan && key.path == e.path
            case Deleted => action == Delete && key.path == e.path
            case MovedFrom => action == Delete && key.path == e.path
            case Renamed =>
              if k == |Inserts(e, roots)| - 1 && e.path.Some? then action == Scan && key.path == e.path
              else action == Delete && e.oldPath == Some(key.path)
            case Unknown => false
  {
  }

  predicate IsPending(r: Row, key: Key) { r.status == Pending && r.key == key }

  /** The row an insert coalesces with. */
  function PendingIndex(rows: seq<Row>, key: Key): (i: nat)
    ensures i <= |rows|
    ensures i < |rows| ==> IsPending(rows[i], key)
    ensures forall j | 0 <= j < i :: !IsPending(rows[j], key)
  {
    if rows == [] then 0
    else if IsPending(rows[0], key) then 0
    else PendingIndex(rows[1..], key) + 1
  }

  /** The upsert: the pending row of the key takes the new action, or a pending row is appended. */
  function Inserted(rows: seq<Row>, key: Key, action: Action, createdAt: int): seq<Row>
  {
    var i := PendingIndex(rows, key);
    if i < |rows| then rows[i := rows[i].(action := action)] else rows + [Row(key, action, Pending, createdAt)]
  }

  // ---------------------------------------------------------------- claiming

  predicate Claimable(r: Row, rootId: string) { r.key.rootId == rootId && (r.status == Pending || r.status == Failed) }

  function Rank(r: Row): int { if r.status == Pending then 0 else 1 }

  /** Claim order: pending before failed, then older first, then insertion order. */
  predicate Before(rows: seq<Row>, i: nat, j: nat)
    requires i < |rows| && j < |rows|
  {
    Rank(rows[i]) < Rank(rows[j])
    || (Rank(rows[i]) == Rank(rows[j])
        && (rows[i].createdAt < rows[j].createdAt || (rows[i].createdAt == rows[j].createdAt && i < j)))
  }

  predicate IsNext(rows: seq<Row>, rootId: string, i: nat)
  {
    i < |rows| && Claimable(rows[i], rootId)
    && forall j | 0 <= j < |rows| && j != i && Claimable(rows[j], rootId) :: Before(rows, i, j)
  }

  /**
   * Which row is claimed next, exactly: one of the root's pending or failed
   * rows, a pending one if there is any, and among equals the oldest, ties in
   * order of insertion.
   */
  lemma ClaimPicks(rows: seq<Row>, rootId: string, i: nat)
    ensures IsNext(rows, rootId, i) <==>
              && i < |rows| && rows[i].key.rootId == rootId && (rows[i].status == Pending || rows[i].status == Failed)
              && (forall j | 0 <= j < |rows| && rows[j].key.rootId == rootId && rows[j].status == Pending ::
                    rows[i].status == Pending && rows[i].createdAt <= rows[j].createdAt
                    && (rows[i].createdAt == rows[j].createdAt ==> i <= j))
              && (rows[i].status == Failed ==>
                    forall j | 0 <= j < |rows| && rows[j].key.rootId == rootId && rows[j].status == Failed ::
                      rows[i].createdAt <= rows[j].createdAt && (rows[i].createdAt == rows[j].createdAt ==> i <= j))
  {
    if i < |rows| && rows[i].key.rootId == rootId && (rows[i].status == Pending || rows[i].status == Failed)
       && !IsNext(rows, rootId, i) {
      var j :| 0 <= j < |rows| && j != i && Claimable(rows[j], rootId) && !Before(rows, i, j);
    }
    if IsNext(rows, rootId, i) {
      forall j | 0 <= j < |rows| && j != i && rows[j].key.rootId == rootId
                 && (rows[j].status == Pending || rows[j].status == Failed)
        ensures Before(rows, i, j)
      {
        assert Claimable(rows[j], rootId);
      }
    }
  }

  // ---------------------------------------------------------------- the repository

  class DirtyPathRepo {
    var rows: seq<Row>

    constructor ()
      ensures rows == []
    {
      rows := [];
    }

    method InsertDirtyPath(key: Key, action: Action, now: int)
      modifies this
      ensures rows == Inserted(old(rows), key, action, now)
    {
      var i := 0;
      while i < |rows| && !IsPending(rows[i], key)
        invariant 0 <= i <= |rows| && rows == old(rows)
        invariant PendingIndex(rows, key) == PendingIndex(rows[i..], key) + i
        decreases |rows| - i
      {
        assert rows[i..][1..] == rows[i + 1..];
        i := i + 1;
      }
      if i < |rows| {
        rows := rows[i := rows[i].(action := action)];
      } else {
        rows := rows + [Row(key, action, Pending, now)];
      }
    }

    /** Records one watcher event; every key it concerns has a pending row afterwards. */
    method Record(e: FileEvent, roots: seq<string>, now: int)
      modifies this
      ensures rows == InsertedAll(old(rows), Inserts(e, roots), now)
      ensures forall k | 0 <= k < |Inserts(e, roots)| :: PendingIndex(rows, Inserts(e, roots)[k].0) < |rows|
    {
      hide Inserts, Inserted, PendingIndex;
      var inserts := Inserts(e, roots);
      var n := 0;
      assert inserts[..0] == [];
      while n < |inserts|
        invariant 0 <= n <= |inserts|
        invariant rows == InsertedAll(old(rows), inserts[..n], now)
        invariant forall k | 0 <= k < n :: PendingIndex(rows, inserts[k].0) < |rows|
      {
        ghost var before := rows;
        InsertDirtyPath(inserts[n].0, inserts[n].1, now);
        assert inserts[..n + 1][..n] == inserts[..n];
        forall k | 0 <= k < n + 1 ensures PendingIndex(rows, inserts[k].0) < |rows| {
          KeepsPending(before, inserts[n].0, inserts[n].1, now, inserts[k].0);
        }
        n := n + 1;
      }
      assert inserts[..n] == inserts;
    }

    /** Claims the next row of the root, or finds none to claim. */
    method ClaimNextPending(rootId: string) returns (r: Option<nat>)
      modifies this
      ensures r.None? ==> rows == old(rows)
      ensures r.None? <==> forall j | 0 <= j < |old(rows)| && old(rows)[j].key.rootId == rootId ::
                old(rows)[j].status != Pending && old(rows)[j].status != Failed
      ensures r.Some? ==> IsNext(old(rows), rootId, r.value) && rows == Claimed(old(rows), r.value)
    {
      r := None;
      var i := 0;
      while i < |rows|
        invariant 0 <= i <= |rows| && rows == old(rows)
        invariant r.None? ==> forall j | 0 <= j < i :: !Claimable(rows[j], rootId)
        invariant r.Some? ==> r.value < i && Claimable(rows[r.value], rootId)
        invariant r.Some? ==>
                    forall j | 0 <= j < i && j != r.value && Claimable(rows[j], rootId) :: Before(rows, r.value, j)
      {
        if Claimable(rows[i], rootId) && (r.None? || Before(rows, i, r.value)) {
          r := Some(i);
        }
        i := i + 1;
      }
      if r.Some? {
        rows := Claimed(rows, r.value);
      }
    }

    /** Rows are named by position, standing for their ids; an unknown id changes nothing. */
    method MarkDone(i: nat)
      modifies this
      ensures rows == if i < |old(rows)| then Marked(old(rows), i, Done) else old(rows)
    {
      if i < |rows| {
        rows := rows[i := rows[i].(status := Done)];
      }
    }

    method MarkFailed(i: nat)
      modifies this
      ensures rows == if i < |old(rows)| then Marked(old(rows), i, Failed) else old(rows)
    {
      if i < |rows| {
        rows := rows[i := rows[i].(status := Failed)];
      }
    }
  }

  function InsertedAll(rows: seq<Row>, inserts: seq<(Key, Action)>, now: int): seq<Row>
  {
    if inserts == [] then rows
    else
      var n := |inserts| - 1;
      Inserted(InsertedAll(rows, inserts[..n], now), inserts[n].0, inserts[n].1, now)
  }

  function Claimed(rows: seq<Row>, i: nat): seq<Row>
    requires i < |rows|
  {
    rows[i := rows[i].(status := Running)]
  }

  function Marked(rows: seq<Row>, i: nat, status: Status): seq<Row>
    requires i < |rows|
  {
    rows[i := rows[i].(status := status)]
  }

  lemma KeepsPending(rows: seq<Row>, key: Key, action: Action, now: int, other: Key)
    ensures var rows' := Inserted(rows, key, action, now);
            && PendingIndex(rows', key) < |rows'|
            && (PendingIndex(rows, other) < |rows| ==> PendingIndex(rows', other) < |rows'|)
  {
    var rows' := Inserted(rows, key, action, now);
    var i := PendingIndex(rows, key);
    assert IsPending(rows'[if i < |rows| then i else |rows|], key);
    if PendingIndex(rows, other) < |rows| {
      assert IsPending(rows'[PendingIndex(rows, other)], other);
    }
  }

  /** The action of the pending row of the key, if there is one. */
  function PendingAction(rows: seq<Row>, key: Key): Option<Action>
  {
    var i := PendingIndex(rows, key);
    if i < |rows| then Some(rows[i].action) else None
  }

  /** The action the inserts leave for the key: that of the last one about it. */
  function LastAction(inserts: seq<(Key, Action)>, key: Key): Option<Action>
  {
    if inserts == [] then None
    else if inserts[|inserts| - 1].0 == key then Some(inserts[|inserts| - 1].1)
    else LastAction(inserts[..|inserts| - 1], key)
  }

  lemma InsertSetsAction(rows: seq<Row>, key: Key, action: Action, now: int, other: Key)
    requires OnePendingEach(rows)
    ensures OnePendingEach(Inserted(rows, key, action, now))
    ensures PendingAction(Inserted(rows, key, action, now), other)
         == if other == key then Some(action) else PendingAction(rows, other)
  {
    var rows' := Inserted(rows, key, action, now);
    var i, j := PendingIndex(rows, key), PendingIndex(rows, other);
    assert IsPending(rows'[if i < |rows| then i else |rows|], key);
    assert forall k | 0 <= k < |rows| :: IsPending(rows'[k], other) <==> IsPending(rows[k], other);
    assert other != key && j < |rows| ==> IsPending(rows'[j], other);
  }

  /** The last insert about a path wins: a coalesced row does what the latest event asks for. */
  lemma {:induction false} LastInsertWins(rows: seq<Row>, inserts: seq<(Key, Action)>, now: int, key: Key)
    requires OnePendingEach(rows)
    ensures OnePendingEach(InsertedAll(rows, inserts, now))
    ensures PendingAction(InsertedAll(rows, inserts, now), key) ==
            if LastAction(inserts, key).Some? then LastAction(inserts, key) else PendingAction(rows, key)
    decreases |inserts|
  {
    if inserts != [] {
      var n := |inserts| - 1;
      LastInsertWins(rows, inserts[..n], now, key);
      InsertSetsAction(InsertedAll(rows, inserts[..n], now), inserts[n].0, inserts[n].1, now, key);
    }
  }

  // ---------------------------------------------------------------- runs

  /** An accepted event at a moment of the run. */
  datatype Moment = Moment(time: nat, key: Key)

  /** A claim that was made at a moment and has ended. */
  datatype Ended = Ended(claimed: nat, key: Key, ok: bool)

  /** `claimedAt` is when each row was last claimed; events and ended claims are history. */
  datatype State = State(rows: seq<Row>, time: nat, claimedAt: map<nat, nat>, events: seq<Moment>, ended: seq<Ended>)

  datatype Step =
    | Insert(key: Key, action: Action, now: int)
    | Claim(i: nat)
    | Finish(i: nat, ok: bool)

  const START: State := State([], 0, map[], [], [])

  function ClaimTime(s: State, i: nat): nat { if i in s.claimedAt then s.claimedAt[i] else 0 }

  /** One statement against the table. A claim takes the row the claim order picks; only claimed rows are finished. */
  function Next(s: State, step: Step): State
  {
    match step
    case Insert(key, action, now) =>
      s.(rows := Inserted(s.rows, key, action, now), time := s.time + 1, events := s.events + [Moment(s.time, key)])
    case Claim(i) =>
      if i >= |s.rows| || !IsNext(s.rows, s.rows[i].key.rootId, i) then s
      else s.(rows := Claimed(s.rows, i), time := s.time + 1, claimedAt := s.claimedAt[i := s.time])
    case Finish(i, ok) =>
      if i >= |s.rows| || s.rows[i].status != Running then s
      else s.(rows := Marked(s.rows, i, if ok then Done else Failed), time := s.time + 1,
              ended := s.ended + [Ended(ClaimTime(s, i), s.rows[i].key, ok)])
  }

  function Run(s: State, steps: seq<Step>): State
    decreases |steps|
  {
    if steps == [] then s else Run(Next(s, steps[0]), steps[1..])
  }

  /**
   * The life of a row: only the next claimable one is claimed, and then it is
   * running and not claimable; finished well it is done for good, and otherwise
   * failed and claimable again. Every insert is an event of its moment.
   */
  lemma LifeOfARow(s: State, i: nat, key: Key, action: Action, now: int)
    ensures i < |s.rows| && IsNext(s.rows, s.rows[i].key.rootId, i) ==>
              var s' := Next(s, Claim(i));
              && s'.rows == s.rows[i := s.rows[i].(status := Running)] && !Claimable(s'.rows[i], s.rows[i].key.rootId)
              && s'.time == s.time + 1 && ClaimTime(s', i) == s.time && s'.events == s.events && s'.ended == s.ended
    ensures i >= |s.rows| || !IsNext(s.rows, s.rows[i].key.rootId, i) ==> Next(s, Claim(i)) == s
    ensures i < |s.rows| && s.rows[i].status == Running ==>
              && Next(s, Finish(i, true)).rows == s.rows[i := s.rows[i].(status := Done)]
              && Next(s, Finish(i, false)).rows == s.rows[i := s.rows[i].(status := Failed)]
              && Claimable(Next(s, Finish(i, false)).rows[i], s.rows[i].key.rootId)
              && Next(s, Finish(i, true)).time == s.time + 1
              && Next(s, Finish(i, true)).ended == s.ended + [Ended(ClaimTime(s, i), s.rows[i].key, true)]
    ensures i >= |s.rows| || s.rows[i].status != Running ==> forall ok :: Next(s, Finish(i, ok)) == s
    ensures var s' := Next(s, Insert(key, action, now));
            s'.events == s.events + [Moment(s.time, key)] && s'.time == s.time + 1 && s'.ended == s.ended
  {
  }

  predicate OnePendingEach(rows: seq<Row>)
  {
    forall i, j | 0 <= i < |rows| && 0 <= j < |rows| && rows[i].status == Pending && rows[j].status == Pending
                  && rows[i].key == rows[j].key :: i == j
  }

  /** A claim of the event's key, made after the event, has ended well. */
  predicate ScannedAfter(s: State, event: Moment)
  {
    exists c :: 0 <= c < |s.ended| && s.ended[c].key == event.key && s.ended[c].claimed > event.time && s.ended[c].ok
  }

  /** A row stands for the event: pending, failed, or claimed after the event and still running. */
  predicate StandsFor(s: State, i: int, event: Moment)
  {
    0 <= i < |s.rows| && s.rows[i].key == event.key
    && (s.rows[i].status == Pending || s.rows[i].status == Failed
        || (s.rows[i].status == Running && ClaimTime(s, i) > event.time))
  }

  ghost predicate Waiting(s: State, event: Moment) { exists i :: StandsFor(s, i, event) }

  ghost predicate Inv(s: State)
  {
    && OnePendingEach(s.rows)
    && (forall e | 0 <= e < |s.events| :: s.events[e].time < s.time)
    && (forall e | 0 <= e < |s.events| :: ScannedAfter(s, s.events[e]) || Waiting(s, s.events[e]))
  }

  lemma EventKept(s: State, step: Step, event: Moment)
    requires event.time < s.time && (ScannedAfter(s, event) || Waiting(s, event))
    ensures ScannedAfter(Next(s, step), event) || Waiting(Next(s, step), event)
  {
    var s' := Next(s, step);
    if ScannedAfter(s, event) {
      var c :| 0 <= c < |s.ended| && s.ended[c].key == event.key && s.ended[c].claimed > event.time && s.ended[c].ok;
      assert s'.ended[c] == s.ended[c];
    } else {
      var i :| StandsFor(s, i, event);
      if step.Finish? && step.i == i && step.ok && s' != s {
        assert s'.ended[|s.ended|] == Ended(ClaimTime(s, i), event.key, true);
      } else {
        assert StandsFor(s', i, event);
      }
    }
  }

  lemma NextInv(s: State, step: Step)
    requires Inv(s)
    ensures Inv(Next(s, step))
  {
    var s' := Next(s, step);
    forall e | 0 <= e < |s'.events| ensures ScannedAfter(s', s'.events[e]) || Waiting(s', s'.events[e]) {
      if e < |s.events| {
        EventKept(s, step, s.events[e]);
      } else {
        KeepsPending(s.rows, step.key, step.action, step.now, step.key);
        assert StandsFor(s', PendingIndex(s'.rows, step.key), s'.events[e]);
      }
    }
    if step.Insert? {
      var i := PendingIndex(s.rows, step.key);
      assert i == |s.rows| ==> forall j | 0 <= j < |s.rows| :: !IsPending(s.rows[j], step.key);
    }
  }

  lemma {:induction false} RunInv(s: State, steps: seq<Step>)
    requires Inv(s)
    ensures Inv(Run(s, steps))
    decreases |steps|
  {
    if steps != [] {
      NextInv(s, steps[0]);
      RunInv(Next(s, steps[0]), steps[1..]);
    }
  }

  /**
   * No lost change event. In every run, for every accepted event, a claim of
   * its key made after the event has ended well, or a row stands for it:
   * pending, failed, or claimed after the event and not yet finished (as after
   * a crash). And no key ever has two pending rows.
   */
  lemma NoLostChange(steps: seq<Step>, e: nat)
    requires e < |Run(START, steps).events|
    ensures var s := Run(START, steps);
            ScannedAfter(s, s.events[e]) || Waiting(s, s.events[e])
    ensures OnePendingEach(Run(START, steps).rows)
  {
    RunInv(START, steps);
  }

  /** An event that arrives while its key is being scanned opens a new row; the running row is left as it is. */
  lemma RunningScanAbsorbsNothing(rows: seq<Row>, key: Key, action: Action, now: int, r: nat)
    requires r < |rows| && rows[r].status == Running && rows[r].key == key
    ensures var rows' := Inserted(rows, key, action, now);
            rows'[r] == rows[r] && exists i :: 0 <= i < |rows'| && i != r && IsPending(rows'[i], key)
  {
    var rows' := Inserted(rows, key, action, now);
    KeepsPending(rows, key, action, now, key);
    assert IsPending(rows'[PendingIndex(rows', key)], key);
  }
}
