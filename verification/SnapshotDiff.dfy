/**
 * The snapshot diff with rename detection by file identity. Snapshots are
 * unordered maps, so the order in which either one is enumerated is arbitrary.
 */
module SnapshotDiff {
  import opened Basics

  datatype FileEntry = FileEntry(identity: string, size: nat, modifiedAt: int, isDirectory: bool)

  type Snapshot = map<string, FileEntry>

  datatype Event =
    | Created(path: string, isDirectory: bool)
    | Modified(path: string, isDirectory: bool)
    | Renamed(oldPath: string, path: string, isDirectory: bool)
    | Deleted(path: string, isDirectory: bool)

  predicate Changed(a: FileEntry, b: FileEntry)
  {
    a.isDirectory != b.isDirectory || a.size != b.size || a.modifiedAt != b.modifiedAt
  }

  predicate Vanished(before: Snapshot, after: Snapshot, path: string) { path in before && path !in after }

  predicate Appeared(before: Snapshot, after: Snapshot, path: string) { path in after && path !in before }

  /** The order enumerates the snapshot's paths, each once. */
  ghost predicate Enumerates(order: seq<string>, s: Snapshot)
  {
    && (forall p :: p in order <==> p in s)
    && (forall i, j | 0 <= i < |order| && 0 <= j < |order| && order[i] == order[j] :: i == j)
  }

  /** The last of the first `n` paths that vanished with the given identity. */
  function Holder(before: Snapshot, after: Snapshot, order: seq<string>, n: nat, identity: string): Option<string>
    requires n <= |order|
  {
    if n == 0 then None
    else if Vanished(before, after, order[n - 1]) && before[order[n - 1]].identity == identity && identity != ""
    then Some(order[n - 1])
    else Holder(before, after, order, n - 1, identity)
  }

  /** One of the first `m` paths appeared with the given identity. */
  predicate Taken(before: Snapshot, after: Snapshot, order: seq<string>, m: nat, identity: string)
    requires m <= |order|
  {
    identity != "" && exists j ::
        0 <= j < m && Appeared(before, after, order[j]) && after[order[j]].identity == identity
  }

  // ---------------------------------------------------------------- what events say about a path

  predicate IsSource(e: Event, p: string) { (e.Deleted? && e.path == p) || (e.Renamed? && e.oldPath == p) }

  predicate IsTarget(e: Event, p: string) { (e.Created? || e.Renamed?) && e.path == p }

  /** Events that take the path away. */
  function Sources(events: seq<Event>, p: string): nat
  {
    if events == [] then 0 else Sources(events[..|events| - 1], p) + One(IsSource(events[|events| - 1], p))
  }

  /** Events that bring the path. */
  function Targets(events: seq<Event>, p: string): nat
  {
    if events == [] then 0 else Targets(events[..|events| - 1], p) + One(IsTarget(events[|events| - 1], p))
  }

  function Modifications(events: seq<Event>, p: string): nat
  {
    if events == [] then 0
    else
      var last := events[|events| - 1];
      Modifications(events[..|events| - 1], p) + One(last.Modified? && last.path == p)
  }

  lemma Snoc(events: seq<Event>, e: Event, p: string)
    ensures Sources(events + [e], p) == Sources(events, p) + One(IsSource(e, p))
    ensures Targets(events + [e], p) == Targets(events, p) + One(IsTarget(e, p))
    ensures Modifications(events + [e], p) == Modifications(events, p) + One(e.Modified? && e.path == p)
  {
    assert (events + [e])[..|events|] == events;
  }

  /**
   * Every event is about a path it may be about, and carries that entry's kind;
   * a rename connects a vanished and a new path of one identity.
   */
  predicate HonestEvents(before: Snapshot, after: Snapshot, events: seq<Event>)
  {
    forall k | 0 <= k < |events| :: HonestEvent(before, after, events[k])
  }

  predicate HonestEvent(before: Snapshot, after: Snapshot, e: Event)
  {
    match e
    case Created(path, isDirectory) => Appeared(before, after, path) && isDirectory == after[path].isDirectory
    case Modified(path, isDirectory) => path in before && path in after && isDirectory == after[path].isDirectory
    case Renamed(oldPath, path, isDirectory) =>
      && Vanished(before, after, oldPath) && Appeared(before, after, path)
      && before[oldPath].identity == after[path].identity != ""
      && isDirectory == after[path].isDirectory
    case Deleted(path, isDirectory) => Vanished(before, after, path) && isDirectory == before[path].isDirectory
  }

  // ---------------------------------------------------------------- the three loops

  method IndexVanished(before: Snapshot, after: Snapshot, order: seq<string>) returns (index: map<string, string>)
    requires forall p | p in order :: p in before
    ensures forall i :: Find(index, i) == Holder(before, after, order, |order|, i)
  {
    index := map[];
    var n := 0;
    while n < |order|
      invariant 0 <= n <= |order|
      invariant forall i :: Find(index, i) == Holder(before, after, order, n, i)
    {
      var key := order[n];
      if key !in after && before[key].identity != "" {
        index := index[before[key].identity := key];
      }
      n := n + 1;
    }
  }

  /** The event for one current path, given the vanished identities not yet matched. */
  function EventFor(before: Snapshot, after: Snapshot, left: map<string, string>, key: string): Option<Event>
    requires key in after
  {
    var entry := after[key];
    if key in before then
      if Changed(before[key], entry) then Some(Modified(key, entry.isDirectory)) else None
    else if entry.identity != "" && entry.identity in left
    then Some(Renamed(left[entry.identity], key, entry.isDirectory))
    else Some(Created(key, entry.isDirectory))
  }

  /** What the first `m` current paths' events say about `p`. */
  ghost predicate PathReported(before: Snapshot, after: Snapshot, beforeOrder: seq<string>, afterOrder: seq<string>,
      m: nat,
      events: seq<Event>, p: string)
    requires m <= |afterOrder|
  {
    && Sources(events, p) == RenamedAway(before, after, beforeOrder, afterOrder, m, p)
    && Targets(events, p) == One(p in afterOrder[..m] && Appeared(before, after, p))
    && Modifications(events, p)
       == One(p in afterOrder[..m] && p in before && p in after && Changed(before[p], after[p]))
  }

  /** The vanished identities not matched by the first `m` current paths. */
  ghost predicate Unmatched(before: Snapshot, after: Snapshot, beforeOrder: seq<string>, afterOrder: seq<string>,
      m: nat,
      left: map<string, string>)
    requires m <= |afterOrder|
  {
    forall i :: Find(left, i) ==
      if Taken(before, after, afterOrder, m, i) then None else Holder(before, after, beforeOrder, |beforeOrder|, i)
  }

  /** Progress of the second loop after `m` current paths. */
  ghost predicate Reported(before: Snapshot, after: Snapshot, beforeOrder: seq<string>, afterOrder: seq<string>, m: nat,
      events: seq<Event>, left: map<string, string>)
    requires m <= |afterOrder|
  {
    && Unmatched(before, after, beforeOrder, afterOrder, m, left)
    && (forall p :: PathReported(before, after, beforeOrder, afterOrder, m, events, p))
    && HonestEvents(before, after, events)
  }

  /** New and common paths: every new path is the target of one event, every changed common path of one Modified. */
  method ReportCurrent(before: Snapshot, after: Snapshot, ghost beforeOrder: seq<string>, afterOrder: seq<string>,
      index: map<string, string>)
    returns (events: seq<Event>, left: map<string, string>)
    requires Enumerates(beforeOrder, before) && Enumerates(afterOrder, after)
    requires forall i :: Find(index, i) == Holder(before, after, beforeOrder, |beforeOrder|, i)
    ensures Reported(before, after, beforeOrder, afterOrder, |afterOrder|, events, left)
  {
    hide Reported, Holder;
    events, left := [], index;
    ReportedStart(before, after, beforeOrder, afterOrder, index);
    var m := 0;
    while m < |afterOrder|
      invariant 0 <= m <= |afterOrder|
      invariant Reported(before, after, beforeOrder, afterOrder, m, events, left)
    {
      var key := afterOrder[m];
      var event := EventFor(before, after, left, key);
      ReportedOneMore(before, after, beforeOrder, afterOrder, m, events, left);
      if event.Some? {
        events := events + [event.value];
        if event.value.Renamed? {
          left := left - {after[key].identity};
        }
      }
      m := m + 1;
    }
  }

  lemma ReportedStart(before: Snapshot, after: Snapshot, beforeOrder: seq<string>, afterOrder: seq<string>,
      index: map<string, string>)
    requires forall i :: Find(index, i) == Holder(before, after, beforeOrder, |beforeOrder|, i)
    ensures Reported(before, after, beforeOrder, afterOrder, 0, [], index)
  {
    hide Holder;
  }

  lemma {:induction false} HolderSound(before: Snapshot, after: Snapshot, order: seq<string>, n: nat, identity: string)
    requires n <= |order|
    ensures var h := Holder(before, after, order, n, identity);
            h.Some? ==> Vanished(before, after, h.value) && before[h.value].identity == identity != ""
    ensures forall k | 0 <= k < n && Vanished(before, after, order[k]) && before[order[k]].identity == identity != "" ::
              Holder(before, after, order, n, identity).Some?
    decreases n
  {
    if n > 0 { HolderSound(before, after, order, n - 1, identity); }
  }

  lemma TakenOneMore(before: Snapshot, after: Snapshot, order: seq<string>, m: nat, i: string)
    requires m < |order|
    ensures Taken(before, after, order, m + 1, i) <==>
              Taken(before, after, order, m, i)
              || (i != "" && Appeared(before, after, order[m]) && after[order[m]].identity == i)
  {
  }

  lemma NextInOrder(order: seq<string>, s: Snapshot, m: nat)
    requires Enumerates(order, s) && m < |order|
    ensures order[m] in s && order[m] !in order[..m]
    ensures forall p :: p in order[..m + 1] <==> p in order[..m] || p == order[m]
  {
    assert order[m] in order;
    assert order[..m + 1] == order[..m] + [order[m]];
  }

  lemma ReportedOneMore(before: Snapshot, after: Snapshot, beforeOrder: seq<string>, afterOrder: seq<string>, m: nat,
      events: seq<Event>, left: map<string, string>)
    requires Enumerates(afterOrder, after) && m < |afterOrder|
    requires Reported(before, after, beforeOrder, afterOrder, m, events, left)
    ensures afterOrder[m] in after
    ensures var key := afterOrder[m];
            var event := EventFor(before, after, left, key);
            Reported(before, after, beforeOrder, afterOrder, m + 1,
                     if event.Some? then events + [event.value] else events,
                     if event.Some? && event.value.Renamed? then left - {after[key].identity} else left)
  {
    NextInOrder(afterOrder, after, m);
    hide Enumerates, PathReported, Unmatched, HonestEvents, EventFor;
    var event := EventFor(before, after, left, afterOrder[m]);
    var events' := if event.Some? then events + [event.value] else events;
    LeftOneMore(before, after, beforeOrder, afterOrder, m, left);
    HonestOneMore(before, after, beforeOrder, afterOrder, m, events, left);
    var next := m + 1;
    forall p ensures PathReported(before, after, beforeOrder, afterOrder, next, events', p) {
      assert PathReported(before, after, beforeOrder, afterOrder, m, events, p);
      PathOneMore(before, after, beforeOrder, afterOrder, m, events, left, p);
    }
  }

  lemma PathOneMore(before: Snapshot, after: Snapshot, beforeOrder: seq<string>, afterOrder: seq<string>, m: nat,
      events: seq<Event>, left: map<string, string>, p: string)
    requires Enumerates(afterOrder, after) && m < |afterOrder| && afterOrder[m] in after
    requires Unmatched(before, after, beforeOrder, afterOrder, m, left)
    requires PathReported(before, after, beforeOrder, afterOrder, m, events, p)
    ensures var event := EventFor(before, after, left, afterOrder[m]);
            PathReported(before, after, beforeOrder, afterOrder, m + 1,
                if event.Some? then events + [event.value] else events, p)
  {
    NextInOrder(afterOrder, after, m);
    hide Enumerates, Sources, Targets, Modifications, RenamedAway, EventFor, Unmatched;
    var event := EventFor(before, after, left, afterOrder[m]);
    if event.Some? { Snoc(events, event.value, p); }
    RenamedOneMore(before, after, beforeOrder, afterOrder, m, left, p);
    EventTargets(before, after, left, afterOrder[m], p);
  }

  /** What one current path's event says about any path. */
  lemma EventTargets(before: Snapshot, after: Snapshot, left: map<string, string>, key: string, p: string)
    requires key in after
    ensures var event := EventFor(before, after, left, key);
            && One(event.Some? && IsTarget(event.value, p)) == One(p == key && Appeared(before, after, p))
            && One(event.Some? && event.value.Modified? && event.value.path == p)
               == One(p == key && p in before && p in after && Changed(before[p], after[p]))
  {
  }

  lemma HonestOneMore(before: Snapshot, after: Snapshot, beforeOrder: seq<string>, afterOrder: seq<string>, m: nat,
      events: seq<Event>, left: map<string, string>)
    requires m < |afterOrder| && afterOrder[m] in after && HonestEvents(before, after, events)
    requires Unmatched(before, after, beforeOrder, afterOrder, m, left)
    ensures var event := EventFor(before, after, left, afterOrder[m]);
            HonestEvents(before, after, if event.Some? then events + [event.value] else events)
  {
    var id := after[afterOrder[m]].identity;
    HolderSound(before, after, beforeOrder, |beforeOrder|, id);
    assert Find(left, id) ==
      if Taken(before, after, afterOrder, m, id) then None else Holder(before, after, beforeOrder, |beforeOrder|, id);
    hide Taken, Holder;
  }

  lemma LeftOneMore(before: Snapshot, after: Snapshot, beforeOrder: seq<string>, afterOrder: seq<string>, m: nat,
      left: map<string, string>)
    requires m < |afterOrder| && afterOrder[m] in after
    requires Unmatched(before, after, beforeOrder, afterOrder, m, left)
    ensures var key := afterOrder[m];
            var event := EventFor(before, after, left, key);
            var left' := if event.Some? && event.value.Renamed? then left - {after[key].identity} else left;
            Unmatched(before, after, beforeOrder, afterOrder, m + 1, left')
  {
    var key := afterOrder[m];
    var event := EventFor(before, after, left, key);
    var left' := if event.Some? && event.value.Renamed? then left - {after[key].identity} else left;
    forall i
      ensures Find(left', i) ==
        if Taken(before, after, afterOrder, m + 1, i) then None
        else Holder(before, after, beforeOrder, |beforeOrder|, i)
    {
      TakenOneMore(before, after, afterOrder, m, i);
      assert Find(left, i) ==
        if Taken(before, after, afterOrder, m, i) then None else Holder(before, after, beforeOrder, |beforeOrder|, i);
      hide Taken, Holder;
    }
  }

  lemma RenamedOneMore(before: Snapshot, after: Snapshot, beforeOrder: seq<string>, afterOrder: seq<string>, m: nat,
      left: map<string, string>, p: string)
    requires m < |afterOrder| && afterOrder[m] in after
    requires Unmatched(before, after, beforeOrder, afterOrder, m, left)
    ensures var event := EventFor(before, after, left, afterOrder[m]);
            RenamedAway(before, after, beforeOrder, afterOrder, m + 1, p)
            == RenamedAway(before, after, beforeOrder, afterOrder, m, p) + One(event.Some? && IsSource(event.value, p))
  {
    var id := after[afterOrder[m]].identity;
    HolderSound(before, after, beforeOrder, |beforeOrder|, id);
    assert Find(left, id) ==
      if Taken(before, after, afterOrder, m, id) then None else Holder(before, after, beforeOrder, |beforeOrder|, id);
    if Vanished(before, after, p) {
      TakenOneMore(before, after, afterOrder, m, before[p].identity);
    }
    hide Taken, Holder;
  }

  /** The path was the source of a rename reported for one of the first `m` current paths. */
  ghost function RenamedAway(before: Snapshot, after: Snapshot, beforeOrder: seq<string>, afterOrder: seq<string>,
      m: nat, p: string): nat
    requires m <= |afterOrder|
  {
    One(Vanished(before, after, p) && Taken(before, after, afterOrder, m, before[p].identity)
        && Holder(before, after, beforeOrder, |beforeOrder|, before[p].identity) == Some(p))
  }

  // ---------------------------------------------------------------- vanished paths and the whole diff

  /** The vanished path's identity reappears, but on behalf of another vanished path of the same identity. */
  ghost predicate Lost(before: Snapshot, after: Snapshot, beforeOrder: seq<string>, afterOrder: seq<string>, p: string)
  {
    Vanished(before, after, p) && Taken(before, after, afterOrder, |afterOrder|, before[p].identity)
    && Holder(before, after, beforeOrder, |beforeOrder|, before[p].identity) != Some(p)
  }

  /**
   * The diff. Every new path is the target of exactly one event, every common
   * path is reported Modified exactly if it changed, renames are honest, and
   * every vanished path is the source of exactly one event unless it is lost.
   */
  method DiffFileSnapshots(before: Snapshot, after: Snapshot, beforeOrder: seq<string>, afterOrder: seq<string>)
    returns (events: seq<Event>)
    requires Enumerates(beforeOrder, before) && Enumerates(afterOrder, after)
    ensures ExactDiff(before, after, beforeOrder, afterOrder, events)
  {
    var index := IndexVanished(before, after, beforeOrder);
    var left: map<string, string>;
    events, left := ReportCurrent(before, after, beforeOrder, afterOrder, index);
    ghost var current := events;
    CurrentDone(before, after, beforeOrder, afterOrder, events, left);
    var n := 0;
    while n < |beforeOrder|
      invariant 0 <= n <= |beforeOrder|
      invariant Extended(before, after, beforeOrder, afterOrder, n, current, events)
    {
      hide Extended, Reported;
      var key := beforeOrder[n];
      ExtendedOneMore(before, after, beforeOrder, afterOrder, n, current, events, left);
      if key !in after && (before[key].identity == "" || before[key].identity in left) {
        events := events + [Deleted(key, before[key].isDirectory)];
      }
      n := n + 1;
    }
    DiffDone(before, after, beforeOrder, afterOrder, current, events, left);
  }

  ghost predicate ExactDiff(before: Snapshot, after: Snapshot, beforeOrder: seq<string>, afterOrder: seq<string>,
      events: seq<Event>)
  {
    && (forall p :: Sources(events, p) ==
          One(Vanished(before, after, p) && !Lost(before, after, beforeOrder, afterOrder, p)))
    && (forall p :: Targets(events, p) == One(Appeared(before, after, p)))
    && (forall p :: Modifications(events, p) ==
          One(p in before && p in after
              && (before[p].isDirectory != after[p].isDirectory || before[p].size != after[p].size
                  || before[p].modifiedAt != after[p].modifiedAt)))
    && HonestEvents(before, after, events)
  }

  predicate ReportedDeleted(before: Snapshot, after: Snapshot, afterOrder: seq<string>, p: string)
  {
    Vanished(before, after, p)
    && (before[p].identity == "" || !Taken(before, after, afterOrder, |afterOrder|, before[p].identity))
  }

  /** What the third loop has added for `p` after `n` old paths. */
  ghost predicate PathExtended(before: Snapshot, after: Snapshot, beforeOrder: seq<string>, afterOrder: seq<string>,
      n: nat,
      current: seq<Event>, events: seq<Event>, p: string)
    requires n <= |beforeOrder|
  {
    && Sources(events, p)
       == Sources(current, p) + One(p in beforeOrder[..n] && ReportedDeleted(before, after, afterOrder, p))
    && Targets(events, p) == Targets(current, p)
    && Modifications(events, p) == Modifications(current, p)
  }

  /** Progress of the third loop. */
  ghost predicate Extended(before: Snapshot, after: Snapshot, beforeOrder: seq<string>, afterOrder: seq<string>, n: nat,
      current: seq<Event>, events: seq<Event>)
    requires n <= |beforeOrder|
  {
    && (forall p :: PathExtended(before, after, beforeOrder, afterOrder, n, current, events, p))
    && HonestEvents(before, after, events)
  }

  lemma CurrentDone(before: Snapshot, after: Snapshot, beforeOrder: seq<string>, afterOrder: seq<string>,
      events: seq<Event>, left: map<string, string>)
    requires Reported(before, after, beforeOrder, afterOrder, |afterOrder|, events, left)
    ensures Extended(before, after, beforeOrder, afterOrder, 0, events, events)
  {
  }

  lemma ExtendedOneMore(before: Snapshot, after: Snapshot, beforeOrder: seq<string>, afterOrder: seq<string>, n: nat,
      current: seq<Event>, events: seq<Event>, left: map<string, string>)
    requires Enumerates(beforeOrder, before) && n < |beforeOrder|
    requires Reported(before, after, beforeOrder, afterOrder, |afterOrder|, current, left)
    requires Extended(before, after, beforeOrder, afterOrder, n, current, events)
    ensures beforeOrder[n] in before
    ensures var key := beforeOrder[n];
            Extended(before, after, beforeOrder, afterOrder, n + 1, current,
                     if key !in after && (before[key].identity == "" || before[key].identity in left)
                     then events + [Deleted(key, before[key].isDirectory)] else events)
  {
    NextInOrder(beforeOrder, before, n);
    var key := beforeOrder[n];
    DeletedIffLeft(before, after, beforeOrder, afterOrder, n, left);
    hide Enumerates, PathExtended, PathReported, Unmatched, ReportedDeleted;
    var event := Deleted(key, before[key].isDirectory);
    var events' := if ReportedDeleted(before, after, afterOrder, key) then events + [event] else events;
    var next := n + 1;
    forall p ensures PathExtended(before, after, beforeOrder, afterOrder, next, current, events', p) {
      assert PathExtended(before, after, beforeOrder, afterOrder, n, current, events, p);
      PathDeletedOneMore(before, after, beforeOrder, afterOrder, n, current, events, p);
    }
  }

  lemma PathDeletedOneMore(before: Snapshot, after: Snapshot, beforeOrder: seq<string>, afterOrder: seq<string>, n: nat,
      current: seq<Event>, events: seq<Event>, p: string)
    requires Enumerates(beforeOrder, before) && n < |beforeOrder| && beforeOrder[n] in before
    requires PathExtended(before, after, beforeOrder, afterOrder, n, current, events, p)
    ensures var key := beforeOrder[n];
            PathExtended(before, after, beforeOrder, afterOrder, n + 1, current,
                         if ReportedDeleted(before, after, afterOrder, key)
                         then events + [Deleted(key, before[key].isDirectory)] else events, p)
  {
    NextInOrder(beforeOrder, before, n);
    hide Enumerates, Sources, Targets, Modifications, ReportedDeleted;
    Snoc(events, Deleted(beforeOrder[n], before[beforeOrder[n]].isDirectory), p);
  }

  lemma DeletedIffLeft(before: Snapshot, after: Snapshot, beforeOrder: seq<string>, afterOrder: seq<string>, n: nat,
      left: map<string, string>)
    requires n < |beforeOrder| && beforeOrder[n] in before
    requires Unmatched(before, after, beforeOrder, afterOrder, |afterOrder|, left)
    ensures var key := beforeOrder[n];
            key !in after && (before[key].identity == "" || before[key].identity in left)
            <==> ReportedDeleted(before, after, afterOrder, key)
  {
    var id := before[beforeOrder[n]].identity;
    HolderSound(before, after, beforeOrder, |beforeOrder|, id);
    assert Find(left, id) ==
      if Taken(before, after, afterOrder, |afterOrder|, id) then None
      else Holder(before, after, beforeOrder, |beforeOrder|, id);
    hide Taken, Holder;
  }

  lemma DiffDone(before: Snapshot, after: Snapshot, beforeOrder: seq<string>, afterOrder: seq<string>,
      current: seq<Event>, events: seq<Event>, left: map<string, string>)
    requires Enumerates(beforeOrder, before) && Enumerates(afterOrder, after)
    requires Reported(before, after, beforeOrder, afterOrder, |afterOrder|, current, left)
    requires Extended(before, after, beforeOrder, afterOrder, |beforeOrder|, current, events)
    ensures ExactDiff(before, after, beforeOrder, afterOrder, events)
  {
    hide Sources, Targets, Modifications, Taken, Holder;
    assert beforeOrder[..|beforeOrder|] == beforeOrder && afterOrder[..|afterOrder|] == afterOrder;
    forall p
      ensures Sources(events, p) == One(Vanished(before, after, p) && !Lost(before, after, beforeOrder, afterOrder, p))
      ensures Targets(events, p) == One(Appeared(before, after, p))
      ensures Modifications(events, p) == One(p in before && p in after && Changed(before[p], after[p]))
    {
      assert PathReported(before, after, beforeOrder, afterOrder, |afterOrder|, current, p);
      assert PathExtended(before, after, beforeOrder, afterOrder, |beforeOrder|, current, events, p);
      NoEmptyIdentityTaken(before, after, afterOrder);
    }
  }

  lemma NoEmptyIdentityTaken(before: Snapshot, after: Snapshot, afterOrder: seq<string>)
    ensures !Taken(before, after, afterOrder, |afterOrder|, "")
  {
  }

  /** A diff without Modified events means that all common entries agree in kind, size and modification time. */
  lemma SilenceMeansUnchanged(before: Snapshot, after: Snapshot, beforeOrder: seq<string>, afterOrder: seq<string>,
      events: seq<Event>, p: string)
    requires ExactDiff(before, after, beforeOrder, afterOrder, events) && p in before && p in after
    ensures Modifications(events, p) == 0 <==>
              before[p].isDirectory == after[p].isDirectory && before[p].size == after[p].size
              && before[p].modifiedAt == after[p].modifiedAt
  {
    hide Sources, Targets, Modifications, Lost, HonestEvents;
    assert Modifications(events, p) <= 1;
  }

  // ---------------------------------------------------------------- replay

  function ApplyEvent(paths: set<string>, e: Event): set<string>
  {
    match e
    case Created(path, _) => paths + {path}
    case Modified(_, _) => paths
    case Renamed(oldPath, path, _) => (paths - {oldPath}) + {path}
    case Deleted(path, _) => paths - {path}
  }

  function Replay(paths: set<string>, events: seq<Event>): set<string>
  {
    if events == [] then paths else ApplyEvent(Replay(paths, events[..|events| - 1]), events[|events| - 1])
  }

  lemma {:induction false} ReplayMember(paths: set<string>, events: seq<Event>, p: string)
    requires Sources(events, p) == 0 || Targets(events, p) == 0
    ensures p in Replay(paths, events) <==> Targets(events, p) > 0 || (p in paths && Sources(events, p) == 0)
    decreases |events|
  {
    if events != [] {
      ReplayMember(paths, events[..|events| - 1], p);
    }
  }

  /** Two vanished paths share an identity that a new path carries. */
  ghost predicate SharedCarrier(before: Snapshot, after: Snapshot)
  {
    exists v, w, k :: Vanished(before, after, v) && Vanished(before, after, w) && v != w && Appeared(before, after, k)
                      && before[v].identity == before[w].identity == after[k].identity != ""
  }

  lemma LostIffShared(before: Snapshot, after: Snapshot, beforeOrder: seq<string>, afterOrder: seq<string>)
    requires Enumerates(beforeOrder, before) && Enumerates(afterOrder, after)
    ensures (exists p :: Lost(before, after, beforeOrder, afterOrder, p)) <==> SharedCarrier(before, after)
  {
    if p :| Lost(before, after, beforeOrder, afterOrder, p) {
      var id := before[p].identity;
      HolderSound(before, after, beforeOrder, |beforeOrder|, id);
      var k :| 0 <= k < |beforeOrder| && beforeOrder[k] == p;
      var h := Holder(before, after, beforeOrder, |beforeOrder|, id).value;
      var j :| 0 <= j < |afterOrder| && Appeared(before, after, afterOrder[j]) && after[afterOrder[j]].identity == id;
      assert Vanished(before, after, h) && before[h].identity == before[p].identity == after[afterOrder[j]].identity;
    }
    if SharedCarrier(before, after) {
      var v, w, k :| Vanished(before, after, v) && Vanished(before, after, w) && v != w && Appeared(before, after, k)
                     && before[v].identity == before[w].identity == after[k].identity != "";
      var j :| 0 <= j < |afterOrder| && afterOrder[j] == k;
      assert Taken(before, after, afterOrder, |afterOrder|, before[v].identity);
      assert Lost(before, after, beforeOrder, afterOrder, v) || Lost(before, after, beforeOrder, afterOrder, w);
    }
  }

  /**
   * Replaying an exact diff on the old path set gives the new one if and only
   * if no new path carries an identity shared by two vanished paths.
   */
  lemma ReplayIsExactIff(before: Snapshot, after: Snapshot, beforeOrder: seq<string>, afterOrder: seq<string>,
      events: seq<Event>)
    requires Enumerates(beforeOrder, before) && Enumerates(afterOrder, after)
    requires ExactDiff(before, after, beforeOrder, afterOrder, events)
    ensures Replay(before.Keys, events) == after.Keys <==> !SharedCarrier(before, after)
  {
    LostIffShared(before, after, beforeOrder, afterOrder);
    hide SharedCarrier, Lost, Sources, Targets, Modifications;
    forall p
      ensures p in Replay(before.Keys, events) <==> p in after.Keys || Lost(before, after, beforeOrder, afterOrder, p)
    {
      LostIsVanished(before, after, beforeOrder, afterOrder, p);
      ReplayMember(before.Keys, events, p);
    }
    if p :| Lost(before, after, beforeOrder, afterOrder, p) {
      LostIsVanished(before, after, beforeOrder, afterOrder, p);
      assert p in Replay(before.Keys, events) && p !in after.Keys;
    }
  }

  lemma LostIsVanished(before: Snapshot, after: Snapshot, beforeOrder: seq<string>, afterOrder: seq<string>, p: string)
    ensures Lost(before, after, beforeOrder, afterOrder, p) ==> Vanished(before, after, p)
  {
  }
}
