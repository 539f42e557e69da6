/**
 * The inotify watcher: two maps that must stay inverse to each other (watch
 * descriptor to path and back), and the pairing of moved-from with moved-to.
 *
 * Paths are in normal form, as sequences of components. What the kernel answers
 * and what a directory walk finds are parameters.
 */
module Watcher {
  import opened Basics

  type Path = seq<string>

  datatype WatchInfo = WatchInfo(rootId: string, path: Path)

  datatype PendingMove = PendingMove(rootId: string, oldPath: Path, isDirectory: bool, seenAt: int)

  datatype EventType =
    | Overflow | MovedFrom | MovedTo | Deleted | Modified | Created | AttributeChanged | Unknown | Renamed

  datatype FileEvent = FileEvent(
    rootId: string, path: Path, oldPath: Option<Path>, kind: EventType, isDirectory: bool, cookie: nat)

  datatype Mask = Mask(
    overflow: bool, movedFrom: bool, movedTo: bool, delete: bool, deleteSelf: bool, moveSelf: bool,
    write: bool, create: bool, attrib: bool, isDir: bool)

  /** One inotify record; `name` is absent for events on the watched directory itself. */
  datatype RawEvent = RawEvent(wd: int, mask: Mask, cookie: nat, name: Option<string>)

  const MAX_AGE: int := 500

  function ToEventType(m: Mask): EventType
  {
    if m.overflow then Overflow
    else if m.movedFrom then MovedFrom
    else if m.movedTo then MovedTo
    else if m.delete || m.deleteSelf then Deleted
    else if m.write then Modified
    else if m.create then Created
    else if m.attrib then AttributeChanged
    else Unknown
  }

  /** The kind of an event by its mask: the first of these that applies. */
  lemma EventTypes(m: Mask)
    ensures ToEventType(m) == Overflow <==> m.overflow
    ensures ToEventType(m) == MovedFrom <==> !m.overflow && m.movedFrom
    ensures ToEventType(m) == MovedTo <==> !m.overflow && !m.movedFrom && m.movedTo
    ensures !m.overflow && !m.movedFrom && !m.movedTo ==>
              && (ToEventType(m) == Deleted <==> m.delete || m.deleteSelf)
              && (ToEventType(m) == Modified <==> !m.delete && !m.deleteSelf && m.write)
              && (ToEventType(m) == Created <==> !m.delete && !m.deleteSelf && !m.write && m.create)
              && (ToEventType(m) == AttributeChanged <==>
                    !m.delete && !m.deleteSelf && !m.write && !m.create && m.attrib)
    ensures ToEventType(m) != Renamed
  {
  }

  predicate Under(parent: Path, child: Path) { parent <= child }

  method IsSameOrChildPath(parent: Path, child: Path) returns (r: bool)
    ensures r == Under(parent, child)
  {
    var i := 0;
    while i < |parent|
      invariant 0 <= i <= |parent| && i <= |child|
      invariant parent[..i] == child[..i]
    {
      if i == |child| || parent[i] != child[i] {
        return false;
      }
      i := i + 1;
    }
    return true;
  }

  /** The next element of an unordered container, in no particular order. */
  method Pick<T(==)>(s: set<T>) returns (x: T)
    requires s != {}
    ensures x in s
  {
    x :| x in s;
  }

  /** The directories a walk finds below a new root, each with the descriptor the kernel gives it. */
  datatype Found = Found(path: Path, wd: int)

  ghost predicate IsWatched(watches: map<int, WatchInfo>, path: Path)
  {
    exists wd :: wd in watches && watches[wd].path == path
  }

  lemma WatchedBy(watches: map<int, WatchInfo>, wd: int, path: Path)
    requires wd in watches && watches[wd].path == path
    ensures IsWatched(watches, path)
  {
  }

  /** One more watch, unless the path is watched or the kernel refused. */
  ghost function WithWatch(watches: map<int, WatchInfo>, rootId: string, f: Found): map<int, WatchInfo>
  {
    if IsWatched(watches, f.path) || f.wd < 0 then watches else watches[f.wd := WatchInfo(rootId, f.path)]
  }

  ghost function WithWatches(watches: map<int, WatchInfo>, rootId: string, found: seq<Found>): map<int, WatchInfo>
  {
    if found == [] then watches
    else WithWatch(WithWatches(watches, rootId, found[..|found| - 1]), rootId, found[|found| - 1])
  }

  /** The watches that are not at or below the path. */
  function Outside(watches: map<int, WatchInfo>, path: Path): map<int, WatchInfo>
  {
    map wd | wd in watches && !Under(path, watches[wd].path) :: watches[wd]
  }

  /** The path of an event: the named child of the watched directory, or the directory itself. */
  function FullPath(watch: WatchInfo, e: RawEvent): (r: Path)
    ensures e.name.None? || e.name.value == "" ==> r == watch.path
    ensures e.name.Some? && e.name.value != "" ==>
              |r| == |watch.path| + 1 && Under(watch.path, r) && r[|r| - 1] == e.name.value
  {
    if e.name.Some? && e.name.value != "" then watch.path + [e.name.value] else watch.path
  }

  /** The event is a move into a watched directory that completes a pending move of the same root. */
  predicate Pairs(watch: WatchInfo, pending: map<nat, PendingMove>, e: RawEvent)
  {
    e.mask.movedTo && !e.mask.movedFrom && e.cookie != 0 && e.cookie in pending
        && pending[e.cookie].rootId == watch.rootId
  }

  class InotifyWatcher {
    var watches: map<int, WatchInfo>
    var pathToWd: map<Path, int>
    var pendingMoves: map<nat, PendingMove>

    /** The two maps are exact inverses. */
    ghost predicate Valid()
      reads this
    {
      && (forall wd | wd in watches :: watches[wd].path in pathToWd && pathToWd[watches[wd].path] == wd)
      && (forall p | p in pathToWd :: pathToWd[p] in watches && watches[pathToWd[p]].path == p)
    }

    constructor ()
      ensures Valid() && watches == map[] && pathToWd == map[] && pendingMoves == map[]
    {
      watches, pathToWd, pendingMoves := map[], map[], map[];
    }

    method RemoveWatch(wd: int)
      requires Valid()
      modifies this
      ensures Valid() && watches == old(watches) - {wd} && pendingMoves == old(pendingMoves)
    {
      if wd in watches {
        pathToWd := pathToWd - {watches[wd].path};
        watches := watches - {wd};
      }
    }

    method WatchesUnder(path: Path) returns (toRemove: set<int>)
      ensures toRemove == set wd | wd in watches && Under(path, watches[wd].path)
    {
      toRemove := {};
      var rest := watches.Keys;
      while rest != {}
        invariant rest <= watches.Keys
        invariant toRemove == set wd | wd in watches && wd !in rest && Under(path, watches[wd].path)
        decreases |rest|
      {
        var wd := Pick(rest);
        var below := IsSameOrChildPath(path, watches[wd].path);
        if below {
          toRemove := toRemove + {wd};
        }
        rest := rest - {wd};
      }
    }

    /** Drops every watch at or below `path`, and no other. */
    method RemoveWatchesUnder(path: Path)
      requires Valid()
      modifies this
      ensures Valid() && pendingMoves == old(pendingMoves)
      ensures watches == Outside(old(watches), path)
    {
      var toRemove := WatchesUnder(path);
      var left := toRemove;
      while left != {}
        invariant left <= toRemove && Valid() && pendingMoves == old(pendingMoves)
        invariant watches == old(watches) - (toRemove - left)
        decreases |left|
      {
        var wd := Pick(left);
        RemoveWatch(wd);
        left := left - {wd};
      }
    }

    /** Watches `path` unless it is watched; the kernel may answer with a descriptor already in use for another path. */
    method AddWatch(rootId: string, path: Path, wd: int)
      requires Valid()
      modifies this
      ensures Valid() && pendingMoves == old(pendingMoves)
      ensures watches == WithWatch(old(watches), rootId, Found(path, wd))
    {
      if path in pathToWd || wd < 0 {
        if path in pathToWd { WatchedBy(watches, pathToWd[path], path); }
        return;
      }
      if wd in watches {
        pathToWd := pathToWd - {watches[wd].path};
      }
      watches := watches[wd := WatchInfo(rootId, path)];
      pathToWd := pathToWd[path := wd];
    }

    method AddWatchRecursive(rootId: string, path: Path, wd: int, found: seq<Found>)
      requires Valid()
      modifies this
      ensures Valid() && pendingMoves == old(pendingMoves)
      ensures watches == WithWatches(WithWatch(old(watches), rootId, Found(path, wd)), rootId, found)
    {
      AddWatch(rootId, path, wd);
      ghost var first := watches;
      var i := 0;
      while i < |found|
        invariant 0 <= i <= |found| && Valid() && pendingMoves == old(pendingMoves)
        invariant watches == WithWatches(first, rootId, found[..i])
      {
        assert found[..i + 1][..i] == found[..i];
        AddWatch(rootId, found[i].path, found[i].wd);
        i := i + 1;
      }
      assert found[..i] == found;
    }

    /**
     * One raw event. The maps stay inverse; the pending moves change exactly by
     * a moved-from with a cookie, which is kept and reported later, and by the
     * moved-to it is paired with, which reports both ends at once.
     */
    method HandleEvent(e: RawEvent, now: int, wd: int, found: seq<Found>) returns (r: Option<FileEvent>)
      requires Valid()
      modifies this
      ensures Valid()
      ensures pendingMoves == PendingAfter(old(watches), old(pendingMoves), e, now)
      ensures e.mask.overflow ==> r == Some(FileEvent("", [], None, Overflow, false, e.cookie))
      ensures r.Some? ==> r.value.cookie == e.cookie
      ensures !e.mask.overflow && e.wd !in old(watches) ==> r.None? && watches == old(watches)
      ensures r.Some? && r.value.kind == Renamed <==>
                !e.mask.overflow && e.wd in old(watches) && Pairs(old(watches)[e.wd], old(pendingMoves), e)
      ensures r.Some? && r.value.kind == Renamed ==>
                var move := old(pendingMoves)[e.cookie];
                r.value == FileEvent(move.rootId, FullPath(old(watches)[e.wd], e), Some(move.oldPath), Renamed,
                                     e.mask.isDir || move.isDirectory, e.cookie)
      ensures r.Some? && !e.mask.overflow ==>
                e.wd in old(watches) && r.value.rootId == old(watches)[e.wd].rootId
                    && r.value.path == FullPath(old(watches)[e.wd], e)
      ensures (!e.mask.overflow && e.wd in old(watches) && !e.mask.movedFrom && !e.mask.movedTo
               && (e.mask.moveSelf || e.mask.deleteSelf)) ==> r.None? && e.wd !in watches
      ensures !e.mask.overflow && e.wd in old(watches) && r.None? ==>
                (e.mask.movedFrom && e.cookie != 0) || e.mask.moveSelf || e.mask.deleteSelf
      ensures r.Some? && !e.mask.overflow && r.value.kind != Renamed ==>
                r.value.oldPath == None && r.value.isDirectory == e.mask.isDir
                && r.value.kind == (if e.mask.movedFrom then Deleted else if e.mask.movedTo then Created
                    else ToEventType(e.mask))
      ensures watches == WatchesAfter(old(watches), old(pendingMoves), e, [Found([], wd)] + found)
    {
      hide Outside, WithWatch, WithWatches;
      assert ([Found([], wd)] + found)[1..] == found;
      if e.mask.overflow {
        return Some(FileEvent("", [], None, Overflow, false, e.cookie));
      }
      if e.wd !in watches {
        return None;
      }
      var watch := watches[e.wd];
      var fullPath := FullPath(watch, e);
      var isDirectory := e.mask.isDir;
      if e.mask.movedFrom && e.cookie != 0 {
        pendingMoves := pendingMoves[e.cookie := PendingMove(watch.rootId, fullPath, isDirectory, now)];
        return None;
      }
      if e.mask.movedFrom && e.cookie == 0 {
        return Some(FileEvent(watch.rootId, fullPath, None, Deleted, isDirectory, 0));
      }
      if e.mask.movedTo && e.cookie != 0 {
        if e.cookie in pendingMoves && pendingMoves[e.cookie].rootId == watch.rootId {
          var move := pendingMoves[e.cookie];
          pendingMoves := pendingMoves - {e.cookie};
          if isDirectory || move.isDirectory {
            RemoveWatchesUnder(move.oldPath);
            AddWatchRecursive(watch.rootId, fullPath, wd, found);
          }
          return Some(FileEvent(watch.rootId, fullPath, Some(move.oldPath), Renamed, isDirectory || move.isDirectory,
              e.cookie));
        }
        if isDirectory {
          AddWatchRecursive(watch.rootId, fullPath, wd, found);
        }
        return Some(FileEvent(watch.rootId, fullPath, None, Created, isDirectory, e.cookie));
      }
      if e.mask.movedTo && e.cookie == 0 {
        if isDirectory {
          AddWatchRecursive(watch.rootId, fullPath, wd, found);
        }
        return Some(FileEvent(watch.rootId, fullPath, None, Created, isDirectory, 0));
      }
      if isDirectory && e.mask.create {
        AddWatchRecursive(watch.rootId, fullPath, wd, found);
      }
      if e.mask.moveSelf || e.mask.deleteSelf {
        RemoveWatch(e.wd);
        return None;
      }
      r := Some(FileEvent(watch.rootId, fullPath, None, ToEventType(e.mask), isDirectory, e.cookie));
    }

    /** Reports the move as a deletion, and forgets it and its watches, if it has waited too long. */
    method DrainOne(c: nat, now: int) returns (event: Option<FileEvent>)
      requires Valid() && c in pendingMoves
      modifies this
      ensures Valid()
      ensures event == if Expired(old(pendingMoves)[c], now) then Some(DeletionOf(c, old(pendingMoves)[c])) else None
      ensures pendingMoves == if event.Some? then old(pendingMoves) - {c} else old(pendingMoves)
      ensures watches == if event.Some? && event.value.isDirectory then Outside(old(watches), event.value.path)
                         else old(watches)
    {
      var move := pendingMoves[c];
      if now - move.seenAt < MAX_AGE {
        return None;
      }
      event := Some(DeletionOf(c, move));
      if move.isDirectory {
        RemoveWatchesUnder(move.oldPath);
      }
      pendingMoves := pendingMoves - {c};
    }

    /**
     * Reports every move that has waited too long as a deletion, once, forgets
     * it, and drops the watches at or below the directories among them.
     */
    method DrainExpiredMoves(now: int) returns (events: seq<FileEvent>)
      requires Valid()
      modifies this
      ensures Valid()
      ensures pendingMoves == Unexpired(old(pendingMoves), {}, now)
      ensures watches == NotAbandoned(old(watches), old(pendingMoves), {}, now)
      ensures Drained(old(pendingMoves), {}, now, events)
    {
      hide Unexpired, NotAbandoned, Drained;
      events := [];
      var rest := pendingMoves.Keys;
      ghost var pending, watched := pendingMoves, watches;
      DrainStart(watched, pending, now);
      while rest != {}
        invariant Valid() && rest <= pending.Keys
        invariant pendingMoves == Unexpired(pending, rest, now)
        invariant watches == NotAbandoned(watched, pending, rest, now)
        invariant Drained(pending, rest, now, events)
        decreases |rest|
      {
        var c := Pick(rest);
        DrainStep(watched, pending, rest, now, c);
        DrainReport(pending, rest, now, c, events);
        var event := DrainOne(c, now);
        if event.Some? {
          events := events + [event.value];
        }
        rest := rest - {c};
      }
    }

    method Stop()
      modifies this
      ensures Valid() && watches == map[] && pathToWd == map[] && pendingMoves == map[]
    {
      watches, pathToWd, pendingMoves := map[], map[], map[];
    }
  }

  /** The path lies at or below a directory whose move expired; moves in `later` are not yet looked at. */
  predicate Abandoned(pending: map<nat, PendingMove>, later: set<nat>, now: int, path: Path)
  {
    exists c :: c in pending && c !in later && Expired(pending[c], now) && pending[c].isDirectory
                && Under(pending[c].oldPath, path)
  }

  /** The moves still pending once all but those in `later` were looked at. */
  function Unexpired(pending: map<nat, PendingMove>, later: set<nat>, now: int): map<nat, PendingMove>
  {
    map c | c in pending && (c in later || !Expired(pending[c], now)) :: pending[c]
  }

  /** The watches still there once all moves but those in `later` were looked at. */
  ghost function NotAbandoned(watches: map<int, WatchInfo>, pending: map<nat, PendingMove>, later: set<nat>, now: int)
    : map<int, WatchInfo>
  {
    map wd | wd in watches && !Abandoned(pending, later, now, watches[wd].path) :: watches[wd]
  }

  /** Each expired move outside `later` is reported deleted exactly once, as it was, and nothing else is. */
  ghost predicate Drained(pending: map<nat, PendingMove>, later: set<nat>, now: int, events: seq<FileEvent>)
  {
    && (forall c :: Reports(events, c) == One(c in pending && c !in later && Expired(pending[c], now)))
    && (forall k | 0 <= k < |events| ::
          events[k].cookie in pending && events[k] == DeletionOf(events[k].cookie, pending[events[k].cookie]))
  }

  lemma DrainStart(watches: map<int, WatchInfo>, pending: map<nat, PendingMove>, now: int)
    ensures Unexpired(pending, pending.Keys, now) == pending
    ensures NotAbandoned(watches, pending, pending.Keys, now) == watches
    ensures Drained(pending, pending.Keys, now, [])
  {
    forall wd | wd in watches ensures !Abandoned(pending, pending.Keys, now, watches[wd].path) {
    }
    assert NotAbandoned(watches, pending, pending.Keys, now).Keys == watches.Keys;
  }

  lemma DrainStep(watches: map<int, WatchInfo>, pending: map<nat, PendingMove>, later: set<nat>, now: int, c: nat)
    requires c in later && c in pending
    ensures c in Unexpired(pending, later, now) && Unexpired(pending, later, now)[c] == pending[c]
    ensures Unexpired(pending, later - {c}, now)
         == Unexpired(pending, later, now) - (if Expired(pending[c], now) then {c} else {})
    ensures NotAbandoned(watches, pending, later - {c}, now) ==
            if Expired(pending[c], now) && pending[c].isDirectory
            then Outside(NotAbandoned(watches, pending, later, now), pending[c].oldPath)
            else NotAbandoned(watches, pending, later, now)
  {
    forall path: Path
      ensures Abandoned(pending, later - {c}, now, path) <==>
                Abandoned(pending, later, now, path)
                || (Expired(pending[c], now) && pending[c].isDirectory && Under(pending[c].oldPath, path))
    {
      if Abandoned(pending, later, now, path) {
        var d :| d in pending && d !in later && Expired(pending[d], now) && pending[d].isDirectory
                 && Under(pending[d].oldPath, path);
        assert d !in later - {c};
      }
    }
  }

  lemma DrainReport(pending: map<nat, PendingMove>, later: set<nat>, now: int, c: nat, events: seq<FileEvent>)
    requires c in later && c in pending && Drained(pending, later, now, events)
    ensures Drained(pending, later - {c}, now,
                    if Expired(pending[c], now) then events + [DeletionOf(c, pending[c])] else events)
  {
    var event := DeletionOf(c, pending[c]);
    assert (events + [event])[..|events|] == events;
  }

  predicate Expired(move: PendingMove, now: int) { now - move.seenAt >= MAX_AGE }

  function DeletionOf(cookie: nat, move: PendingMove): FileEvent
  {
    FileEvent(move.rootId, move.oldPath, None, Deleted, move.isDirectory, cookie)
  }

  /** How many of the events carry the cookie. */
  function Reports(events: seq<FileEvent>, c: nat): nat
  {
    if events == [] then 0
    else Reports(events[..|events| - 1], c) + (if events[|events| - 1].cookie == c then 1 else 0)
  }

  /** The pending moves once an event has been handled. */
  function PendingAfter(watches: map<int, WatchInfo>, pending: map<nat, PendingMove>, e: RawEvent,
      now: int): map<nat, PendingMove>
  {
    if e.mask.overflow || e.wd !in watches then pending
    else if e.mask.movedFrom && e.cookie != 0 then
      pending[e.cookie := PendingMove(watches[e.wd].rootId, FullPath(watches[e.wd], e), e.mask.isDir, now)]
    else if Pairs(watches[e.wd], pending, e) then pending - {e.cookie}
    else pending
  }

  /**
   * The watches once an event has been handled; `found` starts with the
   * descriptor of the event's own path. A directory that appears is watched
   * with all below it, one that moved is first forgotten at its old place, and
   * a directory that is gone is no longer watched.
   */
  ghost function WatchesAfter(watches: map<int, WatchInfo>, pending: map<nat, PendingMove>, e: RawEvent,
      found: seq<Found>)
    : map<int, WatchInfo>
    requires found != []
  {
    if e.mask.overflow || e.wd !in watches || e.mask.movedFrom then watches
    else
      var watch := watches[e.wd];
      var own := Found(FullPath(watch, e), found[0].wd);
      var renamed := Pairs(watch, pending, e);
      var directory := e.mask.isDir || (renamed && pending[e.cookie].isDirectory);
      var kept := if renamed && directory then Outside(watches, pending[e.cookie].oldPath) else watches;
      var added := if directory && (e.mask.movedTo || e.mask.create)
                   then WithWatches(WithWatch(kept, watch.rootId, own), watch.rootId, found[1..]) else kept;
      if !e.mask.movedTo && (e.mask.moveSelf || e.mask.deleteSelf) then added - {e.wd} else added
  }

  // ---------------------------------------------------------------- whole runs of the pairing

  /** What happens to the pending moves over time, with the watch table each event met. */
  datatype Action =
    | Raw(watches: map<int, WatchInfo>, event: RawEvent, now: int)
    | Drain(now: int)

  function Apply(pending: map<nat, PendingMove>, a: Action): map<nat, PendingMove>
  {
    match a
    case Raw(watches, e, now) => PendingAfter(watches, pending, e, now)
    case Drain(now) => Unexpired(pending, {}, now)
  }

  predicate IsFrom(a: Action, c: nat)
  {
    a.Raw? && !a.event.mask.overflow && a.event.wd in a.watches && a.event.mask.movedFrom && a.event.cookie == c
  }

  /** The action makes the watcher report the pending move with cookie `c`, as renamed or as deleted. */
  predicate ReportsMove(pending: map<nat, PendingMove>, a: Action, c: nat)
  {
    match a
    case Raw(watches, e, _) => !e.mask.overflow && e.wd in watches && e.cookie == c && Pairs(watches[e.wd], pending, e)
    case Drain(now) => c in pending && Expired(pending[c], now)
  }

  function Final(pending: map<nat, PendingMove>, actions: seq<Action>): map<nat, PendingMove>
    decreases |actions|
  {
    if actions == [] then pending else Final(Apply(pending, actions[0]), actions[1..])
  }

  /** Moved-from events with the cookie. */
  function Froms(actions: seq<Action>, c: nat): nat
  {
    if actions == [] then 0 else One(IsFrom(actions[0], c)) + Froms(actions[1..], c)
  }

  /** Renamed and Deleted events reported for moves with the cookie. */
  function Reported(pending: map<nat, PendingMove>, actions: seq<Action>, c: nat): nat
    decreases |actions|
  {
    if actions == [] then 0
    else One(ReportsMove(pending, actions[0], c)) + Reported(Apply(pending, actions[0]), actions[1..], c)
  }

  /** Moved-from events that arrive while another with the same cookie is still pending, and replace it. */
  function Replaced(pending: map<nat, PendingMove>, actions: seq<Action>, c: nat): nat
    decreases |actions|
  {
    if actions == [] then 0
    else One(IsFrom(actions[0], c) && c in pending) + Replaced(Apply(pending, actions[0]), actions[1..], c)
  }

  /**
   * Conservation of moves. Over every run, each moved-from with a non-zero
   * cookie is reported once, or is still pending, or was replaced by a later
   * one with the same cookie. With fresh cookies nothing is ever replaced.
   */
  lemma {:induction false} MovesAreConserved(pending: map<nat, PendingMove>, actions: seq<Action>, c: nat)
    requires c != 0
    ensures One(c in pending) + Froms(actions, c)
         == Reported(pending, actions, c) + One(c in Final(pending, actions)) + Replaced(pending, actions, c)
    ensures Froms(actions, c) == 0 || (c !in pending && Froms(actions, c) == 1) ==> Replaced(pending, actions, c) == 0
    decreases |actions|
  {
    if actions != [] {
      MovesAreConserved(Apply(pending, actions[0]), actions[1..], c);
    }
  }

  /** A single moved-from yields exactly one Renamed or Deleted, or is still pending. */
  lemma FreshMoveReportedOnce(actions: seq<Action>, c: nat)
    requires c != 0 && Froms(actions, c) == 1
    ensures Reported(map[], actions, c) + One(c in Final(map[], actions)) == 1
  {
    MovesAreConserved(map[], actions, c);
  }
}
