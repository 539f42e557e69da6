/**
 * The transfer stage of a batch: files are grouped by size class, groups run
 * one after another from the widest to the narrowest, and each group runs in
 * windows that are awaited before the next one starts.
 */
module Schedule {
  import opened Basics
  import opened Partition
  import opened PartClaiming

  const MIB: nat := 1048576

  function FileConcurrency(size: nat): nat
  {
    if size <= 4 * MIB then 32
    else if size <= 64 * MIB then 8
    else if size <= 512 * MIB then 4
    else 2
  }

  /** The size classes, in bytes. */
  lemma SizeClasses(size: nat)
    ensures FileConcurrency(size) == 32 <==> size <= 4194304
    ensures FileConcurrency(size) == 8 <==> 4194304 < size <= 67108864
    ensures FileConcurrency(size) == 4 <==> 67108864 < size <= 536870912
    ensures FileConcurrency(size) == 2 <==> 536870912 < size
  {
  }

  /** The keys a descending map of concurrency groups can have, in its order. */
  function Class(rank: nat): nat { if rank == 0 then 32 else if rank == 1 then 8 else if rank == 2 then 4 else 2 }

  /** Members of a class below `n`, in index order. */
  function Members(sizes: seq<nat>, n: nat, c: nat): (r: seq<nat>)
    requires n <= |sizes|
    ensures forall k | 0 <= k < |r| :: r[k] < n && FileConcurrency(sizes[r[k]]) == c
  {
    if n == 0 then []
    else if FileConcurrency(sizes[n - 1]) == c then Members(sizes, n - 1, c) + [n - 1]
    else Members(sizes, n - 1, c)
  }

  /** The order in which a batch's files are transferred. */
  function Order(sizes: seq<nat>, classes: nat): seq<nat>
    requires classes <= 4
  {
    if classes == 0 then [] else Order(sizes, classes - 1) + Members(sizes, |sizes|, Class(classes - 1))
  }

  /** One window: the indices in flight together, all of one class. */
  datatype Window = Window(fileConcurrency: nat, indices: seq<nat>)

  function IndicesOf(windows: seq<Window>): seq<nat>
  {
    if windows == [] then [] else IndicesOf(windows[..|windows| - 1]) + windows[|windows| - 1].indices
  }

  function PartWorkers(sizes: seq<nat>, indices: seq<nat>, serverCap: int): nat
    requires forall k | 0 <= k < |indices| :: indices[k] < |sizes|
  {
    if indices == [] then 0
    else ResolvePartConcurrency(CreatePlan(sizes[indices[0]]).uploadPartCount, serverCap)
         + PartWorkers(sizes, indices[1..], serverCap)
  }

  predicate WellFormed(sizes: seq<nat>, window: Window)
  {
    && 1 <= |window.indices| <= window.fileConcurrency
    && forall k | 0 <= k < |window.indices| ::
         window.indices[k] < |sizes| && FileConcurrency(sizes[window.indices[k]]) == window.fileConcurrency
  }

  /** Groups follow each other from wide to narrow, and every window but a group's last is full. */
  predicate Packed(windows: seq<Window>)
  {
    forall k | 0 <= k < |windows| - 1 ::
      || windows[k].fileConcurrency > windows[k + 1].fileConcurrency
      || (windows[k].fileConcurrency == windows[k + 1].fileConcurrency == |windows[k].indices|)
  }

  lemma OneMoreWindow(windows: seq<Window>, next: Window)
    requires Packed(windows)
    requires windows != [] ==>
               var last := windows[|windows| - 1];
               last.fileConcurrency > next.fileConcurrency
               || last.fileConcurrency == next.fileConcurrency == |last.indices|
    ensures Packed(windows + [next])
    ensures IndicesOf(windows + [next]) == IndicesOf(windows) + next.indices
  {
    assert (windows + [next])[..|windows|] == windows;
  }

  function GroupOf(groups: map<nat, seq<nat>>, c: nat): seq<nat> { if c in groups then groups[c] else [] }

  lemma KnownClass(size: nat)
    ensures exists rank: nat :: rank < 4 && FileConcurrency(size) == Class(rank)
  {
    assert Class(0) == 32 && Class(1) == 8 && Class(2) == 4 && Class(3) == 2;
  }

  /** Collects the indices of every class, as the source's map of groups does. */
  method GroupByConcurrency(sizes: seq<nat>) returns (groups: map<nat, seq<nat>>)
    ensures forall c :: GroupOf(groups, c) == Members(sizes, |sizes|, c)
    ensures forall c | c in groups :: exists rank: nat :: rank < 4 && c == Class(rank)
  {
    hide FileConcurrency;
    groups := map[];
    var index := 0;
    while index < |sizes|
      invariant 0 <= index <= |sizes|
      invariant forall c :: GroupOf(groups, c) == Members(sizes, index, c)
      invariant forall c | c in groups :: exists rank: nat :: rank < 4 && c == Class(rank)
    {
      var c := FileConcurrency(sizes[index]);
      KnownClass(sizes[index]);
      groups := groups[c := GroupOf(groups, c) + [index]];
      index := index + 1;
    }
  }

  /** Cuts one group into windows of at most its concurrency and appends them. */
  method GroupWindows(sizes: seq<nat>, c: nat, indices: seq<nat>, before: seq<Window>) returns (windows: seq<Window>)
    requires c >= 1
    requires forall k | 0 <= k < |indices| :: indices[k] < |sizes| && FileConcurrency(sizes[indices[k]]) == c
    requires forall k | 0 <= k < |before| :: WellFormed(sizes, before[k])
    requires Packed(before) && (before != [] ==> before[|before| - 1].fileConcurrency > c)
    ensures IndicesOf(windows) == IndicesOf(before) + indices
    ensures forall k | 0 <= k < |windows| :: WellFormed(sizes, windows[k])
    ensures Packed(windows) && (windows != [] ==> windows[|windows| - 1].fileConcurrency >= c)
  {
    hide FileConcurrency, Packed, IndicesOf;
    windows := before;
    var offset := 0;
    while offset < |indices|
      invariant 0 <= offset <= |indices|
      invariant IndicesOf(windows) == IndicesOf(before) + indices[..offset]
      invariant forall k | 0 <= k < |windows| :: WellFormed(sizes, windows[k])
      invariant Packed(windows)
      invariant windows != [] ==>
                  var last := windows[|windows| - 1];
                  last.fileConcurrency > c
                  || (last.fileConcurrency == c && (offset < |indices| ==> |last.indices| == c))
    {
      var end := Min(|indices|, offset + c);
      var window := Window(c, indices[offset..end]);
      assert indices[..offset] + indices[offset..end] == indices[..end];
      OneMoreWindow(windows, window);
      windows := windows + [window];
      offset := end;
    }
    assert indices[..offset] == indices;
  }

  /**
   * The windows in the order they run. Together they transfer the files in
   * `Order`; every window is within its class's file concurrency, the groups
   * run from wide to narrow, and only a group's last window may be short.
   */
  method PlanWindows(sizes: seq<nat>) returns (windows: seq<Window>)
    ensures IndicesOf(windows) == Order(sizes, 4)
    ensures forall k | 0 <= k < |windows| :: WellFormed(sizes, windows[k])
    ensures Packed(windows)
  {
    hide FileConcurrency, Members, IndicesOf, Packed, Order;
    NoWindows(sizes);
    var groups := GroupByConcurrency(sizes);
    windows := [];
    var i := 0;
    while i < 4
      invariant 0 <= i <= 4
      invariant IndicesOf(windows) == Order(sizes, i)
      invariant forall k | 0 <= k < |windows| :: WellFormed(sizes, windows[k])
      invariant Packed(windows)
      invariant i < 4 && windows != [] ==> windows[|windows| - 1].fileConcurrency > Class(i)
    {
      var c := Class(i);
      ghost var members := Members(sizes, |sizes|, c);
      assert GroupOf(groups, c) == members;
      if c in groups {
        windows := GroupWindows(sizes, c, groups[c], windows);
      }
      OrderNext(sizes, i);
      i := i + 1;
    }
  }

  lemma NoWindows(sizes: seq<nat>)
    ensures Packed([]) && IndicesOf([]) == Order(sizes, 0) == []
  {
  }

  lemma OrderNext(sizes: seq<nat>, i: nat)
    requires i < 4
    ensures Order(sizes, i + 1) == Order(sizes, i) + Members(sizes, |sizes|, Class(i))
  {
  }

  // ---------------------------------------------------------------- each file once

  lemma MembersStep(sizes: seq<nat>, n: nat, c: nat, i: nat)
    requires n <= |sizes|
    ensures Count(Members(sizes, n, c), i) ==
            if n == 0 then 0
            else Count(Members(sizes, n - 1, c), i) + One(FileConcurrency(sizes[n - 1]) == c && n - 1 == i)
  {
    hide FileConcurrency;
    if n > 0 && FileConcurrency(sizes[n - 1]) == c {
      CountSnoc(Members(sizes, n - 1, c), n - 1, i);
    }
  }

  lemma {:induction false} MembersOnce(sizes: seq<nat>, n: nat, c: nat, i: nat)
    requires n <= |sizes|
    ensures Count(Members(sizes, n, c), i) == (if i < n && FileConcurrency(sizes[i]) == c then 1 else 0)
    decreases n
  {
    hide Members, FileConcurrency, Count;
    MembersStep(sizes, n, c, i);
    if n > 0 {
      MembersOnce(sizes, n - 1, c, i);
    }
  }

  lemma OrderCount(sizes: seq<nat>, classes: nat, i: nat)
    requires 1 <= classes <= 4
    ensures Count(Order(sizes, classes), i) == Count(Order(sizes, classes - 1), i)
         + (if i < |sizes| && FileConcurrency(sizes[i]) == Class(classes - 1) then 1 else 0)
  {
    hide FileConcurrency, Class, Members, Count;
    MembersOnce(sizes, |sizes|, Class(classes - 1), i);
    CountConcat(Order(sizes, classes - 1), Members(sizes, |sizes|, Class(classes - 1)), i);
  }

  /** Every index of the batch occurs in the order exactly once, and nothing else does. */
  lemma EachFileOnce(sizes: seq<nat>, i: nat)
    ensures Count(Order(sizes, 4), i) == (if i < |sizes| then 1 else 0)
  {
    OrderCount(sizes, 1, i);
    OrderCount(sizes, 2, i);
    OrderCount(sizes, 3, i);
    OrderCount(sizes, 4, i);
    assert Count(Order(sizes, 0), i) == 0;
    hide Order, Count;
  }

  // ---------------------------------------------------------------- the bound of 48

  /** Part workers of one file times the file concurrency of its class stay within 48. */
  lemma ClassBound(size: nat, serverCap: int)
    requires size <= INT64_MAX
    ensures ResolvePartConcurrency(CreatePlan(size).uploadPartCount, serverCap) * FileConcurrency(size) <= 48
  {
    if size <= 4 * MIB {
      SinglePart(size);
    }
  }

  lemma SinglePart(size: nat)
    requires size <= 4194304
    ensures CreatePlan(size).uploadPartCount == 1
  {
    if size > 0 { PlanIsExact(size); }
  }

  lemma {:induction false} WorkersBound(sizes: seq<nat>, indices: seq<nat>, c: nat, serverCap: int)
    requires forall k | 0 <= k < |indices| ::
               indices[k] < |sizes| && sizes[indices[k]] <= INT64_MAX && FileConcurrency(sizes[indices[k]]) == c
    ensures PartWorkers(sizes, indices, serverCap) * c <= |indices| * 48
    decreases |indices|
  {
    if indices != [] {
      hide CreatePlan, ResolvePartConcurrency, FileConcurrency;
      ClassBound(sizes[indices[0]], serverCap);
      WorkersBound(sizes, indices[1..], c, serverCap);
      SumBound(ResolvePartConcurrency(CreatePlan(sizes[indices[0]]).uploadPartCount, serverCap),
               PartWorkers(sizes, indices[1..], serverCap), c, |indices| - 1);
    }
  }

  lemma SumBound(a: nat, b: nat, c: nat, n: nat)
    requires a * c <= 48 && b * c <= n * 48
    ensures (a + b) * c <= (n + 1) * 48
  {
    assert (a + b) * c == a * c + b * c;
  }

  lemma Cancel(p: nat, n: nat, c: nat)
    requires 1 <= n <= c && p * c <= n * 48
    ensures p <= 48
  {
    MulMono(n, c, 48);
    if p > 48 { MulMono(49, p, c); }
  }

  lemma MulMono(a: nat, b: nat, c: nat)
    requires a <= b
    ensures a * c <= b * c
  {
  }

  /** For any mix of sizes and any server cap, a window runs at most 48 part uploads at once. */
  lemma WindowBound(sizes: seq<nat>, window: Window, serverCap: int)
    requires WellFormed(sizes, window)
    requires forall k | 0 <= k < |sizes| :: sizes[k] <= INT64_MAX
    ensures PartWorkers(sizes, window.indices, serverCap) <= 48
  {
    WorkersBound(sizes, window.indices, window.fileConcurrency, serverCap);
    Cancel(PartWorkers(sizes, window.indices, serverCap), |window.indices|, window.fileConcurrency);
  }
}
