/**
 * Batch upload: start, transfer and complete stages, correlated by client id.
 *
 * The server is an arbitrary function from pages of requests to answers: it may
 * reorder, omit, duplicate or invent them, and may fail a whole page. The batch
 * is proved equal to a specification that treats every item on its own.
 */
module Batch {
  import opened Basics
  import opened Partition
  import opened Schedule

  datatype Item = Item(id: string, isDirectory: bool, size: Option<int>, folderId: Option<string>)

  datatype Started = Started(fileId: string, vaultId: string, uploadSessionId: string, providerUploadId: string)

  datatype Response = Response(fileId: string, vaultId: string, uploadSessionId: string, providerUploadId: string)

  datatype BatchResult = BatchResult(id: string, response: Option<Response>, error: string)

  datatype StartRequest = StartRequest(clientId: string, plan: UploadPlan, folderId: Option<string>, singlePart: bool)

  datatype StartAnswer = StartAnswer(upload: Option<Started>, error: string)

  datatype CompleteRequest = CompleteRequest(clientId: string, uploadSessionId: string, body: string)

  datatype CompleteAnswer = CompleteAnswer(completed: bool, error: string)

  datatype Answer<A> = Answer(clientId: string, body: A)

  /**
   * What surrounds the batch. `lookup` is the resume check of one item: it
   * throws, or finds a session and runs it to a response, or finds none.
   * `transfer` uploads one started item and yields its completion request.
   * `limits`, `persist` (file key and session row) and `forget` (deletion of the
   * session row) may throw, which ends the whole batch.
   */
  datatype World = World(
    limits: Result<()>,
    persist: (Item, Started) -> Result<()>,
    forget: Started -> Result<()>,
    lookup: Item -> Result<Option<Response>>,
    start: (nat, seq<StartRequest>) -> Result<seq<Answer<StartAnswer>>>,
    transfer: (Item, Started) -> Result<string>,
    complete: (nat, seq<CompleteRequest>) -> Result<seq<Answer<CompleteAnswer>>>)

  const PAGE: nat := 100

  // ---------------------------------------------------------------- correlation

  function Append<A>(got: seq<Answer<A>>, rest: Result<seq<Answer<A>>>): Result<seq<Answer<A>>>
  {
    if rest.Err? then rest else Ok(got + rest.value)
  }

  /** All answers to all requests, asked in pages of a hundred. */
  function AskPages<Q, A>(ask: (nat, seq<Q>) -> Result<seq<Answer<A>>>, requests: seq<Q>,
      page: nat): Result<seq<Answer<A>>>
    decreases |requests|
  {
    if requests == [] then Ok([])
    else
      var n := Min(|requests|, PAGE);
      var head := ask(page, requests[..n]);
      if head.Err? then head else Append(head.value, AskPages(ask, requests[n..], page + 1))
  }

  /** The first answer carrying the client id. */
  function First<A>(answers: seq<Answer<A>>, id: string): Option<A>
  {
    if answers == [] then None
    else
      var before := First(answers[..|answers| - 1], id);
      if before.Some? then before
      else if answers[|answers| - 1].clientId == id then Some(answers[|answers| - 1].body)
      else None
  }

  /** The paging loop: ask, and keep the first answer per client id. */
  method Correlate<Q, A>(ask: (nat, seq<Q>) -> Result<seq<Answer<A>>>, requests: seq<Q>)
    returns (r: Result<map<string, A>>)
    ensures AskPages(ask, requests, 0).Err? ==> r == Err(AskPages(ask, requests, 0).message)
    ensures AskPages(ask, requests, 0).Ok? ==>
              r.Ok? && forall id :: Find(r.value, id) == First(AskPages(ask, requests, 0).value, id)
  {
    var index: map<string, A> := map[];
    ghost var got: seq<Answer<A>> := [];
    var offset, page := 0, 0;
    AppendNothing(AskPages(ask, requests, 0));
    assert requests[0..] == requests;
    while offset < |requests|
      invariant 0 <= offset <= |requests|
      invariant AskPages(ask, requests, 0) == Append(got, AskPages(ask, requests[offset..], page))
      invariant forall id :: Find(index, id) == First(got, id)
    {
      var end := Min(|requests|, offset + PAGE);
      var answers := ask(page, requests[offset..end]);
      assert requests[offset..][..end - offset] == requests[offset..end];
      assert requests[offset..][end - offset..] == requests[end..];
      if answers.Err? {
        return Err(answers.message);
      }
      var i := 0;
      ghost var before := got;
      while i < |answers.value|
        invariant 0 <= i <= |answers.value|
        invariant got == before + answers.value[..i]
        invariant forall id :: Find(index, id) == First(got, id)
      {
        var answer := answers.value[i];
        assert (got + [answer])[..|got|] == got;
        got := got + [answer];
        if answer.clientId !in index {
          index := index[answer.clientId := answer.body];
        }
        i := i + 1;
      }
      assert answers.value[..i] == answers.value;
      AppendTwice(before, answers.value, AskPages(ask, requests[end..], page + 1));
      offset, page := end, page + 1;
    }
    assert got + [] == got;
    r := Ok(index);
  }

  lemma AppendNothing<A>(rest: Result<seq<Answer<A>>>)
    ensures Append([], rest) == rest
  {
    if rest.Ok? { assert [] + rest.value == rest.value; }
  }

  lemma AppendTwice<A>(a: seq<Answer<A>>, b: seq<Answer<A>>, rest: Result<seq<Answer<A>>>)
    ensures Append(a, Append(b, rest)) == Append(a + b, rest)
  {
    if rest.Ok? {
      assert a + (b + rest.value) == (a + b) + rest.value;
    }
  }

  lemma {:induction false} FirstIsMember<A>(answers: seq<Answer<A>>, id: string)
    ensures First(answers, id).Some? ==> Answer(id, First(answers, id).value) in answers
    ensures First(answers, id).None? ==> forall a | a in answers :: a.clientId != id
  {
    if answers != [] {
      var n := |answers| - 1;
      FirstIsMember(answers[..n], id);
      assert answers == answers[..n] + [answers[n]];
    }
  }

  // ---------------------------------------------------------------- one item on its own

  /** The checks and the resume attempt made before an item joins the batch proper. */
  function Check(world: World, item: Item): Result<Option<Response>>
  {
    if item.isDirectory || item.size.None? || item.size.value < 0
    then Err("batch upload requires a regular file with a valid size")
    else world.lookup(item)
  }

  predicate IsFresh(world: World, item: Item)
  {
    Check(world, item) == Ok(None)
  }

  function SizeOf(item: Item): nat { if item.size.Some? && item.size.value >= 0 then item.size.value else 0 }

  /** An item is refused before anything is asked exactly if it is a directory or has no valid size. */
  lemma RefusedItems(world: World, item: Item)
    ensures item.isDirectory || item.size.None? || item.size.value < 0 ==>
              Check(world, item) == Err("batch upload requires a regular file with a valid size")
    ensures !item.isDirectory && item.size.Some? && item.size.value >= 0 ==>
              Check(world, item) == world.lookup(item) && SizeOf(item) == item.size.value
    ensures IsFresh(world, item) ==>
              !item.isDirectory && item.size.Some? && item.size.value >= 0 && world.lookup(item) == Ok(None)
  {
  }

  /** A start request carries the item's id, folder and plan, and asks for one part exactly up to four mebibytes. */
  lemma StartsAsPlanned(world: World, item: Item)
    requires IsFresh(world, item) && item.size.value <= MAX_SIZE
    ensures var request := StartRequestOf(item);
            && request.clientId == item.id && request.folderId == item.folderId
            && request.plan == CreatePlan(item.size.value)
            && (request.singlePart <==> item.size.value <= 4194304)
  {
    if item.size.value > 0 { PlanIsExact(item.size.value); }
  }

  const NOT_STARTED: Started := Started("", "", "", "")

  function StartedAs(answer: Option<StartAnswer>): Started
  {
    if answer.Some? && answer.value.upload.Some? then answer.value.upload.value else NOT_STARTED
  }

  function StartError(answer: Option<StartAnswer>): string
  {
    if answer.None? then "Batch start returned no result"
    else if answer.value.error == "" then "Batch start validation failed"
    else answer.value.error
  }

  function ResponseOf(s: Started): Response { Response(s.fileId, s.vaultId, s.uploadSessionId, s.providerUploadId) }

  function Prepared(world: World, item: Item): BatchResult
  {
    match Check(world, item)
    case Err(message) => BatchResult(item.id, None, message)
    case Ok(response) => BatchResult(item.id, response, "")
  }

  function AfterStart(world: World, starts: seq<Answer<StartAnswer>>, item: Item): BatchResult
  {
    var answer := First(starts, item.id);
    if IsFresh(world, item) && (answer.None? || answer.value.upload.None?)
    then BatchResult(item.id, None, StartError(answer))
    else Prepared(world, item)
  }

  /** The item was started with a usable session. */
  predicate IsOpen(world: World, starts: seq<Answer<StartAnswer>>, item: Item)
  {
    IsFresh(world, item) && StartedAs(First(starts, item.id)).uploadSessionId != ""
  }

  function AfterTransfer(world: World, starts: seq<Answer<StartAnswer>>, item: Item): BatchResult
  {
    var sent := world.transfer(item, StartedAs(First(starts, item.id)));
    if IsOpen(world, starts, item) && sent.Err? then BatchResult(item.id, None, sent.message)
    else AfterStart(world, starts, item)
  }

  /** The result of one item, from its own answers alone. */
  function Outcome(world: World, starts: seq<Answer<StartAnswer>>, completes: seq<Answer<CompleteAnswer>>,
      item: Item): BatchResult
  {
    var started := StartedAs(First(starts, item.id));
    if !IsOpen(world, starts, item) || world.transfer(item, started).Err? then AfterTransfer(world, starts, item)
    else
      match First(completes, item.id)
      case None => BatchResult(item.id, None, "Batch complete returned no result")
      case Some(answer) =>
        if answer.completed then BatchResult(item.id, Some(ResponseOf(started)), "")
        else BatchResult(item.id, None, answer.error)
  }

  // ---------------------------------------------------------------- specification of the batch

  function FreshItems(world: World, items: seq<Item>): (r: seq<Item>)
    ensures forall x | x in r :: x in items && IsFresh(world, x)
    ensures forall x | x in items && IsFresh(world, x) :: x in r
  {
    if items == [] then []
    else
      var n := |items| - 1;
      assert items == items[..n] + [items[n]];
      FreshItems(world, items[..n]) + if IsFresh(world, items[n]) then [items[n]] else []
  }

  function StartRequestOf(item: Item): StartRequest
  {
    var plan := CreatePlan(SizeOf(item));
    StartRequest(item.id, plan, item.folderId, plan.totalChunks == 1)
  }

  function StartRequests(batch: seq<Item>): seq<StartRequest>
  {
    seq(|batch|, j requires 0 <= j < |batch| => StartRequestOf(batch[j]))
  }

  function Sizes(batch: seq<Item>): seq<nat>
  {
    seq(|batch|, j requires 0 <= j < |batch| => SizeOf(batch[j]))
  }

  /** Files that were transferred, in the order of the schedule. */
  function Transferred(world: World, batch: seq<Item>, starts: seq<Answer<StartAnswer>>, order: seq<nat>): (r: seq<nat>)
    requires forall k | 0 <= k < |order| :: order[k] < |batch|
    ensures forall k | 0 <= k < |r| :: r[k] < |batch| && StartedAs(First(starts, batch[r[k]].id)).uploadSessionId != ""
  {
    if order == [] then []
    else
      var n := |order| - 1;
      Transferred(world, batch, starts, order[..n])
      + if StartedAs(First(starts, batch[order[n]].id)).uploadSessionId != "" then [order[n]] else []
  }

  function CompleteRequests(world: World, batch: seq<Item>, starts: seq<Answer<StartAnswer>>,
      sent: seq<nat>): seq<CompleteRequest>
    requires forall k | 0 <= k < |sent| :: sent[k] < |batch|
  {
    if sent == [] then []
    else
      var n := |sent| - 1;
      var item := batch[sent[n]];
      var started := StartedAs(First(starts, item.id));
      var body := world.transfer(item, started);
      CompleteRequests(world, batch, starts, sent[..n])
      + if body.Ok? then [CompleteRequest(item.id, started.uploadSessionId, body.value)] else []
  }

  /** Completion requests sent for a batch whose start answers were `starts`. */
  function CompletionsFor(world: World, batch: seq<Item>, starts: seq<Answer<StartAnswer>>): seq<CompleteRequest>
  {
    CompleteRequests(world, batch, starts, SentIn(world, batch, starts))
  }

  lemma OrderInRange(sizes: seq<nat>)
    ensures forall k | 0 <= k < |Order(sizes, 4)| :: Order(sizes, 4)[k] < |sizes|
  {
    hide Members, FileConcurrency;
    assert Order(sizes, 3) == Order(sizes, 2) + Members(sizes, |sizes|, Class(2));
    assert Order(sizes, 1) == Order(sizes, 0) + Members(sizes, |sizes|, Class(0));
  }

  /** Saving the key and session of an item, when the server started it. */
  function Persisted(world: World, starts: seq<Answer<StartAnswer>>, item: Item): Result<()>
  {
    var answer := First(starts, item.id);
    if answer.Some? && answer.value.upload.Some? then world.persist(item, answer.value.upload.value) else Ok(())
  }

  function PersistAll(world: World, batch: seq<Item>, starts: seq<Answer<StartAnswer>>): seq<Result<()>>
  {
    seq(|batch|, j requires 0 <= j < |batch| => Persisted(world, starts, batch[j]))
  }

  /** Dropping the session row of an item, when the server completed it. */
  function Forgotten(world: World, starts: seq<Answer<StartAnswer>>, completes: seq<Answer<CompleteAnswer>>, item: Item)
    : Result<()>
  {
    var started, answer := StartedAs(First(starts, item.id)), First(completes, item.id);
    if world.transfer(item, started).Ok? && answer.Some? && answer.value.completed
    then world.forget(started)
    else Ok(())
  }

  function ForgetAll(world: World, batch: seq<Item>, starts: seq<Answer<StartAnswer>>,
      completes: seq<Answer<CompleteAnswer>>, sent: seq<nat>): seq<Result<()>>
    requires forall k | 0 <= k < |sent| :: sent[k] < |batch|
  {
    seq(|sent|, p requires 0 <= p < |sent| => Forgotten(world, starts, completes, batch[sent[p]]))
  }

  /** The transferred files of a batch, in order. */
  function SentIn(world: World, batch: seq<Item>, starts: seq<Answer<StartAnswer>>): (r: seq<nat>)
    ensures forall k | 0 <= k < |r| :: r[k] < |batch|
  {
    OrderInRange(Sizes(batch));
    Transferred(world, batch, starts, Order(Sizes(batch), 4))
  }

  /** Every item's own outcome, in order. */
  function Outcomes(world: World, starts: seq<Answer<StartAnswer>>, completes: seq<Answer<CompleteAnswer>>,
      items: seq<Item>): seq<BatchResult>
  {
    seq(|items|, i requires 0 <= i < |items| => Outcome(world, starts, completes, items[i]))
  }

  /** What the batch returns: one outcome per item, in order, unless something ends it as a whole. */
  function BatchSpec(world: World, items: seq<Item>): Result<seq<BatchResult>>
  {
    if world.limits.Err? then Err(world.limits.message)
    else
      var batch := FreshItems(world, items);
      var starts := AskPages(world.start, StartRequests(batch), 0);
      if starts.Err? then Err(starts.message)
      else
        var unsaved := FirstError(PersistAll(world, batch, starts.value));
        if unsaved.Some? then Err(unsaved.value)
        else
          var completes := AskPages(world.complete, CompletionsFor(world, batch, starts.value), 0);
          if completes.Err? then Err(completes.message)
          else
            var sent := SentIn(world, batch, starts.value);
            var kept := FirstError(ForgetAll(world, batch, starts.value, completes.value, sent));
            if kept.Some? then Err(kept.value)
            else Ok(Outcomes(world, starts.value, completes.value, items))
  }

  /** Every exception that can end a batch carries a message. */
  ghost predicate Speaks(world: World)
  {
    && (world.limits.Err? ==> world.limits.message != "")
    && (forall item, started :: world.persist(item, started).Err? ==> world.persist(item, started).message != "")
    && (forall started :: world.forget(started).Err? ==> world.forget(started).message != "")
    && (forall page, requests :: world.start(page, requests).Err? ==> world.start(page, requests).message != "")
    && (forall page, requests :: world.complete(page, requests).Err? ==> world.complete(page, requests).message != "")
  }

  lemma {:induction false} PageErrorSpeaks<Q, A>(ask: (nat, seq<Q>) -> Result<seq<Answer<A>>>, requests: seq<Q>,
      page: nat)
    requires forall p, qs :: ask(p, qs).Err? ==> ask(p, qs).message != ""
    ensures AskPages(ask, requests, page).Err? ==> AskPages(ask, requests, page).message != ""
    decreases |requests|
  {
    if requests != [] {
      PageErrorSpeaks(ask, requests[Min(|requests|, PAGE)..], page + 1);
    }
  }

  /** A batch that ends as a whole says why. */
  lemma BatchErrorSpeaks(world: World, items: seq<Item>)
    requires Speaks(world)
    ensures BatchSpec(world, items).Err? ==> BatchSpec(world, items).message != ""
  {
    hide AskPages, First, FirstError, CompletionsFor, SentIn, FreshItems, Outcome;
    var batch := FreshItems(world, items);
    PageErrorSpeaks(world.start, StartRequests(batch), 0);
    var starts := AskPages(world.start, StartRequests(batch), 0);
    if starts.Ok? {
      FirstErrorIsOne(PersistAll(world, batch, starts.value));
      PageErrorSpeaks(world.complete, CompletionsFor(world, batch, starts.value), 0);
      var completes := AskPages(world.complete, CompletionsFor(world, batch, starts.value), 0);
      if completes.Ok? {
        FirstErrorIsOne(ForgetAll(world, batch, starts.value, completes.value, SentIn(world, batch, starts.value)));
      }
    }
  }

  predicate Distinct(items: seq<Item>)
  {
    forall i, j | 0 <= i < |items| && 0 <= j < |items| && items[i].id == items[j].id :: i == j
  }

  predicate SameIds(items: seq<Item>, results: seq<BatchResult>)
  {
    |results| == |items| && forall i | 0 <= i < |items| :: results[i].id == items[i].id
  }

  // ---------------------------------------------------------------- the stages

  method PrepareItems(world: World, items: seq<Item>) returns (results: seq<BatchResult>, batch: seq<Item>)
    ensures |results| == |items| && forall i | 0 <= i < |items| :: results[i] == Prepared(world, items[i])
    ensures batch == FreshItems(world, items)
  {
    results, batch := [], [];
    var i := 0;
    while i < |items|
      invariant 0 <= i <= |items| == |items[..i]| + |items[i..]|
      invariant |results| == i && forall k | 0 <= k < i :: results[k] == Prepared(world, items[k])
      invariant batch == FreshItems(world, items[..i])
    {
      var item := items[i];
      assert items[..i + 1][..i] == items[..i];
      match Check(world, item)
      {
        case Err(message) => results := results + [BatchResult(item.id, None, message)];
        case Ok(response) =>
          if response.None? {
            batch := batch + [item];
          }
          results := results + [BatchResult(item.id, response, "")];
      }
      i := i + 1;
    }
    assert items[..i] == items;
  }

  /** The linear search for an item's result. */
  method Locate(results: seq<BatchResult>, id: string) returns (k: nat)
    ensures k <= |results|
    ensures k < |results| ==> results[k].id == id
    ensures forall i | 0 <= i < k :: results[i].id != id
  {
    k := 0;
    while k < |results| && results[k].id != id
      invariant k <= |results|
      invariant forall i | 0 <= i < k :: results[i].id != id
    {
      k := k + 1;
    }
  }

  /** Results of processed items are as `after` says, the others as `before` says. */
  predicate Tracked(items: seq<Item>, results: seq<BatchResult>, processed: set<string>,
      before: Item -> BatchResult, after: Item -> BatchResult)
  {
    |results| == |items| &&
    forall i | 0 <= i < |items| ::
      results[i] == if items[i].id in processed then after(items[i]) else before(items[i])
  }

  lemma TrackedStart(items: seq<Item>, results: seq<BatchResult>, before: Item -> BatchResult,
      after: Item -> BatchResult)
    requires |results| == |items| && forall i | 0 <= i < |items| :: results[i] == before(items[i])
    ensures Tracked(items, results, {}, before, after)
  {
  }

  lemma TrackedAt(items: seq<Item>, results: seq<BatchResult>, processed: set<string>,
      before: Item -> BatchResult, after: Item -> BatchResult, k: nat)
    requires Tracked(items, results, processed, before, after)
    ensures k < |results| ==> |results| == |items| && (results[k] == before(items[k]) || results[k] == after(items[k]))
  {
  }

  /** With distinct ids the search finds the item's own result. */
  lemma LocateFound(items: seq<Item>, results: seq<BatchResult>, item: Item, k: nat)
    requires Distinct(items) && SameIds(items, results) && item in items
    requires k <= |results| && (k < |results| ==> results[k].id == item.id)
    requires forall i | 0 <= i < k :: results[i].id != item.id
    ensures k < |results| == |items| && items[k] == item
  {
    var i :| 0 <= i < |items| && items[i] == item;
    assert results[i].id == item.id;
  }

  lemma TrackOne(items: seq<Item>, results: seq<BatchResult>, processed: set<string>,
      before: Item -> BatchResult, after: Item -> BatchResult, item: Item, k: nat, result: BatchResult)
    requires Distinct(items) && Tracked(items, results, processed, before, after)
    requires k < |items| == |results| && items[k] == item && result == after(item)
    ensures Tracked(items, results[k := result], processed + {item.id}, before, after)
  {
  }

  lemma TrackNone(items: seq<Item>, results: seq<BatchResult>, processed: set<string>,
      before: Item -> BatchResult, after: Item -> BatchResult, item: Item)
    requires Distinct(items) && Tracked(items, results, processed, before, after) && item in items
    requires before(item) == after(item)
    ensures Tracked(items, results, processed + {item.id}, before, after)
  {
    forall i | 0 <= i < |items|
      ensures results[i] == if items[i].id in processed + {item.id} then after(items[i]) else before(items[i])
    {
      if items[i].id == item.id {
        var j :| 0 <= j < |items| && items[j] == item;
        assert i == j;
      }
    }
  }

  /** What a stage writes into an item's result. */
  datatype Patch = SetError(error: string) | SetResponse(response: Response)

  function Patched(result: BatchResult, patch: Patch): BatchResult
  {
    match patch
    case SetError(error) => result.(error := error)
    case SetResponse(response) => result.(response := Some(response))
  }

  /** Finds the item's result by id and patches it. */
  method PatchResult(ghost items: seq<Item>, given: seq<BatchResult>, item: Item, patch: Patch, ghost tracking: bool,
      ghost processed: set<string>, ghost before: Item -> BatchResult, ghost after: Item -> BatchResult)
    returns (results: seq<BatchResult>)
    requires SameIds(items, given) && item in items
    requires tracking ==> Distinct(items) && Tracked(items, given, processed, before, after)
    requires tracking ==> Patched(before(item), patch) == after(item) == Patched(after(item), patch)
    ensures SameIds(items, results)
    ensures tracking ==> Tracked(items, results, processed + {item.id}, before, after)
  {
    hide Tracked, Distinct;
    results := given;
    var k := Locate(results, item.id);
    if tracking {
      LocateFound(items, results, item, k);
      TrackedAt(items, results, processed, before, after, k);
      TrackOne(items, results, processed, before, after, item, k, Patched(results[k], patch));
    }
    if k < |results| {
      results := results[k := Patched(results[k], patch)];
    }
  }

  ghost predicate PreparedAll(world: World, items: seq<Item>, results: seq<BatchResult>)
  {
    |results| == |items| && forall i | 0 <= i < |items| :: results[i] == Prepared(world, items[i])
  }

  ghost predicate StartedAll(world: World, starts: seq<Answer<StartAnswer>>, items: seq<Item>,
      results: seq<BatchResult>)
  {
    |results| == |items| && forall i | 0 <= i < |items| :: results[i] == AfterStart(world, starts, items[i])
  }

  ghost predicate TransferredAll(world: World, starts: seq<Answer<StartAnswer>>, items: seq<Item>,
      results: seq<BatchResult>)
  {
    |results| == |items| && forall i | 0 <= i < |items| :: results[i] == AfterTransfer(world, starts, items[i])
  }

  /** Gives every fresh item its started session, or its error. */
  method AssignStarted(world: World, ghost items: seq<Item>, batch: seq<Item>, prepared: seq<BatchResult>,
      startedById: map<string, StartAnswer>, ghost starts: seq<Answer<StartAnswer>>)
    returns (error: Option<string>, results: seq<BatchResult>, started: seq<Started>)
    requires forall id :: Find(startedById, id) == First(starts, id)
    requires forall x | x in batch :: x in items && IsFresh(world, x)
    requires SameIds(items, prepared)
    ensures error == FirstError(PersistAll(world, batch, starts))
    ensures SameIds(items, results)
    ensures error.None? ==>
              |started| == |batch| && forall j | 0 <= j < |batch| :: started[j] == StartedAs(First(starts, batch[j].id))
    ensures error.None? && Distinct(items) && PreparedAll(world, items, prepared) ==>
              Tracked(items, results, Ids(batch), x => Prepared(world, x), x => AfterStart(world, starts, x))
  {
    hide First, Tracked, Distinct, Prepared, Ids, AfterStart, FirstError, PersistAll, Persisted, PreparedAll, SameIds;
    hide IsFresh;
    error, results, started := None, prepared, [];
    ghost var before: Item -> BatchResult := x => Prepared(world, x);
    ghost var after: Item -> BatchResult := x => AfterStart(world, starts, x);
    ghost var tracking := Distinct(items) && PreparedAll(world, items, prepared);
    if tracking { AllPrepared(world, items, results, starts); }
    NoIds(batch);
    var j := 0;
    while j < |batch|
      invariant 0 <= j <= |batch| && SameIds(items, results) && |started| == j
      invariant forall i | 0 <= i < j :: started[i] == StartedAs(First(starts, batch[i].id))
      invariant forall i | 0 <= i < j :: Persisted(world, starts, batch[i]).Ok?
      invariant tracking ==> Tracked(items, results, Ids(batch[..j]), before, after)
    {
      var item := batch[j];
      assert Find(startedById, item.id) == First(starts, item.id);
      PersistedIs(world, starts, item);
      IdsSnoc(batch, j);
      if item.id !in startedById || startedById[item.id].upload.None? {
        var error := if item.id !in startedById then "Batch start returned no result"
                     else if startedById[item.id].error == "" then "Batch start validation failed"
                     else startedById[item.id].error;
        StartResult(world, starts, item);
        results := PatchResult(items, results, item, SetError(error), tracking, Ids(batch[..j]), before, after);
        started := started + [NOT_STARTED];
      } else {
        if tracking {
          StartResult(world, starts, item);
          TrackNone(items, results, Ids(batch[..j]), before, after, item);
        }
        started := started + [startedById[item.id].upload.value];
        var saved := world.persist(item, startedById[item.id].upload.value);
        if saved.Err? {
          PersistStops(world, batch, starts, j);
          return Some(saved.message), results, started;
        }
      }
      j := j + 1;
    }
    PersistStops(world, batch, starts, |batch|);
    assert batch[..j] == batch;
  }

  function Ids(items: seq<Item>): set<string> { set x | x in items :: x.id }

  lemma AllPrepared(world: World, items: seq<Item>, results: seq<BatchResult>, starts: seq<Answer<StartAnswer>>)
    requires PreparedAll(world, items, results)
    ensures Tracked(items, results, {}, x => Prepared(world, x), x => AfterStart(world, starts, x))
  {
    hide Prepared, AfterStart;
  }

  lemma PersistedIs(world: World, starts: seq<Answer<StartAnswer>>, item: Item)
    ensures var answer := First(starts, item.id);
            Persisted(world, starts, item) ==
            if answer.Some? && answer.value.upload.Some? then world.persist(item, answer.value.upload.value) else Ok(())
  {
    hide First;
  }

  lemma PersistStops(world: World, batch: seq<Item>, starts: seq<Answer<StartAnswer>>, n: nat)
    requires n <= |batch| && forall i | 0 <= i < n :: Persisted(world, starts, batch[i]).Ok?
    ensures n == |batch| ==> FirstError(PersistAll(world, batch, starts)) == None
    ensures n < |batch| && Persisted(world, starts, batch[n]).Err? ==>
              FirstError(PersistAll(world, batch, starts)) == Some(Persisted(world, starts, batch[n]).message)
  {
    hide Persisted, FirstError;
    FirstErrorAt(PersistAll(world, batch, starts), n);
  }

  lemma NoIds(items: seq<Item>)
    ensures Ids(items[..0]) == {}
  {
  }

  lemma PreparedFresh(world: World, item: Item)
    requires IsFresh(world, item)
    ensures Prepared(world, item) == BatchResult(item.id, None, "")
  {
  }

  lemma StartResult(world: World, starts: seq<Answer<StartAnswer>>, item: Item)
    requires IsFresh(world, item)
    ensures var answer := First(starts, item.id);
            && Prepared(world, item) == BatchResult(item.id, None, "")
            && AfterStart(world, starts, item) == BatchResult(item.id, None,
                 if answer.None? || answer.value.upload.None? then StartError(answer) else "")
  {
    hide First;
  }

  lemma IdsSnoc(items: seq<Item>, j: nat)
    requires j < |items|
    ensures Ids(items[..j + 1]) == Ids(items[..j]) + {items[j].id}
  {
    assert items[..j + 1] == items[..j] + [items[j]];
  }

  /** Runs one window; files without a usable session are skipped. */
  method TransferWindow(world: World, batch: seq<Item>, started: seq<Started>, indices: seq<nat>, given: seq<nat>,
      ghost earlier: seq<nat>, ghost starts: seq<Answer<StartAnswer>>)
    returns (sent: seq<nat>)
    requires |started| == |batch| && forall j | 0 <= j < |batch| :: started[j] == StartedAs(First(starts, batch[j].id))
    requires forall k | 0 <= k < |indices| :: indices[k] < |batch|
    requires forall k | 0 <= k < |earlier| :: earlier[k] < |batch|
    requires given == Transferred(world, batch, starts, earlier)
    ensures sent == Transferred(world, batch, starts, earlier + indices)
  {
    hide First;
    sent := given;
    var position := 0;
    assert earlier + indices[..0] == earlier;
    while position < |indices|
      invariant 0 <= position <= |indices|
      invariant sent == Transferred(world, batch, starts, earlier + indices[..position])
    {
      var index := indices[position];
      assert (earlier + indices[..position + 1])[..|earlier| + position] == earlier + indices[..position];
      if started[index].uploadSessionId != "" {
        sent := sent + [index];
      }
      position := position + 1;
    }
    assert indices[..position] == indices;
  }

  /** Runs the windows one after another and collects the transferred files in order. */
  method TransferAll(world: World, batch: seq<Item>, started: seq<Started>, ghost starts: seq<Answer<StartAnswer>>)
    returns (sent: seq<nat>)
    requires |started| == |batch| && forall j | 0 <= j < |batch| :: started[j] == StartedAs(First(starts, batch[j].id))
    ensures forall k | 0 <= k < |Order(Sizes(batch), 4)| :: Order(Sizes(batch), 4)[k] < |batch|
    ensures sent == Transferred(world, batch, starts, Order(Sizes(batch), 4))
  {
    hide First, Order, FileConcurrency, CreatePlan;
    OrderInRange(Sizes(batch));
    var windows := PlanWindows(Sizes(batch));
    sent := [];
    var w := 0;
    WindowsInRange(Sizes(batch), windows, 0);
    while w < |windows|
      invariant 0 <= w <= |windows|
      invariant forall k | 0 <= k < |IndicesOf(windows[..w])| :: IndicesOf(windows[..w])[k] < |batch|
      invariant sent == Transferred(world, batch, starts, IndicesOf(windows[..w]))
    {
      assert WellFormed(Sizes(batch), windows[w]);
      sent := TransferWindow(world, batch, started, windows[w].indices, sent, IndicesOf(windows[..w]), starts);
      assert windows[..w + 1][..w] == windows[..w];
      w := w + 1;
    }
    assert windows[..w] == windows;
  }

  lemma {:induction false} WindowsInRange(sizes: seq<nat>, windows: seq<Window>, w: nat)
    requires w <= |windows| && forall k | 0 <= k < |windows| :: WellFormed(sizes, windows[k])
    ensures forall k | 0 <= k < |IndicesOf(windows[..w])| :: IndicesOf(windows[..w])[k] < |sizes|
    decreases w
  {
    if w > 0 {
      WindowsInRange(sizes, windows, w - 1);
      assert windows[..w][..w - 1] == windows[..w - 1];
      assert WellFormed(sizes, windows[w - 1]);
    }
  }

  /** Every file with a usable session is transferred. */
  lemma {:induction false} TransferredComplete(world: World, batch: seq<Item>, starts: seq<Answer<StartAnswer>>,
      order: seq<nat>, j: nat)
    requires forall k | 0 <= k < |order| :: order[k] < |batch|
    requires j < |batch| && StartedAs(First(starts, batch[j].id)).uploadSessionId != ""
    requires Count(order, j) >= 1
    ensures j in Transferred(world, batch, starts, order)
    decreases |order|
  {
    hide First;
    var n := |order| - 1;
    if order[n] != j {
      TransferredComplete(world, batch, starts, order[..n], j);
    }
  }

  function IdsAt(batch: seq<Item>, sent: seq<nat>): set<string>
    requires forall k | 0 <= k < |sent| :: sent[k] < |batch|
  {
    set k | 0 <= k < |sent| :: batch[sent[k]].id
  }

  lemma NoIdsAt(batch: seq<Item>, sent: seq<nat>)
    requires forall i | 0 <= i < |sent| :: sent[i] < |batch|
    ensures IdsAt(batch, sent[..0]) == {}
  {
  }

  lemma IdsAtSnoc(batch: seq<Item>, sent: seq<nat>, k: nat)
    requires forall i | 0 <= i < |sent| :: sent[i] < |batch|
    requires k < |sent|
    ensures IdsAt(batch, sent[..k + 1]) == IdsAt(batch, sent[..k]) + {batch[sent[k]].id}
  {
    assert forall i | 0 <= i < k :: sent[..k + 1][i] == sent[..k][i];
    assert sent[..k + 1][k] == sent[k];
    forall id | id in IdsAt(batch, sent[..k]) ensures id in IdsAt(batch, sent[..k + 1]) {
      var i :| 0 <= i < k && id == batch[sent[..k][i]].id;
      assert id == batch[sent[..k + 1][i]].id;
    }
  }

  /** Turns transfers into completion requests, and failed transfers into errors. */
  method CollectCompletions(world: World, ghost items: seq<Item>, batch: seq<Item>, started: seq<Started>,
      sent: seq<nat>, given: seq<BatchResult>, ghost starts: seq<Answer<StartAnswer>>)
    returns (results: seq<BatchResult>, completions: seq<CompleteRequest>)
    requires |started| == |batch| && forall j | 0 <= j < |batch| :: started[j] == StartedAs(First(starts, batch[j].id))
    requires forall x | x in batch :: x in items && IsFresh(world, x)
    requires forall k | 0 <= k < |sent| :: sent[k] < |batch| && started[sent[k]].uploadSessionId != ""
    requires SameIds(items, given)
    ensures SameIds(items, results)
    ensures completions == CompleteRequests(world, batch, starts, sent)
    ensures Distinct(items) && StartedAll(world, starts, items, given) ==>
              Tracked(items, results, IdsAt(batch, sent), x => AfterStart(world, starts, x),
                  x => AfterTransfer(world, starts, x))
  {
    hide First, Tracked, Distinct, Prepared, IdsAt;
    results, completions := given, [];
    ghost var before: Item -> BatchResult := x => AfterStart(world, starts, x);
    ghost var after: Item -> BatchResult := x => AfterTransfer(world, starts, x);
    ghost var tracking := Distinct(items) && StartedAll(world, starts, items, given);
    if tracking { TrackedStart(items, results, before, after); }
    NoIdsAt(batch, sent);
    var p := 0;
    while p < |sent|
      invariant 0 <= p <= |sent| && SameIds(items, results)
      invariant completions == CompleteRequests(world, batch, starts, sent[..p])
      invariant tracking ==> Tracked(items, results, IdsAt(batch, sent[..p]), before, after)
    {
      var item := batch[sent[p]];
      var body := world.transfer(item, started[sent[p]]);
      assert sent[..p + 1][..p] == sent[..p];
      IdsAtSnoc(batch, sent, p);
      if body.Err? {
        PreparedFresh(world, item);
        results := PatchResult(items, results, item, SetError(body.message), tracking, IdsAt(batch, sent[..p]),
            before, after);
      } else {
        if tracking { TrackNone(items, results, IdsAt(batch, sent[..p]), before, after, item); }
        completions := completions + [CompleteRequest(item.id, started[sent[p]].uploadSessionId, body.value)];
      }
      p := p + 1;
    }
    assert sent[..p] == sent;
  }

  /** Hands out the server's completion answers by client id. */
  method AssignCompleted(world: World, ghost items: seq<Item>, batch: seq<Item>, started: seq<Started>, sent: seq<nat>,
      given: seq<BatchResult>, completedById: map<string, CompleteAnswer>,
      ghost starts: seq<Answer<StartAnswer>>, ghost completes: seq<Answer<CompleteAnswer>>)
    returns (error: Option<string>, results: seq<BatchResult>)
    requires |started| == |batch| && forall j | 0 <= j < |batch| :: started[j] == StartedAs(First(starts, batch[j].id))
    requires forall x | x in batch :: x in items && IsFresh(world, x)
    requires forall k | 0 <= k < |sent| :: sent[k] < |batch| && started[sent[k]].uploadSessionId != ""
    requires forall id :: Find(completedById, id) == First(completes, id)
    requires SameIds(items, given)
    ensures error == FirstError(ForgetAll(world, batch, starts, completes, sent))
    ensures SameIds(items, results)
    ensures error.None? && Distinct(items) && TransferredAll(world, starts, items, given) ==>
              Tracked(items, results, IdsAt(batch, sent), x => AfterTransfer(world, starts, x),
                      x => Outcome(world, starts, completes, x))
  {
    hide First, Tracked, Distinct, Prepared, IdsAt, FirstError;
    error, results := None, given;
    ghost var before: Item -> BatchResult := x => AfterTransfer(world, starts, x);
    ghost var after: Item -> BatchResult := x => Outcome(world, starts, completes, x);
    ghost var tracking := Distinct(items) && TransferredAll(world, starts, items, given);
    if tracking { TrackedStart(items, results, before, after); }
    NoIdsAt(batch, sent);
    var p := 0;
    while p < |sent|
      invariant 0 <= p <= |sent| && SameIds(items, results)
      invariant forall i | 0 <= i < p :: ForgetAll(world, batch, starts, completes, sent)[i].Ok?
      invariant tracking ==> Tracked(items, results, IdsAt(batch, sent[..p]), before, after)
    {
      var item := batch[sent[p]];
      var session := started[sent[p]];
      IdsAtSnoc(batch, sent, p);
      if world.transfer(item, session).Ok? {
        assert Find(completedById, item.id) == First(completes, item.id);
        PreparedFresh(world, item);
        var patch :=
          if item.id !in completedById then SetError("Batch complete returned no result")
          else if !completedById[item.id].completed then SetError(completedById[item.id].error)
          else SetResponse(ResponseOf(session));
        results := PatchResult(items, results, item, patch, tracking, IdsAt(batch, sent[..p]), before, after);
        if patch.SetResponse? {
          var dropped := world.forget(session);
          if dropped.Err? {
            FirstErrorAt(ForgetAll(world, batch, starts, completes, sent), p);
            return Some(dropped.message), results;
          }
        }
      } else {
        if tracking { TrackNone(items, results, IdsAt(batch, sent[..p]), before, after, item); }
      }
      p := p + 1;
    }
    FirstErrorAt(ForgetAll(world, batch, starts, completes, sent), |sent|);
    assert sent[..p] == sent;
  }

  // ---------------------------------------------------------------- the batch

  /**
   * `uploadFilesBatch`. It returns one result per item, in order, under the
   * item's id. With distinct ids every result is the outcome of that item alone.
   */
  method UploadFilesBatch(world: World, items: seq<Item>) returns (r: Result<seq<BatchResult>>)
    ensures r.Ok? ==> SameIds(items, r.value)
    ensures Distinct(items) ==> r == BatchSpec(world, items)
  {
    hide First, AskPages, Order, AfterStart, AfterTransfer, Outcome, CompleteRequests, Transferred, FirstError,
      PersistAll, ForgetAll;
    if world.limits.Err? {
      return Err(world.limits.message);
    }
    var prepared, batch := PrepareItems(world, items);
    if batch == [] {
      NothingFresh(world, items);
      assert Distinct(items) ==> prepared == BatchSpec(world, items).value;
      return Ok(prepared);
    }
    ghost var starts := AskPages(world.start, StartRequests(batch), 0);
    var startedById := Correlate(world.start, StartRequests(batch));
    if startedById.Err? {
      return Err(startedById.message);
    }
    var error, results, started := AssignStarted(world, items, batch, prepared, startedById.value, starts.value);
    if error.Some? {
      return Err(error.value);
    }
    StartsSettled(world, items, batch, results, starts.value);
    var sent := TransferAll(world, batch, started, starts.value);
    var given := results;
    var completions: seq<CompleteRequest>;
    results, completions := CollectCompletions(world, items, batch, started, sent, given, starts.value);
    TransfersSettled(world, items, batch, results, starts.value);
    assert completions == CompletionsFor(world, batch, starts.value);
    ghost var completes := AskPages(world.complete, completions, 0);
    var completedById := Correlate(world.complete, completions);
    if completedById.Err? {
      return Err(completedById.message);
    }
    given := results;
    error, results := AssignCompleted(world, items, batch, started, sent, given, completedById.value, starts.value,
                                      completes.value);
    if error.Some? {
      return Err(error.value);
    }
    OutcomesSettled(world, items, batch, results, starts.value, completes.value);
    assert Distinct(items) ==> results == BatchSpec(world, items).value;
    r := Ok(results);
  }

  lemma NothingFresh(world: World, items: seq<Item>)
    requires world.limits.Ok? && FreshItems(world, items) == []
    ensures var spec := BatchSpec(world, items);
            spec.Ok? && |spec.value| == |items| && forall i | 0 <= i < |items| ::
                spec.value[i] == Prepared(world, items[i])
  {
    assert StartRequests([]) == [];
    assert Order(Sizes([]), 1) == [] && Order(Sizes([]), 2) == [] && Order(Sizes([]), 3) == []
        && Order(Sizes([]), 4) == [];
    assert SentIn(world, [], []) == [] && CompletionsFor(world, [], []) == [];
    assert PersistAll(world, [], []) == [] && ForgetAll(world, [], [], [], []) == [];
    assert AskPages(world.start, StartRequests([]), 0) == Ok([]);
    assert AskPages(world.complete, [], 0) == Ok([]);
    forall i | 0 <= i < |items| ensures Outcome(world, [], [], items[i]) == Prepared(world, items[i]) {
      assert items[i] in items;
    }
  }

  /** Items outside the batch proper keep the result they were given first. */
  lemma StartsSettled(world: World, items: seq<Item>, batch: seq<Item>, results: seq<BatchResult>,
      starts: seq<Answer<StartAnswer>>)
    requires batch == FreshItems(world, items)
    ensures Tracked(items, results, Ids(batch), x => Prepared(world, x), x => AfterStart(world, starts, x)) ==>
              forall i | 0 <= i < |items| :: results[i] == AfterStart(world, starts, items[i])
  {
    hide First;
    forall i | 0 <= i < |items| && items[i].id !in Ids(batch)
      ensures AfterStart(world, starts, items[i]) == Prepared(world, items[i])
    {
      assert items[i] in items;
    }
  }

  /** An item whose id was not transferred is not open. */
  lemma NotTransferred(world: World, items: seq<Item>, batch: seq<Item>, starts: seq<Answer<StartAnswer>>, i: nat)
    requires batch == FreshItems(world, items) && i < |items|
    requires forall k | 0 <= k < |Order(Sizes(batch), 4)| :: Order(Sizes(batch), 4)[k] < |batch|
    requires items[i].id !in IdsAt(batch, Transferred(world, batch, starts, Order(Sizes(batch), 4)))
    ensures !IsOpen(world, starts, items[i])
  {
    hide First, Order, Count;
    if IsOpen(world, starts, items[i]) {
      assert items[i] in batch;
      var j :| 0 <= j < |batch| && batch[j] == items[i];
      EachFileOnce(Sizes(batch), j);
      TransferredComplete(world, batch, starts, Order(Sizes(batch), 4), j);
    }
  }

  lemma TransfersSettled(world: World, items: seq<Item>, batch: seq<Item>, results: seq<BatchResult>,
      starts: seq<Answer<StartAnswer>>)
    requires batch == FreshItems(world, items)
    requires forall k | 0 <= k < |Order(Sizes(batch), 4)| :: Order(Sizes(batch), 4)[k] < |batch|
    ensures Tracked(items, results, IdsAt(batch, Transferred(world, batch, starts, Order(Sizes(batch), 4))),
                    x => AfterStart(world, starts, x), x => AfterTransfer(world, starts, x)) ==>
              forall i | 0 <= i < |items| :: results[i] == AfterTransfer(world, starts, items[i])
  {
    hide First, Order, Transferred, IsOpen, AfterStart;
    var sent := IdsAt(batch, Transferred(world, batch, starts, Order(Sizes(batch), 4)));
    forall i | 0 <= i < |items| && items[i].id !in sent
      ensures AfterTransfer(world, starts, items[i]) == AfterStart(world, starts, items[i])
    {
      NotTransferred(world, items, batch, starts, i);
    }
  }

  lemma OutcomesSettled(world: World, items: seq<Item>, batch: seq<Item>, results: seq<BatchResult>,
      starts: seq<Answer<StartAnswer>>, completes: seq<Answer<CompleteAnswer>>)
    requires batch == FreshItems(world, items)
    requires forall k | 0 <= k < |Order(Sizes(batch), 4)| :: Order(Sizes(batch), 4)[k] < |batch|
    ensures Tracked(items, results, IdsAt(batch, Transferred(world, batch, starts, Order(Sizes(batch), 4))),
                    x => AfterTransfer(world, starts, x), x => Outcome(world, starts, completes, x)) ==>
              forall i | 0 <= i < |items| :: results[i] == Outcome(world, starts, completes, items[i])
  {
    hide First, Order, Transferred, IsOpen, AfterTransfer;
    var sent := IdsAt(batch, Transferred(world, batch, starts, Order(Sizes(batch), 4)));
    forall i | 0 <= i < |items| && items[i].id !in sent
      ensures Outcome(world, starts, completes, items[i]) == AfterTransfer(world, starts, items[i])
    {
      NotTransferred(world, items, batch, starts, i);
    }
  }

  // ---------------------------------------------------------------- what a response means

  /**
   * The server itself completed `item`: it answered the item's own client id
   * with a session, was sent a completion of that session under that id, and
   * answered that id as completed.
   */
  ghost predicate ServerCompleted(world: World, items: seq<Item>, item: Item, response: Response)
  {
    var batch := FreshItems(world, items);
    var starts := AskPages(world.start, StartRequests(batch), 0);
    && starts.Ok?
    && var requests := CompletionsFor(world, batch, starts.value);
       var completes := AskPages(world.complete, requests, 0);
       && completes.Ok?
       && exists started: Started, message: string, body: string, note: string ::
            && Answer(item.id, StartAnswer(Some(started), message)) in starts.value
            && CompleteRequest(item.id, started.uploadSessionId, body) in requests
            && Answer(item.id, CompleteAnswer(true, note)) in completes.value
            && response.fileId == started.fileId && response.vaultId == started.vaultId
            && response.uploadSessionId == started.uploadSessionId
            && response.providerUploadId == started.providerUploadId
  }

  /** A response is a resumed upload's own, or one the server completed for that very item. */
  lemma ResponseIsOwn(world: World, items: seq<Item>, i: nat)
    requires Distinct(items) && i < |items|
    requires BatchSpec(world, items).Ok? && BatchSpec(world, items).value[i].response.Some?
    ensures var response := BatchSpec(world, items).value[i].response.value;
            || Check(world, items[i]) == Ok(Some(response))
            || ServerCompleted(world, items, items[i], response)
  {
    hide AskPages, CompletionsFor, First, Order;
    var batch := FreshItems(world, items);
    var starts := AskPages(world.start, StartRequests(batch), 0).value;
    var completes := AskPages(world.complete, CompletionsFor(world, batch, starts), 0).value;
    var item := items[i];
    var response := BatchSpec(world, items).value[i].response.value;
    if Check(world, item) != Ok(Some(response)) {
      FirstIsMember(starts, item.id);
      FirstIsMember(completes, item.id);
      assert IsOpen(world, starts, item);
      var started := StartedAs(First(starts, item.id));
      RequestMade(world, items, starts, i);
      var start, complete := First(starts, item.id).value, First(completes, item.id).value;
      var body := world.transfer(item, started).value;
      assert Answer(item.id, StartAnswer(Some(started), start.error)) in starts;
      assert Answer(item.id, CompleteAnswer(true, complete.error)) in completes;
      assert CompleteRequest(item.id, started.uploadSessionId, body) in CompletionsFor(world, batch, starts);
    }
  }

  lemma RequestMade(world: World, items: seq<Item>, starts: seq<Answer<StartAnswer>>, i: nat)
    requires i < |items| && IsOpen(world, starts, items[i])
    requires world.transfer(items[i], StartedAs(First(starts, items[i].id))).Ok?
    ensures var started := StartedAs(First(starts, items[i].id));
            CompleteRequest(items[i].id, started.uploadSessionId, world.transfer(items[i], started).value)
              in CompletionsFor(world, FreshItems(world, items), starts)
  {
    hide First, Order, Count;
    var batch := FreshItems(world, items);
    assert items[i] in batch;
    var j :| 0 <= j < |batch| && batch[j] == items[i];
    OrderInRange(Sizes(batch));
    EachFileOnce(Sizes(batch), j);
    TransferredComplete(world, batch, starts, Order(Sizes(batch), 4), j);
    RequestFor(world, batch, starts, Transferred(world, batch, starts, Order(Sizes(batch), 4)), j);
  }

  lemma {:induction false} RequestFor(world: World, batch: seq<Item>, starts: seq<Answer<StartAnswer>>,
      sent: seq<nat>, j: nat)
    requires forall k | 0 <= k < |sent| :: sent[k] < |batch|
    requires j in sent && world.transfer(batch[j], StartedAs(First(starts, batch[j].id))).Ok?
    ensures var started := StartedAs(First(starts, batch[j].id));
            CompleteRequest(batch[j].id, started.uploadSessionId, world.transfer(batch[j], started).value)
              in CompleteRequests(world, batch, starts, sent)
    decreases |sent|
  {
    hide First;
    var n := |sent| - 1;
    if sent[n] != j {
      RequestFor(world, batch, starts, sent[..n], j);
    }
  }
}
