/**
 * The PUT transport: client threads push requests onto a queue under a mutex,
 * one worker thread moves them into curl and sets their promises.
 *
 * Every critical section and every promise the worker sets is one step; client
 * steps may fall between any two worker steps. Requests are numbered in the
 * order they were accepted. curl is arbitrary, except that it never hands out a
 * handle that is still in use.
 */
module Transport {
  import opened Basics

  datatype Outcome = Value(etag: string) | Exception(message: string)

  /** Where the worker stands. */
  datatype Worker =
    | Starting
    | AtSwap
    | Adding(queue: seq<nat>)   // the queue swapped out of the shared one, front first
    | Performing
    | Collecting
    | Checking
    | Waiting
    | Leaving
    | Exited

  /** What curl reported for a finished transfer, and the text of the error it stands for. */
  datatype Answer = Answer(curlOk: bool, status: int, message: string)

  datatype State = State(
    accepted: nat,
    stopping: bool,
    pending: seq<nat>,
    worker: Worker,
    active: map<int, nat>,
    etags: map<nat, string>,
    results: map<nat, seq<Outcome>>,  // every set operation on the request's promise
    // history
    answers: map<nat, Answer>,
    headers: seq<(nat, string)>)      // every etag header received, in order

  datatype Step =
    | Put                                            // client
    | Shutdown                                       // destructor
    | InitFails | InitSucceeds
    | Swap
    | AddFails(message: string) | AddSucceeds(handle: int) | AddDone
    | Header(handle: int, etag: string)
    | PerformDone
    | Complete(handle: int, answer: Answer)
    | CollectDone
    | Check
    | Wake
    | FailAll(message: string)

  const START: State := State(0, false, [], Starting, map[], map[], map[], map[], [])

  function SetResult(s: State, id: nat, outcome: Outcome): State
  {
    s.(results := s.results[id := (if id in s.results then s.results[id] else []) + [outcome]])
  }

  function Etag(s: State, id: nat): string { if id in s.etags then s.etags[id] else "" }

  predicate Good(answer: Answer) { answer.curlOk && 200 <= answer.status < 300 }

  function OutcomeOf(s: State, id: nat, answer: Answer): Outcome
  {
    if Good(answer) then Value(Etag(s, id)) else Exception(answer.message)
  }

  function ActiveIds(active: map<int, nat>): set<nat> { set h | h in active :: active[h] }

  /** Sets the exception on everything still queued or active. */
  function FailEverything(s: State, message: string): State
  {
    var failing := (set i | 0 <= i < |s.pending| :: s.pending[i]) + ActiveIds(s.active);
    s.(results := map id | id in s.results.Keys + failing ::
                    (if id in s.results then s.results[id] else [])
                    + (if id in failing then [Exception(message)] else []),
       pending := [], active := map[])
  }

  function Next(s: State, step: Step): State
  {
    match step
    case Put =>
      if s.stopping then s else s.(accepted := s.accepted + 1, pending := s.pending + [s.accepted])
    case Shutdown => s.(stopping := true)
    case InitFails =>
      if s.worker != Starting then s
      else FailEverything(s, "failed to initialize curl multi handle").(stopping := true, worker := Exited)
    case InitSucceeds => if s.worker == Starting then s.(worker := AtSwap) else s
    case Swap => if s.worker == AtSwap then s.(worker := Adding(s.pending), pending := []) else s
    case AddFails(message) =>
      if !s.worker.Adding? || s.worker.queue == [] then s
      else SetResult(s, s.worker.queue[0], Exception(message)).(worker := Adding(s.worker.queue[1..]))
    case AddSucceeds(handle) =>
      if !s.worker.Adding? || s.worker.queue == [] || handle in s.active then s
      else s.(active := s.active[handle := s.worker.queue[0]], worker := Adding(s.worker.queue[1..]))
    case AddDone => if s.worker == Adding([]) then s.(worker := Performing) else s
    case Header(handle, etag) =>
      if s.worker != Performing || handle !in s.active then s
      else
        var id := s.active[handle];
        s.(etags := s.etags[id := etag], headers := s.headers + [(id, etag)])
    case PerformDone => if s.worker == Performing then s.(worker := Collecting) else s
    case Complete(handle, answer) =>
      if s.worker != Collecting || handle !in s.active then s
      else
        var id := s.active[handle];
        SetResult(s, id, OutcomeOf(s, id, answer)).(active := s.active - {handle}, answers := s.answers[id := answer])
    case CollectDone => if s.worker == Collecting then s.(worker := Checking) else s
    case Check =>
      if s.worker != Checking then s
      else s.(worker := if s.stopping && s.pending == [] && s.active == map[] then Leaving else Waiting)
    case Wake => if s.worker == Waiting then s.(worker := AtSwap) else s
    case FailAll(message) =>
      if s.worker == Leaving then FailEverything(s, message).(worker := Exited) else s
  }

  function Run(s: State, steps: seq<Step>): State
    decreases |steps|
  {
    if steps == [] then s else Run(Next(s, steps[0]), steps[1..])
  }

  // ---------------------------------------------------------------- where a request is

  function Queue(s: State): seq<nat> { if s.worker.Adding? then s.worker.queue else [] }

  predicate IsActive(s: State, id: nat) { id in ActiveIds(s.active) }

  function Sets(s: State, id: nat): nat { if id in s.results then |s.results[id]| else 0 }

  /** Occurrences of the request in the shared queue, in the worker's queue, in curl, and among set promises. */
  function Places(s: State, id: nat): nat
  {
    Count(s.pending, id) + Count(Queue(s), id) + One(IsActive(s, id)) + Sets(s, id)
  }

  predicate OneHandleEach(active: map<int, nat>)
  {
    forall h, k | h in active && k in active && active[h] == active[k] :: h == k
  }

  /** The etag of the request's last header, or nothing. */
  function LastEtag(headers: seq<(nat, string)>, id: nat): string
  {
    if headers == [] then ""
    else if headers[|headers| - 1].0 == id then headers[|headers| - 1].1
    else LastEtag(headers[..|headers| - 1], id)
  }

  /**
   * A promise set after an answer holds the request's own last etag if the
   * answer was a 2xx, and the answer's error if not; one set without an answer
   * holds an exception.
   */
  predicate OwnOutcome(s: State, id: nat)
  {
    && (id in s.answers ==>
          && id in s.results && s.results[id] != []
          && s.results[id][0] ==
             if s.answers[id].curlOk && 200 <= s.answers[id].status < 300 then Value(LastEtag(s.headers, id))
             else Exception(s.answers[id].message))
    && (id !in s.answers && id in s.results && s.results[id] != [] ==> s.results[id][0].Exception?)
    && Etag(s, id) == LastEtag(s.headers, id)
  }

  ghost predicate Inv(s: State)
  {
    && (forall id: nat :: Places(s, id) == One(id < s.accepted))
    && OneHandleEach(s.active)
    && (forall id: nat :: OwnOutcome(s, id))
    && (s.worker.Leaving? || s.worker.Exited? ==> s.stopping && s.pending == [] && s.active == map[])
  }

  // ---------------------------------------------------------------- every step keeps it

  lemma CountTail(q: seq<nat>, id: nat)
    requires q != []
    ensures Count(q, id) == One(q[0] == id) + Count(q[1..], id)
  {
    assert q == [q[0]] + q[1..] && [q[0]][..0] == [];
    CountConcat([q[0]], q[1..], id);
    assert Count([q[0]], id) == One(q[0] == id) by { assert Count([q[0]][..0], id) == 0; }
  }

  lemma ActiveAdded(active: map<int, nat>, handle: int, id: nat, x: nat)
    requires handle !in active
    ensures x in ActiveIds(active[handle := id]) <==> x == id || x in ActiveIds(active)
  {
    if x in ActiveIds(active) {
      var h :| h in active && active[h] == x;
      assert active[handle := id][h] == x;
    }
    assert active[handle := id][handle] == id;
  }

  lemma ActiveRemoved(active: map<int, nat>, handle: int, x: nat)
    requires handle in active && OneHandleEach(active)
    ensures x in ActiveIds(active - {handle}) <==> x in ActiveIds(active) && x != active[handle]
  {
    var rest := active - {handle};
    if x in ActiveIds(active) && x != active[handle] {
      var h :| h in active && active[h] == x;
      assert h in rest && rest[h] == x;
    }
    if x in ActiveIds(rest) {
      var h :| h in rest && rest[h] == x;
      assert active[h] == x && h != handle;
    }
  }

  lemma FailEverythingPlaces(s: State, message: string, id: nat)
    requires Places(s, id) <= 1 && OwnOutcome(s, id)
    ensures Places(FailEverything(s, message), id) == Places(s, id)
    ensures OwnOutcome(FailEverything(s, message), id)
  {
    CountMember(s.pending, id);
    var failing := (set i | 0 <= i < |s.pending| :: s.pending[i]) + ActiveIds(s.active);
    assert id in failing <==> id in s.pending || id in ActiveIds(s.active);
  }

  lemma AddPlaces(s: State, step: Step, id: nat)
    requires Inv(s) && (step.AddFails? || step.AddSucceeds?) && Next(s, step) != s
    ensures Places(Next(s, step), id) == Places(s, id) && OwnOutcome(Next(s, step), id)
  {
    hide Count, FailEverything, OutcomeOf;
    var head := s.worker.queue[0];
    assert Places(s, head) == One(head < s.accepted) && OwnOutcome(s, id);
    CountTail(s.worker.queue, id);
    CountTail(s.worker.queue, head);
    if step.AddSucceeds? { ActiveAdded(s.active, step.handle, head, id); }
  }

  lemma CompletePlaces(s: State, step: Step, id: nat)
    requires Inv(s) && step.Complete? && Next(s, step) != s
    ensures Places(Next(s, step), id) == Places(s, id) && OwnOutcome(Next(s, step), id)
  {
    hide Count, FailEverything;
    var done := s.active[step.handle];
    assert IsActive(s, done);
    assert Places(s, done) == One(done < s.accepted) && OwnOutcome(s, id);
    ActiveRemoved(s.active, step.handle, id);
  }

  lemma HeaderPlaces(s: State, step: Step, id: nat)
    requires Inv(s) && step.Header? && Next(s, step) != s
    ensures Places(Next(s, step), id) == Places(s, id) && OwnOutcome(Next(s, step), id)
  {
    hide Count, FailEverything, OutcomeOf;
    var owner := s.active[step.handle];
    assert IsActive(s, owner);
    assert Places(s, owner) == One(owner < s.accepted) && OwnOutcome(s, id);
  }

  lemma FailPlaces(s: State, step: Step, id: nat)
    requires Inv(s) && (step.InitFails? || step.FailAll?) && Next(s, step) != s
    ensures Places(Next(s, step), id) == Places(s, id) && OwnOutcome(Next(s, step), id)
  {
    hide Count, FailEverything, OutcomeOf;
    assert Places(s, id) == One(id < s.accepted) && OwnOutcome(s, id);
    var message := if step.FailAll? then step.message else "failed to initialize curl multi handle";
    FailEverythingPlaces(s, message, id);
    FailEverythingEmpties(s, message);
  }

  lemma PutPlaces(s: State, id: nat)
    requires Places(s, id) == One(id < s.accepted) && OwnOutcome(s, id)
    ensures Places(Next(s, Put), id) == One(id < Next(s, Put).accepted) && OwnOutcome(Next(s, Put), id)
  {
    CountSnoc(s.pending, s.accepted, id);
    hide Count;
  }

  lemma SwapPlaces(s: State, id: nat)
    requires OwnOutcome(s, id)
    ensures Places(Next(s, Swap), id) == Places(s, id) && OwnOutcome(Next(s, Swap), id)
  {
    assert Count<nat>([], id) == 0;
    hide Count;
  }

  /** Steps that only move the worker on. */
  lemma WorkerPlaces(s: State, step: Step, id: nat)
    requires OwnOutcome(s, id)
    requires step.Shutdown? || step.InitSucceeds? || step.AddDone? || step.PerformDone? || step.CollectDone?
        || step.Check?
             || step.Wake?
    ensures Places(Next(s, step), id) == Places(s, id) && OwnOutcome(Next(s, step), id)
  {
    assert Count<nat>([], id) == 0;
    hide Count, FailEverything, OutcomeOf, SetResult, ActiveIds;
    match step
    case Shutdown =>
    case InitSucceeds =>
    case AddDone =>
    case PerformDone =>
    case CollectDone =>
    case Check =>
    case Wake =>
  }

  /** A step moves a request between places, and never duplicates or drops one. */
  lemma NextPlaces(s: State, step: Step, id: nat)
    requires Inv(s)
    ensures var s' := Next(s, step); Places(s', id) == One(id < s'.accepted)
    ensures OwnOutcome(Next(s, step), id)
  {
    assert Places(s, id) == One(id < s.accepted) && OwnOutcome(s, id);
    OnlyPutAccepts(s, step);
    hide Next, Places, OwnOutcome, Inv;
    if Next(s, step) != s {
      match step
      case InitFails => FailPlaces(s, step, id);
      case FailAll(_) => FailPlaces(s, step, id);
      case AddFails(_) => AddPlaces(s, step, id);
      case AddSucceeds(_) => AddPlaces(s, step, id);
      case Complete(_, _) => CompletePlaces(s, step, id);
      case Header(_, _) => HeaderPlaces(s, step, id);
      case Put => PutPlaces(s, id);
      case Swap => SwapPlaces(s, id);
      case _ => WorkerPlaces(s, step, id);
    }
  }

  lemma OnlyPutAccepts(s: State, step: Step)
    ensures !step.Put? ==> Next(s, step).accepted == s.accepted
  {
    hide OutcomeOf;
  }

  lemma NextHandles(s: State, step: Step)
    requires Inv(s)
    ensures OneHandleEach(Next(s, step).active)
  {
    if step.AddSucceeds? && s.worker.Adding? && s.worker.queue != [] && step.handle !in s.active {
      var id := s.worker.queue[0];
      CountTail(s.worker.queue, id);
      assert Places(s, id) == One(id < s.accepted);
      assert !IsActive(s, id);
      assert forall h | h in s.active :: s.active[h] in ActiveIds(s.active);
    }
  }

  lemma NextInv(s: State, step: Step)
    requires Inv(s)
    ensures Inv(Next(s, step))
  {
    NextHandles(s, step);
    forall id: nat
      ensures Places(Next(s, step), id) == One(id < Next(s, step).accepted) && OwnOutcome(Next(s, step), id)
    {
      NextPlaces(s, step, id);
    }
    hide Places, OwnOutcome, FailEverything;
    FailEverythingEmpties(s, if step.FailAll? then step.message else "failed to initialize curl multi handle");
  }

  lemma FailEverythingEmpties(s: State, message: string)
    ensures var s' := FailEverything(s, message);
            s'.pending == [] && s'.active == map[] && s'.stopping == s.stopping && s'.worker == s.worker
  {
  }

  lemma {:induction false} RunInv(s: State, steps: seq<Step>)
    requires Inv(s)
    ensures Inv(Run(s, steps))
    decreases |steps|
  {
    if steps != [] {
      NextInv(s, steps[0]);
      RunInv(Next(s, steps[0]), steps[1..]);
    }
  }

  // ---------------------------------------------------------------- results

  /**
   * Exactly-once completion. In every interleaving of puts, shutdown and the
   * worker: an accepted request is in exactly one of the shared queue, the
   * worker's queue, curl, or the resolved ones; its promise is never set twice;
   * once curl answered it, it holds a value if and only if the transfer went
   * well with a status from 200 to 299, and then its own last etag, and else
   * that answer's error; without an answer it holds an exception; and once the
   * worker has exited every accepted request has been resolved.
   */
  lemma ExactlyOnce(steps: seq<Step>, id: nat)
    ensures var s := Run(START, steps);
            && Places(s, id) == (if id < s.accepted then 1 else 0)
            && Sets(s, id) <= 1
            && (id in s.answers ==>
                  && Sets(s, id) == 1
                  && (s.results[id][0].Value? <==> s.answers[id].curlOk && 200 <= s.answers[id].status < 300)
                  && (if s.results[id][0].Value? then s.results[id][0].etag == LastEtag(s.headers, id)
                      else s.results[id][0].message == s.answers[id].message))
            && (Sets(s, id) == 1 && id !in s.answers ==> s.results[id][0].Exception?)
            && (s.worker.Exited? && id < s.accepted ==> Sets(s, id) == 1)
  {
    assert Inv(START);
    RunInv(START, steps);
    var s := Run(START, steps);
    assert Places(s, id) == One(id < s.accepted) && OwnOutcome(s, id);
    hide Run;
  }

  /** The worker waits for work with nothing in hand. */
  predicate Resting(s: State) { s.worker == Waiting && s.pending == [] && s.active == map[] }

  /** A started transport comes to rest after one empty round. */
  lemma StartsToRest()
    ensures Resting(Run(START, [InitSucceeds, Swap, AddDone, PerformDone, CollectDone, Check]))
  {
    var s1 := Next(START, InitSucceeds);
    var s2 := Next(s1, Swap);
    var s3 := Next(s2, AddDone);
    var s4 := Next(s3, PerformDone);
    var s5 := Next(s4, CollectDone);
    var s6 := Next(s5, Check);
    RunSix(START, InitSucceeds, Swap, AddDone, PerformDone, CollectDone, Check);
  }

  lemma RunSix(s: State, a: Step, b: Step, c: Step, d: Step, e: Step, f: Step)
    ensures Run(s, [a, b, c, d, e, f]) == Next(Next(Next(Next(Next(Next(s, a), b), c), d), e), f)
  {
    hide Next;
    var s1 := Next(s, a);
    var s2 := Next(s1, b);
    var s3 := Next(s2, c);
    var s4 := Next(s3, d);
    var s5 := Next(s4, e);
    assert [a, b, c, d, e, f][1..] == [b, c, d, e, f] && [b, c, d, e, f][1..] == [c, d, e, f];
    assert [c, d, e, f][1..] == [d, e, f] && [d, e, f][1..] == [e, f] && [e, f][1..] == [f] && [f][1..] == [];
    assert Run(s5, [f]) == Next(s5, f);
    assert Run(s4, [e, f]) == Run(s5, [f]);
    assert Run(s3, [d, e, f]) == Run(s4, [e, f]);
    assert Run(s2, [c, d, e, f]) == Run(s3, [d, e, f]);
    assert Run(s1, [b, c, d, e, f]) == Run(s2, [c, d, e, f]);
  }

  /**
   * A request is served: put to a resting transport, added to curl, answered
   * and collected, it resolves its promise by the answer, with the etag of the
   * last header, and the transport comes to rest again, ready for more.
   */
  lemma RequestIsServed(s: State, handle: int, first: string, etag: string, answer: Answer)
    requires Inv(s) && Resting(s) && !s.stopping
    ensures var id := s.accepted;
            var sent := Run(s, [Put, Wake, Swap, AddSucceeds(handle), AddDone, Header(handle, first)]);
            var rest := [Header(handle, etag), PerformDone, Complete(handle, answer), CollectDone, Check, Wake];
            var s' := Run(sent, rest);
            && s'.worker == AtSwap && s'.pending == [] && s'.active == map[] && s'.accepted == id + 1
            && id in s'.results && |s'.results[id]| == 1
            && s'.results[id][0] ==
               (if answer.curlOk && 200 <= answer.status < 300 then Value(etag) else Exception(answer.message))
  {
    var id := s.accepted;
    assert Places(s, id) == One(id < s.accepted);
    var sent := Run(s, [Put, Wake, Swap, AddSucceeds(handle), AddDone, Header(handle, first)]);
    RequestIsSent(s, handle, first);
    RequestIsAnswered(sent, handle, id, etag, answer);
    hide Run, Inv;
  }

  lemma RequestIsSent(s: State, handle: int, first: string)
    requires Resting(s) && !s.stopping
    ensures var sent := Run(s, [Put, Wake, Swap, AddSucceeds(handle), AddDone, Header(handle, first)]);
            && sent.worker == Performing && sent.active == map[handle := s.accepted] && sent.pending == []
            && !sent.stopping && sent.results == s.results && sent.accepted == s.accepted + 1
  {
    RunSix(s, Put, Wake, Swap, AddSucceeds(handle), AddDone, Header(handle, first));
    hide Run;
    var s1 := Next(s, Put);
    assert s1.pending == [s.accepted];
    var s3 := Next(Next(s1, Wake), Swap);
    assert s3.worker == Adding([s.accepted]);
    var s4 := Next(s3, AddSucceeds(handle));
    assert [s.accepted][1..] == [];
    assert s4.worker == Adding([]) && s4.active == map[handle := s.accepted];
  }

  lemma RequestIsAnswered(s: State, handle: int, id: nat, etag: string, answer: Answer)
    requires s.worker == Performing && s.active == map[handle := id] && s.pending == [] && !s.stopping
    requires id !in s.results || s.results[id] == []
    ensures var s' := Run(s, [Header(handle, etag), PerformDone, Complete(handle, answer), CollectDone, Check, Wake]);
            && s'.worker == AtSwap && s'.pending == [] && s'.active == map[] && s'.accepted == s.accepted
            && id in s'.results && |s'.results[id]| == 1
            && s'.results[id][0] ==
               (if answer.curlOk && 200 <= answer.status < 300 then Value(etag) else Exception(answer.message))
  {
    hide Run, FailEverything, LastEtag;
    RunSix(s, Header(handle, etag), PerformDone, Complete(handle, answer), CollectDone, Check, Wake);
    var s2 := Next(Next(s, Header(handle, etag)), PerformDone);
    var s3 := Next(s2, Complete(handle, answer));
    AnswerSetsResult(s2, handle, id, etag, answer);
    RoundEnds(s3);
  }

  lemma AnswerSetsResult(s: State, handle: int, id: nat, etag: string, answer: Answer)
    requires s.worker == Collecting && s.active == map[handle := id] && Etag(s, id) == etag
    requires id !in s.results || s.results[id] == []
    ensures var s' := Next(s, Complete(handle, answer));
            && s'.worker == Collecting && s'.active == map[] && s'.pending == s.pending && s'.stopping == s.stopping
            && s'.accepted == s.accepted && id in s'.results && |s'.results[id]| == 1
            && s'.results[id][0] ==
               (if answer.curlOk && 200 <= answer.status < 300 then Value(etag) else Exception(answer.message))
  {
    assert map[handle := id] - {handle} == map[];
  }

  lemma RoundEnds(s: State)
    requires s.worker == Collecting && s.active == map[] && s.pending == [] && !s.stopping
    ensures Next(Next(Next(s, CollectDone), Check), Wake) == s.(worker := AtSwap)
  {
  }

  /** A stopped transport refuses puts, and leaves as soon as it has nothing in hand. */
  lemma StoppedLeaves(s: State, message: string)
    requires Resting(s)
    ensures var stopped := Next(s, Shutdown);
            && Next(stopped, Put) == stopped
            && var rest := [Swap, AddDone, PerformDone, CollectDone, Check, FailAll(message)];
               Run(Next(stopped, Wake), rest).worker == Exited
  {
    var s0 := Next(Next(s, Shutdown), Wake);
    RunSix(s0, Swap, AddDone, PerformDone, CollectDone, Check, FailAll(message));
  }

  /** A transport that could not start is stopped, and has failed what it was given. */
  lemma FailedStartStops(s: State)
    requires s.worker == Starting
    ensures var s' := Next(s, InitFails);
            s'.worker == Exited && s'.stopping && s'.pending == [] && Next(s', Put) == s'
  {
  }

  /** A resolved promise is never touched again. */
  lemma {:induction false} ResolvedIsFinal(s: State, steps: seq<Step>, id: nat)
    requires Inv(s) && Sets(s, id) == 1
    ensures var s' := Run(s, steps); Sets(s', id) == 1 && s'.results[id] == s.results[id]
    decreases |steps|
  {
    if steps != [] {
      NextInv(s, steps[0]);
      StaysResolved(s, steps[0], id);
      ResolvedIsFinal(Next(s, steps[0]), steps[1..], id);
    }
  }

  lemma StaysResolved(s: State, step: Step, id: nat)
    requires Inv(s) && Sets(s, id) == 1
    ensures var s' := Next(s, step); id in s'.results && s'.results[id] == s.results[id]
  {
    NextPlaces(s, step, id);
    assert Places(s, id) == One(id < s.accepted);
    CountMember(s.pending, id);
    if Queue(s) != [] { CountTail(Queue(s), id); }
    assert step.Complete? && step.handle in s.active ==> IsActive(s, s.active[step.handle]);
  }
}
