/**
 * The multipart uploader: a pool of workers claims part numbers from an atomic
 * counter, fills one result slot per part and stops at the first failure.
 *
 * Every atomic access of a worker (load of the stop flag, fetch_add, slot read,
 * PUT, registration, slot write, error record) is one step, and a run is any
 * sequence of steps of any workers. A step that does not apply changes nothing.
 */
module PartClaiming {
  import opened Basics
  import opened Partition
  import opened ChunkPipeline

  const DEFAULT_PART_CONCURRENCY: nat := 6

  function ResolvePartConcurrency(uploadPartCount: nat, serverCap: int): nat
  {
    if uploadPartCount == 0 then 0
    else
      var cap := if serverCap > 0 then serverCap else DEFAULT_PART_CONCURRENCY;
      Max(1, Min(Min(uploadPartCount, DEFAULT_PART_CONCURRENCY), cap))
  }

  /** Where a worker stands in its loop. */
  datatype Worker =
    | AtHead                                    // about to load the stop flag
    | AtFetch                                   // about to fetch_add the counter
    | Claimed(part: nat)                        // about to look at its slot
    | Working(part: nat)                        // preparing and sending the part
    | Stored(part: nat, result: PartResult)     // PUT answered, not yet registered
    | Ready(part: nat, result: PartResult)      // about to write its slot
    | Failing(message: string)                  // stop flag raised, error not yet recorded
    | Exited

  /** What one call is given: the file, the session kind, and the parts resumed from an earlier run. */
  datatype Call = Call(job: FileJob, multipart: bool, resumed: seq<PartResult>, resumedStorage: map<nat, Bytes>)

  /** What the server was told of a part. */
  datatype Registration = Registration(hash: string, etag: string)

  function RegistrationOf(result: PartResult): Registration { Registration(result.uploadHash, result.etag) }

  datatype Pool = Pool(
    workers: seq<Worker>,
    next: nat,
    slots: seq<PartResult>,
    stop: bool,
    firstError: Option<string>,
    storage: map<nat, Bytes>,
    registered: map<nat, Registration>,
    // history, not present in the program
    owner: map<nat, nat>,
    puts: multiset<nat>,
    answered: map<nat, string>,   // the etag storage answered for each part sent
    errors: seq<string>)          // every error recorded, in order

  datatype Step =
    | LoadStop(w: nat)
    | FetchAdd(w: nat)
    | ReadSlot(w: nat)
    | Put(w: nat, nonces: nat -> Nonce, etag: string)     // seals the part, sends it, storage answers
    | Register(w: nat)                                    // server and part callback both succeed
    | WriteSlot(w: nat)
    | Throw(w: nat, message: string)                      // while preparing, sending or registering
    | ThrowAfterPut(w: nat, body: Bytes, message: string) // storage kept something, the worker saw an error
    | RegisterThenThrow(w: nat, message: string)          // registered, then the answer or the callback failed
    | RecordError(w: nat)

  /** Slots of a call that carry an etag were stored and registered by an earlier run of the same session. */
  ghost predicate ValidCall(call: Call)
  {
    && Sound(call.job.crypto)
    && Supported(|call.job.content|)
    && |call.resumed| == PartCount(|call.job.content|)
    && forall n | 1 <= n <= |call.resumed| && call.resumed[n - 1].etag != "" ::
         n in call.resumedStorage && PartDescribed(call.job, n, call.resumed[n - 1], call.resumedStorage[n])
  }

  predicate IsResumed(call: Call, n: nat) { 1 <= n <= |call.resumed| && call.resumed[n - 1].etag != "" }

  function Start(call: Call, concurrency: nat): Pool
  {
    Pool(seq(concurrency, i => AtHead), 1, call.resumed, false, None, call.resumedStorage,
         map n | 1 <= n <= |call.resumed| && IsResumed(call, n) :: RegistrationOf(call.resumed[n - 1]),
         map[], multiset{}, map[], [])
  }

  /** The worker in state `me` is at the point of its loop where it makes the step. */
  predicate Enabled(call: Call, s: Pool, me: Worker, step: Step)
  {
    match step
    case LoadStop(_) => me.AtHead?
    case FetchAdd(_) => me.AtFetch?
    case ReadSlot(_) => me.Claimed? && 1 <= me.part <= |s.slots|
    case Put(_, _, _) => me.Working? && 1 <= me.part <= PartCount(|call.job.content|)
    case Register(_) => me.Stored?
    case WriteSlot(_) => me.Ready? && 1 <= me.part <= |s.slots|
    case Throw(_, _) => me.Working? || me.Stored?
    case ThrowAfterPut(_, _, _) => me.Working?
    case RegisterThenThrow(_, _) => me.Stored?
    case RecordError(_) => me.Failing?
  }

  /** Where the step leaves the worker. */
  ghost function Moved(call: Call, s: Pool, me: Worker, step: Step): Worker
    requires ValidCall(call) && Enabled(call, s, me, step)
  {
    match step
    case LoadStop(_) => if s.stop then Exited else AtFetch
    case FetchAdd(_) => if s.next > |s.slots| then Exited else Claimed(s.next)
    case ReadSlot(_) => if s.slots[me.part - 1].etag != "" then AtHead else Working(me.part)
    case Put(_, nonces, etag) =>
      var result := SealedPart(call.job, me.part, nonces, etag);
      if call.multipart then Stored(me.part, result) else Ready(me.part, result)
    case Register(_) => Ready(me.part, me.result)
    case WriteSlot(_) => AtHead
    case Throw(_, message) => Failing(message)
    case ThrowAfterPut(_, _, message) => Failing(message)
    case RegisterThenThrow(_, message) => Failing(message)
    case RecordError(_) => AtHead
  }

  /** What the step does to the shared state, storage and server. */
  ghost function Effect(call: Call, s: Pool, me: Worker, step: Step): Pool
    requires ValidCall(call) && Enabled(call, s, me, step)
  {
    match step
    case LoadStop(_) => s
    case FetchAdd(w) =>
      if s.next > |s.slots| then s.(next := s.next + 1)
      else s.(next := s.next + 1, owner := s.owner[s.next := w])
    case ReadSlot(_) => s
    case Put(_, nonces, etag) =>
      s.(storage := s.storage[me.part := SealedBody(call.job, me.part, nonces)],
         puts := s.puts + multiset{me.part}, answered := s.answered[me.part := etag])
    case Register(_) => s.(registered := s.registered[me.part := RegistrationOf(me.result)])
    case WriteSlot(_) => s.(slots := s.slots[me.part - 1 := me.result])
    case Throw(_, _) => s.(stop := true)
    case ThrowAfterPut(_, body, _) =>
      s.(stop := true, storage := s.storage[me.part := body], puts := s.puts + multiset{me.part})
    case RegisterThenThrow(_, _) => s.(stop := true, registered := s.registered[me.part := RegistrationOf(me.result)])
    case RecordError(_) =>
      s.(firstError := if s.firstError.None? then Some(me.message) else s.firstError, errors := s.errors + [me.message])
  }

  ghost function Next(call: Call, s: Pool, step: Step): Pool
    requires ValidCall(call)
  {
    if step.w >= |s.workers| || !Enabled(call, s, s.workers[step.w], step) then s
    else
      var me := s.workers[step.w];
      Effect(call, s, me, step).(workers := s.workers[step.w := Moved(call, s, me, step)])
  }

  ghost function Run(call: Call, s: Pool, steps: seq<Step>): Pool
    requires ValidCall(call)
    decreases |steps|
  {
    if steps == [] then s else Run(call, Next(call, s, steps[0]), steps[1..])
  }

  // ---------------------------------------------------------------- invariant

  predicate Holds(worker: Worker, n: nat)
  {
    (worker.Claimed? || worker.Working? || worker.Stored? || worker.Ready?) && worker.part == n
  }

  /** Nothing has happened to part `n` in this call. */
  predicate Untouched(call: Call, s: Pool, n: nat)
    requires 1 <= n <= |s.slots| == |call.resumed|
  {
    && s.slots[n - 1] == call.resumed[n - 1]
    && s.puts[n] == 0
    && (n in s.storage <==> n in call.resumedStorage)
    && (n in s.storage ==> s.storage[n] == call.resumedStorage[n])
    && (n in s.registered <==> IsResumed(call, n))
    && (IsResumed(call, n) ==> Registered(s, n, call.resumed[n - 1]))
  }

  /** The server was told of part `n` exactly what `result` says. */
  predicate Registered(s: Pool, n: nat, result: PartResult)
  {
    n in s.registered && s.registered[n] == Registration(result.uploadHash, result.etag)
  }

  /** Part `n` was sent once, and `result` describes what storage holds for it, with the etag storage answered. */
  ghost predicate Sent(call: Call, s: Pool, n: nat, result: PartResult)
    requires ValidCall(call) && 1 <= n <= |s.slots| == |call.resumed|
  {
    && call.resumed[n - 1].etag == ""
    && s.puts[n] == 1
    && n in s.storage
    && PartDescribed(call.job, n, result, s.storage[n])
    && n in s.answered && result.etag == s.answered[n]
  }

  /** Part `n` is as a normal return must leave it. */
  ghost predicate Settled(call: Call, s: Pool, n: nat)
    requires ValidCall(call) && 1 <= n <= |s.slots| == |call.resumed|
  {
    if call.resumed[n - 1].etag != "" then Untouched(call, s, n)
    else Sent(call, s, n, s.slots[n - 1]) && (call.multipart ==> Registered(s, n, s.slots[n - 1]))
  }

  ghost predicate WorkerInv(call: Call, s: Pool, w: nat)
    requires ValidCall(call) && |s.slots| == |call.resumed| && w < |s.workers|
  {
    var me := s.workers[w];
    && (me.Claimed? || me.Working? || me.Stored? || me.Ready? ==>
          1 <= me.part <= |s.slots| && me.part in s.owner && s.owner[me.part] == w)
    && (me.Claimed? ==> Untouched(call, s, me.part))
    && (me.Working? ==> Untouched(call, s, me.part) && call.resumed[me.part - 1].etag == "")
    && (me.Stored? || me.Ready? ==> Sent(call, s, me.part, me.result))
    && (me.Stored? ==> me.part !in s.registered)
    && (me.Ready? && call.multipart ==> Registered(s, me.part, me.result))
    && (me.Failing? ==> s.stop)
    && (me.Exited? ==> s.stop || s.next > |s.slots|)
  }

  ghost predicate PartInv(call: Call, s: Pool, n: nat)
    requires ValidCall(call) && |s.slots| == |call.resumed| && 1 <= n <= |s.slots|
  {
    && (n in s.owner <==> n < s.next)
    && (n in s.owner ==> s.owner[n] < |s.workers|)
    && (n !in s.owner ==> Untouched(call, s, n))
    && (call.resumed[n - 1].etag != "" ==> Untouched(call, s, n))
    && (n in s.owner && !Holds(s.workers[s.owner[n]], n) ==> Settled(call, s, n) || s.stop)
  }

  ghost predicate Inv(call: Call, s: Pool)
    requires ValidCall(call)
  {
    && |s.slots| == |call.resumed|
    && s.next >= 1
    && (forall w | 0 <= w < |s.workers| :: WorkerInv(call, s, w))
    && (forall n | 1 <= n <= |s.slots| :: PartInv(call, s, n))
    && ReportsFirst(s)
    && (s.firstError.Some? ==> s.stop)
    && (s.stop ==> s.firstError.Some? || exists w :: 0 <= w < |s.workers| && s.workers[w].Failing?)
  }

  lemma StartInv(call: Call, concurrency: nat)
    requires ValidCall(call)
    ensures Inv(call, Start(call, concurrency))
  {
    hide PartDescribed, PartCount, Sound, Sent;
  }

  /** Every step of every worker keeps the invariant. */
  lemma NextInv(call: Call, s: Pool, step: Step)
    requires ValidCall(call) && Inv(call, s)
    ensures Inv(call, Next(call, s, step))
  {
    var s' := Next(call, s, step);
    if s' != s {
      hide PartDescribed;
      assert WorkerInv(call, s, step.w);
      StepFrame(call, s, step);
      OwnWorkerInv(call, s, step);
      forall w | 0 <= w < |s'.workers| ensures WorkerInv(call, s', w) {
        if w != step.w { OtherWorkerInv(call, s, step, w); }
      }
      forall n | 1 <= n <= |s'.slots| ensures PartInv(call, s', n) {
        NextPartInv(call, s, step, n);
      }
      StopKeepsError(s, s', step);
    }
  }

  /** The two states agree on everything that concerns part `n`. */
  predicate SamePart(s: Pool, s': Pool, n: nat)
    requires 1 <= n <= |s.slots| == |s'.slots|
  {
    && s.slots[n - 1] == s'.slots[n - 1]
    && s.puts[n] == s'.puts[n]
    && (n in s.storage <==> n in s'.storage)
    && (n in s.storage ==> s.storage[n] == s'.storage[n])
    && Find(s.registered, n) == Find(s'.registered, n)
    && Find(s.answered, n) == Find(s'.answered, n)
  }

  /** A step leaves every part the worker does not hold alone. */
  lemma EffectTouchesOwnPart(call: Call, s: Pool, me: Worker, step: Step, n: nat)
    requires ValidCall(call) && Enabled(call, s, me, step) && 1 <= n <= |s.slots| && !Holds(me, n)
    ensures var s' := Effect(call, s, me, step); |s'.slots| == |s.slots| && SamePart(s, s', n)
  {
    hide ValidCall, PartCount, SealedBody;
    match step
    case Put(_, _, _) => SendTouchesOwnPart(call, s, me, step, n);
    case ThrowAfterPut(_, _, _) => SendTouchesOwnPart(call, s, me, step, n);
    case WriteSlot(_) =>
    case Register(_) =>
    case RegisterThenThrow(_, _) =>
    case _ =>
  }

  lemma SendTouchesOwnPart(call: Call, s: Pool, me: Worker, step: Step, n: nat)
    requires ValidCall(call) && Enabled(call, s, me, step) && (step.Put? || step.ThrowAfterPut?)
    requires 1 <= n <= |s.slots| && me.part != n
    ensures var s' := Effect(call, s, me, step); |s'.slots| == |s.slots| && SamePart(s, s', n)
  {
    hide ValidCall, PartCount, SealedBody;
  }

  lemma StepTouchesOwnPart(call: Call, s: Pool, step: Step, n: nat)
    requires ValidCall(call) && 1 <= n <= |s.slots|
    requires step.w < |s.workers| && !Holds(s.workers[step.w], n)
    ensures var s' := Next(call, s, step); |s'.slots| == |s.slots| && SamePart(s, s', n)
  {
    hide Effect, Moved, ValidCall;
    if Enabled(call, s, s.workers[step.w], step) {
      EffectTouchesOwnPart(call, s, s.workers[step.w], step, n);
    }
  }

  /** The error reported is the first one recorded. */
  predicate ReportsFirst(s: Pool) { s.firstError == if s.errors == [] then None else Some(s.errors[0]) }

  /** What no step ever undoes. */
  lemma EffectFrame(call: Call, s: Pool, me: Worker, step: Step)
    requires ValidCall(call) && Enabled(call, s, me, step)
    ensures var s' := Effect(call, s, me, step);
            && |s'.slots| == |s.slots|
            && (s.stop ==> s'.stop)
            && s.next <= s'.next
            && (ReportsFirst(s) ==> ReportsFirst(s'))
            && (forall n | n in s.owner && n != s.next :: n in s'.owner && s'.owner[n] == s.owner[n])
  {
    hide ValidCall, PartCount, SealedBody;
  }

  lemma StepFrame(call: Call, s: Pool, step: Step)
    requires ValidCall(call) && step.w < |s.workers|
    ensures var s' := Next(call, s, step);
            && |s'.slots| == |s.slots|
            && |s'.workers| == |s.workers|
            && s'.workers == s.workers[step.w := s'.workers[step.w]]
            && (s.stop ==> s'.stop)
            && s.next <= s'.next
            && (ReportsFirst(s) ==> ReportsFirst(s'))
            && (forall n | n in s.owner && n != s.next :: n in s'.owner && s'.owner[n] == s.owner[n])
  {
    hide Effect, Moved, ValidCall;
    if Enabled(call, s, s.workers[step.w], step) {
      EffectFrame(call, s, s.workers[step.w], step);
    }
  }

  lemma OtherWorkerInv(call: Call, s: Pool, step: Step, w: nat)
    requires ValidCall(call) && Inv(call, s) && w < |s.workers| && step.w < |s.workers| && w != step.w
    ensures |Next(call, s, step).workers| == |s.workers| && |Next(call, s, step).slots| == |s.slots|
    ensures WorkerInv(call, Next(call, s, step), w)
  {
    hide PartDescribed, Supported, PartCount, Next;
    assert WorkerInv(call, s, w) && WorkerInv(call, s, step.w);
    StepFrame(call, s, step);
    var me := s.workers[w];
    if me.Claimed? || me.Working? || me.Stored? || me.Ready? {
      StepTouchesOwnPart(call, s, step, me.part);
      assert PartInv(call, s, me.part);
    }
  }

  lemma OwnWorkerInv(call: Call, s: Pool, step: Step)
    requires ValidCall(call) && |s.slots| == |call.resumed| && s.next >= 1
    requires step.w < |s.workers| && WorkerInv(call, s, step.w)
    requires s.next <= |s.slots| ==> PartInv(call, s, s.next)
    requires s.firstError.Some? ==> s.stop
    requires s.workers[step.w].Failing? ==> s.stop
    ensures |Next(call, s, step).workers| == |s.workers| && |Next(call, s, step).slots| == |s.slots|
    ensures WorkerInv(call, Next(call, s, step), step.w)
    ensures Next(call, s, step).firstError.Some? ==> Next(call, s, step).stop
  {
    hide Next, WorkerInv, PartInv, ValidCall;
    StopBehindError(call, s, step);
    match step
    case FetchAdd(_) => FetchInv(call, s, step);
    case Put(_, _, _) => PutInv(call, s, step);
    case Register(_) => RegisterInv(call, s, step);
    case RegisterThenThrow(_, _) => RegisterInv(call, s, step);
    case _ => QuietInv(call, s, step);
  }

  lemma StopBehindError(call: Call, s: Pool, step: Step)
    requires ValidCall(call) && step.w < |s.workers| && (s.firstError.Some? ==> s.stop)
    requires s.workers[step.w].Failing? ==> s.stop
    ensures Next(call, s, step).firstError.Some? ==> Next(call, s, step).stop
  {
    hide ValidCall, SealedBody, Moved, PartCount;
  }

  lemma RegisterInv(call: Call, s: Pool, step: Step)
    requires ValidCall(call) && |s.slots| == |call.resumed|
    requires (step.Register? || step.RegisterThenThrow?) && step.w < |s.workers| && WorkerInv(call, s, step.w)
    ensures |Next(call, s, step).workers| == |s.workers| && |Next(call, s, step).slots| == |s.slots|
    ensures WorkerInv(call, Next(call, s, step), step.w)
  {
    hide PartDescribed, ValidCall, SealedPart, SealedBody, PartCount, Supported;
  }

  lemma QuietInv(call: Call, s: Pool, step: Step)
    requires ValidCall(call) && |s.slots| == |call.resumed|
    requires step.w < |s.workers| && WorkerInv(call, s, step.w)
    requires !step.FetchAdd? && !step.Put? && !step.Register? && !step.RegisterThenThrow?
    ensures |Next(call, s, step).workers| == |s.workers| && |Next(call, s, step).slots| == |s.slots|
    ensures WorkerInv(call, Next(call, s, step), step.w)
  {
    hide PartDescribed, ValidCall, SealedPart, SealedBody, PartCount, Supported, Sent;
  }

  lemma FetchInv(call: Call, s: Pool, step: Step)
    requires ValidCall(call) && |s.slots| == |call.resumed| && s.next >= 1
    requires step.FetchAdd? && step.w < |s.workers| && WorkerInv(call, s, step.w)
    requires s.next <= |s.slots| ==> PartInv(call, s, s.next)
    ensures |Next(call, s, step).workers| == |s.workers| && |Next(call, s, step).slots| == |s.slots|
    ensures WorkerInv(call, Next(call, s, step), step.w)
  {
    hide PartDescribed, Supported, PartCount, ValidCall, Settled, Sent, SealedPart, SealedBody;
  }

  lemma PutInv(call: Call, s: Pool, step: Step)
    requires ValidCall(call) && |s.slots| == |call.resumed|
    requires step.Put? && step.w < |s.workers| && WorkerInv(call, s, step.w)
    ensures |Next(call, s, step).workers| == |s.workers| && |Next(call, s, step).slots| == |s.slots|
    ensures WorkerInv(call, Next(call, s, step), step.w)
  {
    var me := s.workers[step.w];
    if me.Working? {
      SealedPartDescribed(call.job, me.part, step.nonces, step.etag);
    }
    hide PartDescribed, Supported, PartCount, ValidCall, Settled, SealedPart, SealedBody, Sound;
  }

  lemma NextPartInv(call: Call, s: Pool, step: Step, n: nat)
    requires ValidCall(call) && |s.slots| == |call.resumed| && s.next >= 1
    requires step.w < |s.workers| && WorkerInv(call, s, step.w)
    requires 1 <= n <= |s.slots| && PartInv(call, s, n)
    ensures |Next(call, s, step).slots| == |s.slots|
    ensures PartInv(call, Next(call, s, step), n)
  {
    hide Next, ValidCall, Untouched, Settled;
    StepFrame(call, s, step);
    if Holds(s.workers[step.w], n) {
      HeldPartInv(call, s, step, n);
    } else {
      StepTouchesOwnPart(call, s, step, n);
      OwnersOf(call, s, step, n);
      SamePartInv(call, s, Next(call, s, step), n);
    }
  }

  lemma SamePartInv(call: Call, s: Pool, s': Pool, n: nat)
    requires ValidCall(call) && 1 <= n <= |s.slots| == |s'.slots| == |call.resumed| && SamePart(s, s', n)
    ensures Untouched(call, s, n) ==> Untouched(call, s', n)
    ensures Settled(call, s, n) ==> Settled(call, s', n)
  {
    hide PartDescribed, ValidCall;
  }

  /** Only fetching hands out a part; any other step leaves a worker with the part it has, or with none. */
  lemma OnlyFetchClaims(call: Call, s: Pool, step: Step, n: nat)
    requires ValidCall(call) && !step.FetchAdd? && step.w < |s.workers|
    ensures var s' := Next(call, s, step);
            && s'.owner == s.owner && s'.next == s.next && step.w < |s'.workers|
            && (Holds(s'.workers[step.w], n) ==> Holds(s.workers[step.w], n))
  {
    hide Effect, Moved, ValidCall;
    var me := s.workers[step.w];
    if Enabled(call, s, me, step) {
      KeepsItsPart(call, s, me, step, n);
      OwnersKept(call, s, me, step);
    }
  }

  lemma KeepsItsPart(call: Call, s: Pool, me: Worker, step: Step, n: nat)
    requires ValidCall(call) && Enabled(call, s, me, step) && !step.FetchAdd?
    ensures Holds(Moved(call, s, me, step), n) ==> Holds(me, n)
  {
    hide ValidCall, SealedPart, PartCount;
  }

  lemma OwnersKept(call: Call, s: Pool, me: Worker, step: Step)
    requires ValidCall(call) && Enabled(call, s, me, step) && !step.FetchAdd?
    ensures Effect(call, s, me, step).owner == s.owner && Effect(call, s, me, step).next == s.next
  {
    hide ValidCall, SealedBody, PartCount;
  }

  lemma FetchOwners(call: Call, s: Pool, step: Step, n: nat)
    requires ValidCall(call) && |s.slots| == |call.resumed| && s.next >= 1
    requires step.FetchAdd? && step.w < |s.workers| && 1 <= n <= |s.slots|
    requires n in s.owner <==> n < s.next
    ensures var s' := Next(call, s, step);
            && step.w < |s'.workers|
            && (n in s'.owner <==> n < s'.next)
            && (n in s.owner ==> n in s'.owner && s'.owner[n] == s.owner[n])
            && (n in s'.owner && n !in s.owner ==> s'.owner[n] == step.w && Holds(s'.workers[step.w], n))
            && (!Holds(s.workers[step.w], n) && Holds(s'.workers[step.w], n) ==> n in s'.owner && n !in s.owner)
  {
    hide PartDescribed, Supported, PartCount, ValidCall, SealedPart, SealedBody;
  }

  lemma OwnersOf(call: Call, s: Pool, step: Step, n: nat)
    requires ValidCall(call) && |s.slots| == |call.resumed| && s.next >= 1
    requires step.w < |s.workers| && 1 <= n <= |s.slots|
    requires n in s.owner <==> n < s.next
    ensures var s' := Next(call, s, step);
            && (n in s'.owner <==> n < s'.next)
            && (n in s.owner ==> n in s'.owner && s'.owner[n] == s.owner[n])
            && (n in s'.owner && n !in s.owner ==> s'.owner[n] == step.w && Holds(s'.workers[step.w], n))
            && (!Holds(s.workers[step.w], n) && Holds(s'.workers[step.w], n) ==> n in s'.owner && n !in s.owner)
  {
    hide Next;
    if step.FetchAdd? {
      FetchOwners(call, s, step, n);
    } else {
      OnlyFetchClaims(call, s, step, n);
    }
  }

  lemma HeldPartInv(call: Call, s: Pool, step: Step, n: nat)
    requires ValidCall(call) && |s.slots| == |call.resumed| && s.next >= 1
    requires step.w < |s.workers| && WorkerInv(call, s, step.w)
    requires 1 <= n <= |s.slots| && PartInv(call, s, n)
    requires Holds(s.workers[step.w], n)
    ensures |Next(call, s, step).slots| == |s.slots|
    ensures PartInv(call, Next(call, s, step), n)
  {
    hide PartDescribed, Supported, PartCount, ValidCall, SealedPart, SealedBody;
    match step
    case LoadStop(_) =>
    case FetchAdd(_) =>
    case ReadSlot(_) =>
    case Put(_, _, _) =>
    case Register(_) =>
    case WriteSlot(_) =>
    case Throw(_, _) =>
    case ThrowAfterPut(_, _, _) =>
    case RegisterThenThrow(_, _) =>
    case RecordError(_) =>
  }

  lemma StopKeepsError(s: Pool, s': Pool, step: Step)
    requires step.w < |s.workers| == |s'.workers|
    requires forall w | 0 <= w < |s.workers| && w != step.w :: s'.workers[w] == s.workers[w]
    requires s'.stop ==> s.stop || s'.workers[step.w].Failing?
    requires s.firstError.Some? ==> s'.firstError.Some?
    requires s.workers[step.w].Failing? && !s'.workers[step.w].Failing? ==> s'.firstError.Some?
    requires s.stop ==> s.firstError.Some? || exists w :: 0 <= w < |s.workers| && s.workers[w].Failing?
    ensures s'.stop ==> s'.firstError.Some? || exists w :: 0 <= w < |s'.workers| && s'.workers[w].Failing?
  {
    if s'.stop && s'.firstError.None? && s.stop {
      var w :| 0 <= w < |s.workers| && s.workers[w].Failing?;
      assert s'.workers[w].Failing?;
    }
  }

  lemma WorkersStay(call: Call, s: Pool, step: Step)
    requires ValidCall(call)
    ensures |Next(call, s, step).workers| == |s.workers|
  {
    hide PartDescribed, Supported, PartCount, ValidCall, SealedPart, SealedBody;
  }

  lemma {:induction false} RunInv(call: Call, s: Pool, steps: seq<Step>)
    requires ValidCall(call) && Inv(call, s)
    ensures Inv(call, Run(call, s, steps))
    ensures |Run(call, s, steps).workers| == |s.workers|
    decreases |steps|
  {
    hide Next, Inv, ValidCall;
    if steps != [] {
      NextInv(call, s, steps[0]);
      WorkersStay(call, s, steps[0]);
      RunInv(call, Next(call, s, steps[0]), steps[1..]);
    }
  }

  // ---------------------------------------------------------------- results

  /**
   * In every reachable state two different workers hold different parts, so no
   * slot is ever read or written by two workers.
   */
  lemma NoSharedSlot(call: Call, concurrency: nat, steps: seq<Step>, w: nat, v: nat, n: nat)
    requires ValidCall(call)
    requires var s := Run(call, Start(call, concurrency), steps);
             w < |s.workers| && v < |s.workers| && Holds(s.workers[w], n) && Holds(s.workers[v], n)
    ensures w == v
  {
    StartInv(call, concurrency);
    RunInv(call, Start(call, concurrency), steps);
    var s := Run(call, Start(call, concurrency), steps);
    assert WorkerInv(call, s, w) && WorkerInv(call, s, v);
  }

  lemma ClaimKept(call: Call, s: Pool, step: Step, n: nat)
    requires ValidCall(call) && Inv(call, s) && 1 <= n <= |s.slots| && n in s.owner
    ensures var s' := Next(call, s, step); |s'.slots| == |s.slots| && n in s'.owner && s'.owner[n] == s.owner[n]
  {
    assert PartInv(call, s, n);
    hide Next, Inv, ValidCall, Untouched, Settled;
    if step.w < |s.workers| {
      StepFrame(call, s, step);
    } else {
      Stutters(call, s, step);
    }
  }

  lemma Stutters(call: Call, s: Pool, step: Step)
    requires ValidCall(call) && step.w >= |s.workers|
    ensures Next(call, s, step) == s
  {
    hide ValidCall, Effect, Moved;
  }

  /** A part number handed to a worker is never handed out again. */
  lemma {:induction false} ClaimedOnce(call: Call, s: Pool, steps: seq<Step>, n: nat)
    requires ValidCall(call) && Inv(call, s) && 1 <= n <= |s.slots| && n in s.owner
    ensures var s' := Run(call, s, steps); n in s'.owner && s'.owner[n] == s.owner[n]
    decreases |steps|
  {
    hide Next, Inv, ValidCall;
    if steps != [] {
      NextInv(call, s, steps[0]);
      ClaimKept(call, s, steps[0], n);
      ClaimedOnce(call, Next(call, s, steps[0]), steps[1..], n);
    }
  }

  predicate Joined(s: Pool) { forall w | 0 <= w < |s.workers| :: s.workers[w].Exited? }

  /**
   * What `uploadParts` returns, for every interleaving. With at least one
   * worker and no recorded error: resumed parts were not sent again, every
   * other part was sent exactly once, and slot i holds the record of what
   * storage holds for part i + 1, with the etag storage answered for it; when
   * multipart, the server was told exactly that slot's hash and etag.
   */
  lemma NormalReturn(call: Call, concurrency: nat, steps: seq<Step>)
    requires ValidCall(call) && concurrency >= 1
    requires var s := Run(call, Start(call, concurrency), steps); Joined(s) && s.firstError.None?
    ensures var s := Run(call, Start(call, concurrency), steps);
            && |s.slots| == PartCount(|call.job.content|)
            && (forall n | 1 <= n <= |s.slots| :: Settled(call, s, n))
            && (forall n | 1 <= n <= |s.slots| ::
                  && n in s.storage && PartDescribed(call.job, n, s.slots[n - 1], s.storage[n])
                  && s.puts[n] == (if call.resumed[n - 1].etag != "" then 0 else 1)
                  && (call.resumed[n - 1].etag == "" ==> n in s.answered && s.slots[n - 1].etag == s.answered[n])
                  && (call.multipart ==>
                        n in s.registered
                        && s.registered[n] == Registration(s.slots[n - 1].uploadHash, s.slots[n - 1].etag)))
  {
    hide Run, Inv, Settled, PartDescribed, PartCount, Joined;
    StartInv(call, concurrency);
    RunInv(call, Start(call, concurrency), steps);
    SettledWhenJoined(call, Run(call, Start(call, concurrency), steps));
  }

  lemma SettledWhenJoined(call: Call, s: Pool)
    requires ValidCall(call) && Inv(call, s)
    requires |s.workers| >= 1 && Joined(s) && s.firstError.None?
    ensures |s.slots| == PartCount(|call.job.content|)
    ensures forall n | 1 <= n <= |s.slots| :: Settled(call, s, n)
    ensures forall n | 1 <= n <= |s.slots| ::
              && n in s.storage && PartDescribed(call.job, n, s.slots[n - 1], s.storage[n])
              && s.puts[n] == (if call.resumed[n - 1].etag != "" then 0 else 1)
              && (call.resumed[n - 1].etag == "" ==> n in s.answered && s.slots[n - 1].etag == s.answered[n])
              && (call.multipart ==>
                    n in s.registered
                    && s.registered[n] == Registration(s.slots[n - 1].uploadHash, s.slots[n - 1].etag))
  {
    assert !s.stop;
    assert WorkerInv(call, s, 0);
    forall n | 1 <= n <= |s.slots|
      ensures Settled(call, s, n) && n in s.storage && PartDescribed(call.job, n, s.slots[n - 1], s.storage[n])
      ensures call.multipart ==> Registered(s, n, s.slots[n - 1])
    {
      hide PartDescribed;
      assert PartInv(call, s, n);
    }
  }

  /** The step is a failure of the worker in state `me`: of preparing, sending, registering or the part callback. */
  predicate Fails(me: Worker, step: Step)
  {
    match step
    case Throw(_, _) => me.Working? || me.Stored?
    case ThrowAfterPut(_, _, _) => me.Working?
    case RegisterThenThrow(_, _) => me.Stored?
    case _ => false
  }

  /** Any failure of any worker, at any point, is recorded and makes the call fail, with the first error recorded. */
  lemma FailureIsReported(call: Call, concurrency: nat, before: seq<Step>, step: Step, after: seq<Step>)
    requires ValidCall(call)
    requires var s := Run(call, Start(call, concurrency), before);
             step.w < |s.workers| && Fails(s.workers[step.w], step)
    requires Joined(Run(call, Start(call, concurrency), before + [step] + after))
    ensures var s := Run(call, Start(call, concurrency), before + [step] + after);
            step.message in s.errors && s.firstError == Some(s.errors[0])
  {
    var s0 := Start(call, concurrency);
    var s1 := Run(call, s0, before);
    StartInv(call, concurrency);
    RunInv(call, s0, before);
    RunConcat(call, s0, before, [step] + after);
    assert before + [step] + after == before + ([step] + after);
    assert ([step] + after)[1..] == after;
    NextInv(call, s1, step);
    StopIsFinal(call, Next(call, s1, step), after);
    RunInv(call, Next(call, s1, step), after);
    MessageIsRecorded(call, Next(call, s1, step), step.w, step.message, after);
  }

  /** What a failing worker threw is recorded before the worker goes on. */
  lemma {:induction false} MessageIsRecorded(call: Call, s: Pool, w: nat, message: string, steps: seq<Step>)
    requires ValidCall(call) && w < |s.workers| && (s.workers[w] == Failing(message) || message in s.errors)
    ensures var s' := Run(call, s, steps);
            w < |s'.workers| && (s'.workers[w] == Failing(message) || message in s'.errors)
    decreases |steps|
  {
    hide ValidCall, SealedPart, SealedBody, PartCount;
    if steps != [] {
      MessageIsRecorded(call, Next(call, s, steps[0]), w, message, steps[1..]);
    }
  }

  /** A failure seen by the worker undoes nothing: storage keeps what it took, and the server what it was told. */
  lemma FailuresUndoNothing(call: Call, s: Pool, w: nat, body: Bytes, message: string)
    requires ValidCall(call) && w < |s.workers|
    ensures s.workers[w].Working? ==>
              var s' := Next(call, s, ThrowAfterPut(w, body, message));
              && s'.workers == s.workers[w := Failing(message)] && s'.stop && s'.slots == s.slots
              && s'.storage == s.storage[s.workers[w].part := body] && s'.registered == s.registered
    ensures s.workers[w].Stored? ==>
              var s' := Next(call, s, RegisterThenThrow(w, message));
              var me := s.workers[w];
              && s'.workers == s.workers[w := Failing(message)] && s'.stop && s'.slots == s.slots
              && s'.storage == s.storage
              && s'.registered == s.registered[me.part := Registration(me.result.uploadHash, me.result.etag)]
    ensures s.workers[w].Working? || s.workers[w].Stored? ==>
              var s' := Next(call, s, Throw(w, message));
              && s'.workers == s.workers[w := Failing(message)] && s'.stop && s'.slots == s.slots
              && s'.storage == s.storage && s'.registered == s.registered
  {
    hide ValidCall, SealedPart, SealedBody, PartCount;
  }

  /** No step of the run is a failure of the worker that makes it. */
  ghost predicate NothingFails(call: Call, s: Pool, steps: seq<Step>)
    requires ValidCall(call)
    decreases |steps|
  {
    steps == []
    || (!(steps[0].w < |s.workers| && Fails(s.workers[steps[0].w], steps[0]))
        && NothingFails(call, Next(call, s, steps[0]), steps[1..]))
  }

  /** Nothing else makes a call fail: an error or a raised stop flag has a failing step behind it. */
  lemma {:induction false} OnlyFailuresFail(call: Call, s: Pool, steps: seq<Step>)
    requires ValidCall(call) && Inv(call, s) && !s.stop && NothingFails(call, s, steps)
    ensures Run(call, s, steps).firstError.None? && !Run(call, s, steps).stop
    decreases |steps|
  {
    hide ValidCall, SealedPart, SealedBody, PartInv;
    if steps != [] {
      NextInv(call, s, steps[0]);
      StaysUnstopped(call, s, steps[0]);
      OnlyFailuresFail(call, Next(call, s, steps[0]), steps[1..]);
    }
  }

  lemma StaysUnstopped(call: Call, s: Pool, step: Step)
    requires ValidCall(call) && Inv(call, s) && !s.stop
    requires step.w < |s.workers| ==> !Fails(s.workers[step.w], step)
    ensures !Next(call, s, step).stop
  {
    hide ValidCall, SealedPart, SealedBody, PartInv, PartCount, Supported;
    if step.w < |s.workers| { assert WorkerInv(call, s, step.w); }
  }

  /** Once the stop flag is up and no worker is past its check, no part is handed out any more. */
  lemma {:induction false} StoppedClaimsNothing(call: Call, s: Pool, steps: seq<Step>)
    requires ValidCall(call) && s.stop && forall w | 0 <= w < |s.workers| :: s.workers[w] != AtFetch
    ensures Run(call, s, steps).owner == s.owner
    decreases |steps|
  {
    hide ValidCall, SealedPart, SealedBody;
    if steps != [] {
      StoppedStep(call, s, steps[0]);
      StoppedClaimsNothing(call, Next(call, s, steps[0]), steps[1..]);
    }
  }

  lemma StoppedStep(call: Call, s: Pool, step: Step)
    requires ValidCall(call) && s.stop && forall w | 0 <= w < |s.workers| :: s.workers[w] != AtFetch
    ensures var s' := Next(call, s, step);
            s'.stop && s'.owner == s.owner && forall w | 0 <= w < |s'.workers| :: s'.workers[w] != AtFetch
  {
    hide ValidCall, SealedPart, SealedBody, PartCount;
  }

  lemma {:induction false} RunConcat(call: Call, s: Pool, a: seq<Step>, b: seq<Step>)
    requires ValidCall(call)
    ensures Run(call, s, a + b) == Run(call, Run(call, s, a), b)
    decreases |a|
  {
    if a == [] {
      assert a + b == b;
    } else {
      assert (a + b)[1..] == a[1..] + b;
      RunConcat(call, Next(call, s, a[0]), a[1..], b);
    }
  }

  lemma {:induction false} StopIsFinal(call: Call, s: Pool, steps: seq<Step>)
    requires ValidCall(call) && s.stop
    ensures Run(call, s, steps).stop
    decreases |steps|
  {
    if steps != [] {
      StopIsFinal(call, Next(call, s, steps[0]), steps[1..]);
    }
  }

  /** The policy starts one worker per part, but no more than six or a positive server cap: the most that allows. */
  lemma ConcurrencyBounds(size: nat, serverCap: int)
    requires size <= MAX_SIZE
    ensures ResolvePartConcurrency(0, serverCap) == 0
    ensures var parts := CreatePlan(size).uploadPartCount;
            var workers := ResolvePartConcurrency(parts, serverCap);
            && 1 <= workers <= 6 && workers <= parts && (serverCap > 0 ==> workers <= serverCap)
            && (workers == 6 || workers == parts || (serverCap > 0 && workers == serverCap))
  {
  }

  // ---------------------------------------------------------------- every run ends

  /** How many steps a worker can still make before it needs another part number. */
  function StepsLeft(worker: Worker): nat
  {
    match worker
    case Claimed(_) => 6
    case Working(_) => 5
    case Stored(_, _) => 4
    case Ready(_, _) => 3
    case Failing(_) => 3
    case AtHead => 2
    case AtFetch => 1
    case Exited => 0
  }

  function AllStepsLeft(workers: seq<Worker>): nat
  {
    if workers == [] then 0 else StepsLeft(workers[0]) + AllStepsLeft(workers[1..])
  }

  /** A bound on what the pool can still do: six steps for every number not handed out, and those of the workers. */
  function Rank(s: Pool): nat
  {
    AllStepsLeft(s.workers) + 6 * (if s.next <= |s.slots| then |s.slots| + 1 - s.next else 0)
  }

  lemma {:induction false} StepsLeftAfter(workers: seq<Worker>, w: nat, me: Worker)
    requires w < |workers|
    ensures AllStepsLeft(workers[w := me]) == AllStepsLeft(workers) - StepsLeft(workers[w]) + StepsLeft(me)
    decreases |workers|
  {
    if w == 0 {
      assert workers[w := me][1..] == workers[1..];
    } else {
      StepsLeftAfter(workers[1..], w - 1, me);
      assert workers[w := me][1..] == workers[1..][w - 1 := me];
    }
  }

  /** The worker `w` can make the step. */
  predicate CanStep(call: Call, s: Pool, step: Step)
  {
    step.w < |s.workers| && Enabled(call, s, s.workers[step.w], step)
  }

  lemma StepUsesRank(call: Call, s: Pool, step: Step)
    requires ValidCall(call) && CanStep(call, s, step)
    ensures Rank(Next(call, s, step)) < Rank(s)
  {
    hide ValidCall, SealedPart, SealedBody, PartCount, AllStepsLeft;
    StepsLeftAfter(s.workers, step.w, Moved(call, s, s.workers[step.w], step));
  }

  /** What a worker does next when nothing fails. */
  function Due(w: nat, me: Worker, nonces: nat -> Nonce, etag: string): Step
  {
    match me
    case AtHead => LoadStop(w)
    case AtFetch => FetchAdd(w)
    case Claimed(_) => ReadSlot(w)
    case Working(_) => Put(w, nonces, etag)
    case Stored(_, _) => Register(w)
    case Ready(_, _) => WriteSlot(w)
    case Failing(_) => RecordError(w)
    case Exited => LoadStop(w)
  }

  /** Every step of the run is one its worker can make. */
  ghost predicate AllMade(call: Call, s: Pool, steps: seq<Step>)
    requires ValidCall(call)
    decreases |steps|
  {
    steps == [] || (CanStep(call, s, steps[0]) && AllMade(call, Next(call, s, steps[0]), steps[1..]))
  }

  /** No worker waits for another: in every reachable state each one that has not left can make its next step. */
  lemma NeverStuck(call: Call, concurrency: nat, steps: seq<Step>, w: nat, nonces: nat -> Nonce, etag: string)
    requires ValidCall(call)
    requires w < |Run(call, Start(call, concurrency), steps).workers|
    ensures var s := Run(call, Start(call, concurrency), steps);
            s.workers[w].Exited? || CanStep(call, s, Due(w, s.workers[w], nonces, etag))
  {
    hide Run, Start, PartInv, Untouched, Sent, Registered, PartCount;
    StartInv(call, concurrency);
    RunInv(call, Start(call, concurrency), steps);
    assert WorkerInv(call, Run(call, Start(call, concurrency), steps), w);
  }

  /**
   * Every run ends: whatever the interleaving, the workers together make at
   * most two steps each and six for every part, so that letting workers step
   * as long as one can leads to the join.
   */
  lemma EveryRunEnds(call: Call, concurrency: nat, steps: seq<Step>)
    requires ValidCall(call) && AllMade(call, Start(call, concurrency), steps)
    ensures |steps| <= 2 * concurrency + 6 * PartCount(|call.job.content|)
  {
    StepsWithinRank(call, Start(call, concurrency), steps);
    StartRank(concurrency);
  }

  lemma {:induction false} StartRank(concurrency: nat)
    ensures AllStepsLeft(seq(concurrency, i => AtHead)) == 2 * concurrency
  {
    if concurrency > 0 {
      StartRank(concurrency - 1);
      assert seq(concurrency, i => AtHead)[1..] == seq(concurrency - 1, i => AtHead);
    }
  }

  lemma {:induction false} StepsWithinRank(call: Call, s: Pool, steps: seq<Step>)
    requires ValidCall(call) && AllMade(call, s, steps)
    ensures |steps| <= Rank(s)
    decreases |steps|
  {
    hide ValidCall, Rank, CanStep, Next;
    if steps != [] {
      StepUsesRank(call, s, steps[0]);
      StepsWithinRank(call, Next(call, s, steps[0]), steps[1..]);
    }
  }
}
