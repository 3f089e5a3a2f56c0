/**
  Downloads in flight: any number of calls, each with a future on the heap, and the callbacks of the
  blob operations they issued, in any interleaving. A call is named by the address of its future,
  which is also the key and the value of its slot; a freed address may be allocated again.
 */
module BlobProtocol {
  import opened Basics
  import opened SlotMap

  /** Progress of a call; each name says what was done last. */
  datatype Phase = Created | Registered | Marked | Returned | Awaiting | Processing | Discarding

  datatype Result = Uninitialized | Enqueued | Success | Denied | Failure | DataTooLarge

  /** The future of a call. `serial` tells apart the futures that share an address one after another. */
  datatype Future = Future(serial: nat, phase: Phase, result: Result, timedOut: bool)

  /** Why a callback comes: the operation is done, the client exits, or anything else. */
  datatype Reason = Done | Exiting | Other

  /** What a call returns. */
  datatype Answer = Timeout | Of(result: Result)

  /** A blob operation that was issued and has not called back. */
  datatype Operation = Operation(key: Pointer, serial: nat)

  /** `fault` records that a callback missed its own future, or that a future was freed before its callback. */
  datatype State = State(slots: seq<Elem>, live: map<Pointer, Future>, outstanding: set<Operation>,
                         leaked: multiset<Pointer>, allocations: nat, frees: nat, fault: bool)

  datatype Step =
    | Allocate(a: Pointer)
    | ShortCut(a: Pointer, found: bool)              // no workspace, or the local file already matches
    | Register(a: Pointer)
    | Mark(a: Pointer)
    | Issue(a: Pointer, ok: bool)
    | ReadResult(a: Pointer)
    | Wait(a: Pointer, timedOut: bool)               // on the condition, by a thread that is not the main one
    | Process(a: Pointer)                            // the main thread unlocks and processes events
    | Resume(a: Pointer)                             // and locks again
    | ShouldExit(a: Pointer)                         // or is told to stop, and does not look at the result again
    | Leave(a: Pointer)
    | Discard(a: Pointer)
    | Callback(op: Operation, reason: Reason)

  function Initial(): State {
    State(seq(CAPACITY, _ => EMPTY), map[], {}, multiset{}, 0, 0, false)
  }

  predicate At(s: State, a: Pointer, p: Phase) {
    a in s.live && s.live[a].phase == p
  }

  predicate Enabled(s: State, step: Step) {
    match step
    case Allocate(a) => a != NULL && a !in s.live
    case ShortCut(a, _) => At(s, a, Created)
    case Register(a) => At(s, a, Created)
    case Mark(a) => At(s, a, Registered)
    case Issue(a, _) => At(s, a, Marked)
    case ReadResult(a) => At(s, a, Returned)
    case Wait(a, _) => At(s, a, Awaiting) && s.live[a].result == Enqueued
    case Process(a) => At(s, a, Awaiting) && s.live[a].result == Enqueued
    case Resume(a) => At(s, a, Processing)
    case ShouldExit(a) => At(s, a, Processing)
    case Leave(a) => At(s, a, Awaiting) && s.live[a].result != Enqueued
    case Discard(a) => At(s, a, Discarding)
    case Callback(op, reason) => op in s.outstanding
  }

  function Put(s: State, a: Pointer, f: Future): State {
    s.(live := s.live[a := f])
  }

  /** The future is freed; a fault if its operation is still outstanding. */
  function Free(s: State, a: Pointer): State
    requires a in s.live
  {
    s.(live := s.live - {a}, frees := s.frees + 1,
       fault := s.fault || Operation(a, s.live[a].serial) in s.outstanding)
  }

  function ResultOf(reason: Reason): Result {
    match reason
    case Done => Success
    case Exiting => Denied
    case Other => Failure
  }

  function Apply(s: State, step: Step): State
    requires Enabled(s, step)
  {
    match step
    case Allocate(a) =>
      Put(s, a, Future(s.allocations, Created, Uninitialized, false)).(allocations := s.allocations + 1)
    case ShortCut(a, found) =>
      Put(s, a, s.live[a].(phase := Returned, result := if found then Success else Uninitialized))
    case Register(a) =>
      if Full(s.slots) then Put(s, a, s.live[a].(phase := Returned, result := DataTooLarge))
      else Put(s, a, s.live[a].(phase := Registered)).(slots := WithSet(s.slots, a, a))
    case Mark(a) =>
      Put(s, a, s.live[a].(phase := Marked, result := Enqueued))
    case Issue(a, ok) =>
      if ok then
        Put(s, a, s.live[a].(phase := Returned)).(outstanding := s.outstanding + {Operation(a, s.live[a].serial)})
      else
        Put(s, a, s.live[a].(phase := Returned, result := Failure)).(leaked := s.leaked + multiset{a})
    case ReadResult(a) =>
      Put(s, a, s.live[a].(phase := if s.live[a].result in {Failure, DataTooLarge, Denied} then Discarding else Awaiting))
    case Wait(a, timedOut) =>
      Put(s, a, s.live[a].(timedOut := timedOut))
    case Process(a) => Put(s, a, s.live[a].(phase := Processing))
    case Resume(a) => Put(s, a, s.live[a].(phase := Awaiting))
    case ShouldExit(a) => Free(s, a)
    case Leave(a) => Free(s, a)
    case Discard(a) => Free(s, a)
    case Callback(op, reason) =>
      var v := Found(s.slots, op.key);
      var t := s.(slots := WithPopped(s.slots, op.key), outstanding := s.outstanding - {op});
      if v in s.live && s.live[v].serial == op.serial then Put(t, v, s.live[v].(result := ResultOf(reason)))
      else t.(fault := true)
  }

  // ------------------------------------------------------------------ the invariant

  /** The slot of the call is in use and will be popped by its callback. */
  predicate Pending(s: State, a: Pointer) {
    && a in s.live
    && (s.live[a].phase in {Registered, Marked} || Operation(a, s.live[a].serial) in s.outstanding)
  }

  function PendingCalls(s: State): set<Pointer> {
    set a | a in s.live && Pending(s, a)
  }

  /** What the result of a future says in each phase. */
  predicate FutureOk(s: State, a: Pointer)
    requires a in s.live
  {
    var f := s.live[a];
    && f.serial < s.allocations
    && (f.phase.Created? || f.phase.Registered? ==> f.result == Uninitialized)
    && (f.phase.Marked? ==> f.result == Enqueued)
    && (f.phase.Discarding? ==> f.result != Enqueued)
    && (Operation(a, f.serial) in s.outstanding <==> (f.phase.Returned? || f.phase.Awaiting? || f.phase.Processing?) && f.result == Enqueued)
  }

  predicate SelfKeyed(slots: seq<Elem>) {
    forall i | 0 <= i < |slots| :: slots[i].value == slots[i].key
  }

  predicate Invariant(s: State) {
    && !s.fault && |s.slots| == CAPACITY && SelfKeyed(s.slots)
    && NULL !in s.live && NULL !in s.leaked
    && (forall a | a in s.live :: FutureOk(s, a))
    && (forall op | op in s.outstanding :: op.key in s.live && s.live[op.key].serial == op.serial)
    && Used(s.slots) == s.leaked + multiset(PendingCalls(s))
    && |s.live.Keys| + s.frees == s.allocations
  }

  lemma InitialInvariant()
    ensures Invariant(Initial())
  {
    assert Keys(Initial().slots) == seq(CAPACITY, _ => NULL);
    AllNull(CAPACITY);
    assert PendingCalls(Initial()) == {};
  }

  lemma {:induction false} AllNull(n: nat)
    ensures multiset(seq(n, _ => NULL))[NULL := 0] == multiset{}
  {
    if n != 0 {
      AllNull(n - 1);
      assert seq(n, _ => NULL) == seq(n - 1, _ => NULL) + [NULL];
    }
  }

  // ------------------------------------------------------------------ every step keeps it

  /** A step that changes neither slots nor operations, and leaves the call waiting for its callback or not as before. */
  lemma QuietStep(s: State, a: Pointer, f: Future)
    requires Invariant(s) && a in s.live && f.serial == s.live[a].serial
    requires FutureOk(Put(s, a, f), a)
    requires Pending(s, a) == Pending(Put(s, a, f), a)
    ensures Invariant(Put(s, a, f))
  {
    var t := Put(s, a, f);
    assert t.live.Keys == s.live.Keys;
    forall b | b in t.live && b != a
      ensures FutureOk(t, b) && Pending(t, b) == Pending(s, b)
    {
      assert FutureOk(s, b);
    }
    assert PendingCalls(t) == PendingCalls(s);
  }

  lemma AllocateKeeps(s: State, a: Pointer)
    requires Invariant(s) && Enabled(s, Allocate(a))
    ensures Invariant(Apply(s, Allocate(a)))
  {
    var t := Apply(s, Allocate(a));
    assert t.live.Keys == s.live.Keys + {a};
    assert Operation(a, s.allocations) !in s.outstanding;
    forall b | b in t.live && b != a
      ensures FutureOk(t, b) && Pending(t, b) == Pending(s, b)
    {
      assert FutureOk(s, b);
    }
    assert PendingCalls(t) == PendingCalls(s);
  }

  lemma RegisterKeeps(s: State, a: Pointer)
    requires Invariant(s) && Enabled(s, Register(a))
    ensures Invariant(Apply(s, Register(a)))
  {
    assert FutureOk(s, a);
    if Full(s.slots) {
      QuietStep(s, a, s.live[a].(phase := Returned, result := DataTooLarge));
    } else {
      var t := Apply(s, Register(a));
      assert t.live.Keys == s.live.Keys;
      forall b | b in t.live && b != a
        ensures FutureOk(t, b) && Pending(t, b) == Pending(s, b)
      {
        assert FutureOk(s, b);
      }
      assert PendingCalls(t) == PendingCalls(s) + {a} && a !in PendingCalls(s);
      SetAddsKey(s.slots, a, a);
    }
  }

  lemma IssueKeeps(s: State, a: Pointer, ok: bool)
    requires Invariant(s) && Enabled(s, Issue(a, ok))
    ensures Invariant(Apply(s, Issue(a, ok)))
  {
    var t := Apply(s, Issue(a, ok));
    assert FutureOk(s, a);
    assert t.live.Keys == s.live.Keys;
    forall b | b in t.live && b != a
      ensures FutureOk(t, b) && Pending(t, b) == Pending(s, b)
    {
      assert FutureOk(s, b);
    }
    if ok {
      assert PendingCalls(t) == PendingCalls(s);
    } else {
      assert PendingCalls(t) == PendingCalls(s) - {a} && a in PendingCalls(s);
    }
  }

  lemma FreeKeeps(s: State, a: Pointer)
    requires Invariant(s) && a in s.live && !Pending(s, a)
    ensures Invariant(Free(s, a))
  {
    var t := Free(s, a);
    assert FutureOk(s, a);
    assert t.live.Keys == s.live.Keys - {a};
    forall b | b in t.live
      ensures FutureOk(t, b) && Pending(t, b) == Pending(s, b)
    {
      assert FutureOk(s, b);
    }
    assert PendingCalls(t) == PendingCalls(s);
  }

  /** The callback pops its own slot and finds its own future. */
  lemma CallbackFinds(s: State, op: Operation)
    requires Invariant(s) && op in s.outstanding
    ensures Found(s.slots, op.key) == op.key && op.key in s.live && s.live[op.key].serial == op.serial
    ensures Used(WithPopped(s.slots, op.key)) == Used(s.slots) - multiset{op.key} && op.key in Used(s.slots)
  {
    assert Pending(s, op.key);
    assert op.key in PendingCalls(s);
    assert op.key in Used(s.slots);
    PopRemovesKey(s.slots, op.key);
  }

  lemma CallbackKeeps(s: State, op: Operation, reason: Reason)
    requires Invariant(s) && Enabled(s, Callback(op, reason))
    ensures Invariant(Apply(s, Callback(op, reason)))
  {
    CallbackFinds(s, op);
    var a, t := op.key, Apply(s, Callback(op, reason));
    assert FutureOk(s, a);
    assert t.live.Keys == s.live.Keys;
    forall b | b in t.live && b != a
      ensures FutureOk(t, b) && Pending(t, b) == Pending(s, b)
    {
      assert FutureOk(s, b);
    }
    assert PendingCalls(t) == PendingCalls(s) - {a} && a in PendingCalls(s);
  }

  /** The main thread is told to stop before the callback of its operation has come. */
  predicate Premature(s: State, step: Step) {
    step.ShouldExit? && At(s, step.a, Processing) && s.live[step.a].result == Enqueued
  }

  /** Every step but a premature shutdown keeps the invariant. */
  lemma StepKeeps(s: State, step: Step)
    requires Invariant(s) && Enabled(s, step) && !Premature(s, step)
    ensures Invariant(Apply(s, step))
  {
    match step
    case Allocate(a) => AllocateKeeps(s, a);
    case Register(a) => RegisterKeeps(s, a);
    case Issue(a, ok) => IssueKeeps(s, a, ok);
    case Callback(op, reason) => CallbackKeeps(s, op, reason);
    case ShouldExit(a) => EndKeeps(s, step, a);
    case Leave(a) => EndKeeps(s, step, a);
    case Discard(a) => EndKeeps(s, step, a);
    case ShortCut(a, found) => QuietKeeps(s, step, a);
    case Mark(a) => QuietKeeps(s, step, a);
    case ReadResult(a) => QuietKeeps(s, step, a);
    case Wait(a, timedOut) => QuietKeeps(s, step, a);
    case Process(a) => QuietKeeps(s, step, a);
    case Resume(a) => QuietKeeps(s, step, a);
  }

  lemma EndKeeps(s: State, step: Step, a: Pointer)
    requires Invariant(s) && Enabled(s, step) && !Premature(s, step)
    requires step in {ShouldExit(a), Leave(a), Discard(a)}
    ensures Invariant(Apply(s, step))
  {
    assert FutureOk(s, a);
    FreeKeeps(s, a);
  }

  lemma QuietKeeps(s: State, step: Step, a: Pointer)
    requires Invariant(s) && Enabled(s, step)
    requires step.ShortCut? || step.Mark? || step.ReadResult? || step.Wait? || step.Process? || step.Resume?
    requires a == step.a
    ensures Invariant(Apply(s, step))
  {
    assert FutureOk(s, a);
    QuietStep(s, a, Apply(s, step).live[a]);
  }

  /** A shutdown frees a future whose operation is outstanding iff the result was still to come. */
  lemma ShouldExitFaultsIff(s: State, a: Pointer)
    requires Invariant(s) && Enabled(s, ShouldExit(a))
    ensures Apply(s, ShouldExit(a)).fault <==> s.live[a].result == Enqueued
  {
    assert FutureOk(s, a);
  }

  // ------------------------------------------------------------------ runs

  /** The state after the steps; a step that is not enabled is left out. */
  function Final(t: History<Step>): State {
    if t.Nothing? then Initial()
    else if Enabled(Final(t.before), t.last) then Apply(Final(t.before), t.last)
    else Final(t.before)
  }

  /** Every step was enabled. */
  predicate IsRun(t: History<Step>) {
    t.Then? ==> IsRun(t.before) && Enabled(Final(t.before), t.last)
  }

  predicate EverPremature(t: History<Step>) {
    t.Then? && (EverPremature(t.before) || Premature(Final(t.before), t.last))
  }

  lemma FaultStays(s: State, step: Step)
    requires Enabled(s, step) && s.fault
    ensures Apply(s, step).fault
  {
  }

  /**
    In every interleaving of any number of calls, their waits, their callbacks and shutdowns, with the
    map full or not and operations refused or not: each callback finds its own live future and each
    future is freed only after its callback, exactly when no main thread stopped waiting for a result
    that was still to come.
   */
  lemma {:induction false} FaultlessIffNonePremature(t: History<Step>)
    requires IsRun(t)
    ensures EverPremature(t) <==> Final(t).fault
    ensures !EverPremature(t) ==> Invariant(Final(t))
  {
    if t.Nothing? {
      InitialInvariant();
    } else {
      var s := Final(t.before);
      FaultlessIffNonePremature(t.before);
      if EverPremature(t.before) {
        FaultStays(s, t.last);
      } else if Premature(s, t.last) {
        ShouldExitFaultsIff(s, t.last.a);
      } else {
        StepKeeps(s, t.last);
      }
    }
  }

  /**
    The slots in use are the pending calls and one per operation that was ever refused; a call is
    turned away exactly when these are all the slots.
   */
  lemma SlotsInUse(t: History<Step>)
    requires IsRun(t) && !EverPremature(t)
    ensures var s := Final(t);
            && |Used(s.slots)| == |PendingCalls(s)| + |s.leaked| <= CAPACITY
            && (Full(s.slots) <==> |PendingCalls(s)| + |s.leaked| == CAPACITY)
  {
    FaultlessIffNonePremature(t);
    FullIff(Final(t).slots);
  }

  /** When no call is in progress nothing is outstanding, and every future allocated was freed. */
  lemma Quiescence(t: History<Step>)
    requires IsRun(t) && !EverPremature(t) && Final(t).live == map[]
    ensures var s := Final(t);
            s.outstanding == {} && s.frees == s.allocations && Used(s.slots) == s.leaked
  {
    FaultlessIffNonePremature(t);
    var s := Final(t);
    assert PendingCalls(s) == {};
  }

  // ------------------------------------------------------------------ what a call returns

  /** The last wait of the call that now has its future at `a` ended by time-out. */
  predicate LastWaitTimedOut(t: History<Step>, a: Pointer) {
    t.Then? &&
      if t.last == Allocate(a) then false
      else if t.last.Wait? && t.last.a == a then t.last.timedOut
      else LastWaitTimedOut(t.before, a)
  }

  lemma {:induction false} TimeOutRemembered(t: History<Step>, a: Pointer)
    requires IsRun(t) && a in Final(t).live
    ensures Final(t).live[a].timedOut == LastWaitTimedOut(t, a)
  {
    if t.last != Allocate(a) {
      StepForgetsNoTimeOut(Final(t.before), t.last, a);
      if a in Final(t.before).live {
        TimeOutRemembered(t.before, a);
      }
    }
  }

  /** Only a wait of the call itself changes what is remembered. */
  lemma StepForgetsNoTimeOut(s: State, step: Step, a: Pointer)
    requires Enabled(s, step) && a in Apply(s, step).live && step != Allocate(a)
    ensures a in s.live
    ensures var after := Apply(s, step).live[a].timedOut;
      if step.Wait? && step.a == a then after == step.timedOut else after == s.live[a].timedOut
  {
  }

  /** The step decides on the result of the call at `a`: an early end, a full map, a refusal, or the callback. */
  predicate Decides(s: State, step: Step, a: Pointer) {
    || (step.ShortCut? && step.a == a)
    || (step.Register? && step.a == a && Full(s.slots))
    || (step.Issue? && step.a == a && !step.ok)
    || (step.Callback? && step.op.key == a)
  }

  /** The step that last decided on the result of the call that now has its future at `a`. */
  function Decision(t: History<Step>, a: Pointer): Option<Step> {
    if t.Nothing? || t.last == Allocate(a) then None
    else if Decides(Final(t.before), t.last, a) then Some(t.last)
    else Decision(t.before, a)
  }

  /** What the result of a future is after these decisions, and which calls wait and which are discarded. */
  predicate ResultFollows(f: Future, d: Option<Step>) {
    && (f.phase.Awaiting? || f.phase.Processing? ==> d.None? || d.value.Callback? || d.value.ShortCut?)
    && (f.phase.Discarding? ==> f.result == Failure || f.result == DataTooLarge || f.result == Denied)
    && (d.Some? ==> d.value.ShortCut? || d.value.Register? || d.value.Issue? || d.value.Callback?)
    && (d.None? ==> f.result == if f.phase.Created? || f.phase.Registered? then Uninitialized else Enqueued)
    && (d.Some? ==> !f.phase.Created? && !f.phase.Registered? && !f.phase.Marked?)
    && (d.Some? && d.value.ShortCut? ==> f.result == if d.value.found then Success else Uninitialized)
    && (d.Some? && d.value.Register? ==> f.result == DataTooLarge)
    && (d.Some? && d.value.Issue? ==> f.result == Failure)
    && (d.Some? && d.value.Callback? ==>
          f.result == if d.value.reason == Done then Success else if d.value.reason == Exiting then Denied else Failure)
  }

  lemma DecidedBy(s: State, step: Step, a: Pointer)
    requires Invariant(s) && Enabled(s, step) && Decides(s, step, a) && a in s.live && a in Apply(s, step).live
    ensures ResultFollows(Apply(s, step).live[a], Some(step))
  {
    assert FutureOk(s, a);
    if step.Callback? {
      CallbackFinds(s, step.op);
    }
  }

  lemma NotDecidedBy(s: State, step: Step, a: Pointer, d: Option<Step>)
    requires Invariant(s) && Enabled(s, step) && !Decides(s, step, a) && a in s.live && a in Apply(s, step).live
    requires step != Allocate(a) && ResultFollows(s.live[a], d)
    ensures ResultFollows(Apply(s, step).live[a], d)
  {
    if step.Callback? {
      CallbackFinds(s, step.op);
    }
  }

  /** Over every run, the result of a call is the one that its last decision gives. */
  lemma {:induction false} ResultIsDecided(t: History<Step>, a: Pointer)
    requires IsRun(t) && !EverPremature(t) && a in Final(t).live
    ensures ResultFollows(Final(t).live[a], Decision(t, a))
  {
    var s := Final(t.before);
    FaultlessIffNonePremature(t.before);
    if t.last != Allocate(a) {
      StepForgetsNoTimeOut(s, t.last, a);
      if Decides(s, t.last, a) {
        DecidedBy(s, t.last, a);
      } else {
        ResultIsDecided(t.before, a);
        NotDecidedBy(s, t.last, a, Decision(t.before, a));
      }
    }
  }

  /** What a call that ends with this step returns: a time-out of its last wait counts for more than the result. */
  function Returns(s: State, step: Step): Answer
    requires Enabled(s, step) && (step.Leave? || step.ShouldExit? || step.Discard?)
  {
    var f := s.live[step.a];
    if !step.Discard? && f.timedOut then Timeout else Of(if step.ShouldExit? then Failure else f.result)
  }

  /**
    A call that leaves its wait after the callback returns what the reason of the callback says, unless
    its last wait timed out: then it returns `Timeout`. It leaves only after its callback, or if it ended
    early, with the file already there or without a workspace.
   */
  lemma AnswerOfWait(t: History<Step>, a: Pointer)
    requires IsRun(t) && !EverPremature(t) && Enabled(Final(t), Leave(a))
    ensures var d, answer := Decision(t, a), Returns(Final(t), Leave(a));
      && d.Some? && (d.value.Callback? || d.value.ShortCut?)
      && (LastWaitTimedOut(t, a) <==> answer == Timeout)
      && (answer != Timeout && d.value.Callback? ==>
            answer == Of(if d.value.reason == Done then Success else if d.value.reason == Exiting then Denied else Failure))
      && (answer != Timeout && d.value.ShortCut? ==> answer == Of(if d.value.found then Success else Uninitialized))
  {
    TimeOutRemembered(t, a);
    ResultIsDecided(t, a);
  }

  /** A call is discarded, without a wait, for a full map, a refused operation, or a callback other than `Done`. */
  lemma AnswerOfDiscard(t: History<Step>, a: Pointer)
    requires IsRun(t) && !EverPremature(t) && Enabled(Final(t), Discard(a))
    ensures var d, answer := Decision(t, a), Returns(Final(t), Discard(a));
      && d.Some?
      && (d.value.Register? <==> answer == Of(DataTooLarge))
      && (d.value.Issue? ==> answer == Of(Failure))
      && (d.value.Callback? ==> d.value.reason != Done && answer == Of(if d.value.reason == Exiting then Denied else Failure))
      && (d.value.Register? || d.value.Issue? || d.value.Callback?)
  {
    ResultIsDecided(t, a);
  }

  /** A shutdown answers `Failure`, whatever the result is, but for the same exception. */
  lemma AnswerOfShutdown(t: History<Step>, a: Pointer)
    requires IsRun(t) && Enabled(Final(t), ShouldExit(a))
    ensures Returns(Final(t), ShouldExit(a)) == if LastWaitTimedOut(t, a) then Timeout else Of(Failure)
  {
    TimeOutRemembered(t, a);
  }

  // ------------------------------------------------------------------ the finite map

  function Refusals(t: History<Step>): nat {
    if t.Nothing? then 0 else Refusals(t.before) + if t.last.Issue? && !t.last.ok then 1 else 0
  }

  lemma LeakedOnRefusal(s: State, step: Step)
    requires Enabled(s, step)
    ensures Apply(s, step).leaked == s.leaked + if step.Issue? && !step.ok then multiset{step.a} else multiset{}
  {
  }

  /** A slot is left in use for every operation refused, and for nothing else. */
  lemma {:induction false} LeaksPerRefusal(t: History<Step>)
    requires IsRun(t)
    ensures |Final(t).leaked| == Refusals(t)
  {
    if t.Then? {
      LeaksPerRefusal(t.before);
      LeakedOnRefusal(Final(t.before), t.last);
    }
  }

  /** The slots are the map from the pending calls to their futures, each key once. */
  predicate IsMapOfCalls(slots: seq<Elem>, calls: set<Pointer>) {
    DistinctKeys(slots) && AsMap(slots) == map a | a in calls :: a
  }

  /** The slots are a finite map from the pending calls to their futures iff no operation was ever refused. */
  lemma SlotsAreMapIff(t: History<Step>)
    requires IsRun(t) && !EverPremature(t)
    ensures IsMapOfCalls(Final(t).slots, PendingCalls(Final(t))) <==> Refusals(t) == 0
  {
    FaultlessIffNonePremature(t);
    LeaksPerRefusal(t);
    var s := Final(t);
    if Refusals(t) == 0 {
      UniqueSlots(s.slots, PendingCalls(s));
    }
    if IsMapOfCalls(s.slots, PendingCalls(s)) {
      MapOfCallsSize(s.slots, PendingCalls(s));
    }
  }

  lemma MapOfCallsSize(slots: seq<Elem>, calls: set<Pointer>)
    requires IsMapOfCalls(slots, calls)
    ensures |Used(slots)| == |calls|
  {
    MapSize(slots);
    assert AsMap(slots).Keys == calls;
  }

  lemma UniqueSlots(slots: seq<Elem>, keys: set<Pointer>)
    requires SelfKeyed(slots) && Used(slots) == multiset(keys)
    ensures IsMapOfCalls(slots, keys)
  {
    forall i, j | 0 <= i < j < |slots| && slots[i].key != NULL
      ensures slots[i].key != slots[j].key
    {
      if slots[i].key == slots[j].key {
        TwiceInUse(slots, i, j);
      }
    }
    forall a
      ensures a in AsMap(slots) <==> a in keys
      ensures a in AsMap(slots) ==> AsMap(slots)[a] == a
    {
      Lookup(slots, a);
      OccursIff(slots, a);
      assert a in Used(slots) <==> a in keys;
    }
  }

  lemma TwiceInUse(s: seq<Elem>, i: nat, j: nat)
    requires i < j < |s| && s[i].key == s[j].key != NULL
    ensures Used(s)[s[i].key] >= 2
  {
    var k := Keys(s);
    assert k == k[..j] + [k[j]] + k[j + 1..];
    assert k[..j][i] == k[i];
    assert k[i] in multiset(k[..j]);
    assert multiset(k)[k[i]] == multiset(k[..j])[k[i]] + 1 + multiset(k[j + 1..])[k[i]];
  }
}
