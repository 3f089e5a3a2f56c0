/**
  Export operations share one client with the dispatch loop. Any number of threads may run one at a
  time; flags under one mutex tell whether an operation runs, whether its callback is awaited, and
  whether the loop dispatches events. Every hold of the mutex is one step.
 */
module OperationSync {
  import opened Basics

  /** Events are being dispatched, an operation is in progress, its callback is awaited. */
  datatype Flags = Flags(dispatching: bool, operating: bool, awaiting: bool) {
    predicate Busy() {
      dispatching || awaiting
    }
  }

  /** An operation: its thread, and a number that tells it from the thread's other operations. */
  datatype Ticket = Ticket(thread: nat, serial: nat)

  /** Where a thread is in its operation. */
  datatype Phase =
    | Outside
    | Sleeping                  // waits for the others
    | Reserved(ticket: Ticket)  // may issue its operation
    | Accepted                  // its operation was accepted, it processes events
    | Completing                // before it looks for its callback
    | Awaiting                  // waits for its callback

  datatype Act = Enter | Wake | GiveUp | Fail | Accept | Processed | Exit | Look | Abandon

  datatype Local = Local(flags: Flags, phase: Phase)

  function Reserve(f: Flags, k: Ticket): Local {
    if f.Busy() then Local(f, Sleeping) else Local(f.(awaiting := true), Reserved(k))
  }

  function Cleared(f: Flags): Flags {
    f.(operating := false, awaiting := false)
  }

  /** What one hold of the mutex does; `None` where a thread in this phase does no such thing. */
  function After(f: Flags, p: Phase, a: Act, k: Ticket): Option<Local> {
    match (p, a)
    case (Outside, Enter) => Some(Reserve(f.(operating := true), k))
    case (Sleeping, Wake) => Some(Reserve(f, k))
    case (Sleeping, GiveUp) => Some(Local(f.(operating := false), Outside))
    case (Reserved(_), Fail) => Some(Local(Cleared(f), Outside))
    case (Reserved(_), Accept) => Some(Local(f, Accepted))
    case (Accepted, Processed) => Some(Local(f.(operating := false), Completing))
    case (Accepted, Exit) => Some(Local(Cleared(f), Outside))
    case (Completing, Look) => Some(Local(f, if f.awaiting then Awaiting else Outside))
    case (Awaiting, Look) => Some(Local(f, if f.awaiting then Awaiting else Outside))
    case (Awaiting, Abandon) => Some(Local(f.(awaiting := false), Outside))
    case _ => None
  }

  // ------------------------------------------------------------------ all threads together

  /**
    `open` are the operations that were reserved and have neither failed nor been called back, `due`
    those of them that were accepted, whose callback will come.
   */
  datatype State = State(flags: Flags, phases: map<nat, Phase>, open: set<Ticket>, due: set<Ticket>, serial: nat) {
    function PhaseOf(t: nat): Phase {
      if t in phases then phases[t] else Outside
    }
  }

  datatype Step = Thread(t: nat, act: Act) | Callback(ticket: Ticket) | Dispatch | Dispatched

  predicate Enabled(s: State, step: Step) {
    match step
    case Thread(t, a) => After(s.flags, s.PhaseOf(t), a, Ticket(t, s.serial)).Some?
    case Callback(k) => k in s.due
    case Dispatch => !s.flags.operating && !s.flags.dispatching
    case Dispatched => s.flags.dispatching
  }

  function Opened(s: State, p: Phase, p': Phase, a: Act): set<Ticket> {
    if p'.Reserved? then s.open + {p'.ticket} else if p.Reserved? && a == Fail then s.open - {p.ticket} else s.open
  }

  function Acted(s: State, t: nat, a: Act): State
    requires Enabled(s, Thread(t, a))
  {
    var p := s.PhaseOf(t);
    var l := After(s.flags, p, a, Ticket(t, s.serial)).value;
    State(l.flags, s.phases[t := l.phase], Opened(s, p, l.phase, a),
          if p.Reserved? && a == Accept then s.due + {p.ticket} else s.due, s.serial + 1)
  }

  function Next(s: State, step: Step): State
    requires Enabled(s, step)
  {
    match step
    case Thread(t, a) => Acted(s, t, a)
    case Callback(k) => s.(flags := s.flags.(awaiting := false), open := s.open - {k}, due := s.due - {k})
    case Dispatch => s.(flags := s.flags.(dispatching := true))
    case Dispatched => s.(flags := s.flags.(dispatching := false))
  }

  // ------------------------------------------------------------------ one operation at a time

  /** At most one operation is open, it is accepted or about to be issued by its thread, and the flag tells. */
  ghost predicate Sound(s: State) {
    && (s.flags.awaiting <==> s.open != {})
    && (forall k, k' :: k in s.open && k' in s.open ==> k == k')
    && s.due <= s.open
    && (forall t :: Issuing(s, t))
    && forall k :: k in s.open ==> Underway(s, k)
  }

  /** The callback of the operation is due, or its thread is about to issue it. */
  predicate Underway(s: State, k: Ticket) {
    k in s.due || s.PhaseOf(k.thread) == Reserved(k)
  }

  ghost predicate Issuing(s: State, t: nat) {
    s.PhaseOf(t).Reserved? ==>
      var k := s.PhaseOf(t).ticket;
      k in s.open && k !in s.due && k.thread == t
  }

  /** The flag is cleared although an operation is open: its callback is still to come. */
  predicate Forgets(s: State, step: Step) {
    step.Thread? && (step.act == Exit || step.act == Abandon) && s.open != {}
  }

  ghost predicate StaysSound(s: State, step: Step) {
    Enabled(s, step) ==> Sound(Next(s, step))
  }

  lemma ReserveSound(s: State, t: nat, a: Act)
    requires Sound(s) && (a == Enter || a == Wake)
    ensures StaysSound(s, Thread(t, a))
  {
    if Enabled(s, Thread(t, a)) {
      var n := Next(s, Thread(t, a));
      forall u ensures Issuing(n, u) {
        assert Issuing(s, u);
      }
    }
  }

  lemma IssueSound(s: State, t: nat, a: Act)
    requires Sound(s) && (a == Fail || a == Accept)
    ensures StaysSound(s, Thread(t, a))
  {
    if Enabled(s, Thread(t, a)) {
      var n := Next(s, Thread(t, a));
      assert Issuing(s, t);
      forall u ensures Issuing(n, u) {
        assert Issuing(s, u);
      }
    }
  }

  lemma OtherActSound(s: State, t: nat, a: Act)
    requires Sound(s) && (a == GiveUp || a == Processed || a == Look || ((a == Exit || a == Abandon) && s.open == {}))
    ensures StaysSound(s, Thread(t, a))
  {
    if Enabled(s, Thread(t, a)) {
      var n := Next(s, Thread(t, a));
      assert n.open == s.open && n.due == s.due;
      forall u ensures Issuing(n, u) {
        assert Issuing(s, u);
      }
    }
  }

  lemma CallbackSound(s: State, k: Ticket)
    requires Sound(s)
    ensures StaysSound(s, Callback(k))
  {
    if Enabled(s, Callback(k)) {
      var n := Next(s, Callback(k));
      forall u ensures Issuing(n, u) {
        assert Issuing(s, u);
      }
    }
  }

  lemma DispatchSound(s: State, step: Step)
    requires Sound(s) && (step == Dispatch || step == Dispatched)
    ensures StaysSound(s, step)
  {
    if Enabled(s, step) {
      forall u ensures Issuing(Next(s, step), u) {
        assert Issuing(s, u);
      }
    }
  }

  /** Exactly the steps that clear the flag too early break the protocol. */
  lemma StepSoundIff(s: State, step: Step)
    requires Sound(s) && Enabled(s, step)
    ensures Sound(Next(s, step)) <==> !Forgets(s, step)
  {
    match step
    case Callback(k) => CallbackSound(s, k);
    case Dispatch => DispatchSound(s, step);
    case Dispatched => DispatchSound(s, step);
    case Thread(t, a) =>
      if a == Enter || a == Wake {
        ReserveSound(s, t, a);
      } else if a == Fail || a == Accept {
        IssueSound(s, t, a);
      } else if !Forgets(s, step) {
        OtherActSound(s, t, a);
      }
  }

  const Initial := State(Flags(false, false, false), map[], {}, {}, 0)

  ghost predicate IsRun(run: History<Step>) {
    run.Then? ==> IsRun(run.before) && Enabled(Final(run.before), run.last)
  }

  ghost function Final(run: History<Step>): State {
    if run.Then? && Enabled(Final(run.before), run.last) then Next(Final(run.before), run.last) else Initial
  }

  ghost predicate AlwaysSound(run: History<Step>) {
    Sound(Final(run)) && (run.Then? ==> AlwaysSound(run.before))
  }

  ghost predicate NeverForgets(run: History<Step>) {
    run.Then? ==> NeverForgets(run.before) && !Forgets(Final(run.before), run.last)
  }

  /**
    For any number of threads and every interleaving, the protocol holds throughout a run iff no wait
    for a callback times out and no exit is requested while an operation is open.
   */
  lemma {:induction false} RunSoundIff(run: History<Step>)
    requires IsRun(run)
    ensures AlwaysSound(run) <==> NeverForgets(run)
  {
    if run.Then? {
      RunSoundIff(run.before);
      if AlwaysSound(run.before) {
        StepSoundIff(Final(run.before), run.last);
      }
    }
  }

  lemma AtMostOne(s: set<Ticket>)
    requires forall k, k' :: k in s && k' in s ==> k == k'
    ensures |s| <= 1 && (s != {} ==> |s| == 1)
  {
    if s != {} {
      var k :| k in s;
      assert s == {k};
    }
  }

  /** The flag is set iff exactly one operation is reserved and neither failed nor called back; at most one callback is due. */
  lemma OneOperation(run: History<Step>)
    requires IsRun(run) && NeverForgets(run)
    ensures Final(run).flags.awaiting <==> |Final(run).open| == 1
    ensures |Final(run).open| <= 1 && |Final(run).due| <= 1
  {
    RunSoundIff(run);
    AtMostOne(Final(run).open);
    AtMostOne(Final(run).due);
  }

  // ------------------------------------------------------------------ where the protocol is left

  /** Some run ends in `s`; one that forgets no operation, if `clean`. */
  ghost predicate Reachable(s: State, clean: bool) {
    exists run :: IsRun(run) && Final(run) == s && (clean ==> NeverForgets(run))
  }

  lemma InitialReachable(clean: bool)
    ensures Reachable(Initial, clean)
  {
    assert IsRun(Nothing) && Final(Nothing) == Initial && NeverForgets(Nothing);
  }

  lemma Follow(s: State, step: Step, clean: bool)
    requires Reachable(s, clean) && Enabled(s, step) && (clean ==> !Forgets(s, step))
    ensures Reachable(Next(s, step), clean)
  {
    var before :| IsRun(before) && Final(before) == s && (clean ==> NeverForgets(before));
    var run := Then(before, step);
    assert IsRun(run) && Final(run) == Next(s, step);
  }

  lemma Acts(s: State, t: nat, a: Act, clean: bool) returns (n: State)
    requires Reachable(s, clean) && After(s.flags, s.PhaseOf(t), a, Ticket(t, s.serial)).Some?
    requires clean ==> !Forgets(s, Thread(t, a))
    ensures Reachable(n, clean) && n.serial == s.serial + 1
    ensures var l := After(s.flags, s.PhaseOf(t), a, Ticket(t, s.serial)).value;
      && n.flags == l.flags
      && (forall u: nat :: n.PhaseOf(u) == if u == t then l.phase else s.PhaseOf(u))
      && n.open == Opened(s, s.PhaseOf(t), l.phase, a)
      && n.due == (if s.PhaseOf(t).Reserved? && a == Accept then s.due + {s.PhaseOf(t).ticket} else s.due)
  {
    Follow(s, Thread(t, a), clean);
    n := Next(s, Thread(t, a));
  }

  lemma CallsBack(s: State, k: Ticket, clean: bool) returns (n: State)
    requires Reachable(s, clean) && k in s.due
    ensures Reachable(n, clean) && n.flags == s.flags.(awaiting := false) && n.due == s.due - {k}
    ensures forall u: nat :: n.PhaseOf(u) == s.PhaseOf(u)
  {
    Follow(s, Callback(k), clean);
    n := Next(s, Callback(k));
  }

  /** A thread gets an operation accepted when none is open and no event is dispatched. */
  lemma GetsAccepted(s: State, t: nat, clean: bool) returns (n: State)
    requires Reachable(s, clean) && s.PhaseOf(t) == Outside && !s.flags.Busy()
    ensures Reachable(n, clean) && n.flags == Flags(false, true, true)
    ensures forall u: nat :: n.PhaseOf(u) == if u == t then Accepted else s.PhaseOf(u)
    ensures var k := Ticket(t, s.serial); n.open == s.open + {k} && n.due == s.due + {k}
    ensures n.serial > s.serial
  {
    var m := Acts(s, t, Enter, clean);
    n := Acts(m, t, Accept, clean);
  }

  /** A thread whose operation is accepted looks for its callback in vain. */
  lemma StartsWaiting(s: State, t: nat, clean: bool) returns (n: State)
    requires Reachable(s, clean) && s.PhaseOf(t) == Accepted && s.flags.awaiting
    ensures Reachable(n, clean) && n.flags == s.flags.(operating := false) && n.open == s.open && n.due == s.due
    ensures forall u: nat :: n.PhaseOf(u) == if u == t then Awaiting else s.PhaseOf(u)
  {
    var m := Acts(s, t, Processed, clean);
    n := Acts(m, t, Look, clean);
  }

  /** Thread `t` gets an operation through, and has not yet noticed that its callback has come. */
  lemma CalledBackLate(t: nat) returns (n: State)
    ensures Reachable(n, true) && !n.flags.Busy() && n.due == {}
    ensures forall u: nat :: n.PhaseOf(u) == if u == t then Awaiting else Outside
  {
    InitialReachable(true);
    var s := GetsAccepted(Initial, t, true);
    s := StartsWaiting(s, t, true);
    n := CallsBack(s, Ticket(t, 0), true);
  }

  lemma TimesOut(s: State, t: nat) returns (n: State)
    requires Reachable(s, false) && s.PhaseOf(t) == Awaiting
    ensures Reachable(n, false) && n.flags == s.flags.(awaiting := false) && n.due == s.due && n.serial > s.serial
    ensures forall u: nat :: n.PhaseOf(u) == if u == t then Outside else s.PhaseOf(u)
  {
    n := Acts(s, t, Abandon, false);
  }

  /**
    A thread whose own callback has come can time out on another thread's operation; the flag it clears
    is that operation's, and a third thread gets in: two callbacks are due at once.
   */
  lemma TimeoutLetsTwoIn(t: nat, u: nat, v: nat)
    requires t != u && u != v && v != t
    ensures exists s :: Reachable(s, false) && |s.due| == 2
  {
    var s := CalledBackLate(t);
    assert Reachable(s, false);
    var one := GetsAccepted(s, u, false);
    var two := TimesOut(one, t);
    var three := GetsAccepted(two, v, false);
    assert three.due == {Ticket(u, s.serial), Ticket(v, two.serial)};
  }

  // ------------------------------------------------------------------ operations and the dispatch loop

  predicate InOperation(p: Phase) {
    p.Reserved? || p.Accepted?
  }

  predicate Entered(p: Phase) {
    p.Sleeping? || InOperation(p)
  }

  /** While the thread waits or is in its operation the flag keeps the loop from dispatching. */
  predicate Guarded(s: State, t: nat) {
    && (Entered(s.PhaseOf(t)) ==> s.flags.operating)
    && (InOperation(s.PhaseOf(t)) ==> !s.flags.dispatching)
  }

  ghost predicate AllGuarded(s: State) {
    forall t :: Guarded(s, t)
  }

  /** A thread clears the flag while another one waits or is in its operation. */
  ghost predicate Exposes(s: State, step: Step) {
    && step.Thread? && step.act in {GiveUp, Fail, Processed, Exit}
    && exists u: nat :: u != step.t && Entered(s.PhaseOf(u))
  }

  lemma ThreadGuardedIff(s: State, t: nat, a: Act)
    requires AllGuarded(s) && Enabled(s, Thread(t, a))
    ensures AllGuarded(Next(s, Thread(t, a))) <==> !Exposes(s, Thread(t, a))
  {
    var n := Next(s, Thread(t, a));
    assert Guarded(s, t);
    if Exposes(s, Thread(t, a)) {
      var u: nat :| u != t && Entered(s.PhaseOf(u));
      assert n.PhaseOf(u) == s.PhaseOf(u) && !Guarded(n, u);
    } else {
      forall u ensures Guarded(n, u) {
        assert Guarded(s, u);
        assert u != t ==> n.PhaseOf(u) == s.PhaseOf(u);
      }
    }
  }

  /** The loop starts to dispatch only without the flag, so while nobody waits or is in an operation. */
  lemma LoopGuarded(s: State, step: Step)
    requires AllGuarded(s) && Enabled(s, step) && !step.Thread?
    ensures AllGuarded(Next(s, step))
  {
    forall u ensures Guarded(Next(s, step), u) {
      assert Guarded(s, u);
    }
  }

  /** Exactly the steps that take the flag from another thread break the guard. */
  lemma StepGuardedIff(s: State, step: Step)
    requires AllGuarded(s) && Enabled(s, step)
    ensures AllGuarded(Next(s, step)) <==> !Exposes(s, step)
  {
    if step.Thread? {
      ThreadGuardedIff(s, step.t, step.act);
    } else {
      LoopGuarded(s, step);
    }
  }

  ghost predicate AlwaysGuarded(run: History<Step>) {
    AllGuarded(Final(run)) && (run.Then? ==> AlwaysGuarded(run.before))
  }

  ghost predicate NeverExposes(run: History<Step>) {
    run.Then? ==> NeverExposes(run.before) && !Exposes(Final(run.before), run.last)
  }

  /**
    For any number of threads and every interleaving, the flag guards every thread that waits or is in
    its operation throughout iff no thread ever clears it while another one waits or is in its own.
   */
  lemma {:induction false} RunGuardedIff(run: History<Step>)
    requires IsRun(run)
    ensures AlwaysGuarded(run) <==> NeverExposes(run)
  {
    if run.Then? {
      RunGuardedIff(run.before);
      if AlwaysGuarded(run.before) {
        StepGuardedIff(Final(run.before), run.last);
      }
    } else {
      forall t ensures Guarded(Initial, t) {
      }
    }
  }

  /** Then the loop dispatches no events while any operation runs. */
  lemma GuardExcludesDispatch(run: History<Step>, t: nat)
    requires IsRun(run) && NeverExposes(run) && InOperation(Final(run).PhaseOf(t))
    ensures !Final(run).flags.dispatching
  {
    RunGuardedIff(run);
    assert Guarded(Final(run), t);
  }

  ghost predicate OnlyThread(run: History<Step>, t: nat) {
    run.Then? ==> OnlyThread(run.before, t) && (run.last.Thread? ==> run.last.t == t)
  }

  lemma {:induction false} OthersStayOutside(run: History<Step>, t: nat)
    requires IsRun(run) && OnlyThread(run, t)
    ensures forall u: nat :: u != t ==> Final(run).PhaseOf(u) == Outside
    ensures NeverExposes(run)
  {
    if run.Then? {
      OthersStayOutside(run.before, t);
      forall u: nat | u != t ensures Final(run).PhaseOf(u) == Outside {
        assert Final(run.before).PhaseOf(u) == Outside;
      }
    }
  }

  /** With one thread besides the dispatch loop it never dispatches during an operation. */
  lemma OneThreadExcludesDispatch(run: History<Step>, t: nat)
    requires IsRun(run) && OnlyThread(run, t) && InOperation(Final(run).PhaseOf(t))
    ensures !Final(run).flags.dispatching
  {
    OthersStayOutside(run, t);
    GuardExcludesDispatch(run, t);
  }

  /** `more` goes on from `run` and forgets no operation. */
  ghost predicate Continues(more: History<Step>, run: History<Step>) {
    IsRun(more) && NeverForgets(more) && Extends(more, run)
  }

  lemma GoOn(run: History<Step>, before: History<Step>, step: Step) returns (more: History<Step>)
    requires Continues(before, run) && Enabled(Final(before), step) && !Forgets(Final(before), step)
    ensures Continues(more, run) && Final(more) == Next(Final(before), step)
  {
    more := Then(before, step);
  }

  /** The thread waits or is in its operation without the flag. */
  predicate Exposed(s: State, t: nat) {
    Entered(s.PhaseOf(t)) && !s.flags.operating
  }

  lemma StopDispatching(run: History<Step>, before: History<Step>, t: nat) returns (more: History<Step>)
    requires Continues(before, run) && Exposed(Final(before), t)
    ensures Continues(more, run) && Exposed(Final(more), t) && Final(more).PhaseOf(t) == Final(before).PhaseOf(t)
    ensures !Final(more).flags.dispatching
  {
    more := before;
    if Final(before).flags.dispatching {
      more := GoOn(run, before, Dispatched);
    }
  }

  /** The operation that is open is called back, or fails in its own thread. */
  lemma StopAwaiting(run: History<Step>, before: History<Step>, t: nat) returns (more: History<Step>)
    requires Continues(before, run) && Final(before).PhaseOf(t) == Sleeping && Exposed(Final(before), t)
    requires !Final(before).flags.dispatching
    ensures Continues(more, run) && Final(more).PhaseOf(t) == Sleeping && Exposed(Final(more), t)
    ensures !Final(more).flags.Busy()
  {
    more := before;
    RunSoundIff(before);
    var s := Final(before);
    if s.flags.awaiting {
      var k :| k in s.open;
      assert Underway(s, k);
      if k in s.due {
        more := GoOn(run, before, Callback(k));
      } else {
        more := GoOn(run, before, Thread(k.thread, Fail));
      }
    }
  }

  lemma ThenDispatch(run: History<Step>, before: History<Step>, t: nat) returns (more: History<Step>)
    requires Continues(before, run) && InOperation(Final(before).PhaseOf(t)) && Exposed(Final(before), t)
    ensures Continues(more, run) && Final(more).flags.dispatching && InOperation(Final(more).PhaseOf(t))
  {
    more := before;
    if !Final(before).flags.dispatching {
      more := GoOn(run, before, Dispatch);
    }
  }

  /** The guard is needed: from every run that leaves a thread unguarded, the loop can come to dispatch during its operation. */
  lemma UnguardedOverlaps(run: History<Step>, t: nat) returns (more: History<Step>)
    requires IsRun(run) && NeverForgets(run) && !Guarded(Final(run), t)
    ensures Continues(more, run) && Final(more).flags.dispatching && InOperation(Final(more).PhaseOf(t))
  {
    more := run;
    if !Final(run).flags.operating && Final(run).PhaseOf(t) == Sleeping {
      more := StopDispatching(run, more, t);
      more := StopAwaiting(run, more, t);
      more := GoOn(run, more, Thread(t, Wake));
    }
    if !Final(run).flags.operating {
      more := ThenDispatch(run, more, t);
    }
  }

  /** Thread `u` waits for an operation of thread `t`, which finishes and clears the flag. */
  lemma FlagTaken(t: nat, u: nat) returns (n: State)
    requires t != u
    ensures Reachable(n, true) && n.flags == Flags(false, false, true)
    ensures n.PhaseOf(u) == Sleeping && n.due == {Ticket(t, 0)}
  {
    InitialReachable(true);
    var s := GetsAccepted(Initial, t, true);
    s := Acts(s, u, Enter, true);
    n := Acts(s, t, Processed, true);
  }

  /** Any two threads: the first to finish clears the flag that the second one relies on, and the loop dispatches during its operation. */
  lemma TwoThreadsDoNot(t: nat, u: nat)
    requires t != u
    ensures exists s :: Reachable(s, true) && s.flags.dispatching && InOperation(s.PhaseOf(u))
  {
    var s := FlagTaken(t, u);
    s := CallsBack(s, Ticket(t, 0), true);
    s := Acts(s, u, Wake, true);
    Follow(s, Dispatch, true);
    assert InOperation(Next(s, Dispatch).PhaseOf(u));
  }

  // ------------------------------------------------------------------ the code of one thread

  /** One hold of the mutex: the flags found, what was done, the flags left. */
  datatype Entry = Entry(found: Flags, act: Act, left: Flags)

  /** The phase a thread is in after these holds, if it may make them. */
  function Replayed(log: seq<Entry>, k: Ticket): Option<Phase> {
    if log == [] then Some(Outside) else
      var e := log[|log| - 1];
      var p := Replayed(log[..|log| - 1], k);
      if p.None? then None else
        var l := After(e.found, p.value, e.act, k);
        if l.Some? && l.value.flags == e.left then Some(l.value.phase) else None
  }

  lemma ReplayedAppended(log: seq<Entry>, e: Entry, k: Ticket, p: Phase)
    requires Replayed(log, k) == Some(p)
    ensures Replayed(log + [e], k) ==
      var l := After(e.found, p, e.act, k);
      if l.Some? && l.value.flags == e.left then Some(l.value.phase) else None
  {
    assert (log + [e])[..|log|] == log;
  }

  /** What the other threads and the client do: the flags found at each hold, and after how many wake-ups a wait times out. */
  datatype World = World(found: nat -> Flags, patience: nat, accepts: bool, exits: bool) {
    /** The i-th hold is the first that finds neither events dispatched nor a callback awaited. */
    ghost predicate FreeAt(i: nat) {
      i <= patience && !found(i).Busy() && forall j: nat | j < i :: found(j).Busy()
    }

    ghost predicate NeverFree() {
      forall i: nat | i <= patience :: found(i).Busy()
    }

    /** A hold from the i-th on finds that no callback is awaited, before patience is over. */
    ghost predicate CalledBackFrom(i: nat) {
      exists j :: i <= j <= i + patience && !found(j).awaiting
    }
  }

  /** The shared flags, as one thread uses them; the others change them whenever it does not hold the mutex. */
  class SharedState {
    var flags: Flags
    /** The holds of the running operation. */
    var log: seq<Entry>

    constructor ()
    {
      flags, log := Flags(false, false, false), [];
    }

    predicate EndsWith(a: Act)
      reads this
    {
      log != [] && log[|log| - 1].act == a
    }

    method Lock(w: World)
      modifies this`flags
      ensures flags == w.found(|log|)
    {
      flags := w.found(|log|);
    }

    /** Ends a hold. */
    method Release(found: Flags, a: Act, ghost k: Ticket, ghost p: Phase)
      requires Replayed(log, k) == Some(p)
      requires After(found, p, a, k).Some? && After(found, p, a, k).value.flags == flags
      modifies this`log
      ensures Replayed(log, k) == Some(After(found, p, a, k).value.phase) && EndsWith(a) && |log| == old(|log|) + 1
    {
      ReplayedAppended(log, Entry(found, a, flags), k, p);
      log := log + [Entry(found, a, flags)];
    }

    ghost predicate At(k: Ticket, p: Phase)
      reads this
    {
      Replayed(log, k) == Some(p)
    }

    /** A hold in which the thread enters, or wakes up while it waits for the others. */
    predicate InEntry(found: Flags, a: Act, p: Phase)
      reads this
    {
      (p == Outside && a == Enter && flags == found.(operating := true)) || (p == Sleeping && a == Wake && flags == found)
    }

    /** Waits on the condition: the hold ends, and a new one begins with the flags as they are then. */
    method Sleep(w: World, found: Flags, a: Act, ghost k: Ticket, ghost p: Phase)
      requires At(k, p) && InEntry(found, a, p) && flags.Busy()
      modifies this
      ensures At(k, Sleeping) && |log| == old(|log|) + 1 && flags == w.found(|log|)
    {
      Release(found, a, k, p);
      Lock(w);
    }

    method TakeReservation(found: Flags, a: Act, ghost k: Ticket, ghost p: Phase)
      requires At(k, p) && InEntry(found, a, p) && !flags.Busy()
      modifies this
      ensures At(k, Reserved(k)) && |log| == old(|log|) + 1
    {
      flags := flags.(awaiting := true);
      Release(found, a, k, p);
    }

    method GiveUpEntry(ghost k: Ticket)
      requires At(k, Sleeping)
      modifies this
      ensures At(k, Outside) && EndsWith(GiveUp)
    {
      var found := flags;
      flags := flags.(operating := false);
      Release(found, GiveUp, k, Sleeping);
    }

    /** Reserves the operation at the first hold that finds the others done, or gives up when patience is over. */
    method WaitForOperationsToComplete(w: World, ghost k: Ticket) returns (ok: bool)
      requires log == []
      modifies this
      ensures At(k, if ok then Reserved(k) else Outside)
      ensures if ok then |log| > 0 && w.FreeAt(|log| - 1) else EndsWith(GiveUp) && w.NeverFree()
    {
      Lock(w);
      var found := flags;
      var act, left := Enter, w.patience;
      ghost var p := Outside;
      flags := flags.(operating := true);
      while flags.dispatching || flags.awaiting
        invariant At(k, p) && InEntry(found, act, p)
        invariant found == w.found(|log|) && |log| + left == w.patience
        invariant forall i: nat | i < |log| :: w.found(i).Busy()
        decreases left
      {
        Sleep(w, found, act, k, p);
        p, found, act := Sleeping, flags, Wake;
        if left == 0 {
          GiveUpEntry(k);
          return false;
        }
        left := left - 1;
      }
      TakeReservation(found, act, k, p);
      return true;
    }

    /** Waits on the condition for the callback. */
    method LookAgain(w: World, ghost k: Ticket, ghost p: Phase)
      requires At(k, p) && (p == Completing || p == Awaiting) && flags.awaiting
      modifies this
      ensures At(k, Awaiting) && |log| == old(|log|) + 1 && flags == w.found(|log|)
    {
      Release(flags, Look, k, p);
      Lock(w);
    }

    method SeeCallback(ghost k: Ticket, ghost p: Phase)
      requires At(k, p) && (p == Completing || p == Awaiting) && !flags.awaiting
      modifies this
      ensures At(k, Outside) && EndsWith(Look)
    {
      Release(flags, Look, k, p);
    }

    method AbandonCallback(ghost k: Ticket)
      requires At(k, Awaiting)
      modifies this
      ensures At(k, Outside) && EndsWith(Abandon)
    {
      var found := flags;
      flags := flags.(awaiting := false);
      Release(found, Abandon, k, Awaiting);
    }

    /** Ends at the first hold that finds the callback made, or abandons the wait when patience is over. */
    method WaitForCallbackCompletion(w: World, ghost k: Ticket) returns (ok: bool)
      requires At(k, Completing)
      modifies this
      ensures At(k, Outside) && EndsWith(if ok then Look else Abandon)
      ensures ok <==> w.CalledBackFrom(old(|log|))
    {
      Lock(w);
      var left := w.patience;
      ghost var p, first := Completing, |log|;
      while flags.awaiting
        invariant At(k, p) && (p == Completing || p == Awaiting)
        invariant flags == w.found(|log|) && |log| + left == first + w.patience && first <= |log|
        invariant forall i | first <= i < |log| :: w.found(i).awaiting
        decreases left
      {
        LookAgain(w, k, p);
        p := Awaiting;
        if left == 0 {
          AbandonCallback(k);
          return false;
        }
        left := left - 1;
      }
      SeeCallback(k, p);
      return true;
    }

    method Clear(w: World, a: Act, ghost k: Ticket, ghost p: Phase)
      requires Replayed(log, k) == Some(p) && ((p.Reserved? && a == Fail) || (p.Accepted? && a == Exit))
      modifies this
      ensures Replayed(log, k) == Some(Outside) && EndsWith(a)
    {
      Lock(w);
      var found := flags;
      flags := flags.(operating := false, awaiting := false);
      Release(found, a, k, p);
    }

    /**
      One operation makes exactly the holds that the protocol allows a thread, and returns outside it.
      It succeeds iff the others are done in time, it is accepted, no exit is requested, and its callback
      is seen in time; how it ends otherwise tells which of these failed first.
     */
    method RunSynchronizedOperation(w: World, ghost k: Ticket) returns (ok: bool)
      modifies this
      ensures Replayed(log, k) == Some(Outside)
      ensures ok <==> exists i: nat :: w.FreeAt(i) && w.accepts && !w.exits && w.CalledBackFrom(i + 3)
      ensures ok <==> EndsWith(Look)
      ensures EndsWith(GiveUp) <==> w.NeverFree()
      ensures EndsWith(Fail) <==> !w.NeverFree() && !w.accepts
      ensures EndsWith(Exit) <==> !w.NeverFree() && w.accepts && w.exits
      ensures EndsWith(Look) || EndsWith(Abandon) <==> !w.NeverFree() && w.accepts && !w.exits
    {
      log := [];
      ok := WaitForOperationsToComplete(w, k);
      if !ok {
        return false;
      }
      ghost var i := |log| - 1;
      assert w.FreeAt(i);
      if !w.accepts {
        Clear(w, Fail, k, Reserved(k));
        return false;
      }
      Lock(w);
      Release(flags, Accept, k, Reserved(k));
      if w.exits {
        Clear(w, Exit, k, Accepted);
        return false;
      }
      Lock(w);
      var found := flags;
      flags := flags.(operating := false);
      Release(found, Processed, k, Accepted);
      ok := WaitForCallbackCompletion(w, k);
    }
  }
}
