/**
  The main loop of an edge application: it iterates the current state, enters the requested one, and
  reports. What the states do in between, they do through the context's operations.
 */
module StateMachine {
  import opened Basics

  datatype State = Creating | Idle | Running | Destroying | Exiting | CoolingDown | Applying {
    /** The states that are told to the cloud as the process state. */
    predicate Reportable() {
      Idle? || Running?
    }
  }

  predicate IsFeasibleTransition(from: State, to: State) {
    match from
    case Creating => to.Creating? || to.Running? || to.Destroying?
    case Idle => to.Idle? || to.Running? || to.Destroying? || to.Applying?
    case Running => to.Idle? || to.Running? || to.Destroying? || to.CoolingDown? || to.Applying?
    case Destroying => to.Destroying? || to.Exiting?
    case Exiting => to.Exiting?
    case CoolingDown => to.Destroying? || to.CoolingDown?
    case Applying => to.Idle? || to.Running? || to.Destroying?
  }

  /** There is no object for the state `Exiting`. */
  function Created(s: State): Option<State> {
    if s == Exiting then None else Some(s)
  }

  // ------------------------------------------------------------------ specification

  /** `process` is the process state of the device model, `reports` what was sent to the cloud. */
  datatype Context = Context(current: Option<State>, next: State, pending: bool, process: State, reports: seq<State>)

  /** What a state or a callback does to the context. */
  datatype Action = SetNext(s: State) | Request(s: State) | Notify | Report

  /** A request is refused if it is infeasible, and changes nothing if it is what comes next anyway. */
  predicate Refused(c: Context, s: State)
    requires c.current.Some?
  {
    s != c.next && !IsFeasibleTransition(c.current.value, s)
  }

  function Updated(c: Context, s: State): Context
    requires c.current.Some?
  {
    if s == c.next || Refused(c, s) then c else c.(next := s, pending := true)
  }

  function Requested(c: Context, s: State): Context
    requires c.current.Some?
  {
    if !Refused(c, s) && s.Reportable() then Updated(c, s).(process := s) else Updated(c, s)
  }

  function Sent(c: Context): Context {
    c.(reports := c.reports + [c.process])
  }

  function Acted(c: Context, a: Action): (r: Context)
    requires c.current.Some?
    ensures r.current == c.current
  {
    match a
    case SetNext(s) => c.(next := s)
    case Request(s) => Requested(c, s)
    case Notify => c.(pending := true)
    case Report => Sent(c)
  }

  function Performed(c: Context, actions: seq<Action>): (r: Context)
    requires c.current.Some?
    ensures r.current == c.current
  {
    if actions == [] then c else Acted(Performed(c, actions[..|actions| - 1]), actions[|actions| - 1])
  }

  /** The next state becomes the current one, unless the machine is to be destroyed. */
  function Entered(c: Context, s: Option<State>): Context
    requires c.current.Some?
  {
    var d := c.(current := s);
    if s.None? || d.next == Destroying then d
    else if s.value.Reportable() && d.process != s.value then Requested(d, s.value).(next := s.value)
    else d.(next := s.value)
  }

  /**
    What the states do in one iteration: the current one, the constructor of the next, the destructor
    of a next one that failed to start, the constructor of the one in its place, and the destructor of
    the current one.
   */
  datatype Behaviour = Behaviour(iterate: seq<Action>, create: seq<Action>, discard: seq<Action>, recreate: seq<Action>, leave: seq<Action>)

  predicate StartFailed(c: Context, b: Behaviour)
    requires c.current.Some?
  {
    c.next == Running && Performed(c, b.create).next == Idle
  }

  function Target(c: Context, b: Behaviour): State
    requires c.current.Some?
  {
    if StartFailed(c, b) then Idle else c.next
  }

  /** The context when the constructors and the destructor are done. */
  function Left(c: Context, b: Behaviour): (r: Context)
    requires c.current.Some?
    ensures r.current == c.current
  {
    var d := Performed(c, b.create);
    Performed(if StartFailed(c, b) then Performed(Performed(d, b.discard), b.recreate) else d, b.leave)
  }

  function Transitioned(c: Context, b: Behaviour): Context
    requires c.current.Some?
  {
    if c.next == c.current.value then c else Entered(Left(c, b), Created(Target(c, b)))
  }

  function Reported(c: Context): Context {
    if c.pending then Sent(c).(pending := false) else c
  }

  datatype Status = Ok | Break

  function Iterated(c: Context, b: Behaviour): (Context, Status)
    requires c.current.Some?
  {
    var d := Performed(c, b.iterate);
    if d.current == Some(Destroying) then (d, Break) else (Reported(Transitioned(d, b)), Ok)
  }

  // ------------------------------------------------------------------ one iteration

  /** While there is a state, the next one is the same, or the machine is to be destroyed. */
  ghost predicate AtHead(c: Context) {
    c.current.Some? ==> c.next == c.current.value || c.next == Destroying
  }

  lemma EnteredAtHead(c: Context, s: Option<State>)
    requires c.current.Some?
    ensures AtHead(Entered(c, s)) && Entered(c, s).current == s
  {
  }

  lemma TransitionedAtHead(c: Context, b: Behaviour)
    requires c.current.Some?
    ensures AtHead(Transitioned(c, b))
    ensures Transitioned(c, b).current == if c.next == c.current.value then c.current else Created(Target(c, b))
  {
    EnteredAtHead(Left(c, b), Created(Target(c, b)));
  }

  /** The loop ends exactly in `Destroying`, which is never left; otherwise nothing is left to be reported. */
  lemma IterationSettles(c: Context, b: Behaviour)
    requires c.current.Some?
    ensures var (d, status) := Iterated(c, b);
      && (status == Break <==> c.current == Some(Destroying))
      && (status == Break ==> d.current == Some(Destroying))
      && (status == Ok ==> AtHead(d) && !d.pending)
  {
    TransitionedAtHead(Performed(c, b.iterate), b);
  }

  /** The machine is left without a state exactly when a state other than `Destroying` sets `Exiting`. */
  lemma NoStateIff(c: Context, b: Behaviour)
    requires c.current.Some? && c.current != Some(Exiting)
    ensures Iterated(c, b).0.current.None? <==> c.current != Some(Destroying) && Performed(c, b.iterate).next == Exiting
  {
    TransitionedAtHead(Performed(c, b.iterate), b);
  }

  // ------------------------------------------------------------------ what the cloud is told

  lemma SameStateIsFeasible(s: State)
    ensures s.Reportable() ==> IsFeasibleTransition(s, s)
  {
  }

  /** Entering `Idle` or `Running` makes it the process state, with a notice iff both it and the next state were different. */
  lemma EnteredReportable(c: Context, s: State)
    requires c.current.Some? && s.Reportable() && c.next != Destroying
    ensures var d := Entered(c, Some(s));
      && d.process == s && d.next == s && d.reports == c.reports
      && (d.pending <==> c.pending || (c.process != s && c.next != s))
  {
    SameStateIsFeasible(s);
  }

  /** The iteration enters `s`, and the machine is not to be destroyed. */
  ghost predicate Settles(c: Context, b: Behaviour, s: State)
    requires c.current.Some?
  {
    var d := Performed(c, b.iterate);
    && c.current != Some(Destroying) && d.next != c.current.value
    && Target(d, b) == s && Left(d, b).next != Destroying
  }

  /**
    An iteration that settles in `Idle` or `Running` leaves it as the process state. It is reported by
    this iteration iff a notice was pending, or a constructor or destructor had left both another
    process state and another next state.
   */
  lemma SettledReportedIff(c: Context, b: Behaviour, s: State)
    requires c.current.Some? && s.Reportable() && Settles(c, b, s)
    ensures var d, left := Iterated(c, b).0, Left(Performed(c, b.iterate), b);
      && d.current == Some(s) && d.next == s && d.process == s
      && d.reports == left.reports + (if left.pending || (left.process != s && left.next != s) then [s] else [])
  {
    EnteredReportable(Left(Performed(c, b.iterate), b), s);
  }

  /** `Applying` goes back to the process state without a notice: what was told earlier is not told again. */
  lemma SilentTransition(c: Context)
    requires c.current == Some(Applying) && c.next == Applying && !c.pending && c.process.Reportable()
    ensures var d := Iterated(c, Behaviour([SetNext(c.process)], [], [], [], [])).0;
      d.current == Some(c.process) && d.process == c.process && d.reports == c.reports
  {
    var b := Behaviour([SetNext(c.process)], [], [], [], []);
    assert [SetNext(c.process)][..0] == [];
    assert Performed(c, b.iterate) == c.(next := c.process);
    SettledReportedIff(c, b, c.process);
  }

  /** The state sets no next state itself, it only asks for one. */
  predicate OnlyRequests(actions: seq<Action>) {
    forall i :: 0 <= i < |actions| ==> !actions[i].SetNext?
  }

  /** States that only make requests are left along feasible transitions. */
  lemma {:induction false} RequestsAreFeasible(c: Context, actions: seq<Action>)
    requires c.current.Some? && OnlyRequests(actions)
    ensures var n := Performed(c, actions).next; n == c.next || IsFeasibleTransition(c.current.value, n)
  {
    if actions != [] {
      RequestsAreFeasible(c, actions[..|actions| - 1]);
    }
  }

  /** The state entered is the one that the transition table allows, but for `Idle` when `Running` fails to start. */
  lemma EnteredFeasibly(c: Context, b: Behaviour)
    requires c.current.Some? && AtHead(c) && OnlyRequests(b.iterate) && Iterated(c, b).1 == Ok
    ensures var d, from := Iterated(c, b).0, c.current.value;
      var n := Performed(c, b.iterate).next;
      && (n == from || n == Destroying || IsFeasibleTransition(from, n))
      && (d.current == Created(n) || (n == Running && d.current == Some(Idle)) || (n == from && d.current == c.current))
  {
    RequestsAreFeasible(c, b.iterate);
    TransitionedAtHead(Performed(c, b.iterate), b);
  }

  /** `Idle` takes the place of the requested state iff that is `Running` and its constructor, failing, asks for `Idle`. */
  lemma EnteredIs(c: Context, b: Behaviour)
    requires c.current.Some? && c.current != Some(Destroying)
    ensures var d, asked := Iterated(c, b).0, Performed(c, b.iterate);
      d.current ==
        if asked.next == c.current.value then c.current
        else if asked.next == Running && Performed(asked, b.create).next == Idle then Some(Idle)
        else if asked.next == Exiting then None
        else Some(asked.next)
  {
    TransitionedAtHead(Performed(c, b.iterate), b);
  }

  lemma {:induction false} PerformedTogether(c: Context, first: seq<Action>, second: seq<Action>)
    requires c.current.Some?
    ensures Performed(Performed(c, first), second) == Performed(c, first + second)
  {
    if second == [] {
      assert first + second == first;
    } else {
      var n := |second| - 1;
      PerformedTogether(c, first, second[..n]);
      assert (first + second)[..|first| + n] == first + second[..n];
    }
  }

  /**
    A transition runs the constructor of the next state, after a failed start its destructor and the
    constructor of `Idle`, and last the destructor of the old state, one after the other, before the
    new state is entered.
   */
  lemma LeftInSequence(c: Context, b: Behaviour)
    requires c.current.Some?
    ensures var failed := c.next == Running && Performed(c, b.create).next == Idle;
      Left(c, b) == Performed(c, b.create + (if failed then b.discard + b.recreate else []) + b.leave)
  {
    if StartFailed(c, b) {
      PerformedTogether(Performed(c, b.create), b.discard, b.recreate);
      PerformedTogether(c, b.create, b.discard + b.recreate);
      PerformedTogether(c, b.create + (b.discard + b.recreate), b.leave);
    } else {
      assert b.create + [] == b.create;
      PerformedTogether(c, b.create, b.leave);
    }
  }

  /** A state that asks for the end, in whatever it does during a transition, gets it: the next iteration is told so. */
  lemma DestroyingIsKept(c: Context, b: Behaviour)
    requires c.current.Some? && c.next != c.current.value && Left(c, b).next == Destroying
    ensures Transitioned(c, b).next == Destroying
  {
  }

  /** Without a transition the process state is reported iff a notice is pending. */
  lemma QuietReportedIff(c: Context, b: Behaviour)
    requires c.current.Some? && c.current != Some(Destroying) && Performed(c, b.iterate).next == c.current.value
    ensures var d, asked := Iterated(c, b).0, Performed(c, b.iterate);
      && d.reports == (if asked.pending then asked.reports + [asked.process] else asked.reports)
      && !d.pending && d.current == asked.current && d.next == asked.next && d.process == asked.process
  {
    var asked := Performed(c, b.iterate);
    assert Transitioned(asked, b) == asked;
    assert Iterated(c, b).0 == Reported(asked);
  }

  /** The table by the states it leads to. */
  lemma FeasibleTo(from: State, to: State)
    ensures IsFeasibleTransition(from, to) <==>
      if to == Creating then from == Creating
      else if to == Idle then from in {Idle, Running, Applying}
      else if to == Running then from in {Creating, Idle, Running, Applying}
      else if to == Destroying then from != Exiting
      else if to == Exiting then from in {Destroying, Exiting}
      else if to == CoolingDown then from in {Running, CoolingDown}
      else from in {Idle, Running}
  {
  }

  /** A request changes the next state iff it is another one and feasible; it is then noticed, and told as process state if it can be. */
  lemma RequestTells(c: Context, s: State)
    requires c.current.Some?
    ensures var d := Requested(c, s);
      && d.current == c.current && d.reports == c.reports
      && (d.next == s <==> s == c.next || IsFeasibleTransition(c.current.value, s))
      && (d.next != s ==> d == c)
      && (d.next == s ==> d.process == if s == Idle || s == Running then s else c.process)
      && (d.pending <==> c.pending || d.next != c.next)
  {
  }

  // ------------------------------------------------------------------ whole runs
  // ------------------------------------------------------------------ whole runs

  /** The state of a machine that starts with process state `p`, and whether its loop has ended. */
  function Outcome(p: State, run: History<Behaviour>): (Context, Status) {
    if run.Nothing? then (Context(Some(Creating), Creating, false, p, []), Ok)
    else
      var (c, status) := Outcome(p, run.before);
      if status == Break || c.current.None? then (c, status) else Iterated(c, run.last)
  }

  /**
    For every behaviour of the states: the loop ends in `Destroying` and only there, and at each of
    its heads nothing waits to be reported and the next state is the current one or `Destroying`.
   */
  lemma {:induction false} RunInvariant(p: State, run: History<Behaviour>)
    ensures var (c, status) := Outcome(p, run);
      && (status == Break ==> c.current == Some(Destroying))
      && (status == Ok ==> AtHead(c) && !c.pending)
      && c.current != Some(Exiting)
  {
    if run.Then? {
      RunInvariant(p, run.before);
      var c := Outcome(p, run.before).0;
      if Outcome(p, run.before).1 == Ok && c.current.Some? {
        IterationSettles(c, run.last);
        TransitionedAtHead(Performed(c, run.last.iterate), run.last);
      }
    }
  }

  /** Once the current state is `Destroying`, the next iteration is the last and no other state follows. */
  lemma {:induction false} DestroyingIsLast(p: State, run: History<Behaviour>, more: History<Behaviour>)
    requires more.Then? && Extends(more, run) && Outcome(p, run).0.current == Some(Destroying)
    ensures Outcome(p, more).0.current == Some(Destroying) && (more != run ==> Outcome(p, more).1 == Break)
  {
    if more != run {
      if more.before != run {
        DestroyingIsLast(p, run, more.before);
      }
      if Outcome(p, more.before).1 == Ok {
        IterationSettles(Outcome(p, more.before).0, more.last);
      }
    }
  }

  // ------------------------------------------------------------------ the code

  class StateMachineContext {
    var current: Option<State>
    var next: State
    var pending: bool
    var process: State
    var reports: seq<State>

    function View(): Context
      reads this
    {
      Context(current, next, pending, process, reports)
    }

    constructor (p: State)
      ensures View() == Outcome(p, Nothing).0
    {
      current, next, pending, process, reports := Some(Creating), Creating, false, p, [];
    }

    method UpdateProcessState(s: State) returns (ok: bool)
      requires current.Some?
      modifies this
      ensures View() == Updated(old(View()), s) && ok == !Refused(old(View()), s)
    {
      if s == next {
        return true;
      }
      if IsFeasibleTransition(current.value, s) {
        next := s;
        pending := true;
        return true;
      }
      return false;
    }

    method SetProcessState(s: State)
      requires current.Some?
      modifies this
      ensures View() == Requested(old(View()), s)
    {
      var ok := UpdateProcessState(s);
      if ok && (s == Running || s == Idle) {
        process := s;
      }
    }

    method SendState()
      modifies this
      ensures View() == Sent(old(View()))
    {
      reports := reports + [process];
    }

    method Perform(actions: seq<Action>)
      requires current.Some?
      modifies this
      ensures View() == Performed(old(View()), actions)
    {
      for i := 0 to |actions|
        invariant current.Some? && View() == Performed(old(View()), actions[..i])
      {
        assert actions[..i + 1][..i] == actions[..i];
        match actions[i]
        case SetNext(s) => next := s;
        case Request(s) => SetProcessState(s);
        case Notify => pending := true;
        case Report => SendState();
      }
      assert actions[..|actions|] == actions;
    }

    /** The old state's destructor runs first; `leave` is what it does. */
    method SetCurrentState(s: Option<State>, leave: seq<Action>)
      requires current.Some?
      modifies this
      ensures View() == Entered(Performed(old(View()), leave), s)
    {
      Perform(leave);
      current := s;
      if s.Some? {
        if next == Destroying {
          return;
        }
        if s.value == Idle || s.value == Running {
          if process != s.value {
            SetProcessState(s.value);
          }
        }
        next := s.value;
      }
    }

    method Transition(b: Behaviour)
      requires current.Some? && next != current.value
      modifies this
      ensures View() == Transitioned(old(View()), b)
    {
      var wanted := next;
      Perform(b.create);
      var state := Created(wanted);
      var newNext := next;
      if newNext != wanted && wanted == Running && newNext == Idle {
        Perform(b.discard);
        Perform(b.recreate);
        state := Created(newNext);
      }
      SetCurrentState(state, b.leave);
    }

    method LoopIterate(b: Behaviour) returns (status: Status)
      requires current.Some?
      modifies this
      ensures (View(), status) == Iterated(old(View()), b)
    {
      Perform(b.iterate);
      if current.value == Destroying {
        return Break;
      }
      if next != current.value {
        Transition(b);
      }
      if pending {
        SendState();
        pending := false;
      }
      return Ok;
    }

    /** The machine, started with process state `p`, has made `n` iterations. */
    ghost predicate HasRun(b: nat -> Behaviour, n: nat, p: State, status: Status)
      reads this
    {
      (View(), status) == Outcome(p, RunOf(b, n))
    }

    method RunOnce(b: nat -> Behaviour, n: nat, p: State) returns (status: Status)
      requires HasRun(b, n, p, Ok) && current.Some?
      modifies this
      ensures HasRun(b, n + 1, p, status) && (status == Break ==> current == Some(Destroying))
    {
      RunOfNext(b, n, p);
      status := LoopIterate(b(n));
      RunInvariant(p, RunOf(b, n + 1));
    }

    /** Runs `n` iterations, at most `limit`; without a state the program cannot go on. */
    method Run(b: nat -> Behaviour, limit: nat, p: State) returns (finished: bool, n: nat)
      requires View() == Outcome(p, Nothing).0
      modifies this
      ensures n <= limit && HasRun(b, n, p, if finished then Break else Ok)
      ensures finished ==> current == Some(Destroying)
      ensures !finished ==> n == limit || current.None?
    {
      n := 0;
      while n < limit && current.Some?
        invariant n <= limit && HasRun(b, n, p, Ok)
      {
        var status := RunOnce(b, n, p);
        n := n + 1;
        if status == Break {
          return true, n;
        }
      }
      return false, n;
    }
  }

  function RunOf(b: nat -> Behaviour, n: nat): History<Behaviour> {
    if n == 0 then Nothing else Then(RunOf(b, n - 1), b(n - 1))
  }

  lemma RunOfNext(b: nat -> Behaviour, n: nat, p: State)
    ensures var (c, status) := Outcome(p, RunOf(b, n));
      status == Ok && c.current.Some? ==> Outcome(p, RunOf(b, n + 1)) == Iterated(c, b(n))
  {
  }
}
