/**
  The shared buffer budget as a state machine: any number of threads run the compare-exchange loop of
  `try_reserve`, and a dropped reservation is marked released and then gives its bytes back, in two steps.
 */
module BufferBudget {

  datatype Outcome = ZeroRequest | OverToolLimit | InsufficientProgramBudget(available: nat) | Reserved(id: nat)

  /**
    Where a thread is inside `try_reserve` or between the two steps of a drop.  After the load it holds the
    value read, the value it wants to store, and, for reasoning only, the length of the history at its load.
   */
  datatype Phase =
    | Idle(last: Outcome)
    | Loading(bytes: nat)
    | Loaded(bytes: nat, current: nat, wanted: nat, seen: nat)
    | Returning(id: nat)

  /** `released` is the drop guard of the handle; `returned`, for reasoning only, says its bytes are back. */
  datatype Reservation = Reservation(bytes: nat, released: bool, returned: bool)

  /** Who changed the counter, in order. */
  datatype Change = Change(thread: nat, delta: int)

  datatype State = State(programLimit: nat, toolLimit: nat, available: nat,
                         reservations: seq<Reservation>, threads: map<nat, Phase>, history: seq<Change>)

  datatype Step =
    | Begin(thread: nat, bytes: nat)
    | Load(thread: nat)
    | CompareExchange(thread: nat)
    | Release(thread: nat, id: nat)
    | GiveBack(thread: nat)

  function Initial(programLimit: nat, toolLimit: nat): State {
    State(programLimit, toolLimit, programLimit, [], map[], [])
  }

  predicate IsIdle(s: State, thread: nat) {
    thread !in s.threads || s.threads[thread].Idle?
  }

  predicate Enabled(s: State, step: Step) {
    match step
    case Begin(t, _) => IsIdle(s, t)
    case Load(t) => t in s.threads && s.threads[t].Loading?
    case CompareExchange(t) => t in s.threads && s.threads[t].Loaded?
    case Release(t, id) => IsIdle(s, t) && id < |s.reservations|
    case GiveBack(t) => t in s.threads && s.threads[t].Returning? && s.threads[t].id < |s.reservations|
  }

  /** Whether the exchange finds the counter at the value it loaded. */
  predicate ExchangeSucceeds(s: State, t: nat)
    requires Enabled(s, CompareExchange(t))
  {
    s.available == s.threads[t].current
  }

  function Next(s: State, step: Step): State
    requires Enabled(s, step)
  {
    match step
    case Begin(t, bytes) =>
      s.(threads := s.threads[t :=
        if bytes == 0 then Idle(ZeroRequest)
        else if bytes > s.toolLimit then Idle(OverToolLimit)
        else Loading(bytes)])
    case Load(t) =>
      var bytes := s.threads[t].bytes;
      s.(threads := s.threads[t :=
        if s.available < bytes then Idle(InsufficientProgramBudget(s.available))
        else Loaded(bytes, s.available, s.available - bytes, |s.history|)])
    case CompareExchange(t) =>
      var Loaded(bytes, current, wanted, _) := s.threads[t];
      if s.available == current then
        s.(available := wanted,
           reservations := s.reservations + [Reservation(bytes, false, false)],
           threads := s.threads[t := Idle(Reserved(|s.reservations|))],
           history := s.history + [Change(t, wanted - current)])
      else s.(threads := s.threads[t := Loading(bytes)])
    case Release(t, id) =>
      var r := s.reservations[id];
      if r.released then s
      else s.(reservations := s.reservations[id := r.(released := true)], threads := s.threads[t := Returning(id)])
    case GiveBack(t) =>
      var id := s.threads[t].id;
      var r := s.reservations[id];
      s.(available := s.available + r.bytes,
         reservations := s.reservations[id := r.(returned := true)],
         threads := s.threads[t := Idle(Reserved(id))],
         history := s.history + [Change(t, r.bytes)])
  }

  /** Disabled steps are skipped, so a schedule is any interleaving. */
  function Run(s: State, schedule: seq<Step>): State
    decreases |schedule|
  {
    if schedule == [] then s
    else Run(if Enabled(s, schedule[0]) then Next(s, schedule[0]) else s, schedule[1..])
  }

  // ----- conservation

  function Outstanding(r: Reservation): nat {
    if r.returned then 0 else r.bytes
  }

  /** Bytes held by live reservations and by drops that are under way. */
  function Held(rs: seq<Reservation>): nat {
    if rs == [] then 0 else Held(rs[..|rs| - 1]) + Outstanding(rs[|rs| - 1])
  }

  lemma {:induction false} HeldUpdate(rs: seq<Reservation>, i: nat, r: Reservation)
    requires i < |rs|
    ensures Held(rs[i := r]) == Held(rs) - Outstanding(rs[i]) + Outstanding(r)
    decreases |rs|
  {
    var n := |rs| - 1;
    if i == n {
      assert rs[i := r][..n] == rs[..n];
    } else {
      HeldUpdate(rs[..n], i, r);
      assert rs[i := r][..n] == rs[..n][i := r];
    }
  }

  lemma HeldAppend(rs: seq<Reservation>, r: Reservation)
    ensures Held(rs + [r]) == Held(rs) + Outstanding(r)
  {
    assert (rs + [r])[..|rs|] == rs;
  }

  /** The pool plus everything held is the program limit, and each reservation is a legal request. */
  ghost predicate Conserved(s: State) {
    && s.available + Held(s.reservations) == s.programLimit
    && forall i :: 0 <= i < |s.reservations| ==> 0 < s.reservations[i].bytes <= s.toolLimit
  }

  /**
    What a thread in the middle of something knows: a legal request, and nobody but others changed the
    counter since its load; or a reservation whose bytes this thread alone is about to give back.
   */
  ghost predicate Knows(s: State, t: nat)
    requires t in s.threads
  {
    match s.threads[t]
    case Idle(_) => true
    case Loading(bytes) => 0 < bytes <= s.toolLimit
    case Loaded(bytes, current, wanted, seen) =>
      && 0 < bytes <= s.toolLimit && wanted + bytes == current && seen <= |s.history|
      && (|s.history| == seen ==> s.available == current)
      && forall k :: seen <= k < |s.history| ==> s.history[k].thread != t
    case Returning(id) =>
      && id < |s.reservations| && s.reservations[id].released && !s.reservations[id].returned
      && forall u :: u in s.threads && u != t ==> s.threads[u] != Returning(id)
  }

  ghost predicate LoopInvariant(s: State) {
    && (forall t :: t in s.threads ==> Knows(s, t))
    && (forall id :: 0 <= id < |s.reservations| && s.reservations[id].returned ==> s.reservations[id].released)
  }

  lemma StepConserves(s: State, step: Step)
    requires Enabled(s, step) && Conserved(s) && LoopInvariant(s)
    ensures Conserved(Next(s, step))
    ensures Next(s, step).programLimit == s.programLimit && Next(s, step).toolLimit == s.toolLimit
  {
    hide Held, LoopInvariant;
    match step
    case CompareExchange(t) => ExchangeConserves(s, t);
    case Release(t, id) => ReleaseConserves(s, t, id);
    case GiveBack(t) => GiveBackConserves(s, t);
    case _ =>
  }

  lemma ExchangeConserves(s: State, t: nat)
    requires Enabled(s, CompareExchange(t)) && Conserved(s) && LoopInvariant(s)
    ensures Conserved(Next(s, CompareExchange(t)))
  {
    hide Held;
    assert Knows(s, t);
    HeldAppend(s.reservations, Reservation(s.threads[t].bytes, false, false));
  }

  lemma ReleaseConserves(s: State, t: nat, id: nat)
    requires Enabled(s, Release(t, id)) && Conserved(s)
    ensures Conserved(Next(s, Release(t, id)))
  {
    hide Held;
    HeldUpdate(s.reservations, id, s.reservations[id].(released := true));
  }

  lemma GiveBackConserves(s: State, t: nat)
    requires Enabled(s, GiveBack(t)) && Conserved(s) && LoopInvariant(s)
    ensures Conserved(Next(s, GiveBack(t)))
  {
    hide Held;
    assert Knows(s, t);
    HeldUpdate(s.reservations, s.threads[t].id, s.reservations[s.threads[t].id].(returned := true));
  }

  lemma StepKeepsLoopInvariant(s: State, step: Step)
    requires Enabled(s, step) && LoopInvariant(s)
    ensures LoopInvariant(Next(s, step))
  {
    var n := Next(s, step);
    forall t | t in n.threads ensures Knows(n, t) {
      StepKeepsKnowledge(s, step, t);
    }
    if step.GiveBack? {
      assert Knows(s, step.thread);
    }
  }

  lemma StepKeepsKnowledge(s: State, step: Step, t: nat)
    requires Enabled(s, step) && LoopInvariant(s) && t in Next(s, step).threads
    ensures Knows(Next(s, step), t)
  {
    assert t in s.threads ==> Knows(s, t);
    assert step.thread in s.threads ==> Knows(s, step.thread);
    if step.Release? && !s.reservations[step.id].released {
      forall u | u in s.threads ensures s.threads[u] != Returning(step.id) {
        assert Knows(s, u);
      }
    }
  }

  /** Conservation over every interleaving of loads, exchanges and drops by any number of threads. */
  lemma {:induction false} BudgetIsConserved(s: State, schedule: seq<Step>)
    requires Conserved(s) && LoopInvariant(s)
    ensures
      var r := Run(s, schedule);
      && Conserved(r) && LoopInvariant(r)
      && r.programLimit == s.programLimit && r.toolLimit == s.toolLimit
      && r.available <= r.programLimit
    decreases |schedule|
  {
    if schedule != [] {
      var n := if Enabled(s, schedule[0]) then Next(s, schedule[0]) else s;
      if Enabled(s, schedule[0]) {
        StepConserves(s, schedule[0]);
        StepKeepsLoopInvariant(s, schedule[0]);
      }
      BudgetIsConserved(n, schedule[1..]);
    }
  }

  lemma BudgetIsConservedFromStart(programLimit: nat, toolLimit: nat, schedule: seq<Step>)
    requires 0 < toolLimit <= programLimit
    ensures
      var r := Run(Initial(programLimit, toolLimit), schedule);
      && r.available + Held(r.reservations) == programLimit
      && forall i :: 0 <= i < |r.reservations| ==> 0 < r.reservations[i].bytes <= toolLimit
  {
    BudgetIsConserved(Initial(programLimit, toolLimit), schedule);
  }

  // ----- when a reserve succeeds

  /** The three own steps of a reserve, without others in between. */
  function Reserve(s: State, t: nat, bytes: nat): State {
    Run(s, [Begin(t, bytes), Load(t), CompareExchange(t)])
  }

  /**
    An uninterrupted reserve succeeds if and only if it asks for something, no more than the tool limit and
    no more than is available, an exact fit included; it then takes exactly these bytes.  Otherwise nothing
    changes, and the answer says why.
   */
  lemma ReserveSucceedsExactlyWhen(s: State, t: nat, bytes: nat)
    requires IsIdle(s, t)
    ensures
      var r := Reserve(s, t, bytes);
      && t in r.threads
      && (0 < bytes <= s.toolLimit && bytes <= s.available ==>
            && r.threads[t] == Idle(Reserved(|s.reservations|)) && r.available == s.available - bytes
            && r.reservations == s.reservations + [Reservation(bytes, false, false)])
      && (!(0 < bytes <= s.toolLimit && bytes <= s.available) ==>
            && r.available == s.available && r.reservations == s.reservations
            && r.threads[t] == Idle(if bytes == 0 then ZeroRequest
                                    else if bytes > s.toolLimit then OverToolLimit
                                    else InsufficientProgramBudget(s.available)))
  {
    var steps := [Begin(t, bytes), Load(t), CompareExchange(t)];
    assert steps[1..] == [Load(t), CompareExchange(t)] && steps[1..][1..] == [CompareExchange(t)];
    assert steps[1..][1..][1..] == [];
    var one := Next(s, steps[0]);
    var two := if Enabled(one, steps[1]) then Next(one, steps[1]) else one;
    var three := if Enabled(two, steps[2]) then Next(two, steps[2]) else two;
    assert Run(two, [CompareExchange(t)]) == Run(three, []) == three;
    assert Run(one, steps[1..]) == Run(two, steps[1..][1..]);
  }

  /** Among others a reserve is refused for lack of budget only if at its load the pool held less. */
  lemma RefusedOnlyWhenShort(s: State, t: nat)
    requires Enabled(s, Load(t))
    ensures Next(s, Load(t)).threads[t].Idle? <==> s.available < s.threads[t].bytes
  {
  }

  // ----- lock freedom

  /**
    A failed exchange means that since this thread's load at least one reserve or release completed, and
    that all of those were by other threads.  A successful one takes exactly the requested bytes.
   */
  lemma FailedExchangeMeansProgress(s: State, t: nat)
    requires Enabled(s, CompareExchange(t)) && LoopInvariant(s)
    ensures
      var seen := s.threads[t].seen;
      !ExchangeSucceeds(s, t) ==>
        && seen < |s.history|
        && forall k :: seen <= k < |s.history| ==> s.history[k].thread != t
    ensures ExchangeSucceeds(s, t) <==> Next(s, CompareExchange(t)).threads[t].Idle?
    ensures ExchangeSucceeds(s, t) ==>
      && Next(s, CompareExchange(t)).available == s.available - s.threads[t].bytes
      && Next(s, CompareExchange(t)).reservations == s.reservations + [Reservation(s.threads[t].bytes, false, false)]
  {
  }

  /**
    A reservation gives its bytes back once: between its release and its return every further drop, by any
    thread, leaves everything as it is, and after the return as well.
   */
  lemma SecondDropIsIdle(s: State, t: nat, id: nat, schedule: seq<Step>, u: nat)
    requires Enabled(s, Release(t, id))
    ensures
      var later := Run(Next(s, Release(t, id)), schedule);
      id < |later.reservations| && (IsIdle(later, u) ==> Next(later, Release(u, id)) == later)
  {
    ReleasedStays(Next(s, Release(t, id)), schedule, id);
  }

  lemma {:induction false} ReleasedStays(s: State, schedule: seq<Step>, id: nat)
    requires id < |s.reservations| && s.reservations[id].released
    ensures id < |Run(s, schedule).reservations| && Run(s, schedule).reservations[id].released
    decreases |schedule|
  {
    if schedule != [] {
      ReleasedStays(if Enabled(s, schedule[0]) then Next(s, schedule[0]) else s, schedule[1..], id);
    }
  }

  /** Only a drop under way separates a released reservation from its bytes being back. */
  ghost predicate DropsUnderWay(s: State) {
    forall id :: 0 <= id < |s.reservations| && s.reservations[id].released && !s.reservations[id].returned ==>
      exists t :: t in s.threads && s.threads[t] == Returning(id)
  }

  lemma StepKeepsDropsUnderWay(s: State, step: Step)
    requires Enabled(s, step) && DropsUnderWay(s)
    ensures DropsUnderWay(Next(s, step))
  {
    var n := Next(s, step);
    forall id | 0 <= id < |n.reservations| && n.reservations[id].released && !n.reservations[id].returned
      ensures exists t :: t in n.threads && n.threads[t] == Returning(id)
    {
      if id < |s.reservations| && s.reservations[id].released {
        var t :| t in s.threads && s.threads[t] == Returning(id);
        assert n.threads[t] == Returning(id);
      } else {
        assert n.threads[step.thread] == Returning(id);
      }
    }
  }

  lemma {:induction false} RunKeepsDropsUnderWay(s: State, schedule: seq<Step>)
    requires DropsUnderWay(s)
    ensures DropsUnderWay(Run(s, schedule))
    decreases |schedule|
  {
    if schedule != [] {
      if Enabled(s, schedule[0]) {
        StepKeepsDropsUnderWay(s, schedule[0]);
      }
      RunKeepsDropsUnderWay(if Enabled(s, schedule[0]) then Next(s, schedule[0]) else s, schedule[1..]);
    }
  }

  /** In every run: once each reservation is dropped and no drop is under way, the pool is whole again. */
  lemma WholePoolReturns(programLimit: nat, toolLimit: nat, schedule: seq<Step>)
    requires 0 < toolLimit <= programLimit
    ensures
      var r := Run(Initial(programLimit, toolLimit), schedule);
      && (forall i :: 0 <= i < |r.reservations| ==> r.reservations[i].released)
      && (forall t :: t in r.threads ==> !r.threads[t].Returning?)
      ==> r.available == programLimit
  {
    var r := Run(Initial(programLimit, toolLimit), schedule);
    BudgetIsConserved(Initial(programLimit, toolLimit), schedule);
    RunKeepsDropsUnderWay(Initial(programLimit, toolLimit), schedule);
    if (forall i :: 0 <= i < |r.reservations| ==> r.reservations[i].released)
       && (forall t :: t in r.threads ==> !r.threads[t].Returning?)
    {
      AllReturned(r.reservations);
    }
  }

  lemma {:induction false} AllReturned(rs: seq<Reservation>)
    requires forall i :: 0 <= i < |rs| ==> rs[i].returned
    ensures Held(rs) == 0
  {
    if rs != [] {
      AllReturned(rs[..|rs| - 1]);
    }
  }
}
