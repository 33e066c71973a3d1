/**
  The wait/notify protocol of the ring as a state machine over its atomic steps.  A wait registers with
  the notifier, checks the end offset under the lock, and only then parks; an append first advances the
  end offset under the lock and afterwards notifies every future created before.
 */
module RingWakeup {

  /** `ticket` is the number of notifications that had happened when the future was created. */
  datatype Phase = Looping | Registered(ticket: nat) | Parked(ticket: nat) | Returned

  datatype Waiter = Waiter(after: nat, phase: Phase)

  /** `mutating` counts appends that advanced the end offset and have not notified yet. */
  datatype State = State(endOffset: nat, notifications: nat, mutating: nat, waiters: map<nat, Waiter>)

  datatype Step =
    | Arrive(id: nat, after: nat)
    | Register(id: nat)
    | Check(id: nat)
    | Wake(id: nat)
    | Mutate(n: nat)
    | Notify

  function Initial(): State {
    State(0, 0, 0, map[])
  }

  /** Only futures created before a notification are woken by it. */
  predicate IsWoken(s: State, w: Waiter) {
    w.phase.Parked? && s.notifications > w.phase.ticket
  }

  predicate Enabled(s: State, step: Step) {
    match step
    case Arrive(id, _) => id !in s.waiters
    case Register(id) => id in s.waiters && s.waiters[id].phase.Looping?
    case Check(id) => id in s.waiters && s.waiters[id].phase.Registered?
    case Wake(id) => id in s.waiters && IsWoken(s, s.waiters[id])
    case Mutate(n) => n > 0
    case Notify => s.mutating > 0
  }

  function Next(s: State, step: Step): State
    requires Enabled(s, step)
  {
    match step
    case Arrive(id, after) => s.(waiters := s.waiters[id := Waiter(after, Looping)])
    case Register(id) => s.(waiters := s.waiters[id := s.waiters[id].(phase := Registered(s.notifications))])
    case Check(id) =>
      var w := s.waiters[id];
      s.(waiters := s.waiters[id :=
        w.(phase := if s.endOffset > w.after then Returned else Parked(w.phase.ticket))])
    case Wake(id) => s.(waiters := s.waiters[id := s.waiters[id].(phase := Looping)])
    case Mutate(n) => s.(endOffset := s.endOffset + n, mutating := s.mutating + 1)
    case Notify => s.(notifications := s.notifications + 1, mutating := s.mutating - 1)
  }

  /** Disabled steps of a schedule are skipped, so a schedule is any interleaving whatsoever. */
  function Run(s: State, schedule: seq<Step>): State
    decreases |schedule|
  {
    if schedule == [] then s
    else Run(if Enabled(s, schedule[0]) then Next(s, schedule[0]) else s, schedule[1..])
  }

  // ----- safety

  /** Nobody sleeps over data: a parked waiter with data past its offset is woken, or a notify is coming. */
  ghost predicate NoLostWakeup(s: State) {
    forall id :: id in s.waiters ==>
      var w := s.waiters[id];
      w.phase.Parked? && s.endOffset > w.after ==> IsWoken(s, w) || s.mutating > 0
  }

  /** Tickets come from the past, and whoever returned did so because of data. */
  ghost predicate Consistent(s: State) {
    forall id :: id in s.waiters ==>
      var w := s.waiters[id];
      && (w.phase.Registered? || w.phase.Parked? ==> w.phase.ticket <= s.notifications)
      && (w.phase.Returned? ==> s.endOffset > w.after)
  }

  lemma StepLosesNoWakeup(s: State, step: Step)
    requires Enabled(s, step) && Consistent(s) && NoLostWakeup(s)
    ensures Consistent(Next(s, step)) && NoLostWakeup(Next(s, step))
  {
    var t := Next(s, step);
    forall id | id in t.waiters
      ensures t.waiters[id].phase.Parked? && t.endOffset > t.waiters[id].after
          ==> IsWoken(t, t.waiters[id]) || t.mutating > 0
      ensures t.waiters[id].phase.Registered? || t.waiters[id].phase.Parked?
          ==> t.waiters[id].phase.ticket <= t.notifications
      ensures t.waiters[id].phase.Returned? ==> t.endOffset > t.waiters[id].after
    {
      assert id in s.waiters || step == Arrive(id, t.waiters[id].after);
    }
  }

  /** Over every interleaving of any number of waiters and appends no wakeup is lost. */
  lemma {:induction false} NoWakeupIsEverLost(s: State, schedule: seq<Step>)
    requires Consistent(s) && NoLostWakeup(s)
    ensures Consistent(Run(s, schedule)) && NoLostWakeup(Run(s, schedule))
    decreases |schedule|
  {
    if schedule != [] {
      if Enabled(s, schedule[0]) {
        StepLosesNoWakeup(s, schedule[0]);
        NoWakeupIsEverLost(Next(s, schedule[0]), schedule[1..]);
      } else {
        NoWakeupIsEverLost(s, schedule[1..]);
      }
    }
  }

  lemma NoWakeupIsLostFromStart(schedule: seq<Step>)
    ensures Consistent(Run(Initial(), schedule)) && NoLostWakeup(Run(Initial(), schedule))
  {
    NoWakeupIsEverLost(Initial(), schedule);
  }

  // ----- progress

  /** Steps of this waiter still ahead, once data is there and its notification has arrived. */
  function StepsLeft(s: State, id: nat): nat
    requires id in s.waiters
  {
    match s.waiters[id].phase
    case Returned => 0
    case Registered(_) => 1
    case Looping => 2
    case Parked(_) => 3
  }

  function OwnStep(s: State, id: nat): Step
    requires id in s.waiters && !s.waiters[id].phase.Returned?
  {
    match s.waiters[id].phase
    case Registered(_) => Check(id)
    case Looping => Register(id)
    case Parked(_) => Wake(id)
  }

  /** Data past the waiter's offset, and no append in between its two steps. */
  ghost predicate DataReady(s: State, id: nat) {
    id in s.waiters && s.endOffset > s.waiters[id].after
  }

  /**
    A waiter with data past its offset can always take its own next step once no notify is pending, and
    that step brings it closer to returning; steps of others never take it further away.
   */
  lemma WaiterAdvances(s: State, id: nat)
    requires Consistent(s) && NoLostWakeup(s) && DataReady(s, id) && s.mutating == 0
    requires !s.waiters[id].phase.Returned?
    ensures Enabled(s, OwnStep(s, id))
    ensures id in Next(s, OwnStep(s, id)).waiters
    ensures StepsLeft(Next(s, OwnStep(s, id)), id) < StepsLeft(s, id)
  {
  }

  lemma OthersDoNotSetBack(s: State, id: nat, step: Step)
    requires DataReady(s, id) && Enabled(s, step)
    ensures DataReady(Next(s, step), id) && StepsLeft(Next(s, step), id) <= StepsLeft(s, id)
  {
  }

  /** How many of the steps taken are this waiter's own. */
  function OwnSteps(s: State, schedule: seq<Step>, id: nat): nat
    decreases |schedule|
  {
    if schedule == [] then 0
    else if !Enabled(s, schedule[0]) then OwnSteps(s, schedule[1..], id)
    else
      (if id in s.waiters && !s.waiters[id].phase.Returned? && schedule[0] == OwnStep(s, id) then 1 else 0)
      + OwnSteps(Next(s, schedule[0]), schedule[1..], id)
  }

  /** Whatever others do in between, a waiter with data ready has returned once it took three steps of its own. */
  lemma {:induction false} ThreeOwnStepsReturn(s: State, schedule: seq<Step>, id: nat)
    requires DataReady(s, id)
    ensures DataReady(Run(s, schedule), id)
    ensures StepsLeft(Run(s, schedule), id) + OwnSteps(s, schedule, id) <= StepsLeft(s, id)
    ensures OwnSteps(s, schedule, id) == 3 ==> Run(s, schedule).waiters[id].phase.Returned?
    decreases |schedule|
  {
    if schedule != [] {
      if Enabled(s, schedule[0]) {
        OthersDoNotSetBack(s, id, schedule[0]);
        OwnStepCounts(s, id);
        ThreeOwnStepsReturn(Next(s, schedule[0]), schedule[1..], id);
      } else {
        ThreeOwnStepsReturn(s, schedule[1..], id);
      }
    }
  }

  lemma OwnStepCounts(s: State, id: nat)
    requires DataReady(s, id)
    ensures !s.waiters[id].phase.Returned? && Enabled(s, OwnStep(s, id)) ==>
      id in Next(s, OwnStep(s, id)).waiters && StepsLeft(Next(s, OwnStep(s, id)), id) < StepsLeft(s, id)
  {
  }

  /** With data ready and no notify pending, a waiter's own steps return it, three at most. */
  lemma WaiterReturns(s: State, id: nat) returns (schedule: seq<Step>)
    requires Consistent(s) && NoLostWakeup(s) && DataReady(s, id) && s.mutating == 0
    ensures |schedule| <= 3
    ensures id in Run(s, schedule).waiters && Run(s, schedule).waiters[id].phase.Returned?
  {
    schedule := WaiterReturnsFrom(s, id, 3);
  }

  lemma {:induction false} WaiterReturnsFrom(s: State, id: nat, bound: nat) returns (schedule: seq<Step>)
    requires Consistent(s) && NoLostWakeup(s) && DataReady(s, id) && s.mutating == 0
    requires StepsLeft(s, id) <= bound
    ensures |schedule| <= bound
    ensures id in Run(s, schedule).waiters && Run(s, schedule).waiters[id].phase.Returned?
    decreases bound
  {
    if s.waiters[id].phase.Returned? {
      schedule := [];
    } else {
      var step := OwnStep(s, id);
      WaiterAdvances(s, id);
      StepLosesNoWakeup(s, step);
      var rest := WaiterReturnsFrom(Next(s, step), id, bound - 1);
      schedule := [step] + rest;
      assert schedule[1..] == rest;
    }
  }

  // ----- appends and their notifications

  /** The bytes and the number of the appends of a schedule. */
  function BytesAppended(schedule: seq<Step>): nat {
    if schedule == [] then 0
    else (if schedule[0].Mutate? then schedule[0].n else 0) + BytesAppended(schedule[1..])
  }

  function Appends(schedule: seq<Step>): nat {
    if schedule == [] then 0
    else (if schedule[0].Mutate? && schedule[0].n > 0 then 1 else 0) + Appends(schedule[1..])
  }

  /** In every run the end offset counts the appended bytes, and each append notifies once, then or later. */
  lemma {:induction false} AppendsAreCounted(s: State, schedule: seq<Step>)
    ensures Run(s, schedule).endOffset == s.endOffset + BytesAppended(schedule)
    ensures Run(s, schedule).notifications + Run(s, schedule).mutating == s.notifications + s.mutating + Appends(schedule)
    decreases |schedule|
  {
    if schedule != [] {
      AppendsAreCounted(if Enabled(s, schedule[0]) then Next(s, schedule[0]) else s, schedule[1..]);
    }
  }

  /** The pending notifies can be taken, whatever the waiters do, and leave a waiter's data where it is. */
  lemma {:induction false} PendingNotifiesRunOut(s: State, id: nat) returns (schedule: seq<Step>)
    requires Consistent(s) && NoLostWakeup(s) && DataReady(s, id)
    ensures |schedule| == s.mutating
    ensures
      var r := Run(s, schedule);
      Consistent(r) && NoLostWakeup(r) && DataReady(r, id) && r.mutating == 0
    decreases s.mutating
  {
    if s.mutating == 0 {
      schedule := [];
    } else {
      StepLosesNoWakeup(s, Notify);
      OthersDoNotSetBack(s, id, Notify);
      var rest := PendingNotifiesRunOut(Next(s, Notify), id);
      schedule := [Notify] + rest;
      assert schedule[1..] == rest;
    }
  }

  lemma {:induction false} RunsJoin(s: State, first: seq<Step>, second: seq<Step>)
    ensures Run(s, first + second) == Run(Run(s, first), second)
    decreases |first|
  {
    if first == [] {
      assert first + second == second;
    } else {
      assert (first + second)[1..] == first[1..] + second;
      RunsJoin(if Enabled(s, first[0]) then Next(s, first[0]) else s, first[1..], second);
    }
  }

  /** Nobody can be stuck: from every reachable state a waiter with data past its offset can still return. */
  lemma WaiterCanAlwaysReturn(schedule: seq<Step>, id: nat) returns (more: seq<Step>)
    requires DataReady(Run(Initial(), schedule), id)
    ensures id in Run(Initial(), schedule + more).waiters && Run(Initial(), schedule + more).waiters[id].phase.Returned?
  {
    var s := Run(Initial(), schedule);
    NoWakeupIsLostFromStart(schedule);
    var notifies := PendingNotifiesRunOut(s, id);
    var own := WaiterReturns(Run(s, notifies), id);
    more := notifies + own;
    RunsJoin(s, notifies, own);
    RunsJoin(Initial(), schedule, more);
  }
}
