/** What each caller of the store is told, step by step: when it hears of an I/O failure, and when of its commit. */
module StoreReplies {
  import opened Bytes
  import opened Profiles
  import opened ProfileStore
  import opened StoreTransactions

  // ----- I/O failures

  /** Loading or writing fails for this task. */
  predicate FailsFor(step: Step, t: nat) {
    step == Load(t, false) || step == Persist(t, false)
  }

  /** The task is not about to answer that the I/O failed. */
  predicate Unbroken(s: State, t: nat) {
    t in s.tasks ==>
      match s.tasks[t].phase
      case Publishing(_, _, reply, _) => !reply.Broken?
      case Failed(_, reply, _) => !reply.Broken?
      case Finished(_, reply, _) => !reply.Broken?
      case _ => true
  }

  lemma StepKeepsUnbroken(s: State, step: Step, t: nat)
    requires Enabled(s, step) && Unbroken(s, t) && !FailsFor(step, t)
    ensures Unbroken(Next(s, step), t)
  {
    hide Apply;
  }

  lemma {:induction false} RunKeepsUnbroken(s: State, schedule: seq<Step>, t: nat)
    requires Unbroken(s, t) && forall k :: 0 <= k < |schedule| ==> !FailsFor(schedule[k], t)
    ensures Unbroken(Run(s, schedule), t)
    decreases |schedule|
  {
    hide Unbroken, Next;
    if schedule != [] {
      if Enabled(s, schedule[0]) {
        StepKeepsUnbroken(s, schedule[0], t);
      }
      RunKeepsUnbroken(if Enabled(s, schedule[0]) then Next(s, schedule[0]) else s, schedule[1..], t);
    }
  }

  /**
    A caller is told of an I/O failure only if loading or writing failed for its task since it asked, whatever
    the other tasks and processes did in between.
   */
  lemma {:induction false} BrokenOnlyAfterFailure(s: State, t: nat, request: StoreTransactions.Request, later: seq<Step>)
    requires Enabled(s, Step.Request(t, request))
    requires
      var r := Run(Next(s, Step.Request(t, request)), later);
      Enabled(r, Release(t)) && r.tasks[t].phase.reply.Broken?
    ensures exists k :: 0 <= k < |later| && FailsFor(later[k], t)
  {
    hide Run;
    var asked := Next(s, Step.Request(t, request));
    if forall k :: 0 <= k < |later| ==> !FailsFor(later[k], t) {
      RunKeepsUnbroken(asked, later, t);
    }
  }

  /** No answer so far says that the I/O failed. */
  predicate NoneBroken(s: State) {
    && (forall i :: 0 <= i < |s.answers| ==> !s.answers[i].reply.Broken?)
    && (forall t :: t in s.tasks ==> Unbroken(s, t))
  }

  lemma StepKeepsNoneBroken(s: State, step: Step)
    requires Enabled(s, step) && NoneBroken(s) && forall t :: !FailsFor(step, t)
    ensures NoneBroken(Next(s, step))
  {
    hide Apply;
    var n := Next(s, step);
    forall t | t in n.tasks ensures Unbroken(n, t) {
      assert !FailsFor(step, t);
      assert Unbroken(s, t);
      StepKeepsUnbroken(s, step, t);
    }
    if step.Release? {
      assert Unbroken(s, step.task);
    }
  }

  /** Without failing steps nobody is ever told of an I/O failure. */
  lemma {:induction false} WithoutFailuresNoneIsBroken(s: State, schedule: seq<Step>)
    requires NoneBroken(s) && forall k, t :: 0 <= k < |schedule| ==> !FailsFor(schedule[k], t)
    ensures NoneBroken(Run(s, schedule))
    decreases |schedule|
  {
    hide NoneBroken, Next;
    if schedule != [] {
      if Enabled(s, schedule[0]) {
        StepKeepsNoneBroken(s, schedule[0]);
      }
      WithoutFailuresNoneIsBroken(if Enabled(s, schedule[0]) then Next(s, schedule[0]) else s, schedule[1..]);
    }
  }

  lemma WithoutFailuresNoneIsBrokenFromStart(file: seq<Profile>, schedule: seq<Step>)
    requires forall k, t :: 0 <= k < |schedule| ==> !FailsFor(schedule[k], t)
    ensures forall i :: 0 <= i < |Run(Initial(file), schedule).answers| ==>
      !Run(Initial(file), schedule).answers[i].reply.Broken?
  {
    WithoutFailuresNoneIsBroken(Initial(file), schedule);
  }

  // ----- commits

  /** The task will answer its commit, made at place `at`. */
  predicate WillTell(s: State, t: nat, tx: Tx, next: seq<Profile>, at: nat) {
    && t in s.tasks
    && (s.tasks[t].phase == Publishing(Mutate(tx), next, Done(next), at)
        || s.tasks[t].phase == Finished(Mutate(tx), Done(next), at))
  }

  /** The caller of this task goes without an answer: its process dies. */
  predicate Dies(s: State, step: Step, t: nat)
    requires t in s.tasks
  {
    step.Crash? && step.process == s.tasks[t].process
  }

  lemma StepKeepsWillTell(s: State, step: Step, t: nat, tx: Tx, next: seq<Profile>, at: nat)
    requires Enabled(s, step) && WillTell(s, t, tx, next, at) && step != Release(t) && !Dies(s, step, t)
    ensures WillTell(Next(s, step), t, tx, next, at)
    ensures Next(s, step).tasks[t].process == s.tasks[t].process && Next(s, step).tasks[t].since == s.tasks[t].since
  {
    hide Apply;
  }

  lemma {:induction false} RunKeepsWillTell(s: State, schedule: seq<Step>, t: nat, tx: Tx, next: seq<Profile>, at: nat)
    requires WillTell(s, t, tx, next, at)
    requires forall k :: 0 <= k < |schedule| ==> schedule[k] != Release(t) && !Dies(s, schedule[k], t)
    ensures WillTell(Run(s, schedule), t, tx, next, at)
    ensures Run(s, schedule).tasks[t].since == s.tasks[t].since
    decreases |schedule|
  {
    hide Next, Enabled;
    if schedule != [] {
      if Enabled(s, schedule[0]) {
        StepKeepsWillTell(s, schedule[0], t, tx, next, at);
        RunKeepsWillTell(Next(s, schedule[0]), schedule[1..], t, tx, next, at);
      } else {
        RunKeepsWillTell(s, schedule[1..], t, tx, next, at);
      }
    }
  }

  /**
    A committed transaction is answered as done, with what was written, at exactly its place in the commit
    order, unless its process dies first.
   */
  lemma {:induction false} CommitIsAnswered(s: State, t: nat, later: seq<Step>)
    requires Enabled(s, Persist(t, true))
    requires forall k :: 0 <= k < |later| ==> later[k] != Release(t) && !Dies(s, later[k], t)
    requires Enabled(Run(Next(s, Persist(t, true)), later), Release(t))
    ensures
      var tx, next := s.tasks[t].phase.tx, s.tasks[t].phase.next;
      var r := Run(Next(s, Persist(t, true)), later);
      && Next(s, Persist(t, true)).file == next && Next(s, Persist(t, true)).commits == s.commits + [tx]
      && Next(r, Release(t)).answers == r.answers + [Answer(Mutate(tx), s.tasks[t].since, |s.commits|, Done(next))]
  {
    CommitIsPending(s, t);
    hide Run, Next, WillTell;
    var tx, next := s.tasks[t].phase.tx, s.tasks[t].phase.next;
    var committed := Next(s, Persist(t, true));
    RunKeepsWillTell(committed, later, t, tx, next, |s.commits|);
    ReleaseTells(Run(committed, later), t, tx, next, |s.commits|);
  }

  lemma CommitIsPending(s: State, t: nat)
    requires Enabled(s, Persist(t, true))
    ensures
      var tx, next := s.tasks[t].phase.tx, s.tasks[t].phase.next;
      var n := Next(s, Persist(t, true));
      && n.file == next && n.commits == s.commits + [tx] && WillTell(n, t, tx, next, |s.commits|)
      && n.tasks[t].since == s.tasks[t].since && n.tasks[t].process == s.tasks[t].process
  {
    hide Apply;
  }

  lemma ReleaseTells(s: State, t: nat, tx: Tx, next: seq<Profile>, at: nat)
    requires WillTell(s, t, tx, next, at) && Enabled(s, Release(t))
    ensures Next(s, Release(t)).answers == s.answers + [Answer(Mutate(tx), s.tasks[t].since, at, Done(next))]
  {
    hide Apply;
  }

  // ----- the request behind an answer

  /** The task works on this request, made when there were `since` commits. */
  predicate WorksOn(s: State, t: nat, request: StoreTransactions.Request, since: nat) {
    && t in s.tasks && s.tasks[t].since == since
    && match s.tasks[t].phase
       case Idle => false
       case Writing(tx, _) => Mutate(tx) == request
       case Waiting(r) => r == request
       case Holding(r) => r == request
       case Loaded(r, _) => r == request
       case Publishing(r, _, _, _) => r == request
       case Failed(r, _, _) => r == request
       case Finished(r, _, _) => r == request
  }

  lemma StepKeepsWorksOn(s: State, step: Step, t: nat, request: StoreTransactions.Request, since: nat)
    requires Enabled(s, step) && WorksOn(s, t, request, since) && step != Release(t) && !Dies(s, step, t)
    ensures WorksOn(Next(s, step), t, request, since) && Next(s, step).tasks[t].process == s.tasks[t].process
  {
    hide Apply;
  }

  lemma {:induction false} RunKeepsWorksOn(s: State, schedule: seq<Step>, t: nat, request: StoreTransactions.Request, since: nat)
    requires WorksOn(s, t, request, since)
    requires forall k :: 0 <= k < |schedule| ==> schedule[k] != Release(t) && !Dies(s, schedule[k], t)
    ensures WorksOn(Run(s, schedule), t, request, since)
    decreases |schedule|
  {
    hide Next, Enabled;
    if schedule != [] {
      if Enabled(s, schedule[0]) {
        StepKeepsWorksOn(s, schedule[0], t, request, since);
        RunKeepsWorksOn(Next(s, schedule[0]), schedule[1..], t, request, since);
      } else {
        RunKeepsWorksOn(s, schedule[1..], t, request, since);
      }
    }
  }

  /**
    The answer is the one to what was asked: it names the request, and its place lies between the commits
    there when the caller asked and those there when it is told.
   */
  lemma {:induction false} AnswerIsToTheRequest(file: seq<Profile>, earlier: seq<Step>, t: nat, request: StoreTransactions.Request,
                                                later: seq<Step>)
    requires
      var s := Run(Initial(file), earlier);
      && Enabled(s, Step.Request(t, request))
      && (forall k :: 0 <= k < |later| ==> later[k] != Release(t) && !Dies(s, later[k], t))
      && Enabled(Run(Next(s, Step.Request(t, request)), later), Release(t))
    ensures
      var s := Run(Initial(file), earlier);
      var r := Run(Next(s, Step.Request(t, request)), later);
      var phase := r.tasks[t].phase;
      && phase.request == request && |s.commits| <= phase.at <= |r.commits|
      && IsRight(file, r.commits, request, phase.reply, phase.at)
      && Next(r, Release(t)).answers == r.answers + [Answer(request, |s.commits|, phase.at, phase.reply)]
  {
    hide Run, Apply, IsRight, Linear, Exclusive;
    var s := Run(Initial(file), earlier);
    var asked := Next(s, Step.Request(t, request));
    RunKeepsWorksOn(asked, later, t, request, |s.commits|);
    RunsJoin(Initial(file), earlier, Step.Request(t, request), later);
    AnswersAreLinearisable(file, earlier + [Step.Request(t, request)] + later);
    assert PendingIsRight(Run(asked, later), t);
    PlaceIsInOrder(file, Run(asked, later).commits, request, Run(asked, later).tasks[t].phase.reply, Run(asked, later).tasks[t].phase.at);
  }

  lemma PlaceIsInOrder(initial: seq<Profile>, commits: seq<Tx>, request: StoreTransactions.Request, reply: Reply, at: nat)
    requires IsRight(initial, commits, request, reply, at)
    ensures at <= |commits|
  {
    hide Apply, Replay;
  }

  lemma {:induction false} RunsJoin(s: State, earlier: seq<Step>, step: Step, later: seq<Step>)
    requires Enabled(Run(s, earlier), step)
    ensures Run(s, earlier + [step] + later) == Run(Next(Run(s, earlier), step), later)
    decreases |earlier|
  {
    hide Next, Enabled;
    var all := earlier + [step] + later;
    if earlier == [] {
      assert all[0] == step && all[1..] == later;
    } else {
      assert all[0] == earlier[0] && all[1..] == earlier[1..] + [step] + later;
      RunsJoin(if Enabled(s, earlier[0]) then Next(s, earlier[0]) else s, earlier[1..], step, later);
    }
  }

  // ----- no deadlock, and one transaction from beginning to end

  /** The steps that take a task out of its critical section, wherever it is, when the I/O works. */
  function Turn(t: nat): seq<Step> {
    [Load(t, true), Decide(t), Persist(t, true), Publish(t), Refresh(t, true), Release(t)]
  }

  ghost function Taken(s: State, step: Step): State {
    if Enabled(s, step) then Next(s, step) else s
  }

  lemma RunFront(s: State, step: Step, rest: seq<Step>)
    ensures Run(s, [step] + rest) == Run(Taken(s, step), rest)
  {
    assert ([step] + rest)[1..] == rest;
  }

  /** The turn without its first `k` steps. */
  function RestOfTurn(t: nat, k: nat): seq<Step>
    requires k <= 6
  {
    Turn(t)[k..]
  }

  lemma RunRest(s: State, t: nat, k: nat)
    requires k < 6
    ensures Run(s, RestOfTurn(t, k)) == Run(Taken(s, Turn(t)[k]), RestOfTurn(t, k + 1))
  {
    hide Run, Next, Enabled;
    assert RestOfTurn(t, k) == [Turn(t)[k]] + RestOfTurn(t, k + 1);
    RunFront(s, Turn(t)[k], RestOfTurn(t, k + 1));
  }

  /** How many steps of its turn a task has behind it. */
  function Rank(phase: Phase): nat {
    match phase
    case Idle => 0
    case Waiting(_) => 0
    case Holding(_) => 0
    case Loaded(_, _) => 1
    case Writing(_, _) => 2
    case Publishing(_, _, _, _) => 3
    case Failed(_, _, _) => 4
    case Finished(_, _, _) => 5
  }

  /** Only this task has moved, and it is still in its critical section. */
  predicate Moved(s: State, n: State, t: nat) {
    && t in s.tasks && t in n.tasks && InCriticalSection(n.tasks[t].phase)
    && n.answers == s.answers && forall u :: u in s.tasks && u != t ==> u in n.tasks && n.tasks[u] == s.tasks[u]
  }

  lemma TurnMoves(s: State, t: nat, k: nat)
    requires k < 5 && t in s.tasks && InCriticalSection(s.tasks[t].phase) && Rank(s.tasks[t].phase) >= k
    ensures Moved(s, Taken(s, Turn(t)[k]), t) && Rank(Taken(s, Turn(t)[k]).tasks[t].phase) >= k + 1
  {
    hide Apply;
  }

  lemma {:induction false} TurnEnds(s: State, t: nat, k: nat)
    requires k <= 5 && t in s.tasks && InCriticalSection(s.tasks[t].phase) && Rank(s.tasks[t].phase) >= k
    ensures Ended(s, Run(s, RestOfTurn(t, k)), t)
    decreases 5 - k
  {
    hide Run, Next, Enabled;
    RunRest(s, t, k);
    if k < 5 {
      TurnMoves(s, t, k);
      TurnEnds(Taken(s, Turn(t)[k]), t, k + 1);
    } else {
      LastStepEnds(s, t);
      RunsNothing(Taken(s, Release(t)), t);
    }
  }

  lemma RunsNothing(s: State, t: nat)
    ensures Run(s, RestOfTurn(t, 6)) == s
  {
  }

  /** The task has left with an answer, the lock is free, and nobody else has moved. */
  predicate Ended(s: State, r: State, t: nat) {
    && r.holder.None? && t in r.tasks && r.tasks[t].phase.Idle?
    && |r.answers| == |s.answers| + 1 && r.answers[..|s.answers|] == s.answers
    && forall u :: u in s.tasks && u != t ==> u in r.tasks && r.tasks[u] == s.tasks[u]
  }

  lemma LastStepEnds(s: State, t: nat)
    requires t in s.tasks && s.tasks[t].phase.Finished?
    ensures Ended(s, Taken(s, Release(t)), t)
  {
    hide Apply;
  }

  /** Whatever has happened, whoever holds the lock can finish: its own steps free the lock and answer its caller. */
  lemma HolderCanFinish(s: State, t: nat)
    requires t in s.tasks && InCriticalSection(s.tasks[t].phase)
    ensures Ended(s, Run(s, Turn(t)), t)
  {
    hide Run;
    assert RestOfTurn(t, 0) == Turn(t);
    TurnEnds(s, t, 0);
  }

  lemma RunTurn(s: State, t: nat)
    ensures Run(s, Turn(t)) == Closed(Taken(Taken(s, Load(t, true)), Decide(t)), t)
  {
    hide Run, Next, Enabled;
    var one := Taken(s, Load(t, true));
    var two := Taken(one, Decide(t));
    var three := Taken(two, Persist(t, true));
    var four := Taken(three, Publish(t));
    var five := Taken(four, Refresh(t, true));
    assert RestOfTurn(t, 0) == Turn(t);
    RunRest(s, t, 0);
    RunRest(one, t, 1);
    RunRest(two, t, 2);
    RunRest(three, t, 3);
    RunRest(four, t, 4);
    RunRest(five, t, 5);
    RunsNothing(Taken(five, Release(t)), t);
  }

  /** The turn behind the decision. */
  ghost function Closed(s: State, t: nat): State {
    Taken(Taken(Taken(Taken(s, Persist(t, true)), Publish(t)), Refresh(t, true)), Release(t))
  }

  /** The task has answered and published the file. */
  ghost predicate Completed(s: State, r: State, t: nat, tx: Tx, at: nat, reply: Reply)
    requires t in s.tasks
  {
    && r.answers == s.answers + [Answer(Mutate(tx), s.tasks[t].since, at, reply)]
    && r.holder.None? && r.tasks == s.tasks[t := s.tasks[t].(phase := Idle)]
    && r.caches == s.caches[s.tasks[t].process := r.file]
  }

  lemma ClosesWrite(s: State, t: nat, tx: Tx, next: seq<Profile>)
    requires t in s.tasks && s.tasks[t].phase == Writing(tx, next)
    ensures
      var r := Closed(s, t);
      Completed(s, r, t, tx, |s.commits|, Done(next)) && r.file == next && r.commits == s.commits + [tx]
  {
    hide Apply;
    var written := Next(s, Persist(t, true));
    ClosesPublishing(written, t, tx, Done(next), |s.commits|);
    assert !Enabled(written, Persist(t, true));
  }

  lemma ClosesPublishing(s: State, t: nat, tx: Tx, reply: Reply, at: nat)
    requires t in s.tasks && s.tasks[t].phase == Publishing(Mutate(tx), s.file, reply, at)
    ensures
      var r := Closed(s, t);
      Completed(s, r, t, tx, at, reply) && r.file == s.file && r.commits == s.commits
  {
    hide Apply;
    var published := Next(s, Publish(t));
    assert !Enabled(published, Refresh(t, true));
    assert Closed(s, t) == Next(published, Release(t));
  }

  lemma ClosesFailed(s: State, t: nat, tx: Tx, reply: Reply, at: nat)
    requires t in s.tasks && s.tasks[t].phase == StoreTransactions.Failed(Mutate(tx), reply, at)
    ensures
      var r := Closed(s, t);
      Completed(s, r, t, tx, at, reply) && r.file == s.file && r.commits == s.commits
  {
    hide Apply;
    var refreshed := Next(s, Refresh(t, true));
    assert !Enabled(s, Persist(t, true)) && !Enabled(s, Publish(t));
    assert Closed(s, t) == Next(refreshed, Release(t));
  }

  /** What the caller of an operation is told. */
  function ReplyTo(applied: Applied): Reply {
    match applied
    case Write(next) => Done(next)
    case NoWrite => Same
    case Rejected(e) => Refused(e)
  }

  /**
    A transaction that nobody interrupts: the file becomes what the operation makes of it, exactly that is
    committed and answered, or the refusal or the lack of a change is; and the cache is the file.
   */
  lemma UninterruptedTransaction(s: State, t: nat, tx: Tx)
    requires Enabled(s, Step.Request(t, Mutate(tx))) && s.holder.None?
    ensures
      var asked := Next(s, Step.Request(t, Mutate(tx)));
      && Enabled(asked, Acquire(t))
      && var r, applied := Run(Next(asked, Acquire(t)), Turn(t)), Apply(tx.op, s.file, tx.now);
      && r.file == (if applied.Write? then applied.next else s.file)
      && r.commits == (if applied.Write? then s.commits + [tx] else s.commits)
      && Completed(asked, r, t, tx, |s.commits|, ReplyTo(applied))
  {
    hide Apply, Run, Closed;
    var held := Next(Next(s, Step.Request(t, Mutate(tx))), Acquire(t));
    var loaded := Taken(held, Load(t, true));
    var decided := Taken(loaded, Decide(t));
    RunTurn(held, t);
    match Apply(tx.op, s.file, tx.now)
    case Write(next) => ClosesWrite(decided, t, tx, next);
    case NoWrite => ClosesPublishing(decided, t, tx, Same, |s.commits|);
    case Rejected(e) => ClosesFailed(decided, t, tx, Refused(e), |s.commits|);
  }

  // ----- caches

  /** Publishing, and a refresh that succeeds, leave the process's cache at the current file. */
  lemma PublishedIsCurrent(s: State, step: Step)
    requires Enabled(s, step) && Exclusive(s) && (step.Publish? || (step.Refresh? && step.ok))
    ensures
      var n, p := Next(s, step), s.tasks[step.task].process;
      p in n.caches && n.caches[p] == n.file && p in n.seen && n.seen[p] == |n.commits|
  {
    hide Apply;
    TaskAgrees(s, step.task);
  }
}
