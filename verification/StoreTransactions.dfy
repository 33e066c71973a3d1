/**
  The store's transactions as a state machine over the steps of many processes.  Each transaction takes
  the advisory lock, reloads the file, decides, possibly replaces the file atomically, publishes to its
  process's cache, releases the lock and answers its caller; loading and writing may fail at any time, and
  a process may die at any time, which frees its lock.
 */
module StoreTransactions {
  import opened Bytes
  import opened Profiles
  import opened ProfileStore

  /** A mutation reads the clock before it queues for the lock. */
  datatype Request = Read | Mutate(tx: Tx)

  /** What the caller is told: the profiles read, the profiles written, no change, an error, or an I/O failure. */
  datatype Reply =
    | Value(profiles: seq<Profile>)
    | Done(next: seq<Profile>)
    | Same
    | Refused(error: Error)
    | Broken

  /** `at` is the transaction's place: the number of commits when it decided. */
  datatype Phase =
    | Idle
    | Waiting(request: Request)
    | Holding(request: Request)
    | Loaded(request: Request, current: seq<Profile>)
    | Writing(tx: Tx, next: seq<Profile>)
    | Publishing(request: Request, value: seq<Profile>, reply: Reply, at: nat)
    | Failed(request: Request, reply: Reply, at: nat)
    | Finished(request: Request, reply: Reply, at: nat)

  /** A task of a process; the tasks of one process share its cache. `since` counts the commits at its request. */
  datatype Task = Task(process: nat, since: nat, phase: Phase)

  datatype Answer = Answer(request: Request, since: nat, at: nat, reply: Reply)

  /**
    `file` is the profile file, `holder` the task that has the advisory lock.  The commits, the answers
    given, and, per cache, the number of commits it reflects exist for reasoning only.
   */
  datatype State = State(file: seq<Profile>, holder: Option<nat>, tasks: map<nat, Task>,
                         caches: map<nat, seq<Profile>>, initial: seq<Profile>,
                         commits: seq<Tx>, seen: map<nat, nat>, answers: seq<Answer>)

  function Initial(file: seq<Profile>): State {
    State(file, None, map[], map[], file, [], map[], [])
  }

  datatype Step =
    | Open(process: nat)
    | Spawn(task: nat, process: nat)
    | Request(task: nat, request: Request)
    | Acquire(task: nat)
    | Load(task: nat, ok: bool)
    | Decide(task: nat)
    | Persist(task: nat, ok: bool)
    | Publish(task: nat)
    | Refresh(task: nat, ok: bool)
    | Release(task: nat)
    | Crash(process: nat)

  predicate Enabled(s: State, step: Step) {
    match step
    case Open(p) => p !in s.caches
    case Spawn(t, p) => t !in s.tasks && p in s.caches
    case Request(t, _) => t in s.tasks && s.tasks[t].phase.Idle?
    case Acquire(t) => t in s.tasks && s.tasks[t].phase.Waiting? && s.holder.None?
    case Load(t, _) => t in s.tasks && s.tasks[t].phase.Holding?
    case Decide(t) => t in s.tasks && s.tasks[t].phase.Loaded?
    case Persist(t, _) => t in s.tasks && s.tasks[t].phase.Writing?
    case Publish(t) => t in s.tasks && s.tasks[t].phase.Publishing?
    case Refresh(t, _) => t in s.tasks && s.tasks[t].phase.Failed?
    case Release(t) => t in s.tasks && s.tasks[t].phase.Finished?
    case Crash(p) => p in s.caches
  }

  function To(s: State, t: nat, phase: Phase): State
    requires t in s.tasks
  {
    s.(tasks := s.tasks[t := s.tasks[t].(phase := phase)])
  }

  /** Replace a process's cache by `value`, which is the file after `n` commits. */
  function Publishes(s: State, process: nat, value: seq<Profile>, n: nat): State {
    s.(caches := s.caches[process := value], seen := s.seen[process := n])
  }

  /** The process is gone with its tasks, its cache and, if one of its tasks held it, the lock. */
  function Crashed(s: State, process: nat): State {
    s.(tasks := map t | t in s.tasks && s.tasks[t].process != process :: s.tasks[t],
       holder := if s.holder.Some? && s.holder.value in s.tasks && s.tasks[s.holder.value].process == process
                 then None else s.holder,
       caches := s.caches - {process}, seen := s.seen - {process})
  }

  ghost function Next(s: State, step: Step): State
    requires Enabled(s, step)
  {
    match step
    case Open(p) => Publishes(s, p, s.file, |s.commits|)
    case Spawn(t, p) => s.(tasks := s.tasks[t := Task(p, 0, Idle)])
    case Request(t, r) => s.(tasks := s.tasks[t := s.tasks[t].(phase := Waiting(r), since := |s.commits|)])
    case Acquire(t) => To(s, t, Holding(s.tasks[t].phase.request)).(holder := Some(t))
    case Load(t, ok) =>
      var r := s.tasks[t].phase.request;
      To(s, t, if ok then Loaded(r, s.file)
               else if r.Read? then Finished(r, Broken, |s.commits|) else Failed(r, Broken, |s.commits|))
    case Decide(t) =>
      var Loaded(r, current) := s.tasks[t].phase;
      (match r
       case Read => To(s, t, Publishing(r, current, Value(current), |s.commits|))
       case Mutate(tx) =>
         match Apply(tx.op, current, tx.now)
         case Rejected(e) => To(s, t, Failed(r, Refused(e), |s.commits|))
         case NoWrite => To(s, t, Publishing(r, current, Same, |s.commits|))
         case Write(next) => To(s, t, Writing(tx, next)))
    case Persist(t, ok) =>
      var Writing(tx, next) := s.tasks[t].phase;
      if ok then To(s, t, Publishing(Mutate(tx), next, Done(next), |s.commits|)).(file := next, commits := s.commits + [tx])
      else To(s, t, Failed(Mutate(tx), Broken, |s.commits|))
    case Publish(t) =>
      var Publishing(r, value, reply, at) := s.tasks[t].phase;
      Publishes(To(s, t, Finished(r, reply, at)), s.tasks[t].process, value, |s.commits|)
    case Refresh(t, ok) =>
      var Failed(r, reply, at) := s.tasks[t].phase;
      var done := To(s, t, Finished(r, reply, at));
      if ok then Publishes(done, s.tasks[t].process, s.file, |s.commits|) else done
    case Release(t) =>
      var Finished(r, reply, at) := s.tasks[t].phase;
      To(s, t, Idle).(holder := None, answers := s.answers + [Answer(r, s.tasks[t].since, at, reply)])
    case Crash(p) => Crashed(s, p)
  }

  /** Disabled steps are skipped, so a schedule is any interleaving. */
  ghost function Run(s: State, schedule: seq<Step>): State
    decreases |schedule|
  {
    if schedule == [] then s
    else Run(if Enabled(s, schedule[0]) then Next(s, schedule[0]) else s, schedule[1..])
  }

  // ----- linearisation

  /** Every transaction of the list writes when applied to the result of the ones before it. */
  ghost predicate AllWrite(initial: seq<Profile>, commits: seq<Tx>)
    decreases |commits|
  {
    commits != [] ==>
      && AllWrite(initial, commits[..|commits| - 1])
      && Apply(commits[|commits| - 1].op, Replay(initial, commits[..|commits| - 1]), commits[|commits| - 1].now).Write?
  }

  /** The serial execution of the committed transactions. */
  ghost function Replay(initial: seq<Profile>, commits: seq<Tx>): seq<Profile>
    decreases |commits|
  {
    if commits == [] then initial
    else
      var before, tx := Replay(initial, commits[..|commits| - 1]), commits[|commits| - 1];
      var applied := Apply(tx.op, before, tx.now);
      if applied.Write? then applied.next else before
  }

  predicate InCriticalSection(phase: Phase) {
    !phase.Idle? && !phase.Waiting?
  }

  /** What a task inside its critical section knows about the file. */
  ghost predicate PhaseAgrees(s: State, phase: Phase) {
    match phase
    case Loaded(_, current) => current == s.file
    case Writing(tx, next) => Apply(tx.op, s.file, tx.now) == Write(next)
    case Publishing(_, value, _, _) => value == s.file
    case _ => true
  }

  /**
    The file is the serial execution of the commits, each of which wrote when applied to its exact
    predecessor, and every cache is the file as it was after some number of commits.
   */
  ghost predicate Linear(s: State) {
    && s.file == Replay(s.initial, s.commits)
    && AllWrite(s.initial, s.commits)
    && s.seen.Keys == s.caches.Keys
    && forall p :: p in s.caches ==>
         s.seen[p] <= |s.commits| && s.caches[p] == Replay(s.initial, s.commits[..s.seen[p]])
  }

  /** Mutual exclusion, and the knowledge it protects. */
  ghost predicate Exclusive(s: State) {
    && (forall t :: t in s.tasks && InCriticalSection(s.tasks[t].phase) ==> s.holder == Some(t))
    && (forall t :: t in s.tasks ==> PhaseAgrees(s, s.tasks[t].phase) && s.tasks[t].process in s.caches)
  }

  lemma ReplayAll(initial: seq<Profile>, commits: seq<Tx>)
    ensures Replay(initial, commits[..|commits|]) == Replay(initial, commits)
  {
    assert commits[..|commits|] == commits;
  }

  lemma ReplayOneMore(initial: seq<Profile>, commits: seq<Tx>, tx: Tx)
    requires AllWrite(initial, commits) && Apply(tx.op, Replay(initial, commits), tx.now).Write?
    ensures Replay(initial, commits + [tx]) == Apply(tx.op, Replay(initial, commits), tx.now).next
    ensures AllWrite(initial, commits + [tx])
    ensures forall n :: 0 <= n <= |commits| ==> (commits + [tx])[..n] == commits[..n]
  {
    assert (commits + [tx])[..|commits|] == commits;
  }

  lemma StepKeepsExclusion(s: State, step: Step)
    requires Enabled(s, step) && Exclusive(s)
    ensures Exclusive(Next(s, step))
  {
    hide Apply;
    var n := Next(s, step);
    forall t | t in n.tasks
      ensures InCriticalSection(n.tasks[t].phase) ==> n.holder == Some(t)
      ensures PhaseAgrees(n, n.tasks[t].phase) && n.tasks[t].process in n.caches
    {
      TaskStaysExclusive(s, step, t);
    }
  }

  /** While one task is inside its critical section no other is. */
  lemma OthersAreOutside(s: State, step: Step, t: nat)
    requires Enabled(s, step) && Exclusive(s) && t in s.tasks
    ensures InCriticalSection(s.tasks[t].phase) ==> s.holder == Some(t)
    ensures (step.Persist? || step.Acquire? || step.Release?) && t != step.task ==> !InCriticalSection(s.tasks[t].phase)
    ensures PhaseAgrees(s, s.tasks[t].phase) && s.tasks[t].process in s.caches
  {
  }

  lemma TaskStaysExclusive(s: State, step: Step, t: nat)
    requires Enabled(s, step) && Exclusive(s) && t in Next(s, step).tasks
    ensures
      var n := Next(s, step);
      && (InCriticalSection(n.tasks[t].phase) ==> n.holder == Some(t))
      && PhaseAgrees(n, n.tasks[t].phase) && n.tasks[t].process in n.caches
  {
    hide Apply, Exclusive;
    if t in s.tasks {
      OthersAreOutside(s, step, t);
    }
  }

  lemma StepKeepsLinear(s: State, step: Step)
    requires Enabled(s, step) && Exclusive(s) && Linear(s)
    ensures Linear(Next(s, step))
  {
    hide Apply, Replay, AllWrite, Exclusive;
    ReplayAll(s.initial, s.commits);
    if step.Persist? {
      var Writing(tx, next) := s.tasks[step.task].phase;
      TaskAgrees(s, step.task);
      if step.ok {
        ReplayOneMore(s.initial, s.commits, tx);
      }
    } else if step.Publish? {
      TaskAgrees(s, step.task);
    }
  }

  lemma TaskAgrees(s: State, t: nat)
    requires Exclusive(s) && t in s.tasks
    ensures PhaseAgrees(s, s.tasks[t].phase)
  {
  }

  /** The commits a process has seen; a process that is not there will start from the file as it is then. */
  ghost function SeenBy(s: State, process: nat): nat {
    if process in s.caches && process in s.seen then s.seen[process] else |s.commits|
  }

  /** No cache ever goes back to an older commit: failed and no-op transactions, crash and restart included. */
  lemma CachesNeverGoBack(s: State, step: Step, process: nat)
    requires Enabled(s, step) && s.seen.Keys == s.caches.Keys
    requires process in s.caches ==> s.seen[process] <= |s.commits|
    ensures SeenBy(s, process) <= SeenBy(Next(s, step), process)
  {
    hide Apply;
  }

  /**
    For every interleaving of any number of processes, with failures and crashes anywhere: the file is the
    fold of the commits in commit order, every cache is the file after some of them, and no cache moves back.
   */
  lemma {:induction false} TransactionsLinearise(s: State, schedule: seq<Step>)
    requires Exclusive(s) && Linear(s)
    ensures
      var r := Run(s, schedule);
      && Exclusive(r) && Linear(r)
      && r.initial == s.initial && s.commits <= r.commits
      && forall p :: SeenBy(s, p) <= SeenBy(r, p)
    decreases |schedule|
  {
    hide Next;
    if schedule != [] {
      var n := if Enabled(s, schedule[0]) then Next(s, schedule[0]) else s;
      if Enabled(s, schedule[0]) {
        StepKeepsExclusion(s, schedule[0]);
        StepKeepsLinear(s, schedule[0]);
        CommitsGrow(s, schedule[0]);
        forall p ensures SeenBy(s, p) <= SeenBy(n, p) {
          CachesNeverGoBack(s, schedule[0], p);
        }
      }
      TransactionsLinearise(n, schedule[1..]);
    }
  }

  lemma CommitsGrow(s: State, step: Step)
    requires Enabled(s, step)
    ensures s.commits <= Next(s, step).commits && Next(s, step).initial == s.initial
  {
    hide Apply;
  }

  lemma TransactionsLineariseFromStart(file: seq<Profile>, schedule: seq<Step>)
    ensures Linear(Run(Initial(file), schedule)) && Run(Initial(file), schedule).initial == file
  {
    TransactionsLinearise(Initial(file), schedule);
  }

  // ----- what callers are told

  /** The reply is what the request gives when applied at its place in the commit order. */
  ghost predicate IsRight(initial: seq<Profile>, commits: seq<Tx>, request: Request, reply: Reply, at: nat) {
    && at <= |commits|
    && var there := Replay(initial, commits[..at]);
       match reply
       case Value(v) => request.Read? && v == there
       case Done(next) =>
         && request.Mutate? && at < |commits| && commits[at] == request.tx
         && Apply(request.tx.op, there, request.tx.now) == Write(next)
       case Same => request.Mutate? && Apply(request.tx.op, there, request.tx.now) == NoWrite
       case Refused(e) => request.Mutate? && Apply(request.tx.op, there, request.tx.now) == Rejected(e)
       case Broken => true
  }

  /** A reply already decided on is right, and if it is a commit, that is the last one. */
  ghost predicate PendingIsRight(s: State, t: nat) {
    t in s.tasks ==>
      var task := s.tasks[t];
      match task.phase
      case Idle => true
      case Publishing(r, _, reply, at) => DecidedRight(s, task.since, r, reply, at)
      case Failed(r, reply, at) => DecidedRight(s, task.since, r, reply, at) && !reply.Done?
      case Finished(r, reply, at) => DecidedRight(s, task.since, r, reply, at)
      case _ => task.since <= |s.commits|
  }

  ghost predicate DecidedRight(s: State, since: nat, request: Request, reply: Reply, at: nat) {
    && since <= at && IsRight(s.initial, s.commits, request, reply, at)
    && (reply.Done? ==> at + 1 == |s.commits| && forall i :: 0 <= i < |s.answers| && s.answers[i].reply.Done? ==> s.answers[i].at < at)
  }

  /**
    Every answer is right at a place between its request and now, and the commits that were answered are
    answered once each, in commit order.
   */
  ghost predicate AnswersRight(s: State) {
    && (forall i :: 0 <= i < |s.answers| ==>
          && s.answers[i].since <= s.answers[i].at
          && IsRight(s.initial, s.commits, s.answers[i].request, s.answers[i].reply, s.answers[i].at))
    && (forall i, j :: 0 <= i < j < |s.answers| && s.answers[i].reply.Done? && s.answers[j].reply.Done? ==>
          s.answers[i].at < s.answers[j].at)
    && (forall t :: PendingIsRight(s, t))
  }

  /** More commits do not change what was right. */
  lemma StaysRight(initial: seq<Profile>, commits: seq<Tx>, more: seq<Tx>, request: Request, reply: Reply, at: nat)
    requires IsRight(initial, commits, request, reply, at)
    ensures IsRight(initial, commits + more, request, reply, at)
  {
    assert (commits + more)[..at] == commits[..at];
  }

  lemma CommitKeepsAnswers(s: State, t: nat)
    requires Enabled(s, Persist(t, true)) && Exclusive(s) && Linear(s) && AnswersRight(s)
    ensures AnswersRight(Next(s, Persist(t, true)))
  {
    hide Apply, Replay, Linear, IsRight;
    var n, tx := Next(s, Persist(t, true)), s.tasks[t].phase.tx;
    forall i | 0 <= i < |n.answers|
      ensures IsRight(n.initial, n.commits, n.answers[i].request, n.answers[i].reply, n.answers[i].at)
    {
      StaysRight(s.initial, s.commits, [tx], s.answers[i].request, s.answers[i].reply, s.answers[i].at);
    }
    AnsweredBefore(s);
    TaskAgrees(s, t);
    CommitIsRight(s, t);
    forall u: nat ensures PendingIsRight(n, u) {
      assert PendingIsRight(s, u);
      assert u in s.tasks && u != t ==> !InCriticalSection(s.tasks[u].phase);
    }
  }

  /** Every commit that was answered lies in the commit order. */
  lemma AnsweredBefore(s: State)
    requires AnswersRight(s)
    ensures forall i :: 0 <= i < |s.answers| && s.answers[i].reply.Done? ==> s.answers[i].at < |s.commits|
  {
    hide Apply, Replay;
  }

  lemma CommitIsRight(s: State, t: nat)
    requires t in s.tasks && s.tasks[t].phase.Writing? && PhaseAgrees(s, s.tasks[t].phase)
    requires Linear(s)
    ensures
      var phase := s.tasks[t].phase;
      IsRight(s.initial, s.commits + [phase.tx], Mutate(phase.tx), Done(phase.next), |s.commits|)
  {
    hide Apply, Replay, IsRight;
    DoneIsRight(s.initial, s.commits, s.tasks[t].phase.tx, s.tasks[t].phase.next);
  }

  lemma DoneIsRight(initial: seq<Profile>, commits: seq<Tx>, tx: Tx, next: seq<Profile>)
    requires Apply(tx.op, Replay(initial, commits), tx.now) == Write(next)
    ensures IsRight(initial, commits + [tx], Mutate(tx), Done(next), |commits|)
  {
    hide Apply, Replay;
    assert (commits + [tx])[..|commits|] == commits;
  }

  lemma DecisionIsRight(s: State, t: nat)
    requires Enabled(s, Decide(t)) && Exclusive(s) && Linear(s)
    ensures
      var r := s.tasks[t].phase.request;
      match r
      case Read => IsRight(s.initial, s.commits, r, Value(s.tasks[t].phase.current), |s.commits|)
      case Mutate(tx) =>
        match Apply(tx.op, s.tasks[t].phase.current, tx.now)
        case Rejected(e) => IsRight(s.initial, s.commits, r, Refused(e), |s.commits|)
        case NoWrite => IsRight(s.initial, s.commits, r, Same, |s.commits|)
        case Write(_) => true
  {
    hide Apply, Replay;
    TaskAgrees(s, t);
    assert s.commits[..|s.commits|] == s.commits;
  }

  lemma FailureIsRight(s: State, request: Request)
    ensures IsRight(s.initial, s.commits, request, Broken, |s.commits|)
  {
    hide Apply, Replay;
  }

  lemma StepKeepsAnswers(s: State, step: Step)
    requires Enabled(s, step) && Exclusive(s) && Linear(s) && AnswersRight(s)
    ensures AnswersRight(Next(s, step))
  {
    hide Apply, Replay, Linear, IsRight;
    if step.Persist? && step.ok {
      CommitKeepsAnswers(s, step.task);
    } else if step.Release? {
      AnswerIsRight(s, step.task);
    } else {
      var n := Next(s, step);
      NothingAnswered(s, step);
      forall t: nat ensures PendingIsRight(n, t) {
        PendingStaysRight(s, step, t);
      }
    }
  }

  /** Only a release answers, and only a successful persist commits. */
  lemma NothingAnswered(s: State, step: Step)
    requires Enabled(s, step) && !step.Release? && !(step.Persist? && step.ok)
    ensures
      var n := Next(s, step);
      n.answers == s.answers && n.commits == s.commits && n.initial == s.initial
  {
    hide Apply;
  }

  lemma PendingStaysRight(s: State, step: Step, t: nat)
    requires Enabled(s, step) && Exclusive(s) && Linear(s) && !step.Release? && !(step.Persist? && step.ok)
    requires PendingIsRight(s, t)
    ensures PendingIsRight(Next(s, step), t)
  {
    hide Apply, IsRight, Linear, Exclusive, DecidedRight;
    if step.Decide? && t == step.task {
      DecidedStaysRight(s, t);
    } else if (step.Load? || step.Persist?) && t == step.task {
      FailedStaysRight(s, step);
    } else {
      NothingAnswered(s, step);
      SameRecordSameRight(s, Next(s, step));
    }
  }

  lemma SameRecordSameRight(s: State, n: State)
    requires n.answers == s.answers && n.commits == s.commits && n.initial == s.initial
    ensures forall since, r, reply, at :: DecidedRight(s, since, r, reply, at) <==> DecidedRight(n, since, r, reply, at)
  {
    hide IsRight;
  }

  lemma FailedStaysRight(s: State, step: Step)
    requires Enabled(s, step) && (step.Load? || (step.Persist? && !step.ok)) && PendingIsRight(s, step.task)
    ensures PendingIsRight(Next(s, step), step.task)
  {
    hide Apply, IsRight;
    var phase := s.tasks[step.task].phase;
    FailureIsRight(s, if step.Load? then phase.request else Mutate(phase.tx));
  }

  lemma DecidedStaysRight(s: State, t: nat)
    requires Enabled(s, Decide(t)) && Exclusive(s) && Linear(s) && PendingIsRight(s, t)
    ensures PendingIsRight(Next(s, Decide(t)), t)
  {
    hide Apply, IsRight, Linear, Exclusive;
    DecisionIsRight(s, t);
  }

  lemma AnswerIsRight(s: State, t: nat)
    requires Enabled(s, Release(t)) && Exclusive(s) && AnswersRight(s)
    ensures AnswersRight(Next(s, Release(t)))
  {
    hide Apply, Replay, Linear, IsRight;
    assert PendingIsRight(s, t);
    var n := Next(s, Release(t));
    forall u: nat ensures PendingIsRight(n, u) {
      assert PendingIsRight(s, u);
      assert u in s.tasks && u != t ==> !InCriticalSection(s.tasks[u].phase);
    }
  }

  /**
    Linearisability, for every interleaving with failures and crashes: every answer a caller gets is the
    outcome of its request at one place of the commit order, between the commits that were there when it
    asked and those there when it is told, and the answered commits appear once each, in commit order.
   */
  lemma {:induction false} AnswersAreLinearisable(file: seq<Profile>, schedule: seq<Step>)
    ensures
      var r := Run(Initial(file), schedule);
      AnswersRight(r) && r.initial == file
  {
    AnswersStayRight(Initial(file), schedule);
  }

  lemma {:induction false} AnswersStayRight(s: State, schedule: seq<Step>)
    requires Exclusive(s) && Linear(s) && AnswersRight(s)
    ensures AnswersRight(Run(s, schedule)) && Run(s, schedule).initial == s.initial
    decreases |schedule|
  {
    hide Next, Exclusive, Linear, AnswersRight;
    if schedule != [] {
      if Enabled(s, schedule[0]) {
        StepKeepsExclusion(s, schedule[0]);
        StepKeepsLinear(s, schedule[0]);
        StepKeepsAnswers(s, schedule[0]);
        CommitsGrow(s, schedule[0]);
        AnswersStayRight(Next(s, schedule[0]), schedule[1..]);
      } else {
        AnswersStayRight(s, schedule[1..]);
      }
    }
  }

  /** A store that began empty is one of the serial runs whose histories and selections are proved elsewhere. */
  lemma {:induction false} ReplayIsStoreAfter(commits: seq<Tx>)
    ensures Replay([], commits) == StoreAfter(commits)
    decreases |commits|
  {
    if commits != [] {
      ReplayIsStoreAfter(commits[..|commits| - 1]);
    }
  }

  /** A rejected, no-op or failed transaction leaves the file as it was; only a successful persist changes it. */
  lemma OnlyPersistChangesTheFile(s: State, step: Step)
    requires Enabled(s, step) && Exclusive(s)
    ensures Next(s, step).file != s.file ==>
      && step.Persist? && step.ok
      && s.holder == Some(step.task)
      && var tx := s.tasks[step.task].phase.tx;
         Apply(tx.op, s.file, tx.now) == Write(Next(s, step).file)
  {
    hide Apply;
  }
}
