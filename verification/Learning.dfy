/**
  Write-through learning: many connections, each bound to a profile revision, persist their settings
  through revision compare-and-swap while other writers use the same store.  One `learn` is three steps,
  its binding snapshot, its store transaction and its binding update, and anything may happen between.
  A cancelled `learn` skips its binding update, and its store transaction may still run later.  An open
  takes the profile's settings first and records the profile's revision later, in a transaction of its own.
 */
module Learning {
  import opened Bytes
  import opened Profiles
  import opened ProfileStore

  datatype PersistenceError = Conflict(error: Error) | ExternalChange | RolledBack | IoFailure

  /** The binding of a connection to a profile. */
  datatype Binding = Binding(profileName: string, persistent: bool, revision: Option<nat>,
                             dirty: bool, stale: bool, lastError: Option<PersistenceError>)

  /** What the store answered. */
  datatype Answer = Unchanged | Changed(revision: nat) | Failed(error: PersistenceError)

  /**
    Where a connection is: about to open with the settings it planned, bound but not yet attached, idle, or
    inside `learn`.  Its learning lock admits one call at a time.
   */
  datatype Phase = Planned | Opening | Quiet | Asking(expected: nat, defaults: Defaults) | Answered(answer: Answer)

  /** The profile as it was when its settings were taken. */
  datatype Plan = Plan(revision: nat, selector: Selector, defaults: Defaults)

  /**
    Kept for reasoning only: the plan, the revision that the open then bound, and whether a learned write
    of this connection has changed the profile yet.
   */
  datatype Story = Story(plan: Plan, bound: nat, wrote: bool)

  datatype Connection = Connection(binding: Binding, phase: Phase, story: Story)

  /** A learned write that a cancelled call left behind. */
  datatype Request = Request(id: nat, name: string, expected: nat, defaults: Defaults)

  datatype State = State(store: seq<Profile>, connections: map<nat, Connection>, detached: set<Request>)

  datatype Step =
    | TakeSettings(id: nat, name: string, dirty: bool)
    | Open(id: nat, now: nat, ok: bool)
    | Attach(id: nat)
    | Begin(id: nat, defaults: Defaults)
    | Persist(id: nat, now: nat)
    | PersistFails(id: nat)
    | Finish(id: nat)
    | Cancel(id: nat)
    | PersistDetached(request: Request, now: nat)
    | OtherWriter(op: Op, now: nat)
    | MarkStale(id: nat)

  /** The connection shows its binding to others. */
  predicate IsAttached(c: Connection) {
    !c.phase.Planned? && !c.phase.Opening?
  }

  predicate Enabled(s: State, step: Step) {
    match step
    case TakeSettings(id, name, _) => id !in s.connections && Lookup(s.store, name).Some?
    case Open(id, _, _) => id in s.connections && s.connections[id].phase.Planned?
    case Attach(id) => id in s.connections && s.connections[id].phase.Opening?
    case Begin(id, _) => id in s.connections && s.connections[id].phase.Quiet?
    case Persist(id, _) => id in s.connections && s.connections[id].phase.Asking?
    case PersistFails(id) => id in s.connections && s.connections[id].phase.Asking?
    case Finish(id) => id in s.connections && s.connections[id].phase.Answered?
    case Cancel(id) => id in s.connections && (s.connections[id].phase.Asking? || s.connections[id].phase.Answered?)
    case PersistDetached(request, _) => request in s.detached
    case OtherWriter(op, _) => !op.UpdateLearned?
    case MarkStale(id) => id in s.connections && s.connections[id].binding.persistent && IsAttached(s.connections[id])
  }

  /** The revision a learned write will be accepted at. */
  function ExpectedRevision(b: Binding): nat {
    if b.revision.Some? then b.revision.value else 0
  }

  function BeginLearn(c: Connection, defaults: Defaults): Connection {
    var b := c.binding;
    if !b.persistent then c
    else if b.stale then
      c.(binding := b.(dirty := true, lastError := if b.lastError.Some? then b.lastError else Some(ExternalChange)))
    else c.(phase := Asking(ExpectedRevision(b), defaults))
  }

  /** Conflicts and missing profiles make a binding stale; I/O failures leave it retryable. */
  function UpdateBinding(b: Binding, answer: Answer): Binding {
    match answer
    case Unchanged => b.(dirty := false, stale := false, lastError := None)
    case Changed(revision) => b.(revision := Some(revision), dirty := false, stale := false, lastError := None)
    case Failed(error) => b.(dirty := true, stale := b.stale || error.Conflict?, lastError := Some(error))
  }

  function Put(s: State, id: nat, c: Connection): State {
    s.(connections := s.connections[id := c])
  }

  ghost function AfterWrite(ps: seq<Profile>, op: Op, now: nat): seq<Profile> {
    var applied := Apply(op, ps, now);
    if applied.Write? then applied.next else ps
  }

  /** What a connection inside `learn` asks of the store. */
  function RequestOf(s: State, id: nat): Request
    requires id in s.connections && s.connections[id].phase.Asking?
  {
    var c := s.connections[id];
    Request(id, c.binding.profileName, c.phase.expected, c.phase.defaults)
  }

  function LearnedOp(r: Request): Op {
    UpdateLearned(r.name, r.expected, r.defaults)
  }

  ghost function AnswerTo(ps: seq<Profile>, op: Op, now: nat): Answer
    requires op.UpdateLearned?
  {
    match Apply(op, ps, now)
    case Rejected(e) => Failed(Conflict(e))
    case NoWrite => Unchanged
    case Write(_) => Changed(op.expected + 1)
  }

  /** A changing write of connection `id`, its own or a detached one, is noted in its story. */
  function Noted(s: State, id: nat, changed: bool): State {
    if changed && id in s.connections
    then Put(s, id, s.connections[id].(story := s.connections[id].story.(wrote := true)))
    else s
  }

  /**
    The open marks the profile used and records its revision; when that fails, it records the revision of
    the profile whose settings it took.
   */
  ghost function Bound(s: State, c: Connection, ok: bool): Connection {
    var p := Lookup(s.store, c.binding.profileName);
    if ok && p.Some? then
      c.(binding := c.binding.(revision := Some(p.value.metadata.revision)), phase := Opening,
         story := c.story.(bound := p.value.metadata.revision))
    else
      c.(binding := c.binding.(lastError := Some(if ok then Conflict(NotFound) else IoFailure)), phase := Opening)
  }

  function MarkedStale(b: Binding): Binding {
    b.(stale := true, dirty := true, lastError := Some(RolledBack))
  }

  ghost function Next(s: State, step: Step): State
    requires Enabled(s, step)
  {
    match step
    case TakeSettings(id, name, dirty) =>
      var p := Lookup(s.store, name).value;
      var story := Story(Plan(p.metadata.revision, p.selector, p.defaults), p.metadata.revision, false);
      Put(s, id, Connection(Binding(name, true, Some(p.metadata.revision), dirty, false, None), Planned, story))
    case Open(id, now, ok) =>
      var c := s.connections[id];
      Put(s, id, Bound(s, c, ok))
        .(store := if ok then AfterWrite(s.store, MarkUsed(c.binding.profileName), now) else s.store)
    case Attach(id) => Put(s, id, s.connections[id].(phase := Quiet))
    case Begin(id, defaults) => Put(s, id, BeginLearn(s.connections[id], defaults))
    case Persist(id, now) =>
      var op := LearnedOp(RequestOf(s, id));
      var answer := AnswerTo(s.store, op, now);
      Noted(Put(s, id, s.connections[id].(phase := Answered(answer))), id, answer.Changed?)
        .(store := AfterWrite(s.store, op, now))
    case PersistFails(id) => Put(s, id, s.connections[id].(phase := Answered(Failed(IoFailure))))
    case Finish(id) =>
      var c := s.connections[id];
      Put(s, id, c.(binding := UpdateBinding(c.binding, c.phase.answer), phase := Quiet))
    case Cancel(id) =>
      var c := s.connections[id];
      Put(s, id, c.(phase := Quiet))
        .(detached := s.detached + if c.phase.Asking? then {RequestOf(s, id)} else {})
    case PersistDetached(request, now) =>
      Noted(s, request.id, AnswerTo(s.store, LearnedOp(request), now).Changed?)
        .(store := AfterWrite(s.store, LearnedOp(request), now), detached := s.detached - {request})
    case OtherWriter(op, now) => s.(store := AfterWrite(s.store, op, now))
    case MarkStale(id) =>
      var c := s.connections[id];
      Put(s, id, c.(binding := MarkedStale(c.binding)))
  }

  ghost function Run(s: State, schedule: seq<Step>): State
    decreases |schedule|
  {
    if schedule == [] then s
    else Run(if Enabled(s, schedule[0]) then Next(s, schedule[0]) else s, schedule[1..])
  }

  // ----- what a connection last recorded

  /** The revision this connection knows: from its binding, or from an answer not yet written into it. */
  function Recorded(c: Connection): nat {
    if c.phase.Answered? && c.phase.answer.Changed? then c.phase.answer.revision
    else ExpectedRevision(c.binding)
  }

  /**
    A question in flight asks for the recorded revision, an answer in flight is past it, and a detached
    write asks for a revision that its connection had recorded.
   */
  ghost predicate Consistent(s: State) {
    && (forall id :: id in s.connections && s.connections[id].phase.Asking? ==>
          s.connections[id].phase.expected == ExpectedRevision(s.connections[id].binding))
    && (forall id :: id in s.connections && s.connections[id].phase.Answered? && s.connections[id].phase.answer.Changed? ==>
          s.connections[id].phase.answer.revision > ExpectedRevision(s.connections[id].binding))
    && (forall r :: r in s.detached ==>
          && IsBound(s, r.id) && r.name == s.connections[r.id].binding.profileName
          && r.expected <= ExpectedRevision(s.connections[r.id].binding))
  }

  lemma StepKeepsConsistent(s: State, step: Step)
    requires Enabled(s, step) && Consistent(s)
    ensures Consistent(Next(s, step))
  {
    hide Apply, Lookup, AfterWrite;
    var n := Next(s, step);
    forall r | r in n.detached
      ensures IsBound(n, r.id) && r.name == n.connections[r.id].binding.profileName
      ensures r.expected <= ExpectedRevision(n.connections[r.id].binding)
    {
      assert r in s.detached || r == RequestOf(s, step.id);
    }
  }

  /** The open has recorded a revision. */
  predicate IsBound(s: State, id: nat) {
    id in s.connections && !s.connections[id].phase.Planned?
  }

  /** The profile has moved past what the bound connection recorded. */
  ghost predicate LeftBehind(s: State, id: nat) {
    && IsBound(s, id)
    && var p := Lookup(s.store, s.connections[id].binding.profileName);
       p.Some? && p.value.metadata.revision > Recorded(s.connections[id])
  }

  /** A learned write changes the profile exactly when it finds the expected revision and other defaults. */
  lemma LearnedWriteChangesExactlyWhen(ps: seq<Profile>, r: Request, now: nat)
    ensures
      var before, after := Lookup(ps, r.name), Lookup(AfterWrite(ps, LearnedOp(r), now), r.name);
      && (after != before <==>
            before.Some? && before.value.metadata.revision == r.expected && before.value.defaults != r.defaults)
      && (after == before ==> AfterWrite(ps, LearnedOp(r), now) == ps)
      && (after != before ==>
            && after == Some(Overwritten(before.value, before.value.selector, r.defaults, now))
            && AnswerTo(ps, LearnedOp(r), now) == Changed(r.expected + 1))
  {
    hide PushRevision, MaxLastUsed, SnapshotAt;
    var op := LearnedOp(r);
    if Apply(op, ps, now).Write? {
      var i := IndexOf(ps, op.name).value;
      LookupUpdate(ps, i, Apply(op, ps, now).next[i], op.name);
    }
  }

  /**
    A learned write changes the profile exactly when the profile is at the revision that this connection
    last recorded and has other defaults; it then advances the revision by one, keeps the selector, and
    the new revision is what the connection records next.
   */
  lemma LearnedWriteLandsOnRecorded(s: State, id: nat, now: nat)
    requires Enabled(s, Persist(id, now)) && Consistent(s)
    ensures
      var c, after := s.connections[id], Next(s, Persist(id, now));
      var p, q := Lookup(s.store, c.binding.profileName), Lookup(after.store, c.binding.profileName);
      && (q != p <==> p.Some? && p.value.metadata.revision == Recorded(c) && p.value.defaults != c.phase.defaults)
      && (q != p ==>
            && q.Some? && NextRevision(p.value, q.value, now)
            && q.value.defaults == c.phase.defaults && q.value.selector == p.value.selector
            && q.value.metadata.revision == Recorded(c) + 1 == Recorded(after.connections[id]))
  {
    LearnedWriteChangesExactlyWhen(s.store, RequestOf(s, id), now);
  }

  // ----- left behind

  /** The steps that may write for this connection: its own learned write, or one that a cancelled call left. */
  predicate WritesFor(step: Step, id: nat) {
    (step.Persist? && step.id == id) || (step.PersistDetached? && step.request.id == id)
  }

  /** A connection left behind is refused: its learned writes leave the whole store as it is. */
  lemma LeftBehindCannotWrite(s: State, step: Step, id: nat)
    requires Enabled(s, step) && Consistent(s) && LeftBehind(s, id) && WritesFor(step, id)
    ensures Next(s, step).store == s.store
    ensures step.Persist? ==> Next(s, step).connections[id].phase.answer.Failed?
  {
    var r, now := if step.Persist? then RequestOf(s, id) else step.request, step.now;
    LearnedWriteChangesExactlyWhen(s.store, r, now);
    assert AfterWrite(s.store, LearnedOp(r), now) == s.store;
    assert Apply(LearnedOp(r), s.store, now).Rejected?;
  }

  /** Revisions only grow while the profile is not deleted. */
  lemma RevisionsGrow(ps: seq<Profile>, op: Op, now: nat, name: string)
    requires Lookup(ps, name).Some? && op != Delete(name)
    ensures Lookup(AfterWrite(ps, op, now), name).Some?
    ensures Lookup(ps, name).value.metadata.revision <= Lookup(AfterWrite(ps, op, now), name).value.metadata.revision
  {
    hide Apply, PushRevision;
    if Apply(op, ps, now).Write? {
      OperationsEvolveProfiles(op, ps, now, name);
    }
  }

  /** What one step does to the store, as an operation. */
  ghost function StoreOp(s: State, step: Step): Option<Tx>
    requires Enabled(s, step)
  {
    match step
    case Persist(id, now) => Some(Tx(LearnedOp(RequestOf(s, id)), now))
    case PersistDetached(request, now) => Some(Tx(LearnedOp(request), now))
    case OtherWriter(op, now) => Some(Tx(op, now))
    case Open(id, now, true) => Some(Tx(MarkUsed(s.connections[id].binding.profileName), now))
    case _ => None
  }

  lemma StepWritesItsOp(s: State, step: Step)
    requires Enabled(s, step)
    ensures Next(s, step).store
         == match StoreOp(s, step) case None => s.store case Some(tx) => AfterWrite(s.store, tx.op, tx.now)
  {
    hide Apply, Lookup;
  }

  /** Whether this step deletes the profile. */
  predicate Deletes(step: Step, name: string) {
    step.OtherWriter? && step.op == Delete(name)
  }

  lemma StepGrowsRevision(s: State, step: Step, name: string)
    requires Enabled(s, step) && Lookup(s.store, name).Some? && !Deletes(step, name)
    ensures Lookup(Next(s, step).store, name).Some?
    ensures Lookup(s.store, name).value.metadata.revision <= Lookup(Next(s, step).store, name).value.metadata.revision
  {
    hide Apply, Lookup;
    StepWritesItsOp(s, step);
    match StoreOp(s, step)
    case None =>
    case Some(tx) => RevisionsGrow(s.store, tx.op, tx.now, name);
  }

  lemma BehindStaysBehind(s: State, step: Step, id: nat)
    requires Enabled(s, step) && Consistent(s) && LeftBehind(s, id)
    requires !Deletes(step, s.connections[id].binding.profileName)
    ensures LeftBehind(Next(s, step), id)
    ensures Next(s, step).connections[id].binding.profileName == s.connections[id].binding.profileName
  {
    hide Apply, Lookup;
    StepGrowsRevision(s, step, s.connections[id].binding.profileName);
    if WritesFor(step, id) {
      LeftBehindCannotWrite(s, step, id);
    }
  }

  /** The exact condition: one step ends being left behind if and only if it deletes the profile. */
  lemma BehindUntilDeleted(s: State, step: Step, id: nat)
    requires Enabled(s, step) && Consistent(s) && LeftBehind(s, id)
    ensures !LeftBehind(Next(s, step), id) <==> Deletes(step, s.connections[id].binding.profileName)
  {
    if Deletes(step, s.connections[id].binding.profileName) {
      LookupWithout(s.store, step.op.name, step.op.name);
    } else {
      BehindStaysBehind(s, step, id);
    }
  }

  /** The steps of a schedule that write for this connection never change the store. */
  ghost predicate NeverWrites(s: State, schedule: seq<Step>, id: nat)
    decreases |schedule|
  {
    schedule != [] ==>
      var next := if Enabled(s, schedule[0]) then Next(s, schedule[0]) else s;
      && (Enabled(s, schedule[0]) && WritesFor(schedule[0], id) ==> next.store == s.store)
      && NeverWrites(next, schedule[1..], id)
  }

  predicate DeletionFree(schedule: seq<Step>, name: string) {
    forall k :: 0 <= k < |schedule| ==> !Deletes(schedule[k], name)
  }

  /**
    Over any interleaving with learn calls of other connections, configures, rollbacks and other writers
    that never delete the profile, a connection left behind never changes the store again and stays behind.
   */
  lemma {:induction false} LeftBehindForever(s: State, schedule: seq<Step>, id: nat)
    requires Consistent(s) && LeftBehind(s, id)
    requires DeletionFree(schedule, s.connections[id].binding.profileName)
    ensures NeverWrites(s, schedule, id)
    ensures LeftBehind(Run(s, schedule), id)
    decreases |schedule|
  {
    hide LeftBehind;
    if schedule != [] {
      var step := schedule[0];
      if Enabled(s, step) {
        BehindStaysBehind(s, step, id);
        StepKeepsConsistent(s, step);
        if WritesFor(step, id) {
          LeftBehindCannotWrite(s, step, id);
        }
        LeftBehindForever(Next(s, step), schedule[1..], id);
      } else {
        LeftBehindForever(s, schedule[1..], id);
      }
    }
  }

  // ----- whole runs: no lost updates

  /** A server that has just started on some store. */
  function Initial(store: seq<Profile>): State {
    State(store, map[], {})
  }

  /** Every connection bound to the profile finds it, at the revision it recorded or a later one. */
  ghost predicate Tracked(s: State, name: string) {
    forall id :: id in s.connections && s.connections[id].binding.profileName == name ==>
      && Lookup(s.store, name).Some?
      && Recorded(s.connections[id]) <= Lookup(s.store, name).value.metadata.revision
  }

  lemma StepKeepsTracked(s: State, step: Step, name: string)
    requires Enabled(s, step) && Consistent(s) && Tracked(s, name) && !Deletes(step, name)
    ensures Tracked(Next(s, step), name)
  {
    hide Apply, Lookup, AfterWrite, AnswerTo;
    var n := Next(s, step);
    forall id | id in n.connections && n.connections[id].binding.profileName == name
      ensures Lookup(n.store, name).Some?
      ensures Recorded(n.connections[id]) <= Lookup(n.store, name).value.metadata.revision
    {
      if id in s.connections {
        StepGrowsRevision(s, step, name);
        if step.Persist? && step.id == id {
          OwnAnswerIsCurrent(s, id, step.now);
        }
      }
    }
  }

  /** The revision that a learned write answers with is the profile's revision at that moment. */
  lemma OwnAnswerIsCurrent(s: State, id: nat, now: nat)
    requires Enabled(s, Persist(id, now))
    ensures
      var after := Next(s, Persist(id, now));
      var c, p := after.connections[id], Lookup(after.store, s.connections[id].binding.profileName);
      c.phase.answer.Changed? ==> p.Some? && c.phase.answer.revision == p.value.metadata.revision
  {
    hide PushRevision;
    LearnedWriteChangesExactlyWhen(s.store, RequestOf(s, id), now);
  }

  /** Holds in every run from a start without connections, for each profile that the run never deletes. */
  lemma {:induction false} ConnectionsTrackTheirProfile(s: State, schedule: seq<Step>, name: string)
    requires Consistent(s) && Tracked(s, name) && DeletionFree(schedule, name)
    ensures Consistent(Run(s, schedule)) && Tracked(Run(s, schedule), name)
    decreases |schedule|
  {
    hide Consistent, Tracked, Next;
    if schedule != [] {
      var step := schedule[0];
      if Enabled(s, step) {
        StepKeepsConsistent(s, step);
        StepKeepsTracked(s, step, name);
        ConnectionsTrackTheirProfile(Next(s, step), schedule[1..], name);
      } else {
        ConnectionsTrackTheirProfile(s, schedule[1..], name);
      }
    }
  }

  /** The profile exists before and after, in another configuration. */
  ghost predicate Reconfigures(s: State, step: Step, name: string)
    requires Enabled(s, step)
  {
    var p, q := Lookup(s.store, name), Lookup(Next(s, step).store, name);
    p.Some? && q.Some? && !SameConfiguration(p.value, q.value)
  }

  /** Any change of the configuration but by the connection's own learn in flight leaves it behind. */
  lemma OthersWriteLeavesBehind(s: State, step: Step, id: nat)
    requires Enabled(s, step) && Consistent(s) && IsBound(s, id)
    requires Tracked(s, s.connections[id].binding.profileName) && !Deletes(step, s.connections[id].binding.profileName)
    requires !(step.Persist? && step.id == id)
    requires Reconfigures(s, step, s.connections[id].binding.profileName)
    ensures LeftBehind(Next(s, step), id)
  {
    hide Apply, Lookup, AfterWrite;
    var name := s.connections[id].binding.profileName;
    StepWritesItsOp(s, step);
    StepGrowsRevision(s, step, name);
    ConfigurationMovesRevision(s, step, name);
  }

  lemma ConfigurationMovesRevision(s: State, step: Step, name: string)
    requires Enabled(s, step) && Reconfigures(s, step, name)
    ensures Lookup(Next(s, step).store, name).value.metadata.revision == Lookup(s.store, name).value.metadata.revision + 1
  {
    hide Apply, Lookup, PushRevision;
    StepWritesItsOp(s, step);
    match StoreOp(s, step)
    case None =>
    case Some(tx) =>
      if Apply(tx.op, s.store, tx.now).Write? {
        OperationsEvolveProfiles(tx.op, s.store, tx.now, name);
      }
  }

  /**
    No lost updates after the binding: in any run from a start without connections, once anything but a
    bound connection's own learned write changes the configuration of its profile - another connection's
    learn, a configure, a rollback, or a detached write of its own - that connection never changes the store
    again, in any continuation.  The profile must not be deleted.
   */
  lemma NoUpdateIsLost(store: seq<Profile>, earlier: seq<Step>, step: Step, later: seq<Step>, id: nat, name: string)
    requires DeletionFree(earlier, name) && !Deletes(step, name) && DeletionFree(later, name)
    requires
      var s := Run(Initial(store), earlier);
      && Enabled(s, step) && !(step.Persist? && step.id == id)
      && IsBound(s, id) && s.connections[id].binding.profileName == name && Reconfigures(s, step, name)
    ensures
      var after := Next(Run(Initial(store), earlier), step);
      && LeftBehind(after, id) && NeverWrites(after, later, id) && LeftBehind(Run(after, later), id)
  {
    hide Tracked, LeftBehind, NeverWrites;
    var s := Run(Initial(store), earlier);
    StartIsTracked(store, name);
    ConnectionsTrackTheirProfile(Initial(store), earlier, name);
    OthersWriteLeavesBehind(s, step, id);
    StepKeepsConsistent(s, step);
    SameName(s, step, id);
    LeftBehindForever(Next(s, step), later, id);
  }

  lemma StartIsTracked(store: seq<Profile>, name: string)
    ensures Consistent(Initial(store)) && Tracked(Initial(store), name) && PlanTracked(Initial(store), name)
  {
  }

  lemma SameName(s: State, step: Step, id: nat)
    requires Enabled(s, step) && id in s.connections
    ensures id in Next(s, step).connections
    ensures Next(s, step).connections[id].binding.profileName == s.connections[id].binding.profileName
  {
    hide Apply, Lookup, AfterWrite, AnswerTo;
  }

  // ----- the settings an open took

  ghost function PlanOf(p: Profile): Plan {
    Plan(p.metadata.revision, p.selector, p.defaults)
  }

  /**
    Until the profile's revision moves it is as planned, and until the connection's first changing write
    its binding holds the revision that the open bound.
   */
  ghost predicate PlanTracked(s: State, name: string) {
    forall id :: id in s.connections && s.connections[id].binding.profileName == name ==>
      var c, p := s.connections[id], Lookup(s.store, name);
      && p.Some? && c.story.plan.revision <= p.value.metadata.revision
      && (c.story.plan.revision == p.value.metadata.revision ==> c.story.plan == PlanOf(p.value))
      && (!c.story.wrote ==> Recorded(c) == ExpectedRevision(c.binding) == c.story.bound)
      && (c.phase.Planned? ==> c.story.bound == c.story.plan.revision)
  }

  /** A step leaves the planned state in place or moves the revision past it. */
  lemma StepMovesPastPlan(s: State, step: Step, name: string, plan: Plan)
    requires Enabled(s, step) && Lookup(s.store, name).Some? && !Deletes(step, name)
    requires plan.revision <= Lookup(s.store, name).value.metadata.revision
    requires plan.revision == Lookup(s.store, name).value.metadata.revision ==> plan == PlanOf(Lookup(s.store, name).value)
    ensures
      var q := Lookup(Next(s, step).store, name);
      && q.Some? && plan.revision <= q.value.metadata.revision
      && (plan.revision == q.value.metadata.revision ==> plan == PlanOf(q.value))
  {
    hide Apply, Lookup, Next, AfterWrite;
    StepGrowsRevision(s, step, name);
    if Reconfigures(s, step, name) {
      ConfigurationMovesRevision(s, step, name);
    }
  }

  lemma StepKeepsPlan(s: State, step: Step, name: string)
    requires Enabled(s, step) && Consistent(s) && PlanTracked(s, name) && !Deletes(step, name)
    ensures PlanTracked(Next(s, step), name)
  {
    hide Apply, Lookup, AfterWrite, AnswerTo;
    var n := Next(s, step);
    forall id | id in n.connections && n.connections[id].binding.profileName == name
      ensures
        var c, p := n.connections[id], Lookup(n.store, name);
        && p.Some? && c.story.plan.revision <= p.value.metadata.revision
        && (c.story.plan.revision == p.value.metadata.revision ==> c.story.plan == PlanOf(p.value))
        && (!c.story.wrote ==> Recorded(c) == ExpectedRevision(c.binding) == c.story.bound)
        && (c.phase.Planned? ==> c.story.bound == c.story.plan.revision)
    {
      if id in s.connections {
        StepMovesPastPlan(s, step, name, s.connections[id].story.plan);
        StoryGoesOn(s, step, id);
      }
    }
  }

  /** The plan stays, and until the first changing write so does the bound revision. */
  lemma StoryGoesOn(s: State, step: Step, id: nat)
    requires Enabled(s, step) && Consistent(s) && id in s.connections
    requires !s.connections[id].story.wrote ==>
      Recorded(s.connections[id]) == ExpectedRevision(s.connections[id].binding) == s.connections[id].story.bound
    requires s.connections[id].phase.Planned? ==> s.connections[id].story.bound == s.connections[id].story.plan.revision
    ensures id in Next(s, step).connections
    ensures
      var b, c := s.connections[id], Next(s, step).connections[id];
      && c.story.plan == b.story.plan && c.binding.profileName == b.binding.profileName
      && (!c.story.wrote ==> Recorded(c) == ExpectedRevision(c.binding) == c.story.bound)
      && (c.phase.Planned? ==> c.story.bound == c.story.plan.revision)
  {
    hide Apply, Lookup, AfterWrite, AnswerTo;
  }

  lemma {:induction false} PlansAreTracked(s: State, schedule: seq<Step>, name: string)
    requires Consistent(s) && PlanTracked(s, name) && DeletionFree(schedule, name)
    ensures PlanTracked(Run(s, schedule), name)
    decreases |schedule|
  {
    hide Consistent, PlanTracked, Next;
    if schedule != [] {
      var step := schedule[0];
      if Enabled(s, step) {
        StepKeepsConsistent(s, step);
        StepKeepsPlan(s, step, name);
        PlansAreTracked(Next(s, step), schedule[1..], name);
      } else {
        PlansAreTracked(s, schedule[1..], name);
      }
    }
  }

  /**
    What the first changing write of a connection replaces, in any run from a start without connections
    that does not delete the profile: the state whose settings the open took, if and only if the revision
    bound by the open is the one it planned with.  Otherwise it replaces an update it never saw.
   */
  lemma FirstWriteReplacesPlanExactlyWhen(store: seq<Profile>, schedule: seq<Step>, step: Step, id: nat, name: string)
    requires DeletionFree(schedule, name)
    requires
      var s := Run(Initial(store), schedule);
      && Enabled(s, step) && WritesFor(step, id) && Reconfigures(s, step, name)
      && id in s.connections && s.connections[id].binding.profileName == name && !s.connections[id].story.wrote
    ensures
      var s := Run(Initial(store), schedule);
      var story := s.connections[id].story;
      PlanOf(Lookup(s.store, name).value) == story.plan <==> story.bound == story.plan.revision
  {
    hide Lookup, Next, AfterWrite, Run, DeletionFree;
    var s := Run(Initial(store), schedule);
    StartIsTracked(store, name);
    ConnectionsTrackTheirProfile(Initial(store), schedule, name);
    PlansAreTracked(Initial(store), schedule, name);
    WriteLandsOnBound(s, step, id, name);
  }

  /** Before its first changing write a connection writes at the revision it bound, and nowhere else. */
  lemma WriteLandsOnBound(s: State, step: Step, id: nat, name: string)
    requires Enabled(s, step) && Consistent(s) && Tracked(s, name) && PlanTracked(s, name)
    requires WritesFor(step, id) && Reconfigures(s, step, name)
    requires id in s.connections && s.connections[id].binding.profileName == name && !s.connections[id].story.wrote
    ensures Lookup(s.store, name).value.metadata.revision == s.connections[id].story.bound
  {
    hide Lookup, AfterWrite, Apply, AnswerTo;
    var r := if step.Persist? then RequestOf(s, id) else step.request;
    StepWritesItsOp(s, step);
    LearnedWriteChangesExactlyWhen(s.store, r, step.now);
  }

  /** No step of the run changes the configuration of the profile. */
  ghost predicate Undisturbed(s: State, schedule: seq<Step>, name: string)
    decreases |schedule|
  {
    schedule != [] ==>
      if Enabled(s, schedule[0])
      then !Reconfigures(s, schedule[0], name) && Undisturbed(Next(s, schedule[0]), schedule[1..], name)
      else Undisturbed(s, schedule[1..], name)
  }

  /**
    When the open binds the revision it planned with: exactly when marking the profile used failed, or
    nothing changed its configuration between the plan and the open.
   */
  lemma {:induction false} OpenBindsPlanExactlyWhen(s: State, schedule: seq<Step>, id: nat, now: nat, ok: bool, name: string)
    requires id in s.connections && s.connections[id].phase.Planned? && s.connections[id].binding.profileName == name
    requires Lookup(s.store, name).Some? && s.connections[id].story.plan == PlanOf(Lookup(s.store, name).value)
    requires s.connections[id].story.bound == s.connections[id].story.plan.revision && DeletionFree(schedule, name)
    requires Consistent(s)
    requires forall k :: 0 <= k < |schedule| ==> !(schedule[k].Open? && schedule[k].id == id)
    ensures
      var r := Run(s, schedule);
      && Enabled(r, Open(id, now, ok))
      && var story := Next(r, Open(id, now, ok)).connections[id].story;
      && story.plan == s.connections[id].story.plan
      && (story.bound == story.plan.revision <==> !ok || Undisturbed(s, schedule, name))
  {
    hide Lookup, Undisturbed, AfterWrite, Apply;
    PlannedWaits(s, schedule, id);
    UndisturbedExactlyWhen(s, schedule, name);
  }

  /** Nothing but its open touches a planned connection. */
  lemma {:induction false} PlannedWaits(s: State, schedule: seq<Step>, id: nat)
    requires id in s.connections && s.connections[id].phase.Planned?
    requires forall k :: 0 <= k < |schedule| ==> !(schedule[k].Open? && schedule[k].id == id)
    requires Consistent(s)
    ensures id in Run(s, schedule).connections && Run(s, schedule).connections[id] == s.connections[id]
    decreases |schedule|
  {
    hide Lookup, AfterWrite, AnswerTo, Apply;
    if schedule != [] {
      if Enabled(s, schedule[0]) {
        StepKeepsConsistent(s, schedule[0]);
        PlannedWaitsOnce(s, schedule[0], id);
        PlannedWaits(Next(s, schedule[0]), schedule[1..], id);
      } else {
        PlannedWaits(s, schedule[1..], id);
      }
    }
  }

  lemma PlannedWaitsOnce(s: State, step: Step, id: nat)
    requires Enabled(s, step) && Consistent(s) && id in s.connections && s.connections[id].phase.Planned?
    requires !(step.Open? && step.id == id)
    ensures id in Next(s, step).connections && Next(s, step).connections[id] == s.connections[id]
  {
    hide Lookup, AfterWrite, AnswerTo, Apply;
  }

  lemma {:induction false} UndisturbedExactlyWhen(s: State, schedule: seq<Step>, name: string)
    requires Lookup(s.store, name).Some? && DeletionFree(schedule, name)
    ensures
      var p, q := Lookup(s.store, name), Lookup(Run(s, schedule).store, name);
      && q.Some? && p.value.metadata.revision <= q.value.metadata.revision
      && (Undisturbed(s, schedule, name) <==> p.value.metadata.revision == q.value.metadata.revision)
    decreases |schedule|
  {
    hide Lookup, Next, AfterWrite, Apply;
    if schedule != [] {
      var step := schedule[0];
      if Enabled(s, step) {
        StepGrowsRevision(s, step, name);
        if Reconfigures(s, step, name) {
          ConfigurationMovesRevision(s, step, name);
        }
        UndisturbedExactlyWhen(Next(s, step), schedule[1..], name);
      } else {
        UndisturbedExactlyWhen(s, schedule[1..], name);
      }
    }
  }

  // ----- one learn from beginning to end

  /**
    A learn that nobody interrupts.  Without its profile, or at another revision than recorded, it is refused
    and leaves the binding stale and dirty and the store alone; with equal defaults it only cleans the
    binding; else the profile gets the defaults and the binding the next revision.
   */
  lemma UninterruptedLearn(s: State, id: nat, defaults: Defaults, now: nat)
    requires Enabled(s, Begin(id, defaults)) && s.connections[id].binding.persistent && !s.connections[id].binding.stale
    ensures
      var begun := Next(s, Begin(id, defaults));
      && Enabled(begun, Persist(id, now))
      && var asked := Next(begun, Persist(id, now));
      && Enabled(asked, Finish(id))
      && var r, b := Next(asked, Finish(id)), s.connections[id].binding;
      && id in r.connections
      && var c, p, q := r.connections[id].binding, Lookup(s.store, b.profileName), Lookup(r.store, b.profileName);
      && (p.None? || p.value.metadata.revision != ExpectedRevision(b) ==>
            && c.stale && c.dirty && c.revision == b.revision && r.store == s.store
            && c.lastError == Some(Conflict(if p.None? then NotFound
                                            else RevisionConflict(ExpectedRevision(b), p.value.metadata.revision))))
      && (p.Some? && p.value.metadata.revision == ExpectedRevision(b) && p.value.defaults == defaults ==>
            !c.stale && !c.dirty && c.lastError.None? && c.revision == b.revision && r.store == s.store)
      && (p.Some? && p.value.metadata.revision == ExpectedRevision(b) && p.value.defaults != defaults ==>
            && !c.stale && !c.dirty && c.lastError.None? && c.revision == Some(ExpectedRevision(b) + 1)
            && q == Some(Overwritten(p.value, p.value.selector, defaults, now)))
  {
    var b := s.connections[id].binding;
    hide PushRevision, AfterWrite, AnswerTo, Next, Enabled;
    var r := Request(id, b.profileName, ExpectedRevision(b), defaults);
    LearnSteps(s, id, defaults, now);
    LearnedWriteChangesExactlyWhen(s.store, r, now);
    AnswersExactly(s.store, r, now);
    hide Lookup, Apply;
  }

  /** The three steps of a learn: the store is written once, and its answer is recorded. */
  lemma LearnSteps(s: State, id: nat, defaults: Defaults, now: nat)
    requires Enabled(s, Begin(id, defaults)) && s.connections[id].binding.persistent && !s.connections[id].binding.stale
    ensures
      var b := s.connections[id].binding;
      var request := Request(id, b.profileName, ExpectedRevision(b), defaults);
      var begun := Next(s, Begin(id, defaults));
      && Enabled(begun, Persist(id, now)) && Enabled(Next(begun, Persist(id, now)), Finish(id))
      && var r := Next(Next(begun, Persist(id, now)), Finish(id));
      && id in r.connections && r.store == AfterWrite(s.store, LearnedOp(request), now)
      && r.connections[id].binding == UpdateBinding(b, AnswerTo(s.store, LearnedOp(request), now))
  {
    hide Apply, Lookup, AfterWrite, AnswerTo;
  }

  lemma AnswersExactly(ps: seq<Profile>, r: Request, now: nat)
    ensures
      var p, answer := Lookup(ps, r.name), AnswerTo(ps, LearnedOp(r), now);
      && (p.None? ==> answer == Failed(Conflict(NotFound)))
      && (p.Some? && p.value.metadata.revision != r.expected ==>
            answer == Failed(Conflict(RevisionConflict(r.expected, p.value.metadata.revision))))
      && (p.Some? && p.value.metadata.revision == r.expected && p.value.defaults == r.defaults ==> answer == Unchanged)
  {
    hide PushRevision, MaxLastUsed, SnapshotAt;
  }

  /** A failed store call keeps the recorded revision for a later retry and marks the binding dirty, not stale. */
  lemma FailedLearnCanRetry(s: State, id: nat, defaults: Defaults)
    requires Enabled(s, Begin(id, defaults)) && s.connections[id].binding.persistent && !s.connections[id].binding.stale
    ensures
      var r := Next(Next(Next(s, Begin(id, defaults)), PersistFails(id)), Finish(id));
      && r.store == s.store && id in r.connections
      && var b, c := s.connections[id].binding, r.connections[id].binding;
         c.dirty && !c.stale && c.lastError == Some(IoFailure) && c.revision == b.revision
  {
  }

  /**
    A learn on a stale binding asks nothing of the store: it keeps the binding stale, leaves it dirty, and
    keeps reporting the recorded error, or an external change if there is none.
   */
  lemma StaleLearnReports(s: State, id: nat, defaults: Defaults)
    requires Enabled(s, Begin(id, defaults)) && s.connections[id].binding.persistent && s.connections[id].binding.stale
    ensures
      var r := Next(s, Begin(id, defaults));
      && r.store == s.store && r.detached == s.detached && id in r.connections && r.connections[id].phase.Quiet?
      && var b, c := s.connections[id].binding, r.connections[id].binding;
         c.stale && c.dirty && c.revision == b.revision && c.lastError.Some?
         && c.lastError == if b.lastError.Some? then b.lastError else Some(ExternalChange)
  {
  }

  /**
    A learn cancelled while it waits for the store may still write: its write lands if and only if it finds
    the revision recorded and other defaults, and then the binding, which never hears of it, is left behind.
   */
  lemma CancelledLearnMayLand(s: State, id: nat, defaults: Defaults, now: nat)
    requires Enabled(s, Begin(id, defaults)) && s.connections[id].binding.persistent && !s.connections[id].binding.stale
    ensures
      var b := s.connections[id].binding;
      var request := Request(id, b.profileName, ExpectedRevision(b), defaults);
      var cancelled := Next(Next(s, Begin(id, defaults)), Cancel(id));
      && Enabled(cancelled, PersistDetached(request, now))
      && var r := Next(cancelled, PersistDetached(request, now));
      && id in r.connections && r.connections[id].binding == b && r.connections[id].phase.Quiet?
      && var p, q := Lookup(s.store, b.profileName), Lookup(r.store, b.profileName);
      && (q != p <==> p.Some? && p.value.metadata.revision == ExpectedRevision(b) && p.value.defaults != defaults)
      && (q != p ==> q == Some(Overwritten(p.value, p.value.selector, defaults, now)) && LeftBehind(r, id))
      && (q == p ==> r.store == s.store)
  {
    var b := s.connections[id].binding;
    var request := Request(id, b.profileName, ExpectedRevision(b), defaults);
    LearnedWriteChangesExactlyWhen(s.store, request, now);
    CancelDetaches(s, id, defaults);
    DetachedWritesOnly(Next(Next(s, Begin(id, defaults)), Cancel(id)), request, now);
    hide Next, Enabled, Apply, PushRevision, Lookup, AfterWrite, AnswerTo;
  }

  lemma CancelDetaches(s: State, id: nat, defaults: Defaults)
    requires Enabled(s, Begin(id, defaults)) && s.connections[id].binding.persistent && !s.connections[id].binding.stale
    ensures
      var b := s.connections[id].binding;
      && Enabled(Next(s, Begin(id, defaults)), Cancel(id))
      && var r := Next(Next(s, Begin(id, defaults)), Cancel(id));
      && r.store == s.store && Request(id, b.profileName, ExpectedRevision(b), defaults) in r.detached
      && id in r.connections && r.connections[id].binding == b && r.connections[id].phase.Quiet?
  {
    hide Apply, Lookup, AfterWrite, AnswerTo;
  }

  lemma DetachedWritesOnly(s: State, request: Request, now: nat)
    requires request in s.detached && request.id in s.connections
    ensures Enabled(s, PersistDetached(request, now))
    ensures
      var r := Next(s, PersistDetached(request, now));
      && r.store == AfterWrite(s.store, LearnedOp(request), now) && request.id in r.connections
      && r.connections[request.id].binding == s.connections[request.id].binding
      && r.connections[request.id].phase == s.connections[request.id].phase
  {
    hide Apply, Lookup, AfterWrite, AnswerTo;
  }

  // ----- staleness

  /** A mark at rest is the beginning of `StaleForever`. */
  lemma MarkLeavesStaleAtRest(s: State, id: nat)
    requires Enabled(s, MarkStale(id)) && s.connections[id].phase.Quiet?
    ensures StaleAtRest(Next(s, MarkStale(id)), id) && Next(s, MarkStale(id)).store == s.store
    ensures Next(s, MarkStale(id)).connections[id].binding.lastError == Some(RolledBack)
  {
  }

  /** Stale, dirty and with no learn in flight. */
  predicate StaleAtRest(s: State, id: nat) {
    && id in s.connections && s.connections[id].phase.Quiet?
    && s.connections[id].binding.stale && s.connections[id].binding.dirty
    && s.connections[id].binding.persistent
  }

  lemma StaleStays(s: State, step: Step, id: nat)
    requires Enabled(s, step) && StaleAtRest(s, id)
    ensures StaleAtRest(Next(s, step), id)
    ensures NothingDetached(s, id) ==> NothingDetached(Next(s, step), id)
    ensures NothingDetached(s, id) ==> !WritesFor(step, id)
  {
    hide Apply, Lookup, AfterWrite, AnswerTo;
  }

  /** No cancelled call of this connection left a write that is still to come. */
  predicate NothingDetached(s: State, id: nat) {
    forall r :: r in s.detached ==> r.id != id
  }

  /**
    A stale binding at rest stays stale and dirty in every run, and its learn calls never reach the store;
    only a write detached earlier still can.
   */
  lemma {:induction false} StaleForever(s: State, schedule: seq<Step>, id: nat)
    requires StaleAtRest(s, id)
    ensures StaleAtRest(Run(s, schedule), id)
    ensures NothingDetached(s, id) ==> NeverWrites(s, schedule, id) && NothingDetached(Run(s, schedule), id)
    decreases |schedule|
  {
    if schedule != [] {
      if Enabled(s, schedule[0]) {
        StaleStays(s, schedule[0], id);
        StaleForever(Next(s, schedule[0]), schedule[1..], id);
      } else {
        StaleForever(s, schedule[1..], id);
      }
    }
  }

  /** With a learn in flight, one step loses the mark exactly when it finishes a learn that succeeded. */
  lemma StaleIsLostExactlyWhen(s: State, step: Step, id: nat)
    requires Enabled(s, step) && id in s.connections && s.connections[id].binding.stale
    ensures id in Next(s, step).connections
    ensures !Next(s, step).connections[id].binding.stale <==>
      step == Finish(id) && !s.connections[id].phase.answer.Failed?
  {
    hide Apply, Lookup, AfterWrite, AnswerTo;
  }
}
