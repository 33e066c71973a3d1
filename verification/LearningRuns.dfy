/** Runs from an empty store that show what learning does not prevent, each with its exact condition elsewhere. */
module LearningRuns {
  import opened Bytes
  import opened Profiles
  import opened ProfileStore
  import opened Learning

  // ----- one profile, one connection

  /** The store holds `p` alone, and connection 0 is bound to it at `revision`. */
  function One(p: Profile, revision: nat, phase: Phase, story: Story): State {
    State([p], map[0 := Connection(Binding("dev", true, Some(revision), false, false, None), phase, story)], {})
  }

  function Made(defaults: Defaults, now: nat): Profile {
    Profile("dev", EMPTY_SELECTOR, defaults, CreateMetadata(now), [])
  }

  /** Planned with `d0` at revision 1. */
  function StoryOf(d0: Defaults, bound: nat, wrote: bool): Story {
    Story(Plan(1, EMPTY_SELECTOR, d0), bound, wrote)
  }

  function MarkedUsed(p: Profile, at: nat): Profile {
    p.(metadata := p.metadata.(useCount := p.metadata.useCount + 1, lastUsedAt := Some(at)))
  }

  lemma FoundAlone(p: Profile)
    requires p.name == "dev"
    ensures IndexOf([p], "dev") == Some(0) && Lookup([p], "dev") == Some(p)
  {
  }

  lemma CreateStep(d: Defaults, now: nat, s: State)
    requires s.store == []
    ensures Next(s, OtherWriter(Upsert("dev", EMPTY_SELECTOR, d, false), now)) == s.(store := [Made(d, now)])
  {
    assert IndexOf([], "dev") == None;
  }

  lemma OverwriteStep(p: Profile, d: Defaults, now: nat, s: State)
    requires p.name == "dev" && s.store == [p]
    ensures Next(s, OtherWriter(Upsert("dev", EMPTY_SELECTOR, d, true), now))
         == s.(store := [Overwritten(p, EMPTY_SELECTOR, d, now)])
  {
    hide PushRevision;
    FoundAlone(p);
  }

  lemma DeleteStep(p: Profile, now: nat, s: State)
    requires p.name == "dev" && s.store == [p]
    ensures Next(s, OtherWriter(Delete("dev"), now)) == s.(store := [])
  {
    FoundAlone(p);
    assert [p][1..] == [] && Without([p], "dev") == Without([], "dev") == [];
  }

  lemma TakeSettingsStep(d0: Defaults)
    ensures
      var s := Initial([Made(d0, 0)]);
      && Enabled(s, TakeSettings(0, "dev", false))
      && Next(s, TakeSettings(0, "dev", false)) == One(Made(d0, 0), 1, Planned, StoryOf(d0, 1, false))
  {
    FoundAlone(Made(d0, 0));
  }

  lemma OpenStep(p: Profile, revision: nat, story: Story, now: nat)
    requires p.name == "dev" && p.metadata.lastUsedAt.None? && now > 0
    ensures Next(One(p, revision, Planned, story), Open(0, now, true))
         == One(MarkedUsed(p, now), p.metadata.revision, Opening, story.(bound := p.metadata.revision))
  {
    hide PushRevision;
    FoundAlone(p);
    assert [p][1..] == [] && MaxLastUsed([p]) == 0;
  }

  lemma PersistStep(p: Profile, revision: nat, story: Story, d: Defaults, now: nat)
    requires p.name == "dev" && p.metadata.revision == revision && p.defaults != d
    ensures Next(One(p, revision, Asking(revision, d), story), Persist(0, now))
         == One(Overwritten(p, p.selector, d, now), revision, Answered(Changed(revision + 1)), story.(wrote := true))
  {
    hide PushRevision;
    FoundAlone(p);
  }

  lemma RollbackStep(p: Profile, revision: nat, phase: Phase, story: Story, saved: Revision, now: nat)
    requires p.name == "dev" && p.revisions == [saved]
    ensures Next(One(p, revision, phase, story), OtherWriter(Rollback("dev", p.metadata.revision, saved.revision), now))
         == One(Overwritten(p, saved.selector, saved.defaults, now), revision, phase, story)
  {
    hide PushRevision;
    FoundAlone(p);
    assert SnapshotAt(p.revisions, saved.revision) == Some(saved);
  }

  lemma RunStep(s: State, step: Step, rest: seq<Step>)
    requires Enabled(s, step)
    ensures Run(s, [step] + rest) == Run(Next(s, step), rest)
  {
    assert ([step] + rest)[1..] == rest;
  }

  lemma RunLast(s: State, step: Step)
    requires Enabled(s, step)
    ensures Run(s, [step]) == Next(s, step)
  {
    var none: seq<Step> := [];
    assert [step][1..] == none;
    assert Run(Next(s, step), none) == Next(s, step);
  }

  lemma RunTwo(s: State, first: Step, second: Step)
    requires Enabled(s, first) && Enabled(Next(s, first), second)
    ensures Run(s, [first, second]) == Next(Next(s, first), second)
  {
    assert [first, second] == [first] + [second];
    RunStep(s, first, [second]);
    RunLast(Next(s, first), second);
  }

  // ----- how the runs begin

  /** "dev" is created with `d0`, and an open takes these settings. */
  function Plans(d0: Defaults): seq<Step> {
    [OtherWriter(Upsert("dev", EMPTY_SELECTOR, d0, false), 0), TakeSettings(0, "dev", false)]
  }

  function Opens(now: nat): seq<Step> {
    [Open(0, now, true), Attach(0)]
  }

  function Learns(d: Defaults, now: nat): seq<Step> {
    [Begin(0, d), Persist(0, now)]
  }

  lemma RunPlans(d0: Defaults)
    ensures Run(Initial([]), Plans(d0)) == One(Made(d0, 0), 1, Planned, StoryOf(d0, 1, false))
  {
    CreateStep(d0, 0, Initial([]));
    TakeSettingsStep(d0);
    RunTwo(Initial([]), Plans(d0)[0], Plans(d0)[1]);
  }

  lemma RunOpens(p: Profile, revision: nat, story: Story, now: nat)
    requires p.name == "dev" && p.metadata.lastUsedAt.None? && now > 0
    ensures Run(One(p, revision, Planned, story), Opens(now))
         == One(MarkedUsed(p, now), p.metadata.revision, Quiet, story.(bound := p.metadata.revision))
  {
    OpenStep(p, revision, story, now);
    RunTwo(One(p, revision, Planned, story), Open(0, now, true), Attach(0));
  }

  lemma RunLearns(p: Profile, revision: nat, story: Story, d: Defaults, now: nat)
    requires p.name == "dev" && p.metadata.revision == revision && p.defaults != d
    ensures Run(One(p, revision, Quiet, story), Learns(d, now))
         == One(Overwritten(p, p.selector, d, now), revision, Answered(Changed(revision + 1)), story.(wrote := true))
  {
    PersistStep(p, revision, story, d, now);
    RunTwo(One(p, revision, Quiet, story), Begin(0, d), Persist(0, now));
  }

  // ----- an update between plan and open

  /**
    What `FirstWriteReplacesPlanExactlyWhen` excludes does happen: somebody else configures the profile after
    the open took its settings and before it recorded the revision.  The close then learns the old settings
    at the new revision and overwrites the update, without any conflict.
   */
  lemma OpenOverlooksUpdate(d0: Defaults, d2: Defaults)
    requires d0 != d2
    ensures
      var planned := Run(Initial([]), Plans(d0));
      var updated := Run(planned, [OtherWriter(Upsert("dev", EMPTY_SELECTOR, d2, true), 1)]);
      var open := Run(updated, Opens(2));
      var learned := Run(open, Learns(d0, 3));
      && Lookup(updated.store, "dev").Some? && Lookup(updated.store, "dev").value.defaults == d2
      && 0 in open.connections && open.connections[0].story.bound == 2 != open.connections[0].story.plan.revision
      && Lookup(learned.store, "dev").Some? && Lookup(learned.store, "dev").value.defaults == d0
      && 0 in learned.connections && learned.connections[0].phase == Answered(Changed(3))
  {
    hide PushRevision, Run, Next;
    var p, story := Made(d0, 0), StoryOf(d0, 1, false);
    var q := Overwritten(p, EMPTY_SELECTOR, d2, 1);
    RunPlans(d0);
    OverwriteStep(p, d2, 1, One(p, 1, Planned, story));
    RunLast(One(p, 1, Planned, story), OtherWriter(Upsert("dev", EMPTY_SELECTOR, d2, true), 1));
    RunOpens(q, 1, story, 2);
    RunLearns(MarkedUsed(q, 2), 2, story.(bound := 2), d0, 3);
  }

  // ----- a stale mark lost in flight

  /**
    A mark set between a learn's store transaction and its binding update is lost: the write succeeds,
    another client rolls back and marks the binding, and the first call then finishes.  The connection is
    left behind all the same, so it cannot overwrite the rollback.
   */
  lemma InFlightLearnLosesStaleMark(d0: Defaults, d1: Defaults)
    requires d0 != d1
    ensures
      var answered := Run(Run(Run(Initial([]), Plans(d0)), Opens(1)), Learns(d1, 2));
      var marked := Run(answered, [OtherWriter(Rollback("dev", 2, 1), 3), MarkStale(0)]);
      var finished := Run(marked, [Finish(0)]);
      && 0 in marked.connections && marked.connections[0].binding.stale
      && 0 in finished.connections && !finished.connections[0].binding.stale
      && LeftBehind(finished, 0)
  {
    hide Run;
    var p, story := MarkedUsed(Made(d0, 0), 1), StoryOf(d0, 1, true);
    RunPlans(d0);
    RunOpens(Made(d0, 0), 1, StoryOf(d0, 1, false), 1);
    RunLearns(p, 1, StoryOf(d0, 1, false), d1, 2);
    MarkIsLost(d0, d1, p, story);
  }

  lemma MarkIsLost(d0: Defaults, d1: Defaults, p: Profile, story: Story)
    requires p.name == "dev" && p.selector == EMPTY_SELECTOR && p.defaults == d0
    requires p.metadata.revision == 1 && p.revisions == []
    ensures
      var q := Overwritten(p, EMPTY_SELECTOR, d1, 2);
      var marked := Run(One(q, 1, Answered(Changed(2)), story), [OtherWriter(Rollback("dev", 2, 1), 3), MarkStale(0)]);
      var finished := Run(marked, [Finish(0)]);
      && 0 in marked.connections && marked.connections[0].binding.stale
      && 0 in finished.connections && !finished.connections[0].binding.stale
      && LeftBehind(finished, 0)
  {
    hide Run, Apply;
    var q := Overwritten(p, EMPTY_SELECTOR, d1, 2);
    var s := One(q, 1, Answered(Changed(2)), story);
    var saved := Revision(1, 2, EMPTY_SELECTOR, d0);
    assert q.revisions == [saved];
    RollbackStep(q, 1, Answered(Changed(2)), story, saved, 3);
    hide PushRevision;
    var r := Overwritten(q, EMPTY_SELECTOR, d0, 3);
    FoundAlone(r);
    RunTwo(s, OtherWriter(Rollback("dev", 2, 1), 3), MarkStale(0));
    RunLast(Next(One(r, 1, Answered(Changed(2)), story), MarkStale(0)), Finish(0));
  }

  // ----- why deletion is excluded

  /**
    After delete and re-create the revision numbers start over, and a connection that was left behind
    overwrites the new profile.
   */
  lemma DeletionDefeatsRevisions(d0: Defaults, d1: Defaults, d2: Defaults)
    requires d2 != d1
    ensures
      var open := Run(Run(Initial([]), Plans(d0)), Opens(1));
      var behind := Run(open, [OtherWriter(Upsert("dev", EMPTY_SELECTOR, d2, true), 2)]);
      var again := Run(behind, [OtherWriter(Delete("dev"), 3), OtherWriter(Upsert("dev", EMPTY_SELECTOR, d2, false), 4)]);
      var learned := Run(again, Learns(d1, 5));
      && LeftBehind(behind, 0)
      && Lookup(again.store, "dev").Some? && Lookup(again.store, "dev").value.defaults == d2
      && Lookup(learned.store, "dev").Some? && Lookup(learned.store, "dev").value.defaults == d1
  {
    hide PushRevision, Run, Next;
    var p, story := MarkedUsed(Made(d0, 0), 1), StoryOf(d0, 1, false);
    var q := Overwritten(p, EMPTY_SELECTOR, d2, 2);
    RunPlans(d0);
    RunOpens(Made(d0, 0), 1, story, 1);
    OverwriteStep(p, d2, 2, One(p, 1, Quiet, story));
    RunLast(One(p, 1, Quiet, story), OtherWriter(Upsert("dev", EMPTY_SELECTOR, d2, true), 2));
    DeleteStep(q, 3, One(q, 1, Quiet, story));
    CreateStep(d2, 4, One(q, 1, Quiet, story).(store := []));
    RunTwo(One(q, 1, Quiet, story), OtherWriter(Delete("dev"), 3), OtherWriter(Upsert("dev", EMPTY_SELECTOR, d2, false), 4));
    RunLearns(Made(d2, 4), 1, story, d1, 5);
  }
}
