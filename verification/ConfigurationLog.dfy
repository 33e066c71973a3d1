/**
  The store against a simple model: every profile is the list of all configurations it ever had, the
  newest last.  The store keeps the newest and five snapshots of it, and answers as the full list would.
 */
module ConfigurationLog {
  import opened Bytes
  import opened Profiles
  import opened ProfileStore

  /** A configuration and the clock reading at which it became live. */
  datatype Config = Config(selector: Selector, defaults: Defaults, at: nat)

  type States = s: seq<Config> | s != [] witness [Config(EMPTY_SELECTOR, Defaults(0, map[]), 0)]

  /** All configurations of one profile, revision r at index r - 1, and how often it was used. */
  datatype Log = Log(states: States, generated: bool, uses: nat)

  type Logs = map<string, Log>

  datatype Verdict = Refused(error: Error) | Kept | Took(next: Logs)

  function Live(log: Log): Config {
    log.states[|log.states| - 1]
  }

  function Reconfigured(log: Log, c: Config): Log {
    log.(states := log.states + [c])
  }

  /** A revision that rollback can still return to: one of the five before the live one. */
  predicate IsRetained(log: Log, target: nat) {
    1 <= target < |log.states| <= target + 5
  }

  ghost function FreeName(logs: Logs, base: string): (name: string)
    ensures IsFirstFreeName(logs.Keys, base, name)
  {
    FreeNameExists(logs.Keys, base);
    var name :| IsFirstFreeName(logs.Keys, base, name);
    name
  }

  /** What the operation does to the full lists. */
  ghost function Answer(op: Op, logs: Logs, now: nat): Verdict
  {
    match op
    case Upsert(name, selector, defaults, overwrite) =>
      if name !in logs then Took(logs[name := Log([Config(selector, defaults, now)], false, 0)])
      else if !overwrite then Refused(Duplicate)
      else Took(logs[name := Reconfigured(logs[name], Config(selector, defaults, now))])
    case UpdateDefaults(name, defaults, overwrite) =>
      if name !in logs then Took(logs[name := Log([Config(EMPTY_SELECTOR, defaults, now)], false, 0)])
      else if !overwrite then Refused(Duplicate)
      else Took(logs[name := Reconfigured(logs[name], Config(Live(logs[name]).selector, defaults, now))])
    case Delete(name) =>
      if name !in logs then Refused(NotFound) else Took(logs - {name})
    case CreateGenerated(base, selector, defaults) =>
      Took(logs[FreeName(logs, base) := Log([Config(selector, defaults, now)], true, 1)])
    case MarkUsed(name) =>
      if name !in logs then Refused(NotFound)
      else Took(logs[name := logs[name].(uses := logs[name].uses + 1)])
    case UpdateLearned(name, expected, defaults) =>
      if name !in logs then Refused(NotFound)
      else if |logs[name].states| != expected then Refused(RevisionConflict(expected, |logs[name].states|))
      else if Live(logs[name]).defaults == defaults then Kept
      else Took(logs[name := Reconfigured(logs[name], Config(Live(logs[name]).selector, defaults, now))])
    case Rollback(name, expected, target) =>
      if name !in logs then Refused(NotFound)
      else if |logs[name].states| != expected then Refused(RevisionConflict(expected, |logs[name].states|))
      else if !IsRetained(logs[name], target) then Refused(NoRetainedSnapshot(target))
      else Took(logs[name := Reconfigured(logs[name], logs[name].states[target - 1].(at := now))])
  }

  // ----- how the store represents the lists

  /** Revision `r` as a snapshot, saved when its successor became live. */
  function SnapshotOf(log: Log, r: nat): Revision
    requires 1 <= r < |log.states|
  {
    Revision(r, log.states[r].at, log.states[r - 1].selector, log.states[r - 1].defaults)
  }

  /** The snapshots of as many revisions as there are, up to the one before the live one. */
  ghost predicate Consecutive(revisions: seq<Revision>, log: Log) {
    && |revisions| < |log.states|
    && forall k :: 0 <= k < |revisions| ==> revisions[k] == SnapshotOf(log, |log.states| - |revisions| + k)
  }

  ghost predicate Snapshots(revisions: seq<Revision>, log: Log) {
    Consecutive(revisions, log) && |revisions| == if |log.states| <= 5 then |log.states| - 1 else 5
  }

  ghost predicate Mirrors(p: Profile, log: Log) {
    && p.selector == Live(log).selector && p.defaults == Live(log).defaults
    && p.metadata.revision == |log.states| && p.metadata.generated == log.generated
    && p.metadata.createdAt == Some(log.states[0].at) && p.metadata.updatedAt == Some(Live(log).at)
    && p.metadata.useCount == log.uses
    && Snapshots(p.revisions, log)
  }

  /** The store has the profile exactly if there is a list of that name, and shows it. */
  ghost predicate Shows(ps: seq<Profile>, logs: Logs, name: string) {
    if name in logs then Lookup(ps, name).Some? && Mirrors(Lookup(ps, name).value, logs[name])
    else Lookup(ps, name).None?
  }

  ghost predicate Represents(ps: seq<Profile>, logs: Logs) {
    forall name :: Shows(ps, logs, name)
  }

  /** Overwriting keeps the newest five of one more snapshot. */
  lemma OverwriteMirrors(p: Profile, log: Log, selector: Selector, defaults: Defaults, now: nat)
    requires Mirrors(p, log)
    ensures Mirrors(Overwritten(p, selector, defaults, now), Reconfigured(log, Config(selector, defaults, now)))
  {
    hide PushRevision, Snapshots;
    OverwriteKeepsSnapshots(p, log, Config(selector, defaults, now));
  }

  lemma OverwriteKeepsSnapshots(p: Profile, log: Log, c: Config)
    requires Snapshots(p.revisions, log) && p.metadata.revision == |log.states|
    requires p.selector == Live(log).selector && p.defaults == Live(log).defaults
    ensures Snapshots(PushRevision(p, c.at), Reconfigured(log, c))
  {
    hide Snapshots, PushRevision;
    OneMoreSnapshot(p, log, c);
    NewestAreKept(p, c.at);
    SnapshotsOf(p.revisions + [Revision(|log.states|, c.at, p.selector, p.defaults)], PushRevision(p, c.at), Reconfigured(log, c));
  }

  /** The newest five of a list of snapshots, if it is complete or longer. */
  lemma SnapshotsOf(all: seq<Revision>, kept: seq<Revision>, log: Log)
    requires Consecutive(all, log) && (|all| == |log.states| - 1 || |all| >= 5)
    requires kept == all[if |all| <= 5 then 0 else |all| - 5..]
    ensures Snapshots(kept, log)
  {
    hide SnapshotOf;
    var drop, rev := |all| - |kept|, |log.states|;
    forall k | 0 <= k < |kept| ensures kept[k] == SnapshotOf(log, rev - |kept| + k) {
      assert kept[k] == all[drop + k] && rev - |all| + (drop + k) == rev - |kept| + k;
    }
  }

  lemma OneMoreSnapshot(p: Profile, log: Log, c: Config)
    requires Snapshots(p.revisions, log) && p.selector == Live(log).selector && p.defaults == Live(log).defaults
    ensures
      var all := p.revisions + [Revision(|log.states|, c.at, p.selector, p.defaults)];
      Consecutive(all, Reconfigured(log, c)) && (|all| == |log.states| || |all| >= 5)
  {
    var next, rev := Reconfigured(log, c), |log.states|;
    forall k | 0 <= k < |p.revisions| ensures p.revisions[k] == SnapshotOf(next, rev - |p.revisions| + k) {
      assert p.revisions[k] == SnapshotOf(log, rev - |p.revisions| + k);
    }
  }

  lemma NewestAreKept(p: Profile, now: nat)
    ensures
      var all := p.revisions + [Revision(p.metadata.revision, now, p.selector, p.defaults)];
      PushRevision(p, now) == all[if |all| <= 5 then 0 else |all| - 5..]
  {
  }

  /** A snapshot is found exactly for the retained revisions, and holds that revision's configuration. */
  lemma SnapshotFoundExactlyWhen(revisions: seq<Revision>, log: Log, target: nat)
    requires Snapshots(revisions, log)
    ensures SnapshotAt(revisions, target).Some? <==> IsRetained(log, target)
    ensures IsRetained(log, target) ==> SnapshotAt(revisions, target) == Some(SnapshotOf(log, target))
  {
    if IsRetained(log, target) {
      assert revisions[target - (|log.states| - |revisions|)].revision == target;
    }
  }

  lemma NamesAreKeys(ps: seq<Profile>, logs: Logs)
    requires Represents(ps, logs)
    ensures Names(ps) == logs.Keys
  {
    hide Mirrors;
    forall name ensures name in Names(ps) <==> name in logs {
      assert Shows(ps, logs, name);
      NamedExactlyWhen(ps, name);
    }
  }

  lemma NamedExactlyWhen(ps: seq<Profile>, name: string)
    ensures name in Names(ps) <==> Lookup(ps, name).Some?
  {
  }

  /** Replacing the entry of one name by a profile that mirrors its new list. */
  lemma UpdateRepresents(ps: seq<Profile>, logs: Logs, i: nat, q: Profile, log: Log)
    requires Represents(ps, logs) && i < |ps| && IndexOf(ps, ps[i].name) == Some(i) && q.name == ps[i].name
    requires Mirrors(q, log)
    ensures Represents(ps[i := q], logs[q.name := log])
  {
    hide Mirrors, Lookup, IndexOf;
    var next, after := ps[i := q], logs[q.name := log];
    forall name ensures Shows(next, after, name) {
      assert Shows(ps, logs, name);
      LookupUpdate(ps, i, q, name);
    }
  }

  lemma AppendRepresents(ps: seq<Profile>, logs: Logs, q: Profile, log: Log)
    requires Represents(ps, logs) && IndexOf(ps, q.name).None? && Mirrors(q, log)
    ensures Represents(ps + [q], logs[q.name := log])
  {
    hide Mirrors, Lookup, IndexOf;
    var next, after := ps + [q], logs[q.name := log];
    forall name ensures Shows(next, after, name) {
      assert Shows(ps, logs, name);
      LookupAppend(ps, q, name);
    }
  }

  lemma DeleteRepresents(ps: seq<Profile>, logs: Logs, gone: string)
    requires Represents(ps, logs)
    ensures Represents(Without(ps, gone), logs - {gone})
  {
    hide Mirrors, Lookup, IndexOf;
    var next, after := Without(ps, gone), logs - {gone};
    forall name ensures Shows(next, after, name) {
      assert Shows(ps, logs, name);
      LookupWithout(ps, gone, name);
    }
  }

  /** The entry that an operation on `name` works on. */
  lemma EntryOf(ps: seq<Profile>, logs: Logs, name: string)
    requires Represents(ps, logs)
    ensures IndexOf(ps, name).Some? <==> name in logs
    ensures name in logs ==>
      var i := IndexOf(ps, name).value;
      i < |ps| && ps[i].name == name && IndexOf(ps, ps[i].name) == Some(i) && Mirrors(ps[i], logs[name])
  {
    hide Mirrors;
    assert Shows(ps, logs, name);
  }

  /** The store answers as the lists do. */
  ghost predicate AnswersAs(applied: Applied, verdict: Verdict) {
    match applied
    case Rejected(e) => verdict == Refused(e)
    case NoWrite => verdict == Kept
    case Write(next) => verdict.Took? && Represents(next, verdict.next)
  }

  /**
    Every operation, on every store that represents some lists: it is refused with the same error, kept or
    taken exactly as on the lists, and the next store represents the next lists, for every name.
   */
  lemma OperationsFollowTheLog(op: Op, ps: seq<Profile>, logs: Logs, now: nat)
    requires Represents(ps, logs)
    ensures AnswersAs(Apply(op, ps, now), Answer(op, logs, now))
  {
    hide Represents, Mirrors, PushRevision, MaxLastUsed, SnapshotAt;
    match op
    case Upsert(_, _, _, _) => UpsertFollows(op, ps, logs, now);
    case UpdateDefaults(_, _, _) => UpsertFollows(op, ps, logs, now);
    case Delete(name) =>
      EntryOf(ps, logs, name);
      DeleteRepresents(ps, logs, name);
    case CreateGenerated(_, _, _) => CreateFollows(op, ps, logs, now);
    case MarkUsed(_) => MarkUsedFollows(op, ps, logs, now);
    case UpdateLearned(_, _, _) => LearnedFollows(op, ps, logs, now);
    case Rollback(_, _, _) => RollbackFollows(op, ps, logs, now);
  }

  lemma UpsertFollows(op: Op, ps: seq<Profile>, logs: Logs, now: nat)
    requires Represents(ps, logs) && (op.Upsert? || op.UpdateDefaults?)
    ensures AnswersAs(Apply(op, ps, now), Answer(op, logs, now))
  {
    hide Represents, PushRevision;
    EntryOf(ps, logs, op.name);
    if op.name in logs {
      var i := IndexOf(ps, op.name).value;
      var log, selector := logs[op.name], if op.Upsert? then op.selector else ps[i].selector;
      OverwriteMirrors(ps[i], log, selector, op.defaults, now);
      hide Mirrors;
      UpdateRepresents(ps, logs, i, Overwritten(ps[i], selector, op.defaults, now),
                       Reconfigured(log, Config(selector, op.defaults, now)));
    } else {
      var selector := if op.Upsert? then op.selector else EMPTY_SELECTOR;
      var p := Profile(op.name, selector, op.defaults, CreateMetadata(now), []);
      var log := Log([Config(selector, op.defaults, now)], false, 0);
      assert Mirrors(p, log);
      AppendRepresents(ps, logs, p, log);
    }
  }

  lemma CreateFollows(op: Op, ps: seq<Profile>, logs: Logs, now: nat)
    requires Represents(ps, logs) && op.CreateGenerated?
    ensures AnswersAs(Apply(op, ps, now), Answer(op, logs, now))
  {
    hide Represents;
    NamesAreKeys(ps, logs);
    AllocationAgrees(ps, op.base, FreeName(logs, op.base));
    NameIsFree(ps, op.base);
    var name := AllocatedName(ps, op.base);
    var p := Profile(name, op.selector, op.defaults, Metadata(true, 1, Some(now), Some(now), Some(now), 1), []);
    var log := Log([Config(op.selector, op.defaults, now)], true, 1);
    assert Mirrors(p, log);
    AppendRepresents(ps, logs, p, log);
  }

  lemma MarkUsedFollows(op: Op, ps: seq<Profile>, logs: Logs, now: nat)
    requires Represents(ps, logs) && op.MarkUsed?
    ensures AnswersAs(Apply(op, ps, now), Answer(op, logs, now))
  {
    hide Represents, MaxLastUsed;
    EntryOf(ps, logs, op.name);
    if op.name in logs {
      var i := IndexOf(ps, op.name).value;
      var q, log := Apply(op, ps, now).next[i], logs[op.name].(uses := logs[op.name].uses + 1);
      assert Snapshots(q.revisions, log);
      UpdateRepresents(ps, logs, i, q, log);
    }
  }

  lemma LearnedFollows(op: Op, ps: seq<Profile>, logs: Logs, now: nat)
    requires Represents(ps, logs) && op.UpdateLearned?
    ensures AnswersAs(Apply(op, ps, now), Answer(op, logs, now))
  {
    hide Represents, PushRevision;
    EntryOf(ps, logs, op.name);
    if op.name in logs {
      var i := IndexOf(ps, op.name).value;
      OverwriteMirrors(ps[i], logs[op.name], ps[i].selector, op.defaults, now);
      UpdateRepresents(ps, logs, i, Overwritten(ps[i], ps[i].selector, op.defaults, now),
                       Reconfigured(logs[op.name], Config(ps[i].selector, op.defaults, now)));
    }
  }

  lemma RollbackFollows(op: Op, ps: seq<Profile>, logs: Logs, now: nat)
    requires Represents(ps, logs) && op.Rollback?
    ensures AnswersAs(Apply(op, ps, now), Answer(op, logs, now))
  {
    hide Represents, PushRevision, SnapshotAt, Snapshots;
    EntryOf(ps, logs, op.name);
    if op.name in logs {
      var i, log := IndexOf(ps, op.name).value, logs[op.name];
      SnapshotFoundExactlyWhen(ps[i].revisions, log, op.target);
      if IsRetained(log, op.target) {
        var c := log.states[op.target - 1];
        OverwriteMirrors(ps[i], log, c.selector, c.defaults, now);
        UpdateRepresents(ps, logs, i, Overwritten(ps[i], c.selector, c.defaults, now),
                         Reconfigured(log, Config(c.selector, c.defaults, now)));
      }
    }
  }

  // ----- every run

  /** The lists after a run of transactions. */
  ghost function LogsAfter(txs: seq<Tx>): Logs {
    if txs == [] then map[]
    else
      var before, tx := LogsAfter(txs[..|txs| - 1]), txs[|txs| - 1];
      var verdict := Answer(tx.op, before, tx.now);
      if verdict.Took? then verdict.next else before
  }

  /**
    In every run from an empty store each profile is the newest configuration of its list, under the list's
    length as revision, with the five configurations before it as snapshots, its creation and last update
    time and its use count; profiles without a list do not exist.
   */
  lemma {:induction false} StoresFollowTheLog(txs: seq<Tx>)
    ensures Represents(StoreAfter(txs), LogsAfter(txs))
  {
    hide Apply, Answer, Represents;
    if txs == [] {
      EmptyRepresents();
    } else {
      var init, tx := txs[..|txs| - 1], txs[|txs| - 1];
      StoresFollowTheLog(init);
      OperationsFollowTheLog(tx.op, StoreAfter(init), LogsAfter(init), tx.now);
    }
  }

  lemma EmptyRepresents()
    ensures Represents([], map[])
  {
  }
}
