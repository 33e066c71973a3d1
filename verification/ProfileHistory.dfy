/** Revision histories: which snapshots are retained in any run of the store, and what rollback restores. */
module ProfileHistory {
  import opened Bytes
  import opened Profiles
  import opened ProfileStore

  /** The retained snapshots are exactly revisions max(1, rev - 5) .. rev - 1, in order. */
  ghost predicate HistoryShape(p: Profile) {
    && 1 <= p.metadata.revision
    && |p.revisions| == (if p.metadata.revision - 1 < MAX_PROFILE_REVISIONS
                         then p.metadata.revision - 1 else MAX_PROFILE_REVISIONS)
    && forall k :: 0 <= k < |p.revisions| ==>
         p.revisions[k].revision == p.metadata.revision - |p.revisions| + k
  }

  predicate SameState(p: Profile, selector: Selector, defaults: Defaults) {
    p.selector == selector && p.defaults == defaults
  }

  predicate Records(snapshot: Revision, p: Profile) {
    snapshot.revision == p.metadata.revision && SameState(p, snapshot.selector, snapshot.defaults)
  }

  lemma OverwriteKeepsShape(p: Profile, q: Profile, now: nat)
    requires HistoryShape(p) && NextRevision(p, q, now)
    ensures HistoryShape(q)
    ensures Records(q.revisions[|q.revisions| - 1], p)
    ensures forall k :: 0 <= k < |q.revisions| - 1 ==>
      q.revisions[k] == p.revisions[|p.revisions| - |q.revisions| + 1 + k]
  {
  }

  /** Every profile of every store that started empty. */
  lemma {:induction false} HistoriesAreShaped(txs: seq<Tx>, name: string)
    requires Lookup(StoreAfter(txs), name).Some?
    ensures HistoryShape(Lookup(StoreAfter(txs), name).value)
    decreases |txs|
  {
    var init, tx := txs[..|txs| - 1], txs[|txs| - 1];
    var before := StoreAfter(init);
    if Lookup(before, name).Some? {
      HistoriesAreShaped(init, name);
    }
    LastStep(txs, name);
    var q := Lookup(StoreAfter(txs), name).value;
    if Lookup(before, name).Some? && NextRevision(Lookup(before, name).value, q, tx.now) {
      OverwriteKeepsShape(Lookup(before, name).value, q, tx.now);
    }
  }

  /** What the last transaction of a run did to one name. */
  lemma {:induction false} LastStep(txs: seq<Tx>, name: string)
    requires txs != []
    ensures
      var before, after := Lookup(StoreAfter(txs[..|txs| - 1]), name), Lookup(StoreAfter(txs), name);
      before == after || Evolves(before, after, txs[|txs| - 1].now)
  {
    var before, tx := StoreAfter(txs[..|txs| - 1]), txs[|txs| - 1];
    if Apply(tx.op, before, tx.now).Write? {
      OperationsEvolveProfiles(tx.op, before, tx.now, name);
    }
  }

  // ----- moments of a run

  ghost function At(txs: seq<Tx>, i: nat, name: string): Option<Profile>
    requires i <= |txs|
  {
    Lookup(StoreAfter(txs[..i]), name)
  }

  /** The profile exists at moment `i` and at every later one: it is the same profile throughout. */
  ghost predicate LivesSince(txs: seq<Tx>, i: nat, name: string) {
    i <= |txs| && forall j :: i <= j <= |txs| ==> At(txs, j, name).Some?
  }

  lemma MomentsOfPrefix(txs: seq<Tx>, i: nat, name: string)
    requires i < |txs|
    ensures At(txs[..|txs| - 1], i, name) == At(txs, i, name)
    ensures At(txs, |txs|, name) == Lookup(StoreAfter(txs), name)
    ensures At(txs, |txs| - 1, name) == Lookup(StoreAfter(txs[..|txs| - 1]), name)
  {
    hide StoreAfter, Lookup;
    assert txs[..|txs| - 1][..i] == txs[..i];
    assert txs[..|txs|] == txs;
  }

  lemma LivesInPrefix(txs: seq<Tx>, i: nat, name: string)
    requires i < |txs| && LivesSince(txs, i, name)
    ensures LivesSince(txs[..|txs| - 1], i, name)
  {
    var init := txs[..|txs| - 1];
    forall j | i <= j <= |init| ensures At(init, j, name).Some? {
      MomentsOfPrefix(txs, j, name);
    }
  }

  /** What the current profile still knows about one of its earlier states. */
  ghost predicate Remembers(now: Profile, earlier: Profile) {
    && earlier.metadata.revision <= now.metadata.revision
    && (earlier.metadata.revision == now.metadata.revision ==>
          SameState(now, earlier.selector, earlier.defaults))
    && (earlier.metadata.revision < now.metadata.revision <= earlier.metadata.revision + MAX_PROFILE_REVISIONS ==>
          exists k :: 0 <= k < |now.revisions| && Records(now.revisions[k], earlier))
  }

  lemma StepRemembers(p: Profile, q: Profile, now: nat, earlier: Profile)
    requires HistoryShape(p) && HistoryShape(earlier) && Remembers(p, earlier)
    requires SameConfiguration(p, q) || NextRevision(p, q, now)
    ensures Remembers(q, earlier)
  {
    if NextRevision(p, q, now) {
      OverwriteKeepsShape(p, q, now);
      if earlier.metadata.revision == p.metadata.revision {
        assert Records(q.revisions[|q.revisions| - 1], earlier);
      } else if q.metadata.revision <= earlier.metadata.revision + MAX_PROFILE_REVISIONS {
        var k :| 0 <= k < |p.revisions| && Records(p.revisions[k], earlier);
        var shift := |p.revisions| - |q.revisions| + 1;
        assert q.revisions[k - shift] == p.revisions[k];
      }
    }
  }

  /**
    History fidelity, forwards: a state that was live at any moment is, while its revision is among the
    last five, held by the snapshot of exactly that revision.
   */
  lemma {:induction false} LiveStatesAreRemembered(txs: seq<Tx>, i: nat, name: string)
    requires LivesSince(txs, i, name)
    ensures Lookup(StoreAfter(txs), name).Some? && At(txs, i, name).Some?
    ensures Remembers(Lookup(StoreAfter(txs), name).value, At(txs, i, name).value)
    decreases |txs|
  {
    assert txs[..|txs|] == txs;
    assert At(txs, |txs|, name).Some? && At(txs, i, name).Some?;
    if i < |txs| {
      var init := txs[..|txs| - 1];
      MomentsOfPrefix(txs, i, name);
      LivesInPrefix(txs, i, name);
      assert init[..|init|] == init;
      assert At(init, |init|, name).Some?;
      LiveStatesAreRemembered(init, i, name);
      HistoriesAreShaped(init, name);
      HistoriesAreShaped(txs[..i], name);
      LastStep(txs, name);
      var p, q := Lookup(StoreAfter(init), name).value, Lookup(StoreAfter(txs), name).value;
      if p != q {
        StepRemembers(p, q, txs[|txs| - 1].now, At(txs, i, name).value);
      }
    }
  }

  /**
    History fidelity, backwards: every retained snapshot is the state that was live at some earlier moment
    of the same profile, under the revision the snapshot carries.
   */
  lemma {:induction false} SnapshotsWereLive(txs: seq<Tx>, name: string, k: nat) returns (i: nat)
    requires Lookup(StoreAfter(txs), name).Some?
    requires k < |Lookup(StoreAfter(txs), name).value.revisions|
    ensures i < |txs| && LivesSince(txs, i, name)
    ensures Records(Lookup(StoreAfter(txs), name).value.revisions[k], At(txs, i, name).value)
    decreases |txs|
  {
    var init, tx := txs[..|txs| - 1], txs[|txs| - 1];
    var q := Lookup(StoreAfter(txs), name).value;
    LastStep(txs, name);
    assert Lookup(StoreAfter(init), name).Some?;
    var p := Lookup(StoreAfter(init), name).value;
    HistoriesAreShaped(init, name);
    if p == q || SameConfiguration(p, q) {
      i := SnapshotsWereLive(init, name, k);
    } else {
      OverwriteKeepsShape(p, q, tx.now);
      if k == |q.revisions| - 1 {
        i := |init|;
        LivesAtEnd(init, name);
      } else {
        i := SnapshotsWereLive(init, name, |p.revisions| - |q.revisions| + 1 + k);
      }
    }
    MomentsOfPrefix(txs, i, name);
    LivesOneMore(txs, i, name);
  }

  lemma {:induction false} LivesAtEnd(txs: seq<Tx>, name: string)
    requires Lookup(StoreAfter(txs), name).Some?
    ensures LivesSince(txs, |txs|, name) && At(txs, |txs|, name) == Lookup(StoreAfter(txs), name)
  {
    assert txs[..|txs|] == txs;
  }

  lemma {:induction false} LivesOneMore(txs: seq<Tx>, i: nat, name: string)
    requires i < |txs| && LivesSince(txs[..|txs| - 1], i, name) && Lookup(StoreAfter(txs), name).Some?
    ensures LivesSince(txs, i, name)
  {
    var init := txs[..|txs| - 1];
    forall j | i <= j <= |txs| ensures At(txs, j, name).Some? {
      if j < |txs| {
        MomentsOfPrefix(txs, j, name);
        assert At(init, j, name).Some?;
      } else {
        MomentsOfPrefix(txs, i, name);
      }
    }
  }

  // ----- rollback

  /** Rollback writes exactly when the expected revision is current and the target is retained. */
  lemma RollbackSucceedsExactlyWhen(ps: seq<Profile>, name: string, expected: nat, target: nat, now: nat)
    requires Lookup(ps, name).Some? && HistoryShape(Lookup(ps, name).value)
    ensures
      var rev := Lookup(ps, name).value.metadata.revision;
      Apply(Rollback(name, expected, target), ps, now).Write? <==>
        expected == rev && 1 <= target < rev && rev <= target + MAX_PROFILE_REVISIONS
  {
    var p := Lookup(ps, name).value;
    var rev, n := p.metadata.revision, |p.revisions|;
    if 1 <= target < rev && rev <= target + MAX_PROFILE_REVISIONS {
      assert p.revisions[target - (rev - n)].revision == target;
    }
  }

  /** What a successful rollback leaves: the recorded state, a larger revision, untouched usage data. */
  lemma RollbackInstalls(ps: seq<Profile>, name: string, expected: nat, k: nat, now: nat)
    requires Lookup(ps, name).Some? && HistoryShape(Lookup(ps, name).value)
    requires Lookup(ps, name).value.metadata.revision == expected && k < |Lookup(ps, name).value.revisions|
    ensures
      var p := Lookup(ps, name).value;
      var snapshot := p.revisions[k];
      var applied := Apply(Rollback(name, expected, snapshot.revision), ps, now);
      && applied.Write?
      && Lookup(applied.next, name) == Some(Overwritten(p, snapshot.selector, snapshot.defaults, now))
  {
    var p := Lookup(ps, name).value;
    var found := SnapshotAt(p.revisions, p.revisions[k].revision);
    assert found.Some?;
    var j :| 0 <= j < |p.revisions| && p.revisions[j] == found.value;
    assert j == k;
    var i := IndexOf(ps, name).value;
    LookupUpdate(ps, i, Overwritten(p, found.value.selector, found.value.defaults, now), name);
  }

  /** Rolling back to the revision of any earlier moment restores the state that was live then. */
  lemma RollbackRestoresThePast(txs: seq<Tx>, i: nat, name: string, now: nat)
    requires LivesSince(txs, i, name)
    requires Lookup(StoreAfter(txs), name).Some? && At(txs, i, name).Some?
    requires
      var past, rev := At(txs, i, name).value.metadata.revision, Lookup(StoreAfter(txs), name).value.metadata.revision;
      past < rev <= past + MAX_PROFILE_REVISIONS
    ensures
      var p, past := Lookup(StoreAfter(txs), name).value, At(txs, i, name).value;
      var applied := Apply(Rollback(name, p.metadata.revision, past.metadata.revision), StoreAfter(txs), now);
      && applied.Write?
      && var q := Lookup(applied.next, name);
         && q.Some? && SameState(q.value, past.selector, past.defaults)
         && q.value.metadata == p.metadata.(revision := p.metadata.revision + 1, updatedAt := Some(now))
  {
    var p := Lookup(StoreAfter(txs), name).value;
    LiveStatesAreRemembered(txs, i, name);
    HistoriesAreShaped(txs, name);
    var k :| 0 <= k < |p.revisions| && Records(p.revisions[k], At(txs, i, name).value);
    RollbackInstalls(StoreAfter(txs), name, p.metadata.revision, k, now);
  }

  /** Rolling back to the revision that a rollback replaced undoes it. */
  lemma RollbackUndoesRollback(ps: seq<Profile>, name: string, target: nat, now: nat, later: nat)
    requires Lookup(ps, name).Some? && HistoryShape(Lookup(ps, name).value)
    requires Apply(Rollback(name, Lookup(ps, name).value.metadata.revision, target), ps, now).Write?
    ensures
      var p := Lookup(ps, name).value;
      var rev := p.metadata.revision;
      var once := Apply(Rollback(name, rev, target), ps, now).next;
      var twice := Apply(Rollback(name, rev + 1, rev), once, later);
      && twice.Write?
      && Lookup(twice.next, name).Some?
      && SameState(Lookup(twice.next, name).value, p.selector, p.defaults)
      && Lookup(twice.next, name).value.metadata.revision == rev + 2
  {
    hide PushRevision, MaxLastUsed, SnapshotAt;
    var p := Lookup(ps, name).value;
    var once := Apply(Rollback(name, p.metadata.revision, target), ps, now).next;
    OperationsEvolveProfiles(Rollback(name, p.metadata.revision, target), ps, now, name);
    LookupAfterRollback(ps, name, target, now);
    var q := Lookup(once, name).value;
    OverwriteKeepsShape(p, q, now);
    RollbackInstalls(once, name, p.metadata.revision + 1, |q.revisions| - 1, later);
  }

  lemma LookupAfterRollback(ps: seq<Profile>, name: string, target: nat, now: nat)
    requires Lookup(ps, name).Some?
    requires Apply(Rollback(name, Lookup(ps, name).value.metadata.revision, target), ps, now).Write?
    ensures
      var p := Lookup(ps, name).value;
      var once := Lookup(Apply(Rollback(name, p.metadata.revision, target), ps, now).next, name);
      once.Some? && NextRevision(p, once.value, now)
  {
    var p := Lookup(ps, name).value;
    var i := IndexOf(ps, name).value;
    var next := Apply(Rollback(name, p.metadata.revision, target), ps, now).next;
    LookupUpdate(ps, i, next[i], name);
  }
}
