/**
  The operations of the profile store on the profile vector, each as the transaction applies it to the
  freshly loaded file.
 */
module ProfileStore {
  import opened Bytes
  import opened Profiles

  datatype Error =
    | Duplicate | NotFound
    | RevisionConflict(expected: nat, found: nat)
    | NoRetainedSnapshot(target: nat)

  datatype Op =
    | Upsert(name: string, selector: Selector, defaults: Defaults, overwrite: bool)
    | UpdateDefaults(name: string, defaults: Defaults, overwrite: bool)
    | Delete(name: string)
    | CreateGenerated(base: string, selector: Selector, defaults: Defaults)
    | MarkUsed(name: string)
    | UpdateLearned(name: string, expected: nat, defaults: Defaults)
    | Rollback(name: string, expected: nat, target: nat)

  /** An operation fails, decides that nothing needs writing, or yields the next vector. */
  datatype Applied = Rejected(error: Error) | NoWrite | Write(next: seq<Profile>)

  // ----- finding and replacing

  function IndexOf(ps: seq<Profile>, name: string): (r: Option<nat>)
    ensures r.None? <==> forall i :: 0 <= i < |ps| ==> ps[i].name != name
    ensures r.Some? ==>
      && r.value < |ps| && ps[r.value].name == name
      && forall i :: 0 <= i < r.value ==> ps[i].name != name
  {
    if ps == [] then None
    else if ps[0].name == name then Some(0)
    else match IndexOf(ps[1..], name)
      case None => None
      case Some(i) => Some(i + 1)
  }

  function Lookup(ps: seq<Profile>, name: string): (r: Option<Profile>)
    ensures r.Some? ==> r.value.name == name && r.value in ps
  {
    match IndexOf(ps, name)
    case None => None
    case Some(i) => Some(ps[i])
  }

  function Without(ps: seq<Profile>, name: string): seq<Profile> {
    if ps == [] then []
    else if ps[0].name == name then Without(ps[1..], name)
    else [ps[0]] + Without(ps[1..], name)
  }

  // ----- metadata and history

  function CreateMetadata(now: nat): Metadata {
    Metadata(false, 1, Some(now), Some(now), None, 0)
  }

  function BumpMetadata(prior: Profile, now: nat): Metadata {
    prior.metadata.(revision := prior.metadata.revision + 1, updatedAt := Some(now))
  }

  /** Append the outgoing state and keep the newest snapshots only. */
  function PushRevision(prior: Profile, now: nat): seq<Revision> {
    var all := prior.revisions + [Revision(prior.metadata.revision, now, prior.selector, prior.defaults)];
    if |all| > MAX_PROFILE_REVISIONS then all[|all| - MAX_PROFILE_REVISIONS..] else all
  }

  function SnapshotAt(revisions: seq<Revision>, target: nat): (r: Option<Revision>)
    ensures r.Some? ==> r.value in revisions && r.value.revision == target
    ensures r.None? ==> forall i :: 0 <= i < |revisions| ==> revisions[i].revision != target
  {
    if revisions == [] then None
    else if revisions[0].revision == target then Some(revisions[0])
    else SnapshotAt(revisions[1..], target)
  }

  function Overwritten(prior: Profile, selector: Selector, defaults: Defaults, now: nat): Profile {
    Profile(prior.name, selector, defaults, BumpMetadata(prior, now), PushRevision(prior, now))
  }

  function MaxLastUsed(ps: seq<Profile>): (m: nat)
    ensures forall i :: 0 <= i < |ps| ==> LastUsed(ps[i]) <= m
  {
    if ps == [] then 0
    else
      var rest := MaxLastUsed(ps[1..]);
      if LastUsed(ps[0]) > rest then LastUsed(ps[0]) else rest
  }

  /** The name a generated profile gets; any name satisfying the search is the name. */
  ghost function AllocatedName(ps: seq<Profile>, base: string): (name: string)
    ensures IsFirstFreeName(Names(ps), base, name)
  {
    FreeNameExists(Names(ps), base);
    var name :| IsFirstFreeName(Names(ps), base, name);
    name
  }

  /** The name that `AllocateGeneratedName` computes is the one the store gives. */
  lemma AllocationAgrees(ps: seq<Profile>, base: string, name: string)
    ensures IsFirstFreeName(Names(ps), base, name) <==> name == AllocatedName(ps, base)
  {
    if IsFirstFreeName(Names(ps), base, name) {
      FirstFreeNameIsUnique(Names(ps), base, name, AllocatedName(ps, base));
    }
  }

  // ----- the operations

  ghost function Apply(op: Op, ps: seq<Profile>, now: nat): Applied {
    match op
    case Upsert(name, selector, defaults, overwrite) =>
      (match IndexOf(ps, name)
       case Some(i) =>
         if !overwrite then Rejected(Duplicate)
         else Write(ps[i := Overwritten(ps[i], selector, defaults, now)])
       case None => Write(ps + [Profile(name, selector, defaults, CreateMetadata(now), [])]))
    case UpdateDefaults(name, defaults, overwrite) =>
      (match IndexOf(ps, name)
       case Some(i) =>
         if !overwrite then Rejected(Duplicate)
         else Write(ps[i := Overwritten(ps[i], ps[i].selector, defaults, now)])
       case None => Write(ps + [Profile(name, EMPTY_SELECTOR, defaults, CreateMetadata(now), [])]))
    case Delete(name) =>
      if IndexOf(ps, name).None? then Rejected(NotFound) else Write(Without(ps, name))
    case CreateGenerated(base, selector, defaults) =>
      var metadata := Metadata(true, 1, Some(now), Some(now), Some(now), 1);
      Write(ps + [Profile(AllocatedName(ps, base), selector, defaults, metadata, [])])
    case MarkUsed(name) =>
      (match IndexOf(ps, name)
       case None => Rejected(NotFound)
       case Some(i) =>
         var next := MaxLastUsed(ps) + 1;
         var ts := if now > next then now else next;
         var metadata := ps[i].metadata.(useCount := ps[i].metadata.useCount + 1, lastUsedAt := Some(ts));
         Write(ps[i := ps[i].(metadata := metadata)]))
    case UpdateLearned(name, expected, defaults) =>
      (match IndexOf(ps, name)
       case None => Rejected(NotFound)
       case Some(i) =>
         if ps[i].metadata.revision != expected then
           Rejected(RevisionConflict(expected, ps[i].metadata.revision))
         else if ps[i].defaults == defaults then NoWrite
         else Write(ps[i := Overwritten(ps[i], ps[i].selector, defaults, now)]))
    case Rollback(name, expected, target) =>
      (match IndexOf(ps, name)
       case None => Rejected(NotFound)
       case Some(i) =>
         if ps[i].metadata.revision != expected then
           Rejected(RevisionConflict(expected, ps[i].metadata.revision))
         else match SnapshotAt(ps[i].revisions, target)
           case None => Rejected(NoRetainedSnapshot(target))
           case Some(snapshot) =>
             Write(ps[i := Overwritten(ps[i], snapshot.selector, snapshot.defaults, now)]))
  }

  // ----- lookups after an operation

  lemma LookupUpdate(ps: seq<Profile>, i: nat, p: Profile, name: string)
    requires i < |ps| && IndexOf(ps, ps[i].name) == Some(i) && p.name == ps[i].name
    ensures Lookup(ps[i := p], name) == if name == p.name then Some(p) else Lookup(ps, name)
  {
    var qs := ps[i := p];
    assert forall k :: 0 <= k < |ps| ==> qs[k].name == ps[k].name;
    assert IndexOf(qs, name) == IndexOf(ps, name);
  }

  lemma {:induction false} LookupAppend(ps: seq<Profile>, p: Profile, name: string)
    requires IndexOf(ps, p.name).None?
    ensures Lookup(ps + [p], name) == if name == p.name then Some(p) else Lookup(ps, name)
  {
    if ps == [] {
      var none: seq<Profile> := [];
      assert ps + [p] == [p] + none;
      LookupCons(p, none, name);
    } else {
      assert ps == [ps[0]] + ps[1..] && ps + [p] == [ps[0]] + (ps[1..] + [p]);
      LookupCons(ps[0], ps[1..], name);
      LookupCons(ps[0], ps[1..] + [p], name);
      LookupAppend(ps[1..], p, name);
    }
  }

  lemma {:induction false} LookupWithout(ps: seq<Profile>, gone: string, name: string)
    ensures Lookup(Without(ps, gone), name) == if name == gone then None else Lookup(ps, name)
    decreases |ps|
  {
    if ps != [] {
      LookupWithout(ps[1..], gone, name);
      assert ps == [ps[0]] + ps[1..];
      LookupCons(ps[0], ps[1..], name);
      LookupCons(ps[0], Without(ps[1..], gone), name);
    }
  }

  lemma LookupCons(p: Profile, rest: seq<Profile>, name: string)
    ensures Lookup([p] + rest, name) == if p.name == name then Some(p) else Lookup(rest, name)
  {
    assert ([p] + rest)[1..] == rest;
  }

  // ----- what an operation may do to one profile

  /** Configuration, revision and history are as before; only usage data may differ. */
  predicate SameConfiguration(p: Profile, q: Profile) {
    && q.name == p.name && q.selector == p.selector && q.defaults == p.defaults && q.revisions == p.revisions
    && q.metadata.revision == p.metadata.revision
  }

  /** The outgoing state went into the history and the revision moved up by one; usage data is untouched. */
  predicate NextRevision(p: Profile, q: Profile, now: nat) {
    && q == Overwritten(p, q.selector, q.defaults, now)
  }

  predicate NewProfile(p: Profile) {
    p.metadata.revision == 1 && p.revisions == []
  }

  /** The whole effect of any writing operation on any one name. */
  ghost predicate Evolves(before: Option<Profile>, after: Option<Profile>, now: nat) {
    match (before, after)
    case (_, None) => true
    case (None, Some(q)) => NewProfile(q)
    case (Some(p), Some(q)) => SameConfiguration(p, q) || NextRevision(p, q, now)
  }

  lemma OperationsEvolveProfiles(op: Op, ps: seq<Profile>, now: nat, name: string)
    requires Apply(op, ps, now).Write?
    ensures Evolves(Lookup(ps, name), Lookup(Apply(op, ps, now).next, name), now)
    ensures Lookup(ps, name).Some? && Lookup(Apply(op, ps, now).next, name).None? ==> op == Delete(name)
  {
    hide PushRevision, MaxLastUsed, SnapshotAt;
    var next := Apply(op, ps, now).next;
    if op.Delete? {
      LookupWithout(ps, op.name, name);
    } else if op.CreateGenerated? {
      NameIsFree(ps, op.base);
      LookupAppend(ps, next[|ps|], name);
    } else if IndexOf(ps, op.name).Some? {
      var i := IndexOf(ps, op.name).value;
      LookupUpdate(ps, i, next[i], name);
    } else {
      LookupAppend(ps, next[|ps|], name);
    }
  }

  lemma NameIsFree(ps: seq<Profile>, base: string)
    ensures IndexOf(ps, AllocatedName(ps, base)).None?
  {
    var name := AllocatedName(ps, base);
    forall i | 0 <= i < |ps| ensures ps[i].name != name {
      assert ps[i].name in Names(ps);
    }
  }

  /** No two profiles of one name: kept by every operation. */
  ghost predicate UniqueNames(ps: seq<Profile>) {
    forall i, j :: 0 <= i < j < |ps| ==> ps[i].name != ps[j].name
  }

  lemma OperationsKeepNamesUnique(op: Op, ps: seq<Profile>, now: nat)
    requires UniqueNames(ps) && Apply(op, ps, now).Write?
    ensures UniqueNames(Apply(op, ps, now).next)
  {
    hide PushRevision, MaxLastUsed, SnapshotAt;
    match op
    case Delete(gone) => WithoutKeepsUnique(ps, gone);
    case CreateGenerated(base, _, _) => NameIsFree(ps, base);
    case _ =>
  }

  lemma {:induction false} WithoutKeepsUnique(ps: seq<Profile>, gone: string)
    requires UniqueNames(ps)
    ensures UniqueNames(Without(ps, gone))
    ensures forall p :: p in Without(ps, gone) <==> p in ps && p.name != gone
    decreases |ps|
  {
    if ps != [] {
      WithoutKeepsUnique(ps[1..], gone);
      assert ps == [ps[0]] + ps[1..];
      var rest := Without(ps[1..], gone);
      assert forall i :: 0 <= i < |rest| ==> rest[i] in ps[1..];
    }
  }

  // ----- runs of the store

  /** One transaction: an operation and the clock reading it uses. */
  datatype Tx = Tx(op: Op, now: nat)

  /** The vector after a list of transactions; rejected and no-write transactions leave it alone. */
  ghost function StoreAfter(txs: seq<Tx>): seq<Profile> {
    if txs == [] then []
    else
      var before, tx := StoreAfter(txs[..|txs| - 1]), txs[|txs| - 1];
      var applied := Apply(tx.op, before, tx.now);
      if applied.Write? then applied.next else before
  }

  lemma {:induction false} StoresHaveUniqueNames(txs: seq<Tx>)
    ensures UniqueNames(StoreAfter(txs))
  {
    if txs != [] {
      var before, tx := StoreAfter(txs[..|txs| - 1]), txs[|txs| - 1];
      StoresHaveUniqueNames(txs[..|txs| - 1]);
      if Apply(tx.op, before, tx.now).Write? {
        OperationsKeepNamesUnique(tx.op, before, tx.now);
      }
    }
  }
}
