/** Automatic selection of the most recently used matching profile. */
module ProfileSelection {
  import opened Bytes
  import opened Profiles
  import opened ProfileStore

  /** What resolution reports for one port. */
  datatype Resolution = Resolution(selected: Option<Profile>, ambiguous: bool, candidates: seq<string>)

  function CandidatesOf(glob: GlobMatch, ps: seq<Profile>, port: PortInfo, id: HighIdentity): seq<Profile> {
    if ps == [] then []
    else
      var rest := CandidatesOf(glob, ps[..|ps| - 1], port, id);
      if IsCandidate(glob, ps[|ps| - 1], port, id) then rest + [ps[|ps| - 1]] else rest
  }

  function NamesOf(ps: seq<Profile>): seq<string> {
    seq(|ps|, i requires 0 <= i < |ps| => ps[i].name)
  }

  /** Choose among the candidates: the only one, or the newest unless the two newest are tied. */
  function Choose(candidates: seq<Profile>): Resolution {
    if candidates == [] then Resolution(None, false, [])
    else if |candidates| == 1 then Resolution(Some(candidates[0]), false, NamesOf(candidates))
    else
      var ranked := RankCandidates(candidates);
      RankingSorts(candidates);
      assert |ranked| == |multiset(ranked)| == |multiset(candidates)|;
      if LastUsed(ranked[0]) != LastUsed(ranked[1])
      then Resolution(Some(ranked[0]), false, NamesOf(candidates))
      else Resolution(None, true, NamesOf(candidates))
  }

  /** `None` is the error for a port without a high-confidence identity. */
  function ResolveAutomatic(glob: GlobMatch, ps: seq<Profile>, port: PortInfo): Option<Resolution> {
    match HighIdentityOf(port)
    case None => None
    case Some(id) => Some(Choose(CandidatesOf(glob, ps, port, id)))
  }

  // ----- exactness

  /** `p` occurs once and was used strictly later than every other. */
  ghost predicate UniqueNewest(ps: seq<Profile>, p: Profile) {
    && multiset(ps)[p] == 1
    && forall q :: q in multiset(ps) && q != p ==> LastUsed(q) < LastUsed(p)
  }

  /** The latest use is shared by two positions. */
  ghost predicate TiedNewest(ps: seq<Profile>) {
    exists i, j :: 0 <= i < j < |ps| && LastUsed(ps[i]) == LastUsed(ps[j])
                   && forall k :: 0 <= k < |ps| ==> LastUsed(ps[k]) <= LastUsed(ps[i])
  }

  lemma OccursOnce(ps: seq<Profile>, i: nat)
    requires i < |ps| && forall j :: 0 <= j < |ps| && j != i ==> ps[j] != ps[i]
    ensures multiset(ps)[ps[i]] == 1
  {
    var a, b := ps[..i], ps[i + 1..];
    assert ps == a + [ps[i]] + b;
    assert ps[i] !in a && ps[i] !in b;
  }

  lemma {:induction false} OccursTwice(ps: seq<Profile>, p: Profile) returns (i: nat, j: nat)
    requires multiset(ps)[p] >= 2
    ensures i < j < |ps| && ps[i] == ps[j] == p
    decreases |ps|
  {
    var init, last := ps[..|ps| - 1], ps[|ps| - 1];
    assert ps == init + [last];
    if last == p {
      j := |ps| - 1;
      assert multiset(init)[p] >= 1;
      i :| 0 <= i < |init| && init[i] == p;
    } else {
      i, j := OccursTwice(init, p);
    }
  }

  lemma RankedHeadIsNewest(ranked: seq<Profile>)
    requires |ranked| >= 2 && NewestFirst(ranked) && LastUsed(ranked[0]) != LastUsed(ranked[1])
    ensures UniqueNewest(ranked, ranked[0])
  {
    forall j | 0 < j < |ranked| ensures LastUsed(ranked[j]) < LastUsed(ranked[0]) {
      assert j == 1 || LastUsed(ranked[1]) >= LastUsed(ranked[j]);
    }
    OccursOnce(ranked, 0);
  }

  lemma TieSurvivesPermutation(candidates: seq<Profile>, ranked: seq<Profile>)
    requires |ranked| >= 2 && NewestFirst(ranked) && LastUsed(ranked[0]) == LastUsed(ranked[1])
    requires multiset(ranked) == multiset(candidates)
    ensures TiedNewest(candidates)
  {
    var a, b := ranked[0], ranked[1];
    assert a in multiset(ranked) && b in multiset(ranked);
    forall k | 0 <= k < |candidates| ensures LastUsed(candidates[k]) <= LastUsed(a) {
      assert candidates[k] in multiset(ranked);
      var m :| 0 <= m < |ranked| && ranked[m] == candidates[k];
    }
    if a == b {
      assert ranked == [a, b] + ranked[2..];
      assert multiset([a, b])[a] == 2;
      var i, j := OccursTwice(candidates, a);
    } else {
      var i :| 0 <= i < |candidates| && candidates[i] == a;
      var j :| 0 <= j < |candidates| && candidates[j] == b;
      if j < i {
        assert LastUsed(candidates[j]) == LastUsed(candidates[i]);
      }
    }
  }

  lemma TiesExcludeUnique(ps: seq<Profile>, p: Profile)
    requires TiedNewest(ps)
    ensures !UniqueNewest(ps, p)
  {
    var i, j :| 0 <= i < j < |ps| && LastUsed(ps[i]) == LastUsed(ps[j])
                && forall k :: 0 <= k < |ps| ==> LastUsed(ps[k]) <= LastUsed(ps[i]);
    CountsTwice(ps, i, j);
    assert ps[i] in multiset(ps) && ps[j] in multiset(ps);
    assert forall q :: q in multiset(ps) ==> LastUsed(q) <= LastUsed(ps[i]);
  }

  lemma CountsTwice(ps: seq<Profile>, i: nat, j: nat)
    requires i < j < |ps|
    ensures ps[i] == ps[j] ==> multiset(ps)[ps[i]] >= 2
  {
    assert ps == ps[..i] + [ps[i]] + ps[i + 1..j] + [ps[j]] + ps[j + 1..];
  }

  /**
    Resolution selects `p` exactly when `p` is the unique most recently used candidate, and reports
    ambiguity exactly when the latest use is tied.
   */
  lemma ChoiceIsExact(candidates: seq<Profile>, p: Profile)
    ensures Choose(candidates).selected == Some(p) <==> UniqueNewest(candidates, p)
    ensures Choose(candidates).ambiguous <==> TiedNewest(candidates)
  {
    if |candidates| == 1 {
      assert candidates == [candidates[0]];
    } else if |candidates| >= 2 {
      var ranked := RankCandidates(candidates);
      RankingSorts(candidates);
      assert |ranked| == |multiset(ranked)| == |multiset(candidates)|;
      if LastUsed(ranked[0]) != LastUsed(ranked[1]) {
        RankedHeadIsNewest(ranked);
        assert UniqueNewest(candidates, ranked[0]);
        if TiedNewest(candidates) {
          TiesExcludeUnique(candidates, ranked[0]);
        }
      } else {
        TieSurvivesPermutation(candidates, ranked);
        TiesExcludeUnique(candidates, p);
      }
    }
  }

  // ----- who may be selected

  /** The selector names the port's vendor, product and serial number, and its interface if it has one. */
  predicate CarriesIdentity(selector: Selector, port: PortInfo) {
    && selector.transport == Some("usb") && port.transport == "usb"
    && selector.vid == port.vid && port.vid.Some?
    && selector.pid == port.pid && port.pid.Some?
    && selector.serialNumber == port.serialNumber && port.serialNumber.Some? && port.serialNumber.value != ""
    && (port.interface.Some? ==> selector.interface == port.interface)
  }

  /** No further field that the selector names says something else than the port. */
  predicate NothingDisagrees(glob: GlobMatch, selector: Selector, port: PortInfo) {
    && (selector.interface.None? || selector.interface == port.interface)
    && (selector.manufacturer.None? || selector.manufacturer == port.manufacturer)
    && (selector.product.None? || selector.product == port.product)
    && (selector.hardwareId.None? || selector.hardwareId == port.hardwareId)
    && (selector.portPattern.None? || glob(selector.portPattern.value, port.name))
    && (selector.descriptionPattern.None? || glob(selector.descriptionPattern.value, port.description))
  }

  lemma {:induction false} CandidatesCarryIdentity(glob: GlobMatch, ps: seq<Profile>, port: PortInfo, p: Profile)
    requires HighIdentityOf(port).Some?
    ensures p in CandidatesOf(glob, ps, port, HighIdentityOf(port).value) <==>
      p in ps && CarriesIdentity(p.selector, port) && NothingDisagrees(glob, p.selector, port)
    decreases |ps|
  {
    if ps != [] {
      var init, last := ps[..|ps| - 1], ps[|ps| - 1];
      CandidatesCarryIdentity(glob, init, port, p);
      assert ps == init + [last];
    }
  }

  /** The profiles that may be selected for the port. */
  predicate Fits(glob: GlobMatch, ps: seq<Profile>, port: PortInfo, p: Profile) {
    p in ps && CarriesIdentity(p.selector, port) && NothingDisagrees(glob, p.selector, port)
  }

  /**
    What automatic selection hands out, in terms of the port alone: nothing at all for a port without an
    identity; else the stored profile that carries the port's identity, disagrees with it in nothing, and was
    used later than every other such profile; and ambiguity when there are such profiles but none is newest.
   */
  lemma SelectedExactlyWhen(glob: GlobMatch, ps: seq<Profile>, port: PortInfo, p: Profile)
    requires UniqueNames(ps)
    ensures
      var res := ResolveAutomatic(glob, ps, port);
      && (res.None? <==> !(port.transport == "usb" && port.vid.Some? && port.pid.Some?
                           && port.serialNumber.Some? && port.serialNumber.value != ""))
      && (res.Some? ==>
            && (res.value.selected == Some(p) <==>
                  Fits(glob, ps, port, p) && forall q :: Fits(glob, ps, port, q) && q != p ==> LastUsed(q) < LastUsed(p))
            && (res.value.ambiguous <==> res.value.selected.None? && exists q :: Fits(glob, ps, port, q)))
  {
    if HighIdentityOf(port).Some? {
      var candidates := CandidatesOf(glob, ps, port, HighIdentityOf(port).value);
      forall q ensures q in candidates <==> Fits(glob, ps, port, q) {
        CandidatesCarryIdentity(glob, ps, port, q);
      }
      hide Fits;
      CandidatesOnce(glob, ps, port, HighIdentityOf(port).value, p);
      ChoiceIsExact(candidates, p);
      InMultiset(candidates);
      if candidates != [] {
        assert Fits(glob, ps, port, candidates[0]);
      }
    }
  }

  lemma {:induction false} CandidatesOnce(glob: GlobMatch, ps: seq<Profile>, port: PortInfo, id: HighIdentity, p: Profile)
    requires UniqueNames(ps)
    ensures multiset(CandidatesOf(glob, ps, port, id))[p] <= 1
    ensures p in CandidatesOf(glob, ps, port, id) ==> p in ps
    decreases |ps|
  {
    hide IsCandidate;
    if ps != [] {
      CandidatesOnce(glob, ps[..|ps| - 1], port, id, p);
      assert p in ps[..|ps| - 1] ==> p.name != ps[|ps| - 1].name;
    }
  }

  lemma InMultiset(ps: seq<Profile>)
    ensures forall q :: q in ps <==> q in multiset(ps)
    ensures forall p :: multiset(ps)[p] == 1 ==> p in ps
  {
  }

  // ----- the winner stays the winner

  /** `name` was used strictly later than every other profile of the store. */
  ghost predicate Newest(ps: seq<Profile>, name: string) {
    && Lookup(ps, name).Some?
    && UniqueNewest(ps, Lookup(ps, name).value)
    && LastUsed(Lookup(ps, name).value) > 0
  }

  lemma {:induction false} CandidatesFilter(glob: GlobMatch, ps: seq<Profile>, port: PortInfo, id: HighIdentity, q: Profile)
    ensures multiset(CandidatesOf(glob, ps, port, id))[q]
         == if IsCandidate(glob, q, port, id) then multiset(ps)[q] else 0
    decreases |ps|
  {
    if ps != [] {
      CandidatesFilter(glob, ps[..|ps| - 1], port, id, q);
      assert ps == ps[..|ps| - 1] + [ps[|ps| - 1]];
    }
  }

  /** The most recently used profile wins every port it matches. */
  lemma NewestIsSelected(glob: GlobMatch, ps: seq<Profile>, name: string, port: PortInfo)
    requires Newest(ps, name) && HighIdentityOf(port).Some?
    requires IsCandidate(glob, Lookup(ps, name).value, port, HighIdentityOf(port).value)
    ensures ResolveAutomatic(glob, ps, port).value.selected == Lookup(ps, name)
    ensures !ResolveAutomatic(glob, ps, port).value.ambiguous
  {
    var p, id := Lookup(ps, name).value, HighIdentityOf(port).value;
    var candidates := CandidatesOf(glob, ps, port, id);
    forall q ensures multiset(candidates)[q] == if IsCandidate(glob, q, port, id) then multiset(ps)[q] else 0 {
      CandidatesFilter(glob, ps, port, id, q);
    }
    assert forall q :: q in multiset(candidates) ==> q in multiset(ps);
    assert UniqueNewest(candidates, p);
    ChoiceIsExact(candidates, p);
    if TiedNewest(candidates) {
      TiesExcludeUnique(candidates, p);
    }
  }

  /**
    Marking a profile used makes it the newest, whatever the clock says: its last use is the clock, or just
    behind the latest use so far if the clock is not ahead of that.
   */
  lemma MarkUsedMakesNewest(ps: seq<Profile>, name: string, now: nat)
    requires UniqueNames(ps) && Apply(MarkUsed(name), ps, now).Write?
    ensures Newest(Apply(MarkUsed(name), ps, now).next, name)
    ensures Lookup(Apply(MarkUsed(name), ps, now).next, name).Some?
    ensures
      var used := LastUsed(Lookup(Apply(MarkUsed(name), ps, now).next, name).value);
      now <= used && (used == now || exists k :: 0 <= k < |ps| && used == LastUsed(ps[k]) + 1)
  {
    var next := Apply(MarkUsed(name), ps, now).next;
    var i := IndexOf(ps, name).value;
    LookupUpdate(ps, i, next[i], name);
    NewestByIndex(next, i);
    var k := LatestUse(ps);
  }

  lemma {:induction false} LatestUse(ps: seq<Profile>) returns (k: nat)
    requires ps != []
    ensures k < |ps| && LastUsed(ps[k]) == MaxLastUsed(ps)
    decreases |ps|
  {
    k := 0;
    if |ps| > 1 {
      var j := LatestUse(ps[1..]);
      if LastUsed(ps[0]) <= MaxLastUsed(ps[1..]) {
        k := j + 1;
      }
    }
  }

  lemma NewestByIndex(ps: seq<Profile>, i: nat)
    requires i < |ps| && forall j :: 0 <= j < |ps| && j != i ==> LastUsed(ps[j]) < LastUsed(ps[i])
    ensures UniqueNewest(ps, ps[i])
  {
    OccursOnce(ps, i);
  }

  lemma NewestIndex(ps: seq<Profile>, name: string) returns (i: nat)
    requires Newest(ps, name)
    ensures IndexOf(ps, name) == Some(i) && i < |ps|
    ensures forall j :: 0 <= j < |ps| && j != i ==> LastUsed(ps[j]) < LastUsed(ps[i])
  {
    i := IndexOf(ps, name).value;
    var p := ps[i];
    forall j | 0 <= j < |ps| && j != i ensures LastUsed(ps[j]) < LastUsed(p) {
      assert ps[j] in multiset(ps);
      CountsTwice(ps, if i < j then i else j, if i < j then j else i);
    }
  }

  /** Operations that do not concern usage. */
  predicate IsQuiet(op: Op) {
    !op.MarkUsed? && !op.CreateGenerated?
  }

  lemma QuietOperationsKeepNewest(op: Op, ps: seq<Profile>, now: nat, name: string)
    requires UniqueNames(ps) && Newest(ps, name) && IsQuiet(op)
    requires Apply(op, ps, now).Write? && Lookup(Apply(op, ps, now).next, name).Some?
    ensures Newest(Apply(op, ps, now).next, name)
  {
    hide PushRevision, MaxLastUsed, SnapshotAt;
    var next := Apply(op, ps, now).next;
    if op.Delete? {
      LookupWithout(ps, op.name, name);
      DeletionKeepsNewest(ps, op.name, name);
    } else {
      UsageIsKept(op, ps, now);
      UpdatedStaysNewest(ps, next, name);
    }
  }

  /** Overwrites keep each profile's place and last use; what is added was never used. */
  lemma UsageIsKept(op: Op, ps: seq<Profile>, now: nat)
    requires IsQuiet(op) && !op.Delete? && Apply(op, ps, now).Write?
    ensures
      var next := Apply(op, ps, now).next;
      && |ps| <= |next|
      && (forall j :: 0 <= j < |ps| ==> next[j].name == ps[j].name && LastUsed(next[j]) == LastUsed(ps[j]))
      && (forall j :: |ps| <= j < |next| ==> LastUsed(next[j]) == 0)
  {
    hide PushRevision, MaxLastUsed, SnapshotAt;
  }

  lemma UpdatedStaysNewest(ps: seq<Profile>, next: seq<Profile>, name: string)
    requires Newest(ps, name) && |ps| <= |next|
    requires forall j :: 0 <= j < |ps| ==> next[j].name == ps[j].name && LastUsed(next[j]) == LastUsed(ps[j])
    requires forall j :: |ps| <= j < |next| ==> LastUsed(next[j]) == 0
    ensures Newest(next, name)
  {
    var i := NewestIndex(ps, name);
    assert IndexOf(next, name) == Some(i);
    NewestByIndex(next, i);
  }

  lemma DeletionKeepsNewest(ps: seq<Profile>, gone: string, name: string)
    requires UniqueNames(ps) && Newest(ps, name) && gone != name
    ensures Newest(Without(ps, gone), name)
  {
    LookupWithout(ps, gone, name);
    WithoutKeepsUnique(ps, gone);
    var rest, p := Without(ps, gone), Lookup(ps, name).value;
    var i := IndexOf(rest, name).value;
    forall j | 0 <= j < |rest| && j != i ensures LastUsed(rest[j]) < LastUsed(p) {
      assert rest[j] in ps && rest[j] in multiset(ps);
    }
    NewestByIndex(rest, i);
  }

  /** The store after further transactions from `ps`. */
  ghost function StoreFrom(ps: seq<Profile>, txs: seq<Tx>): seq<Profile>
    decreases |txs|
  {
    if txs == [] then ps
    else
      var applied := Apply(txs[0].op, ps, txs[0].now);
      StoreFrom(if applied.Write? then applied.next else ps, txs[1..])
  }

  ghost predicate ExistsThroughout(ps: seq<Profile>, txs: seq<Tx>, name: string) {
    forall k :: 0 <= k <= |txs| ==> Lookup(StoreFrom(ps, txs[..k]), name).Some?
  }

  lemma {:induction false} NewestStaysNewest(ps: seq<Profile>, txs: seq<Tx>, name: string)
    requires UniqueNames(ps) && Newest(ps, name) && ExistsThroughout(ps, txs, name)
    requires forall k :: 0 <= k < |txs| ==> IsQuiet(txs[k].op)
    ensures Newest(StoreFrom(ps, txs), name)
    decreases |txs|
  {
    hide Apply, Newest, ExistsThroughout, UniqueNames, IsQuiet, Lookup;
    if txs != [] {
      var applied := Apply(txs[0].op, ps, txs[0].now);
      var next := if applied.Write? then applied.next else ps;
      ExistsLater(ps, txs, name);
      if applied.Write? {
        QuietOperationsKeepNewest(txs[0].op, ps, txs[0].now, name);
        OperationsKeepNamesUnique(txs[0].op, ps, txs[0].now);
      }
      NewestStaysNewest(next, txs[1..], name);
    }
  }

  lemma ExistsLater(ps: seq<Profile>, txs: seq<Tx>, name: string)
    requires txs != [] && ExistsThroughout(ps, txs, name)
    ensures
      var applied := Apply(txs[0].op, ps, txs[0].now);
      var next := if applied.Write? then applied.next else ps;
      Lookup(next, name).Some? && ExistsThroughout(next, txs[1..], name)
  {
    hide Apply, Lookup;
    var applied := Apply(txs[0].op, ps, txs[0].now);
    var next := if applied.Write? then applied.next else ps;
    FirstStore(ps, txs);
    assert Lookup(StoreFrom(ps, txs[..1]), name).Some?;
    forall k | 0 <= k <= |txs| - 1 ensures Lookup(StoreFrom(next, txs[1..][..k]), name).Some? {
      assert txs[..k + 1][1..] == txs[1..][..k];
      assert Lookup(StoreFrom(ps, txs[..k + 1]), name).Some?;
    }
  }

  lemma FirstStore(ps: seq<Profile>, txs: seq<Tx>)
    requires txs != []
    ensures
      var applied := Apply(txs[0].op, ps, txs[0].now);
      StoreFrom(ps, txs[..1]) == if applied.Write? then applied.next else ps
  {
    assert txs[..1][1..] == [];
    var applied := Apply(txs[0].op, ps, txs[0].now);
    assert StoreFrom(if applied.Write? then applied.next else ps, []) == if applied.Write? then applied.next else ps;
  }

  /**
    After `mark_used(name)` the profile keeps winning every port it still matches, through any upserts,
    configures, deletions of others, learned updates and rollbacks, while it exists.
   */
  lemma {:induction false} MarkedProfileKeepsWinning(glob: GlobMatch, ps: seq<Profile>, name: string, now: nat, txs: seq<Tx>, port: PortInfo)
    requires UniqueNames(ps) && Apply(MarkUsed(name), ps, now).Write?
    requires forall k :: 0 <= k < |txs| ==> IsQuiet(txs[k].op)
    requires ExistsThroughout(Apply(MarkUsed(name), ps, now).next, txs, name)
    requires HighIdentityOf(port).Some?
    ensures
      var final := StoreFrom(Apply(MarkUsed(name), ps, now).next, txs);
      var p := Lookup(final, name);
      p.Some? && (IsCandidate(glob, p.value, port, HighIdentityOf(port).value) ==>
                    ResolveAutomatic(glob, final, port).value.selected == p)
  {
    var marked := Apply(MarkUsed(name), ps, now).next;
    MarkUsedMakesNewest(ps, name, now);
    OperationsKeepNamesUnique(MarkUsed(name), ps, now);
    NewestStaysNewest(marked, txs, name);
    var final := StoreFrom(marked, txs);
    if IsCandidate(glob, Lookup(final, name).value, port, HighIdentityOf(port).value) {
      NewestIsSelected(glob, final, name, port);
    }
  }

  /**
    A generated profile takes the clock as its last use without looking at the others: it becomes the
    newest exactly when the clock is ahead of every recorded use, and can otherwise tie or lose.
   */
  lemma GeneratedIsNewestExactlyWhen(ps: seq<Profile>, base: string, selector: Selector, defaults: Defaults, now: nat)
    ensures
      var next := Apply(CreateGenerated(base, selector, defaults), ps, now).next;
      var created := next[|next| - 1];
      UniqueNewest(next, created) <==> forall i :: 0 <= i < |ps| ==> LastUsed(ps[i]) < now
  {
    var next := Apply(CreateGenerated(base, selector, defaults), ps, now).next;
    var n := |ps|;
    var created := next[n];
    NameIsFree(ps, base);
    assert forall i :: 0 <= i < n ==> next[i] == ps[i] && ps[i] != created;
    if UniqueNewest(next, created) {
      NewestBeatsOthers(next, n);
    }
    if forall i :: 0 <= i < n ==> LastUsed(ps[i]) < now {
      NewestByIndex(next, n);
    }
  }

  lemma NewestBeatsOthers(qs: seq<Profile>, n: nat)
    requires n < |qs| && UniqueNewest(qs, qs[n])
    ensures forall i :: 0 <= i < |qs| && qs[i] != qs[n] ==> LastUsed(qs[i]) < LastUsed(qs[n])
  {
    assert forall i :: 0 <= i < |qs| ==> qs[i] in multiset(qs);
  }
}
