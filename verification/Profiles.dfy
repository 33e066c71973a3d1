/** Device profiles: selectors, identities, ranking and generated names. */
module Profiles {
  import opened Bytes

  const MAX_PROFILE_REVISIONS: nat := 5

  datatype Selector = Selector(
    vid: Option<nat>, pid: Option<nat>, serialNumber: Option<string>, manufacturer: Option<string>,
    product: Option<string>, interface: Option<nat>, portPattern: Option<string>,
    descriptionPattern: Option<string>, transport: Option<string>, hardwareId: Option<string>)

  const EMPTY_SELECTOR: Selector := Selector(None, None, None, None, None, None, None, None, None, None)

  /** The settings a profile stores; only their equality matters to the store. */
  datatype Defaults = Defaults(baudRate: nat, settings: map<string, string>)

  datatype Metadata = Metadata(generated: bool, revision: nat, createdAt: Option<nat>, updatedAt: Option<nat>,
                               lastUsedAt: Option<nat>, useCount: nat)

  datatype Revision = Revision(revision: nat, savedAt: nat, selector: Selector, defaults: Defaults)

  datatype Profile = Profile(name: string, selector: Selector, defaults: Defaults, metadata: Metadata,
                             revisions: seq<Revision>)

  datatype PortInfo = PortInfo(
    name: string, description: string, transport: string, vid: Option<nat>, pid: Option<nat>,
    serialNumber: Option<string>, manufacturer: Option<string>, product: Option<string>,
    interface: Option<nat>, hardwareId: Option<string>)

  // ----- matching

  /** Any glob semantics: whether a pattern compiles and matches a text. */
  type GlobMatch = (string, string) -> bool

  predicate Agrees<T(==)>(want: Option<T>, have: Option<T>) {
    want.Some? ==> have == want
  }

  predicate Matches(glob: GlobMatch, s: Selector, port: PortInfo) {
    && Agrees(s.vid, port.vid) && Agrees(s.pid, port.pid)
    && Agrees(s.serialNumber, port.serialNumber) && Agrees(s.manufacturer, port.manufacturer)
    && Agrees(s.product, port.product) && Agrees(s.interface, port.interface)
    && (s.portPattern.Some? ==> glob(s.portPattern.value, port.name))
    && (s.descriptionPattern.Some? ==> glob(s.descriptionPattern.value, port.description))
    && Agrees(s.transport, Some(port.transport)) && Agrees(s.hardwareId, port.hardwareId)
  }

  datatype HighIdentity = HighIdentity(transport: string, vid: nat, pid: nat, serialNumber: string,
                                       interface: Option<nat>)

  function HighIdentityOf(port: PortInfo): Option<HighIdentity> {
    if port.transport == "usb" && port.vid.Some? && port.pid.Some?
       && port.serialNumber.Some? && port.serialNumber.value != ""
    then Some(HighIdentity(port.transport, port.vid.value, port.pid.value, port.serialNumber.value, port.interface))
    else None
  }

  predicate SelectorMatchesHighIdentity(s: Selector, id: HighIdentity) {
    && s.transport == Some(id.transport) && s.vid == Some(id.vid) && s.pid == Some(id.pid)
    && s.serialNumber == Some(id.serialNumber)
    && (id.interface.Some? ==> s.interface == id.interface)
  }

  function CanonicalHighSelector(port: PortInfo): Option<Selector> {
    match HighIdentityOf(port)
    case None => None
    case Some(id) =>
      Some(EMPTY_SELECTOR.(vid := Some(id.vid), pid := Some(id.pid), serialNumber := Some(id.serialNumber),
                           interface := id.interface, transport := Some(id.transport)))
  }

  /** A profile is a candidate for a port when its selector matches and carries the port's identity. */
  predicate IsCandidate(glob: GlobMatch, p: Profile, port: PortInfo, id: HighIdentity) {
    Matches(glob, p.selector, port) && SelectorMatchesHighIdentity(p.selector, id)
  }

  /**
    A generated selector finds its own port, and among high-confidence ports it finds exactly those with
    the same vendor, product and serial number, and the same interface when it names one.
   */
  lemma CanonicalSelectorIdentifies(glob: GlobMatch, port: PortInfo, other: PortInfo)
    requires HighIdentityOf(port).Some? && HighIdentityOf(other).Some?
    ensures
      var s := CanonicalHighSelector(port).value;
      && IsCandidate(glob, Profile("", s, Defaults(0, map[]), Metadata(true, 1, None, None, None, 0), []),
                     port, HighIdentityOf(port).value)
      && (Matches(glob, s, other) <==>
            && other.vid == port.vid && other.pid == port.pid && other.serialNumber == port.serialNumber
            && (port.interface.Some? ==> other.interface == port.interface))
  {
  }

  // ----- recency ranking

  function LastUsed(p: Profile): nat {
    if p.metadata.lastUsedAt.Some? then p.metadata.lastUsedAt.value else 0
  }

  /** Insert after every profile that was used at least as recently. */
  function InsertByRecency(p: Profile, ranked: seq<Profile>): seq<Profile> {
    if ranked == [] || LastUsed(ranked[0]) < LastUsed(p) then [p] + ranked
    else [ranked[0]] + InsertByRecency(p, ranked[1..])
  }

  /** Stable sort by last use, newest first. */
  function RankCandidates(candidates: seq<Profile>): seq<Profile> {
    if candidates == [] then []
    else InsertByRecency(candidates[|candidates| - 1], RankCandidates(candidates[..|candidates| - 1]))
  }

  ghost predicate NewestFirst(ps: seq<Profile>) {
    forall i, j :: 0 <= i < j < |ps| ==> LastUsed(ps[i]) >= LastUsed(ps[j])
  }

  lemma {:induction false} InsertPermutes(p: Profile, ranked: seq<Profile>)
    ensures multiset(InsertByRecency(p, ranked)) == multiset(ranked) + multiset{p}
    decreases |ranked|
  {
    if !(ranked == [] || LastUsed(ranked[0]) < LastUsed(p)) {
      InsertPermutes(p, ranked[1..]);
      assert ranked == [ranked[0]] + ranked[1..];
    }
  }

  lemma {:induction false} InsertKeepsOrder(p: Profile, ranked: seq<Profile>)
    requires NewestFirst(ranked)
    ensures NewestFirst(InsertByRecency(p, ranked))
    decreases |ranked|
  {
    if !(ranked == [] || LastUsed(ranked[0]) < LastUsed(p)) {
      InsertKeepsOrder(p, ranked[1..]);
      InsertedTailIsOlder(p, ranked[0], ranked[1..]);
    }
  }

  lemma {:induction false} InsertedTailIsOlder(p: Profile, head: Profile, tail: seq<Profile>)
    requires LastUsed(head) >= LastUsed(p)
    requires forall i :: 0 <= i < |tail| ==> LastUsed(head) >= LastUsed(tail[i])
    ensures forall i :: 0 <= i < |InsertByRecency(p, tail)| ==> LastUsed(head) >= LastUsed(InsertByRecency(p, tail)[i])
    decreases |tail|
  {
    if !(tail == [] || LastUsed(tail[0]) < LastUsed(p)) {
      InsertedTailIsOlder(p, head, tail[1..]);
    }
  }

  /** Ranking is a permutation of the candidates with the most recently used first. */
  lemma {:induction false} RankingSorts(candidates: seq<Profile>)
    ensures NewestFirst(RankCandidates(candidates))
    ensures multiset(RankCandidates(candidates)) == multiset(candidates)
    decreases |candidates|
  {
    if candidates != [] {
      var init, last := candidates[..|candidates| - 1], candidates[|candidates| - 1];
      RankingSorts(init);
      hide InsertByRecency, NewestFirst;
      InsertKeepsOrder(last, RankCandidates(init));
      InsertPermutes(last, RankCandidates(init));
      assert candidates == init + [last];
    }
  }

  // ----- generated names

  function Decimal(n: nat): string {
    if n < 10 then [('0' as int + n) as char] else Decimal(n / 10) + Decimal(n % 10)
  }

  function DecimalValue(s: string): int {
    if s == "" then 0 else 10 * DecimalValue(s[..|s| - 1]) + (s[|s| - 1] as int - '0' as int)
  }

  lemma {:induction false} DecimalReadsBack(n: nat)
    ensures DecimalValue(Decimal(n)) == n && Decimal(n) != ""
  {
    if n < 10 {
      assert Decimal(n)[..0] == "";
    } else {
      DecimalReadsBack(n / 10);
      var s, d := Decimal(n / 10), Decimal(n % 10);
      assert |d| == 1 && (s + d)[..|s + d| - 1] == s;
    }
  }

  /** `base-2`, `base-3`, ... */
  function Suffixed(base: string, k: nat): string {
    base + "-" + Decimal(k)
  }

  /** How generated names look. */
  lemma SuffixExamples(base: string)
    ensures Suffixed(base, 2) == base + "-2" && Suffixed(base, 10) == base + "-10"
  {
    assert Decimal(2) == "2" && Decimal(1) == "1" && Decimal(0) == "0";
    assert Decimal(10) == Decimal(1) + Decimal(0);
  }

  lemma SuffixesDiffer(base: string, j: nat, k: nat)
    requires j != k
    ensures Suffixed(base, j) != Suffixed(base, k)
    ensures Suffixed(base, k) != base
  {
    DecimalReadsBack(j);
    DecimalReadsBack(k);
    var prefix := base + "-";
    assert Suffixed(base, j)[|prefix|..] == Decimal(j) && Suffixed(base, k)[|prefix|..] == Decimal(k);
  }

  function Names(ps: seq<Profile>): set<string> {
    set i | 0 <= i < |ps| :: ps[i].name
  }

  /** The names the search for a free one has already found taken. */
  function Tried(base: string, k: nat): set<string> {
    if k <= 2 then {base} else Tried(base, k - 1) + {Suffixed(base, k - 1)}
  }

  lemma {:induction false} TriedAreDistinct(base: string, k: nat)
    requires k >= 2
    ensures |Tried(base, k)| == k - 1
    ensures forall j :: j >= k ==> Suffixed(base, j) !in Tried(base, k)
    ensures base in Tried(base, k)
    ensures forall x :: x in Tried(base, k) ==> x == base || exists j :: 2 <= j < k && x == Suffixed(base, j)
    decreases k
  {
    if k > 2 {
      TriedAreDistinct(base, k - 1);
      forall j | j >= k ensures Suffixed(base, j) !in Tried(base, k) {
        SuffixesDiffer(base, j, k - 1);
      }
    } else {
      forall j | j >= k ensures Suffixed(base, j) !in Tried(base, k) {
        SuffixesDiffer(base, j + 1, j);
      }
    }
  }

  /** `name` is what the search returns: the base if free, else the free suffix with the least number. */
  ghost predicate IsFirstFreeName(taken: set<string>, base: string, name: string) {
    && name !in taken
    && (name == base || (base in taken && exists k :: k >= 2 && name == Suffixed(base, k)
                                            && forall j :: 2 <= j < k ==> Suffixed(base, j) in taken))
  }

  lemma CardinalitySubset(a: set<string>, b: set<string>)
    requires a <= b
    ensures |a| <= |b|
  {
    assert b == a + (b - a);
  }

  lemma TriedFirst(base: string)
    ensures Tried(base, 2) == {base}
  {
  }

  /** Taken names are no fewer than the tried ones, so one more try can be counted. */
  lemma TriedFitIn(base: string, k: nat, taken: set<string>)
    requires k >= 2 && Tried(base, k) <= taken
    ensures k - 1 <= |taken|
    ensures Tried(base, k + 1) == Tried(base, k) + {Suffixed(base, k)}
  {
    TriedAreDistinct(base, k);
    CardinalitySubset(Tried(base, k), taken);
  }

  method AllocateGeneratedName(existing: seq<Profile>, base: string) returns (name: string)
    ensures IsFirstFreeName(Names(existing), base, name)
  {
    hide Decimal, Suffixed, Tried;
    assert Tried(base, 2) == {base} by { TriedFirst(base); }
    var taken := Names(existing);
    if base !in taken {
      return base;
    }
    var suffix := 2;
    while true
      invariant suffix >= 2 && Tried(base, suffix) <= taken
      invariant forall j :: 2 <= j < suffix ==> Suffixed(base, j) in taken
      decreases |taken| + 2 - suffix
    {
      name := Suffixed(base, suffix);
      if name !in taken {
        return name;
      }
      TriedFitIn(base, suffix, taken);
      suffix := suffix + 1;
    }
  }

  /** The search always ends: among finitely many taken names some suffix is free. */
  lemma FreeNameExists(taken: set<string>, base: string)
    ensures exists name :: IsFirstFreeName(taken, base, name)
  {
    if base !in taken {
      assert IsFirstFreeName(taken, base, base);
    } else {
      var k := 2;
      while Suffixed(base, k) in taken
        invariant k >= 2 && Tried(base, k) <= taken
        invariant forall j :: 2 <= j < k ==> Suffixed(base, j) in taken
        decreases |taken| + 2 - k
      {
        TriedFitIn(base, k, taken);
        k := k + 1;
      }
      assert IsFirstFreeName(taken, base, Suffixed(base, k));
    }
  }

  /** There is only one such name, so allocation is a function of the names taken. */
  lemma FirstFreeNameIsUnique(taken: set<string>, base: string, a: string, b: string)
    requires IsFirstFreeName(taken, base, a) && IsFirstFreeName(taken, base, b)
    ensures a == b
  {
  }
}
