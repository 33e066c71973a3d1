/** The scan for the earliest start marker, and when it does not depend on how the bytes are chunked. */
module StartMarkers {
  import opened Bytes

  datatype Hit = Hit(pos: nat, len: nat)

  /** Earliest occurrence among the markers; equal offsets go to the marker listed first. */
  function EarliestStart(buf: seq<byte>, markers: seq<seq<byte>>): (r: Option<Hit>)
    ensures r.Some? ==> r.value.pos + r.value.len <= |buf|
  {
    if markers == [] then None
    else
      var best, last := EarliestStart(buf, markers[..|markers| - 1]), markers[|markers| - 1];
      match FindSubsequence(buf, last)
      case None => best
      case Some(pos) =>
        if best.None? || pos < best.value.pos then Some(Hit(pos, |last|)) else best
  }

  /** Marker `w` at `pos` precedes every other occurrence, ties broken by list order. */
  ghost predicate Wins(buf: seq<byte>, markers: seq<seq<byte>>, w: nat, pos: nat) {
    && w < |markers| && OccursAt(buf, markers[w], pos)
    && (forall j, i :: 0 <= j < |markers| && 0 <= i < pos ==> !OccursAt(buf, markers[j], i))
    && (forall j :: 0 <= j < w ==> !OccursAt(buf, markers[j], pos))
  }

  ghost predicate NonEmptyMarkers(markers: seq<seq<byte>>) {
    forall j :: 0 <= j < |markers| ==> markers[j] != []
  }

  ghost predicate Absent(buf: seq<byte>, markers: seq<seq<byte>>) {
    forall j, i :: 0 <= j < |markers| ==> !OccursAt(buf, markers[j], i)
  }

  /** The scan loop finds a winner exactly when some marker occurs. */
  lemma {:induction false} EarliestStartWins(buf: seq<byte>, markers: seq<seq<byte>>) returns (w: nat)
    requires NonEmptyMarkers(markers)
    ensures EarliestStart(buf, markers).None? <==> Absent(buf, markers)
    ensures EarliestStart(buf, markers).Some? ==>
      var h := EarliestStart(buf, markers).value;
      Wins(buf, markers, w, h.pos) && h.len == |markers[w]|
    decreases |markers|
  {
    if markers == [] {
      w := 0;
    } else {
      var init, last := markers[..|markers| - 1], markers[|markers| - 1];
      w := EarliestStartWins(buf, init);
      assert markers == init + [last];
      match FindSubsequence(buf, last)
      case None =>
        if EarliestStart(buf, init).Some? {
          WinnerStays(buf, init, last, w, EarliestStart(buf, init).value.pos);
        }
      case Some(pos) =>
        assert !Absent(buf, markers);
        if EarliestStart(buf, init).None? || pos < EarliestStart(buf, init).value.pos {
          w := |init|;
        } else {
          WinnerStays(buf, init, last, w, EarliestStart(buf, init).value.pos);
        }
    }
  }

  lemma WinnerStays(buf: seq<byte>, init: seq<seq<byte>>, last: seq<byte>, w: nat, pos: nat)
    requires Wins(buf, init, w, pos)
    requires forall i :: 0 <= i < pos ==> !OccursAt(buf, last, i)
    ensures Wins(buf, init + [last], w, pos)
    ensures !Absent(buf, init + [last])
  {
    assert (init + [last])[w] == init[w];
  }

  lemma WinnerIsUnique(buf: seq<byte>, markers: seq<seq<byte>>, w: nat, pos: nat, w': nat, pos': nat)
    requires Wins(buf, markers, w, pos) && Wins(buf, markers, w', pos')
    ensures w == w' && pos == pos'
  {
  }

  // ----- independence of chunking

  /** Marker `j` sits strictly inside marker `i` at offset `d`, and nothing listed starts `i` early enough. */
  ghost predicate Hides(markers: seq<seq<byte>>, i: nat, j: nat, d: nat) {
    && i < |markers| && j < |markers| && 0 < d && d + |markers[j]| < |markers[i]|
    && OccursAt(markers[i], markers[j], d)
    && forall k :: 0 <= k < |markers| && |markers[k]| <= d + |markers[j]| ==> !OccursAt(markers[i], markers[k], 0)
  }

  /** Marker `i` is listed before its own proper prefix `j`, and no earlier marker takes that place. */
  ghost predicate Outranks(markers: seq<seq<byte>>, i: nat, j: nat) {
    && i < j < |markers| && |markers[j]| < |markers[i]| && OccursAt(markers[i], markers[j], 0)
    && forall k :: 0 <= k < i ==> !OccursAt(markers[j], markers[k], 0)
  }

  /** A property of the configuration alone. */
  ghost predicate Unambiguous(markers: seq<seq<byte>>, includeMarkers: bool) {
    && (forall i, j, d :: !Hides(markers, i, j, d))
    && (!includeMarkers ==> forall i, j :: !Outranks(markers, i, j))
  }

  /** Where a start marker cuts the buffer. */
  function Cut(h: Hit, includeMarkers: bool): nat {
    h.pos + if includeMarkers then 0 else h.len
  }

  /** Both scans cut the buffer at the same place, before or behind the same marker. */
  predicate SameCut(a: Option<Hit>, b: Option<Hit>, includeMarkers: bool) {
    && a.Some? && b.Some? && a.value.pos == b.value.pos
    && (includeMarkers || a.value.len == b.value.len)
  }

  lemma EqualLengthsAreUnambiguous(markers: seq<seq<byte>>, includeMarkers: bool)
    requires forall i, j :: 0 <= i < |markers| && 0 <= j < |markers| ==> |markers[i]| == |markers[j]|
    ensures Unambiguous(markers, includeMarkers)
  {
  }

  /** A start found in the bytes so far is the start that the longer buffer shows. */
  lemma StartIsStable(buf: seq<byte>, more: seq<byte>, markers: seq<seq<byte>>, includeMarkers: bool)
    requires NonEmptyMarkers(markers) && Unambiguous(markers, includeMarkers)
    requires EarliestStart(buf, markers).Some?
    ensures SameCut(EarliestStart(buf, markers), EarliestStart(buf + more, markers), includeMarkers)
  {
    var w := EarliestStartWins(buf, markers);
    var v := EarliestStartWins(buf + more, markers);
    var p := EarliestStart(buf, markers).value.pos;
    OccursInPrefix(buf, more, markers[w], p);
    assert !Absent(buf + more, markers);
    var q := EarliestStart(buf + more, markers).value.pos;
    if q < p {
      EarlierStartIsHidden(buf, more, markers, w, p, v, q);
    } else if v != w && |markers[v]| != |markers[w]| {
      LaterWinnerOutranks(buf, more, markers, w, v, p);
    }
  }

  lemma EarlierStartIsHidden(buf: seq<byte>, more: seq<byte>, markers: seq<seq<byte>>,
                             w: nat, p: nat, v: nat, q: nat)
    requires Wins(buf, markers, w, p) && Wins(buf + more, markers, v, q) && q < p
    ensures Hides(markers, v, w, p - q)
  {
    var d := p - q;
    OccursInPrefix(buf, more, markers[v], q);
    OccursInPrefix(buf, more, markers[w], p);
    OccursInside(buf + more, markers[v], markers[w], q, d);
    forall k | 0 <= k < |markers| && |markers[k]| <= d + |markers[w]|
      ensures !OccursAt(markers[v], markers[k], 0)
    {
      OccursInPrefix(buf, more, markers[k], q);
      OccursInside(buf + more, markers[v], markers[k], q, 0);
    }
  }

  lemma LaterWinnerOutranks(buf: seq<byte>, more: seq<byte>, markers: seq<seq<byte>>, w: nat, v: nat, p: nat)
    requires Wins(buf, markers, w, p) && Wins(buf + more, markers, v, p)
    requires v != w && |markers[v]| != |markers[w]|
    ensures Outranks(markers, v, w)
  {
    OccursInPrefix(buf, more, markers[w], p);
    OccursInPrefix(buf, more, markers[v], p);
    OccursInside(buf + more, markers[v], markers[w], p, 0);
    forall k | 0 <= k < v ensures !OccursAt(markers[w], markers[k], 0) {
      if |markers[k]| <= |markers[w]| {
        OccursInside(buf, markers[w], markers[k], p, 0);
      }
    }
  }

  /** Seen in two parts, the marker is cut elsewhere than seen as a whole. */
  ghost predicate CutApart(markers: seq<seq<byte>>, includeMarkers: bool, buf: seq<byte>, more: seq<byte>) {
    var early, late := EarliestStart(buf, markers), EarliestStart(buf + more, markers);
    && buf + more in markers && early.Some? && late.Some? && !SameCut(early, late, includeMarkers)
    && Cut(early.value, includeMarkers) != Cut(late.value, includeMarkers)
  }

  lemma HiddenStartIsUnstable(markers: seq<seq<byte>>, includeMarkers: bool, i: nat, j: nat, d: nat)
    returns (buf: seq<byte>, more: seq<byte>)
    requires NonEmptyMarkers(markers) && Hides(markers, i, j, d)
    ensures CutApart(markers, includeMarkers, buf, more)
  {
    var cut := d + |markers[j]|;
    buf, more := markers[i][..cut], markers[i][cut..];
    assert buf + more == markers[i];
    var w := EarliestStartWins(buf, markers);
    var v := EarliestStartWins(buf + more, markers);
    OccursInPrefix(buf, more, markers[j], d);
    assert OccursAt(markers[i], markers[i], 0);
    assert EarliestStart(buf + more, markers).value.pos == 0;
    if EarliestStart(buf, markers).value.pos == 0 {
      OccursInPrefix(buf, more, markers[w], 0);
    }
    assert |markers[v]| > cut;
  }

  lemma OutrankedStartIsUnstable(markers: seq<seq<byte>>, i: nat, j: nat)
    returns (buf: seq<byte>, more: seq<byte>)
    requires NonEmptyMarkers(markers) && Outranks(markers, i, j)
    ensures CutApart(markers, false, buf, more)
  {
    buf, more := markers[j], markers[i][|markers[j]|..];
    assert buf + more == markers[i];
    var w := EarliestStartWins(buf, markers);
    var v := EarliestStartWins(buf + more, markers);
    assert OccursAt(buf, markers[j], 0) && OccursAt(markers[i], markers[i], 0);
    OccursInPrefix(buf, more, markers[v], 0);
  }

  /** The exact condition: the start cut is independent of chunking if and only if no marker is ambiguous. */
  lemma StartIsStableExactlyWhenUnambiguous(markers: seq<seq<byte>>, includeMarkers: bool)
    requires NonEmptyMarkers(markers)
    ensures Unambiguous(markers, includeMarkers) <==>
      forall buf, more :: EarliestStart(buf, markers).Some? ==>
        SameCut(EarliestStart(buf, markers), EarliestStart(buf + more, markers), includeMarkers)
  {
    if Unambiguous(markers, includeMarkers) {
      forall buf, more | EarliestStart(buf, markers).Some?
        ensures SameCut(EarliestStart(buf, markers), EarliestStart(buf + more, markers), includeMarkers)
      {
        StartIsStable(buf, more, markers, includeMarkers);
      }
    } else {
      var buf, more := AmbiguousMarkerIsCutApart(markers, includeMarkers);
    }
  }

  lemma AmbiguousMarkerIsCutApart(markers: seq<seq<byte>>, includeMarkers: bool)
    returns (buf: seq<byte>, more: seq<byte>)
    requires NonEmptyMarkers(markers) && !Unambiguous(markers, includeMarkers)
    ensures CutApart(markers, includeMarkers, buf, more)
  {
    if exists i, j, d :: Hides(markers, i, j, d) {
      var i, j, d :| Hides(markers, i, j, d);
      buf, more := HiddenStartIsUnstable(markers, includeMarkers, i, j, d);
    } else {
      var i, j :| Outranks(markers, i, j);
      buf, more := OutrankedStartIsUnstable(markers, i, j);
    }
  }

  // ----- trimming junk

  function LongestMarker(markers: seq<seq<byte>>): nat {
    if markers == [] then 0
    else
      var rest, last := LongestMarker(markers[..|markers| - 1]), |markers[|markers| - 1]|;
      if last > rest then last else rest
  }

  /** Keep only what could be the beginning of a start marker. */
  function Trim(buf: seq<byte>, markers: seq<seq<byte>>): seq<byte> {
    var longest := LongestMarker(markers);
    var keep := if longest == 0 then 0 else longest - 1;
    if |buf| > keep then buf[|buf| - keep..] else buf
  }

  lemma {:induction false} LongestMarkerBounds(markers: seq<seq<byte>>, j: nat)
    requires j < |markers|
    ensures |markers[j]| <= LongestMarker(markers)
    decreases |markers|
  {
    if j < |markers| - 1 {
      LongestMarkerBounds(markers[..|markers| - 1], j);
    }
  }

  lemma TrimTwice(buf: seq<byte>, more: seq<byte>, markers: seq<seq<byte>>)
    ensures Trim(Trim(buf, markers) + more, markers) == Trim(buf + more, markers)
  {
  }

  /** Trimmed junk cannot contain any part of a start that completes later. */
  lemma {:induction false} TrimLosesNoStart(buf: seq<byte>, more: seq<byte>, markers: seq<seq<byte>>)
    requires NonEmptyMarkers(markers) && Absent(buf, markers)
    ensures
      var drop := |buf| - |Trim(buf, markers)|;
      var a := EarliestStart(buf + more, markers);
      var b := EarliestStart(Trim(buf, markers) + more, markers);
      && 0 <= drop
      && (a.None? <==> b.None?)
      && (a.Some? ==> a.value.pos == b.value.pos + drop && a.value.len == b.value.len)
  {
    hide EarliestStart, LongestMarker, FindSubsequence;
    var short, all := Trim(buf, markers) + more, buf + more;
    var drop := |buf| - |Trim(buf, markers)|;
    TrimmedIsAbsent(buf, more, markers);
    assert short == all[drop..];
    ShiftedOccurrences(all, drop, markers);
    var v := EarliestStartWins(all, markers);
    var w := EarliestStartWins(short, markers);
    if EarliestStart(all, markers).Some? {
      var pos := EarliestStart(all, markers).value.pos;
      assert OccursAt(short, markers[v], pos - drop);
      assert Wins(short, markers, v, pos - drop);
      WinnerIsUnique(short, markers, v, pos - drop, w, EarliestStart(short, markers).value.pos);
    }
  }

  /** Nothing starts in the trimmed part, even once more bytes are there. */
  lemma TrimmedIsAbsent(buf: seq<byte>, more: seq<byte>, markers: seq<seq<byte>>)
    requires Absent(buf, markers)
    ensures forall j, i :: 0 <= j < |markers| && i < |buf| - |Trim(buf, markers)| ==>
      !OccursAt(buf + more, markers[j], i)
  {
    forall j, i | 0 <= j < |markers| && i < |buf| - |Trim(buf, markers)|
      ensures !OccursAt(buf + more, markers[j], i)
    {
      LongestMarkerBounds(markers, j);
      OccursInPrefix(buf, more, markers[j], i);
    }
  }

  lemma ShiftedOccurrences(all: seq<byte>, drop: nat, markers: seq<seq<byte>>)
    requires drop <= |all|
    ensures forall j, i :: 0 <= j < |markers| && 0 <= i ==>
      (OccursAt(all[drop..], markers[j], i) <==> OccursAt(all, markers[j], i + drop))
    ensures forall j, i :: 0 <= j < |markers| && drop <= i ==>
      (OccursAt(all, markers[j], i) <==> OccursAt(all[drop..], markers[j], i - drop))
  {
    forall j, i | 0 <= j < |markers| && drop <= i
      ensures OccursAt(all, markers[j], i) <==> OccursAt(all[drop..], markers[j], i - drop)
    {
      OccursInSuffix(all, drop, markers[j], i);
    }
    forall j, i | 0 <= j < |markers| && 0 <= i
      ensures OccursAt(all[drop..], markers[j], i) <==> OccursAt(all, markers[j], i + drop)
    {
      OccursInSuffix(all, drop, markers[j], i + drop);
    }
  }
}
