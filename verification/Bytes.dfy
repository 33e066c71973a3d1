/** Shared value types: options, bytes, chunked streams and first-occurrence search. */
module Bytes {

  datatype Option<+T> = None | Some(value: T)

  /** One octet on the serial line. */
  type byte = b: int | 0 <= b < 256

  const LF: byte := 10
  const CR: byte := 13

  // ----- chunked streams

  /** The byte stream that a list of chunks spells. */
  function Join(chunks: seq<seq<byte>>): seq<byte> {
    if chunks == [] then [] else chunks[0] + Join(chunks[1..])
  }

  /** The transmitted form of several payloads, one after the other. */
  function Encodings(frame: seq<byte> -> seq<byte>, payloads: seq<seq<byte>>): seq<byte> {
    if payloads == [] then []
    else Encodings(frame, payloads[..|payloads| - 1]) + frame(payloads[|payloads| - 1])
  }

  /** A line without its final CR. */
  function StripCr(line: seq<byte>): seq<byte> {
    if line != [] && line[|line| - 1] == CR then line[..|line| - 1] else line
  }

  // ----- division

  lemma RemainderIsUnique(n: nat, m: nat, k: nat, low: nat)
    requires m > 0 && n == m * k + low && low < m
    ensures n % m == low
  {
    var k' := n / m;
    MulMonotone(m, k + 1, k');
    MulMonotone(m, k' + 1, k);
    assert m * (k + 1) == m * k + m && m * (k' + 1) == m * k' + m;
  }

  lemma MulMonotone(m: nat, a: int, b: int)
    ensures a <= b ==> m * a <= m * b
  {
    if a <= b {
      assert m * b == m * a + m * (b - a);
    }
  }

  // ----- searching

  /** `needle` occurs in `hay` starting at index `i`. */
  predicate OccursAt(hay: seq<byte>, needle: seq<byte>, i: int) {
    0 <= i && i + |needle| <= |hay| && hay[i..i + |needle|] == needle
  }

  predicate IsFirstOccurrence(hay: seq<byte>, needle: seq<byte>, i: int) {
    OccursAt(hay, needle, i) && forall j :: 0 <= j < i ==> !OccursAt(hay, needle, j)
  }

  lemma {:induction false} FirstOccurrenceExists(hay: seq<byte>, needle: seq<byte>, i: nat)
    requires i < |hay| && OccursAt(hay, needle, i)
    ensures exists k :: 0 <= k < |hay| && IsFirstOccurrence(hay, needle, k)
  {
    if j: nat :| j < i && OccursAt(hay, needle, j) {
      FirstOccurrenceExists(hay, needle, j);
    } else {
      assert IsFirstOccurrence(hay, needle, i);
    }
  }

  lemma SomeOccurrence(hay: seq<byte>, needle: seq<byte>)
    requires exists i :: 0 <= i < |hay| && OccursAt(hay, needle, i)
    ensures exists k :: 0 <= k < |hay| && IsFirstOccurrence(hay, needle, k)
  {
    var i :| 0 <= i < |hay| && OccursAt(hay, needle, i);
    FirstOccurrenceExists(hay, needle, i);
  }

  /** First occurrence of a non-empty needle; an empty needle is never found. */
  function FindSubsequence(hay: seq<byte>, needle: seq<byte>): (r: Option<nat>)
    ensures r.None? <==> needle == [] || forall i :: !OccursAt(hay, needle, i)
    ensures r.Some? ==>
      && OccursAt(hay, needle, r.value)
      && forall i :: 0 <= i < r.value ==> !OccursAt(hay, needle, i)
  {
    if needle == [] || forall i :: 0 <= i < |hay| ==> !OccursAt(hay, needle, i) then None
    else
      SomeOccurrence(hay, needle);
      var i :| 0 <= i < |hay| && IsFirstOccurrence(hay, needle, i);
      Some(i)
  }

  predicate IsFirstIndex(s: seq<byte>, b: byte, i: int) {
    0 <= i < |s| && s[i] == b && forall j :: 0 <= j < i ==> s[j] != b
  }

  lemma {:induction false} FirstIndexExists(s: seq<byte>, b: byte, i: nat)
    requires i < |s| && s[i] == b
    ensures exists k :: 0 <= k < |s| && IsFirstIndex(s, b, k)
  {
    if j: nat :| j < i && s[j] == b {
      FirstIndexExists(s, b, j);
    } else {
      assert IsFirstIndex(s, b, i);
    }
  }

  lemma SomeIndex(s: seq<byte>, b: byte)
    requires b in s
    ensures exists k :: 0 <= k < |s| && IsFirstIndex(s, b, k)
  {
    var i :| 0 <= i < |s| && s[i] == b;
    FirstIndexExists(s, b, i);
  }

  /** Index of the first `b` in `s`. */
  function Position(s: seq<byte>, b: byte): (r: Option<nat>)
    ensures r.None? <==> b !in s
    ensures r.Some? ==> r.value < |s| && s[r.value] == b && forall i :: 0 <= i < r.value ==> s[i] != b
  {
    if b !in s then None
    else
      SomeIndex(s, b);
      var i :| 0 <= i < |s| && IsFirstIndex(s, b, i);
      Some(i)
  }

  lemma PositionIs(s: seq<byte>, b: byte, i: nat)
    requires i < |s| && s[i] == b && forall j :: 0 <= j < i ==> s[j] != b
    ensures Position(s, b) == Some(i)
  {
  }

  /** An occurrence that lies inside `hay` stays one when bytes follow, and no other appears there. */
  lemma OccursInPrefix(hay: seq<byte>, more: seq<byte>, needle: seq<byte>, i: int)
    ensures i + |needle| <= |hay| ==> (OccursAt(hay + more, needle, i) <==> OccursAt(hay, needle, i))
  {
    if 0 <= i && i + |needle| <= |hay| {
      assert (hay + more)[i..i + |needle|] == hay[i..i + |needle|];
    }
  }

  /** Dropping a front part shifts occurrences. */
  lemma OccursInSuffix(hay: seq<byte>, drop: nat, needle: seq<byte>, i: int)
    requires drop <= |hay| && drop <= i
    ensures OccursAt(hay, needle, i) <==> OccursAt(hay[drop..], needle, i - drop)
  {
    if i + |needle| <= |hay| {
      assert hay[i..i + |needle|] == hay[drop..][i - drop..i - drop + |needle|];
    }
  }

  lemma OccursStartsWith(hay: seq<byte>, needle: seq<byte>, i: int)
    requires needle != []
    ensures OccursAt(hay, needle, i) ==> hay[i] == needle[0]
  {
    if OccursAt(hay, needle, i) {
      assert hay[i..i + |needle|][0] == hay[i];
    }
  }

  /** Inside an occurrence of `mid`, occurrences of a shorter needle are those within `mid`. */
  lemma OccursInside(hay: seq<byte>, mid: seq<byte>, needle: seq<byte>, p: int, d: int)
    requires OccursAt(hay, mid, p) && 0 <= d && d + |needle| <= |mid|
    ensures OccursAt(mid, needle, d) <==> OccursAt(hay, needle, p + d)
  {
    assert mid == hay[p..p + |mid|];
    assert forall j :: 0 <= j < |mid| ==> mid[j] == hay[p + j];
    var a, b := mid[d..d + |needle|], hay[p + d..p + d + |needle|];
    assert |a| == |b| && forall k :: 0 <= k < |a| ==> a[k] == mid[d + k] && b[k] == hay[p + d + k];
    assert a == b;
  }

  /** The first occurrence found in a buffer is still the first one after more bytes arrive. */
  lemma FindIsStable(hay: seq<byte>, more: seq<byte>, needle: seq<byte>)
    requires FindSubsequence(hay, needle).Some?
    ensures FindSubsequence(hay + more, needle) == FindSubsequence(hay, needle)
  {
    var p := FindSubsequence(hay, needle).value;
    OccursInPrefix(hay, more, needle, p);
    forall i | 0 <= i < p ensures !OccursAt(hay + more, needle, i) {
      OccursInPrefix(hay, more, needle, i);
    }
  }

  /** The first index of a byte in a buffer is still the first one after more bytes arrive. */
  lemma PositionIsStable(s: seq<byte>, more: seq<byte>, b: byte)
    requires b in s
    ensures Position(s + more, b) == Position(s, b)
  {
    var p := Position(s, b).value;
    assert (s + more)[p] == b;
    assert forall i :: 0 <= i < p ==> (s + more)[i] == s[i];
  }

  // ----- when an appended delimiter is found only where it was appended

  /** The delimiter, moved by `p` bytes, agrees with itself. */
  predicate Overlaps(delimiter: seq<byte>, p: nat) {
    0 < p < |delimiter| && delimiter[p..] == delimiter[..|delimiter| - p]
  }

  /** The payload neither contains the delimiter nor ends in a part that would complete an early one. */
  ghost predicate FreeOf(payload: seq<byte>, delimiter: seq<byte>) {
    && (forall i :: !OccursAt(payload, delimiter, i))
    && (forall p: nat :: Overlaps(delimiter, p) && p <= |payload| ==> payload[|payload| - p..] != delimiter[..p])
  }

  lemma StraddlingOccurrence(payload: seq<byte>, delimiter: seq<byte>, i: nat)
    requires i < |payload| < i + |delimiter|
    ensures OccursAt(payload + delimiter, delimiter, i)
       <==> Overlaps(delimiter, |payload| - i) && payload[i..] == delimiter[..|payload| - i]
  {
    var code, p := payload + delimiter, |payload| - i;
    assert code[i..i + |delimiter|] == payload[i..] + delimiter[..|delimiter| - p];
    assert delimiter == delimiter[..p] + delimiter[p..];
    if OccursAt(code, delimiter, i) {
      assert delimiter[..p] == (payload[i..] + delimiter[..|delimiter| - p])[..p];
      assert delimiter[p..] == (payload[i..] + delimiter[..|delimiter| - p])[p..];
    }
  }

  lemma FreeOfExactlyWhen(payload: seq<byte>, delimiter: seq<byte>)
    requires delimiter != []
    ensures FreeOf(payload, delimiter) <==> FindSubsequence(payload + delimiter, delimiter) == Some(|payload|)
  {
    var code := payload + delimiter;
    assert OccursAt(code, delimiter, |payload|);
    if FreeOf(payload, delimiter) {
      forall i: nat | i < |payload| ensures !OccursAt(code, delimiter, i) {
        EarlyOccurrence(payload, delimiter, i);
      }
    } else {
      EarlyWhenNotFree(payload, delimiter);
    }
  }

  lemma EarlyOccurrence(payload: seq<byte>, delimiter: seq<byte>, i: nat)
    requires i < |payload| && FreeOf(payload, delimiter)
    ensures !OccursAt(payload + delimiter, delimiter, i)
  {
    hide OccursAt;
    if i + |delimiter| <= |payload| {
      OccursInPrefix(payload, delimiter, delimiter, i);
    } else {
      StraddlingOccurrence(payload, delimiter, i);
    }
  }

  lemma EarlyWhenNotFree(payload: seq<byte>, delimiter: seq<byte>)
    requires delimiter != [] && !FreeOf(payload, delimiter)
    ensures exists i: nat :: i < |payload| && OccursAt(payload + delimiter, delimiter, i)
  {
    if exists i :: OccursAt(payload, delimiter, i) {
      var i :| OccursAt(payload, delimiter, i);
      OccursInPrefix(payload, delimiter, delimiter, i);
      assert 0 <= i < |payload|;
    } else {
      var p: nat :| Overlaps(delimiter, p) && p <= |payload| && payload[|payload| - p..] == delimiter[..p];
      StraddlingOccurrence(payload, delimiter, |payload| - p);
    }
  }
}
