/** The whole-line glob matcher over a truncated window: it only ever reports true lines of the stream. */
module GlobMatching {
  import opened Bytes
  import opened Matching

  /** The compiled glob, taken as an arbitrary predicate on a line's content. */
  type Pattern = seq<byte> -> bool

  /** Overlap kept beyond the cap for variable-length matches. */
  const OVERLAP_ALLOWANCE: nat := 256

  datatype Glob = Glob(pat: Pattern, window: seq<byte>, base: nat, firstLinePartial: bool)

  /** The bytes up to the first LF, or all of them. */
  function FirstLine(s: seq<byte>): (r: seq<byte>)
    ensures |r| <= |s| && forall k :: 0 <= k < |r| ==> r[k] == s[k] && s[k] != LF
    ensures |r| < |s| ==> s[|r|] == LF
  {
    match Position(s, LF)
    case None => s
    case Some(lf) => s[..lf]
  }

  /** The remaining lines `rest` start at `offset`: index of the first one whose content matches. */
  function ScanLines(pat: Pattern, rest: seq<byte>, offset: nat, skipFirst: bool): Option<nat>
    decreases |rest|
  {
    var line := FirstLine(rest);
    if !skipFirst && pat(StripCr(line)) then Some(offset)
    else if |line| == |rest| then None
    else ScanLines(pat, rest[|line| + 1..], offset + |line| + 1, false)
  }

  function Checked(m: Glob): MatchResult {
    match ScanLines(m.pat, m.window, 0, m.firstLinePartial)
    case None => NoMatch
    case Some(i) => Found(m.base + i)
  }

  function RetainedLimit(cap: nat): nat {
    Min(cap + OVERLAP_ALLOWANCE, USIZE_MAX)
  }

  function Truncated(m: Glob, keep: nat): Glob {
    var drop := SaturatingSub(|m.window|, keep);
    if drop > 0 then
      m.(window := m.window[drop..], base := m.base + drop, firstLinePartial := m.window[drop - 1] != LF)
    else m
  }

  function BoundedPush(m: Glob, chunk: seq<byte>, cap: nat): (Glob, MatchResult) {
    var pushed := m.(window := m.window + chunk);
    (Truncated(pushed, RetainedLimit(cap)), Checked(pushed))
  }

  function WasReset(m: Glob): Glob {
    m.(window := [], base := 0, firstLinePartial := false)
  }

  // ----- the class

  class GlobMatcher {
    const pat: Pattern
    var window: seq<byte>
    var base: nat
    var firstLinePartial: bool

    function Abs(): Glob
      reads this
    {
      Glob(pat, window, base, firstLinePartial)
    }

    constructor (pat: Pattern)
      ensures Abs() == Glob(pat, [], 0, false)
    {
      this.pat, window, base, firstLinePartial := pat, [], 0, false;
    }

    /** Test every line of the window in turn, but never a first line that was cut in the middle. */
    method Check() returns (r: MatchResult)
      ensures r == Checked(Abs())
    {
      hide FirstLine, StripCr;
      var byteOffset: nat := 0;
      var rest, firstLine := window, true;
      ghost var found := ScanLines(pat, window, 0, firstLinePartial);
      while true
        invariant found
               == ScanLines(pat, rest, byteOffset, firstLine && firstLinePartial)
        decreases |rest|
      {
        var line := FirstLine(rest);
        var lineContent := StripCr(line);
        var skip := firstLine && firstLinePartial;
        firstLine := false;
        if !skip && pat(lineContent) {
          return Found(base + byteOffset);
        }
        byteOffset := byteOffset + |line| + 1;
        if |line| == |rest| {
          return NoMatch;
        }
        rest := rest[|line| + 1..];
      }
    }

    method PushBounded(chunk: seq<byte>, maxBufferedBytes: nat) returns (r: MatchResult)
      modifies this
      ensures (Abs(), r) == BoundedPush(old(Abs()), chunk, maxBufferedBytes)
    {
      window := window + chunk;
      r := Check();
      var limit := RetainedLimit(maxBufferedBytes);
      if |window| > limit {
        TruncateFront(limit);
      }
    }

    method TruncateFront(keep: nat)
      modifies this
      ensures Abs() == Truncated(old(Abs()), keep)
    {
      var drop := SaturatingSub(|window|, keep);
      if drop > 0 {
        firstLinePartial := window[drop - 1] != LF;
        window := window[drop..];
        base := base + drop;
      }
    }

    method ResetWindow()
      modifies this
      ensures Abs() == WasReset(old(Abs()))
    {
      window, base, firstLinePartial := [], 0, false;
    }
  }

  // ----- lines of the whole stream

  /** A line of the stream starts at `i`. */
  predicate LineStart(stream: seq<byte>, i: nat) {
    i <= |stream| && (i == 0 || stream[i - 1] == LF)
  }

  /** The content of the line starting at `i`: to the next LF or the current end, one final CR removed. */
  function LineAt(stream: seq<byte>, i: nat): seq<byte>
    requires i <= |stream|
  {
    StripCr(FirstLine(stream[i..]))
  }

  predicate MatchesAt(pat: Pattern, stream: seq<byte>, i: nat) {
    LineStart(stream, i) && pat(LineAt(stream, i))
  }

  /** The window is the tail of `fed`; the flag says whether that tail starts inside a line. */
  ghost predicate Tracks(m: Glob, fed: seq<byte>) {
    && m.base <= |fed| && m.window == fed[m.base..]
    && (m.firstLinePartial <==> m.base > 0 && fed[m.base - 1] != LF)
  }

  /** `r` is the first matching line start of the stream at or after `from`. */
  ghost predicate IsFirstMatchFrom(pat: Pattern, stream: seq<byte>, from: nat, r: MatchResult) {
    && (r.Found? ==> from <= r.index && MatchesAt(pat, stream, r.index))
    && forall k :: from <= k && (r.Found? ==> k < r.index) ==> !MatchesAt(pat, stream, k)
  }

  lemma {:induction false} ScanFindsFirst(pat: Pattern, stream: seq<byte>, from: nat, offset: nat, skipFirst: bool)
    requires from <= |stream| && offset <= from
    requires skipFirst <==> !LineStart(stream, from)
    ensures
      var scan := ScanLines(pat, stream[from..], offset, skipFirst);
      && (scan.Some? ==> offset <= scan.value)
      && IsFirstMatchFrom(pat, stream, from,
                          if scan.Some? then Found(scan.value - offset + from) else NoMatch)
    decreases |stream| - from
  {
    hide FirstLine, StripCr, IsFirstMatchFrom;
    var line := FirstLine(stream[from..]);
    var next := from + |line| + 1;
    FirstLineIn(stream, from);
    if !skipFirst && pat(StripCr(line)) {
      MatchesAtOnce(pat, stream, from);
    } else if |line| < |stream| - from {
      hide LineStart;
      assert stream[from..][|line| + 1..] == stream[next..];
      ScanFindsFirst(pat, stream, next, offset + |line| + 1, false);
      var scan := ScanLines(pat, stream[next..], offset + |line| + 1, false);
      FirstMatchFromEarlier(pat, stream, from, next,
                            if scan.Some? then Found(scan.value - offset + from) else NoMatch);
    } else {
      NoLineMatches(pat, stream, from);
    }
  }

  lemma MatchesAtOnce(pat: Pattern, stream: seq<byte>, from: nat)
    requires MatchesAt(pat, stream, from)
    ensures IsFirstMatchFrom(pat, stream, from, Found(from))
  {
  }

  lemma NoLineMatches(pat: Pattern, stream: seq<byte>, from: nat)
    requires !MatchesAt(pat, stream, from) && forall k :: from < k ==> !LineStart(stream, k)
    ensures IsFirstMatchFrom(pat, stream, from, NoMatch)
  {
  }

  lemma FirstMatchFromEarlier(pat: Pattern, stream: seq<byte>, from: nat, next: nat, r: MatchResult)
    requires from < next && !MatchesAt(pat, stream, from)
    requires forall k :: from < k < next ==> !LineStart(stream, k)
    requires IsFirstMatchFrom(pat, stream, next, r)
    ensures IsFirstMatchFrom(pat, stream, from, r)
  {
  }

  /** The first line of a tail: no line starts inside it, and one starts behind its LF. */
  lemma FirstLineIn(stream: seq<byte>, from: nat)
    requires from <= |stream|
    ensures
      var n := |FirstLine(stream[from..])|;
      && from + n <= |stream|
      && (forall k :: from < k <= from + n ==> !LineStart(stream, k))
      && (from + n < |stream| ==> LineStart(stream, from + n + 1))
      && (from + n == |stream| ==> forall k :: from < k ==> !LineStart(stream, k))
  {
    var rest, n := stream[from..], |FirstLine(stream[from..])|;
    assert forall k :: from <= k < from + n ==> stream[k] == rest[k - from];
    if from + n < |stream| {
      assert stream[from + n] == rest[n];
    }
    NoLineStartInside(stream, from, n);
  }

  lemma NoLineStartInside(stream: seq<byte>, from: nat, n: nat)
    requires from + n <= |stream|
    requires forall k :: from <= k < from + n ==> stream[k] != LF
    ensures forall k :: from < k <= from + n ==> !LineStart(stream, k)
  {
  }

  /**
    One bounded push: Found(i) means that i starts a true line of everything fed, that this line
    matches, and that no earlier retained line does; NoMatch means that no retained line matches.
    The flag keeps saying exactly whether the window starts inside a line.
   */
  lemma BoundedPushReportsTrueLines(m: Glob, fed: seq<byte>, chunk: seq<byte>, cap: nat)
    requires Tracks(m, fed)
    ensures
      var (next, result) := BoundedPush(m, chunk, cap);
      && IsFirstMatchFrom(m.pat, fed + chunk, m.base, result)
      && Tracks(next, fed + chunk) && next.pat == m.pat
      && |next.window| <= RetainedLimit(cap)
  {
    hide Checked, Truncated, IsFirstMatchFrom;
    var pushed := m.(window := m.window + chunk);
    assert pushed.window == (fed + chunk)[m.base..];
    CheckFindsFirst(pushed, fed + chunk);
    TruncationTracks(pushed, fed + chunk, RetainedLimit(cap));
  }

  lemma CheckFindsFirst(m: Glob, fed: seq<byte>)
    requires Tracks(m, fed)
    ensures IsFirstMatchFrom(m.pat, fed, m.base, Checked(m))
  {
    hide ScanLines, IsFirstMatchFrom;
    assert m.firstLinePartial <==> !LineStart(fed, m.base);
    ScanFindsFirst(m.pat, fed, m.base, 0, m.firstLinePartial);
  }

  lemma TruncationTracks(m: Glob, fed: seq<byte>, keep: nat)
    requires Tracks(m, fed)
    ensures Tracks(Truncated(m, keep), fed) && |Truncated(m, keep).window| <= keep
    ensures Truncated(m, keep).pat == m.pat
  {
    var drop := SaturatingSub(|m.window|, keep);
    if drop > 0 {
      assert m.window[drop - 1] == fed[m.base + drop - 1];
    }
  }

  /** The matcher after any run of bounded pushes. */
  function RunBounded(m: Glob, chunks: seq<Chunk>): Glob
    decreases |chunks|
  {
    if chunks == [] then m else RunBounded(BoundedPush(m, chunks[0].bytes, chunks[0].cap).0, chunks[1..])
  }

  function Fed(fed: seq<byte>, chunks: seq<Chunk>): seq<byte>
    decreases |chunks|
  {
    if chunks == [] then fed else Fed(fed + chunks[0].bytes, chunks[1..])
  }

  lemma {:induction false} RunTracks(m: Glob, fed: seq<byte>, chunks: seq<Chunk>)
    requires Tracks(m, fed)
    ensures Tracks(RunBounded(m, chunks), Fed(fed, chunks)) && RunBounded(m, chunks).pat == m.pat
    decreases |chunks|
  {
    if chunks != [] {
      BoundedPushReportsTrueLines(m, fed, chunks[0].bytes, chunks[0].cap);
      RunTracks(BoundedPush(m, chunks[0].bytes, chunks[0].cap).0, fed + chunks[0].bytes, chunks[1..]);
    }
  }

  /** In every run, whatever was truncated before, a reported index starts a matching line of the whole stream. */
  lemma GlobIsSoundInEveryRun(pat: Pattern, chunks: seq<Chunk>, last: Chunk)
    ensures
      var m := RunBounded(Glob(pat, [], 0, false), chunks);
      var stream := Fed([], chunks) + last.bytes;
      var result := BoundedPush(m, last.bytes, last.cap).1;
      && (result.Found? ==> MatchesAt(pat, stream, result.index))
      && IsFirstMatchFrom(pat, stream, m.base, result)
  {
    RunTracks(Glob(pat, [], 0, false), [], chunks);
    BoundedPushReportsTrueLines(RunBounded(Glob(pat, [], 0, false), chunks), Fed([], chunks), last.bytes, last.cap);
  }

  /** A reset forgets everything: the same holds from there on for the stream of the bytes fed since. */
  lemma GlobIsSoundFromReset(m: Glob, chunks: seq<Chunk>, last: Chunk)
    ensures
      var r := RunBounded(WasReset(m), chunks);
      IsFirstMatchFrom(m.pat, Fed([], chunks) + last.bytes, r.base, BoundedPush(r, last.bytes, last.cap).1)
  {
    RunTracks(WasReset(m), [], chunks);
    BoundedPushReportsTrueLines(RunBounded(WasReset(m), chunks), Fed([], chunks), last.bytes, last.cap);
  }

  // ----- what is retained, and so found

  /** The bytes that stay visible under a cap: the cap and the overlap of 256. */
  function Visible(cap: nat): nat {
    if cap + 256 < 0xFFFF_FFFF_FFFF_FFFF then cap + 256 else 0xFFFF_FFFF_FFFF_FFFF
  }

  /** Nothing was dropped, or at least the visible bytes are there. */
  predicate KeepsVisible(m: Glob, cap: nat) {
    m.base == 0 || |m.window| >= Visible(cap)
  }

  lemma PushKeepsVisible(m: Glob, chunk: seq<byte>, cap: nat, larger: nat)
    requires KeepsVisible(m, cap) && cap <= larger
    ensures KeepsVisible(BoundedPush(m, chunk, larger).0, cap)
    ensures |BoundedPush(m, chunk, larger).0.window| <= Visible(larger)
  {
  }

  lemma {:induction false} RunKeepsVisible(m: Glob, chunks: seq<Chunk>, cap: nat)
    requires KeepsVisible(m, cap) && forall k :: 0 <= k < |chunks| ==> cap <= chunks[k].cap
    ensures KeepsVisible(RunBounded(m, chunks), cap)
    decreases |chunks|
  {
    hide BoundedPush, KeepsVisible;
    if chunks != [] {
      PushKeepsVisible(m, chunks[0].bytes, cap, chunks[0].cap);
      RunKeepsVisible(BoundedPush(m, chunks[0].bytes, chunks[0].cap).0, chunks[1..], cap);
    }
  }

  /**
    Completeness, the counterpart of soundness: in every run whose caps are at least `cap`, a matching line
    of everything fed that starts in the last chunk, or within the visible bytes before it, makes the push
    report this line or an earlier matching one.
   */
  lemma GlobFindsEveryVisibleLine(pat: Pattern, chunks: seq<Chunk>, last: Chunk, cap: nat, i: nat)
    requires forall k :: 0 <= k < |chunks| ==> cap <= chunks[k].cap
    requires MatchesAt(pat, Fed([], chunks) + last.bytes, i) && i + Visible(cap) >= |Fed([], chunks)|
    ensures
      var result := BoundedPush(RunBounded(Glob(pat, [], 0, false), chunks), last.bytes, last.cap).1;
      result.Found? && result.index <= i && MatchesAt(pat, Fed([], chunks) + last.bytes, result.index)
  {
    hide BoundedPush, MatchesAt;
    var start := Glob(pat, [], 0, false);
    RunTracks(start, [], chunks);
    RunKeepsVisible(start, chunks, cap);
    GlobIsSoundInEveryRun(pat, chunks, last);
    assert RunBounded(start, chunks).base <= i;
  }

  /**
    What a matching line is, byte for byte: it begins the stream or follows an LF, ends before the next LF or
    at the end of the stream, and matches by its bytes without one CR at their end.  Nowhere else is a line.
   */
  lemma MatchesByContent(pat: Pattern, before: seq<byte>, line: seq<byte>, rest: seq<byte>)
    requires LF !in line && (rest == [] || rest[0] == LF)
    ensures MatchesAt(pat, before + line + rest, |before|) <==>
      && (before == [] || before[|before| - 1] == 0x0A)
      && pat(if line != [] && line[|line| - 1] == 0x0D then line[..|line| - 1] else line)
  {
    var stream := before + line + rest;
    assert stream[|before|..] == line + rest;
    PositionOfTerminator(line, rest);
  }

  lemma PositionOfTerminator(line: seq<byte>, rest: seq<byte>)
    requires LF !in line && (rest == [] || rest[0] == LF)
    ensures FirstLine(line + rest) == line
  {
    if rest == [] {
      assert line + rest == line;
    } else {
      PositionIs(line + rest, LF, |line|);
    }
  }
}
