/**
  Pushing after a flush.  A flush hands out the pending bytes but resets nothing else of the mode; this
  module says exactly when the decoder then goes on as one that has nothing half-read.
 */
module FlushRestarts {
  import opened Bytes
  import opened Framing
  import opened ByteMachine
  import opened StartMarkers
  import opened BufferedModes
  import opened BufferedRuns
  import opened AutoLineFraming
  import opened FrameDecoding

  /** The same mode with nothing half-read: no pending CR, length, start, escape or block. */
  function Rested(mode: Mode): Mode {
    match mode
    case Line(PendingCr(_)) => Line(AutoLf)
    case LengthPrefixed(n, e, offset, _) => LengthPrefixed(n, e, offset, None)
    case StartEnd(start, end, includeMarkers, _) => StartEnd(start, end, includeMarkers, false)
    case Slip(SlipInFrame(payload, _)) => Slip(SlipInFrame(payload, false))
    case Cobs(CobsInFrame(decoded, _, _)) => Cobs(CobsInFrame(decoded, 0, false))
    case _ => mode
  }

  ghost predicate StartsWithMarker(s: seq<byte>, markers: seq<seq<byte>>) {
    exists k :: 0 <= k < |markers| && markers[k] <= s
  }

  lemma OccursFirst(s: seq<byte>, t: seq<byte>)
    ensures OccursAt(s, t, 0) <==> t <= s
  {
  }

  /** A start marker begins the end marker, and one begins every start marker with any byte put before it. */
  ghost predicate OpensEverywhere(start: seq<seq<byte>>, end: seq<byte>) {
    && StartsWithMarker(end, start)
    && forall x: byte, j :: 0 <= j < |start| ==> StartsWithMarker([x] + start[j], start)
  }

  /** What a flush leaves half-read, and the later bytes can tell. */
  ghost predicate Unfinished(mode: Mode) {
    match mode
    case Line(PendingCr(_)) => true
    case LengthPrefixed(_, _, _, len) => len.Some?
    case StartEnd(start, end, includeMarkers, inFrame) => inFrame && !(includeMarkers && OpensEverywhere(start, end))
    case Slip(SlipInFrame(_, escaped)) => escaped
    case Cobs(CobsInFrame(_, remaining, _)) => remaining > 0
    case _ => false
  }

  /** Both decoders report the same from now on, whatever is pushed and however it is chunked. */
  ghost predicate SameReports(cfg: Config, s: State, t: State) {
    forall chunks :: PushAllSpec(cfg, s, chunks).log == PushAllSpec(cfg, t, chunks).log
  }

  ghost predicate SamePayloads(cfg: Config, s: State, t: State) {
    forall chunks :: Payloads(PushAllSpec(cfg, s, chunks).log) == Payloads(PushAllSpec(cfg, t, chunks).log)
  }

  lemma PushTwo(cfg: Config, s: State, a: seq<byte>, b: seq<byte>)
    ensures PushAllSpec(cfg, s, [a]) == PushSpec(cfg, s, a)
    ensures PushAllSpec(cfg, s, [a, b]) == PushSpec(cfg, PushSpec(cfg, s, a), b)
  {
    var none: seq<seq<byte>> := [];
    assert [a][1..] == none && [a, b][1..] == [b] && [b][1..] == none;
    assert PushAllSpec(cfg, PushSpec(cfg, s, a), none) == PushSpec(cfg, s, a);
    assert PushAllSpec(cfg, PushSpec(cfg, s, a), [b])
        == PushAllSpec(cfg, PushSpec(cfg, PushSpec(cfg, s, a), b), none);
  }

  /** Where the first frame of a push differs, so do the payloads after it. */
  lemma FirstFrameDecides(cfg: Config, s: State, t: State, chunk: seq<byte>)
    requires IsBuffered(s.mode) && IsBuffered(t.mode) && cfg.parser.None? && !cfg.skipEmpty && s.log == t.log
    requires Extract(cfg.includeTerminators, s.mode, s.buf + chunk).frame
          != Extract(cfg.includeTerminators, t.mode, t.buf + chunk).frame
    ensures Payloads(PushSpec(cfg, s, chunk).log) != Payloads(PushSpec(cfg, t, chunk).log)
  {
    var a, b := s.(buf := s.buf + chunk), t.(buf := t.buf + chunk);
    var x, y := Extract(cfg.includeTerminators, s.mode, a.buf), Extract(cfg.includeTerminators, t.mode, b.buf);
    if x.frame.Some? {
      NextPayload(cfg, a, x);
    }
    if y.frame.Some? {
      NextPayload(cfg, b, y);
    }
    assert x.frame.None? ==> Drain(cfg, a).log == s.log;
    assert y.frame.None? ==> Drain(cfg, b).log == s.log;
    FirstPayloads(Payloads(s.log), x.frame, y.frame, Payloads(Drain(cfg, a).log), Payloads(Drain(cfg, b).log));
  }

  lemma FirstStartEndFrameDecides(cfg: Config, s: State, t: State, chunk: seq<byte>)
    requires s.mode.StartEnd? && t.mode.StartEnd? && cfg.parser.None? && !cfg.skipEmpty && s.log == t.log
    requires StartEndFrom(s.mode, s.buf + chunk).frame != StartEndFrom(t.mode, t.buf + chunk).frame
    ensures Payloads(PushSpec(cfg, s, chunk).log) != Payloads(PushSpec(cfg, t, chunk).log)
  {
    hide StartEndFrom;
    FirstFrameDecides(cfg, s, t, chunk);
  }

  lemma FirstPayloads(before: seq<seq<byte>>, x: Option<seq<byte>>, y: Option<seq<byte>>,
                      p: seq<seq<byte>>, q: seq<seq<byte>>)
    requires x != y
    requires if x.Some? then before + [x.value] <= p else p == before
    requires if y.Some? then before + [y.value] <= q else q == before
    ensures p != q
  {
    var n := |before|;
    assert x.Some? ==> p[n] == (before + [x.value])[n];
    assert y.Some? ==> q[n] == (before + [y.value])[n];
  }

  // ----- a pending CR

  /** After `cr + 2` bytes that end no line the flushed decoder ends one all the same. */
  lemma StaleCrCuts(cfg: Config, s: State, cr: nat)
    requires cfg.parser.None? && !cfg.skipEmpty && s.buf == [] && s.mode == Line(PendingCr(cr))
    ensures !SamePayloads(cfg, s, s.(mode := Rested(s.mode)))
  {
    var chunk := seq(cr + 2, _ => 0);
    assert [] + chunk == chunk;
    assert LF !in chunk && CR !in chunk;
    FirstFrameDecides(cfg, s, s.(mode := Line(AutoLf)), chunk);
    PushTwo(cfg, s, chunk, []);
    PushTwo(cfg, s.(mode := Line(AutoLf)), chunk, []);
  }

  /**
    What the stale position does in general: the next push ends a frame there, whatever its bytes are,
    swallows the byte at it as if it were the CR, and goes on as after a real CR.
   */
  lemma PushAfterFlushSwallowsAByte(cfg: Config, s: State, cr: nat, chunk: seq<byte>)
    requires cfg.parser.None? && !cfg.skipEmpty
    requires s.mode == Line(PendingCr(cr)) && s.buf != [] && cr + 1 < |chunk|
    ensures
      var t := Flushed(s);
      var frame := if cfg.includeTerminators then chunk[..if chunk[cr + 1] == LF then cr + 2 else cr + 1] else chunk[..cr];
      var next := EmitFrame(cfg, t.(mode := Line(if chunk[cr + 1] == LF then AutoLf else CrMode)), frame);
      && Payloads(next.log) == Payloads(t.log) + [frame]
      && PushBuffered(cfg, t, chunk) == PushBuffered(cfg, next, chunk[if chunk[cr + 1] == LF then cr + 2 else cr + 1..])
  {
    var t := Flushed(s).(buf := chunk);
    var rest := chunk[if chunk[cr + 1] == LF then cr + 2 else cr + 1..];
    assert Flushed(s).buf + chunk == chunk && [] + rest == rest;
    NextPayload(cfg, t, AfterPendingCr(cfg.includeTerminators, cr, chunk));
  }

  // ----- a length that was read ahead

  lemma {:induction false} ZeroPrefix(n: nat, endianness: Endianness)
    ensures ReadLengthPrefix(seq(n, _ => 0), endianness) == 0
  {
    if n > 0 {
      var zeros := seq(n, _ => 0);
      assert zeros[..n - 1] == seq(n - 1, _ => 0) && zeros[1..] == seq(n - 1, _ => 0);
      ZeroPrefix(n - 1, endianness);
    }
  }

  /** A flushed decoder applies the stale length to the next frame, whatever that frame announces. */
  lemma StaleLengthCuts(cfg: Config, s: State)
    requires cfg.parser.None? && !cfg.skipEmpty && s.buf == []
    requires s.mode.LengthPrefixed? && s.mode.nextPayloadLen.Some?
    ensures !SamePayloads(cfg, s, s.(mode := Rested(s.mode)))
  {
    hide PushAllSpec, PushSpec, LengthPrefixedFrom;
    var chunk := OtherLength(s.mode);
    var t := s.(mode := Rested(s.mode));
    assert s.buf + chunk == chunk;
    OtherLengthShows(cfg.includeTerminators, s.mode);
    FirstFrameDecides(cfg, s, t, chunk);
    PushTwo(cfg, s, chunk, []);
    PushTwo(cfg, t, chunk, []);
  }

  /** The bytes still to be skipped, and a prefix that announces no payload, or some where none is awaited. */
  function OtherLength(mode: Mode): seq<byte>
    requires mode.LengthPrefixed? && mode.nextPayloadLen.Some?
  {
    seq(mode.remainingOffset + mode.prefixSize, _ => if mode.nextPayloadLen.value == 0 then 1 else 0)
  }

  /** The stale length and the announced one disagree on whether a frame is complete. */
  lemma OtherLengthShows(inclusive: bool, mode: Mode)
    requires mode.LengthPrefixed? && mode.nextPayloadLen.Some?
    ensures LengthPrefixedFrom(inclusive, mode, OtherLength(mode)).frame
         != LengthPrefixedFrom(inclusive, Rested(mode), OtherLength(mode)).frame
  {
    var size, stale, chunk := mode.prefixSize, mode.nextPayloadLen.value, OtherLength(mode);
    var prefix := seq(size, _ => if stale == 0 then 1 else 0);
    assert chunk[mode.remainingOffset..] == prefix && prefix[..size] == prefix;
    ZeroPrefix(size, mode.endianness);
    assert stale == 0 ==> ReadLengthPrefix(prefix, mode.endianness) > 0;
  }

  // ----- inside a start/end frame

  /** The end marker alone closes the flushed frame, but not a frame without start. */
  lemma StaleFrameCloses(cfg: Config, s: State)
    requires cfg.parser.None? && !cfg.skipEmpty && s.buf == []
    requires s.mode.StartEnd? && s.mode.inFrame && NonEmptyMarkers(s.mode.start) && s.mode.end != []
    requires !s.mode.includeMarkers || !StartsWithMarker(s.mode.end, s.mode.start)
    ensures !SamePayloads(cfg, s, s.(mode := Rested(s.mode)))
  {
    var end := s.mode.end;
    assert s.buf + end == end && OccursAt(end, end, 0);
    var w := EarliestStartWins(end, s.mode.start);
    FirstStartEndFrameDecides(cfg, s, s.(mode := Rested(s.mode)), end);
    PushTwo(cfg, s, end, []);
    PushTwo(cfg, s.(mode := Rested(s.mode)), end, []);
  }

  /** A byte before a start marker belongs to the flushed frame, but is junk to a decoder outside one. */
  lemma StaleFrameKeepsJunk(cfg: Config, s: State, x: byte, j: nat)
    requires cfg.parser.None? && !cfg.skipEmpty && s.buf == []
    requires s.mode.StartEnd? && s.mode.inFrame && s.mode.includeMarkers
    requires NonEmptyMarkers(s.mode.start) && s.mode.end != []
    requires j < |s.mode.start| && !StartsWithMarker([x] + s.mode.start[j], s.mode.start)
    ensures !SamePayloads(cfg, s, s.(mode := Rested(s.mode)))
  {
    var marker := s.mode.start[j];
    var junk := [x] + marker;
    if FindSubsequence(junk, s.mode.end).Some? {
      JunkThenEndInside(cfg, s, junk, FindSubsequence(junk, s.mode.end).value);
    } else {
      JunkThenEndBehind(cfg, s, x, j);
    }
  }

  lemma JunkThenEndInside(cfg: Config, s: State, junk: seq<byte>, e: nat)
    requires cfg.parser.None? && !cfg.skipEmpty && s.buf == []
    requires s.mode.StartEnd? && s.mode.inFrame && s.mode.includeMarkers && NonEmptyMarkers(s.mode.start)
    requires FindSubsequence(junk, s.mode.end) == Some(e) && !StartsWithMarker(junk, s.mode.start)
    ensures !SamePayloads(cfg, s, s.(mode := Rested(s.mode)))
  {
    hide StartEndFrom, PushSpec, PushAllSpec;
    var t, chunk := s.(mode := Rested(s.mode)), junk[..e + |s.mode.end|];
    JunkUpToEnd(s.mode, junk, e);
    assert s.buf + chunk == chunk;
    FirstStartEndFrameDecides(cfg, s, t, chunk);
    PushTwo(cfg, s, chunk, []);
    PushTwo(cfg, t, chunk, []);
  }

  lemma JunkThenEndBehind(cfg: Config, s: State, x: byte, j: nat)
    requires cfg.parser.None? && !cfg.skipEmpty && s.buf == []
    requires s.mode.StartEnd? && s.mode.inFrame && s.mode.includeMarkers && s.mode.end != []
    requires NonEmptyMarkers(s.mode.start)
    requires j < |s.mode.start| && !StartsWithMarker([x] + s.mode.start[j], s.mode.start)
    requires FindSubsequence([x] + s.mode.start[j], s.mode.end).None?
    ensures !SamePayloads(cfg, s, s.(mode := Rested(s.mode)))
  {
    var t, marker, end := s.(mode := Rested(s.mode)), s.mode.start[j], s.mode.end;
    var junk := [x] + marker;
    JunkIsKeptOrLost(cfg, s, x, j);
    JunkShiftsFrame(s.mode, x, marker);
    hide StartEndFrom, PushSpec, PushAllSpec;
    FirstStartEndFrameDecides(cfg, s.(buf := junk), s.(buf := marker), end);
    PushTwo(cfg, s, junk, end);
    PushTwo(cfg, t, junk, end);
  }

  /** No frame ends yet, but the two decoders now hold different bytes. */
  lemma JunkIsKeptOrLost(cfg: Config, s: State, x: byte, j: nat)
    requires s.buf == [] && s.mode.StartEnd? && s.mode.inFrame && s.mode.includeMarkers && s.mode.end != []
    requires NonEmptyMarkers(s.mode.start)
    requires j < |s.mode.start| && !StartsWithMarker([x] + s.mode.start[j], s.mode.start)
    requires FindSubsequence([x] + s.mode.start[j], s.mode.end).None?
    ensures
      var marker := s.mode.start[j];
      && PushSpec(cfg, s, [x] + marker) == s.(buf := [x] + marker)
      && PushSpec(cfg, s.(mode := Rested(s.mode)), [x] + marker) == s.(buf := marker)
  {
    hide FindSubsequence, EarliestStart;
    var marker := s.mode.start[j];
    var junk := [x] + marker;
    assert s.buf + junk == junk && junk[1..] == marker;
    StartBehindJunk(junk, marker, s.mode.start, j);
    NoEndInMarker(junk, marker, s.mode.end);
  }

  lemma {:induction false} StartBehindJunk(junk: seq<byte>, marker: seq<byte>, start: seq<seq<byte>>, j: nat)
    requires NonEmptyMarkers(start) && j < |start| && marker == start[j]
    requires |junk| == |marker| + 1 && junk[1..] == marker && !StartsWithMarker(junk, start)
    ensures EarliestStart(junk, start).Some? && EarliestStart(junk, start).value.pos == 1
  {
    assert OccursAt(junk, marker, 1);
    var w := EarliestStartWins(junk, start);
    OccursFirst(junk, start[w]);
  }

  /** Cut behind the first end marker: inside a frame that is the frame; outside, the first byte is lost. */
  lemma JunkUpToEnd(mode: Mode, junk: seq<byte>, e: nat)
    requires mode.StartEnd? && mode.inFrame && mode.includeMarkers && NonEmptyMarkers(mode.start)
    requires FindSubsequence(junk, mode.end) == Some(e) && !StartsWithMarker(junk, mode.start)
    ensures
      var chunk := junk[..e + |mode.end|];
      StartEndFrom(mode, chunk).frame == Some(chunk) && StartEndFrom(Rested(mode), chunk).frame != Some(chunk)
  {
    var end, chunk := mode.end, junk[..e + |mode.end|];
    FirstEndIsLast(junk, end, e);
    assert chunk[..e + |end|] == chunk;
    FrontStartsNothing(junk, chunk, mode.start);
    var w := EarliestStartWins(chunk, mode.start);
    if EarliestStart(chunk, mode.start).Some? {
      OccursFirst(chunk, mode.start[w]);
      FrameBehind(Rested(mode), chunk, EarliestStart(chunk, mode.start).value.pos);
    }
  }

  lemma FrontStartsNothing(s: seq<byte>, front: seq<byte>, markers: seq<seq<byte>>)
    requires front <= s && !StartsWithMarker(s, markers)
    ensures !StartsWithMarker(front, markers)
  {
    if StartsWithMarker(front, markers) {
      PrefixStarts(front, s, markers);
    }
  }

  lemma FirstEndIsLast(junk: seq<byte>, end: seq<byte>, e: nat)
    requires FindSubsequence(junk, end) == Some(e)
    ensures e + |end| <= |junk| && FindSubsequence(junk[..e + |end|], end) == Some(e)
  {
    var chunk, more := junk[..e + |end|], junk[e + |end|..];
    assert junk == chunk + more;
    OccursInPrefix(chunk, more, end, e);
    forall i | 0 <= i < e ensures !OccursAt(chunk, end, i) {
      OccursInPrefix(chunk, more, end, i);
    }
  }

  lemma FrameBehind(mode: Mode, chunk: seq<byte>, pos: nat)
    requires mode.StartEnd? && mode.includeMarkers && 0 < pos <= |chunk|
    ensures ToEndMarker(mode, chunk[pos..]).frame != Some(chunk)
  {
  }

  lemma NoEndInMarker(junk: seq<byte>, marker: seq<byte>, end: seq<byte>)
    requires end != [] && |junk| == |marker| + 1 && junk[1..] == marker && FindSubsequence(junk, end).None?
    ensures FindSubsequence(marker, end).None?
  {
    forall i ensures !OccursAt(marker, end, i) {
      if 0 <= i {
        OccursInSuffix(junk, 1, end, i + 1);
      }
    }
  }

  /** Frames that begin one byte apart differ, unless the marker also begins one byte earlier. */
  lemma JunkShiftsFrame(mode: Mode, x: byte, marker: seq<byte>)
    requires mode.StartEnd? && mode.inFrame && mode.includeMarkers && mode.end != []
    requires marker in mode.start && !StartsWithMarker([x] + marker, mode.start)
    requires FindSubsequence([x] + marker, mode.end).None?
    ensures StartEndFrom(mode, [x] + marker + mode.end).frame != StartEndFrom(mode, marker + mode.end).frame
  {
    hide FindSubsequence;
    var end, junk := mode.end, [x] + marker;
    var a, b := junk + end, marker + end;
    FirstEnd(junk, end);
    FirstEnd(marker, end);
    var e, f := FindSubsequence(a, end).value, FindSubsequence(b, end).value;
    ShiftedPrefixes(x, marker, end, e + |end|);
    assert !(marker <= [x] + marker);
    assert a[..e + |end|] != b[..f + |end|];
  }

  lemma FirstEnd(body: seq<byte>, end: seq<byte>)
    requires end != []
    ensures FindSubsequence(body + end, end).Some? && FindSubsequence(body + end, end).value <= |body|
    ensures FindSubsequence(body, end).None? ==> FindSubsequence(body + end, end).value + |end| > |body|
  {
    assert OccursAt(body + end, end, |body|);
    OccursInPrefix(body, end, end, FindSubsequence(body + end, end).value);
  }

  lemma ShiftedPrefixes(x: byte, marker: seq<byte>, end: seq<byte>, n: nat)
    requires |marker| < n <= |marker| + 1 + |end|
    ensures n <= |marker + end| && ([x] + marker + end)[..n] == (marker + end)[..n] ==> marker <= [x] + marker
  {
    var a, b := [x] + marker + end, marker + end;
    if n <= |b| && a[..n] == b[..n] {
      assert forall i :: 0 <= i < |marker| ==> a[..n][i] == a[i] == ([x] + marker)[i] && b[..n][i] == b[i] == marker[i];
    }
  }

  // ----- when being inside a frame makes no difference

  lemma {:induction false} OpensAtZero(w: seq<byte>, t: seq<byte>, p: nat, start: seq<seq<byte>>, end: seq<byte>)
    requires OpensEverywhere(start, end) && (t == end || t in start) && OccursAt(w, t, p)
    ensures StartsWithMarker(w, start)
    decreases p
  {
    hide StartsWithMarker;
    if p == 0 {
      OccursFirst(w, t);
      if t == end {
        PrefixStarts(end, w, start);
      } else {
        MarkerStarts(w, t, start);
      }
    } else {
      OccursInSuffix(w, 1, t, p);
      OpensAtZero(w[1..], t, p - 1, start, end);
      OpensOneEarlier(w, start, end);
    }
  }

  lemma MarkerStarts(w: seq<byte>, t: seq<byte>, markers: seq<seq<byte>>)
    requires t in markers && t <= w
    ensures StartsWithMarker(w, markers)
  {
    var k :| 0 <= k < |markers| && markers[k] == t;
    assert markers[k] <= w;
  }

  lemma OpensOneEarlier(w: seq<byte>, start: seq<seq<byte>>, end: seq<byte>)
    requires OpensEverywhere(start, end) && w != [] && StartsWithMarker(w[1..], start)
    ensures StartsWithMarker(w, start)
  {
    var j :| 0 <= j < |start| && start[j] <= w[1..];
    assert StartsWithMarker([w[0]] + start[j], start);
    hide StartsWithMarker, OpensEverywhere;
    OneByteEarlier(start[j], w);
    PrefixStarts([w[0]] + start[j], w, start);
  }

  lemma OneByteEarlier(t: seq<byte>, w: seq<byte>)
    requires w != [] && t <= w[1..]
    ensures [w[0]] + t <= w
  {
  }

  lemma PrefixStarts(s: seq<byte>, longer: seq<byte>, markers: seq<seq<byte>>)
    requires s <= longer && StartsWithMarker(s, markers)
    ensures StartsWithMarker(longer, markers)
  {
    var k :| 0 <= k < |markers| && markers[k] <= s;
    assert markers[k] <= longer;
  }

  /** Inside an empty frame and outside any frame, over the same bytes. */
  ghost predicate Twins(s: State, t: State) {
    s == t || (t.mode.StartEnd? && !t.mode.inFrame && s == t.(mode := t.mode.(inFrame := true)))
  }

  lemma TwinsStay(cfg: Config, s: State, t: State, chunk: seq<byte>)
    requires Twins(s, t) && t.mode.StartEnd? && t.mode.includeMarkers && t.mode.end != []
    requires NonEmptyMarkers(t.mode.start) && OpensEverywhere(t.mode.start, t.mode.end)
    ensures
      var a, b := PushBuffered(cfg, s, chunk), PushBuffered(cfg, t, chunk);
      && Twins(a, b) && b.mode.StartEnd?
      && b.mode.(inFrame := t.mode.inFrame) == t.mode
  {
    var w, mode := t.buf + chunk, t.mode;
    StartEndModeStays(cfg, t.(buf := w));
    if s != t {
      var v := EarliestStartWins(w, mode.start);
      if EarliestStart(w, mode.start).Some? {
        OpensAtZero(w, mode.start[v], EarliestStart(w, mode.start).value.pos, mode.start, mode.end);
        var k :| 0 <= k < |mode.start| && mode.start[k] <= w;
        OccursFirst(w, mode.start[k]);
        assert EarliestStart(w, mode.start).value.pos == 0;
        assert w[0..] == w;
        assert StartEndFrom(s.mode, w) == StartEndFrom(mode, w);
      } else {
        NothingToTrim(w, mode.start, mode.end);
      }
    }
  }

  /** Draining changes nothing of a start/end mode but whether it is inside a frame. */
  lemma {:induction false} StartEndModeStays(cfg: Config, s: State)
    requires s.mode.StartEnd?
    ensures Drain(cfg, s).mode.StartEnd? && Drain(cfg, s).mode.(inFrame := s.mode.inFrame) == s.mode
    decreases |s.buf|
  {
    var x := Extract(cfg.includeTerminators, s.mode, s.buf);
    if x.frame.Some? {
      StartEndModeStays(cfg, EmitFrame(cfg, s.(mode := x.mode, buf := x.buf), x.frame.value));
    }
  }

  /** Without any marker the bytes are too few to be trimmed, and contain no end marker. */
  lemma NothingToTrim(w: seq<byte>, start: seq<seq<byte>>, end: seq<byte>)
    requires end != [] && NonEmptyMarkers(start) && OpensEverywhere(start, end) && Absent(w, start)
    ensures FindSubsequence(w, end).None? && Trim(w, start) == w
  {
    AbsentStartsNothing(w, start);
    forall i ensures !OccursAt(w, end, i) {
      if OccursAt(w, end, i) {
        OpensAtZero(w, end, i, start, end);
      }
    }
    var more := w + end;
    assert OccursAt(more, end, |w|);
    OpensAtZero(more, end, |w|, start, end);
    var k :| 0 <= k < |start| && start[k] <= more;
    LongestMarkerBounds(start, k);
    OccursFirst(more, start[k]);
    OccursInPrefix(w, end, start[k], 0);
  }

  lemma AbsentStartsNothing(w: seq<byte>, start: seq<seq<byte>>)
    requires Absent(w, start)
    ensures !StartsWithMarker(w, start)
  {
    forall k | 0 <= k < |start| ensures !(start[k] <= w) {
      OccursFirst(w, start[k]);
    }
  }

  lemma {:induction false} TwinsReportAlike(cfg: Config, s: State, t: State, chunks: seq<seq<byte>>)
    requires Twins(s, t) && t.mode.StartEnd? && t.mode.includeMarkers && t.mode.end != []
    requires NonEmptyMarkers(t.mode.start) && OpensEverywhere(t.mode.start, t.mode.end)
    ensures PushAllSpec(cfg, s, chunks).log == PushAllSpec(cfg, t, chunks).log
    decreases |chunks|
  {
    if chunks != [] {
      TwinsStay(cfg, s, t, chunks[0]);
      TwinsReportAlike(cfg, PushSpec(cfg, s, chunks[0]), PushSpec(cfg, t, chunks[0]), chunks[1..]);
    }
  }

  // ----- SLIP and COBS

  lemma PushOneByte(cfg: Config, s: State, b: byte)
    requires IsStream(s.mode) && s.buf == []
    ensures PushSpec(cfg, s, [b]) == Step(cfg, s, b)
  {
    hide Run, Consumed, Step;
    assert s.buf + [b] == [b] && [b][..1] == [b] && [b][1..] == [];
    ConsumedFront(cfg, s, [b]);
    ConsumedNothing(cfg, Step(cfg, s, b));
    RunOne(cfg, s, b);
  }

  /** The byte after a flush in the middle of an escape is still taken for the escaped one. */
  lemma StaleEscapeChangesByte(cfg: Config, s: State)
    requires cfg.parser.None? && !cfg.skipEmpty && s.buf == [] && s.mode == Slip(SlipInFrame([], true))
    ensures !SamePayloads(cfg, s, s.(mode := Rested(s.mode)))
  {
    hide PushAllSpec, PushSpec;
    var t := s.(mode := Rested(s.mode));
    PushOneByte(cfg, s, SLIP_ESC_END);
    PushOneByte(cfg, t, SLIP_ESC_END);
    var a, b := s.(mode := Slip(SlipInFrame([SLIP_END], false))), s.(mode := Slip(SlipInFrame([SLIP_ESC_END], false)));
    assert [] + [SLIP_END] == [SLIP_END] && [] + [SLIP_ESC_END] == [SLIP_ESC_END];
    PushOneByte(cfg, a, SLIP_END);
    PushOneByte(cfg, b, SLIP_END);
    LogAppend(s.log, Emitted(Frame([SLIP_END], s.count, SlipFrame, None)));
    LogAppend(s.log, Emitted(Frame([SLIP_ESC_END], s.count, SlipFrame, None)));
    PushTwo(cfg, s, [SLIP_ESC_END], [SLIP_END]);
    PushTwo(cfg, t, [SLIP_ESC_END], [SLIP_END]);
    assert (Payloads(s.log) + [[SLIP_END]])[|Payloads(s.log)|] != (Payloads(s.log) + [[SLIP_ESC_END]])[|Payloads(s.log)|];
  }

  /** The zero after a flush in the middle of a block is data, and ends no frame. */
  lemma StaleBlockCopiesZero(cfg: Config, s: State)
    requires cfg.parser.None? && !cfg.skipEmpty && s.buf == []
    requires s.mode.Cobs? && s.mode.cobs.CobsInFrame? && s.mode.cobs.remaining > 0
    requires s.mode.cobs.decoded == []
    ensures !SamePayloads(cfg, s, s.(mode := Rested(s.mode)))
  {
    hide PushAllSpec, PushSpec;
    var t := s.(mode := Rested(s.mode));
    PushOneByte(cfg, s, 0);
    PushOneByte(cfg, t, 0);
    LogAppend(s.log, Emitted(Frame([], s.count, CobsFrame, None)));
    PushTwo(cfg, s, [0], []);
    PushTwo(cfg, t, [0], []);
  }

  // ----- the exact condition

  /** What holds of every decoder between calls: markers are not empty, and SLIP or COBS bytes wait only behind an error. */
  ghost predicate BetweenCalls(s: State) {
    && Settled(s.mode)
    && (s.mode.StartEnd? ==> NonEmptyMarkers(s.mode.start) && s.mode.end != [])
    && (IsStream(s.mode) && s.buf != [] ==> s.mode == Slip(BeforeFirstEnd) || s.mode == Cobs(BeforeFirstDelim))
  }

  /**
    Pushes after a flush report what they would report to a decoder with nothing half-read if and only if
    nothing was: no pending CR, no length read ahead, no open frame, escape or block.  An open start/end
    frame is invisible in one case alone, when markers are kept and every byte opens a frame anyway.
   */
  lemma RestartsCleanExactlyWhen(cfg: Config, s: State)
    requires cfg.parser.None? && !cfg.skipEmpty && BetweenCalls(s)
    ensures
      var t := Flushed(s);
      var rested := t.(mode := Rested(t.mode));
      && (SameReports(cfg, t, rested) <==> !Unfinished(s.mode))
      && (SamePayloads(cfg, t, rested) <==> !Unfinished(s.mode))
  {
    var t := Flushed(s);
    var rested := t.(mode := Rested(t.mode));
    if Unfinished(s.mode) {
      UnfinishedShows(cfg, t);
    } else if rested != t {
      assert s.mode.StartEnd?;
      forall chunks ensures PushAllSpec(cfg, t, chunks).log == PushAllSpec(cfg, rested, chunks).log {
        TwinsReportAlike(cfg, t, rested, chunks);
      }
    }
  }

  lemma UnfinishedShows(cfg: Config, t: State)
    requires cfg.parser.None? && !cfg.skipEmpty && Unfinished(t.mode) && t.buf == []
    requires t.mode.StartEnd? ==> NonEmptyMarkers(t.mode.start) && t.mode.end != []
    requires t.mode.Slip? && t.mode.slip.SlipInFrame? ==> t.mode.slip.payload == []
    requires t.mode.Cobs? && t.mode.cobs.CobsInFrame? ==> t.mode.cobs.decoded == []
    ensures !SamePayloads(cfg, t, t.(mode := Rested(t.mode)))
  {
    if t.mode.Line? {
      StaleCrCuts(cfg, t, t.mode.line.pos);
    } else if t.mode.LengthPrefixed? {
      StaleLengthCuts(cfg, t);
    } else if t.mode.StartEnd? {
      if !t.mode.includeMarkers || !StartsWithMarker(t.mode.end, t.mode.start) {
        StaleFrameCloses(cfg, t);
      } else {
        var x: byte, j :| 0 <= j < |t.mode.start| && !StartsWithMarker([x] + t.mode.start[j], t.mode.start);
        StaleFrameKeepsJunk(cfg, t, x, j);
      }
    } else if t.mode.Slip? {
      StaleEscapeChangesByte(cfg, t);
    } else {
      StaleBlockCopiesZero(cfg, t);
    }
  }
}
