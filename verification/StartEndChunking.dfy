/** When start/end framing as a whole, not only its start scan, is independent of chunking. */
module StartEndChunking {
  import opened Bytes
  import opened Framing
  import opened StartMarkers
  import opened BufferedModes
  import opened BufferedRuns
  import opened AutoLineFraming

  /** A decoder outside any frame, holding nothing. */
  predicate Outside(mode: Mode) {
    mode.StartEnd? && !mode.inFrame
  }

  /** Inside a frame, bytes without an end marker are kept. */
  lemma KeepsFrameBytes(s: State, chunk: seq<byte>)
    requires s.mode.StartEnd? && s.mode.inFrame && FindSubsequence(s.buf + chunk, s.mode.end).None?
    ensures PushBuffered(PLAIN, s, chunk) == s.(buf := s.buf + chunk)
  {
  }

  /** The first bytes with a start marker open a frame there. */
  lemma OpensFrame(mode: Mode, chunk: seq<byte>)
    requires Outside(mode) && EarliestStart(chunk, mode.start).Some?
    requires FindSubsequence(chunk[CutAt(mode, EarliestStart(chunk, mode.start).value)..], mode.end).None?
    ensures PushBuffered(PLAIN, Fresh(mode), chunk)
         == Fresh(mode.(inFrame := true)).(buf := chunk[CutAt(mode, EarliestStart(chunk, mode.start).value)..])
  {
    assert [] + chunk == chunk;
  }

  /** The end marker hands out what was kept. */
  lemma EndClosesFrame(mode: Mode, kept: seq<byte>)
    requires mode.StartEnd? && mode.inFrame && FindSubsequence(kept + mode.end, mode.end) == Some(|kept|)
    ensures
      var frame := if mode.includeMarkers then kept + mode.end else kept;
      [frame] <= Payloads(PushBuffered(PLAIN, Fresh(mode).(buf := kept), mode.end).log)
  {
    var s := Fresh(mode).(buf := kept + mode.end);
    NextPayload(PLAIN, s, Extract(false, mode, s.buf));
    assert s.buf[..|kept| + |mode.end|] == s.buf && s.buf[..|kept|] == kept;
    assert [] + [s.buf] == [s.buf] && [] + [kept] == [kept];
  }

  /** Behind any cut of a marker that is free of the end marker, the end is found only where it is appended. */
  lemma EndBehindCut(marker: seq<byte>, end: seq<byte>, cut: nat)
    requires end != [] && FreeOf(marker, end) && cut <= |marker|
    ensures FindSubsequence(marker[cut..], end).None?
    ensures FindSubsequence(marker[cut..] + end, end) == Some(|marker| - cut)
  {
    FreeOfExactlyWhen(marker, end);
    var kept, all := marker[cut..], marker + end;
    assert kept + end == all[cut..];
    assert OccursAt(kept + end, end, |kept|);
    forall i | 0 <= i < |kept| ensures !OccursAt(kept + end, end, i) && !OccursAt(kept, end, i) {
      OccursInSuffix(all, cut, end, i + cut);
      OccursInPrefix(kept, end, end, i);
    }
  }

  lemma {:induction false} FrontIsFree(marker: seq<byte>, end: seq<byte>, front: nat, cut: nat)
    requires end != [] && FreeOf(marker, end) && cut <= front <= |marker|
    ensures FindSubsequence(marker[..front][cut..], end).None?
  {
    EndBehindCut(marker, end, cut);
    var kept, part := marker[cut..], marker[..front][cut..];
    assert kept == part + marker[front..];
    forall i ensures !OccursAt(part, end, i) {
      OccursInPrefix(part, marker[front..], end, i);
    }
  }

  lemma {:induction false} ThreeChunks(s: State, a: seq<byte>, b: seq<byte>, c: seq<byte>)
    requires IsBuffered(s.mode)
    ensures Join([a, b, c]) == a + b + c
    ensures PushBufferedAll(PLAIN, s, [a, b, c]) == PushBuffered(PLAIN, PushBuffered(PLAIN, PushBuffered(PLAIN, s, a), b), c)
  {
    assert [a, b, c][1..] == [b, c];
    TwoChunks(PLAIN, PushBuffered(PLAIN, s, a), b, c);
    assert Join([a, b, c]) == a + Join([b, c]);
    assert a + (b + c) == a + b + c;
  }

  /** The marker as one chunk, then the end marker. */
  lemma {:induction false} MarkerThenEnd(mode: Mode, marker: seq<byte>)
    requires Outside(mode) && mode.end != [] && FreeOf(marker, mode.end) && EarliestStart(marker, mode.start).Some?
    ensures
      var kept := marker[CutAt(mode, EarliestStart(marker, mode.start).value)..];
      [if mode.includeMarkers then kept + mode.end else kept]
        <= Payloads(PushBufferedAll(PLAIN, Fresh(mode), [marker, mode.end]).log)
  {
    var cut := CutAt(mode, EarliestStart(marker, mode.start).value);
    EndBehindCut(marker, mode.end, cut);
    OpensFrame(mode, marker);
    EndClosesFrame(mode.(inFrame := true), marker[cut..]);
    TwoChunks(PLAIN, Fresh(mode), marker, mode.end);
  }

  /** The marker in two chunks, then the end marker. */
  lemma {:induction false} PartsThenEnd(mode: Mode, buf: seq<byte>, more: seq<byte>)
    requires Outside(mode) && mode.end != [] && FreeOf(buf + more, mode.end) && EarliestStart(buf, mode.start).Some?
    ensures
      var kept := (buf + more)[CutAt(mode, EarliestStart(buf, mode.start).value)..];
      [if mode.includeMarkers then kept + mode.end else kept]
        <= Payloads(PushBufferedAll(PLAIN, Fresh(mode), [buf, more, mode.end]).log)
  {
    hide EarliestStart, FindSubsequence, FreeOf, PushBuffered, PushBufferedAll, Payloads;
    var marker, cut := buf + more, CutAt(mode, EarliestStart(buf, mode.start).value);
    EndBehindCut(marker, mode.end, cut);
    FrontIsFree(marker, mode.end, |buf|, cut);
    assert marker[..|buf|] == buf && marker[cut..] == buf[cut..] + more;
    OpensFrame(mode, buf);
    KeepsFrameBytes(Fresh(mode.(inFrame := true)).(buf := buf[cut..]), more);
    EndClosesFrame(mode.(inFrame := true), marker[cut..]);
    ThreeChunks(Fresh(mode), buf, more, mode.end);
  }

  /** An ambiguous marker followed by the end marker comes out differently in two chunkings. */
  lemma AmbiguityShows(mode: Mode)
    requires Outside(mode) && NonEmptyMarkers(mode.start) && mode.end != []
    requires forall j :: 0 <= j < |mode.start| ==> FreeOf(mode.start[j], mode.end)
    requires !Unambiguous(mode.start, mode.includeMarkers)
    ensures exists stream :: !ChunkIndependent(PLAIN, mode, stream)
  {
    hide FreeOf, PushBuffered, PushBufferedAll, Payloads;
    var buf, more := AmbiguousMarkerIsCutApart(mode.start, mode.includeMarkers);
    var marker, end := buf + more, mode.end;
    MarkerThenEnd(mode, marker);
    PartsThenEnd(mode, buf, more);
    TwoChunks(PLAIN, Fresh(mode), marker, end);
    ThreeChunks(Fresh(mode), buf, more, end);
    var p := Payloads(PushBufferedAll(PLAIN, Fresh(mode), [marker, end]).log);
    var q := Payloads(PushBufferedAll(PLAIN, Fresh(mode), [buf, more, end]).log);
    assert |p[0]| != |q[0]|;
    assert !ChunkIndependent(PLAIN, mode, marker + end);
  }

  /**
    The exact condition for frames: when no start marker contains or completes the end marker, start/end
    framing is independent of chunking on every stream if and only if its start markers are unambiguous.
   */
  lemma FramesIgnoreChunkingExactlyWhen(mode: Mode)
    requires Outside(mode) && NonEmptyMarkers(mode.start) && mode.end != []
    requires forall j :: 0 <= j < |mode.start| ==> FreeOf(mode.start[j], mode.end)
    ensures (forall stream :: ChunkIndependent(PLAIN, mode, stream)) <==> Unambiguous(mode.start, mode.includeMarkers)
  {
    if Unambiguous(mode.start, mode.includeMarkers) {
      forall stream, chunks | Join(chunks) == stream
        ensures PushBufferedAll(PLAIN, Fresh(mode), chunks) == PushBuffered(PLAIN, Fresh(mode), stream)
      {
        assert [] + stream == stream;
        FreshIsDrained(PLAIN, mode);
        NeverFails(PLAIN, Fresh(mode).(buf := stream));
        BufferedChunkIndependence(PLAIN, Fresh(mode), chunks);
      }
    } else {
      AmbiguityShows(mode);
    }
  }
}
