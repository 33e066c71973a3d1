/** Line framing: what `auto` means, when it ignores chunking, and where a pending CR stands. */
module AutoLineFraming {
  import opened Bytes
  import opened Framing
  import opened BufferedModes
  import opened BufferedRuns

  // ----- agreement with plain LF splitting

  predicate LfOrNothingAt(s: seq<byte>, i: nat) {
    i < |s| ==> s[i] == LF
  }

  /** Every CR is followed by LF or is the last byte so far. */
  ghost predicate NoBareCr(s: seq<byte>) {
    forall i :: 0 <= i < |s| && s[i] == CR ==> LfOrNothingAt(s, i + 1)
  }

  lemma SuffixKeepsNoBareCr(s: seq<byte>, n: nat)
    requires n <= |s| && NoBareCr(s)
    ensures NoBareCr(s[n..])
  {
    var rest := s[n..];
    forall i | 0 <= i < |rest| && rest[i] == CR ensures LfOrNothingAt(rest, i + 1) {
      assert LfOrNothingAt(s, i + n + 1);
    }
  }

  /** The LF-terminated lines of a stream, without LF and without a CR before it. */
  function Lines(s: seq<byte>): seq<seq<byte>>
    decreases |s|
  {
    match Position(s, LF)
    case None => []
    case Some(lf) => [StripCr(s[..lf])] + Lines(s[lf + 1..])
  }

  /** What follows the last LF. */
  function Unterminated(s: seq<byte>): seq<byte>
    decreases |s|
  {
    match Position(s, LF)
    case None => s
    case Some(lf) => Unterminated(s[lf + 1..])
  }

  ghost predicate SplitsLines(cfg: Config, s: State)
    requires IsBuffered(s.mode)
  {
    && Payloads(Drain(cfg, s).log) == Payloads(s.log) + Lines(s.buf)
    && Drain(cfg, s).buf == Unterminated(s.buf)
  }

  lemma {:induction false} DrainSplitsLines(cfg: Config, s: State)
    requires cfg == PLAIN && s.mode == Line(AutoLf) && NoBareCr(s.buf)
    ensures SplitsLines(cfg, s)
    decreases |s.buf|
  {
    match Position(s.buf, LF)
    case None => NoLfNoFrame(s.buf);
    case Some(lf) =>
      AutoLineCutsLf(false, s.buf, lf);
      var x := AutoLine(false, s.buf);
      var u := Next(cfg, s, x);
      assert Drain(cfg, s) == Drain(cfg, u) && Payloads(u.log) == Payloads(s.log) + [StripCr(s.buf[..lf])] by {
        NextPayload(cfg, s, x);
      }
      DrainSplitsLines(cfg, u);
      OneMoreLine(Payloads(s.log), s.buf, lf);
  }

  lemma NoLfNoFrame(buf: seq<byte>)
    requires NoBareCr(buf) && LF !in buf
    ensures AutoLine(false, buf).frame.None? && AutoLine(false, buf).buf == buf
  {
    if CR in buf {
      FinalCr(buf, Position(buf, CR).value);
    }
  }

  lemma FinalCr(buf: seq<byte>, cr: nat)
    requires NoBareCr(buf) && LF !in buf && cr < |buf| && buf[cr] == CR
    ensures cr + 1 == |buf|
  {
    assert LfOrNothingAt(buf, cr + 1);
    assert forall i :: 0 <= i < |buf| ==> buf[i] != LF;
  }

  lemma OneMoreLine(before: seq<seq<byte>>, buf: seq<byte>, lf: nat)
    requires Position(buf, LF) == Some(lf)
    ensures before + [StripCr(buf[..lf])] + Lines(buf[lf + 1..]) == before + Lines(buf)
    ensures Unterminated(buf) == Unterminated(buf[lf + 1..])
  {
  }

  /** The first LF ends the first line, whatever else is in the buffer. */
  lemma AutoLineCutsLf(inclusive: bool, buf: seq<byte>, lf: nat)
    requires Position(buf, LF) == Some(lf)
    ensures AutoLine(inclusive, buf)
         == Extraction(Line(AutoLf), buf[lf + 1..], Some(if inclusive then buf[..lf + 1] else StripCr(buf[..lf])))
  {
    if lf > 0 {
      assert buf[..lf][lf - 1] == buf[lf - 1] && buf[..lf][..lf - 1] == buf[..lf - 1];
      assert buf[(lf - 1) + 2..] == buf[lf + 1..];
    }
  }

  lemma NoBareCrIsChunkProof(s: seq<byte>)
    requires NoBareCr(s)
    ensures NoLfAfterBareCr(s)
  {
    assert forall i :: 0 <= i < |s| && s[i] == CR ==> LfOrNothingAt(s, i + 1);
  }

  /**
    On a stream without bare CR every chunking makes a fresh `auto` decoder emit exactly the LF lines
    with their CR stripped, and keep exactly the unterminated rest.
   */
  lemma AutoEqualsLfSplitting(chunks: seq<seq<byte>>)
    requires NoBareCr(Join(chunks))
    ensures
      var r := PushBufferedAll(PLAIN, Fresh(Line(AutoLf)), chunks);
      && Payloads(r.log) == Lines(Join(chunks))
      && r.buf == Unterminated(Join(chunks))
  {
    var cfg, s, all := PLAIN, Fresh(Line(AutoLf)), Join(chunks);
    NoBareCrIsChunkProof(all);
    AutoIgnoresChunking(cfg, chunks);
    DrainSplitsLines(cfg, s.(buf := all));
    FirstPush(cfg, Line(AutoLf), all);
    assert Payloads(s.log) + Lines(all) == Lines(all);
  }

  // ----- the exact condition for chunk independence

  /** Every chunking of the stream yields the same frames as one push of it. */
  ghost predicate ChunkIndependent(cfg: Config, mode: Mode, stream: seq<byte>)
    requires IsBuffered(mode)
  {
    forall chunks :: Join(chunks) == stream ==>
      Payloads(PushBufferedAll(cfg, Fresh(mode), chunks).log)
        == Payloads(PushBuffered(cfg, Fresh(mode), stream).log)
  }

  /** `c` is the first CR that is followed by another byte than LF, and an LF comes later. */
  ghost predicate FirstTrouble(s: seq<byte>, c: nat) {
    && c + 1 < |s| && s[c] == CR && s[c + 1] != LF
    && (forall i :: 0 <= i < c && s[i] == CR ==> s[i + 1] == LF)
    && (exists j :: c + 1 < j < |s| && s[j] == LF)
  }

  lemma FindTrouble(s: seq<byte>) returns (c: nat)
    requires !NoLfAfterBareCr(s)
    ensures FirstTrouble(s, c)
  {
    var i, j :| 0 <= i && i + 1 < j < |s| && s[i] == CR && s[i + 1] != LF && s[j] == LF;
    c := 0;
    while s[c] != CR || s[c + 1] == LF
      invariant 0 <= c <= i
      invariant forall k :: 0 <= k < c && s[k] == CR ==> s[k + 1] == LF
      decreases i - c
    {
      c := c + 1;
    }
  }

  lemma TroubleHasLf(s: seq<byte>, c: nat)
    requires FirstTrouble(s, c)
    ensures c + 2 <= |s| && Position(s, LF).Some?
  {
  }

  /** The stream reaches different frames as a whole and when cut just behind position `c` and its successor. */
  ghost predicate CutMatters(cfg: Config, s: State, c: nat)
    requires IsBuffered(s.mode) && c + 2 <= |s.buf|
  {
    var early := Drain(cfg, s.(buf := s.buf[..c + 2]));
    Payloads(PushBuffered(cfg, early, s.buf[c + 2..]).log) != Payloads(Drain(cfg, s).log)
  }

  /** Cutting the stream just behind the troublesome CR and its successor changes the frames. */
  lemma {:induction false} CutChangesFrames(cfg: Config, s: State, c: nat)
    requires cfg.parser.None? && !cfg.skipEmpty
    requires s.mode == Line(AutoLf) && FirstTrouble(s.buf, c)
    ensures CutMatters(cfg, s, c)
    decreases |s.buf|
  {
    hide FirstTrouble, CutMatters, Position, AutoLine, Next;
    TroubleHasLf(s.buf, c);
    var lf := Position(s.buf, LF).value;
    if lf < c {
      var u := OneLineLater(cfg, s, c, lf);
      LaterTrouble(s.buf, c, lf);
      CutChangesFrames(cfg, u, c - lf - 1);
    } else {
      TroubleCutsElsewhere(cfg.includeTerminators, s.buf, c, lf);
      CutMattersNow(cfg, s, c);
    }
  }

  /** After the first line, which comes out the same from the whole and from its head. */
  lemma OneLineLater(cfg: Config, s: State, c: nat, lf: nat) returns (u: State)
    requires cfg.parser.None? && !cfg.skipEmpty && s.mode == Line(AutoLf)
    requires c + 2 <= |s.buf| && Position(s.buf, LF) == Some(lf) && lf < c
    ensures u.mode == Line(AutoLf) && u.buf == s.buf[lf + 1..]
    ensures CutMatters(cfg, u, c - lf - 1) ==> CutMatters(cfg, s, c)
  {
    hide Position, AutoLine, Drain, Payloads;
    var head := s.(buf := s.buf[..c + 2]);
    var x, y := AutoLine(cfg.includeTerminators, s.buf), AutoLine(cfg.includeTerminators, head.buf);
    SameFirstLine(cfg.includeTerminators, s.buf, c, lf);
    NextPayload(cfg, s, x);
    NextPayload(cfg, head, y);
    u := Next(cfg, s, x);
    assert Next(cfg, head, y) == u.(buf := u.buf[..c - lf - 1 + 2]);
  }

  lemma CutMattersNow(cfg: Config, s: State, c: nat)
    requires cfg.parser.None? && !cfg.skipEmpty && s.mode == Line(AutoLf) && c + 2 <= |s.buf|
    requires
      var x := AutoLine(cfg.includeTerminators, s.buf);
      var y := AutoLine(cfg.includeTerminators, s.buf[..c + 2]);
      x.frame.Some? && y.frame.Some? && x.frame.value != y.frame.value
    ensures CutMatters(cfg, s, c)
  {
    var head, n := s.(buf := s.buf[..c + 2]), |Payloads(s.log)|;
    var x, y := AutoLine(cfg.includeTerminators, s.buf), AutoLine(cfg.includeTerminators, head.buf);
    assert Payloads(s.log) + [x.frame.value] <= Payloads(Drain(cfg, s).log) by {
      NextPayload(cfg, s, x);
    }
    assert Payloads(s.log) + [y.frame.value] <= Payloads(Drain(cfg, head).log) by {
      NextPayload(cfg, head, y);
    }
    PushExtendsPayloads(cfg, Drain(cfg, head), s.buf[c + 2..]);
    assert Payloads(Drain(cfg, s).log)[n] == x.frame.value;
    assert Payloads(PushBuffered(cfg, Drain(cfg, head), s.buf[c + 2..]).log)[n] == y.frame.value;
  }

  /** A line that ends before the trouble is cut alike from the whole buffer and from its head. */
  lemma SameFirstLine(inclusive: bool, buf: seq<byte>, c: nat, lf: nat)
    requires c + 2 <= |buf| && Position(buf, LF) == Some(lf) && lf < c
    ensures
      var x, y := AutoLine(inclusive, buf), AutoLine(inclusive, buf[..c + 2]);
      && x.frame.Some? && x.mode == Line(AutoLf) && x.buf == buf[lf + 1..]
      && y == x.(buf := x.buf[..c - lf - 1 + 2])
      && x.buf[c - lf - 1 + 2..] == buf[c + 2..]
  {
    hide AutoLine, Position, StripCr;
    HeadHasSameLine(buf, c + 2, lf);
    AutoLineCutsLf(inclusive, buf, lf);
    AutoLineCutsLf(inclusive, buf[..c + 2], lf);
    HeadOfTail(buf, c + 2, lf + 1);
  }

  lemma HeadHasSameLine(buf: seq<byte>, n: nat, lf: nat)
    requires n <= |buf| && Position(buf, LF) == Some(lf) && lf < n
    ensures Position(buf[..n], LF) == Some(lf) && buf[..n][..lf + 1] == buf[..lf + 1] && buf[..n][..lf] == buf[..lf]
  {
    assert forall i :: 0 <= i <= lf ==> buf[..n][i] == buf[i];
    PositionIs(buf[..n], LF, lf);
  }

  lemma HeadOfTail(s: seq<byte>, n: nat, k: nat)
    requires k <= n <= |s|
    ensures s[..n][k..] == s[k..][..n - k] && s[k..][n - k..] == s[n..]
  {
  }

  lemma LaterTrouble(buf: seq<byte>, c: nat, lf: nat)
    requires FirstTrouble(buf, c) && lf < c
    ensures FirstTrouble(buf[lf + 1..], c - lf - 1)
  {
    var rest := buf[lf + 1..];
    var j :| c + 1 < j < |buf| && buf[j] == LF;
    assert rest[j - lf - 1] == LF;
    assert forall i :: 0 <= i < |rest| ==> rest[i] == buf[i + lf + 1];
  }

  /** With the trouble in the first line, the head ends its frame at the CR, the whole buffer later. */
  lemma TroubleCutsElsewhere(inclusive: bool, buf: seq<byte>, c: nat, lf: nat)
    requires FirstTrouble(buf, c) && Position(buf, LF) == Some(lf) && lf >= c
    ensures
      var x, y := AutoLine(inclusive, buf), AutoLine(inclusive, buf[..c + 2]);
      x.frame.Some? && y.frame.Some? && x.frame.value != y.frame.value
  {
    var head := buf[..c + 2];
    assert forall i :: 0 <= i < |head| ==> head[i] == buf[i];
    assert LF !in head;
    forall i | 0 <= i < c ensures head[i] != CR {
      assert head[i + 1] in head;
      assert head[i + 1] == buf[i + 1];
    }
    assert head[c] == CR;
    assert Position(head, CR) == Some(c);
    AutoLineCutsLf(inclusive, buf, lf);
    assert |AutoLine(inclusive, buf).frame.value| > |AutoLine(inclusive, head).frame.value|;
  }

  lemma AutoIgnoresChunking(cfg: Config, chunks: seq<seq<byte>>)
    requires cfg.parser.None? && NoLfAfterBareCr(Join(chunks))
    ensures PushBufferedAll(cfg, Fresh(Line(AutoLf)), chunks) == PushBuffered(cfg, Fresh(Line(AutoLf)), Join(chunks))
  {
    var s := Fresh(Line(AutoLf));
    assert s.buf + Join(chunks) == Join(chunks);
    NeverFails(cfg, s.(buf := Join(chunks)));
    FreshIsDrained(cfg, Line(AutoLf));
    BufferedChunkIndependence(cfg, s, chunks);
  }

  /**
    `auto` framing is independent of chunking exactly on the streams where no LF follows a bare CR;
    on those, mode and buffer agree as well.
   */
  lemma AutoIsChunkIndependentExactlyWhen(cfg: Config, stream: seq<byte>)
    requires cfg.parser.None? && !cfg.skipEmpty
    ensures ChunkIndependent(cfg, Line(AutoLf), stream) <==> NoLfAfterBareCr(stream)
  {
    var s := Fresh(Line(AutoLf));
    if NoLfAfterBareCr(stream) {
      forall chunks | Join(chunks) == stream
        ensures PushBufferedAll(cfg, s, chunks) == PushBuffered(cfg, s, stream)
      {
        AutoIgnoresChunking(cfg, chunks);
      }
    } else {
      TroubleBreaksIndependence(cfg, stream);
    }
  }

  lemma TroubleBreaksIndependence(cfg: Config, stream: seq<byte>)
    requires cfg.parser.None? && !cfg.skipEmpty && !NoLfAfterBareCr(stream)
    ensures !ChunkIndependent(cfg, Line(AutoLf), stream)
  {
    hide FirstTrouble, Payloads, Drain, Join, PushBufferedAll;
    var s := Fresh(Line(AutoLf));
    var c := FindTrouble(stream);
    assert c + 2 <= |stream| by { TroubleHasLf(stream, c); }
    var a, b := stream[..c + 2], stream[c + 2..];
    assert CutMatters(cfg, s.(buf := stream), c) by {
      CutChangesFrames(cfg, s.(buf := stream), c);
    }
    CutAsChunks(cfg, Line(AutoLf), stream, c);
    assert Join([a, b]) == stream by {
      TwoChunks(cfg, s, a, b);
      assert a + b == stream;
    }
  }

  lemma CutAsChunks(cfg: Config, mode: Mode, stream: seq<byte>, c: nat)
    requires IsBuffered(mode) && c + 2 <= |stream| && CutMatters(cfg, Fresh(mode).(buf := stream), c)
    ensures Payloads(PushBufferedAll(cfg, Fresh(mode), [stream[..c + 2], stream[c + 2..]]).log)
         != Payloads(PushBuffered(cfg, Fresh(mode), stream).log)
  {
    TwoChunks(cfg, Fresh(mode), stream[..c + 2], stream[c + 2..]);
    FirstPush(cfg, mode, stream[..c + 2]);
    FirstPush(cfg, mode, stream);
  }

  // ----- the pending CR

  /** A pending CR is a CR. */
  predicate PendingPointsAtCr(s: State) {
    s.mode.Line? && s.mode.line.PendingCr? ==> s.mode.line.pos < |s.buf| && s.buf[s.mode.line.pos] == CR
  }

  predicate PendingIsLast(s: State) {
    s.mode.Line? && s.mode.line.PendingCr? ==> s.mode.line.pos == |s.buf| - 1 && s.buf[s.mode.line.pos] == CR
  }

  lemma {:induction false} DrainLeavesPendingLast(cfg: Config, s: State)
    requires IsBuffered(s.mode) && PendingPointsAtCr(s)
    ensures PendingIsLast(Drain(cfg, s))
    decreases |s.buf|
  {
    hide Extract;
    var x := Extract(cfg.includeTerminators, s.mode, s.buf);
    SearchLeavesPendingLast(cfg.includeTerminators, s);
    if x.frame.Some? {
      DrainLeavesPendingLast(cfg, Next(cfg, s, x));
    }
  }

  /** A cut leaves no pending CR; a search without one leaves it at the end. */
  lemma SearchLeavesPendingLast(inclusive: bool, s: State)
    requires IsBuffered(s.mode) && PendingPointsAtCr(s)
    ensures
      var x := Extract(inclusive, s.mode, s.buf);
      && (x.frame.Some? ==> !(x.mode.Line? && x.mode.line.PendingCr?))
      && (x.frame.None? ==> PendingIsLast(s.(mode := x.mode, buf := x.buf)))
  {
    hide LengthPrefixedFrom, StartEndFrom, FindSubsequence, Position, AutoLine;
    if s.mode == Line(AutoLf) {
      AutoLeavesPendingLast(inclusive, s.buf);
    }
  }

  lemma AutoLeavesPendingLast(inclusive: bool, buf: seq<byte>)
    ensures
      var x := AutoLine(inclusive, buf);
      && x.mode.Line? && (x.mode.line.PendingCr? ==> x.frame.None?)
      && (x.mode.line.PendingCr? ==> x.mode.line.pos == |x.buf| - 1 && x.buf[x.mode.line.pos] == CR)
  {
    hide Position;
  }

  /** In every push-only run the remembered CR is the final byte of the buffer. */
  lemma {:induction false} PendingCrIsAlwaysLast(cfg: Config, s: State, chunks: seq<seq<byte>>)
    requires IsBuffered(s.mode) && PendingIsLast(s)
    ensures PendingIsLast(PushBufferedAll(cfg, s, chunks))
    decreases |chunks|
  {
    if chunks != [] {
      DrainLeavesPendingLast(cfg, s.(buf := s.buf + chunks[0]));
      PendingCrIsAlwaysLast(cfg, PushBuffered(cfg, s, chunks[0]), chunks[1..]);
    }
  }
}
