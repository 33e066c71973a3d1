/**
  The framing modes that search a retained buffer: line, delimiter, length-prefixed and start/end.
  `Extract` is one search, `Drain` is a push's loop over it.
 */
module BufferedModes {
  import opened Bytes
  import opened Framing
  import opened StartMarkers

  /** What one search did: the mode and buffer it left, and the frame it cut off, if any. */
  datatype Extraction = Extraction(mode: Mode, buf: seq<byte>, frame: Option<seq<byte>>)

  predicate IsBuffered(mode: Mode) {
    !mode.Slip? && !mode.Cobs?
  }

  /** Split off `split` bytes plus a terminator of `term` bytes. */
  function TakeFrame(inclusive: bool, mode: Mode, buf: seq<byte>, split: nat, term: nat): Extraction
    requires split + term <= |buf|
  {
    Extraction(mode, buf[split + term..], Some(if inclusive then buf[..split + term] else buf[..split]))
  }

  function LineByte(inclusive: bool, mode: Mode, buf: seq<byte>, b: byte): Extraction {
    match Position(buf, b)
    case None => Extraction(mode, buf, None)
    case Some(pos) => TakeFrame(inclusive, mode, buf, pos, 1)
  }

  function UpTo(inclusive: bool, mode: Mode, buf: seq<byte>, delimiter: seq<byte>): Extraction {
    match FindSubsequence(buf, delimiter)
    case None => Extraction(mode, buf, None)
    case Some(pos) => TakeFrame(inclusive, mode, buf, pos, |delimiter|)
  }

  /** `auto` before any bare CR is seen: LF first, then a CR that is known or not yet known to be bare. */
  function AutoLine(inclusive: bool, buf: seq<byte>): Extraction {
    match Position(buf, LF)
    case Some(lf) =>
      if !inclusive && lf > 0 && buf[lf - 1] == CR then TakeFrame(inclusive, Line(AutoLf), buf, lf - 1, 2)
      else TakeFrame(inclusive, Line(AutoLf), buf, lf, 1)
    case None =>
      match Position(buf, CR)
      case None => Extraction(Line(AutoLf), buf, None)
      case Some(cr) =>
        if cr + 1 < |buf| then TakeFrame(inclusive, Line(CrMode), buf, cr, 1)
        else Extraction(Line(PendingCr(cr)), buf, None)
  }

  /** `auto` with a CR at the end of the buffer: the byte after it decides. */
  function AfterPendingCr(inclusive: bool, cr: nat, buf: seq<byte>): Extraction {
    if cr + 1 >= |buf| then Extraction(Line(PendingCr(cr)), buf, None)
    else if buf[cr + 1] == LF then TakeFrame(inclusive, Line(AutoLf), buf, cr, 2)
    else TakeFrame(inclusive, Line(CrMode), buf, cr, 1)
  }

  /** Value of a length prefix in the given byte order. */
  function ReadLengthPrefix(prefix: seq<byte>, endianness: Endianness): nat {
    if prefix == [] then 0
    else if endianness.Big? then
      256 * ReadLengthPrefix(prefix[..|prefix| - 1], endianness) + prefix[|prefix| - 1]
    else
      prefix[0] + 256 * ReadLengthPrefix(prefix[1..], endianness)
  }

  /** The announced payload length, once the whole prefix is there. */
  function PayloadLen(mode: Mode, buf: seq<byte>): Option<nat>
    requires mode.LengthPrefixed?
  {
    if mode.nextPayloadLen.Some? then mode.nextPayloadLen
    else if |buf| < mode.prefixSize then None
    else Some(ReadLengthPrefix(buf[..mode.prefixSize], mode.endianness))
  }

  /** At the start of a prefix: cut one prefixed payload. */
  function PrefixedPayload(inclusive: bool, mode: Mode, buf: seq<byte>): (x: Extraction)
    requires mode.LengthPrefixed?
    ensures x.mode.LengthPrefixed?
    ensures x.frame.Some? ==> |x.buf| < |buf|
  {
    match PayloadLen(mode, buf)
    case None => Extraction(mode, buf, None)
    case Some(len) =>
      var total := mode.prefixSize + len;
      if |buf| < total then Extraction(mode.(nextPayloadLen := Some(len)), buf, None)
      else
        Extraction(mode.(nextPayloadLen := None), buf[total..],
                   Some(if inclusive then buf[..total] else buf[mode.prefixSize..total]))
  }

  /** The initial offset is skipped before the first prefix. */
  function LengthPrefixedFrom(inclusive: bool, mode: Mode, buf: seq<byte>): (x: Extraction)
    requires mode.LengthPrefixed?
    ensures x.mode.LengthPrefixed?
    ensures x.frame.Some? ==> |x.buf| < |buf|
  {
    var skip := if mode.remainingOffset < |buf| then mode.remainingOffset else |buf|;
    PrefixedPayload(inclusive, mode.(remainingOffset := mode.remainingOffset - skip), buf[skip..])
  }

  /** Inside a frame: cut at the end marker. */
  function ToEndMarker(mode: Mode, buf: seq<byte>): Extraction
    requires mode.StartEnd?
  {
    match FindSubsequence(buf, mode.end)
    case None => Extraction(mode.(inFrame := true), buf, None)
    case Some(pos) => TakeFrame(mode.includeMarkers, mode.(inFrame := false), buf, pos, |mode.end|)
  }

  /** Where the scan for a start marker cuts the buffer. */
  function CutAt(mode: Mode, h: Hit): nat
    requires mode.StartEnd?
  {
    Cut(h, mode.includeMarkers)
  }

  function StartEndFrom(mode: Mode, buf: seq<byte>): Extraction
    requires mode.StartEnd?
  {
    if mode.inFrame then ToEndMarker(mode, buf)
    else match EarliestStart(buf, mode.start)
      case None => Extraction(mode, Trim(buf, mode.start), None)
      case Some(h) =>
        ToEndMarker(mode, buf[CutAt(mode, h)..])
  }

  function Extract(inclusive: bool, mode: Mode, buf: seq<byte>): (x: Extraction)
    requires IsBuffered(mode)
    ensures IsBuffered(x.mode) && FrameTypeOf(x.mode) == FrameTypeOf(mode)
    ensures x.frame.Some? ==> |x.buf| < |buf|
  {
    match mode
    case Line(Lf) => LineByte(inclusive, mode, buf, LF)
    case Line(Cr) => LineByte(inclusive, mode, buf, CR)
    case Line(CrMode) => LineByte(inclusive, mode, buf, CR)
    case Line(Crlf) => UpTo(inclusive, mode, buf, [CR, LF])
    case Line(AutoLf) => AutoLine(inclusive, buf)
    case Line(PendingCr(cr)) => AfterPendingCr(inclusive, cr, buf)
    case Delimiter(delimiter) => UpTo(inclusive, mode, buf, delimiter)
    case LengthPrefixed(_, _, _, _) => LengthPrefixedFrom(inclusive, mode, buf)
    case StartEnd(_, _, _, _) => StartEndFrom(mode, buf)
  }

  /** Cut and emit frames until none is complete or the parser reports a fatal error. */
  function Drain(cfg: Config, s: State): (r: State)
    requires IsBuffered(s.mode)
    ensures IsBuffered(r.mode)
    decreases |s.buf|
  {
    var x := Extract(cfg.includeTerminators, s.mode, s.buf);
    var t := s.(mode := x.mode, buf := x.buf);
    match x.frame
    case None => t
    case Some(data) =>
      var u := EmitFrame(cfg, t, data);
      if FailedSince(t, u) then u else Drain(cfg, u)
  }

  function PushBuffered(cfg: Config, s: State, chunk: seq<byte>): (r: State)
    requires IsBuffered(s.mode)
    ensures IsBuffered(r.mode)
  {
    Drain(cfg, s.(buf := s.buf + chunk))
  }

  function PushBufferedAll(cfg: Config, s: State, chunks: seq<seq<byte>>): (r: State)
    requires IsBuffered(s.mode)
    ensures IsBuffered(r.mode)
    decreases |chunks|
  {
    if chunks == [] then s else PushBufferedAll(cfg, PushBuffered(cfg, s, chunks[0]), chunks[1..])
  }

  // ----- when a search does not depend on where the bytes were cut

  /** Once a CR is followed by something other than LF, no LF comes any more. */
  ghost predicate NoLfAfterBareCr(s: seq<byte>) {
    forall i, j :: 0 <= i && i + 1 < j < |s| && s[i] == CR && s[i + 1] != LF ==> s[j] != LF
  }

  /** The condition on a mode and all its pending input under which chunking is invisible. */
  ghost predicate ChunkProof(mode: Mode, input: seq<byte>) {
    match mode
    case Line(AutoLf) => NoLfAfterBareCr(input)
    case Line(PendingCr(_)) => NoLfAfterBareCr(input)
    case StartEnd(start, _, includeMarkers, _) => NonEmptyMarkers(start) && Unambiguous(start, includeMarkers)
    case _ => true
  }

  /** The law that makes buffering sound: searching early or searching late cuts the same frames. */
  ghost predicate ChunkLaw(inclusive: bool, mode: Mode, buf: seq<byte>, more: seq<byte>)
    requires IsBuffered(mode)
  {
    var early, late := Extract(inclusive, mode, buf), Extract(inclusive, mode, buf + more);
    && (early.frame.Some? ==> late == early.(buf := early.buf + more))
    && (early.frame.None? ==> Extract(inclusive, early.mode, early.buf + more) == late)
    && ChunkProof(early.mode, early.buf + more)
  }

  lemma TakeFrameLater(inclusive: bool, mode: Mode, buf: seq<byte>, more: seq<byte>, split: nat, term: nat)
    requires split + term <= |buf|
    ensures
      var early := TakeFrame(inclusive, mode, buf, split, term);
      && TakeFrame(inclusive, mode, buf + more, split, term) == early.(buf := early.buf + more)
      && early.frame.Some? && early.mode == mode && early.buf == buf[split + term..]
  {
    assert (buf + more)[split + term..] == buf[split + term..] + more;
    assert (buf + more)[..split + term] == buf[..split + term];
    assert (buf + more)[..split] == buf[..split];
  }

  lemma LineByteLaw(inclusive: bool, mode: Mode, buf: seq<byte>, more: seq<byte>, b: byte)
    ensures
      var early, late := LineByte(inclusive, mode, buf, b), LineByte(inclusive, mode, buf + more, b);
      && (early.frame.Some? ==> late == early.(buf := early.buf + more))
      && (early.frame.None? ==> early == Extraction(mode, buf, None))
  {
    if b in buf {
      PositionIsStable(buf, more, b);
      TakeFrameLater(inclusive, mode, buf, more, Position(buf, b).value, 1);
    }
  }

  lemma UpToLaw(inclusive: bool, mode: Mode, buf: seq<byte>, more: seq<byte>, delimiter: seq<byte>)
    ensures
      var early, late := UpTo(inclusive, mode, buf, delimiter), UpTo(inclusive, mode, buf + more, delimiter);
      && (early.frame.Some? ==> late == early.(buf := early.buf + more))
      && (early.frame.None? ==> early == Extraction(mode, buf, None))
  {
    if FindSubsequence(buf, delimiter).Some? {
      FindIsStable(buf, more, delimiter);
      TakeFrameLater(inclusive, mode, buf, more, FindSubsequence(buf, delimiter).value, |delimiter|);
    }
  }

  lemma SuffixKeepsLfFree(s: seq<byte>, n: nat)
    requires n <= |s| && NoLfAfterBareCr(s)
    ensures NoLfAfterBareCr(s[n..])
  {
  }

  lemma AutoLineLaw(inclusive: bool, buf: seq<byte>, more: seq<byte>)
    requires NoLfAfterBareCr(buf + more)
    ensures ChunkLaw(inclusive, Line(AutoLf), buf, more)
  {
    if LF in buf {
      AutoLineLawAtLf(inclusive, buf, more);
    } else if CR in buf {
      AutoLineLawAtCr(inclusive, buf, more);
    }
  }

  lemma AutoLineLawAtCr(inclusive: bool, buf: seq<byte>, more: seq<byte>)
    requires NoLfAfterBareCr(buf + more) && LF !in buf && CR in buf
    ensures ChunkLaw(inclusive, Line(AutoLf), buf, more)
  {
    hide ChunkLaw, NoLfAfterBareCr;
    var cr := Position(buf, CR).value;
    if cr + 1 < |buf| {
      BareCrLaw(inclusive, buf, more, cr);
    } else {
      FinalCrLaw(inclusive, buf, more);
    }
  }

  lemma BareCrLaw(inclusive: bool, buf: seq<byte>, more: seq<byte>, cr: nat)
    requires NoLfAfterBareCr(buf + more) && LF !in buf && Position(buf, CR) == Some(cr) && cr + 1 < |buf|
    ensures ChunkLaw(inclusive, Line(AutoLf), buf, more)
  {
    hide Position, NoLfAfterBareCr, AutoLine, TakeFrame;
    BareCrIsCutTheSame(inclusive, buf, more, cr);
    TakeFrameLater(inclusive, Line(CrMode), buf, more, cr, 1);
  }

  lemma FinalCrLaw(inclusive: bool, buf: seq<byte>, more: seq<byte>)
    requires NoLfAfterBareCr(buf + more)
    requires LF !in buf && CR in buf && Position(buf, CR).value == |buf| - 1
    ensures ChunkLaw(inclusive, Line(AutoLf), buf, more)
  {
    assert AutoLine(inclusive, buf) == Extraction(Line(PendingCr(|buf| - 1)), buf, None);
    assert CR !in buf[..|buf| - 1];
    hide Position, NoLfAfterBareCr, AutoLine, AfterPendingCr;
    PendingCrLaw(inclusive, buf, more);
  }

  lemma BareCrIsCutTheSame(inclusive: bool, buf: seq<byte>, more: seq<byte>, cr: nat)
    requires NoLfAfterBareCr(buf + more) && LF !in buf && Position(buf, CR) == Some(cr) && cr + 1 < |buf|
    ensures AutoLine(inclusive, buf) == TakeFrame(inclusive, Line(CrMode), buf, cr, 1)
    ensures AutoLine(inclusive, buf + more) == TakeFrame(inclusive, Line(CrMode), buf + more, cr, 1)
  {
    hide Position, TakeFrame;
    PositionIsStable(buf, more, CR);
    BareCrExcludesLf(buf, more, cr);
  }

  lemma AutoLineLawAtLf(inclusive: bool, buf: seq<byte>, more: seq<byte>)
    requires NoLfAfterBareCr(buf + more) && LF in buf
    ensures ChunkLaw(inclusive, Line(AutoLf), buf, more)
  {
    hide Position, NoLfAfterBareCr, TakeFrame;
    PositionIsStable(buf, more, LF);
    var lf := Position(buf, LF).value;
    assert lf > 0 ==> (buf + more)[lf - 1] == buf[lf - 1];
    TakeFrameLater(inclusive, Line(AutoLf), buf, more, lf, 1);
    if lf > 0 {
      TakeFrameLater(inclusive, Line(AutoLf), buf, more, lf - 1, 2);
    }
    SuffixKeepsLfFree(buf + more, lf + 1);
    assert (buf + more)[lf + 1..] == buf[lf + 1..] + more;
  }

  lemma BareCrExcludesLf(buf: seq<byte>, more: seq<byte>, cr: nat)
    requires NoLfAfterBareCr(buf + more) && cr + 1 < |buf| && buf[cr] == CR && LF !in buf
    ensures LF !in buf + more
  {
    assert (buf + more)[cr] == CR && (buf + more)[cr + 1] == buf[cr + 1];
  }

  /** A CR at the end of the buffer: waiting for the next byte gives what looking at it at once gives. */
  lemma PendingCrLaw(inclusive: bool, buf: seq<byte>, more: seq<byte>)
    requires NoLfAfterBareCr(buf + more)
    requires buf != [] && buf[|buf| - 1] == CR && LF !in buf && CR !in buf[..|buf| - 1]
    ensures AfterPendingCr(inclusive, |buf| - 1, buf + more) == AutoLine(inclusive, buf + more)
  {
    hide Position;
    var all, cr := buf + more, |buf| - 1;
    assert forall i :: 0 <= i < |buf| ==> all[i] == buf[i];
    assert forall i :: 0 <= i < cr ==> buf[i] == buf[..cr][i];
    PositionIs(all, CR, cr);
    if more == [] {
      assert all == buf;
    } else if more[0] == LF {
      PositionIs(all, LF, cr + 1);
    } else {
      BareCrAtEnd(buf, more);
    }
  }

  /** Another byte than LF behind the final CR: no LF comes at all. */
  lemma BareCrAtEnd(buf: seq<byte>, more: seq<byte>)
    requires NoLfAfterBareCr(buf + more) && buf != [] && buf[|buf| - 1] == CR && LF !in buf
    requires more != [] && more[0] != LF
    ensures LF !in buf + more
  {
    var all, cr := buf + more, |buf| - 1;
    assert all[cr] == CR && all[cr + 1] == more[0];
    forall j | 0 <= j < |all| ensures all[j] != LF {
      assert j < |buf| ==> all[j] == buf[j];
    }
  }

  lemma AfterPendingCrLaw(inclusive: bool, cr: nat, buf: seq<byte>, more: seq<byte>)
    requires NoLfAfterBareCr(buf + more)
    ensures ChunkLaw(inclusive, Line(PendingCr(cr)), buf, more)
  {
    if cr + 1 < |buf| {
      var all := buf + more;
      assert all[cr + 1] == buf[cr + 1];
      TakeFrameLater(inclusive, Line(CrMode), buf, more, cr, 1);
      if buf[cr + 1] == LF {
        TakeFrameLater(inclusive, Line(AutoLf), buf, more, cr, 2);
        SuffixKeepsLfFree(all, cr + 2);
        assert all[cr + 2..] == buf[cr + 2..] + more;
      }
    }
  }

  lemma PrefixedPayloadLaw(inclusive: bool, mode: Mode, buf: seq<byte>, more: seq<byte>)
    requires mode.LengthPrefixed?
    ensures
      var early, late := PrefixedPayload(inclusive, mode, buf), PrefixedPayload(inclusive, mode, buf + more);
      && early.mode.remainingOffset == mode.remainingOffset
      && (early.frame.Some? ==> late == early.(buf := early.buf + more))
      && (early.frame.None? ==> early.buf == buf && PrefixedPayload(inclusive, early.mode, buf + more) == late)
  {
    if PayloadLen(mode, buf).Some? {
      assert mode.prefixSize <= |buf| ==> (buf + more)[..mode.prefixSize] == buf[..mode.prefixSize];
      var total := mode.prefixSize + PayloadLen(mode, buf).value;
      if total <= |buf| {
        assert (buf + more)[total..] == buf[total..] + more;
        assert (buf + more)[..total] == buf[..total];
        assert (buf + more)[mode.prefixSize..total] == buf[mode.prefixSize..total];
      }
    }
  }

  lemma LengthPrefixedLaw(inclusive: bool, mode: Mode, buf: seq<byte>, more: seq<byte>)
    requires mode.LengthPrefixed?
    ensures
      var early, late := LengthPrefixedFrom(inclusive, mode, buf), LengthPrefixedFrom(inclusive, mode, buf + more);
      && (early.frame.Some? ==> late == early.(buf := early.buf + more))
      && (early.frame.None? ==> LengthPrefixedFrom(inclusive, early.mode, early.buf + more) == late)
  {
    if mode.remainingOffset <= |buf| {
      var ready, rest := mode.(remainingOffset := 0), buf[mode.remainingOffset..];
      assert (buf + more)[mode.remainingOffset..] == rest + more;
      assert LengthPrefixedFrom(inclusive, mode, buf) == PrefixedPayload(inclusive, ready, rest);
      assert LengthPrefixedFrom(inclusive, mode, buf + more) == PrefixedPayload(inclusive, ready, rest + more);
      PrefixedPayloadLaw(inclusive, ready, rest, more);
      OffsetIsSpent(inclusive, PrefixedPayload(inclusive, ready, rest).mode, rest + more);
    } else {
      LengthPrefixedSkipping(inclusive, mode, buf, more);
      assert [] + more == more;
    }
  }

  lemma OffsetIsSpent(inclusive: bool, mode: Mode, buf: seq<byte>)
    requires mode.LengthPrefixed? && mode.remainingOffset == 0
    ensures LengthPrefixedFrom(inclusive, mode, buf) == PrefixedPayload(inclusive, mode, buf)
  {
    assert buf[0..] == buf;
  }

  lemma LengthPrefixedSkipping(inclusive: bool, mode: Mode, buf: seq<byte>, more: seq<byte>)
    requires mode.LengthPrefixed? && |buf| < mode.remainingOffset
    ensures
      var early := LengthPrefixedFrom(inclusive, mode, buf);
      && early.frame.None? && early.buf == []
      && LengthPrefixedFrom(inclusive, early.mode, more) == LengthPrefixedFrom(inclusive, mode, buf + more)
  {
    var early := LengthPrefixedFrom(inclusive, mode, buf);
    assert buf[|buf|..] == [];
    assert early.mode.remainingOffset == mode.remainingOffset - |buf|;
    var all := buf + more;
    if mode.remainingOffset < |all| {
      assert all[mode.remainingOffset..] == more[early.mode.remainingOffset..];
    } else {
      assert all[|all|..] == more[|more|..] == [];
    }
    assert PayloadLen(early.mode, []) == PayloadLen(mode, []);
    if mode.nextPayloadLen.Some? {
      assert early.mode.nextPayloadLen == mode.nextPayloadLen;
    }
  }

  lemma ToEndMarkerLaw(mode: Mode, buf: seq<byte>, more: seq<byte>)
    requires mode.StartEnd?
    ensures
      var early, late := ToEndMarker(mode, buf), ToEndMarker(mode, buf + more);
      && (early.frame.Some? ==> late == early.(buf := early.buf + more) && early.mode == mode.(inFrame := false))
      && (early.frame.None? ==>
            early == Extraction(mode.(inFrame := true), buf, None)
            && ToEndMarker(mode.(inFrame := true), buf + more) == late)
  {
    if FindSubsequence(buf, mode.end).Some? {
      FindIsStable(buf, more, mode.end);
      TakeFrameLater(mode.includeMarkers, mode.(inFrame := false), buf, more,
                     FindSubsequence(buf, mode.end).value, |mode.end|);
    }
  }

  lemma StartEndLaw(mode: Mode, buf: seq<byte>, more: seq<byte>)
    requires mode.StartEnd? && NonEmptyMarkers(mode.start) && Unambiguous(mode.start, mode.includeMarkers)
    ensures
      var early, late := StartEndFrom(mode, buf), StartEndFrom(mode, buf + more);
      && early.mode.StartEnd? && early.mode.(inFrame := mode.inFrame) == mode
      && (early.frame.Some? ==> late == early.(buf := early.buf + more))
      && (early.frame.None? ==> StartEndFrom(early.mode, early.buf + more) == late)
  {
    if mode.inFrame {
      ToEndMarkerLaw(mode, buf, more);
    } else {
      var w := EarliestStartWins(buf, mode.start);
      if EarliestStart(buf, mode.start).Some? {
        FoundStartLaw(mode, buf, more);
      } else {
        TrimmedStartLaw(mode, buf, more);
      }
    }
  }

  lemma FoundStartLaw(mode: Mode, buf: seq<byte>, more: seq<byte>)
    requires mode.StartEnd? && !mode.inFrame && EarliestStart(buf, mode.start).Some?
    requires NonEmptyMarkers(mode.start) && Unambiguous(mode.start, mode.includeMarkers)
    ensures
      var early, late := StartEndFrom(mode, buf), StartEndFrom(mode, buf + more);
      && early.mode.StartEnd? && early.mode.(inFrame := false) == mode
      && (early.frame.Some? ==> late == early.(buf := early.buf + more))
      && (early.frame.None? ==> StartEndFrom(early.mode, early.buf + more) == late)
  {
    var w := EarliestStartWins(buf, mode.start);
    var cut := CutAt(mode, EarliestStart(buf, mode.start).value);
    assert CutAt(mode, EarliestStart(buf + more, mode.start).value) == cut by {
      StartIsStable(buf, more, mode.start, mode.includeMarkers);
    }
    assert EarliestStart(buf + more, mode.start).Some? by {
      StartIsStable(buf, more, mode.start, mode.includeMarkers);
    }
    assert (buf + more)[cut..] == buf[cut..] + more;
    ToEndMarkerLaw(mode, buf[cut..], more);
  }

  lemma TrimmedStartLaw(mode: Mode, buf: seq<byte>, more: seq<byte>)
    requires mode.StartEnd? && !mode.inFrame && NonEmptyMarkers(mode.start) && Absent(buf, mode.start)
    ensures StartEndFrom(mode, Trim(buf, mode.start) + more) == StartEndFrom(mode, buf + more)
  {
    TrimLosesNoStart(buf, more, mode.start);
    TrimTwice(buf, more, mode.start);
    SameScan(mode, Trim(buf, mode.start) + more, buf + more, |buf| - |Trim(buf, mode.start)|);
  }

  lemma SameScan(mode: Mode, short: seq<byte>, all: seq<byte>, drop: nat)
    requires mode.StartEnd? && !mode.inFrame && drop <= |all| && short == all[drop..]
    requires
      var a, b := EarliestStart(short, mode.start), EarliestStart(all, mode.start);
      && (a.None? <==> b.None?)
      && (a.Some? ==> b.value.pos == a.value.pos + drop && b.value.len == a.value.len)
      && (a.None? ==> Trim(short, mode.start) == Trim(all, mode.start))
    ensures StartEndFrom(mode, short) == StartEndFrom(mode, all)
  {
    hide EarliestStart, Trim, ToEndMarker;
    if EarliestStart(short, mode.start).Some? {
      SameTail(short, all, drop, CutAt(mode, EarliestStart(short, mode.start).value));
    }
  }

  lemma SameTail(short: seq<byte>, all: seq<byte>, drop: nat, cut: nat)
    requires drop <= |all| && short == all[drop..]
    requires cut <= |short|
    ensures short[cut..] == all[cut + drop..]
  {
  }

  lemma ExtractLaw(inclusive: bool, mode: Mode, buf: seq<byte>, more: seq<byte>)
    requires IsBuffered(mode) && ChunkProof(mode, buf + more)
    ensures ChunkLaw(inclusive, mode, buf, more)
  {
    match mode
    case Line(Lf) => LineByteLaw(inclusive, mode, buf, more, LF);
    case Line(Cr) => LineByteLaw(inclusive, mode, buf, more, CR);
    case Line(CrMode) => LineByteLaw(inclusive, mode, buf, more, CR);
    case Line(Crlf) => UpToLaw(inclusive, mode, buf, more, [CR, LF]);
    case Line(AutoLf) => AutoLineLaw(inclusive, buf, more);
    case Line(PendingCr(cr)) => AfterPendingCrLaw(inclusive, cr, buf, more);
    case Delimiter(d) => UpToLaw(inclusive, mode, buf, more, d);
    case LengthPrefixed(_, _, _, _) => LengthPrefixedLaw(inclusive, mode, buf, more);
    case StartEnd(_, _, _, _) => StartEndLaw(mode, buf, more);
  }

  // ----- chunk independence of whole runs

  lemma {:induction false} DrainInTwoParts(cfg: Config, s: State, more: seq<byte>)
    requires IsBuffered(s.mode) && ChunkProof(s.mode, s.buf + more)
    requires NoFailure(PushBuffered(cfg, s, more).log)
    ensures
      var first := Drain(cfg, s);
      && PushBuffered(cfg, first, more) == PushBuffered(cfg, s, more)
      && ChunkProof(first.mode, first.buf + more)
    decreases |s.buf|
  {
    hide Drain, Extract, EmitFrame, ChunkProof, NoFailure;
    var x := Extract(cfg.includeTerminators, s.mode, s.buf);
    if x.frame.Some? {
      CutInTwoParts(cfg, s, more, x);
      DrainInTwoParts(cfg, EmitFrame(cfg, s.(mode := x.mode, buf := x.buf), x.frame.value), more);
    } else {
      NoCutInTwoParts(cfg, s, more, x);
    }
  }

  /** The next frame comes out alike before and after more bytes arrive. */
  lemma CutInTwoParts(cfg: Config, s: State, more: seq<byte>, x: Extraction)
    requires IsBuffered(s.mode) && ChunkProof(s.mode, s.buf + more)
    requires x == Extract(cfg.includeTerminators, s.mode, s.buf) && x.frame.Some?
    requires NoFailure(PushBuffered(cfg, s, more).log)
    ensures
      var u := EmitFrame(cfg, s.(mode := x.mode, buf := x.buf), x.frame.value);
      && IsBuffered(u.mode) && |u.buf| < |s.buf| && ChunkProof(u.mode, u.buf + more)
      && Drain(cfg, s) == Drain(cfg, u) && PushBuffered(cfg, s, more) == PushBuffered(cfg, u, more)
  {
    hide Extract, ChunkProof;
    ExtractLaw(cfg.includeTerminators, s.mode, s.buf, more);
    var u := EmitFrame(cfg, s.(mode := x.mode, buf := x.buf), x.frame.value);
    assert EmitFrame(cfg, s.(mode := x.mode, buf := x.buf + more), x.frame.value) == u.(buf := u.buf + more);
  }

  lemma {:induction false} NoCutInTwoParts(cfg: Config, s: State, more: seq<byte>, x: Extraction)
    requires IsBuffered(s.mode) && ChunkProof(s.mode, s.buf + more)
    requires x == Extract(cfg.includeTerminators, s.mode, s.buf) && x.frame.None?
    ensures
      var first := Drain(cfg, s);
      && first == s.(mode := x.mode, buf := x.buf) && ChunkProof(first.mode, first.buf + more)
      && PushBuffered(cfg, first, more) == PushBuffered(cfg, s, more)
  {
    hide Extract, ChunkProof;
    ExtractLaw(cfg.includeTerminators, s.mode, s.buf, more);
  }

  /**
    Chunk independence: from a drained state whose pending input is chunk-proof, every chunking of a
    stream that causes no fatal parser error gives the same frames, reports, buffer and mode.
   */
  lemma {:induction false} BufferedChunkIndependence(cfg: Config, s: State, chunks: seq<seq<byte>>)
    requires IsBuffered(s.mode) && Drain(cfg, s) == s
    requires ChunkProof(s.mode, s.buf + Join(chunks))
    requires NoFailure(PushBuffered(cfg, s, Join(chunks)).log)
    ensures PushBufferedAll(cfg, s, chunks) == PushBuffered(cfg, s, Join(chunks))
    decreases |chunks|
  {
    hide Drain, ChunkProof, NoFailure;
    if chunks == [] {
      assert s.buf + [] == s.buf;
    } else {
      var rest := Join(chunks[1..]);
      var t := s.(buf := s.buf + chunks[0]);
      var mid := PushBuffered(cfg, s, chunks[0]);
      assert t.buf + rest == s.buf + Join(chunks);
      DrainInTwoParts(cfg, t, rest);
      DrainIsFinal(cfg, t, rest);
      BufferedChunkIndependence(cfg, mid, chunks[1..]);
    }
  }

  /** Draining twice is draining once, unless the first drain stopped at a failure. */
  lemma {:induction false} DrainIsFinal(cfg: Config, s: State, more: seq<byte>)
    requires IsBuffered(s.mode) && ChunkProof(s.mode, s.buf + more)
    requires NoFailure(PushBuffered(cfg, s, more).log)
    ensures Drain(cfg, Drain(cfg, s)) == Drain(cfg, s)
    decreases |s.buf|
  {
    hide Drain, Extract, EmitFrame, NoFailure;
    var x := Extract(cfg.includeTerminators, s.mode, s.buf);
    if x.frame.Some? {
      CutInTwoParts(cfg, s, more, x);
      DrainIsFinal(cfg, EmitFrame(cfg, s.(mode := x.mode, buf := x.buf), x.frame.value), more);
    } else {
      NoCutInTwoParts(cfg, s, more, x);
      SearchIsIdempotent(cfg.includeTerminators, s.mode, s.buf);
      NothingMoreToDrain(cfg, s.(mode := x.mode, buf := x.buf));
    }
  }

  lemma NothingMoreToDrain(cfg: Config, s: State)
    requires IsBuffered(s.mode)
    requires Extract(cfg.includeTerminators, s.mode, s.buf) == Extraction(s.mode, s.buf, None)
    ensures Drain(cfg, s) == s
  {
    hide Extract;
  }

  /** A search that found nothing leaves a state in which searching again changes nothing. */
  lemma SearchIsIdempotent(inclusive: bool, mode: Mode, buf: seq<byte>)
    requires IsBuffered(mode) && Extract(inclusive, mode, buf).frame.None?
    requires mode.StartEnd? ==> NonEmptyMarkers(mode.start)
    ensures
      var x := Extract(inclusive, mode, buf);
      Extract(inclusive, x.mode, x.buf) == x
  {
    match mode
    case StartEnd(_, _, _, _) => StartEndSearchIsIdempotent(mode, buf);
    case LengthPrefixed(_, _, _, _) => LengthPrefixedSearchIsIdempotent(inclusive, mode, buf);
    case Delimiter(_) =>
    case Line(AutoLf) => AutoSearchIsIdempotent(inclusive, buf);
    case Line(PendingCr(_)) =>
    case Line(_) =>
  }

  lemma AutoSearchIsIdempotent(inclusive: bool, buf: seq<byte>)
    requires AutoLine(inclusive, buf).frame.None?
    ensures
      var x := AutoLine(inclusive, buf);
      && x.buf == buf
      && (x.mode == Line(AutoLf)
          || exists cr: nat :: x.mode == Line(PendingCr(cr)) && AfterPendingCr(inclusive, cr, buf) == x)
  {
    if CR in buf {
      var cr := Position(buf, CR).value;
      assert AfterPendingCr(inclusive, cr, buf) == AutoLine(inclusive, buf);
    }
  }

  lemma LengthPrefixedSearchIsIdempotent(inclusive: bool, mode: Mode, buf: seq<byte>)
    requires mode.LengthPrefixed? && LengthPrefixedFrom(inclusive, mode, buf).frame.None?
    ensures
      var x := LengthPrefixedFrom(inclusive, mode, buf);
      LengthPrefixedFrom(inclusive, x.mode, x.buf) == x
  {
    LengthPrefixedLaw(inclusive, mode, buf, []);
    assert LengthPrefixedFrom(inclusive, mode, buf).buf + [] == LengthPrefixedFrom(inclusive, mode, buf).buf;
    assert buf + [] == buf;
  }

  lemma StartEndSearchIsIdempotent(mode: Mode, buf: seq<byte>)
    requires mode.StartEnd? && NonEmptyMarkers(mode.start) && StartEndFrom(mode, buf).frame.None?
    ensures
      var x := StartEndFrom(mode, buf);
      x.mode.StartEnd? && StartEndFrom(x.mode, x.buf) == x
  {
    var w := EarliestStartWins(buf, mode.start);
    if !mode.inFrame && EarliestStart(buf, mode.start).None? {
      TrimmedStartLaw(mode, buf, []);
      assert Trim(buf, mode.start) + [] == Trim(buf, mode.start) && buf + [] == buf;
    }
  }

  /** A new decoder has nothing to drain. */
  lemma {:induction false} FreshIsDrained(cfg: Config, mode: Mode)
    requires IsBuffered(mode) && (mode.Line? ==> !mode.line.PendingCr?)
    requires mode.StartEnd? ==> !mode.inFrame && NonEmptyMarkers(mode.start)
    requires mode.LengthPrefixed? ==> mode.nextPayloadLen.None?
    ensures Drain(cfg, Fresh(mode)) == Fresh(mode)
  {
    if mode.StartEnd? {
      var w := EarliestStartWins([], mode.start);
    }
    assert Extract(cfg.includeTerminators, mode, []).frame.None?;
  }
}
