/**
  From the TX setting to the RX setting: whatever the encoder of a mode sends, the decoder that construction
  gives for the matching setting receives.
 */
module EndToEnd {
  import opened Bytes
  import opened Framing
  import opened ByteMachine
  import opened StartMarkers
  import opened BufferedModes
  import opened BufferedRuns
  import opened FrameDecoding
  import opened TxEncoding
  import opened AutoRoundTrips
  import SlipCodec
  import CobsCodec
  import NmeaSentence

  // ----- what is sent

  /** The payloads that a mode's encoder accepts. */
  ghost predicate Accepts(tx: TxMode, payload: seq<byte>) {
    match tx
    case TxLine(_) => true
    case TxDelimiter(delimiter) => delimiter != []
    case TxLengthPrefixed(size, _) =>
      (size == 1 && |payload| <= 255) || (size == 2 && |payload| <= 65535) || size == 4
    case TxStartEnd(start, end) => start != [] && start[0] != [] && end != []
    case TxSlip => true
    case TxCobs => true
    case TxNmea =>
      && (forall i :: 0 <= i < |payload| ==> 0x20 <= payload[i] <= 0x7E)
      && forall core, v: nat :: NmeaSentence.Claims(NmeaSentence.Body(payload), core, v) ==>
           v == NmeaSentence.XorChecksum(core)
  }

  /** Encoding fails exactly on the other payloads. */
  lemma EncodeAcceptsExactlyWhen(tx: TxMode, payload: seq<byte>)
    ensures Encode(tx, payload).Ok? <==> Accepts(tx, payload)
  {
    if tx.TxNmea? {
      NmeaSentence.AcceptedExactlyWhen(payload);
    }
  }

  /** The prefix bytes in both orders, and the line terminators. */
  lemma StandardBytes(payload: seq<byte>)
    ensures |payload| == 258 ==> Encode(TxLengthPrefixed(2, Big), payload) == Ok([1, 2] + payload)
    ensures |payload| == 258 ==> Encode(TxLengthPrefixed(2, Little), payload) == Ok([2, 1] + payload)
    ensures Encode(TxLine(TxLf), payload) == Ok(payload + [0x0A])
    ensures Encode(TxLine(TxCr), payload) == Ok(payload + [0x0D])
    ensures Encode(TxLine(TxCrlf), payload) == Ok(payload + [0x0D, 0x0A])
  {
    assert LengthPrefix(0, 0, Big) == [] && LengthPrefix(0, 0, Little) == [];
    assert LengthPrefix(1, 1, Big) == [1] && LengthPrefix(1, 1, Little) == [1];
    assert LengthPrefix(258, 2, Big) == LengthPrefix(1, 1, Big) + [2];
    assert LengthPrefix(258, 2, Little) == [2] + LengthPrefix(1, 1, Little);
    if |payload| == 258 {
      assert LengthPrefix(|payload|, 2, Big) == [1, 2] && LengthPrefix(|payload|, 2, Little) == [2, 1];
    }
  }

  // ----- what is received

  /** The RX setting for what a TX setting sends. */
  function RxFor(tx: TxMode): RxMode {
    match tx
    case TxLine(TxLf) => RxLf
    case TxLine(TxCr) => RxCr
    case TxLine(TxCrlf) => RxCrlf
    case TxDelimiter(delimiter) => RxDelimiter(delimiter)
    case TxLengthPrefixed(size, endianness) => RxLengthPrefixed(size, endianness, 0)
    case TxStartEnd(start, end) => RxStartEnd(start, end, false)
    case TxSlip => RxSlip
    case TxCobs => RxCobs
    case TxNmea => RxStartEnd(LEADS, [CR, LF], false)
  }

  /** The payloads that survive the link, a condition on the payload and the setting alone. */
  ghost predicate CanCarry(tx: TxMode, payload: seq<byte>) {
    && Accepts(tx, payload)
    && match tx
       case TxLine(ending) => IsOneLine(payload, ending)
       case TxDelimiter(delimiter) => FreeOf(payload, delimiter)
       case TxLengthPrefixed(size, _) => |payload| < 0x1_0000_0000
       case TxStartEnd(start, end) => NonEmptyMarkers(start) && Unambiguous(start, false) && FreeOf(payload, end)
       case _ => true
  }

  /** What one payload becomes: itself, its whole transmission when terminators are kept, or the sentence body. */
  function Received(tx: TxMode, inclusive: bool, payload: seq<byte>): seq<byte> {
    match Encode(tx, payload)
    case Err(_) => []
    case Ok(code) =>
      if tx.TxNmea? then (if |code| >= 3 then SentenceBody(code) else [])
      else if inclusive && (tx.TxLine? || tx.TxDelimiter? || tx.TxLengthPrefixed?) then code
      else payload
  }

  function ReceivedAll(tx: TxMode, inclusive: bool, payloads: seq<seq<byte>>): seq<seq<byte>> {
    seq(|payloads|, i requires 0 <= i < |payloads| => Received(tx, inclusive, payloads[i]))
  }

  ghost predicate AreSent(tx: TxMode, payloads: seq<seq<byte>>, codes: seq<seq<byte>>) {
    && |codes| == |payloads|
    && forall i :: 0 <= i < |payloads| ==> CanCarry(tx, payloads[i]) && Encode(tx, payloads[i]) == Ok(codes[i])
  }

  // ----- kept terminators

  /** With and without terminators the same bytes are cut off. */
  lemma CutsAlike(mode: Mode, buf: seq<byte>)
    requires Tiles(mode) && (mode.Line? ==> mode.line in {Lf, Cr, Crlf})
    ensures
      var x, y := Extract(false, mode, buf), Extract(true, mode, buf);
      x.mode == y.mode && x.buf == y.buf && (x.frame.Some? <==> y.frame.Some?)
  {
    hide FindSubsequence, Position, ReadLengthPrefix;
  }

  lemma KeptWhole(mode: Mode, code: seq<byte>, payload: seq<byte>)
    requires Tiles(mode) && (mode.Line? ==> mode.line in {Lf, Cr, Crlf}) && CutsTo(false, mode, code, payload)
    ensures CutsTo(true, mode, code, code)
  {
    CutsAlike(mode, code);
    ExtractTiles(mode, code);
    hide Extract;
    var y := Extract(true, mode, code);
    assert y.frame.value + [] == y.frame.value;
  }

  // ----- single transmissions

  lemma SentIsCut(tx: TxMode, inclusive: bool, payload: seq<byte>, code: seq<byte>)
    requires CanCarry(tx, payload) && Encode(tx, payload) == Ok(code) && !tx.TxSlip? && !tx.TxCobs?
    ensures InitialMode(RxFor(tx)).Some?
    ensures
      var mode := InitialMode(RxFor(tx)).value;
      IsBuffered(mode) && CutsTo(inclusive, mode, code, Received(tx, inclusive, payload))
  {
    hide CutsTo, IsOneLine, FreeOf, LengthPrefix, NmeaSentence.Encode, Unambiguous;
    match tx
    case TxLine(ending) => LineIsCut(ending, inclusive, payload);
    case TxDelimiter(delimiter) => DelimitedIsCut(delimiter, inclusive, payload);
    case TxLengthPrefixed(size, endianness) => PrefixedIsCut(size, endianness, inclusive, payload);
    case TxStartEnd(start, end) => MarkedIsCut(start, end, inclusive, payload);
    case TxNmea => NmeaIsCut(inclusive, payload, code);
  }

  lemma LineIsCut(ending: TxLineEnding, inclusive: bool, payload: seq<byte>)
    requires IsOneLine(payload, ending)
    ensures
      var code := payload + Terminator(ending);
      CutsTo(inclusive, LineModeFor(ending), code, if inclusive then code else payload)
  {
    hide CutsTo, IsOneLine;
    TerminatedLine(payload, ending);
    KeptWhole(LineModeFor(ending), payload + Terminator(ending), payload);
  }

  lemma DelimitedIsCut(delimiter: seq<byte>, inclusive: bool, payload: seq<byte>)
    requires delimiter != [] && FreeOf(payload, delimiter)
    ensures
      var code := payload + delimiter;
      CutsTo(inclusive, Delimiter(delimiter), code, if inclusive then code else payload)
  {
    hide CutsTo, FreeOf;
    DelimitedFrame(payload, delimiter);
    KeptWhole(Delimiter(delimiter), payload + delimiter, payload);
  }

  lemma {:induction false} PrefixedIsCut(size: PrefixSize, endianness: Endianness, inclusive: bool, payload: seq<byte>)
    requires (size == 1 && |payload| <= 255) || (size == 2 && |payload| <= 65535) || (size == 4 && |payload| < 0x1_0000_0000)
    ensures
      var code := LengthPrefix(|payload|, size, endianness) + payload;
      CutsTo(inclusive, LengthPrefixed(size, endianness, 0, None), code, if inclusive then code else payload)
  {
    hide CutsTo, LengthPrefix, PrefixRange;
    PrefixRanges();
    TxEncoding.LengthPrefixedFrame(payload, size, endianness);
    KeptWhole(LengthPrefixed(size, endianness, 0, None), LengthPrefix(|payload|, size, endianness) + payload, payload);
  }

  lemma MarkedIsCut(start: seq<seq<byte>>, end: seq<byte>, inclusive: bool, payload: seq<byte>)
    requires start != [] && NonEmptyMarkers(start) && end != [] && FreeOf(payload, end)
    ensures CutsTo(inclusive, StartEnd(start, end, false, false), start[0] + payload + end, payload)
  {
    hide FreeOf, Extract;
    TxEncoding.StartEndFrame(payload, start, end, false);
    IgnoresInclusive(StartEnd(start, end, false, false), start[0] + payload + end);
  }

  lemma NmeaIsCut(inclusive: bool, payload: seq<byte>, code: seq<byte>)
    requires NmeaSentence.Encode(payload) == Some(code)
    ensures |code| >= 3 && CutsTo(inclusive, StartEnd(LEADS, [CR, LF], false, false), code, SentenceBody(code))
  {
    hide Extract;
    NmeaSentence.EncodedShape(payload);
    SentenceIsCut(code);
    IgnoresInclusive(StartEnd(LEADS, [CR, LF], false, false), code);
  }

  lemma IgnoresInclusive(mode: Mode, buf: seq<byte>)
    requires mode.StartEnd?
    ensures Extract(true, mode, buf) == Extract(false, mode, buf)
  {
  }

  // ----- streams

  lemma {:induction false} EncodingsAreJoined(frame: seq<byte> -> seq<byte>, payloads: seq<seq<byte>>, codes: seq<seq<byte>>)
    requires |codes| == |payloads| && forall i :: 0 <= i < |codes| ==> codes[i] == frame(payloads[i])
    ensures Encodings(frame, payloads) == Join(codes)
    decreases |codes|
  {
    if codes != [] {
      var n := |codes| - 1;
      EncodingsAreJoined(frame, payloads[..n], codes[..n]);
      JoinAppend(codes[..n], codes[n]);
      assert codes == codes[..n] + [codes[n]];
    }
  }

  lemma BufferedLinkDelivers(tx: TxMode, inclusive: bool, payloads: seq<seq<byte>>, codes: seq<seq<byte>>, chunks: seq<seq<byte>>)
    requires !tx.TxSlip? && !tx.TxCobs? && AreSent(tx, payloads, codes) && Join(chunks) == Join(codes)
    requires InitialMode(RxFor(tx)).Some? && IsBuffered(InitialMode(RxFor(tx)).value)
    requires forall input :: ChunkProof(InitialMode(RxFor(tx)).value, input)
    ensures
      var mode := InitialMode(RxFor(tx)).value;
      Recovers(PushBufferedAll(Config(inclusive, false, None), Fresh(mode), chunks), mode, ReceivedAll(tx, inclusive, payloads))
  {
    hide CanCarry, ChunkProof, Extract, InitialMode;
    var cfg, mode := Config(inclusive, false, None), InitialMode(RxFor(tx)).value;
    forall i | 0 <= i < |codes| ensures CutsTo(inclusive, mode, codes[i], Received(tx, inclusive, payloads[i])) {
      SentIsCut(tx, inclusive, payloads[i], codes[i]);
    }
    ConstructedDecodersAreIdle(cfg, RxFor(tx));
    StreamRoundTrip(cfg, mode, codes, ReceivedAll(tx, inclusive, payloads), chunks);
  }

  lemma ModeIsChunkProof(tx: TxMode, payload: seq<byte>)
    requires CanCarry(tx, payload) && !tx.TxSlip? && !tx.TxCobs?
    ensures InitialMode(RxFor(tx)).Some? && IsBuffered(InitialMode(RxFor(tx)).value)
    ensures forall input :: ChunkProof(InitialMode(RxFor(tx)).value, input)
  {
    if tx.TxNmea? {
      PresetIsChunkProof(StartEnd(LEADS, [CR, LF], false, false));
    }
  }

  /** What a list of payloads becomes: SLIP without skip_empty shows the empty frames between transmissions. */
  function Delivered(tx: TxMode, cfg: Config, payloads: seq<seq<byte>>): seq<seq<byte>> {
    if tx.TxSlip? then (if cfg.skipEmpty then Kept(cfg, payloads) else SlipCodec.Interleaved(payloads))
    else if tx.TxCobs? then Kept(cfg, payloads)
    else ReceivedAll(tx, cfg.includeTerminators, payloads)
  }

  /**
    Every mode end to end: for every list of payloads that the setting can carry, every chunking of their
    transmissions makes the decoder constructed for the matching setting report exactly what was sent, in
    order, numbered from zero, without error and without anything left over.
   */
  lemma LinksDeliver(tx: TxMode, cfg: Config, payloads: seq<seq<byte>>, codes: seq<seq<byte>>, chunks: seq<seq<byte>>)
    requires cfg.parser.None? && (cfg.skipEmpty ==> tx.TxSlip? || tx.TxCobs?)
    requires payloads != [] && AreSent(tx, payloads, codes) && Join(chunks) == Join(codes)
    ensures InitialMode(RxFor(tx)).Some?
    ensures
      var r := PushAllSpec(cfg, Fresh(InitialMode(RxFor(tx)).value), chunks);
      r.buf == [] && Numbered(r) && Payloads(r.log) == Delivered(tx, cfg, payloads)
  {
    hide Extract, CanCarry, PushAllSpec, Numbered, Payloads, SlipCodec.Framed, CobsCodec.Framed;
    assert CanCarry(tx, payloads[0]);
    if tx.TxSlip? {
      SlipLinkDelivers(cfg, payloads, codes, chunks);
    } else if tx.TxCobs? {
      CobsLinkDelivers(cfg, payloads, codes, chunks);
    } else {
      ModeIsChunkProof(tx, payloads[0]);
      BufferedLinkDelivers(tx, cfg.includeTerminators, payloads, codes, chunks);
      SpecsAgree(cfg, Fresh(InitialMode(RxFor(tx)).value), chunks);
    }
  }

  lemma {:induction false} SlipLinkDelivers(cfg: Config, payloads: seq<seq<byte>>, codes: seq<seq<byte>>, chunks: seq<seq<byte>>)
    requires cfg.parser.None? && |codes| == |payloads| && Join(chunks) == Join(codes)
    requires forall i :: 0 <= i < |codes| ==> codes[i] == SlipCodec.Framed(payloads[i])
    ensures
      var r := PushAllSpec(cfg, Fresh(Slip(BeforeFirstEnd)), chunks);
      && r.buf == [] && Numbered(r)
      && Payloads(r.log) == if cfg.skipEmpty then Kept(cfg, payloads) else SlipCodec.Interleaved(payloads)
  {
    hide PushAllSpec, Numbered, SlipCodec.Framed;
    EncodingsAreJoined(SlipCodec.Framed, payloads, codes);
    SlipCodec.SlipRoundTrip(cfg, payloads, chunks);
    SpecsAgree(cfg, Fresh(Slip(BeforeFirstEnd)), chunks);
  }

  lemma {:induction false} CobsLinkDelivers(cfg: Config, payloads: seq<seq<byte>>, codes: seq<seq<byte>>, chunks: seq<seq<byte>>)
    requires cfg.parser.None? && |codes| == |payloads| && Join(chunks) == Join(codes)
    requires forall i :: 0 <= i < |codes| ==> codes[i] == CobsCodec.Framed(payloads[i])
    ensures
      var r := PushAllSpec(cfg, Fresh(Cobs(BeforeFirstDelim)), chunks);
      r.buf == [] && Numbered(r) && Payloads(r.log) == Kept(cfg, payloads)
  {
    hide PushAllSpec, Numbered, CobsCodec.Framed, Run;
    EncodingsAreJoined(CobsCodec.Framed, payloads, codes);
    SpecsAgree(cfg, Fresh(Cobs(BeforeFirstDelim)), chunks);
    CobsCodec.EncodingsDecode(cfg, payloads);
    ChunkingIsInvisible(cfg, Fresh(Cobs(BeforeFirstDelim)), chunks);
    ByteMachine.PushesKeepNumbering(cfg, Cobs(BeforeFirstDelim), chunks);
  }

  /** The settings that construction refuses. */
  lemma RefusedExactlyWhen(rx: RxMode)
    ensures InitialMode(rx).None? <==>
      match rx
      case RxDelimiter(delimiter) => |delimiter| == 0
      case RxLengthPrefixed(size, _, _) => size !in {1, 2, 4}
      case RxStartEnd(start, end, _) => |start| == 0 || |end| == 0 || exists i :: 0 <= i < |start| && |start[i]| == 0
      case _ => false
  {
  }

  /** The same for `auto`, which receives each line ending; a single CR line waits for its next byte. */
  lemma {:induction false} AutoLinkDelivers(payloads: seq<seq<byte>>, codes: seq<seq<byte>>, ending: TxLineEnding, chunks: seq<seq<byte>>)
    requires |codes| == |payloads| && Join(chunks) == Join(codes)
    requires forall i :: 0 <= i < |payloads| ==>
      CR !in payloads[i] && LF !in payloads[i] && Encode(TxLine(ending), payloads[i]) == Ok(codes[i])
    requires ending.TxCr? ==> |payloads| != 1
    ensures InitialMode(RxAuto).Some?
    ensures
      var r := PushAllSpec(PLAIN, Fresh(InitialMode(RxAuto).value), chunks);
      Payloads(r.log) == payloads && r.buf == []
  {
    hide PushAllSpec, Join, Payloads;
    assert AreLines(payloads, codes, ending) && AllPlain(payloads);
    AutoRoundTripExactlyWhen(payloads, codes, ending);
    assert Payloads(AutoRun(chunks).log) == payloads && AutoRun(chunks).buf == [];
    SpecsAgree(PLAIN, Fresh(Line(AutoLf)), chunks);
  }

  /** And for start/end framing that keeps its markers: whole transmissions are received. */
  lemma MarkedLinkDelivers(start: seq<seq<byte>>, end: seq<byte>, payloads: seq<seq<byte>>, codes: seq<seq<byte>>,
                           chunks: seq<seq<byte>>)
    requires start != [] && end != [] && NonEmptyMarkers(start) && Unambiguous(start, true)
    requires |codes| == |payloads| && Join(chunks) == Join(codes)
    requires forall i :: 0 <= i < |payloads| ==>
      Encode(TxStartEnd(start, end), payloads[i]) == Ok(codes[i]) && FreeOf(start[0] + payloads[i], end)
    ensures InitialMode(RxStartEnd(start, end, true)).Some?
    ensures
      var r := PushAllSpec(PLAIN, Fresh(InitialMode(RxStartEnd(start, end, true)).value), chunks);
      r.buf == [] && Numbered(r) && Payloads(r.log) == codes
  {
    hide PushAllSpec, Join, FreeOf, Unambiguous, Numbered;
    StartEndRoundTrip(payloads, codes, start, end, true, chunks);
    SpecsAgree(PLAIN, Fresh(StartEnd(start, end, true, false)), chunks);
  }

  // ----- the initial offset

  lemma OffsetIsSkipped(inclusive: bool, mode: Mode, junk: seq<byte>, rest: seq<byte>)
    requires mode.LengthPrefixed? && |junk| == mode.remainingOffset
    ensures Extract(inclusive, mode, junk + rest) == Extract(inclusive, mode.(remainingOffset := 0), rest)
  {
    OffsetIsSpent(inclusive, mode.(remainingOffset := 0), rest);
    assert (junk + rest)[|junk|..] == rest;
  }

  lemma SameExtractSameDrain(cfg: Config, s: State, t: State)
    requires IsBuffered(s.mode) && IsBuffered(t.mode) && s.log == t.log && s.count == t.count
    requires Extract(cfg.includeTerminators, s.mode, s.buf) == Extract(cfg.includeTerminators, t.mode, t.buf)
    ensures Drain(cfg, s) == Drain(cfg, t)
  {
    hide Extract;
  }

  /**
    An initial offset: whatever its bytes are, for every chunking they are dropped, and the payloads behind
    them are received.
   */
  lemma {:induction false} OffsetThenPayloads(size: nat, endianness: Endianness, inclusive: bool, junk: seq<byte>,
                                              payloads: seq<seq<byte>>, codes: seq<seq<byte>>, chunks: seq<seq<byte>>)
    requires payloads != [] && AreSent(TxLengthPrefixed(size, endianness), payloads, codes)
    requires Join(chunks) == junk + Join(codes)
    ensures
      var rx := RxLengthPrefixed(size, endianness, |junk|);
      && InitialMode(rx).Some?
      && var r := PushAllSpec(Config(inclusive, false, None), Fresh(InitialMode(rx).value), chunks);
         r.buf == [] && Payloads(r.log) == ReceivedAll(TxLengthPrefixed(size, endianness), inclusive, payloads)
  {
    hide Extract, Join, PushAllSpec, Drain;
    var tx, rx := TxLengthPrefixed(size, endianness), RxLengthPrefixed(size, endianness, |junk|);
    var cfg := Config(inclusive, false, None);
    assert CanCarry(tx, payloads[0]);
    var mode := InitialMode(rx).value;
    var ready := mode.(remainingOffset := 0);
    OffsetIsSkipped(inclusive, mode, junk, Join(codes));
    SameExtractSameDrain(cfg, Fresh(mode).(buf := junk + Join(codes)), Fresh(ready).(buf := Join(codes)));
    OnePushDelivers(tx, cfg, payloads, codes);
    FirstPush(cfg, mode, Join(chunks));
    FirstPush(cfg, ready, Join(codes));
    NeverFails(cfg, Fresh(mode).(buf := Join(chunks)));
    DecodersIgnoreChunking(cfg, rx, chunks);
  }

  lemma OnePushDelivers(tx: TxMode, cfg: Config, payloads: seq<seq<byte>>, codes: seq<seq<byte>>)
    requires cfg.parser.None? && !cfg.skipEmpty && tx.TxLengthPrefixed? && payloads != [] && AreSent(tx, payloads, codes)
    ensures InitialMode(RxFor(tx)).Some?
    ensures
      var r := PushSpec(cfg, Fresh(InitialMode(RxFor(tx)).value), Join(codes));
      r.buf == [] && Payloads(r.log) == ReceivedAll(tx, cfg.includeTerminators, payloads)
  {
    var none: seq<seq<byte>> := [];
    var stream := Join(codes);
    assert [stream][1..] == none && Join([stream]) == stream + Join(none) == stream;
    LinksDeliver(tx, cfg, payloads, codes, [stream]);
    var s := Fresh(InitialMode(RxFor(tx)).value);
    assert PushAllSpec(cfg, s, [stream]) == PushAllSpec(cfg, PushSpec(cfg, s, stream), none) == PushSpec(cfg, s, stream);
  }

  // ----- junk before a start marker

  /** Outside a frame a drained decoder holds fewer bytes than its longest start marker. */
  lemma {:induction false} JunkIsBounded(cfg: Config, s: State)
    requires s.mode.StartEnd? && s.mode.start != [] && NonEmptyMarkers(s.mode.start) && cfg.parser.None?
    ensures
      var r := Drain(cfg, s);
      r.mode.StartEnd? && !r.mode.inFrame ==>
        exists j :: 0 <= j < |s.mode.start| && |r.buf| < |s.mode.start[j]|
    decreases |s.buf|
  {
    hide Extract, EmitFrame;
    var x := Extract(cfg.includeTerminators, s.mode, s.buf);
    SearchKeepsLittle(cfg.includeTerminators, s.mode, s.buf);
    if x.frame.Some? {
      var t := s.(mode := x.mode, buf := x.buf);
      EmissionKeeps(cfg, t, x.frame.value);
      JunkIsBounded(cfg, EmitFrame(cfg, t, x.frame.value));
    }
  }

  lemma EmissionKeeps(cfg: Config, s: State, data: seq<byte>)
    requires cfg.parser.None?
    ensures
      var u := EmitFrame(cfg, s, data);
      u.mode == s.mode && u.buf == s.buf && !FailedSince(s, u)
  {
  }

  lemma SearchKeepsLittle(inclusive: bool, mode: Mode, buf: seq<byte>)
    requires mode.StartEnd? && mode.start != [] && NonEmptyMarkers(mode.start)
    ensures
      var x := Extract(inclusive, mode, buf);
      && x.mode.StartEnd? && x.mode.start == mode.start
      && (x.frame.None? && !x.mode.inFrame ==> exists j :: 0 <= j < |mode.start| && |x.buf| < |mode.start[j]|)
  {
    hide FindSubsequence, EarliestStart;
    var j := LongestIsOne(mode.start);
    assert |Trim(buf, mode.start)| < |mode.start[j]|;
  }

  lemma {:induction false} LongestIsOne(markers: seq<seq<byte>>) returns (j: nat)
    requires markers != [] && NonEmptyMarkers(markers)
    ensures j < |markers| && |markers[j]| == LongestMarker(markers)
    decreases |markers|
  {
    var n := |markers| - 1;
    if n == 0 || LongestMarker(markers[..n]) < |markers[n]| {
      j := n;
    } else {
      j := LongestIsOne(markers[..n]);
    }
  }
}
