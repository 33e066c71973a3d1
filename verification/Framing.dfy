/** Frames, decoder states and frame emission, shared by every RX framing mode. */
module Framing {
  import opened Bytes

  const SLIP_END: byte := 0xC0
  const SLIP_ESC: byte := 0xDB
  const SLIP_ESC_END: byte := 0xDC
  const SLIP_ESC_ESC: byte := 0xDD

  // ----- frames, errors and the frame parser

  datatype FrameType =
    LineFrame | DelimiterFrame | LengthPrefixedFrame | StartEndFrame | SlipFrame | CobsFrame

  datatype ParsedFrame = ParsedFrame(parser: string, fields: seq<string>)

  datatype Frame = Frame(data: seq<byte>, index: nat, frameType: FrameType, parsed: Option<ParsedFrame>)

  datatype DecodeError =
    | SlipInvalidEscape(code: byte)
    | CobsInvalidCode(code: byte)
    | ChecksumMismatch(expected: seq<byte>, received: seq<byte>)

  datatype ParseResult = Parsed(frame: ParsedFrame) | Rejected(error: DecodeError)

  /** Any deterministic frame parser. */
  type Parser = seq<byte> -> ParseResult

  datatype Config = Config(includeTerminators: bool, skipEmpty: bool, parser: Option<Parser>)

  /** Terminators stripped, nothing skipped, no parser. */
  const PLAIN: Config := Config(false, false, None)

  // ----- decoder state

  datatype SlipState = BeforeFirstEnd | SlipInFrame(payload: seq<byte>, escaped: bool)

  datatype CobsState =
    | BeforeFirstDelim
    | CobsInFrame(decoded: seq<byte>, remaining: nat, pendingZero: bool)

  datatype LineState = Lf | Cr | Crlf | AutoLf | PendingCr(pos: nat) | CrMode

  datatype Endianness = Big | Little

  /** Prefix sizes that decoder construction accepts. */
  type PrefixSize = n: nat | n == 1 || n == 2 || n == 4 witness 1

  datatype Mode =
    | Line(line: LineState)
    | Delimiter(delimiter: seq<byte>)
    | LengthPrefixed(prefixSize: PrefixSize, endianness: Endianness,
                     remainingOffset: nat, nextPayloadLen: Option<nat>)
    | StartEnd(start: seq<seq<byte>>, end: seq<byte>, includeMarkers: bool, inFrame: bool)
    | Slip(slip: SlipState)
    | Cobs(cobs: CobsState)

  /** What a decoder reports, in order: an emitted frame, a checksum drop, or a stream-fatal error. */
  datatype Event = Emitted(frame: Frame) | Dropped | Failed(error: DecodeError)

  /** A decoder together with everything it has reported since its creation. */
  datatype State = State(mode: Mode, buf: seq<byte>, count: nat, log: seq<Event>)

  function Fresh(mode: Mode): State {
    State(mode, [], 0, [])
  }

  function FrameTypeOf(mode: Mode): FrameType {
    match mode
    case Line(_) => LineFrame
    case Delimiter(_) => DelimiterFrame
    case LengthPrefixed(_, _, _, _) => LengthPrefixedFrame
    case StartEnd(_, _, _, _) => StartEndFrame
    case Slip(_) => SlipFrame
    case Cobs(_) => CobsFrame
  }

  // ----- emission

  predicate IsAsciiWhitespace(b: byte) {
    b == 0x20 || b == 0x09 || b == 0x0A || b == 0x0C || b == 0x0D
  }

  /** Empty, or ASCII whitespace only. */
  predicate IsBlankFrame(data: seq<byte>) {
    forall i :: 0 <= i < |data| ==> IsAsciiWhitespace(data[i])
  }

  /** What emitting `data` as frame number `count` reports: nothing when a blank frame is skipped. */
  function Emission(cfg: Config, count: nat, data: seq<byte>, frameType: FrameType): Option<Event> {
    if cfg.skipEmpty && IsBlankFrame(data) then None
    else match cfg.parser
      case None => Some(Emitted(Frame(data, count, frameType, None)))
      case Some(parse) =>
        match parse(data)
        case Parsed(p) => Some(Emitted(Frame(data, count, frameType, Some(p))))
        case Rejected(ChecksumMismatch(_, _)) => Some(Dropped)
        case Rejected(e) => Some(Failed(e))
  }

  /** Append a report to the log; only an emitted frame advances the frame counter. */
  function Record(s: State, e: Option<Event>): State {
    match e
    case None => s
    case Some(ev) => s.(count := if ev.Emitted? then s.count + 1 else s.count, log := s.log + [ev])
  }

  /** Emit `data` under the frame type of the current mode. */
  function EmitFrame(cfg: Config, s: State, data: seq<byte>): State {
    Record(s, Emission(cfg, s.count, data, FrameTypeOf(s.mode)))
  }

  predicate IsFatal(e: Option<Event>) {
    e.Some? && e.value.Failed?
  }

  /** `after` was reached from `before` by reporting a fatal error last. */
  predicate FailedSince(before: State, after: State) {
    |after.log| > |before.log| && after.log[|after.log| - 1].Failed?
  }

  predicate NoFailure(log: seq<Event>) {
    forall i :: 0 <= i < |log| ==> !log[i].Failed?
  }

  // ----- reading a log

  /** The frames among the reports, in order. */
  function Frames(log: seq<Event>): seq<Frame> {
    if log == [] then []
    else
      var rest := Frames(log[..|log| - 1]);
      var last := log[|log| - 1];
      if last.Emitted? then rest + [last.frame] else rest
  }

  /** The frame payloads among the reports, in order. */
  function Payloads(log: seq<Event>): seq<seq<byte>> {
    if log == [] then []
    else
      var rest := Payloads(log[..|log| - 1]);
      var last := log[|log| - 1];
      if last.Emitted? then rest + [last.frame.data] else rest
  }

  lemma LogAppend(log: seq<Event>, e: Event)
    ensures Frames(log + [e]) == Frames(log) + (if e.Emitted? then [e.frame] else [])
    ensures Payloads(log + [e]) == Payloads(log) + (if e.Emitted? then [e.frame.data] else [])
  {
    assert (log + [e])[..|log|] == log;
  }

  /** Emitted frames carry the indices 0, 1, 2, ... and the counter is the next one. */
  predicate Numbered(s: State) {
    && s.count == |Frames(s.log)|
    && forall k :: 0 <= k < |Frames(s.log)| ==> Frames(s.log)[k].index == k
  }

  lemma EmitKeepsNumbering(cfg: Config, s: State, data: seq<byte>)
    requires Numbered(s)
    ensures Numbered(EmitFrame(cfg, s, data))
  {
    match Emission(cfg, s.count, data, FrameTypeOf(s.mode))
    case None =>
    case Some(e) => LogAppend(s.log, e);
  }

  // ----- emission without a parser

  /** A frame as skip_empty treats it. */
  function KeptOne(cfg: Config, p: seq<byte>): seq<seq<byte>> {
    if cfg.skipEmpty && IsBlankFrame(p) then [] else [p]
  }

  /** What skip_empty lets through. */
  function Kept(cfg: Config, payloads: seq<seq<byte>>): seq<seq<byte>> {
    if payloads == [] then []
    else Kept(cfg, payloads[..|payloads| - 1]) + KeptOne(cfg, payloads[|payloads| - 1])
  }

  lemma KeptAppend(cfg: Config, payloads: seq<seq<byte>>, p: seq<byte>)
    ensures Kept(cfg, payloads + [p]) == Kept(cfg, payloads) + KeptOne(cfg, p)
  {
    assert (payloads + [p])[..|payloads|] == payloads;
  }

  lemma {:induction false} KeptIsAll(cfg: Config, payloads: seq<seq<byte>>)
    requires !cfg.skipEmpty
    ensures Kept(cfg, payloads) == payloads
    decreases |payloads|
  {
    if payloads != [] {
      KeptIsAll(cfg, payloads[..|payloads| - 1]);
    }
  }

  lemma EmitWithoutParser(cfg: Config, s: State, data: seq<byte>)
    requires cfg.parser.None? && NoFailure(s.log)
    ensures
      var r := EmitFrame(cfg, s, data);
      && NoFailure(r.log)
      && Payloads(r.log) == Payloads(s.log) + KeptOne(cfg, data)
  {
    if !(cfg.skipEmpty && IsBlankFrame(data)) {
      LogAppend(s.log, Emitted(Frame(data, s.count, FrameTypeOf(s.mode), None)));
    }
  }
}
