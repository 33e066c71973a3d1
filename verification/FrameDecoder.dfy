/**
  The stateful decoder.  Every method updates the decoder in place; `Push` is proved to leave exactly
  the state that the specification functions compute, and to return exactly what was reported.
 */
module FrameDecoding {
  import opened Bytes
  import opened Framing
  import opened ByteMachine
  import opened StartMarkers
  import opened BufferedModes
  import opened BufferedRuns
  import opened AutoLineFraming

  // ----- configuration

  /** RX framing modes with delimiters and markers already decoded to bytes. */
  datatype RxMode =
    | RxAuto | RxLf | RxCr | RxCrlf
    | RxDelimiter(delimiter: seq<byte>)
    | RxLengthPrefixed(prefixSize: nat, endianness: Endianness, initialOffset: nat)
    | RxStartEnd(start: seq<seq<byte>>, end: seq<byte>, includeMarkers: bool)
    | RxSlip
    | RxCobs

  /** The initial decoder mode, or `None` where construction reports a configuration error. */
  function InitialMode(rx: RxMode): (r: Option<Mode>) {
    match rx
    case RxAuto => Some(Line(AutoLf))
    case RxLf => Some(Line(Lf))
    case RxCr => Some(Line(Cr))
    case RxCrlf => Some(Line(Crlf))
    case RxDelimiter(d) => if d == [] then None else Some(Delimiter(d))
    case RxLengthPrefixed(n, e, offset) =>
      if n == 1 || n == 2 || n == 4 then Some(LengthPrefixed(n, e, offset, None)) else None
    case RxStartEnd(start, end, includeMarkers) =>
      if start == [] || (exists i :: 0 <= i < |start| && start[i] == []) || end == [] then None
      else Some(StartEnd(start, end, includeMarkers, false))
    case RxSlip => Some(Slip(BeforeFirstEnd))
    case RxCobs => Some(Cobs(BeforeFirstDelim))
  }

  /** Every decoder that can be constructed starts settled and with nothing to drain. */
  lemma ConstructedDecodersAreIdle(cfg: Config, rx: RxMode)
    requires InitialMode(rx).Some?
    ensures
      var mode := InitialMode(rx).value;
      && Settled(mode)
      && (IsBuffered(mode) ==> Drain(cfg, Fresh(mode)) == Fresh(mode))
      && (mode.StartEnd? ==> NonEmptyMarkers(mode.start))
  {
    var mode := InitialMode(rx).value;
    if IsBuffered(mode) {
      FreshIsDrained(cfg, mode);
    }
  }

  // ----- push outcomes

  datatype PushOutcome = PushOutcome(frames: seq<Frame>, framesDropped: nat, error: Option<DecodeError>)

  const NOTHING: PushOutcome := PushOutcome([], 0, None)

  function Collect(o: PushOutcome, e: Event): PushOutcome {
    match e
    case Emitted(frame) => o.(frames := o.frames + [frame])
    case Dropped => o.(framesDropped := o.framesDropped + 1)
    case Failed(error) => o.(error := Some(error))
  }

  /** The outcome that a list of reports amounts to. */
  function OutcomeOf(events: seq<Event>): PushOutcome {
    if events == [] then NOTHING
    else Collect(OutcomeOf(events[..|events| - 1]), events[|events| - 1])
  }

  /** An outcome lists the emitted frames, counts the drops, and has an error exactly when one was reported. */
  lemma {:induction false} OutcomeListsFrames(events: seq<Event>)
    ensures OutcomeOf(events).frames == Frames(events)
    ensures OutcomeOf(events).framesDropped == multiset(events)[Dropped]
    ensures OutcomeOf(events).error.None? <==> NoFailure(events)
  {
    if events != [] {
      OutcomeListsFrames(events[..|events| - 1]);
      assert events == events[..|events| - 1] + [events[|events| - 1]];
    }
  }

  // ----- how far a push has come

  /** After `eaten` bytes without failure the byte machine stands at `cur`. */
  ghost predicate Reached(cfg: Config, s: State, input: seq<byte>, eaten: nat, cur: State)
    requires IsStream(s.mode)
  {
    && eaten <= |input| && IsStream(cur.mode)
    && cur == Run(cfg, s, input[..eaten])
    && Consumed(cfg, s, input) == eaten + Consumed(cfg, cur, input[eaten..])
  }

  lemma ReachedStart(cfg: Config, s: State, input: seq<byte>)
    requires IsStream(s.mode)
    ensures Reached(cfg, s, input, 0, s)
  {
    assert input[..0] == [] && input[0..] == input;
  }

  lemma {:induction false} Advance(cfg: Config, s: State, input: seq<byte>, eaten: nat, cur: State)
    requires IsStream(s.mode) && Reached(cfg, s, input, eaten, cur) && eaten < |input|
    ensures
      var next := Step(cfg, cur, input[eaten]);
      && next == Run(cfg, s, input[..eaten + 1])
      && (FailedSince(cur, next) ==> Consumed(cfg, s, input) == eaten + 1)
      && (!FailedSince(cur, next) ==> Reached(cfg, s, input, eaten + 1, next))
  {
    assert input[..eaten + 1][..eaten] == input[..eaten];
    assert input[eaten..][1..] == input[eaten + 1..];
  }

  /** All bytes read: this is where the push stops. */
  lemma ReachedEnd(cfg: Config, s: State, input: seq<byte>, cur: State)
    requires IsStream(s.mode) && Reached(cfg, s, input, |input|, cur)
    ensures
      var n := Consumed(cfg, s, input);
      n == |input| && cur == Run(cfg, s, input[..n]) && input[n..] == []
  {
  }

  /** Bytes outside a frame that do not open one change nothing. */
  lemma {:induction false} AdvanceOverJunk(cfg: Config, s: State, input: seq<byte>, eaten: nat, cur: State, upTo: nat)
    requires IsStream(s.mode) && Reached(cfg, s, input, eaten, cur) && eaten <= upTo <= |input|
    requires cur.mode == Slip(BeforeFirstEnd) || cur.mode == Cobs(BeforeFirstDelim)
    requires forall i :: eaten <= i < upTo ==> input[i] != if cur.mode.Slip? then SLIP_END else 0
    ensures Reached(cfg, s, input, upTo, cur)
    decreases upTo - eaten
  {
    if eaten < upTo {
      Advance(cfg, s, input, eaten, cur);
      AdvanceOverJunk(cfg, s, input, eaten + 1, cur, upTo);
    }
  }

  /** The first END or zero opens a frame. */
  lemma OpensFrame(cfg: Config, cur: State)
    ensures cur.mode == Slip(BeforeFirstEnd) ==>
      Step(cfg, cur, SLIP_END) == cur.(mode := Slip(SlipInFrame([], false)))
    ensures cur.mode == Cobs(BeforeFirstDelim) ==>
      Step(cfg, cur, 0) == cur.(mode := Cobs(CobsInFrame([], 0, false)))
  {
  }

  /** Where a push of a stream mode ends, in terms of the machine. */
  lemma PushEndsAt(cfg: Config, s: State, chunk: seq<byte>, eaten: nat, cur: State)
    requires IsStream(s.mode)
    requires
      var input := s.buf + chunk;
      && eaten == Consumed(cfg, s.(buf := []), input)
      && cur == Run(cfg, s.(buf := []), input[..eaten])
    ensures PushStream(cfg, s, chunk) == cur.(buf := (s.buf + chunk)[eaten..])
  {
    ConsumedIgnoresBuf(cfg, s, [], s.buf + chunk);
    RunIgnoresBuf(cfg, s, [], (s.buf + chunk)[..eaten]);
  }

  lemma {:induction false} ConsumedIgnoresBuf(cfg: Config, s: State, buf: seq<byte>, input: seq<byte>)
    requires IsStream(s.mode)
    ensures Consumed(cfg, s.(buf := buf), input) == Consumed(cfg, s, input)
    decreases |input|
  {
    if input != [] {
      StepIgnoresBuf(cfg, s, buf, input[0]);
      hide Step;
      ConsumedIgnoresBuf(cfg, Step(cfg, s, input[0]), buf, input[1..]);
    }
  }

  lemma StepIgnoresBuf(cfg: Config, s: State, buf: seq<byte>, b: byte)
    requires IsStream(s.mode)
    ensures Step(cfg, s.(buf := buf), b) == Step(cfg, s, b).(buf := buf)
  {
  }

  /** One turn of the drain loop. */
  lemma DrainUnfolds(cfg: Config, s: State)
    requires IsBuffered(s.mode)
    ensures
      var x := Extract(cfg.includeTerminators, s.mode, s.buf);
      var t := s.(mode := x.mode, buf := x.buf);
      && (x.frame.None? ==> Drain(cfg, s) == t)
      && (x.frame.Some? ==>
            var u := EmitFrame(cfg, t, x.frame.value);
            Drain(cfg, s) == if FailedSince(t, u) then u else Drain(cfg, u))
  {
  }

  // ----- the decoder

  function PushSpec(cfg: Config, s: State, chunk: seq<byte>): State {
    if IsStream(s.mode) then PushStream(cfg, s, chunk) else PushBuffered(cfg, s, chunk)
  }

  /** What a flush hands out: the decoded part of a SLIP or COBS frame, else the buffered bytes. */
  function Partial(s: State): seq<byte> {
    match s.mode
    case Slip(SlipInFrame(payload, _)) => payload
    case Cobs(CobsInFrame(decoded, _, _)) => decoded
    case _ => s.buf
  }

  /** Emit the partial bytes, if any, as an unparsed frame; nothing else of the mode is reset. */
  function Flushed(s: State): State {
    var data := Partial(s);
    if data == [] then s
    else
      var emitted := Record(s, Some(Emitted(Frame(data, s.count, FrameTypeOf(s.mode), None))));
      match s.mode
      case Slip(SlipInFrame(_, escaped)) => emitted.(mode := Slip(SlipInFrame([], escaped)))
      case Cobs(CobsInFrame(_, remaining, zero)) => emitted.(mode := Cobs(CobsInFrame([], remaining, zero)))
      case _ => emitted.(buf := [])
  }

  /** As a last call, a flush completes the record: with terminators kept, the frames are the whole input. */
  lemma FlushCompletesTheInput(s: State, chunks: seq<seq<byte>>)
    requires Tiles(s.mode) && s.buf == [] && s.log == []
    ensures
      var final := PushBufferedAll(Config(true, false, None), s, chunks);
      Join(Payloads(Flushed(final).log)) == Join(chunks) && Flushed(final).buf == []
  {
    var final := PushBufferedAll(Config(true, false, None), s, chunks);
    FramesAndBufferTileInput(Config(true, false, None), s, chunks);
    TilesThroughout(Config(true, false, None), s, chunks);
    assert Join(Payloads(s.log)) + s.buf + Join(chunks) == Join(chunks);
    if final.buf != [] {
      LogAppend(final.log, Emitted(Frame(final.buf, final.count, FrameTypeOf(final.mode), None)));
      JoinAppend(Payloads(final.log), final.buf);
    }
  }

  lemma {:induction false} TilesThroughout(cfg: Config, s: State, chunks: seq<seq<byte>>)
    requires Tiles(s.mode) && cfg == Config(true, false, None)
    ensures Tiles(PushBufferedAll(cfg, s, chunks).mode)
    decreases |chunks|
  {
    if chunks != [] {
      DrainTiles(cfg, s.(buf := s.buf + chunks[0]));
      TilesThroughout(cfg, PushBuffered(cfg, s, chunks[0]), chunks[1..]);
    }
  }

  function PushAllSpec(cfg: Config, s: State, chunks: seq<seq<byte>>): State
    decreases |chunks|
  {
    if chunks == [] then s else PushAllSpec(cfg, PushSpec(cfg, s, chunks[0]), chunks[1..])
  }

  lemma {:induction false} SpecsAgree(cfg: Config, s: State, chunks: seq<seq<byte>>)
    ensures IsBuffered(s.mode) ==> PushAllSpec(cfg, s, chunks) == PushBufferedAll(cfg, s, chunks)
    ensures IsStream(s.mode) ==> PushAllSpec(cfg, s, chunks) == PushStreamAll(cfg, s, chunks)
    decreases |chunks|
  {
    if chunks != [] {
      SpecsAgree(cfg, PushSpec(cfg, s, chunks[0]), chunks[1..]);
    }
  }

  /** Lf, cr, crlf, delimiter and length-prefixed decoders, and start/end with unambiguous markers. */
  ghost predicate IgnoresChunking(rx: RxMode) {
    match rx
    case RxAuto => false
    case RxStartEnd(start, _, includeMarkers) => Unambiguous(start, includeMarkers)
    case _ => true
  }

  /**
    Chunk independence of every constructible decoder but `auto`: when one push of the whole stream causes
    no fatal error, every chunking of it ends in the same state with the same reports.
   */
  lemma DecodersIgnoreChunking(cfg: Config, rx: RxMode, chunks: seq<seq<byte>>)
    requires InitialMode(rx).Some? && IgnoresChunking(rx)
    requires NoFailure(PushSpec(cfg, Fresh(InitialMode(rx).value), Join(chunks)).log)
    ensures
      var s := Fresh(InitialMode(rx).value);
      PushAllSpec(cfg, s, chunks) == PushSpec(cfg, s, Join(chunks))
  {
    hide PushAllSpec, PushBufferedAll, PushStreamAll, Join, NoFailure;
    var s := Fresh(InitialMode(rx).value);
    ConstructedDecodersAreIdle(cfg, rx);
    SpecsAgree(cfg, s, chunks);
    if IsBuffered(s.mode) {
      BufferedChunkIndependence(cfg, s, chunks);
    } else {
      StreamsIgnoreChunking(cfg, s, chunks);
    }
  }

  lemma StreamsIgnoreChunking(cfg: Config, s: State, chunks: seq<seq<byte>>)
    requires IsStream(s.mode) && s.buf == [] && s.log == []
    requires NoFailure(PushStream(cfg, s, Join(chunks)).log)
    ensures PushStreamAll(cfg, s, chunks) == PushStream(cfg, s, Join(chunks))
  {
    var input := Join(chunks);
    assert s.buf + input == input;
    PushReportsErrorsLast(cfg, s, input);
    assert PushStream(cfg, s, input).buf == [];
    assert Consumed(cfg, s, input) == |input| && input[..|input|] == input;
    RunIgnoresBuf(cfg, s, [], input);
    ChunkingIsInvisible(cfg, s, chunks);
  }

  class FrameDecoder {
    var buf: seq<byte>
    var mode: Mode
    var frameCount: nat
    const cfg: Config
    /** Everything reported since construction. */
    ghost var log: seq<Event>

    ghost function Abs(): State
      reads this
    {
      State(mode, buf, frameCount, log)
    }

    /** The machine state: the decoder without its unread bytes. */
    ghost function Machine(): State
      reads this
    {
      State(mode, [], frameCount, log)
    }

    ghost predicate Valid()
      reads this
    {
      Settled(mode)
    }

    constructor (mode: Mode, cfg: Config)
      requires Settled(mode)
      ensures Valid() && Abs() == Fresh(mode) && this.cfg == cfg
    {
      this.buf := [];
      this.mode := mode;
      this.frameCount := 0;
      this.cfg := cfg;
      this.log := [];
    }

    /** Emit one frame's data: skip, drop, fail or append a numbered frame to the outcome `o`. */
    method Emit(data: seq<byte>, o: PushOutcome, ghost n: nat) returns (r: PushOutcome, fatal: bool)
      requires n <= |log| && o == OutcomeOf(log[n..])
      modifies this`frameCount, this`log
      ensures Machine() == EmitFrame(cfg, old(Machine()), data)
      ensures fatal == IsFatal(Emission(cfg, old(frameCount), data, FrameTypeOf(mode)))
      ensures n <= |log| && r == OutcomeOf(log[n..])
    {
      r, fatal := o, false;
      if cfg.skipEmpty && IsBlankFrame(data) {
        return;
      }
      var parsed: Option<ParsedFrame> := None;
      if cfg.parser.Some? {
        match cfg.parser.value(data)
        case Parsed(p) => parsed := Some(p);
        case Rejected(ChecksumMismatch(_, _)) =>
          r := Report(Dropped, o, n);
          return;
        case Rejected(e) =>
          r := Report(Failed(e), o, n);
          fatal := true;
          return;
      }
      frameCount := frameCount + 1;
      r := Report(Emitted(Frame(data, frameCount - 1, FrameTypeOf(mode), parsed)), o, n);
    }

    /** Add a report to the outcome under construction and to the history. */
    method Report(e: Event, o: PushOutcome, ghost n: nat) returns (r: PushOutcome)
      requires n <= |log| && o == OutcomeOf(log[n..])
      modifies this`log
      ensures log == old(log) + [e]
      ensures r == OutcomeOf(log[n..])
    {
      log := log + [e];
      r := Collect(o, e);
      assert log[n..][..|log[n..]| - 1] == old(log)[n..];
    }

    // ----- SLIP

    /** One byte inside a SLIP frame. */
    method SlipByte(b: byte, o: PushOutcome, ghost n: nat) returns (outcome: PushOutcome, fatal: bool)
      requires mode.Slip? && mode.slip.SlipInFrame? && n <= |log| && o == OutcomeOf(log[n..])
      modifies this`mode, this`frameCount, this`log
      ensures Machine() == Step(cfg, old(Machine()), b)
      ensures fatal == FailedSince(old(Machine()), Machine())
      ensures mode.Slip? && (fatal || mode.slip.SlipInFrame?)
      ensures n <= |log| && outcome == OutcomeOf(log[n..])
    {
      outcome, fatal := o, false;
      var payload := mode.slip.payload;
      if mode.slip.escaped {
        if b == SLIP_ESC_END {
          mode := Slip(SlipInFrame(payload + [SLIP_END], false));
        } else if b == SLIP_ESC_ESC {
          mode := Slip(SlipInFrame(payload + [SLIP_ESC], false));
        } else {
          mode := Slip(BeforeFirstEnd);
          outcome := Report(Failed(SlipInvalidEscape(b)), o, n);
          fatal := true;
        }
      } else if b == SLIP_END {
        mode := Slip(SlipInFrame([], false));
        outcome, fatal := Emit(payload, o, n);
        if fatal {
          mode := Slip(BeforeFirstEnd);
        }
      } else if b == SLIP_ESC {
        mode := Slip(SlipInFrame(payload, true));
      } else {
        mode := Slip(SlipInFrame(payload + [b], false));
      }
    }

    /** Before the first END: drop the junk ahead of it, and the END itself. */
    method SkipToFirstEnd(ghost s: State, ghost input: seq<byte>) returns (found: bool, ghost eaten: nat)
      requires mode == Slip(BeforeFirstEnd) && IsStream(s.mode) && input == buf
      requires Reached(cfg, s, input, 0, Machine())
      modifies this`buf, this`mode
      ensures if found then mode == Slip(SlipInFrame([], false)) else mode == Slip(BeforeFirstEnd)
      ensures found ==>
        eaten <= |input| && buf == input[eaten..] && Reached(cfg, s, input, eaten, Machine())
      ensures !found ==> Arrived(s, input)
    {
      hide Run, Consumed, Step, Reached;
      eaten := 0;
      var pos := Position(buf, SLIP_END);
      found := pos.Some?;
      if !found {
        AdvanceOverJunk(cfg, s, input, 0, Machine(), |input|);
        ReachedEnd(cfg, s, input, Machine());
        buf := [];
        return;
      }
      AdvanceOverJunk(cfg, s, input, 0, Machine(), pos.value);
      Advance(cfg, s, input, pos.value, Machine());
      OpensFrame(cfg, Machine());
      buf := buf[pos.value + 1..];
      eaten := pos.value + 1;
      mode := Slip(SlipInFrame([], false));
    }

    method SlipDecode(ghost s: State, ghost input: seq<byte>) returns (outcome: PushOutcome)
      requires mode.Slip? && input == buf && s == Machine()
      modifies this`buf, this`mode, this`frameCount, this`log
      ensures mode.Slip?
      ensures |log| >= |s.log| && outcome == OutcomeOf(log[|s.log|..])
      ensures Arrived(s, input)
    {
      hide Run, Consumed, Step, Reached;
      outcome := NOTHING;
      ghost var eaten: nat := 0;
      ReachedStart(cfg, s, input);
      assert outcome == OutcomeOf(log[|s.log|..]);
      hide OutcomeOf, FailedSince, Settled;
      if mode.slip.BeforeFirstEnd? {
        var found;
        found, eaten := SkipToFirstEnd(s, input);
        if !found {
          return;
        }
      }
      var readPos := 0;
      while readPos < |buf|
        invariant readPos <= |buf| && eaten <= |input| && buf == input[eaten..]
        invariant mode.Slip? && mode.slip.SlipInFrame?
        invariant Reached(cfg, s, input, eaten + readPos, Machine())
        invariant |log| >= |s.log| && outcome == OutcomeOf(log[|s.log|..])
      {
        Advance(cfg, s, input, eaten + readPos, Machine());
        var fatal;
        outcome, fatal := SlipByte(buf[readPos], outcome, |s.log|);
        readPos := readPos + 1;
        if fatal {
          buf := buf[readPos..];
          return;
        }
      }
      ReachedEnd(cfg, s, input, Machine());
      buf := buf[readPos..];
    }

    /** The decoder stands where the byte machine stops, with the rest of `input` unread. */
    ghost predicate Arrived(s: State, input: seq<byte>)
      requires IsStream(s.mode)
      reads this
    {
      var n := Consumed(cfg, s, input);
      Machine() == Run(cfg, s, input[..n]) && buf == input[n..]
    }

    // ----- COBS

    /** One byte inside a COBS frame, the overdue implicit zero already inserted. */
    method CobsByte(b: byte, o: PushOutcome, ghost n: nat) returns (outcome: PushOutcome, fatal: bool)
      requires mode.Cobs? && mode.cobs.CobsInFrame? && n <= |log| && o == OutcomeOf(log[n..])
      modifies this`mode, this`frameCount, this`log
      ensures mode.Cobs? && SettledMachine() == Step(cfg, old(Machine()), b)
      ensures fatal == FailedSince(old(Machine()), Machine())
      ensures fatal ==> mode.cobs.BeforeFirstDelim?
      ensures n <= |log| && outcome == OutcomeOf(log[n..])
    {
      outcome, fatal := o, false;
      var CobsInFrame(decoded, remaining, pendingZero) := mode.cobs;
      if remaining > 0 {
        mode := Cobs(CobsInFrame(decoded + [b], remaining - 1, pendingZero));
      } else if b == 0 {
        var data := decoded;
        if data != [] && data[|data| - 1] == 0 {
          data := data[..|data| - 1];
        }
        outcome, fatal := Emit(data, o, n);
        mode := Cobs(BeforeFirstDelim);
      } else if b == 0xFF {
        mode := Cobs(CobsInFrame(decoded, 254, false));
      } else {
        mode := Cobs(CobsInFrame(decoded, b - 1, true));
      }
    }

    method CobsDecode(ghost s: State, ghost input: seq<byte>) returns (outcome: PushOutcome)
      requires mode.Cobs? && Settled(mode) && input == buf && s == Machine()
      modifies this`buf, this`mode, this`frameCount, this`log
      ensures mode.Cobs? && Settled(mode)
      ensures |log| >= |s.log| && outcome == OutcomeOf(log[|s.log|..])
      ensures Arrived(s, input)
    {
      hide Run, Consumed, Step, Reached;
      outcome := NOTHING;
      ghost var eaten: nat := 0;
      ReachedStart(cfg, s, input);
      while true
        invariant mode.Cobs? && Settled(mode) && eaten <= |input|
        invariant Reached(cfg, s, input, eaten, Machine()) && buf == input[eaten..]
        invariant |log| >= |s.log| && outcome == OutcomeOf(log[|s.log|..])
        decreases |buf|, mode.cobs.BeforeFirstDelim?
      {
        if mode.cobs.BeforeFirstDelim? {
          var pos := Position(buf, 0);
          if pos.None? {
            AdvanceOverJunk(cfg, s, input, eaten, Machine(), |input|);
            ReachedEnd(cfg, s, input, Machine());
            buf := [];
            return;
          }
          AdvanceOverJunk(cfg, s, input, eaten, Machine(), eaten + pos.value);
          Advance(cfg, s, input, eaten + pos.value, Machine());
          OpensFrame(cfg, Machine());
          buf := buf[pos.value + 1..];
          eaten := eaten + pos.value + 1;
          mode := Cobs(CobsInFrame([], 0, false));
        } else {
          var fatal;
          outcome, fatal, eaten := CobsFrame(s, input, outcome, eaten);
          if fatal || mode.cobs.CobsInFrame? {
            return;
          }
        }
      }
    }

    /** The inner loop: to the end of one frame, or of the buffer. */
    method CobsFrame(ghost s: State, ghost input: seq<byte>, o: PushOutcome, ghost start: nat)
      returns (outcome: PushOutcome, fatal: bool, ghost eaten: nat)
      requires mode.Cobs? && mode.cobs.CobsInFrame? && IsStream(s.mode) && start <= |input|
      requires Reached(cfg, s, input, start, SettledMachine()) && buf == input[start..]
      requires |log| >= |s.log| && o == OutcomeOf(log[|s.log|..])
      modifies this`buf, this`mode, this`frameCount, this`log
      ensures mode.Cobs? && Settled(mode)
      ensures |log| >= |s.log| && outcome == OutcomeOf(log[|s.log|..])
      ensures !fatal ==> eaten <= |input| && Reached(cfg, s, input, eaten, Machine()) && buf == input[eaten..]
      ensures !fatal && mode.cobs.CobsInFrame? ==> buf == []
      ensures !fatal && mode.cobs.BeforeFirstDelim? ==> eaten > start
      ensures fatal || (mode.cobs.CobsInFrame?) ==> Arrived(s, input)
    {
      hide Run, Consumed, Step, Reached, OutcomeOf;
      outcome, fatal := o, false;
      var readPos := 0;
      while true
        invariant readPos <= |buf| && start <= |input| && buf == input[start..]
        invariant mode.Cobs? && mode.cobs.CobsInFrame?
        invariant Reached(cfg, s, input, start + readPos, SettledMachine())
        invariant |log| >= |s.log| && outcome == OutcomeOf(log[|s.log|..])
        decreases |buf| - readPos
      {
        if mode.cobs.remaining == 0 && mode.cobs.pendingZero {
          mode := Cobs(CobsInFrame(mode.cobs.decoded + [0], 0, false));
        }
        if readPos >= |buf| {
          ReachedEnd(cfg, s, input, Machine());
          break;
        }
        Advance(cfg, s, input, start + readPos, Machine());
        outcome, fatal := CobsByte(buf[readPos], outcome, |s.log|);
        readPos := readPos + 1;
        if mode.cobs.BeforeFirstDelim? {
          break;
        }
      }
      eaten := start + readPos;
      buf := buf[readPos..];
    }

    /** The machine state once an overdue implicit zero is inserted. */
    ghost function SettledMachine(): State
      requires mode.Cobs?
      reads this
    {
      if mode.cobs.BeforeFirstDelim? then Machine()
      else Machine().(mode := Cobs(Settle(mode.cobs.decoded, mode.cobs.remaining, mode.cobs.pendingZero)))
    }

    // ----- buffered modes

    method TakeFrame(splitPos: nat, termLen: nat) returns (frame: seq<byte>)
      requires splitPos + termLen <= |buf|
      modifies this`buf
      ensures Extraction(mode, buf, Some(frame))
           == BufferedModes.TakeFrame(cfg.includeTerminators, mode, old(buf), splitPos, termLen)
    {
      if cfg.includeTerminators {
        frame := buf[..splitPos + termLen];
      } else {
        frame := buf[..splitPos];
      }
      buf := buf[splitPos + termLen..];
    }

    method MatchAutoLf() returns (frame: Option<seq<byte>>)
      requires mode == Line(AutoLf)
      modifies this`buf, this`mode
      ensures Extraction(mode, buf, frame) == AutoLine(cfg.includeTerminators, old(buf))
    {
      var lf := Position(buf, LF);
      if lf.Some? {
        var splitPos, termLen := lf.value, 1;
        if !cfg.includeTerminators && lf.value > 0 && buf[lf.value - 1] == CR {
          splitPos, termLen := lf.value - 1, 2;
        }
        var taken := TakeFrame(splitPos, termLen);
        return Some(taken);
      }
      var cr := Position(buf, CR);
      if cr.Some? {
        if cr.value + 1 < |buf| {
          var taken := TakeFrame(cr.value, 1);
          mode := Line(CrMode);
          return Some(taken);
        }
        mode := Line(PendingCr(cr.value));
      }
      return None;
    }

    method MatchPendingCr() returns (frame: Option<seq<byte>>)
      requires mode.Line? && mode.line.PendingCr?
      modifies this`buf, this`mode
      ensures Extraction(mode, buf, frame) == AfterPendingCr(cfg.includeTerminators, old(mode.line.pos), old(buf))
    {
      var crPos := mode.line.pos;
      if crPos + 1 >= |buf| {
        return None;
      }
      if buf[crPos + 1] == LF {
        var taken := TakeFrame(crPos, 2);
        mode := Line(AutoLf);
        return Some(taken);
      }
      var taken := TakeFrame(crPos, 1);
      mode := Line(CrMode);
      return Some(taken);
    }

    method MatchLineByte(b: byte) returns (frame: Option<seq<byte>>)
      modifies this`buf
      ensures Extraction(mode, buf, frame) == LineByte(cfg.includeTerminators, mode, old(buf), b)
    {
      var pos := Position(buf, b);
      if pos.None? {
        return None;
      }
      var taken := TakeFrame(pos.value, 1);
      return Some(taken);
    }

    /** Also the `crlf` line ending, whose delimiter is CR LF. */
    method ExtractDelimited(delimiter: seq<byte>) returns (frame: Option<seq<byte>>)
      modifies this`buf
      ensures Extraction(mode, buf, frame) == UpTo(cfg.includeTerminators, mode, old(buf), delimiter)
    {
      var pos := FindSubsequence(buf, delimiter);
      if pos.None? {
        return None;
      }
      var taken := TakeFrame(pos.value, |delimiter|);
      return Some(taken);
    }

    /** Drop what is left of the initial offset. */
    method SkipOffset()
      requires mode.LengthPrefixed?
      modifies this`buf, this`mode
      ensures mode.LengthPrefixed?
      ensures LengthPrefixedFrom(cfg.includeTerminators, old(mode), old(buf))
           == PrefixedPayload(cfg.includeTerminators, mode, buf)
    {
      hide PrefixedPayload;
      if mode.remainingOffset > 0 {
        var skip := if mode.remainingOffset < |buf| then mode.remainingOffset else |buf|;
        buf := buf[skip..];
        mode := mode.(remainingOffset := mode.remainingOffset - skip);
      }
      assert buf[0..] == buf;
    }

    method ExtractLengthPrefixed() returns (frame: Option<seq<byte>>)
      requires mode.LengthPrefixed?
      modifies this`buf, this`mode
      ensures Extraction(mode, buf, frame) == LengthPrefixedFrom(cfg.includeTerminators, old(mode), old(buf))
    {
      hide ReadLengthPrefix, LengthPrefixedFrom;
      SkipOffset();
      var LengthPrefixed(prefixSize, endianness, remainingOffset, nextPayloadLen) := mode;
      if nextPayloadLen.None? {
        if |buf| < prefixSize {
          mode := LengthPrefixed(prefixSize, endianness, remainingOffset, None);
          return None;
        }
        nextPayloadLen := Some(ReadLengthPrefix(buf[..prefixSize], endianness));
      }
      var total := prefixSize + nextPayloadLen.value;
      if |buf| < total {
        mode := LengthPrefixed(prefixSize, endianness, remainingOffset, nextPayloadLen);
        return None;
      }
      var bytes := if cfg.includeTerminators then buf[..total] else buf[prefixSize..total];
      buf := buf[total..];
      mode := LengthPrefixed(prefixSize, endianness, remainingOffset, None);
      return Some(bytes);
    }

    /** The loop over all candidate start markers. */
    method FindStart(start: seq<seq<byte>>) returns (best: Option<Hit>)
      ensures best == EarliestStart(buf, start)
    {
      best := None;
      for i := 0 to |start|
        invariant best == EarliestStart(buf, start[..i])
      {
        assert start[..i + 1][..i] == start[..i];
        var pos := FindSubsequence(buf, start[i]);
        if pos.Some? && (best.None? || pos.value < best.value.pos) {
          best := Some(Hit(pos.value, |start[i]|));
        }
      }
      assert start[..|start|] == start;
    }

    method ExtractStartEnd() returns (frame: Option<seq<byte>>)
      requires mode.StartEnd?
      modifies this`buf, this`mode
      ensures Extraction(mode, buf, frame) == StartEndFrom(old(mode), old(buf))
    {
      hide EarliestStart, FindSubsequence, Trim;
      var StartEnd(start, end, includeMarkers, inFrame) := mode;
      if !inFrame {
        var best := FindStart(start);
        if best.None? {
          buf := Trim(buf, start);
          return None;
        }
        buf := buf[best.value.pos..];
        if !includeMarkers {
          assert buf[best.value.len..] == old(buf)[best.value.pos + best.value.len..];
          buf := buf[best.value.len..];
        }
        mode := StartEnd(start, end, includeMarkers, true);
      }
      var pos := FindSubsequence(buf, end);
      if pos.None? {
        return None;
      }
      var bytes := if includeMarkers then buf[..pos.value + |end|] else buf[..pos.value];
      buf := buf[pos.value + |end|..];
      mode := StartEnd(start, end, includeMarkers, false);
      return Some(bytes);
    }

    method NextFrame() returns (frame: Option<seq<byte>>)
      requires IsBuffered(mode)
      modifies this`buf, this`mode
      ensures IsBuffered(mode)
      ensures Extraction(mode, buf, frame) == Extract(cfg.includeTerminators, old(mode), old(buf))
    {
      match mode
      case Line(Lf) => frame := MatchLineByte(LF);
      case Line(Cr) => frame := MatchLineByte(CR);
      case Line(CrMode) => frame := MatchLineByte(CR);
      case Line(Crlf) => frame := ExtractDelimited([CR, LF]);
      case Line(AutoLf) => frame := MatchAutoLf();
      case Line(PendingCr(_)) => frame := MatchPendingCr();
      case Delimiter(delimiter) => frame := ExtractDelimited(delimiter);
      case LengthPrefixed(_, _, _, _) => frame := ExtractLengthPrefixed();
      case StartEnd(_, _, _, _) => frame := ExtractStartEnd();
    }

    method DrainBuffer() returns (outcome: PushOutcome)
      requires IsBuffered(mode)
      modifies this`buf, this`mode, this`frameCount, this`log
      ensures IsBuffered(mode)
      ensures Abs() == Drain(cfg, old(Abs()))
      ensures |log| >= |old(log)| && outcome == OutcomeOf(log[|old(log)|..])
    {
      hide Drain, Extract;
      outcome := NOTHING;
      ghost var final := Drain(cfg, Abs());
      while true
        invariant IsBuffered(mode) && final == Drain(cfg, Abs())
        invariant |log| >= |old(log)| && outcome == OutcomeOf(log[|old(log)|..])
        decreases |buf|
      {
        DrainUnfolds(cfg, Abs());
        var consumed := NextFrame();
        if consumed.None? {
          return;
        }
        var fatal;
        outcome, fatal := Emit(consumed.value, outcome, |old(log)|);
        if fatal {
          return;
        }
      }
    }

    /** Hand out what is pending as a partial frame. */
    method FlushPartial() returns (frame: Option<Frame>)
      modifies this`buf, this`mode, this`frameCount, this`log
      ensures Abs() == Flushed(old(Abs()))
      ensures frame.None? <==> Partial(old(Abs())) == []
      ensures frame.Some? ==> log == old(log) + [Emitted(frame.value)]
    {
      var data: seq<byte>;
      match mode {
        case Slip(SlipInFrame(payload, escaped)) =>
          if payload == [] {
            return None;
          }
          data := payload;
          mode := Slip(SlipInFrame([], escaped));
        case Cobs(CobsInFrame(decoded, remaining, pendingZero)) =>
          if decoded == [] {
            return None;
          }
          data := decoded;
          mode := Cobs(CobsInFrame([], remaining, pendingZero));
        case _ =>
          if buf == [] {
            return None;
          }
          data := buf;
          buf := [];
      }
      frameCount := frameCount + 1;
      var partial := Frame(data, frameCount - 1, FrameTypeOf(mode), None);
      log := log + [Emitted(partial)];
      return Some(partial);
    }

    /** Feed one chunk. */
    method Push(chunk: seq<byte>) returns (outcome: PushOutcome)
      requires Valid()
      modifies this`buf, this`mode, this`frameCount, this`log
      ensures Valid()
      ensures Abs() == PushSpec(cfg, old(Abs()), chunk)
      ensures |log| >= |old(log)| && outcome == OutcomeOf(log[|old(log)|..])
    {
      ghost var before := Abs();
      buf := buf + chunk;
      if mode.Slip? {
        outcome := SlipDecode(Machine(), buf);
        PushEndsAt(cfg, before, chunk, Consumed(cfg, before.(buf := []), before.buf + chunk), Machine());
      } else if mode.Cobs? {
        outcome := CobsDecode(Machine(), buf);
        PushEndsAt(cfg, before, chunk, Consumed(cfg, before.(buf := []), before.buf + chunk), Machine());
      } else {
        outcome := DrainBuffer();
      }
    }
  }
}
