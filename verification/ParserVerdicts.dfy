/**
  What the verdicts of a frame parser do to a stream: parsed frames are reported, checksum mismatches only
  counted, and any other rejection ends the push there.
 */
module ParserVerdicts {
  import opened Bytes
  import opened Framing
  import opened ByteMachine
  import opened StartMarkers
  import opened BufferedModes
  import opened BufferedRuns
  import opened FrameDecoding

  /** The frames that a drain cuts when nothing stops it. */
  function Candidates(inclusive: bool, mode: Mode, buf: seq<byte>): seq<seq<byte>>
    requires IsBuffered(mode)
    decreases |buf|
  {
    var x := Extract(inclusive, mode, buf);
    if x.frame.None? then [] else [x.frame.value] + Candidates(inclusive, x.mode, x.buf)
  }

  predicate IsSkipped(cfg: Config, data: seq<byte>) {
    cfg.skipEmpty && forall i :: 0 <= i < |data| ==> data[i] in {0x20, 0x09, 0x0A, 0x0C, 0x0D}
  }

  predicate IsChecksumMismatch(r: ParseResult) {
    r.Rejected? && r.error.ChecksumMismatch?
  }

  predicate IsFatalVerdict(r: ParseResult) {
    r.Rejected? && !r.error.ChecksumMismatch?
  }

  /** The data and verdict of every reported frame: the candidates that are not skipped and parse. */
  function ParsedOnes(cfg: Config, parse: Parser, data: seq<seq<byte>>): seq<(seq<byte>, Option<ParsedFrame>)> {
    if data == [] then []
    else
      (if !IsSkipped(cfg, data[0]) && parse(data[0]).Parsed? then [(data[0], Some(parse(data[0]).frame))] else [])
      + ParsedOnes(cfg, parse, data[1..])
  }

  function Mismatches(cfg: Config, parse: Parser, data: seq<seq<byte>>): nat {
    if data == [] then 0
    else
      (if !IsSkipped(cfg, data[0]) && IsChecksumMismatch(parse(data[0])) then 1 else 0)
      + Mismatches(cfg, parse, data[1..])
  }

  function ReportedOnes(log: seq<Event>): seq<(seq<byte>, Option<ParsedFrame>)> {
    if log == [] then []
    else
      var last := log[|log| - 1];
      ReportedOnes(log[..|log| - 1]) + if last.Emitted? then [(last.frame.data, last.frame.parsed)] else []
  }

  function Drops(log: seq<Event>): nat {
    multiset(log)[Dropped]
  }

  /** The first candidate that the parser rejects for good, or the number of candidates. */
  ghost predicate StopsBehind(cfg: Config, parse: Parser, data: seq<seq<byte>>, n: nat) {
    && n <= |data|
    && (forall i :: 0 <= i < n - 1 ==> IsSkipped(cfg, data[i]) || !IsFatalVerdict(parse(data[i])))
    && (n < |data| ==> n > 0 && !IsSkipped(cfg, data[n - 1]) && IsFatalVerdict(parse(data[n - 1])))
  }

  lemma EmptyLog()
    ensures ReportedOnes([]) == [] && Drops([]) == 0
  {
  }

  lemma OneMoreReport(log: seq<Event>, e: Event)
    ensures ReportedOnes(log + [e]) == ReportedOnes(log) + if e.Emitted? then [(e.frame.data, e.frame.parsed)] else []
    ensures Drops(log + [e]) == Drops(log) + if e == Dropped then 1 else 0
    ensures NoFailure(log + [e]) <==> NoFailure(log) && !e.Failed?
  {
    assert (log + [e])[..|log|] == log;
    assert forall i :: 0 <= i < |log| ==> (log + [e])[i] == log[i];
    assert (log + [e])[|log|] == e;
  }

  /** One emission by its verdict. */
  lemma OneVerdict(cfg: Config, parse: Parser, s: State, data: seq<byte>)
    requires cfg.parser == Some(parse) && NoFailure(s.log)
    ensures
      var u := EmitFrame(cfg, s, data);
      && (FailedSince(s, u) <==> !IsSkipped(cfg, data) && IsFatalVerdict(parse(data)))
      && (NoFailure(u.log) <==> !FailedSince(s, u))
      && ReportedOnes(u.log) == ReportedOnes(s.log) + ParsedOnes(cfg, parse, [data])
      && Drops(u.log) == Drops(s.log) + Mismatches(cfg, parse, [data])
      && (FailedSince(s, u) ==> u.log == s.log + [Failed(parse(data).error)])
      && u.mode == s.mode && u.buf == s.buf
  {
    SkippedIsBlank(cfg, data);
    var e := Emission(cfg, s.count, data, FrameTypeOf(s.mode));
    if e.Some? {
      OneMoreReport(s.log, e.value);
    }
    assert [data][1..] == [];
  }

  lemma SkippedIsBlank(cfg: Config, data: seq<byte>)
    ensures IsSkipped(cfg, data) <==> cfg.skipEmpty && IsBlankFrame(data)
  {
  }

  /** The reports of a drain with a parser, from the frames it cuts. */
  ghost predicate Judged(cfg: Config, parse: Parser, data: seq<seq<byte>>, n: nat, before: seq<Event>, after: seq<Event>) {
    && StopsBehind(cfg, parse, data, n)
    && ReportedOnes(after) == ReportedOnes(before) + ParsedOnes(cfg, parse, data[..n])
    && Drops(after) == Drops(before) + Mismatches(cfg, parse, data[..n])
    && (NoFailure(after) <==> n == |data| && (n > 0 ==> IsSkipped(cfg, data[n - 1]) || !IsFatalVerdict(parse(data[n - 1]))))
    && (!NoFailure(after) ==> n > 0 && |after| > |before| && after[|after| - 1] == Failed(parse(data[n - 1]).error))
  }

  /** The first `n` frames of this drain are judged, and after an error the others are still to be cut. */
  ghost predicate Decides(cfg: Config, parse: Parser, s: State, n: nat)
    requires IsBuffered(s.mode)
  {
    var data, r := Candidates(cfg.includeTerminators, s.mode, s.buf), Drain(cfg, s);
    && n <= |data| && IsBuffered(r.mode)
    && Judged(cfg, parse, data, n, s.log, r.log)
    && (!NoFailure(r.log) ==> Candidates(cfg.includeTerminators, r.mode, r.buf) == data[n..])
  }

  /**
    A parser in front of any buffered mode: of the frames that are cut anyway, in order, exactly the parsed
    ones are reported, with what the parser made of them; checksum mismatches are dropped and counted; and
    the first other rejection is the error, behind which nothing is judged: these frames are cut later.
   */
  lemma {:induction false} VerdictsDecide(cfg: Config, parse: Parser, s: State) returns (n: nat)
    requires IsBuffered(s.mode) && cfg.parser == Some(parse) && NoFailure(s.log)
    ensures Decides(cfg, parse, s, n)
    decreases |s.buf|
  {
    var x := Extract(cfg.includeTerminators, s.mode, s.buf);
    hide Extract, EmitFrame, Decides, NoFailure, FailedSince, IsSkipped, IsFatalVerdict, ReportedOnes, Drops;
    if x.frame.None? {
      n := 0;
      NoFrameDecides(cfg, parse, s);
    } else {
      var t := s.(mode := x.mode, buf := x.buf);
      OneVerdict(cfg, parse, t, x.frame.value);
      var u := EmitFrame(cfg, t, x.frame.value);
      if FailedSince(t, u) {
        n := 1;
        FatalFrameDecides(cfg, parse, s);
      } else {
        n := VerdictsDecide(cfg, parse, u);
        FrameThenDecides(cfg, parse, s, n);
        n := n + 1;
      }
    }
  }

  lemma NoFrameDecides(cfg: Config, parse: Parser, s: State)
    requires IsBuffered(s.mode) && NoFailure(s.log) && Extract(cfg.includeTerminators, s.mode, s.buf).frame.None?
    ensures Decides(cfg, parse, s, 0)
  {
    hide Extract, Candidates, Judged, NoFailure;
    DrainByOne(cfg, s);
    CandidatesByOne(cfg.includeTerminators, s.mode, s.buf);
    NothingJudged(cfg, parse, s.log);
  }

  lemma FatalFrameDecides(cfg: Config, parse: Parser, s: State)
    requires IsBuffered(s.mode) && cfg.parser == Some(parse) && NoFailure(s.log)
    requires Extract(cfg.includeTerminators, s.mode, s.buf).frame.Some?
    requires
      var x := Extract(cfg.includeTerminators, s.mode, s.buf);
      var t := s.(mode := x.mode, buf := x.buf);
      FailedSince(t, EmitFrame(cfg, t, x.frame.value))
    ensures Decides(cfg, parse, s, 1)
  {
    hide Extract, Candidates, EmitFrame, Judged, NoFailure, FailedSince, IsSkipped, IsFatalVerdict, ReportedOnes, Drops;
    var x := Extract(cfg.includeTerminators, s.mode, s.buf);
    var t := s.(mode := x.mode, buf := x.buf);
    DrainByOne(cfg, s);
    CandidatesByOne(cfg.includeTerminators, s.mode, s.buf);
    OneVerdict(cfg, parse, t, x.frame.value);
    var rest := Candidates(cfg.includeTerminators, x.mode, x.buf);
    assert ([x.frame.value] + rest)[1..] == rest;
    FirstIsFatal(cfg, parse, [x.frame.value] + rest, s.log, EmitFrame(cfg, t, x.frame.value).log);
  }

  lemma FrameThenDecides(cfg: Config, parse: Parser, s: State, n: nat)
    requires IsBuffered(s.mode) && cfg.parser == Some(parse) && NoFailure(s.log)
    requires Extract(cfg.includeTerminators, s.mode, s.buf).frame.Some?
    requires
      var x := Extract(cfg.includeTerminators, s.mode, s.buf);
      var t := s.(mode := x.mode, buf := x.buf);
      var u := EmitFrame(cfg, t, x.frame.value);
      !FailedSince(t, u) && IsBuffered(u.mode) && Decides(cfg, parse, u, n)
    ensures Decides(cfg, parse, s, n + 1)
  {
    hide Extract, Candidates, EmitFrame, Drain, Judged, NoFailure, FailedSince, IsSkipped, IsFatalVerdict, ReportedOnes, Drops;
    var x := Extract(cfg.includeTerminators, s.mode, s.buf);
    var t := s.(mode := x.mode, buf := x.buf);
    var u := EmitFrame(cfg, t, x.frame.value);
    DrainByOne(cfg, s);
    CandidatesByOne(cfg.includeTerminators, s.mode, s.buf);
    OneVerdict(cfg, parse, t, x.frame.value);
    LogGrows(cfg, t, x.frame.value);
    var rest := Candidates(cfg.includeTerminators, x.mode, x.buf);
    var data := [x.frame.value] + rest;
    assert data[1..] == rest && data[n + 1..] == rest[n..];
    OneMoreJudged(cfg, parse, data, n, s.log, u.log, Drain(cfg, u).log);
  }

  lemma LogGrows(cfg: Config, s: State, data: seq<byte>)
    ensures |EmitFrame(cfg, s, data).log| >= |s.log|
  {
  }

  lemma DrainByOne(cfg: Config, s: State)
    requires IsBuffered(s.mode)
    ensures
      var x := Extract(cfg.includeTerminators, s.mode, s.buf);
      var t := s.(mode := x.mode, buf := x.buf);
      Drain(cfg, s) == if x.frame.None? then t
                       else if FailedSince(t, EmitFrame(cfg, t, x.frame.value)) then EmitFrame(cfg, t, x.frame.value)
                       else Drain(cfg, EmitFrame(cfg, t, x.frame.value))
  {
    hide Extract;
  }

  lemma CandidatesByOne(inclusive: bool, mode: Mode, buf: seq<byte>)
    requires IsBuffered(mode)
    ensures
      var x := Extract(inclusive, mode, buf);
      Candidates(inclusive, mode, buf)
      == if x.frame.None? then [] else [x.frame.value] + Candidates(inclusive, x.mode, x.buf)
  {
    hide Extract;
  }

  lemma NothingJudged(cfg: Config, parse: Parser, log: seq<Event>)
    requires NoFailure(log)
    ensures Judged(cfg, parse, [], 0, log, log)
  {
  }

  lemma FirstIsFatal(cfg: Config, parse: Parser, data: seq<seq<byte>>, before: seq<Event>, after: seq<Event>)
    requires data != [] && !IsSkipped(cfg, data[0]) && IsFatalVerdict(parse(data[0]))
    requires after == before + [Failed(parse(data[0]).error)]
    requires ReportedOnes(after) == ReportedOnes(before) + ParsedOnes(cfg, parse, [data[0]])
    requires Drops(after) == Drops(before) + Mismatches(cfg, parse, [data[0]])
    ensures Judged(cfg, parse, data, 1, before, after)
  {
    hide IsSkipped;
    assert data[..1] == [data[0]];
    assert after[|before|].Failed?;
  }

  lemma OneMoreJudged(cfg: Config, parse: Parser, data: seq<seq<byte>>, n: nat,
                      before: seq<Event>, mid: seq<Event>, after: seq<Event>)
    requires data != [] && (IsSkipped(cfg, data[0]) || !IsFatalVerdict(parse(data[0])))
    requires ReportedOnes(mid) == ReportedOnes(before) + ParsedOnes(cfg, parse, [data[0]])
    requires Drops(mid) == Drops(before) + Mismatches(cfg, parse, [data[0]])
    requires |mid| >= |before| && Judged(cfg, parse, data[1..], n, mid, after)
    ensures Judged(cfg, parse, data, n + 1, before, after)
  {
    assert n <= |data[1..]|;
    hide IsSkipped, IsFatalVerdict, ReportedOnes, Drops, ParsedOnes, Mismatches, StopsBehind, NoFailure;
    OneMoreInFront(cfg, parse, data, n);
    assert n > 0 ==> data[n] == data[1..][n - 1];
    JoinReports(ReportedOnes(before), ParsedOnes(cfg, parse, [data[0]]), ParsedOnes(cfg, parse, data[1..][..n]));
  }

  lemma JoinReports<T>(a: seq<T>, b: seq<T>, c: seq<T>)
    ensures a + b + c == a + (b + c)
  {
  }

  lemma OneMoreInFront(cfg: Config, parse: Parser, data: seq<seq<byte>>, n: nat)
    requires data != [] && (IsSkipped(cfg, data[0]) || !IsFatalVerdict(parse(data[0])))
    requires StopsBehind(cfg, parse, data[1..], n)
    ensures StopsBehind(cfg, parse, data, n + 1)
    ensures ParsedOnes(cfg, parse, data[..n + 1]) == ParsedOnes(cfg, parse, [data[0]]) + ParsedOnes(cfg, parse, data[1..][..n])
    ensures Mismatches(cfg, parse, data[..n + 1]) == Mismatches(cfg, parse, [data[0]]) + Mismatches(cfg, parse, data[1..][..n])
  {
    hide IsSkipped, IsFatalVerdict;
    var rest, one := data[1..], [data[0]];
    assert data[..n + 1] == one + rest[..n];
    assert (one + rest[..n])[1..] == rest[..n] && |one[1..]| == 0;
    assert forall i :: 0 < i < |data| ==> data[i] == rest[i - 1];
  }

  // ----- the byte machine

  /** The same decoder without its parser. */
  function Parserless(cfg: Config): Config {
    cfg.(parser := None)
  }

  /** `s` is where the parserless decoder `t` is, and has reported what the parser makes of that one's frames. */
  ghost predicate Shadows(cfg: Config, parse: Parser, s: State, t: State) {
    && s.mode == t.mode && NoFailure(s.log) && NoFailure(t.log)
    && ReportedOnes(s.log) == ParsedOnes(cfg, parse, Payloads(t.log))
    && Drops(s.log) == Mismatches(cfg, parse, Payloads(t.log))
  }

  lemma {:induction false} OneMoreParsed(cfg: Config, parse: Parser, data: seq<seq<byte>>, last: seq<byte>)
    ensures ParsedOnes(cfg, parse, data + [last]) == ParsedOnes(cfg, parse, data) + ParsedOnes(cfg, parse, [last])
    ensures Mismatches(cfg, parse, data + [last]) == Mismatches(cfg, parse, data) + Mismatches(cfg, parse, [last])
    decreases |data|
  {
    hide IsSkipped;
    if data == [] {
      assert data + [last] == [last];
    } else {
      assert (data + [last])[1..] == data[1..] + [last];
      OneMoreParsed(cfg, parse, data[1..], last);
    }
  }

  predicate IsOutside(mode: Mode) {
    mode == Slip(BeforeFirstEnd) || mode == Cobs(BeforeFirstDelim)
  }

  /** The last report failed: on a bad escape, without the parser too, or because it rejects the frame reported without it. */
  ghost predicate FailsAlike(parse: Parser, before: seq<Event>, without: seq<Event>, after: seq<Event>, afterWithout: seq<Event>) {
    && after != [] && after[..|after| - 1] == before
    && var e := after[|after| - 1];
       || (e.Failed? && e.error.SlipInvalidEscape? && afterWithout == without + [e])
       || (afterWithout != [] && afterWithout[..|afterWithout| - 1] == without && afterWithout[|afterWithout| - 1].Emitted?
           && var verdict := parse(afterWithout[|afterWithout| - 1].frame.data);
              IsFatalVerdict(verdict) && e == Failed(verdict.error))
  }

  /** The parserless decoder reports a frame unless it is skipped. */
  lemma ParserlessEmission(cfg: Config, t: State, data: seq<byte>)
    requires NoFailure(t.log)
    ensures
      var v := EmitFrame(Parserless(cfg), t, data);
      && v.mode == t.mode && NoFailure(v.log)
      && if IsSkipped(cfg, data) then v.log == t.log
         else
           && v.log == t.log + [Emitted(Frame(data, t.count, FrameTypeOf(t.mode), None))]
           && v.log[..|v.log| - 1] == t.log && Payloads(v.log) == Payloads(t.log) + [data]
  {
    SkippedIsBlank(cfg, data);
    hide IsSkipped;
    var e := Emitted(Frame(data, t.count, FrameTypeOf(t.mode), None));
    LogAppend(t.log, e);
    assert (t.log + [e])[..|t.log|] == t.log;
  }

  lemma JudgeLast(cfg: Config, parse: Parser, data: seq<seq<byte>>, last: seq<byte>)
    ensures IsSkipped(cfg, last) ==> ParsedOnes(cfg, parse, [last]) == [] && Mismatches(cfg, parse, [last]) == 0
    ensures ParsedOnes(cfg, parse, data + [last]) == ParsedOnes(cfg, parse, data) + ParsedOnes(cfg, parse, [last])
    ensures Mismatches(cfg, parse, data + [last]) == Mismatches(cfg, parse, data) + Mismatches(cfg, parse, [last])
  {
    OneMoreParsed(cfg, parse, data, last);
    assert [last][1..] == [];
  }

  /** A closed frame: what the parser says of it is added to what it said of the frames before. */
  lemma EmissionShadows(cfg: Config, parse: Parser, s: State, t: State, data: seq<byte>)
    requires cfg.parser == Some(parse) && Shadows(cfg, parse, s, t)
    ensures
      var u, v := EmitFrame(cfg, s, data), EmitFrame(Parserless(cfg), t, data);
      && (!FailedSince(s, u) ==> Shadows(cfg, parse, u, v))
      && (FailedSince(s, u) ==> FailsAlike(parse, s.log, t.log, u.log, v.log))
  {
    OneVerdict(cfg, parse, s, data);
    ParserlessEmission(cfg, t, data);
    JudgeLast(cfg, parse, Payloads(t.log), data);
    hide IsSkipped, ReportedOnes, Drops, ParsedOnes, Mismatches, Payloads, EmitFrame, NoFailure, FailedSince;
  }

  /** The data of the frame that this byte closes. */
  function ClosedBy(mode: Mode, b: byte): Option<seq<byte>> {
    match mode
    case Slip(SlipInFrame(payload, false)) => if b == SLIP_END then Some(payload) else None
    case Cobs(CobsInFrame(decoded, 0, _)) => if b == 0 then Some(DropPhantom(decoded)) else None
    case _ => None
  }

  lemma ClosingStep(cfg: Config, s: State, b: byte)
    requires IsStream(s.mode) && ClosedBy(s.mode, b).Some?
    ensures
      var u, e := Step(cfg, s, b), EmitFrame(cfg, s, ClosedBy(s.mode, b).value);
      && u.log == e.log && (FailedSince(s, u) <==> FailedSince(s, e))
      && u.mode == (if FailedSince(s, e) || s.mode.Cobs? then (if s.mode.Cobs? then Cobs(BeforeFirstDelim) else Slip(BeforeFirstEnd))
                    else Slip(SlipInFrame([], false)))
  {
  }

  lemma OtherStep(cfg: Config, s: State, t: State, b: byte)
    requires IsStream(s.mode) && s.mode == t.mode && ClosedBy(s.mode, b).None?
    ensures
      var u, v := Step(cfg, s, b), Step(Parserless(cfg), t, b);
      && u.mode == v.mode
      && if s.mode.Slip? && s.mode.slip.SlipInFrame? && s.mode.slip.escaped && b != SLIP_ESC_END && b != SLIP_ESC_ESC
         then IsOutside(u.mode) && u.log == s.log + [Failed(SlipInvalidEscape(b))] && v.log == t.log + [Failed(SlipInvalidEscape(b))]
         else u.log == s.log && v.log == t.log
  {
  }

  lemma StepShadows(cfg: Config, parse: Parser, s: State, t: State, b: byte)
    requires IsStream(s.mode) && cfg.parser == Some(parse) && Shadows(cfg, parse, s, t)
    ensures
      var u, v := Step(cfg, s, b), Step(Parserless(cfg), t, b);
      && (!FailedSince(s, u) ==> Shadows(cfg, parse, u, v) && u.mode == v.mode)
      && (FailedSince(s, u) ==> FailsAlike(parse, s.log, t.log, u.log, v.log) && IsOutside(u.mode))
  {
    hide Step, EmitFrame, ReportedOnes, Drops, ParsedOnes, Mismatches, Payloads, IsFatalVerdict;
    match ClosedBy(s.mode, b)
    case None => OtherStep(cfg, s, t, b);
    case Some(data) =>
      EmissionShadows(cfg, parse, s, t, data);
      ClosingStep(cfg, s, b);
      ClosingStep(Parserless(cfg), t, b);
  }

  /** The first `n` bytes of the input are read, and the reports are those of the parser on the parserless run. */
  ghost predicate DecidesStream(cfg: Config, parse: Parser, s: State, t: State, input: seq<byte>, n: nat)
    requires IsStream(s.mode) && IsStream(t.mode)
  {
    && n <= |input|
    && var u, v := Run(cfg, s, input[..n]), Run(Parserless(cfg), t, input[..n]);
       if NoFailure(u.log) then n == |input| && Shadows(cfg, parse, u, v)
       else
         && n > 0
         && var before, alike := Run(cfg, s, input[..n - 1]), Run(Parserless(cfg), t, input[..n - 1]);
            Shadows(cfg, parse, before, alike) && FailsAlike(parse, before.log, alike.log, u.log, v.log) && IsOutside(u.mode)
  }

  /**
    A parser behind SLIP or COBS: the frames are those of the parserless decoder up to the first bad escape
    or the first frame that the parser rejects for good; exactly the parsed ones are reported, mismatches
    are dropped and counted, the rejection is the error, and the decoder then stands outside any frame.
   */
  lemma {:induction false} VerdictsDecideStreams(cfg: Config, parse: Parser, s: State, t: State, input: seq<byte>)
    requires IsStream(s.mode) && s.mode == t.mode && cfg.parser == Some(parse) && Shadows(cfg, parse, s, t)
    ensures DecidesStream(cfg, parse, s, t, input, Consumed(cfg, s, input))
    decreases |input|
  {
    hide Run, Consumed, Step, Shadows, FailsAlike, FailedSince, DecidesStream;
    if input == [] {
      ConsumedNothing(cfg, s);
      NothingDecided(cfg, parse, s, t);
    } else {
      var u, v := Step(cfg, s, input[0]), Step(Parserless(cfg), t, input[0]);
      ConsumedFront(cfg, s, input);
      StepShadows(cfg, parse, s, t, input[0]);
      if FailedSince(s, u) {
        FirstByteFails(cfg, parse, s, t, input);
      } else {
        VerdictsDecideStreams(cfg, parse, u, v, input[1..]);
        OneByteEarlier(cfg, parse, s, t, input, Consumed(cfg, u, input[1..]));
      }
    }
  }

  lemma NothingDecided(cfg: Config, parse: Parser, s: State, t: State)
    requires IsStream(s.mode) && s.mode == t.mode && Shadows(cfg, parse, s, t)
    ensures DecidesStream(cfg, parse, s, t, [], 0)
  {
    hide Run;
    RunNothing(cfg, s);
    RunNothing(Parserless(cfg), t);
  }

  lemma FirstByteFails(cfg: Config, parse: Parser, s: State, t: State, input: seq<byte>)
    requires IsStream(s.mode) && s.mode == t.mode && input != [] && Shadows(cfg, parse, s, t)
    requires
      var u, v := Step(cfg, s, input[0]), Step(Parserless(cfg), t, input[0]);
      FailedSince(s, u) && FailsAlike(parse, s.log, t.log, u.log, v.log) && IsOutside(u.mode)
    ensures DecidesStream(cfg, parse, s, t, input, 1)
  {
    hide Run, Step, Shadows, FailsAlike;
    assert input[..1] == [input[0]] && input[..0] == [];
    RunOne(cfg, s, input[0]);
    RunOne(Parserless(cfg), t, input[0]);
    RunNothing(cfg, s);
    RunNothing(Parserless(cfg), t);
  }

  lemma OneByteEarlier(cfg: Config, parse: Parser, s: State, t: State, input: seq<byte>, n: nat)
    requires IsStream(s.mode) && IsStream(t.mode) && input != []
    requires DecidesStream(cfg, parse, Step(cfg, s, input[0]), Step(Parserless(cfg), t, input[0]), input[1..], n)
    ensures DecidesStream(cfg, parse, s, t, input, 1 + n)
  {
    hide Run, Step, Shadows, FailsAlike, NoFailure;
    RunFromSecond(cfg, s, input, n);
    RunFromSecond(Parserless(cfg), t, input, n);
    if n > 0 {
      RunFromSecond(cfg, s, input, n - 1);
      RunFromSecond(Parserless(cfg), t, input, n - 1);
    }
  }

  lemma RunFromSecond(cfg: Config, s: State, input: seq<byte>, n: nat)
    requires IsStream(s.mode) && n < |input|
    ensures Run(cfg, s, input[..1 + n]) == Run(cfg, Step(cfg, s, input[0]), input[1..][..n])
  {
    hide Run, Step;
    assert input[..1 + n] == [input[0]] + input[1..][..n];
    RunCons(cfg, s, input[0], input[1..][..n]);
  }

  // ----- the frame type

  /** The type that frames of this setting are reported under. */
  function TypeFor(rx: RxMode): FrameType {
    match rx
    case RxDelimiter(_) => DelimiterFrame
    case RxLengthPrefixed(_, _, _) => LengthPrefixedFrame
    case RxStartEnd(_, _, _) => StartEndFrame
    case RxSlip => SlipFrame
    case RxCobs => CobsFrame
    case _ => LineFrame
  }

  ghost predicate AllOfType(log: seq<Event>, frameType: FrameType) {
    forall i :: 0 <= i < |log| && log[i].Emitted? ==> log[i].frame.frameType == frameType
  }

  lemma EmitKeepsType(cfg: Config, s: State, data: seq<byte>)
    requires AllOfType(s.log, FrameTypeOf(s.mode))
    ensures AllOfType(EmitFrame(cfg, s, data).log, FrameTypeOf(s.mode))
    ensures EmitFrame(cfg, s, data).mode == s.mode && EmitFrame(cfg, s, data).buf == s.buf
  {
  }

  lemma {:induction false} DrainKeepsType(cfg: Config, s: State)
    requires IsBuffered(s.mode) && AllOfType(s.log, FrameTypeOf(s.mode))
    ensures FrameTypeOf(Drain(cfg, s).mode) == FrameTypeOf(s.mode)
    ensures AllOfType(Drain(cfg, s).log, FrameTypeOf(s.mode))
    decreases |s.buf|
  {
    hide Extract, EmitFrame;
    DrainByOne(cfg, s);
    var x := Extract(cfg.includeTerminators, s.mode, s.buf);
    if x.frame.Some? {
      var t := s.(mode := x.mode, buf := x.buf);
      EmitKeepsType(cfg, t, x.frame.value);
      if !FailedSince(t, EmitFrame(cfg, t, x.frame.value)) {
        DrainKeepsType(cfg, EmitFrame(cfg, t, x.frame.value));
      }
    }
  }

  lemma StepKeepsType(cfg: Config, s: State, b: byte)
    requires IsStream(s.mode) && AllOfType(s.log, FrameTypeOf(s.mode))
    ensures AllOfType(Step(cfg, s, b).log, FrameTypeOf(s.mode))
    ensures FrameTypeOf(Step(cfg, s, b).mode) == FrameTypeOf(s.mode)
  {
  }

  lemma {:induction false} RunKeepsType(cfg: Config, s: State, input: seq<byte>)
    requires IsStream(s.mode) && AllOfType(s.log, FrameTypeOf(s.mode))
    ensures AllOfType(Run(cfg, s, input).log, FrameTypeOf(s.mode))
    ensures FrameTypeOf(Run(cfg, s, input).mode) == FrameTypeOf(s.mode)
    decreases |input|
  {
    hide Step, AllOfType;
    if input != [] {
      RunKeepsType(cfg, s, input[..|input| - 1]);
      StepKeepsType(cfg, Run(cfg, s, input[..|input| - 1]), input[|input| - 1]);
    }
  }

  lemma {:induction false} PushesKeepType(cfg: Config, s: State, chunks: seq<seq<byte>>)
    requires AllOfType(s.log, FrameTypeOf(s.mode))
    ensures AllOfType(PushAllSpec(cfg, s, chunks).log, FrameTypeOf(s.mode))
    decreases |chunks|
  {
    hide AllOfType, Drain, Run, Consumed;
    if chunks != [] {
      if IsBuffered(s.mode) {
        DrainKeepsType(cfg, s.(buf := s.buf + chunks[0]));
      } else {
        var input := s.buf + chunks[0];
        RunKeepsType(cfg, s, input[..Consumed(cfg, s, input)]);
      }
      PushesKeepType(cfg, PushSpec(cfg, s, chunks[0]), chunks[1..]);
    }
  }

  /** In every run of every constructible decoder each frame carries the type of the configured framing. */
  lemma FramesCarryTheirType(cfg: Config, rx: RxMode, chunks: seq<seq<byte>>)
    requires InitialMode(rx).Some?
    ensures AllOfType(PushAllSpec(cfg, Fresh(InitialMode(rx).value), chunks).log, TypeFor(rx))
  {
    PushesKeepType(cfg, Fresh(InitialMode(rx).value), chunks);
  }
}
