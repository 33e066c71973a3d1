/**
  SLIP and COBS as byte-at-a-time machines.  `Step` consumes one byte, `Run` a whole input, and
  `PushStream` is one decoder push: it stops right after the first stream-fatal error and keeps the
  unread bytes.
 */
module ByteMachine {
  import opened Bytes
  import opened Framing

  predicate IsStream(mode: Mode) {
    mode.Slip? || mode.Cobs?
  }

  /** Insert the implicit zero of a finished COBS block. */
  function Settle(decoded: seq<byte>, remaining: nat, pendingZero: bool): CobsState {
    if remaining == 0 && pendingZero then CobsInFrame(decoded + [0], 0, false)
    else CobsInFrame(decoded, remaining, pendingZero)
  }

  /** No implicit zero is overdue: what holds between bytes. */
  predicate Settled(mode: Mode) {
    mode.Cobs? && mode.cobs.CobsInFrame? ==> !(mode.cobs.remaining == 0 && mode.cobs.pendingZero)
  }

  /** The phantom zero of the final block is not payload. */
  function DropPhantom(decoded: seq<byte>): seq<byte> {
    if decoded != [] && decoded[|decoded| - 1] == 0 then decoded[..|decoded| - 1] else decoded
  }

  function SlipStep(cfg: Config, s: State, b: byte): State
    requires s.mode.Slip?
  {
    match s.mode.slip
    case BeforeFirstEnd =>
      if b == SLIP_END then s.(mode := Slip(SlipInFrame([], false))) else s
    case SlipInFrame(payload, true) =>
      if b == SLIP_ESC_END then s.(mode := Slip(SlipInFrame(payload + [SLIP_END], false)))
      else if b == SLIP_ESC_ESC then s.(mode := Slip(SlipInFrame(payload + [SLIP_ESC], false)))
      else Record(s, Some(Failed(SlipInvalidEscape(b)))).(mode := Slip(BeforeFirstEnd))
    case SlipInFrame(payload, false) =>
      if b == SLIP_END then
        var e := Emission(cfg, s.count, payload, SlipFrame);
        Record(s, e).(mode := Slip(if IsFatal(e) then BeforeFirstEnd else SlipInFrame([], false)))
      else if b == SLIP_ESC then s.(mode := Slip(SlipInFrame(payload, true)))
      else s.(mode := Slip(SlipInFrame(payload + [b], false)))
  }

  function CobsStep(cfg: Config, s: State, b: byte): State
    requires s.mode.Cobs?
  {
    match s.mode.cobs
    case BeforeFirstDelim =>
      if b == 0 then s.(mode := Cobs(CobsInFrame([], 0, false))) else s
    case CobsInFrame(decoded, remaining, pendingZero) =>
      if remaining > 0 then s.(mode := Cobs(Settle(decoded + [b], remaining - 1, pendingZero)))
      else if b == 0 then EmitFrame(cfg, s, DropPhantom(decoded)).(mode := Cobs(BeforeFirstDelim))
      else if b == 0xFF then s.(mode := Cobs(CobsInFrame(decoded, 254, false)))
      else s.(mode := Cobs(Settle(decoded, b - 1, true)))
  }

  function Step(cfg: Config, s: State, b: byte): (r: State)
    requires IsStream(s.mode)
    ensures IsStream(r.mode) && r.buf == s.buf && (r.mode.Slip? <==> s.mode.Slip?)
    ensures Settled(s.mode) ==> Settled(r.mode)
  {
    if s.mode.Slip? then SlipStep(cfg, s, b) else CobsStep(cfg, s, b)
  }

  function Run(cfg: Config, s: State, input: seq<byte>): (r: State)
    requires IsStream(s.mode)
    ensures IsStream(r.mode) && r.buf == s.buf && (r.mode.Slip? <==> s.mode.Slip?)
    ensures Settled(s.mode) ==> Settled(r.mode)
    decreases |input|
  {
    if input == [] then s
    else Step(cfg, Run(cfg, s, input[..|input| - 1]), input[|input| - 1])
  }

  /** How many bytes one push reads: all of them, or up to and including the first fatal one. */
  function Consumed(cfg: Config, s: State, input: seq<byte>): (n: nat)
    requires IsStream(s.mode)
    ensures n <= |input|
    decreases |input|
  {
    if input == [] then 0
    else
      var next := Step(cfg, s, input[0]);
      if FailedSince(s, next) then 1 else 1 + Consumed(cfg, next, input[1..])
  }

  function PushStream(cfg: Config, s: State, chunk: seq<byte>): (r: State)
    requires IsStream(s.mode)
    ensures IsStream(r.mode)
  {
    var input := s.buf + chunk;
    var n := Consumed(cfg, s, input);
    Run(cfg, s, input[..n]).(buf := input[n..])
  }

  function PushStreamAll(cfg: Config, s: State, chunks: seq<seq<byte>>): (r: State)
    requires IsStream(s.mode)
    ensures IsStream(r.mode)
    decreases |chunks|
  {
    if chunks == [] then s else PushStreamAll(cfg, PushStream(cfg, s, chunks[0]), chunks[1..])
  }

  // ----- algebra of runs

  lemma RunNothing(cfg: Config, s: State)
    requires IsStream(s.mode)
    ensures Run(cfg, s, []) == s
  {
  }

  lemma RunOne(cfg: Config, s: State, b: byte)
    requires IsStream(s.mode)
    ensures Run(cfg, s, [b]) == Step(cfg, s, b)
  {
    assert [b][..0] == [];
    assert Run(cfg, s, []) == s;
  }

  lemma {:induction false} RunConcat(cfg: Config, s: State, a: seq<byte>, b: seq<byte>)
    requires IsStream(s.mode)
    ensures Run(cfg, s, a + b) == Run(cfg, Run(cfg, s, a), b)
    decreases |b|
  {
    if b == [] {
      assert a + b == a;
    } else {
      var init, last := b[..|b| - 1], b[|b| - 1];
      RunConcat(cfg, s, a, init);
      assert (a + b)[..|a + b| - 1] == a + init;
    }
  }

  lemma RunCons(cfg: Config, s: State, b: byte, rest: seq<byte>)
    requires IsStream(s.mode)
    ensures Run(cfg, s, [b] + rest) == Run(cfg, Step(cfg, s, b), rest)
  {
    RunConcat(cfg, s, [b], rest);
    RunOne(cfg, s, b);
  }

  /** The buffer is not looked at by the machine. */
  lemma {:induction false} RunIgnoresBuf(cfg: Config, s: State, buf: seq<byte>, input: seq<byte>)
    requires IsStream(s.mode)
    ensures Run(cfg, s.(buf := buf), input) == Run(cfg, s, input).(buf := buf)
    decreases |input|
  {
    if input != [] {
      RunIgnoresBuf(cfg, s, buf, input[..|input| - 1]);
    }
  }

  // ----- every push, and every run of pushes

  /**
    After any sequence of pushes the input splits into a consumed prefix and the bytes still in `buf`,
    and mode, counter and every report ever made are those of the byte machine on the consumed prefix.
   */
  lemma {:induction false} PushesRefineByteMachine(cfg: Config, s: State, chunks: seq<seq<byte>>)
    requires IsStream(s.mode)
    ensures
      var input := s.buf + Join(chunks);
      var final := PushStreamAll(cfg, s, chunks);
      var n := |input| - |final.buf|;
      && 0 <= n && final.buf == input[n..]
      && final == Run(cfg, s, input[..n]).(buf := final.buf)
    decreases |chunks|
  {
    hide Run, Consumed;
    if chunks == [] {
      assert s.buf + Join(chunks) == s.buf;
      assert s.buf[..0] == [] && s.buf[0..] == s.buf;
      RunNothing(cfg, s);
    } else {
      var first, rest := s.buf + chunks[0], Join(chunks[1..]);
      var k := Consumed(cfg, s, first);
      var mid := PushStream(cfg, s, chunks[0]);
      PushesRefineByteMachine(cfg, mid, chunks[1..]);
      var final := PushStreamAll(cfg, s, chunks);
      var m := |mid.buf + rest| - |final.buf|;
      assert s.buf + Join(chunks) == first + rest;
      RegroupInput(first, rest, k, m);
      ResumeRun(cfg, s, first, k, (mid.buf + rest)[..m]);
    }
  }

  lemma RegroupInput(first: seq<byte>, rest: seq<byte>, k: nat, m: nat)
    requires k <= |first| && m <= |first[k..] + rest|
    ensures (first + rest)[..k + m] == first[..k] + (first[k..] + rest)[..m]
    ensures (first + rest)[k + m..] == (first[k..] + rest)[m..]
  {
  }

  lemma ResumeRun(cfg: Config, s: State, first: seq<byte>, k: nat, more: seq<byte>)
    requires IsStream(s.mode) && k <= |first|
    ensures forall buf :: Run(cfg, Run(cfg, s, first[..k]).(buf := first[k..]), more).(buf := buf)
                       == Run(cfg, s, first[..k] + more).(buf := buf)
  {
    RunConcat(cfg, s, first[..k], more);
    RunIgnoresBuf(cfg, Run(cfg, s, first[..k]), first[k..], more);
  }

  /** Reports are only ever appended. */
  lemma {:induction false} RunExtendsLog(cfg: Config, s: State, input: seq<byte>)
    requires IsStream(s.mode)
    ensures s.log <= Run(cfg, s, input).log
    decreases |input|
  {
    if input != [] {
      RunExtendsLog(cfg, s, input[..|input| - 1]);
    }
  }

  lemma ConsumedNothing(cfg: Config, s: State)
    requires IsStream(s.mode)
    ensures Consumed(cfg, s, []) == 0
  {
  }

  lemma ConsumedFront(cfg: Config, s: State, input: seq<byte>)
    requires IsStream(s.mode) && input != []
    ensures
      var next := Step(cfg, s, input[0]);
      Consumed(cfg, s, input) == if FailedSince(s, next) then 1 else 1 + Consumed(cfg, next, input[1..])
  {
  }

  lemma StepReportsOnce(cfg: Config, s: State, b: byte)
    requires IsStream(s.mode)
    ensures
      var next := Step(cfg, s, b);
      && s.log <= next.log && |next.log| <= |s.log| + 1
      && (!FailedSince(s, next) ==> forall i :: |s.log| <= i < |next.log| ==> !next.log[i].Failed?)
  {
  }

  lemma {:induction false} ConsumedStopsAtFirstFailure(cfg: Config, s: State, input: seq<byte>)
    requires IsStream(s.mode)
    ensures
      var n := Consumed(cfg, s, input);
      var after := Run(cfg, s, input[..n]);
      && s.log <= after.log
      && (forall i :: |s.log| <= i < |after.log| - 1 ==> !after.log[i].Failed?)
      && (FailedSince(s, after) || n == |input|)
    decreases |input|
  {
    hide Run, Step;
    if input == [] {
      assert input[..0] == [];
      RunNothing(cfg, s);
    } else {
      hide Consumed;
      var next := Step(cfg, s, input[0]);
      ConsumedFront(cfg, s, input);
      StepReportsOnce(cfg, s, input[0]);
      if FailedSince(s, next) {
        assert input[..1] == [input[0]];
        RunOne(cfg, s, input[0]);
      } else {
        var n := Consumed(cfg, next, input[1..]);
        ConsumedStopsAtFirstFailure(cfg, next, input[1..]);
        assert input[..1 + n] == [input[0]] + input[1..][..n];
        RunCons(cfg, s, input[0], input[1..][..n]);
      }
    }
  }

  /**
    One push keeps everything reported before it, reports at most one fatal error and nothing after it,
    and leaves bytes unread only behind such an error.
   */
  lemma PushReportsErrorsLast(cfg: Config, s: State, chunk: seq<byte>)
    requires IsStream(s.mode)
    ensures
      var after := PushStream(cfg, s, chunk);
      && s.log <= after.log
      && (forall i :: |s.log| <= i < |after.log| - 1 ==> !after.log[i].Failed?)
      && (after.buf != [] ==> FailedSince(s, after))
  {
    ConsumedStopsAtFirstFailure(cfg, s, s.buf + chunk);
  }

  /** Bytes left behind an error are worked off by further pushes, even empty ones. */
  lemma EmptyPushMakesProgress(cfg: Config, s: State)
    requires IsStream(s.mode) && s.buf != []
    ensures |PushStream(cfg, s, []).buf| < |s.buf|
  {
    assert s.buf + [] == s.buf;
  }

  /** Frame indices stay contiguous from zero through any bytes, errors included. */
  lemma {:induction false} RunKeepsNumbering(cfg: Config, s: State, input: seq<byte>)
    requires IsStream(s.mode) && Numbered(s)
    ensures Numbered(Run(cfg, s, input))
    decreases |input|
  {
    if input != [] {
      var prev := Run(cfg, s, input[..|input| - 1]);
      RunKeepsNumbering(cfg, s, input[..|input| - 1]);
      StepKeepsNumbering(cfg, prev, input[|input| - 1]);
    }
  }

  lemma StepKeepsNumbering(cfg: Config, s: State, b: byte)
    requires IsStream(s.mode) && Numbered(s)
    ensures Numbered(Step(cfg, s, b))
  {
    if s.mode.Slip? {
      SlipStepKeepsNumbering(cfg, s, b);
    } else if s.mode.cobs.CobsInFrame? {
      hide Frames, Emission, Numbered;
      EmitKeepsNumbering(cfg, s, DropPhantom(s.mode.cobs.decoded));
      NumberingIgnoresMode(s);
      NumberingIgnoresMode(EmitFrame(cfg, s, DropPhantom(s.mode.cobs.decoded)));
    }
  }

  lemma SlipStepKeepsNumbering(cfg: Config, s: State, b: byte)
    requires s.mode.Slip? && Numbered(s)
    ensures Numbered(SlipStep(cfg, s, b))
  {
    hide Frames, Emission;
    if s.mode.slip.SlipInFrame? {
      EmitKeepsNumbering(cfg, s, s.mode.slip.payload);
      LogAppend(s.log, Failed(SlipInvalidEscape(b)));
    }
  }

  lemma NumberingIgnoresMode(s: State)
    ensures forall mode :: Numbered(s.(mode := mode)) <==> Numbered(s)
  {
  }

  lemma PushesKeepNumbering(cfg: Config, mode: Mode, chunks: seq<seq<byte>>)
    requires IsStream(mode)
    ensures Numbered(PushStreamAll(cfg, Fresh(mode), chunks))
  {
    var s := Fresh(mode);
    PushesRefineByteMachine(cfg, s, chunks);
    var input := s.buf + Join(chunks);
    RunKeepsNumbering(cfg, s, input[..|input| - |PushStreamAll(cfg, s, chunks).buf|]);
  }

  /** When the whole input causes no failure, every chunking of it reaches the same state. */
  lemma ChunkingIsInvisible(cfg: Config, s: State, chunks: seq<seq<byte>>)
    requires IsStream(s.mode) && s.buf == []
    requires NoFailure(Run(cfg, s, Join(chunks)).log)
    ensures PushStreamAll(cfg, s, chunks) == Run(cfg, s, Join(chunks))
  {
    hide Run, Consumed, PushStreamAll, Join;
    PushesRefineByteMachine(cfg, s, chunks);
    var input := Join(chunks);
    assert s.buf + input == input;
    var final := PushStreamAll(cfg, s, chunks);
    var n := |input| - |final.buf|;
    PushesDrainUnlessFailing(cfg, s, chunks);
    RunConcat(cfg, s, input[..n], input[n..]);
    assert input[..n] + input[n..] == input;
    RunExtendsLog(cfg, Run(cfg, s, input[..n]), input[n..]);
    assert forall i :: |s.log| <= i < |final.log| ==> final.log[i] == Run(cfg, s, input).log[i];
    assert n == |input| ==> input[..n] == input;
  }

  lemma {:induction false} PushesDrainUnlessFailing(cfg: Config, s: State, chunks: seq<seq<byte>>)
    requires IsStream(s.mode) && s.buf == []
    ensures
      var final := PushStreamAll(cfg, s, chunks);
      && s.log <= final.log
      && (final.buf == [] || exists i :: |s.log| <= i < |final.log| && final.log[i].Failed?)
    decreases |chunks|
  {
    if chunks != [] {
      var mid := PushStream(cfg, s, chunks[0]);
      PushReportsErrorsLast(cfg, s, chunks[0]);
      PushesExtendLog(cfg, mid, chunks[1..]);
      if mid.buf == [] {
        PushesDrainUnlessFailing(cfg, mid, chunks[1..]);
      } else {
        assert PushStreamAll(cfg, s, chunks).log[|mid.log| - 1].Failed?;
      }
    }
  }

  lemma {:induction false} PushesExtendLog(cfg: Config, s: State, chunks: seq<seq<byte>>)
    requires IsStream(s.mode)
    ensures s.log <= PushStreamAll(cfg, s, chunks).log
    decreases |chunks|
  {
    PushesRefineByteMachine(cfg, s, chunks);
    var input := s.buf + Join(chunks);
    RunExtendsLog(cfg, s, input[..|input| - |PushStreamAll(cfg, s, chunks).buf|]);
  }
}
