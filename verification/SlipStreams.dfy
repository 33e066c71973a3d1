/**
  SLIP decoding of arbitrary bytes, canonical or not: which escapes are malformed, that exactly these are
  reported, and what the frames of every other stream are.
 */
module SlipStreams {
  import opened Bytes
  import opened Framing
  import opened ByteMachine
  import opened SlipCodec

  predicate EndsEscape(b: byte) {
    b == SLIP_ESC_END || b == SLIP_ESC_ESC
  }

  /** An ESC followed by a byte that no escape ends with. */
  predicate MalformedAt(s: seq<byte>, i: nat) {
    i + 1 < |s| && s[i] == SLIP_ESC && !EndsEscape(s[i + 1])
  }

  ghost predicate IsClean(s: seq<byte>) {
    forall i: nat :: !MalformedAt(s, i)
  }

  ghost predicate IsFirstMalformed(s: seq<byte>, i: nat) {
    MalformedAt(s, i) && forall j: nat :: j < i ==> !MalformedAt(s, j)
  }

  // ----- one step inside a frame

  predicate IsOpen(mode: Mode) {
    mode.Slip? && mode.slip.SlipInFrame? && !mode.slip.escaped
  }

  /** A byte that is no ESC keeps a parserless decoder inside a frame, without failure. */
  lemma PlainByte(cfg: Config, s: State, b: byte)
    requires cfg.parser.None? && IsOpen(s.mode) && b != SLIP_ESC && NoFailure(s.log)
    ensures IsOpen(Step(cfg, s, b).mode) && NoFailure(Step(cfg, s, b).log)
    ensures !FailedSince(s, Step(cfg, s, b))
    ensures b != SLIP_END ==>
      Step(cfg, s, b) == s.(mode := Slip(SlipInFrame(s.mode.slip.payload + [b], false)))
    ensures b == SLIP_END ==>
      && Step(cfg, s, b).mode == Slip(SlipInFrame([], false))
      && Payloads(Step(cfg, s, b).log) == Payloads(s.log) + KeptOne(cfg, s.mode.slip.payload)
  {
    if b == SLIP_END {
      EndEmits(cfg, s, s.mode.slip.payload);
    }
  }

  /** ESC and its second byte: the escaped byte, or the failure that names it. */
  lemma EscapePair(cfg: Config, s: State, b: byte)
    requires IsOpen(s.mode)
    ensures
      var mid := Step(cfg, s, SLIP_ESC);
      var r := Step(cfg, mid, b);
      && !FailedSince(s, mid) == !FailedSince(s, s) && mid.log == s.log && IsStream(mid.mode)
      && (EndsEscape(b) ==>
            r == s.(mode := Slip(SlipInFrame(s.mode.slip.payload + [if b == SLIP_ESC_END then SLIP_END else SLIP_ESC], false))))
      && (!EndsEscape(b) ==> r == s.(mode := Slip(BeforeFirstEnd), log := s.log + [Failed(SlipInvalidEscape(b))]))
  {
  }

  // ----- failures, exactly

  lemma CleanTail(s: seq<byte>, n: nat)
    requires n <= |s|
    ensures forall i: nat :: MalformedAt(s[n..], i) <==> MalformedAt(s, i + n)
  {
  }

  /** Clean bytes run through without failure. */
  lemma {:induction false} CleanRunsThrough(cfg: Config, s: State, input: seq<byte>)
    requires cfg.parser.None? && IsOpen(s.mode) && NoFailure(s.log) && IsClean(input)
    ensures Consumed(cfg, s, input) == |input| && NoFailure(Run(cfg, s, input).log)
    decreases |input|
  {
    hide Run, Consumed, Step, MalformedAt;
    if input == [] {
      ConsumedNothing(cfg, s);
      RunNothing(cfg, s);
    } else if input[0] != SLIP_ESC {
      PlainByte(cfg, s, input[0]);
      CleanTail(input, 1);
      CleanRunsThrough(cfg, Step(cfg, s, input[0]), input[1..]);
      ConsumedFront(cfg, s, input);
      RunFront(cfg, s, input);
    } else {
      var mid := Step(cfg, s, SLIP_ESC);
      EscapeOpens(cfg, s);
      ConsumedFront(cfg, s, input);
      RunFront(cfg, s, input);
      if |input| == 1 {
        ConsumedNothing(cfg, mid);
        RunNothing(cfg, mid);
        assert input[1..] == [];
      } else {
        CleanPair(input);
        EscapePair(cfg, s, input[1]);
        CleanTail(input, 2);
        CleanRunsThrough(cfg, Step(cfg, mid, input[1]), input[2..]);
        ConsumedFront(cfg, mid, input[1..]);
        RunFront(cfg, mid, input[1..]);
        assert input[1..][1..] == input[2..];
      }
    }
  }

  lemma CleanPair(input: seq<byte>)
    requires |input| >= 2 && input[0] == SLIP_ESC && IsClean(input)
    ensures EndsEscape(input[1])
  {
    assert !MalformedAt(input, 0);
  }

  lemma EscapeOpens(cfg: Config, s: State)
    requires IsOpen(s.mode)
    ensures
      var mid := Step(cfg, s, SLIP_ESC);
      mid == s.(mode := Slip(SlipInFrame(s.mode.slip.payload, true))) && !FailedSince(s, mid)
  {
  }

  lemma RunFront(cfg: Config, s: State, input: seq<byte>)
    requires IsStream(s.mode) && input != []
    ensures Run(cfg, s, input) == Run(cfg, Step(cfg, s, input[0]), input[1..])
  {
    RunCons(cfg, s, input[0], input[1..]);
    assert [input[0]] + input[1..] == input;
  }

  /** The machine stops right behind the malformed escape, having reported it, and is outside. */
  ghost predicate StopsAt(cfg: Config, s: State, input: seq<byte>, i: nat)
    requires IsStream(s.mode) && i + 1 < |input|
  {
    var r := Run(cfg, s, input[..i + 2]);
    && Consumed(cfg, s, input) == i + 2
    && r.mode == Slip(BeforeFirstEnd)
    && r.log != [] && r.log[|r.log| - 1] == Failed(SlipInvalidEscape(input[i + 1]))
    && NoFailure(r.log[..|r.log| - 1])
  }

  lemma {:induction false} StopsAtMalformed(cfg: Config, s: State, input: seq<byte>, i: nat)
    requires cfg.parser.None? && IsOpen(s.mode) && NoFailure(s.log) && IsFirstMalformed(input, i)
    ensures StopsAt(cfg, s, input, i)
    decreases |input|
  {
    hide Run, Consumed, Step;
    if i == 0 {
      StopsNow(cfg, s, input);
    } else if input[0] != SLIP_ESC {
      PlainByte(cfg, s, input[0]);
      CleanTail(input, 1);
      assert forall j: nat :: j < i - 1 ==> !MalformedAt(input[1..], j);
      StopsAtMalformed(cfg, Step(cfg, s, input[0]), input[1..], i - 1);
      StopsOneLater(cfg, s, input, i);
    } else {
      var mid := Step(cfg, s, SLIP_ESC);
      FirstPairIsFine(input, i);
      EscapeOpens(cfg, s);
      EscapePair(cfg, s, input[1]);
      CleanTail(input, 2);
      assert forall j: nat :: j < i - 2 ==> !MalformedAt(input[2..], j);
      StopsAtMalformed(cfg, Step(cfg, mid, input[1]), input[2..], i - 2);
      assert input[1..][1..] == input[2..];
      StopsOneLater(cfg, mid, input[1..], i - 1);
      StopsOneLater(cfg, s, input, i);
    }
  }

  /** A first malformed escape further on leaves the pair in front well-formed, and is not part of it. */
  lemma FirstPairIsFine(input: seq<byte>, i: nat)
    requires IsFirstMalformed(input, i) && i > 0 && input[0] == SLIP_ESC
    ensures EndsEscape(input[1]) && i >= 2 && IsFirstMalformed(input[2..], i - 2)
  {
    assert !MalformedAt(input, 0);
    CleanTail(input, 2);
  }

  lemma StopsNow(cfg: Config, s: State, input: seq<byte>)
    requires cfg.parser.None? && IsOpen(s.mode) && NoFailure(s.log) && MalformedAt(input, 0)
    ensures StopsAt(cfg, s, input, 0)
  {
    hide Run, Consumed, Step;
    var mid := Step(cfg, s, SLIP_ESC);
    EscapeOpens(cfg, s);
    EscapePair(cfg, s, input[1]);
    ConsumedFront(cfg, s, input);
    ConsumedFront(cfg, mid, input[1..]);
    var r := Step(cfg, mid, input[1]);
    assert FailedSince(mid, r);
    RunFront(cfg, s, input[..2]);
    assert input[..2][1..] == [input[1]];
    RunOne(cfg, mid, input[1]);
    assert r.log[..|r.log| - 1] == s.log;
  }

  lemma StopsOneLater(cfg: Config, s: State, input: seq<byte>, i: nat)
    requires IsStream(s.mode) && 0 < i && i + 1 < |input|
    requires !FailedSince(s, Step(cfg, s, input[0])) && StopsAt(cfg, Step(cfg, s, input[0]), input[1..], i - 1)
    ensures StopsAt(cfg, s, input, i)
  {
    hide Run, Consumed, Step;
    ConsumedFront(cfg, s, input);
    RunFront(cfg, s, input[..i + 2]);
    assert input[..i + 2][1..] == input[1..][..i - 1 + 2];
  }

  // ----- whole pushes

  /** The bytes behind the first END: everything before is skipped. */
  function Inside(stream: seq<byte>): seq<byte> {
    match Position(stream, SLIP_END)
    case None => []
    case Some(e) => stream[e + 1..]
  }

  /** Outside a frame a push goes on behind the first END. */
  lemma EntersFrame(cfg: Config, s: State, stream: seq<byte>, e: nat, n: nat)
    requires s.mode == Slip(BeforeFirstEnd) && Position(stream, SLIP_END) == Some(e) && n <= |stream| - e - 1
    ensures
      var inside := s.(mode := Slip(SlipInFrame([], false)));
      && Consumed(cfg, s, stream) == e + 1 + Consumed(cfg, inside, stream[e + 1..])
      && Run(cfg, s, stream[..e + 1 + n]) == Run(cfg, inside, stream[e + 1..][..n])
  {
    hide Run, Consumed, Step;
    var inside := s.(mode := Slip(SlipInFrame([], false)));
    assert SLIP_END !in stream[..e];
    SkipsJunk(cfg, s, stream, e);
    JunkIsSkipped(cfg, s, stream[..e]);
    EndOpens(cfg, s);
    ConsumedFront(cfg, s, stream[e..]);
    assert stream[e..][1..] == stream[e + 1..];
    assert stream[..e + 1 + n] == stream[..e] + ([SLIP_END] + stream[e + 1..][..n]);
    RunConcat(cfg, s, stream[..e], [SLIP_END] + stream[e + 1..][..n]);
    RunCons(cfg, s, SLIP_END, stream[e + 1..][..n]);
  }

  lemma EndOpens(cfg: Config, s: State)
    requires s.mode == Slip(BeforeFirstEnd)
    ensures Step(cfg, s, SLIP_END) == s.(mode := Slip(SlipInFrame([], false))) && !FailedSince(s, Step(cfg, s, SLIP_END))
  {
  }

  lemma {:induction false} SkipsJunk(cfg: Config, s: State, stream: seq<byte>, e: nat)
    requires s.mode == Slip(BeforeFirstEnd) && e <= |stream| && SLIP_END !in stream[..e]
    ensures Consumed(cfg, s, stream) == e + Consumed(cfg, s, stream[e..])
    decreases e
  {
    if e == 0 {
      assert stream[0..] == stream;
    } else {
      assert stream[..e][0] == stream[0];
      assert stream[1..][..e - 1] == stream[..e][1..];
      SkipsJunk(cfg, s, stream[1..], e - 1);
      assert stream[1..][e - 1..] == stream[e..];
    }
  }

  /**
    The exact law of failures: a fresh parserless decoder fails on a push if and only if, behind the first
    END, some ESC is followed by a byte that ends no escape.  It then reports the first such byte last,
    stands outside any frame, and keeps everything behind that byte unread.
   */
  lemma FailsExactlyWhenMalformed(cfg: Config, stream: seq<byte>)
    requires cfg.parser.None?
    ensures
      var r := PushStream(cfg, Fresh(Slip(BeforeFirstEnd)), stream);
      && (NoFailure(r.log) <==> IsClean(Inside(stream)))
      && (NoFailure(r.log) ==> r.buf == [])
      && (forall i: nat :: IsFirstMalformed(Inside(stream), i) ==>
            && r.mode == Slip(BeforeFirstEnd) && r.buf == Inside(stream)[i + 2..]
            && r.log != [] && r.log[|r.log| - 1] == Failed(SlipInvalidEscape(Inside(stream)[i + 1]))
            && NoFailure(r.log[..|r.log| - 1]))
  {
    hide Run, Consumed, Step, MalformedAt;
    var s := Fresh(Slip(BeforeFirstEnd));
    assert s.buf + stream == stream;
    match Position(stream, SLIP_END)
    case None =>
      assert stream[..|stream|] == stream;
      SkipsJunk(cfg, s, stream, |stream|);
      assert stream[|stream|..] == [];
      ConsumedNothing(cfg, s);
      JunkIsSkipped(cfg, s, stream);
      NothingIsClean();
    case Some(e) =>
      FailsInside(cfg, stream, e);
  }

  lemma NothingIsClean()
    ensures IsClean([]) && forall i: nat :: !IsFirstMalformed([], i)
  {
  }

  lemma FailsInside(cfg: Config, stream: seq<byte>, e: nat)
    requires cfg.parser.None? && Position(stream, SLIP_END) == Some(e)
    ensures
      var r, tail := PushStream(cfg, Fresh(Slip(BeforeFirstEnd)), stream), stream[e + 1..];
      && (NoFailure(r.log) <==> IsClean(tail))
      && (NoFailure(r.log) ==> r.buf == [])
      && (forall i: nat :: IsFirstMalformed(tail, i) ==>
            && r.mode == Slip(BeforeFirstEnd) && r.buf == tail[i + 2..]
            && r.log != [] && r.log[|r.log| - 1] == Failed(SlipInvalidEscape(tail[i + 1]))
            && NoFailure(r.log[..|r.log| - 1]))
  {
    hide Run, Consumed, Step, MalformedAt, NoFailure;
    var tail := stream[e + 1..];
    if IsClean(tail) {
      CleanInside(cfg, stream, e);
    } else {
      var i := FindMalformed(tail);
      StopsInside(cfg, stream, e, i);
      FailedLast(PushStream(cfg, Fresh(Slip(BeforeFirstEnd)), stream).log);
      forall k: nat | IsFirstMalformed(tail, k) ensures k == i {
      }
    }
  }

  lemma FailedLast(log: seq<Event>)
    ensures log != [] && log[|log| - 1].Failed? ==> !NoFailure(log)
  {
  }

  lemma CleanInside(cfg: Config, stream: seq<byte>, e: nat)
    requires cfg.parser.None? && Position(stream, SLIP_END) == Some(e) && IsClean(stream[e + 1..])
    ensures
      var r := PushStream(cfg, Fresh(Slip(BeforeFirstEnd)), stream);
      NoFailure(r.log) && r.buf == []
  {
    hide Run, Consumed, Step, IsClean;
    var s, tail := Fresh(Slip(BeforeFirstEnd)), stream[e + 1..];
    assert s.buf + stream == stream;
    EntersFrame(cfg, s, stream, e, |tail|);
    CleanRunsThrough(cfg, s.(mode := Slip(SlipInFrame([], false))), tail);
    assert tail[..|tail|] == tail;
  }

  lemma StopsInside(cfg: Config, stream: seq<byte>, e: nat, i: nat)
    requires cfg.parser.None? && Position(stream, SLIP_END) == Some(e) && IsFirstMalformed(stream[e + 1..], i)
    ensures
      var r, tail := PushStream(cfg, Fresh(Slip(BeforeFirstEnd)), stream), stream[e + 1..];
      && i + 1 < |tail| && r.mode == Slip(BeforeFirstEnd) && r.buf == tail[i + 2..]
      && r.log != [] && r.log[|r.log| - 1] == Failed(SlipInvalidEscape(tail[i + 1]))
      && NoFailure(r.log[..|r.log| - 1])
  {
    hide Run, Consumed, Step, MalformedAt, IsFirstMalformed, NoFailure;
    var s, tail := Fresh(Slip(BeforeFirstEnd)), stream[e + 1..];
    FirstIsInside(tail, i);
    FreshHasNotFailed(s.mode);
    EntersFrame(cfg, s, stream, e, i + 2);
    StopsAtMalformed(cfg, s.(mode := Slip(SlipInFrame([], false))), tail, i);
    assert s.buf + stream == stream && stream[e + 1 + (i + 2)..] == tail[i + 2..];
  }

  lemma FreshHasNotFailed(mode: Mode)
    ensures NoFailure(Fresh(mode).log)
  {
  }

  lemma FirstIsInside(s: seq<byte>, i: nat)
    requires IsFirstMalformed(s, i)
    ensures i + 1 < |s|
  {
  }

  lemma FindMalformed(s: seq<byte>) returns (i: nat)
    requires !IsClean(s)
    ensures IsFirstMalformed(s, i)
  {
    var k: nat :| MalformedAt(s, k);
    i := 0;
    while !MalformedAt(s, i)
      invariant i <= k && forall j: nat :: j < i ==> !MalformedAt(s, j)
      decreases k - i
    {
      i := i + 1;
    }
  }

  /**
    In particular, from any state outside a frame and with any parser: a stuffed payload with a bad escape
    behind it reports that escape and nothing else, and leaves the rest of the bytes unread.
   */
  lemma BadEscapeIsReported(cfg: Config, s: State, p: seq<byte>, b: byte, rest: seq<byte>)
    requires s.mode == Slip(BeforeFirstEnd) && s.buf == [] && !EndsEscape(b)
    ensures PushStream(cfg, s, [SLIP_END] + Stuffed(p) + [SLIP_ESC, b] + rest)
         == State(Slip(BeforeFirstEnd), rest, s.count, s.log + [Failed(SlipInvalidEscape(b))])
  {
    hide Run, Consumed, Step, Stuffed;
    var head := [SLIP_END] + Stuffed(p) + [SLIP_ESC, b];
    var input := head + rest;
    assert s.buf + input == input && input[..|head|] == head && input[|head|..] == rest;
    BadEscapeStops(cfg, s, p, b, rest);
    BadEscapeFails(cfg, s, p, b);
  }

  lemma BadEscapeStops(cfg: Config, s: State, p: seq<byte>, b: byte, rest: seq<byte>)
    requires s.mode == Slip(BeforeFirstEnd) && !EndsEscape(b)
    ensures Consumed(cfg, s, [SLIP_END] + Stuffed(p) + [SLIP_ESC, b] + rest) == |Stuffed(p)| + 3
  {
    hide Run, Consumed, Step, Stuffed;
    var input, bad := [SLIP_END] + Stuffed(p) + [SLIP_ESC, b] + rest, [SLIP_ESC, b] + rest;
    var inside, full := s.(mode := Slip(SlipInFrame([], false))), s.(mode := Slip(SlipInFrame(p, false)));
    EndOpens(cfg, s);
    ConsumedFront(cfg, s, input);
    assert input[1..] == Stuffed(p) + bad;
    StuffedIsRead(cfg, inside, [], p, bad);
    assert [] + p == p;
    EscapeOpens(cfg, full);
    EscapePair(cfg, full, b);
    ConsumedFront(cfg, full, bad);
    assert bad[1..] == [b] + rest;
    ConsumedFront(cfg, Step(cfg, full, SLIP_ESC), [b] + rest);
  }

  lemma BadEscapeFails(cfg: Config, s: State, p: seq<byte>, b: byte)
    requires s.mode == Slip(BeforeFirstEnd) && !EndsEscape(b)
    ensures Run(cfg, s, [SLIP_END] + Stuffed(p) + [SLIP_ESC, b])
         == s.(mode := Slip(BeforeFirstEnd), log := s.log + [Failed(SlipInvalidEscape(b))])
  {
    hide Run, Consumed, Step, Stuffed;
    var inside, full := s.(mode := Slip(SlipInFrame([], false))), s.(mode := Slip(SlipInFrame(p, false)));
    assert [SLIP_END] + Stuffed(p) + [SLIP_ESC, b] == [SLIP_END] + (Stuffed(p) + ([SLIP_ESC] + [b]));
    EndOpens(cfg, s);
    RunCons(cfg, s, SLIP_END, Stuffed(p) + ([SLIP_ESC] + [b]));
    RunConcat(cfg, inside, Stuffed(p), [SLIP_ESC] + [b]);
    UnstuffInFrame(cfg, inside, [], p);
    assert [] + p == p;
    EscapePair(cfg, full, b);
    RunCons(cfg, full, SLIP_ESC, [b]);
    RunOne(cfg, Step(cfg, full, SLIP_ESC), b);
  }

  /** A stuffed payload is read to its end. */
  lemma {:induction false} StuffedIsRead(cfg: Config, s: State, before: seq<byte>, p: seq<byte>, more: seq<byte>)
    requires s.mode == Slip(SlipInFrame(before, false))
    ensures Consumed(cfg, s, Stuffed(p) + more)
         == |Stuffed(p)| + Consumed(cfg, s.(mode := Slip(SlipInFrame(before + p, false))), more)
    decreases |p|
  {
    hide Consumed, Step;
    if p == [] {
      assert Stuffed(p) + more == more && before + p == before;
    } else {
      var init, last := p[..|p| - 1], p[|p| - 1];
      var full := s.(mode := Slip(SlipInFrame(before + init, false)));
      assert Stuffed(p) + more == Stuffed(init) + (StuffByte(last) + more);
      StuffedIsRead(cfg, s, before, init, StuffByte(last) + more);
      StuffedByteIsRead(cfg, full, last, more);
      assert before + init + [last] == before + p;
    }
  }

  lemma StuffedByteIsRead(cfg: Config, s: State, b: byte, more: seq<byte>)
    requires IsOpen(s.mode)
    ensures Consumed(cfg, s, StuffByte(b) + more)
         == |StuffByte(b)| + Consumed(cfg, s.(mode := Slip(SlipInFrame(s.mode.slip.payload + [b], false))), more)
  {
    hide Consumed, Step;
    var input := StuffByte(b) + more;
    ConsumedFront(cfg, s, input);
    if b == SLIP_END || b == SLIP_ESC {
      var code := if b == SLIP_END then SLIP_ESC_END else SLIP_ESC_ESC;
      EscapeOpens(cfg, s);
      EscapePair(cfg, s, code);
      assert input[1..] == [code] + more;
      ConsumedFront(cfg, Step(cfg, s, SLIP_ESC), [code] + more);
      assert ([code] + more)[1..] == more;
    } else {
      DataByte(cfg, s, b);
      assert input[1..] == more;
    }
  }

  lemma DataByte(cfg: Config, s: State, b: byte)
    requires IsOpen(s.mode) && b != SLIP_END && b != SLIP_ESC
    ensures Step(cfg, s, b) == s.(mode := Slip(SlipInFrame(s.mode.slip.payload + [b], false)))
    ensures !FailedSince(s, Step(cfg, s, b))
  {
  }

  // ----- the frames of clean streams

  /** What a clean frame body stands for. */
  function Unescaped(body: seq<byte>): seq<byte>
    decreases |body|
  {
    if body == [] then []
    else if body[0] == SLIP_ESC && |body| >= 2 then
      [if body[1] == SLIP_ESC_END then SLIP_END else SLIP_ESC] + Unescaped(body[2..])
    else if body[0] == SLIP_ESC then []
    else [body[0]] + Unescaped(body[1..])
  }

  /** The bodies that an END closes. */
  function ClosedBodies(s: seq<byte>): seq<seq<byte>>
    decreases |s|
  {
    match Position(s, SLIP_END)
    case None => []
    case Some(e) => [s[..e]] + ClosedBodies(s[e + 1..])
  }

  function UnescapedAll(cfg: Config, bodies: seq<seq<byte>>): seq<seq<byte>> {
    if bodies == [] then [] else KeptOne(cfg, Unescaped(bodies[0])) + UnescapedAll(cfg, bodies[1..])
  }

  /** Reading one body up to its END. */
  lemma {:induction false} BodyIsRead(cfg: Config, s: State, body: seq<byte>, more: seq<byte>)
    requires cfg.parser.None? && IsOpen(s.mode) && NoFailure(s.log)
    requires SLIP_END !in body && IsClean(body + [SLIP_END] + more)
    ensures Run(cfg, s, body + [SLIP_END] + more)
         == Run(cfg, Step(cfg, s.(mode := Slip(SlipInFrame(s.mode.slip.payload + Unescaped(body), false))), SLIP_END), more)
    decreases |body|
  {
    hide Run, Step, MalformedAt, Unescaped;
    var input := body + [SLIP_END] + more;
    UnescapedUnfolds(body);
    if body == [] {
      assert input == [SLIP_END] + more && s.mode.slip.payload + [] == s.mode.slip.payload;
      RunCons(cfg, s, SLIP_END, more);
    } else if body[0] != SLIP_ESC {
      DataByte(cfg, s, body[0]);
      RunFront(cfg, s, input);
      CleanTail(input, 1);
      assert input[1..] == body[1..] + [SLIP_END] + more;
      BodyIsRead(cfg, Step(cfg, s, body[0]), body[1..], more);
      assert s.mode.slip.payload + [body[0]] + Unescaped(body[1..]) == s.mode.slip.payload + Unescaped(body);
    } else {
      CleanPair(input);
      BodyDoesNotEndInEscape(body, more);
      PairIsRead(cfg, s, body, more);
      CleanTail(input, 2);
      assert input[2..] == body[2..] + [SLIP_END] + more;
      var b := if body[1] == SLIP_ESC_END then SLIP_END else SLIP_ESC;
      BodyIsRead(cfg, s.(mode := Slip(SlipInFrame(s.mode.slip.payload + [b], false))), body[2..], more);
      assert s.mode.slip.payload + [b] + Unescaped(body[2..]) == s.mode.slip.payload + Unescaped(body);
    }
  }

  lemma UnescapedUnfolds(body: seq<byte>)
    ensures Unescaped([]) == []
    ensures body != [] && body[0] != SLIP_ESC ==> Unescaped(body) == [body[0]] + Unescaped(body[1..])
    ensures |body| >= 2 && body[0] == SLIP_ESC ==>
      Unescaped(body) == [if body[1] == SLIP_ESC_END then SLIP_END else SLIP_ESC] + Unescaped(body[2..])
  {
  }

  lemma PairIsRead(cfg: Config, s: State, body: seq<byte>, more: seq<byte>)
    requires IsOpen(s.mode) && |body| >= 2 && body[0] == SLIP_ESC && EndsEscape(body[1])
    ensures
      var b := if body[1] == SLIP_ESC_END then SLIP_END else SLIP_ESC;
      Run(cfg, s, body + [SLIP_END] + more)
      == Run(cfg, s.(mode := Slip(SlipInFrame(s.mode.slip.payload + [b], false))), body[2..] + [SLIP_END] + more)
  {
    hide Run, Step;
    var input := body + [SLIP_END] + more;
    EscapeOpens(cfg, s);
    EscapePair(cfg, s, body[1]);
    RunFront(cfg, s, input);
    RunFront(cfg, Step(cfg, s, SLIP_ESC), input[1..]);
    assert input[1..][1..] == body[2..] + [SLIP_END] + more;
  }

  lemma BodyDoesNotEndInEscape(body: seq<byte>, more: seq<byte>)
    requires body != [] && body[0] == SLIP_ESC && EndsEscape((body + [SLIP_END] + more)[1])
    ensures |body| >= 2 && body[1] == (body + [SLIP_END] + more)[1]
  {
  }

  lemma {:induction false} CleanFramesDecode(cfg: Config, s: State, input: seq<byte>)
    requires cfg.parser.None? && s.mode == Slip(SlipInFrame([], false)) && NoFailure(s.log) && IsClean(input)
    ensures Payloads(Run(cfg, s, input).log) == Payloads(s.log) + UnescapedAll(cfg, ClosedBodies(input))
    decreases |input|
  {
    hide Run, Step, MalformedAt, Payloads, Unescaped, KeptOne;
    match Position(input, SLIP_END)
    case None => OpenFrameReportsNothing(cfg, s, input);
    case Some(e) =>
      var body, more := input[..e], input[e + 1..];
      assert input == body + [SLIP_END] + more;
      assert SLIP_END !in body;
      BodyIsRead(cfg, s, body, more);
      assert [] + Unescaped(body) == Unescaped(body);
      var full := s.(mode := Slip(SlipInFrame(Unescaped(body), false)));
      PlainByte(cfg, full, SLIP_END);
      CleanTail(input, e + 1);
      CleanFramesDecode(cfg, Step(cfg, full, SLIP_END), more);
      assert ([body] + ClosedBodies(more))[1..] == ClosedBodies(more);
      assert Payloads(s.log) + KeptOne(cfg, Unescaped(body)) + UnescapedAll(cfg, ClosedBodies(more))
          == Payloads(s.log) + (KeptOne(cfg, Unescaped(body)) + UnescapedAll(cfg, ClosedBodies(more)));
  }

  lemma {:induction false} OpenFrameReportsNothing(cfg: Config, s: State, input: seq<byte>)
    requires IsOpen(s.mode) && SLIP_END !in input && IsClean(input)
    ensures Run(cfg, s, input).log == s.log
    decreases |input|
  {
    hide Run, Step, MalformedAt;
    if input == [] {
      RunNothing(cfg, s);
    } else if input[0] != SLIP_ESC {
      DataByte(cfg, s, input[0]);
      RunFront(cfg, s, input);
      CleanTail(input, 1);
      OpenFrameReportsNothing(cfg, Step(cfg, s, input[0]), input[1..]);
    } else {
      EscapeOpens(cfg, s);
      RunFront(cfg, s, input);
      if |input| == 1 {
        assert input[1..] == [];
        RunNothing(cfg, Step(cfg, s, SLIP_ESC));
      } else {
        CleanPair(input);
        EscapePair(cfg, s, input[1]);
        RunFront(cfg, Step(cfg, s, SLIP_ESC), input[1..]);
        assert input[1..][1..] == input[2..];
        CleanTail(input, 2);
        OpenFrameReportsNothing(cfg, Step(cfg, Step(cfg, s, SLIP_ESC), input[1]), input[2..]);
      }
    }
  }

  /**
    Every other stream, for every chunking: the reported payloads are the unescaped bodies between ENDs, in
    order, skip_empty applied.
   */
  lemma {:induction false} CleanStreamsDecode(cfg: Config, chunks: seq<seq<byte>>)
    requires cfg.parser.None? && IsClean(Inside(Join(chunks)))
    ensures
      var r := PushStreamAll(cfg, Fresh(Slip(BeforeFirstEnd)), chunks);
      NoFailure(r.log) && r.buf == [] && Payloads(r.log) == UnescapedAll(cfg, ClosedBodies(Inside(Join(chunks))))
  {
    hide Run, Consumed, Step, MalformedAt, UnescapedAll;
    var s, stream := Fresh(Slip(BeforeFirstEnd)), Join(chunks);
    match Position(stream, SLIP_END)
    case None =>
      JunkIsSkipped(cfg, s, stream);
      ChunkingIsInvisible(cfg, s, chunks);
      NothingUnescaped(cfg);
    case Some(e) =>
      var inside, tail := s.(mode := Slip(SlipInFrame([], false))), stream[e + 1..];
      EntersFrame(cfg, s, stream, e, |tail|);
      assert stream[..e + 1 + |tail|] == stream && tail[..|tail|] == tail;
      CleanRunsThrough(cfg, inside, tail);
      CleanFramesDecode(cfg, inside, tail);
      ChunkingIsInvisible(cfg, s, chunks);
      assert Payloads(s.log) + UnescapedAll(cfg, ClosedBodies(tail)) == UnescapedAll(cfg, ClosedBodies(tail));
  }

  lemma NothingUnescaped(cfg: Config)
    ensures UnescapedAll(cfg, ClosedBodies([])) == []
  {
  }

  /** The transmitted bytes of END and ESC, as the PROTOCOL section of RFC 1055 gives them. */
  lemma StandardBytes()
    ensures Framed([0xC0, 0xDB, 0x41]) == [0xC0, 0xDB, 0xDC, 0xDB, 0xDD, 0x41, 0xC0]
  {
    var p: seq<byte> := [0xC0, 0xDB, 0x41];
    assert p[..2] == [0xC0, 0xDB] && p[..2][..1] == [0xC0] && p[..2][..1][..0] == [];
    assert Stuffed(p[..2][..1]) == [0xDB, 0xDC];
    assert Stuffed(p[..2]) == [0xDB, 0xDC, 0xDB, 0xDD];
  }
}
