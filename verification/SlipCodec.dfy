/** SLIP framing as in the PROTOCOL section of RFC 1055: stuffing, round trips and resynchronisation. */
module SlipCodec {
  import opened Bytes
  import opened Framing
  import opened ByteMachine

  // ----- TX

  function StuffByte(b: byte): seq<byte> {
    if b == SLIP_END then [SLIP_ESC, SLIP_ESC_END]
    else if b == SLIP_ESC then [SLIP_ESC, SLIP_ESC_ESC]
    else [b]
  }

  /** The stuffed form of a payload, byte by byte. */
  function Stuffed(payload: seq<byte>): seq<byte> {
    if payload == [] then []
    else Stuffed(payload[..|payload| - 1]) + StuffByte(payload[|payload| - 1])
  }

  function Framed(payload: seq<byte>): seq<byte> {
    [SLIP_END] + Stuffed(payload) + [SLIP_END]
  }

  method SlipStuff(payload: seq<byte>) returns (out: seq<byte>)
    ensures out == Stuffed(payload)
    ensures SLIP_END !in out
  {
    out := [];
    for i := 0 to |payload|
      invariant out == Stuffed(payload[..i])
    {
      var b := payload[i];
      assert payload[..i + 1][..i] == payload[..i];
      if b == SLIP_END {
        out := out + [SLIP_ESC];
        out := out + [SLIP_ESC_END];
      } else if b == SLIP_ESC {
        out := out + [SLIP_ESC];
        out := out + [SLIP_ESC_ESC];
      } else {
        out := out + [b];
      }
    }
    assert payload[..|payload|] == payload;
    StuffedHasNoEnd(payload);
  }

  lemma {:induction false} StuffedHasNoEnd(payload: seq<byte>)
    ensures SLIP_END !in Stuffed(payload)
  {
    if payload != [] {
      StuffedHasNoEnd(payload[..|payload| - 1]);
    }
  }

  // ----- RX on stuffed input

  lemma {:induction false} UnstuffInFrame(cfg: Config, s: State, before: seq<byte>, payload: seq<byte>)
    requires s.mode == Slip(SlipInFrame(before, false))
    ensures Run(cfg, s, Stuffed(payload)) == s.(mode := Slip(SlipInFrame(before + payload, false)))
  {
    hide Run;
    if payload == [] {
      assert before + payload == before;
      RunNothing(cfg, s);
    } else {
      var init, last := payload[..|payload| - 1], payload[|payload| - 1];
      UnstuffInFrame(cfg, s, before, init);
      RunConcat(cfg, s, Stuffed(init), StuffByte(last));
      UnstuffByte(cfg, Run(cfg, s, Stuffed(init)), before + init, last);
      assert before + init + [last] == before + payload;
    }
  }

  lemma UnstuffByte(cfg: Config, s: State, before: seq<byte>, b: byte)
    requires s.mode == Slip(SlipInFrame(before, false))
    ensures Run(cfg, s, StuffByte(b)) == s.(mode := Slip(SlipInFrame(before + [b], false)))
  {
    if b == SLIP_END || b == SLIP_ESC {
      var code := if b == SLIP_END then SLIP_ESC_END else SLIP_ESC_ESC;
      assert StuffByte(b) == [SLIP_ESC] + [code];
      RunCons(cfg, s, SLIP_ESC, [code]);
      RunOne(cfg, Step(cfg, s, SLIP_ESC), code);
    } else {
      RunOne(cfg, s, b);
    }
  }

  lemma {:induction false} JunkIsSkipped(cfg: Config, s: State, junk: seq<byte>)
    requires s.mode == Slip(BeforeFirstEnd) && SLIP_END !in junk
    ensures Run(cfg, s, junk) == s
    decreases |junk|
  {
    if junk != [] {
      JunkIsSkipped(cfg, s, junk[..|junk| - 1]);
    }
  }

  /** Outside a frame the first END opens one, and then the payload is emitted as a frame. */
  lemma FramedFromOutside(cfg: Config, s: State, payload: seq<byte>)
    requires s.mode == Slip(BeforeFirstEnd)
    ensures Run(cfg, s, Framed(payload)) == Step(cfg, s.(mode := Slip(SlipInFrame(payload, false))), SLIP_END)
  {
    var inside := s.(mode := Slip(SlipInFrame([], false)));
    assert Framed(payload) == [SLIP_END] + (Stuffed(payload) + [SLIP_END]);
    RunCons(cfg, s, SLIP_END, Stuffed(payload) + [SLIP_END]);
    FinishFrame(cfg, inside, payload);
  }

  lemma FinishFrame(cfg: Config, s: State, payload: seq<byte>)
    requires s.mode == Slip(SlipInFrame([], false))
    ensures Run(cfg, s, Stuffed(payload) + [SLIP_END])
         == Step(cfg, s.(mode := Slip(SlipInFrame(payload, false))), SLIP_END)
  {
    RunConcat(cfg, s, Stuffed(payload), [SLIP_END]);
    UnstuffInFrame(cfg, s, [], payload);
    assert [] + payload == payload;
    RunOne(cfg, s.(mode := Slip(SlipInFrame(payload, false))), SLIP_END);
  }

  /** Inside a frame the leading END closes it first. */
  lemma FramedFromInside(cfg: Config, s: State, payload: seq<byte>)
    requires s.mode.Slip? && Step(cfg, s, SLIP_END).mode == Slip(SlipInFrame([], false))
    ensures
      var closed := Step(cfg, s, SLIP_END);
      Run(cfg, s, Framed(payload)) == Step(cfg, closed.(mode := Slip(SlipInFrame(payload, false))), SLIP_END)
  {
    assert Framed(payload) == [SLIP_END] + (Stuffed(payload) + [SLIP_END]);
    RunCons(cfg, s, SLIP_END, Stuffed(payload) + [SLIP_END]);
    FinishFrame(cfg, Step(cfg, s, SLIP_END), payload);
  }

  // ----- resynchronisation

  /** Closing an empty frame, as every leading END after the first does, is a stream-fatal error. */
  predicate EmptyIsFatal(cfg: Config) {
    IsFatal(Emission(cfg, 0, [], SlipFrame))
  }

  /** `data` becomes a frame: neither skipped as blank nor dropped by the parser. */
  predicate Accepts(cfg: Config, data: seq<byte>) {
    && !(cfg.skipEmpty && IsBlankFrame(data))
    && (cfg.parser.Some? ==> cfg.parser.value(data).Parsed?)
  }

  /** Outside any frame, or inside one that is still empty. */
  predicate InStep(mode: Mode) {
    mode == Slip(BeforeFirstEnd) || mode == Slip(SlipInFrame([], false))
  }

  lemma EndLeavesInStep(cfg: Config, s: State)
    requires s.mode.Slip?
    ensures InStep(Step(cfg, s, SLIP_END).mode)
    ensures s.mode == Slip(BeforeFirstEnd) ==> Step(cfg, s, SLIP_END) == s.(mode := Slip(SlipInFrame([], false)))
  {
  }

  /** From any state at all, one transmitted frame brings the decoder in step, whatever the parser does. */
  lemma OneFrameSynchronises(cfg: Config, s: State, payload: seq<byte>)
    requires s.mode.Slip?
    ensures InStep(Run(cfg, s, Framed(payload)).mode)
  {
    hide Run, Step, Stuffed;
    var first := Step(cfg, s, SLIP_END);
    EndLeavesInStep(cfg, s);
    assert Framed(payload) == [SLIP_END] + (Stuffed(payload) + [SLIP_END]);
    RunCons(cfg, s, SLIP_END, Stuffed(payload) + [SLIP_END]);
    if first.mode == Slip(BeforeFirstEnd) {
      SkipToEnd(cfg, first, payload);
      EndLeavesInStep(cfg, first);
    } else {
      FinishFrame(cfg, first, payload);
      EndLeavesInStep(cfg, first.(mode := Slip(SlipInFrame(payload, false))));
    }
  }

  /** Outside a frame the body of a transmission is junk up to its END. */
  lemma SkipToEnd(cfg: Config, s: State, payload: seq<byte>)
    requires s.mode == Slip(BeforeFirstEnd)
    ensures Run(cfg, s, Stuffed(payload) + [SLIP_END]) == Step(cfg, s, SLIP_END)
  {
    RunConcat(cfg, s, Stuffed(payload), [SLIP_END]);
    StuffedHasNoEnd(payload);
    JunkIsSkipped(cfg, s, Stuffed(payload));
    RunOne(cfg, s, SLIP_END);
  }

  /** The last report is the frame `data`. */
  predicate LastIs(s: State, data: seq<byte>) {
    s.log != [] && s.log[|s.log| - 1].Emitted? && s.log[|s.log| - 1].frame.data == data
  }

  /**
    Self-stabilisation: whatever the decoder was doing, mid-escape included, and whatever the parser made
    of the first frame, after two transmitted frames an acceptable second payload is the last report and
    the decoder stands where a synchronised decoder stands.
   */
  lemma SlipSelfStabilises(cfg: Config, s: State, p1: seq<byte>, p2: seq<byte>)
    requires s.mode.Slip? && !EmptyIsFatal(cfg)
    ensures
      var r := Run(cfg, s, Framed(p1) + Framed(p2));
      && InStep(r.mode)
      && (Accepts(cfg, p2) ==> LastIs(r, p2) && r.mode == Slip(SlipInFrame([], false)))
  {
    hide Run, Framed;
    var mid := Run(cfg, s, Framed(p1));
    RunConcat(cfg, s, Framed(p1), Framed(p2));
    OneFrameSynchronises(cfg, s, p1);
    if mid.mode == Slip(BeforeFirstEnd) {
      FramedFromOutside(cfg, mid, p2);
    } else {
      FramedFromInside(cfg, mid, p2);
    }
  }

  /** Two transmissions make the second payload the last report. */
  ghost predicate Delivers(cfg: Config, s: State, p1: seq<byte>, p2: seq<byte>)
    requires s.mode.Slip?
  {
    LastIs(Run(cfg, s, Framed(p1) + Framed(p2)), p2)
  }

  /** The exact condition: an acceptable payload gets through from every state unless empty frames are fatal. */
  lemma SelfStabilisesExactlyWhen(cfg: Config, p2: seq<byte>)
    requires Accepts(cfg, p2)
    ensures !EmptyIsFatal(cfg) <==> forall s: State, p1 :: s.mode.Slip? ==> Delivers(cfg, s, p1, p2)
  {
    if EmptyIsFatal(cfg) {
      FatalEmptyLosesSecond(cfg, p2);
    } else {
      forall s: State, p1 | s.mode.Slip? ensures Delivers(cfg, s, p1, p2) {
        SlipSelfStabilises(cfg, s, p1, p2);
      }
    }
  }

  /** A fatal empty frame between two transmissions swallows the second one, even for a fresh decoder. */
  lemma FatalEmptyLosesSecond(cfg: Config, p2: seq<byte>)
    requires Accepts(cfg, p2) && EmptyIsFatal(cfg)
    ensures !Delivers(cfg, Fresh(Slip(BeforeFirstEnd)), p2, p2)
  {
    hide Run, Stuffed;
    var s := Fresh(Slip(BeforeFirstEnd));
    var mid := Run(cfg, s, Framed(p2));
    RunConcat(cfg, s, Framed(p2), Framed(p2));
    FramedFromOutside(cfg, s, p2);
    assert mid.mode == Slip(SlipInFrame([], false));
    var failed := Step(cfg, mid, SLIP_END);
    assert Framed(p2) == [SLIP_END] + (Stuffed(p2) + [SLIP_END]);
    RunCons(cfg, mid, SLIP_END, Stuffed(p2) + [SLIP_END]);
    SkipToEnd(cfg, failed, p2);
  }

  /**
    The same through pushes: whatever the state, the junk and the chunking, once the input is drained the
    second of two transmitted payloads is the last report and the decoder stands synchronised.
   */
  lemma {:induction false} PushesSelfStabilise(cfg: Config, s: State, junk: seq<byte>, p1: seq<byte>, p2: seq<byte>, chunks: seq<seq<byte>>)
    requires s.mode.Slip? && !EmptyIsFatal(cfg) && Accepts(cfg, p2)
    requires s.buf + Join(chunks) == junk + (Framed(p1) + Framed(p2))
    requires PushStreamAll(cfg, s, chunks).buf == []
    ensures
      var r := PushStreamAll(cfg, s, chunks);
      r.mode == Slip(SlipInFrame([], false)) && LastIs(r, p2)
  {
    hide Run, Stuffed;
    var input := junk + (Framed(p1) + Framed(p2));
    PushesRefineByteMachine(cfg, s, chunks);
    assert input[..|input|] == input;
    RunConcat(cfg, s, junk, Framed(p1) + Framed(p2));
    SlipSelfStabilises(cfg, Run(cfg, s, junk), p1, p2);
  }

  // ----- round trip from a fresh decoder

  /** p1, empty, p2, empty, ..., pn: the closing and the next opening END enclose an empty frame. */
  function Interleaved(payloads: seq<seq<byte>>): seq<seq<byte>> {
    if |payloads| <= 1 then payloads
    else Interleaved(payloads[..|payloads| - 1]) + [[], payloads[|payloads| - 1]]
  }

  /** One more transmission: it reports its payload, preceded by an empty frame when inside one. */
  lemma DecodeOneMore(cfg: Config, s: State, p: seq<byte>)
    requires cfg.parser.None? && NoFailure(s.log)
    requires s.mode == Slip(BeforeFirstEnd) || s.mode == Slip(SlipInFrame([], false))
    ensures
      var r := Run(cfg, s, Framed(p));
      && NoFailure(r.log) && r.mode == Slip(SlipInFrame([], false))
      && Payloads(r.log) == Payloads(s.log)
           + (if s.mode.slip.SlipInFrame? then KeptOne(cfg, []) else []) + KeptOne(cfg, p)
  {
    hide Run, Framed, Step, Payloads, KeptOne;
    var ready := s.(mode := Slip(SlipInFrame(p, false)));
    if s.mode.slip.BeforeFirstEnd? {
      FramedFromOutside(cfg, s, p);
    } else {
      EndEmits(cfg, s, []);
      FramedFromInside(cfg, s, p);
      ready := Step(cfg, s, SLIP_END).(mode := Slip(SlipInFrame(p, false)));
    }
    EndEmits(cfg, ready, p);
  }

  /** Without a parser the closing END reports what skip_empty lets through. */
  lemma EndEmits(cfg: Config, s: State, payload: seq<byte>)
    requires cfg.parser.None? && NoFailure(s.log) && s.mode == Slip(SlipInFrame(payload, false))
    ensures
      var r := Step(cfg, s, SLIP_END);
      && NoFailure(r.log) && r.mode == Slip(SlipInFrame([], false))
      && Payloads(r.log) == Payloads(s.log) + KeptOne(cfg, payload)
  {
    EmitWithoutParser(cfg, s, payload);
  }

  /** `r` is where a fresh decoder stands after the encodings of `payloads`. */
  ghost predicate Decoded(cfg: Config, payloads: seq<seq<byte>>, r: State) {
    && NoFailure(r.log)
    && Payloads(r.log) == Kept(cfg, Interleaved(payloads))
    && r.mode == Slip(if payloads == [] then BeforeFirstEnd else SlipInFrame([], false))
  }

  lemma {:induction false} DecodedOneMore(cfg: Config, init: seq<seq<byte>>, last: seq<byte>, mid: State)
    requires cfg.parser.None? && Decoded(cfg, init, mid)
    ensures Decoded(cfg, init + [last], Run(cfg, mid, Framed(last)))
  {
    hide Run, Kept, Interleaved, Payloads, Framed;
    DecodeOneMore(cfg, mid, last);
    InterleaveOneMore(cfg, init, last);
  }

  lemma {:induction false} EncodingsDecode(cfg: Config, payloads: seq<seq<byte>>)
    requires cfg.parser.None?
    ensures Decoded(cfg, payloads, Run(cfg, Fresh(Slip(BeforeFirstEnd)), Encodings(Framed, payloads)))
    decreases |payloads|
  {
    hide Run, Framed;
    if payloads == [] {
      RunNothing(cfg, Fresh(Slip(BeforeFirstEnd)));
    } else {
      hide Decoded;
      var init, last := payloads[..|payloads| - 1], payloads[|payloads| - 1];
      EncodingsDecode(cfg, init);
      RunConcat(cfg, Fresh(Slip(BeforeFirstEnd)), Encodings(Framed, init), Framed(last));
      DecodedOneMore(cfg, init, last, Run(cfg, Fresh(Slip(BeforeFirstEnd)), Encodings(Framed, init)));
      assert init + [last] == payloads;
    }
  }

  lemma InterleaveOneMore(cfg: Config, init: seq<seq<byte>>, last: seq<byte>)
    ensures Kept(cfg, Interleaved(init + [last]))
         == Kept(cfg, Interleaved(init)) + (if init == [] then [] else KeptOne(cfg, [])) + KeptOne(cfg, last)
  {
    hide Kept, KeptOne, Interleaved;
    InterleavedUnfolds(init, last);
    if init == [] {
      KeptAppend(cfg, Interleaved(init), last);
      assert Interleaved(init) + [last] == [last];
    } else {
      KeptAppend(cfg, Interleaved(init), []);
      KeptAppend(cfg, Interleaved(init) + [[]], last);
    }
  }

  lemma InterleavedUnfolds(init: seq<seq<byte>>, last: seq<byte>)
    ensures Interleaved(init + [last]) == if init == [] then [last] else Interleaved(init) + [[]] + [last]
    ensures Interleaved([]) == []
  {
    assert (init + [last])[..|init|] == init;
    if init != [] {
      assert Interleaved(init + [last]) == Interleaved(init) + [[], last];
    }
  }

  /** With skip_empty on, the empty frames between transmissions disappear. */
  lemma {:induction false} InterleavingVanishes(cfg: Config, payloads: seq<seq<byte>>)
    requires cfg.skipEmpty
    ensures Kept(cfg, Interleaved(payloads)) == Kept(cfg, payloads)
    decreases |payloads|
  {
    if |payloads| > 1 {
      var init, last := payloads[..|payloads| - 1], payloads[|payloads| - 1];
      InterleavingVanishes(cfg, init);
      InterleaveOneMore(cfg, init, last);
      KeptAppend(cfg, init, last);
      assert init + [last] == payloads;
    }
  }

  /**
    Round trip: for every list of payloads and every chunking of their encodings a fresh parserless
    decoder reports p1, empty, p2, ..., pn without error; with skip_empty, exactly the non-blank ones.
   */
  lemma {:induction false} SlipRoundTrip(cfg: Config, payloads: seq<seq<byte>>, chunks: seq<seq<byte>>)
    requires cfg.parser.None?
    requires Join(chunks) == Encodings(Framed, payloads)
    ensures
      var r := PushStreamAll(cfg, Fresh(Slip(BeforeFirstEnd)), chunks);
      && r.buf == [] && NoFailure(r.log) && Numbered(r)
      && (!cfg.skipEmpty ==> Payloads(r.log) == Interleaved(payloads))
      && (cfg.skipEmpty ==> Payloads(r.log) == Kept(cfg, payloads))
  {
    EncodingsDecode(cfg, payloads);
    ChunkingIsInvisible(cfg, Fresh(Slip(BeforeFirstEnd)), chunks);
    PushesKeepNumbering(cfg, Slip(BeforeFirstEnd), chunks);
    if cfg.skipEmpty {
      InterleavingVanishes(cfg, payloads);
    } else {
      KeptIsAll(cfg, Interleaved(payloads));
    }
  }

}
