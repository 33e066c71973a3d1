/** Plain COBS with delimiter 0x00: stuffing with patched code bytes, and its round trip. */
module CobsCodec {
  import opened Bytes
  import opened Framing
  import opened ByteMachine

  // ----- TX

  predicate NonZero(s: seq<byte>) {
    forall i :: 0 <= i < |s| ==> s[i] != 0
  }

  /**
    The encoding of `run` followed by `rest`, where `run` is the part of the current block already
    seen: each block is its code byte and then its non-zero bytes.
   */
  function StuffedFrom(run: seq<byte>, rest: seq<byte>): seq<byte>
    requires |run| < 254
    decreases |rest|
  {
    if rest == [] then [|run| + 1] + run
    else if rest[0] == 0 then [|run| + 1] + run + StuffedFrom([], rest[1..])
    else if |run| == 253 then [0xFF] + run + [rest[0]] + StuffedFrom([], rest[1..])
    else StuffedFrom(run + [rest[0]], rest[1..])
  }

  function Stuffed(payload: seq<byte>): seq<byte> {
    StuffedFrom([], payload)
  }

  function Framed(payload: seq<byte>): seq<byte> {
    [0] + Stuffed(payload) + [0]
  }

  /** One byte of the encoder: it ends the block, fills it, or joins it. */
  lemma StuffOneMore(done: seq<byte>, run: seq<byte>, b: byte, rest: seq<byte>)
    requires |run| < 254
    ensures done + StuffedFrom(run, [b] + rest) ==
      if b == 0 then done + [|run| + 1] + run + StuffedFrom([], rest)
      else if |run| == 253 then done + ([0xFF] + run + [b]) + StuffedFrom([], rest)
      else done + StuffedFrom(run + [b], rest)
  {
    assert ([b] + rest)[1..] == rest;
  }

  lemma StuffNoMore(run: seq<byte>)
    requires |run| < 254
    ensures StuffedFrom(run, []) == [|run| + 1] + run
  {
  }

  /** The encoder: code bytes are placeholders that are patched once the block length is known. */
  method CobsStuff(payload: seq<byte>) returns (out: seq<byte>)
    ensures out == Stuffed(payload)
    ensures NonZero(out) && |out| <= |payload| + |payload| / 254 + 1
  {
    hide StuffedFrom;
    var codeIndex := 0;
    out := [0];
    var code: byte := 1;
    ghost var done: seq<byte>, run: seq<byte> := [], [];
    for i := 0 to |payload|
      invariant |run| == code - 1 < 254 && codeIndex == |done|
      invariant out == done + [0] + run
      invariant done + StuffedFrom(run, payload[i..]) == Stuffed(payload)
    {
      var b := payload[i];
      assert payload[i..] == [b] + payload[i + 1..];
      StuffOneMore(done, run, b, payload[i + 1..]);
      if b == 0 {
        out := out[codeIndex := code];
        assert out == done + [code] + run;
        code := 1;
        codeIndex := |out|;
        done, run := out, [];
        out := out + [0];
      } else {
        out := out + [b];
        assert out == done + [0] + (run + [b]);
        code := code + 1;
        if code == 0xFF {
          out := out[codeIndex := 0xFF];
          assert out == done + ([0xFF] + run + [b]);
          code := 1;
          codeIndex := |out|;
          done, run := out, [];
          out := out + [0];
        } else {
          run := run + [b];
        }
      }
    }
    out := out[codeIndex := code];
    assert out == done + ([code] + run);
    assert StuffedFrom(run, []) == [|run| + 1] + run by { StuffNoMore(run); }
    StuffedIsDelimiterFree([], payload);
    StuffedOverhead([], payload);
  }

  lemma {:induction false} StuffedIsDelimiterFree(run: seq<byte>, rest: seq<byte>)
    requires |run| < 254 && NonZero(run)
    ensures NonZero(StuffedFrom(run, rest))
    decreases |rest|
  {
    if rest != [] {
      if rest[0] == 0 || |run| == 253 {
        StuffedIsDelimiterFree([], rest[1..]);
      } else {
        StuffedIsDelimiterFree(run + [rest[0]], rest[1..]);
      }
    }
  }

  lemma {:induction false} StuffedOverhead(run: seq<byte>, rest: seq<byte>)
    requires |run| < 254
    ensures |StuffedFrom(run, rest)| <= |run| + |rest| + (|run| + |rest|) / 254 + 1
    decreases |rest|
  {
    if rest != [] {
      if rest[0] == 0 || |run| == 253 {
        StuffedOverhead([], rest[1..]);
      } else {
        StuffedOverhead(run + [rest[0]], rest[1..]);
      }
    }
  }

  // ----- RX on stuffed input

  /** The data bytes of a block are copied, and a non-0xFF block then yields its implicit zero. */
  lemma {:induction false} CopyBlock(cfg: Config, s: State, decoded: seq<byte>, data: seq<byte>, zero: bool)
    requires data != [] && s.mode == Cobs(CobsInFrame(decoded, |data|, zero))
    ensures Run(cfg, s, data)
         == s.(mode := Cobs(CobsInFrame(decoded + data + (if zero then [0] else []), 0, false)))
    decreases |data|
  {
    var next := Step(cfg, s, data[0]);
    RunCons(cfg, s, data[0], data[1..]);
    RunNothing(cfg, next);
    assert [data[0]] + data[1..] == data;
    hide Run;
    if |data| == 1 {
      assert decoded + [data[0]] == decoded + data;
      assert !zero ==> decoded + data + [] == decoded + data;
      assert data[1..] == [];
    } else {
      CopyBlock(cfg, next, decoded + [data[0]], data[1..], zero);
      assert decoded + [data[0]] + data[1..] == decoded + data;
    }
  }

  lemma ReadBlock(cfg: Config, s: State, decoded: seq<byte>, data: seq<byte>)
    requires |data| <= 254 && s.mode == Cobs(CobsInFrame(decoded, 0, false))
    ensures
      var zero: seq<byte> := if |data| < 254 then [0] else [];
      Run(cfg, s, [|data| + 1] + data) == s.(mode := Cobs(CobsInFrame(decoded + data + zero, 0, false)))
  {
    RunCons(cfg, s, |data| + 1, data);
    if data == [] {
      assert decoded + data == decoded;
    } else {
      CopyBlock(cfg, Step(cfg, s, |data| + 1), decoded, data, |data| < 254);
    }
  }

  /** A block that ends before the payload does: its bytes, and the zero that ended it, are decoded. */
  lemma ReadInnerBlock(cfg: Config, s: State, decoded: seq<byte>, run: seq<byte>, b: byte, more: seq<byte>)
    requires |run| < 254 && s.mode == Cobs(CobsInFrame(decoded, 0, false))
    requires b == 0 || |run| == 253
    ensures
      var head := if b == 0 then [|run| + 1] + run else [0xFF] + run + [b];
      Run(cfg, s, head + more) == Run(cfg, s.(mode := Cobs(CobsInFrame(decoded + run + [b], 0, false))), more)
  {
    hide Run;
    var block := if b == 0 then run else run + [b];
    var head := if b == 0 then [|run| + 1] + run else [0xFF] + run + [b];
    assert Run(cfg, s, head) == s.(mode := Cobs(CobsInFrame(decoded + run + [b], 0, false))) by {
      ReadBlock(cfg, s, decoded, block);
      assert head == [|block| + 1] + block;
      assert decoded + block + (if b == 0 then [0] else []) == decoded + run + [b];
    }
    RunConcat(cfg, s, head, more);
  }

  /** An encoded block sequence reproduces the payload, plus the phantom zero of its last block. */
  lemma {:induction false} Unstuff(cfg: Config, s: State, decoded: seq<byte>, run: seq<byte>, rest: seq<byte>)
    requires |run| < 254 && s.mode == Cobs(CobsInFrame(decoded, 0, false))
    ensures Run(cfg, s, StuffedFrom(run, rest))
         == s.(mode := Cobs(CobsInFrame(decoded + run + rest + [0], 0, false)))
    decreases |rest|
  {
    if rest == [] {
      ReadBlock(cfg, s, decoded, run);
      assert decoded + run + rest == decoded + run;
    } else if rest[0] == 0 || |run| == 253 {
      var mid := s.(mode := Cobs(CobsInFrame(decoded + run + [rest[0]], 0, false)));
      ReadInnerBlock(cfg, s, decoded, run, rest[0], StuffedFrom([], rest[1..]));
      Unstuff(cfg, mid, decoded + run + [rest[0]], [], rest[1..]);
      assert decoded + run + [rest[0]] + [] + rest[1..] == decoded + run + rest;
    } else {
      Unstuff(cfg, s, decoded, run + [rest[0]], rest[1..]);
      assert decoded + (run + [rest[0]]) + rest[1..] == decoded + run + rest;
    }
  }

  /** One transmitted frame makes a waiting decoder emit exactly its payload and wait again. */
  lemma DecodeFramed(cfg: Config, s: State, payload: seq<byte>)
    requires s.mode == Cobs(BeforeFirstDelim)
    ensures Run(cfg, s, Framed(payload)) == EmitFrame(cfg, s, payload)
  {
    var inside := s.(mode := Cobs(CobsInFrame([], 0, false)));
    var full := s.(mode := Cobs(CobsInFrame(payload + [0], 0, false)));
    assert Run(cfg, s, [0]) == inside by {
      RunOne(cfg, s, 0);
    }
    assert Run(cfg, inside, Stuffed(payload)) == full by {
      Unstuff(cfg, inside, [], [], payload);
      assert [] + [] + payload + [0] == payload + [0];
    }
    assert Run(cfg, full, [0]) == EmitFrame(cfg, s, payload) by {
      RunOne(cfg, full, 0);
      assert DropPhantom(payload + [0]) == payload;
    }
    RunConcat(cfg, s, [0], Stuffed(payload));
    RunConcat(cfg, s, [0] + Stuffed(payload), [0]);
  }

  // ----- round trip

  lemma {:induction false} EncodingsDecode(cfg: Config, payloads: seq<seq<byte>>)
    requires cfg.parser.None?
    ensures
      var r := Run(cfg, Fresh(Cobs(BeforeFirstDelim)), Encodings(Framed, payloads));
      && NoFailure(r.log) && r.mode == Cobs(BeforeFirstDelim)
      && Payloads(r.log) == Kept(cfg, payloads)
    decreases |payloads|
  {
    if payloads != [] {
      var init, last := payloads[..|payloads| - 1], payloads[|payloads| - 1];
      EncodingsDecode(cfg, init);
      var mid := Run(cfg, Fresh(Cobs(BeforeFirstDelim)), Encodings(Framed, init));
      assert Run(cfg, Fresh(Cobs(BeforeFirstDelim)), Encodings(Framed, payloads)) == Run(cfg, mid, Framed(last)) by {
        RunConcat(cfg, Fresh(Cobs(BeforeFirstDelim)), Encodings(Framed, init), Framed(last));
      }
      DecodeFramed(cfg, mid, last);
      EmitWithoutParser(cfg, mid, last);
    }
  }

  /**
    Round trip: for every list of payloads and every chunking of their encodings a fresh parserless
    decoder with skip_empty off emits exactly those payloads in order, numbered from 0, without error.
   */
  lemma CobsRoundTrip(cfg: Config, payloads: seq<seq<byte>>, chunks: seq<seq<byte>>)
    requires cfg.parser.None? && !cfg.skipEmpty
    requires Join(chunks) == Encodings(Framed, payloads)
    ensures
      var r := PushStreamAll(cfg, Fresh(Cobs(BeforeFirstDelim)), chunks);
      && r.buf == [] && NoFailure(r.log) && Numbered(r)
      && r.mode == Cobs(BeforeFirstDelim)
      && Payloads(r.log) == payloads
  {
    EncodingsDecode(cfg, payloads);
    KeptIsAll(cfg, payloads);
    ChunkingIsInvisible(cfg, Fresh(Cobs(BeforeFirstDelim)), chunks);
    PushesKeepNumbering(cfg, Cobs(BeforeFirstDelim), chunks);
  }

  // ----- arbitrary blocks, canonical or not

  /** At most 254 data bytes, zeros allowed: inside a block the decoder copies what it gets. */
  type Block = b: seq<byte> | |b| <= 254 witness []

  function BlockBytes(blocks: seq<Block>): seq<byte> {
    if blocks == [] then [] else BlockBytes(blocks[..|blocks| - 1]) + [|blocks[|blocks| - 1]| + 1] + blocks[|blocks| - 1]
  }

  /** The data of the blocks, with a zero behind each block but a full one. */
  function BlockData(blocks: seq<Block>): seq<byte> {
    if blocks == [] then []
    else
      var last := blocks[|blocks| - 1];
      BlockData(blocks[..|blocks| - 1]) + last + if |last| < 254 then [0] else []
  }

  /** Junk before a frame, and the blocks of the frame. */
  datatype Burst = Burst(junk: seq<byte>, blocks: seq<Block>)

  ghost predicate AllNonZero(bursts: seq<Burst>) {
    forall i :: 0 <= i < |bursts| ==> NonZero(bursts[i].junk)
  }

  function BurstBytes(bursts: seq<Burst>): seq<byte> {
    if bursts == [] then []
    else
      var last := bursts[|bursts| - 1];
      BurstBytes(bursts[..|bursts| - 1]) + (last.junk + ([0] + BlockBytes(last.blocks) + [0]))
  }

  /** One frame each: its data without the zero that its last block implies. */
  function BurstFrames(cfg: Config, bursts: seq<Burst>): seq<seq<byte>> {
    if bursts == [] then []
    else
      var data := BlockData(bursts[|bursts| - 1].blocks);
      BurstFrames(cfg, bursts[..|bursts| - 1])
      + KeptOne(cfg, if data != [] && data[|data| - 1] == 0 then data[..|data| - 1] else data)
  }

  lemma {:induction false} BlocksAreRead(cfg: Config, s: State, blocks: seq<Block>)
    requires s.mode == Cobs(CobsInFrame([], 0, false))
    ensures Run(cfg, s, BlockBytes(blocks)) == s.(mode := Cobs(CobsInFrame(BlockData(blocks), 0, false)))
    decreases |blocks|
  {
    hide Run;
    if blocks == [] {
      RunNothing(cfg, s);
    } else {
      var init, last := blocks[..|blocks| - 1], blocks[|blocks| - 1];
      BlocksAreRead(cfg, s, init);
      assert BlockBytes(blocks) == BlockBytes(init) + ([|last| + 1] + last);
      RunConcat(cfg, s, BlockBytes(init), [|last| + 1] + last);
      ReadBlock(cfg, Run(cfg, s, BlockBytes(init)), BlockData(init), last);
    }
  }

  lemma {:induction false} NonZeroIsSkipped(cfg: Config, s: State, junk: seq<byte>)
    requires s.mode == Cobs(BeforeFirstDelim) && NonZero(junk)
    ensures Run(cfg, s, junk) == s
    decreases |junk|
  {
    if junk != [] {
      NonZeroIsSkipped(cfg, s, junk[..|junk| - 1]);
    }
  }

  /** Outside a frame: junk is skipped, a zero opens a frame, its blocks are read, a zero closes it. */
  lemma BurstIsRead(cfg: Config, s: State, burst: Burst)
    requires s.mode == Cobs(BeforeFirstDelim) && NonZero(burst.junk)
    ensures Run(cfg, s, burst.junk + ([0] + BlockBytes(burst.blocks) + [0]))
         == EmitFrame(cfg, s, DropPhantom(BlockData(burst.blocks)))
  {
    hide Run;
    var bytes := BlockBytes(burst.blocks);
    var inside := s.(mode := Cobs(CobsInFrame([], 0, false)));
    var full := s.(mode := Cobs(CobsInFrame(BlockData(burst.blocks), 0, false)));
    NonZeroIsSkipped(cfg, s, burst.junk);
    RunConcat(cfg, s, burst.junk, [0] + bytes + [0]);
    assert [0] + bytes + [0] == [0] + (bytes + [0]);
    RunCons(cfg, s, 0, bytes + [0]);
    RunConcat(cfg, inside, bytes, [0]);
    BlocksAreRead(cfg, inside, burst.blocks);
    RunOne(cfg, full, 0);
  }

  lemma {:induction false} BurstsAreRead(cfg: Config, bursts: seq<Burst>)
    requires cfg.parser.None? && AllNonZero(bursts)
    ensures
      var r := Run(cfg, Fresh(Cobs(BeforeFirstDelim)), BurstBytes(bursts));
      && NoFailure(r.log) && r.mode == Cobs(BeforeFirstDelim)
      && Payloads(r.log) == BurstFrames(cfg, bursts)
    decreases |bursts|
  {
    hide Run, Payloads, KeptOne;
    var s := Fresh(Cobs(BeforeFirstDelim));
    if bursts == [] {
      RunNothing(cfg, s);
      NoPayloads();
    } else {
      var init, last := bursts[..|bursts| - 1], bursts[|bursts| - 1];
      BurstsAreRead(cfg, init);
      var mid := Run(cfg, s, BurstBytes(init));
      RunConcat(cfg, s, BurstBytes(init), last.junk + ([0] + BlockBytes(last.blocks) + [0]));
      BurstIsRead(cfg, mid, last);
      EmitWithoutParser(cfg, mid, DropPhantom(BlockData(last.blocks)));
    }
  }

  lemma NoPayloads()
    ensures Payloads([]) == []
  {
  }

  /**
    Decoding of arbitrary bytes: whatever the junk between frames and whatever the blocks hold, zeros
    included, every chunking reports exactly one frame per delimited block list, the blocks' data with their
    implicit zeros, without error.
   */
  lemma {:induction false} ArbitraryBlocksDecode(cfg: Config, bursts: seq<Burst>, chunks: seq<seq<byte>>)
    requires cfg.parser.None? && AllNonZero(bursts) && Join(chunks) == BurstBytes(bursts)
    ensures
      var r := PushStreamAll(cfg, Fresh(Cobs(BeforeFirstDelim)), chunks);
      r.buf == [] && NoFailure(r.log) && Numbered(r) && Payloads(r.log) == BurstFrames(cfg, bursts)
  {
    BurstsAreRead(cfg, bursts);
    ChunkingIsInvisible(cfg, Fresh(Cobs(BeforeFirstDelim)), chunks);
    PushesKeepNumbering(cfg, Cobs(BeforeFirstDelim), chunks);
  }

  /** The transmitted bytes of a payload with a zero inside and one at its end. */
  lemma StandardBytes()
    ensures Framed([0x11, 0x22, 0x00, 0x33, 0x00]) == [0x00, 0x03, 0x11, 0x22, 0x02, 0x33, 0x01, 0x00]
  {
    var p: seq<byte> := [0x11, 0x22, 0x00, 0x33, 0x00];
    assert StuffedFrom([], []) == [1];
    assert p[1..] == [0x22, 0x00, 0x33, 0x00] && p[1..][1..] == [0x00, 0x33, 0x00];
    assert StuffedFrom([0x33], [0x00]) == [2, 0x33] + StuffedFrom([], [0x00][1..]);
    assert StuffedFrom([], [0x33, 0x00]) == StuffedFrom([0x33], [0x33, 0x00][1..]);
    assert StuffedFrom([0x11, 0x22], [0x00, 0x33, 0x00])
        == [3, 0x11, 0x22] + StuffedFrom([], [0x00, 0x33, 0x00][1..]);
    assert StuffedFrom([0x11], p[1..]) == StuffedFrom([0x11] + [0x22], p[1..][1..]);
    assert StuffedFrom([], p) == StuffedFrom([] + [0x11], p[1..]);
  }
}
