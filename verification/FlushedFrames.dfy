/** What a flush hands out, in terms of the bytes that were pushed: the open frame's data, under the next index. */
module FlushedFrames {
  import opened Bytes
  import opened Framing
  import opened ByteMachine
  import opened BufferedModes
  import opened FrameDecoding
  import SlipCodec
  import CobsCodec

  /** Indices stay contiguous through flushes. */
  lemma FlushKeepsNumbering(s: State)
    requires Numbered(s)
    ensures Numbered(Flushed(s))
  {
    var data := Partial(s);
    if data != [] {
      LogAppend(s.log, Emitted(Frame(data, s.count, FrameTypeOf(s.mode), None)));
    }
  }

  /** A run that reports nothing reads everything. */
  lemma QuietRunIsWhole(cfg: Config, s: State, input: seq<byte>)
    requires IsStream(s.mode) && Run(cfg, s, input).log == s.log
    ensures Consumed(cfg, s, input) == |input|
  {
    hide Run, Consumed;
    var n := Consumed(cfg, s, input);
    ConsumedStopsAtFirstFailure(cfg, s, input);
    assert input == input[..n] + input[n..];
    RunConcat(cfg, s, input[..n], input[n..]);
    RunExtendsLog(cfg, Run(cfg, s, input[..n]), input[n..]);
  }

  lemma QuietPush(cfg: Config, s: State, input: seq<byte>)
    requires IsStream(s.mode) && s.buf == [] && Run(cfg, s, input).log == s.log
    ensures PushStream(cfg, s, input) == Run(cfg, s, input)
  {
    hide Run, Consumed;
    QuietRunIsWhole(cfg, s, input);
    assert s.buf + input == input && input[..|input|] == input && input[|input|..] == [];
    RunIgnoresBuf(cfg, s, [], input);
  }

  /** Flushing in the middle of a SLIP frame hands out its payload so far, unescaped, and the frame goes on empty. */
  lemma FlushedSlipFrame(cfg: Config, s: State, p: seq<byte>)
    requires s.mode == Slip(BeforeFirstEnd) && s.buf == [] && p != []
    ensures Flushed(PushStream(cfg, s, [SLIP_END] + SlipCodec.Stuffed(p)))
         == State(Slip(SlipInFrame([], false)), [], s.count + 1, s.log + [Emitted(Frame(p, s.count, SlipFrame, None))])
  {
    hide Run, Consumed, PushStream, SlipCodec.Stuffed;
    var inside := s.(mode := Slip(SlipInFrame([], false)));
    RunCons(cfg, s, SLIP_END, SlipCodec.Stuffed(p));
    SlipCodec.UnstuffInFrame(cfg, inside, [], p);
    assert [] + p == p;
    QuietPush(cfg, s, [SLIP_END] + SlipCodec.Stuffed(p));
  }

  /** Flushing behind some COBS blocks hands out their data, implicit zeros included. */
  lemma FlushedCobsBlocks(cfg: Config, s: State, blocks: seq<CobsCodec.Block>)
    requires s.mode == Cobs(BeforeFirstDelim) && s.buf == [] && CobsCodec.BlockData(blocks) != []
    ensures Flushed(PushStream(cfg, s, [0] + CobsCodec.BlockBytes(blocks)))
         == State(Cobs(CobsInFrame([], 0, false)), [], s.count + 1,
                  s.log + [Emitted(Frame(CobsCodec.BlockData(blocks), s.count, CobsFrame, None))])
  {
    hide Run, Consumed, PushStream;
    var inside := s.(mode := Cobs(CobsInFrame([], 0, false)));
    RunCons(cfg, s, 0, CobsCodec.BlockBytes(blocks));
    CobsCodec.BlocksAreRead(cfg, inside, blocks);
    QuietPush(cfg, s, [0] + CobsCodec.BlockBytes(blocks));
  }

  /** In the other modes a flush hands out all buffered bytes; with nothing to hand out it changes nothing. */
  lemma FlushedBuffer(s: State)
    requires IsBuffered(s.mode)
    ensures s.buf != [] ==>
      && Flushed(s).buf == [] && Flushed(s).mode == s.mode && Flushed(s).count == s.count + 1
      && Flushed(s).log == s.log + [Emitted(Frame(s.buf, s.count, FrameTypeOf(s.mode), None))]
    ensures s.buf == [] ==> Flushed(s) == s
  {
  }
}
