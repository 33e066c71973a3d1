/** Facts about every run of the buffered modes: what pushes append, number and conserve. */
module BufferedRuns {
  import opened Bytes
  import opened Framing
  import opened BufferedModes

  /** The state after one cut frame was emitted. */
  function Next(cfg: Config, s: State, x: Extraction): State
    requires x.frame.Some?
  {
    EmitFrame(cfg, s.(mode := x.mode, buf := x.buf), x.frame.value)
  }

  lemma NextStandsAt(cfg: Config, s: State, x: Extraction)
    requires x.frame.Some?
    ensures Next(cfg, s, x).mode == x.mode && Next(cfg, s, x).buf == x.buf
  {
  }

  lemma PayloadsExtend(log: seq<Event>, longer: seq<Event>)
    requires log <= longer
    ensures Payloads(log) <= Payloads(longer)
    decreases |longer|
  {
    if |log| < |longer| {
      PayloadsExtend(log, longer[..|longer| - 1]);
    } else {
      assert log == longer;
    }
  }

  lemma {:induction false} DrainExtendsLog(cfg: Config, s: State)
    requires IsBuffered(s.mode)
    ensures s.log <= Drain(cfg, s).log
    decreases |s.buf|
  {
    var x := Extract(cfg.includeTerminators, s.mode, s.buf);
    if x.frame.Some? {
      var u := Next(cfg, s, x);
      if |u.log| == |s.log| || !u.log[|u.log| - 1].Failed? {
        DrainExtendsLog(cfg, u);
      }
    }
  }

  /** One frame cut from the buffer becomes the next payload, and stays it whatever follows. */
  lemma NextPayload(cfg: Config, s: State, x: Extraction)
    requires IsBuffered(s.mode) && cfg.parser.None? && !cfg.skipEmpty
    requires x == Extract(cfg.includeTerminators, s.mode, s.buf) && x.frame.Some?
    ensures Drain(cfg, s) == Drain(cfg, Next(cfg, s, x))
    ensures Payloads(Next(cfg, s, x).log) == Payloads(s.log) + [x.frame.value]
    ensures Payloads(Next(cfg, s, x).log) <= Payloads(Drain(cfg, s).log)
    ensures Next(cfg, s, x).mode == x.mode && Next(cfg, s, x).buf == x.buf
  {
    var u := Next(cfg, s, x);
    LogAppend(s.log, Emitted(Frame(x.frame.value, s.count, FrameTypeOf(x.mode), None)));
    DrainExtendsLog(cfg, u);
    PayloadsExtend(u.log, Drain(cfg, u).log);
  }

  lemma PushExtendsPayloads(cfg: Config, s: State, chunk: seq<byte>)
    requires IsBuffered(s.mode)
    ensures Payloads(s.log) <= Payloads(PushBuffered(cfg, s, chunk).log)
  {
    DrainExtendsLog(cfg, s.(buf := s.buf + chunk));
    PayloadsExtend(s.log, PushBuffered(cfg, s, chunk).log);
  }

  lemma FirstPush(cfg: Config, mode: Mode, input: seq<byte>)
    requires IsBuffered(mode)
    ensures PushBuffered(cfg, Fresh(mode), input) == Drain(cfg, Fresh(mode).(buf := input))
  {
    assert [] + input == input;
  }

  lemma TwoChunks(cfg: Config, s: State, a: seq<byte>, b: seq<byte>)
    requires IsBuffered(s.mode)
    ensures Join([a, b]) == a + b
    ensures PushBufferedAll(cfg, s, [a, b]) == PushBuffered(cfg, PushBuffered(cfg, s, a), b)
  {
    var none: seq<seq<byte>> := [];
    assert [a, b][1..] == [b] && [b][1..] == none;
    assert Join([b]) == b + Join(none) == b;
    var mid := PushBuffered(cfg, s, a);
    assert PushBufferedAll(cfg, mid, [b]) == PushBufferedAll(cfg, PushBuffered(cfg, mid, b), none);
  }

  /** Without a parser nothing is fatal. */
  lemma {:induction false} NeverFails(cfg: Config, s: State)
    requires IsBuffered(s.mode) && cfg.parser.None? && NoFailure(s.log)
    ensures NoFailure(Drain(cfg, s).log)
    decreases |s.buf|
  {
    var x := Extract(cfg.includeTerminators, s.mode, s.buf);
    if x.frame.Some? {
      NeverFails(cfg, Next(cfg, s, x));
    }
  }

  /** Frame indices are contiguous from zero in every run of the buffered modes too. */
  lemma {:induction false} PushesKeepNumbering(cfg: Config, s: State, chunks: seq<seq<byte>>)
    requires IsBuffered(s.mode) && Numbered(s)
    ensures Numbered(PushBufferedAll(cfg, s, chunks))
    decreases |chunks|
  {
    if chunks != [] {
      DrainKeepsNumbering(cfg, s.(buf := s.buf + chunks[0]));
      PushesKeepNumbering(cfg, PushBuffered(cfg, s, chunks[0]), chunks[1..]);
    }
  }

  lemma {:induction false} DrainKeepsNumbering(cfg: Config, s: State)
    requires IsBuffered(s.mode) && Numbered(s)
    ensures Numbered(Drain(cfg, s))
    decreases |s.buf|
  {
    var x := Extract(cfg.includeTerminators, s.mode, s.buf);
    if x.frame.Some? {
      var t := s.(mode := x.mode, buf := x.buf);
      EmitKeepsNumbering(cfg, t, x.frame.value);
      DrainKeepsNumbering(cfg, EmitFrame(cfg, t, x.frame.value));
    }
  }

  // ----- nothing is lost when terminators are kept

  /** Modes whose frames, terminators included, tile the input. */
  predicate Tiles(mode: Mode) {
    mode.Line? || mode.Delimiter? || (mode.LengthPrefixed? && mode.remainingOffset == 0)
  }

  lemma JoinAppend(parts: seq<seq<byte>>, last: seq<byte>)
    ensures Join(parts + [last]) == Join(parts) + last
  {
    if parts == [] {
      assert Join([last]) == last + Join([]) == last;
    } else {
      assert (parts + [last])[1..] == parts[1..] + [last];
      JoinAppend(parts[1..], last);
    }
  }

  /** A cut splits the buffer into frame and rest; a search without a frame leaves it alone. */
  predicate Splits(x: Extraction, buf: seq<byte>) {
    if x.frame.Some? then x.frame.value + x.buf == buf else x.buf == buf
  }

  lemma TakeFrameSplits(mode: Mode, buf: seq<byte>, split: nat, term: nat)
    requires split + term <= |buf|
    ensures Splits(TakeFrame(true, mode, buf, split, term), buf)
  {
  }

  lemma LineSplits(line: LineState, buf: seq<byte>)
    ensures Splits(Extract(true, Line(line), buf), buf)
  {
    hide TakeFrame, Splits, Position, FindSubsequence;
    forall mode, split, term | 0 <= split && 0 <= term && split + term <= |buf|
      ensures Splits(TakeFrame(true, mode, buf, split, term), buf)
    {
      TakeFrameSplits(mode, buf, split, term);
    }
    forall mode ensures Splits(Extraction(mode, buf, None), buf) {
      NoCutSplits(mode, buf);
    }
  }

  lemma NoCutSplits(mode: Mode, buf: seq<byte>)
    ensures Splits(Extraction(mode, buf, None), buf)
  {
  }

  lemma ExtractTiles(mode: Mode, buf: seq<byte>)
    requires Tiles(mode)
    ensures Tiles(Extract(true, mode, buf).mode) && Splits(Extract(true, mode, buf), buf)
  {
    match mode
    case Line(line) => LineSplits(line, buf);
    case Delimiter(delimiter) => assert Splits(UpTo(true, mode, buf, delimiter), buf);
    case LengthPrefixed(_, _, _, _) =>
      OffsetIsSpent(true, mode, buf);
      assert Splits(PrefixedPayload(true, mode, buf), buf);
  }

  ghost predicate DrainKeepsBytes(cfg: Config, s: State)
    requires IsBuffered(s.mode)
  {
    Join(Payloads(Drain(cfg, s).log)) + Drain(cfg, s).buf == Join(Payloads(s.log)) + s.buf
  }

  lemma {:induction false} DrainTiles(cfg: Config, s: State)
    requires Tiles(s.mode) && cfg == Config(true, false, None)
    ensures Tiles(Drain(cfg, s).mode) && DrainKeepsBytes(cfg, s)
    decreases |s.buf|
  {
    hide Extract, Join, Payloads, Splits;
    ExtractTiles(s.mode, s.buf);
    var x := Extract(true, s.mode, s.buf);
    DrainOnce(cfg, s);
    if x.frame.Some? {
      var u := Next(cfg, s, x);
      NextPayload(cfg, s, x);
      DrainTiles(cfg, u);
      BytesRegroup(Payloads(s.log), x, s.buf);
    } else {
      NoCutKeepsBytes(x, s.buf);
    }
  }

  lemma DrainOnce(cfg: Config, s: State)
    requires IsBuffered(s.mode)
    ensures
      var x := Extract(cfg.includeTerminators, s.mode, s.buf);
      x.frame.None? ==> Drain(cfg, s) == s.(mode := x.mode, buf := x.buf)
  {
  }

  lemma BytesRegroup(before: seq<seq<byte>>, x: Extraction, buf: seq<byte>)
    requires x.frame.Some? && Splits(x, buf)
    ensures Join(before + [x.frame.value]) + x.buf == Join(before) + buf
  {
    JoinAppend(before, x.frame.value);
  }

  lemma NoCutKeepsBytes(x: Extraction, buf: seq<byte>)
    requires x.frame.None? && Splits(x, buf)
    ensures x.buf == buf
  {
  }

  /** Conservation: frames concatenated with the pending bytes are the input, in every push-only run. */
  lemma {:induction false} FramesAndBufferTileInput(cfg: Config, s: State, chunks: seq<seq<byte>>)
    requires Tiles(s.mode) && cfg == Config(true, false, None)
    ensures
      var r := PushBufferedAll(cfg, s, chunks);
      Join(Payloads(r.log)) + r.buf == Join(Payloads(s.log)) + s.buf + Join(chunks)
    decreases |chunks|
  {
    if chunks != [] {
      DrainTiles(cfg, s.(buf := s.buf + chunks[0]));
      FramesAndBufferTileInput(cfg, PushBuffered(cfg, s, chunks[0]), chunks[1..]);
    }
  }
}
