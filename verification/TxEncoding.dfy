/** TX framing of one payload, and the round trips of the modes without byte stuffing. */
module TxEncoding {
  import opened Bytes
  import opened Framing
  import opened StartMarkers
  import opened BufferedModes
  import opened BufferedRuns
  import SlipCodec
  import CobsCodec
  import NmeaSentence

  datatype Result<+T> = Ok(value: T) | Err(message: string)

  datatype TxLineEnding = TxLf | TxCr | TxCrlf

  /** Delimiters and markers are the bytes their configured encoding decodes to. */
  datatype TxMode =
    | TxLine(ending: TxLineEnding)
    | TxDelimiter(delimiter: seq<byte>)
    | TxLengthPrefixed(prefixSize: nat, endianness: Endianness)
    | TxStartEnd(start: seq<seq<byte>>, end: seq<byte>)
    | TxSlip
    | TxCobs
    | TxNmea

  function Terminator(ending: TxLineEnding): seq<byte> {
    match ending
    case TxLf => [LF]
    case TxCr => [CR]
    case TxCrlf => [CR, LF]
  }

  /** 256 to the power `size`: the first length a prefix of that size cannot express. */
  function PrefixRange(size: nat): nat {
    if size == 0 then 1 else 256 * PrefixRange(size - 1)
  }

  /** The low `size` bytes of `len` in the given byte order; higher bytes are lost. */
  function LengthPrefix(len: nat, size: nat, endianness: Endianness): (r: seq<byte>)
    ensures |r| == size
  {
    if size == 0 then []
    else if endianness.Big? then LengthPrefix(len / 256, size - 1, endianness) + [len % 256]
    else [len % 256] + LengthPrefix(len / 256, size - 1, endianness)
  }

  function Encode(mode: TxMode, payload: seq<byte>): Result<seq<byte>> {
    match mode
    case TxLine(ending) => Ok(payload + Terminator(ending))
    case TxDelimiter(delimiter) =>
      if delimiter == [] then Err("TX delimiter must not be empty") else Ok(payload + delimiter)
    case TxLengthPrefixed(size, endianness) =>
      if size != 1 && size != 2 && size != 4 then Err("TX prefix_size must be 1, 2, or 4")
      else if size == 1 && |payload| > 255 then Err("TX payload length exceeds maximum 255")
      else if size == 2 && |payload| > 65535 then Err("TX payload length exceeds maximum 65535")
      else Ok(LengthPrefix(|payload|, size, endianness) + payload)
    case TxStartEnd(start, end) =>
      if start == [] then Err("TX start markers must not be empty")
      else if start[0] == [] || end == [] then Err("TX start and end markers must not be empty")
      else Ok(start[0] + payload + end)
    case TxSlip => Ok(SlipCodec.Framed(payload))
    case TxCobs => Ok(CobsCodec.Framed(payload))
    case TxNmea =>
      match NmeaSentence.Encode(payload)
      case None => Err("TX NMEA payload rejected")
      case Some(sentence) => Ok(sentence)
  }

  // ----- from one frame to streams of frames

  /** One transmission alone is cut into exactly its frame, and the mode is as before. */
  predicate CutsTo(inclusive: bool, mode: Mode, code: seq<byte>, frame: seq<byte>)
    requires IsBuffered(mode)
  {
    Extract(inclusive, mode, code) == Extraction(mode, [], Some(frame))
  }

  ghost predicate AllCut(inclusive: bool, mode: Mode, codes: seq<seq<byte>>, frames: seq<seq<byte>>)
    requires IsBuffered(mode)
  {
    && |codes| == |frames|
    && forall i :: 0 <= i < |codes| ==> CutsTo(inclusive, mode, codes[i], frames[i])
  }

  /** Draining hands out exactly `frames` and leaves nothing behind. */
  ghost predicate DecodesTo(cfg: Config, s: State, frames: seq<seq<byte>>)
    requires IsBuffered(s.mode)
  {
    var r := Drain(cfg, s);
    r.mode == s.mode && r.buf == [] && Payloads(r.log) == Payloads(s.log) + frames
  }

  lemma {:induction false} CodesDecode(cfg: Config, s: State, codes: seq<seq<byte>>, frames: seq<seq<byte>>)
    requires IsBuffered(s.mode) && cfg.parser.None? && !cfg.skipEmpty
    requires forall input :: ChunkProof(s.mode, input)
    requires AllCut(cfg.includeTerminators, s.mode, codes, frames)
    requires s.buf == Join(codes) && Drain(cfg, s.(buf := [])) == s.(buf := [])
    ensures DecodesTo(cfg, s, frames)
    decreases |codes|
  {
    if codes == [] {
      assert s.buf == [] && s == s.(buf := []);
      assert Payloads(s.log) + frames == Payloads(s.log);
    } else {
      var rest := Join(codes[1..]);
      var u := Next(cfg, s, Extraction(s.mode, rest, Some(frames[0])));
      assert CutsTo(cfg.includeTerminators, s.mode, codes[0], frames[0]);
      DecodeFirst(cfg, s, codes[0], rest, frames[0]);
      IdleWhateverTheLog(cfg, s.(buf := []), u.(buf := []));
      CodesDecode(cfg, u, codes[1..], frames[1..]);
      PrependFrame(Payloads(s.log), frames);
    }
  }

  lemma PrependFrame(before: seq<seq<byte>>, frames: seq<seq<byte>>)
    requires frames != []
    ensures before + [frames[0]] + frames[1..] == before + frames
  {
  }

  lemma DecodeFirst(cfg: Config, s: State, code: seq<byte>, rest: seq<byte>, frame: seq<byte>)
    requires IsBuffered(s.mode) && cfg.parser.None? && !cfg.skipEmpty
    requires CutsTo(cfg.includeTerminators, s.mode, code, frame)
    requires s.buf == code + rest && ChunkProof(s.mode, s.buf)
    ensures
      var u := Next(cfg, s, Extraction(s.mode, rest, Some(frame)));
      && u.mode == s.mode && u.buf == rest
      && Drain(cfg, s) == Drain(cfg, u)
      && Payloads(u.log) == Payloads(s.log) + [frame]
  {
    ExtractLaw(cfg.includeTerminators, s.mode, code, rest);
    assert [] + rest == rest;
    NextPayload(cfg, s, Extraction(s.mode, rest, Some(frame)));
  }

  lemma IdleWhateverTheLog(cfg: Config, s: State, t: State)
    requires IsBuffered(s.mode) && s.mode == t.mode && s.buf == t.buf == []
    requires Drain(cfg, s) == s
    ensures Drain(cfg, t) == t
  {
    assert Extract(cfg.includeTerminators, s.mode, []).frame.None?;
  }

  /**
    Round trip of a buffered mode from its single-frame round trip: for every list of transmissions
    and every chunking of them a fresh decoder emits exactly their frames, and nothing is left over.
   */
  lemma StreamRoundTrip(cfg: Config, mode: Mode, codes: seq<seq<byte>>, frames: seq<seq<byte>>, chunks: seq<seq<byte>>)
    requires IsBuffered(mode) && cfg.parser.None? && !cfg.skipEmpty
    requires forall input :: ChunkProof(mode, input)
    requires Drain(cfg, Fresh(mode)) == Fresh(mode)
    requires AllCut(cfg.includeTerminators, mode, codes, frames)
    requires Join(chunks) == Join(codes)
    ensures
      var r := PushBufferedAll(cfg, Fresh(mode), chunks);
      && r.mode == mode && r.buf == [] && Numbered(r)
      && Payloads(r.log) == frames
  {
    hide Join, PushBufferedAll, Drain;
    var s := Fresh(mode).(buf := Join(codes));
    FirstPush(cfg, mode, Join(chunks));
    NeverFails(cfg, s);
    BufferedChunkIndependence(cfg, Fresh(mode), chunks);
    CodesDecode(cfg, s, codes, frames);
    PushesKeepNumbering(cfg, Fresh(mode), chunks);
    assert Payloads([]) + frames == frames;
  }

  /** The transmission yields some frame, and if that is the right one nothing is left over. */
  predicate CutsOrDiffers(inclusive: bool, mode: Mode, code: seq<byte>, frame: seq<byte>)
    requires IsBuffered(mode)
  {
    && Extract(inclusive, mode, code).frame.Some?
    && (Extract(inclusive, mode, code).frame == Some(frame) ==> CutsTo(inclusive, mode, code, frame))
  }

  ghost predicate AllCutOrDiffer(inclusive: bool, mode: Mode, codes: seq<seq<byte>>, frames: seq<seq<byte>>)
    requires IsBuffered(mode)
  {
    && |codes| == |frames|
    && forall i :: 0 <= i < |codes| ==> CutsOrDiffers(inclusive, mode, codes[i], frames[i])
  }

  /** One transmission that is not cut to its frame spoils the whole stream. */
  lemma {:induction false} UncutCodesDiffer(cfg: Config, s: State, codes: seq<seq<byte>>, frames: seq<seq<byte>>)
    requires IsBuffered(s.mode) && cfg.parser.None? && !cfg.skipEmpty
    requires forall input :: ChunkProof(s.mode, input)
    requires AllCutOrDiffer(cfg.includeTerminators, s.mode, codes, frames) && s.buf == Join(codes)
    requires !AllCut(cfg.includeTerminators, s.mode, codes, frames)
    ensures Payloads(Drain(cfg, s).log) != Payloads(s.log) + frames
    decreases |codes|
  {
    var inclusive, rest, n := cfg.includeTerminators, Join(codes[1..]), |Payloads(s.log)|;
    assert CutsOrDiffers(inclusive, s.mode, codes[0], frames[0]);
    if CutsTo(inclusive, s.mode, codes[0], frames[0]) {
      var u := Next(cfg, s, Extraction(s.mode, rest, Some(frames[0])));
      DecodeFirst(cfg, s, codes[0], rest, frames[0]);
      assert !AllCut(inclusive, s.mode, codes[1..], frames[1..]) by {
        RestIsUncut(inclusive, s.mode, codes, frames);
      }
      UncutCodesDiffer(cfg, u, codes[1..], frames[1..]);
      PrependFrame(Payloads(s.log), frames);
    } else {
      var x := Extract(inclusive, s.mode, s.buf);
      ExtractLaw(inclusive, s.mode, codes[0], rest);
      assert x.frame == Extract(inclusive, s.mode, codes[0]).frame;
      NextPayload(cfg, s, x);
      assert Payloads(Drain(cfg, s).log)[n] == x.frame.value != frames[0] == (Payloads(s.log) + frames)[n];
    }
  }

  lemma RestIsUncut(inclusive: bool, mode: Mode, codes: seq<seq<byte>>, frames: seq<seq<byte>>)
    requires IsBuffered(mode) && |codes| == |frames| && codes != [] && CutsTo(inclusive, mode, codes[0], frames[0])
    requires !AllCut(inclusive, mode, codes, frames)
    ensures !AllCut(inclusive, mode, codes[1..], frames[1..])
  {
    var i :| 0 <= i < |codes| && !CutsTo(inclusive, mode, codes[i], frames[i]);
    assert codes[1..][i - 1] == codes[i] && frames[1..][i - 1] == frames[i];
  }

  /** `r` holds exactly these frames, numbered from zero, with nothing left over. */
  ghost predicate Recovers(r: State, mode: Mode, frames: seq<seq<byte>>) {
    r.mode == mode && r.buf == [] && Numbered(r) && Payloads(r.log) == frames
  }

  /**
    The exact round trip of a buffered mode: for every chunking, a stream of transmissions is recovered if
    and only if each transmission alone is; otherwise even the payloads are wrong.
   */
  lemma StreamIsRecoveredExactlyWhen(cfg: Config, mode: Mode, codes: seq<seq<byte>>, frames: seq<seq<byte>>,
                                     chunks: seq<seq<byte>>)
    requires IsBuffered(mode) && cfg.parser.None? && !cfg.skipEmpty
    requires forall input :: ChunkProof(mode, input)
    requires Drain(cfg, Fresh(mode)) == Fresh(mode)
    requires AllCutOrDiffer(cfg.includeTerminators, mode, codes, frames)
    requires Join(chunks) == Join(codes)
    ensures
      var r := PushBufferedAll(cfg, Fresh(mode), chunks);
      && (Payloads(r.log) == frames <==> AllCut(cfg.includeTerminators, mode, codes, frames))
      && (Payloads(r.log) == frames ==> Recovers(r, mode, frames))
  {
    hide Join, PushBufferedAll, Drain, AllCut, AllCutOrDiffer;
    if AllCut(cfg.includeTerminators, mode, codes, frames) {
      StreamRoundTrip(cfg, mode, codes, frames, chunks);
    } else {
      var s := Fresh(mode).(buf := Join(codes));
      FirstPush(cfg, mode, Join(chunks));
      NeverFails(cfg, s);
      BufferedChunkIndependence(cfg, Fresh(mode), chunks);
      UncutCodesDiffer(cfg, s, codes, frames);
      assert Payloads([]) + frames == frames;
    }
  }

  // ----- single-frame round trips, each with its exact condition

  /** A delimited payload yields a frame, which is the payload exactly when the payload is free of the delimiter. */
  lemma DelimitedFrame(payload: seq<byte>, delimiter: seq<byte>)
    requires delimiter != []
    ensures CutsTo(false, Delimiter(delimiter), payload + delimiter, payload) <==> FreeOf(payload, delimiter)
    ensures CutsOrDiffers(false, Delimiter(delimiter), payload + delimiter, payload)
  {
    var code := payload + delimiter;
    FreeOfExactlyWhen(payload, delimiter);
    assert OccursAt(code, delimiter, |payload|);
    var pos := FindSubsequence(code, delimiter).value;
    if pos == |payload| {
      assert code[pos + |delimiter|..] == [] && code[..pos] == payload;
    } else {
      assert |code[..pos]| != |payload|;
    }
  }

  /** The RX line mode of the same ending. */
  function LineModeFor(ending: TxLineEnding): Mode {
    match ending
    case TxLf => Line(Lf)
    case TxCr => Line(Cr)
    case TxCrlf => Line(Crlf)
  }

  /** The line terminator does not occur in the payload. */
  ghost predicate IsOneLine(payload: seq<byte>, ending: TxLineEnding) {
    match ending
    case TxLf => LF !in payload
    case TxCr => CR !in payload
    case TxCrlf => forall i :: 0 <= i < |payload| - 1 ==> !(payload[i] == CR && payload[i + 1] == LF)
  }

  /** A terminated line is cut back to its payload exactly when its terminator does not occur in the payload. */
  lemma TerminatedLine(payload: seq<byte>, ending: TxLineEnding)
    ensures CutsTo(false, LineModeFor(ending), payload + Terminator(ending), payload) <==> IsOneLine(payload, ending)
    ensures CutsOrDiffers(false, LineModeFor(ending), payload + Terminator(ending), payload)
  {
    hide FreeOf, IsOneLine, FindSubsequence, Position;
    DelimitedFrame(payload, Terminator(ending));
    OneLineIsFree(payload, ending);
    LineSearchIsDelimiterSearch(payload + Terminator(ending), ending);
  }

  lemma LineSearchIsDelimiterSearch(code: seq<byte>, ending: TxLineEnding)
    ensures
      var x, y := Extract(false, LineModeFor(ending), code), Extract(false, Delimiter(Terminator(ending)), code);
      x.frame == y.frame && x.buf == y.buf && x.mode == LineModeFor(ending) && y.mode == Delimiter(Terminator(ending))
  {
    hide FindSubsequence, Position;
    if !ending.TxCrlf? {
      SearchOneByte(code, Terminator(ending)[0]);
    }
  }

  lemma OneLineIsFree(payload: seq<byte>, ending: TxLineEnding)
    ensures IsOneLine(payload, ending) <==> FreeOf(payload, Terminator(ending))
  {
    var t := Terminator(ending);
    assert forall p: nat :: !Overlaps(t, p) by {
      assert ending.TxCrlf? ==> t[1..] == [LF] && t[..1] == [CR];
    }
    if IsOneLine(payload, ending) {
      forall i ensures !OccursAt(payload, t, i) {
        OccursStartsWith(payload, t, i);
        if ending.TxCrlf? {
          OccursSecondByte(payload, t, i);
        }
      }
    } else {
      var i :| 0 <= i && i + |t| <= |payload| && payload[i] == t[0] && (ending.TxCrlf? ==> payload[i + 1] == LF);
      assert payload[i..i + |t|] == t;
      assert OccursAt(payload, t, i);
    }
  }

  lemma OccursSecondByte(s: seq<byte>, t: seq<byte>, i: int)
    requires |t| > 1
    ensures OccursAt(s, t, i) ==> s[i + 1] == t[1]
  {
    if OccursAt(s, t, i) {
      assert s[i..i + |t|][1] == s[i + 1];
    }
  }

  lemma SearchOneByte(s: seq<byte>, b: byte)
    ensures FindSubsequence(s, [b]) == Position(s, b)
  {
    forall i | 0 <= i < |s| ensures OccursAt(s, [b], i) <==> s[i] == b {
      assert s[i..i + 1] == [s[i]];
    }
    assert forall i :: 0 <= i < |s| ==> (OccursAt(s, [b], i) <==> s[i] == b);
  }

  lemma {:induction false} PrefixReadsBack(len: nat, size: nat, endianness: Endianness)
    ensures ReadLengthPrefix(LengthPrefix(len, size, endianness), endianness) < PrefixRange(size)
    ensures ReadLengthPrefix(LengthPrefix(len, size, endianness), endianness) == len % PrefixRange(size)
    decreases size
  {
    if size > 0 {
      PrefixUnfolds(len, size, endianness);
      hide ReadLengthPrefix, LengthPrefix, PrefixRange;
      PrefixReadsBack(len / 256, size - 1, endianness);
      var r, rest := PrefixRange(size - 1), ReadLengthPrefix(LengthPrefix(len / 256, size - 1, endianness), endianness);
      ModOfQuotient(len, r);
      assert rest == (len / 256) % r;
      assert ReadLengthPrefix(LengthPrefix(len, size, endianness), endianness) == 256 * ((len / 256) % r) + len % 256;
    }
  }

  /** The byte furthest from the others carries the remainder, the rest of the prefix the quotient. */
  lemma PrefixUnfolds(len: nat, size: nat, endianness: Endianness)
    requires size > 0
    ensures ReadLengthPrefix(LengthPrefix(len, size, endianness), endianness)
         == 256 * ReadLengthPrefix(LengthPrefix(len / 256, size - 1, endianness), endianness) + len % 256
    ensures PrefixRange(size) == 256 * PrefixRange(size - 1)
  {
    var rest := LengthPrefix(len / 256, size - 1, endianness);
    var prefix := LengthPrefix(len, size, endianness);
    if endianness.Big? {
      assert prefix == rest + [len % 256] && prefix[..size - 1] == rest;
    } else {
      assert prefix == [len % 256] + rest && prefix[1..] == rest;
    }
  }

  /** Reading the quotient and the remainder by 256 separately reads the number. */
  lemma ModOfQuotient(n: nat, r: nat)
    requires r > 0
    ensures 256 * ((n / 256) % r) + n % 256 == n % (256 * r)
    ensures 256 * ((n / 256) % r) + n % 256 < 256 * r
  {
    var q := n / 256;
    var low := 256 * (q % r) + n % 256;
    assert n == 256 * q + n % 256;
    assert q == r * (q / r) + q % r;
    assert n == (256 * r) * (q / r) + low by {
      assert 256 * q == 256 * (r * (q / r)) + 256 * (q % r);
      assert 256 * (r * (q / r)) == (256 * r) * (q / r);
    }
    assert q % r <= r - 1;
    RemainderIsUnique(n, 256 * r, q / r, low);
  }

  /**
    The length-prefixed round trip holds exactly for payloads whose length the prefix can express.
    The encoder rejects longer ones for 1- and 2-byte prefixes but truncates a 4-byte length silently.
   */
  lemma LengthPrefixedFrame(payload: seq<byte>, size: PrefixSize, endianness: Endianness)
    ensures
      var mode := LengthPrefixed(size, endianness, 0, None);
      var code := LengthPrefix(|payload|, size, endianness) + payload;
      && (CutsTo(false, mode, code, payload) <==> |payload| < PrefixRange(size))
      && CutsOrDiffers(false, mode, code, payload)
  {
    hide LengthPrefix, ReadLengthPrefix, PrefixRange, LengthPrefixedFrom, PrefixedPayload, PayloadLen;
    var mode := LengthPrefixed(size, endianness, 0, None);
    var prefix := LengthPrefix(|payload|, size, endianness);
    var len := ReadLengthPrefix(prefix, endianness);
    ExpressibleLengths(|payload|, size, endianness);
    PrefixIsRead(mode, prefix, payload);
    OffsetIsSpent(false, mode, prefix + payload);
    AnnouncedPayload(mode, prefix + payload, payload, len);
  }

  lemma ExpressibleLengths(n: nat, size: nat, endianness: Endianness)
    ensures
      var len := ReadLengthPrefix(LengthPrefix(n, size, endianness), endianness);
      len <= n && (len == n <==> n < PrefixRange(size))
  {
    PrefixReadsBack(n, size, endianness);
    if n < PrefixRange(size) {
      RemainderIsUnique(n, PrefixRange(size), 0, n);
    }
  }

  lemma PrefixIsRead(mode: Mode, prefix: seq<byte>, payload: seq<byte>)
    requires mode.LengthPrefixed? && mode.nextPayloadLen.None? && |prefix| == mode.prefixSize
    ensures PayloadLen(mode, prefix + payload) == Some(ReadLengthPrefix(prefix, mode.endianness))
    ensures (prefix + payload)[mode.prefixSize..] == payload
  {
    assert (prefix + payload)[..mode.prefixSize] == prefix;
  }

  /** The announced length decides how much of the payload is taken. */
  lemma AnnouncedPayload(mode: Mode, code: seq<byte>, payload: seq<byte>, len: nat)
    requires mode.LengthPrefixed? && mode.nextPayloadLen.None? && PayloadLen(mode, code) == Some(len)
    requires |code| == mode.prefixSize + |payload| && code[mode.prefixSize..] == payload && len <= |payload|
    ensures PrefixedPayload(false, mode, code) == Extraction(mode, [], Some(payload)) <==> len == |payload|
    ensures PrefixedPayload(false, mode, code).frame.Some?
    ensures PrefixedPayload(false, mode, code).frame == Some(payload) ==> len == |payload|
  {
    hide PayloadLen;
    var total := mode.prefixSize + len;
    if len == |payload| {
      assert code[total..] == [] && code[mode.prefixSize..total] == payload;
    } else {
      assert |code[total..]| > 0 && |code[mode.prefixSize..total]| == len;
    }
  }

  lemma PrefixRanges()
    ensures PrefixRange(1) == 256 && PrefixRange(2) == 65536 && PrefixRange(4) == 0x1_0000_0000
  {
    assert PrefixRange(0) == 1;
    assert PrefixRange(3) == 256 * PrefixRange(2);
  }

  /**
    The length-prefixed round trip: what the encoder accepts is recovered, for any list of payloads and
    any chunking, if and only if every length fits its prefix; only a 4-byte prefix lets others through.
   */
  lemma LengthPrefixedRoundTrip(payloads: seq<seq<byte>>, codes: seq<seq<byte>>, size: PrefixSize,
                                endianness: Endianness, chunks: seq<seq<byte>>)
    requires |codes| == |payloads|
    requires forall i :: 0 <= i < |payloads| ==>
      Encode(TxLengthPrefixed(size, endianness), payloads[i]) == Ok(codes[i])
    requires Join(chunks) == Join(codes)
    ensures
      var mode := LengthPrefixed(size, endianness, 0, None);
      var r := PushBufferedAll(PLAIN, Fresh(mode), chunks);
      && (Payloads(r.log) == payloads <==> forall i :: 0 <= i < |payloads| ==> |payloads[i]| < 0x1_0000_0000)
      && (Payloads(r.log) == payloads ==> Recovers(r, mode, payloads))
  {
    var cfg, mode := PLAIN, LengthPrefixed(size, endianness, 0, None);
    PrefixRanges();
    forall i | 0 <= i < |codes|
      ensures CutsOrDiffers(false, mode, codes[i], payloads[i])
      ensures CutsTo(false, mode, codes[i], payloads[i]) <==> |payloads[i]| < 0x1_0000_0000
    {
      LengthPrefixedFrame(payloads[i], size, endianness);
    }
    FreshIsDrained(cfg, mode);
    StreamIsRecoveredExactlyWhen(cfg, mode, codes, payloads, chunks);
  }

  /** What the decoder should hand out for a payload between markers. */
  function MarkedFrame(payload: seq<byte>, start: seq<seq<byte>>, end: seq<byte>, includeMarkers: bool): seq<byte>
    requires start != []
  {
    if includeMarkers then start[0] + payload + end else payload
  }

  /** What must be free of the end marker: the payload, behind the start marker when that is part of the frame. */
  function Scanned(payload: seq<byte>, start: seq<seq<byte>>, includeMarkers: bool): seq<byte>
    requires start != []
  {
    if includeMarkers then start[0] + payload else payload
  }

  /** A payload between markers is recovered exactly when the end marker does not show up early. */
  lemma StartEndFrame(payload: seq<byte>, start: seq<seq<byte>>, end: seq<byte>, includeMarkers: bool)
    requires start != [] && NonEmptyMarkers(start) && end != []
    ensures
      var mode, code := StartEnd(start, end, includeMarkers, false), start[0] + payload + end;
      var frame := MarkedFrame(payload, start, end, includeMarkers);
      && (CutsTo(false, mode, code, frame) <==> FreeOf(Scanned(payload, start, includeMarkers), end))
      && CutsOrDiffers(false, mode, code, frame)
  {
    hide FreeOf, FindSubsequence, EarliestStart, ToEndMarker;
    var mode, code := StartEnd(start, end, includeMarkers, false), start[0] + payload + end;
    var body := Scanned(payload, start, includeMarkers);
    FirstMarkerWins(start, payload + end);
    assert code == start[0] + (payload + end);
    assert code[CutAt(mode, Hit(0, |start[0]|))..] == body + end;
    EndMarkerCuts(mode, body);
  }

  /** The search for the end marker behind the start. */
  lemma EndMarkerCuts(mode: Mode, body: seq<byte>)
    requires mode.StartEnd? && !mode.inFrame && mode.end != []
    ensures
      var x, frame := ToEndMarker(mode, body + mode.end), if mode.includeMarkers then body + mode.end else body;
      && x.frame.Some?
      && (x == Extraction(mode, [], Some(frame)) <==> FreeOf(body, mode.end))
      && (x.frame == Some(frame) ==> x == Extraction(mode, [], Some(frame)))
  {
    hide FreeOf;
    var end, rest := mode.end, body + mode.end;
    FreeOfExactlyWhen(body, end);
    assert OccursAt(rest, end, |body|);
    var pos := FindSubsequence(rest, end).value;
    if pos == |body| {
      assert rest[pos + |end|..] == [] && rest[..pos] == body && rest[..pos + |end|] == rest;
    } else {
      assert |rest[..pos]| < |body| && |rest[..pos + |end|]| < |rest|;
    }
  }

  /** With markers included, a start marker that begins with the end marker closes its own frame: nothing round-trips. */
  lemma SelfClosingMarkerNeverRoundTrips(payload: seq<byte>, start: seq<seq<byte>>, end: seq<byte>)
    requires start != [] && NonEmptyMarkers(start) && end != [] && end <= start[0]
    ensures !CutsTo(false, StartEnd(start, end, true, false), start[0] + payload + end, start[0] + payload + end)
  {
    assert OccursAt(start[0] + payload, end, 0);
    StartEndFrame(payload, start, end, true);
  }

  lemma FirstMarkerWins(start: seq<seq<byte>>, rest: seq<byte>)
    requires start != [] && NonEmptyMarkers(start)
    ensures EarliestStart(start[0] + rest, start) == Some(Hit(0, |start[0]|))
  {
    var code := start[0] + rest;
    assert OccursAt(code, start[0], 0);
    var w := EarliestStartWins(code, start);
    var pos := EarliestStart(code, start).value.pos;
    assert pos == 0;
    assert w == 0;
  }

  // ----- round trips of payload lists over every chunking, each with its exact condition

  /** Line endings: any list of payloads is recovered if and only if no payload contains its terminator. */
  lemma LineRoundTrip(payloads: seq<seq<byte>>, codes: seq<seq<byte>>, ending: TxLineEnding, chunks: seq<seq<byte>>)
    requires |codes| == |payloads|
    requires forall i :: 0 <= i < |payloads| ==> Encode(TxLine(ending), payloads[i]) == Ok(codes[i])
    requires Join(chunks) == Join(codes)
    ensures
      var mode := LineModeFor(ending);
      var r := PushBufferedAll(PLAIN, Fresh(mode), chunks);
      && (Payloads(r.log) == payloads <==> forall i :: 0 <= i < |payloads| ==> IsOneLine(payloads[i], ending))
      && (Payloads(r.log) == payloads ==> Recovers(r, mode, payloads))
  {
    var cfg, mode := PLAIN, LineModeFor(ending);
    forall i | 0 <= i < |codes|
      ensures CutsOrDiffers(false, mode, codes[i], payloads[i])
      ensures CutsTo(false, mode, codes[i], payloads[i]) <==> IsOneLine(payloads[i], ending)
    {
      TerminatedLine(payloads[i], ending);
    }
    FreshIsDrained(cfg, mode);
    StreamIsRecoveredExactlyWhen(cfg, mode, codes, payloads, chunks);
  }

  /** The delimiter round trip: recovered if and only if every payload is free of the delimiter. */
  lemma DelimitedRoundTrip(payloads: seq<seq<byte>>, codes: seq<seq<byte>>, delimiter: seq<byte>, chunks: seq<seq<byte>>)
    requires |codes| == |payloads|
    requires forall i :: 0 <= i < |payloads| ==> Encode(TxDelimiter(delimiter), payloads[i]) == Ok(codes[i])
    requires delimiter != [] && Join(chunks) == Join(codes)
    ensures
      var mode := Delimiter(delimiter);
      var r := PushBufferedAll(PLAIN, Fresh(mode), chunks);
      && (Payloads(r.log) == payloads <==> forall i :: 0 <= i < |payloads| ==> FreeOf(payloads[i], delimiter))
      && (Payloads(r.log) == payloads ==> Recovers(r, mode, payloads))
  {
    var cfg, mode := PLAIN, Delimiter(delimiter);
    forall i | 0 <= i < |codes|
      ensures CutsOrDiffers(false, mode, codes[i], payloads[i])
      ensures CutsTo(false, mode, codes[i], payloads[i]) <==> FreeOf(payloads[i], delimiter)
    {
      DelimitedFrame(payloads[i], delimiter);
    }
    FreshIsDrained(cfg, mode);
    StreamIsRecoveredExactlyWhen(cfg, mode, codes, payloads, chunks);
  }

  /** The start/end round trip, for unambiguous start markers such as those of the presets. */
  lemma StartEndRoundTrip(payloads: seq<seq<byte>>, codes: seq<seq<byte>>, start: seq<seq<byte>>, end: seq<byte>,
                          includeMarkers: bool, chunks: seq<seq<byte>>)
    requires |codes| == |payloads| && start != [] && end != []
    requires NonEmptyMarkers(start) && Unambiguous(start, includeMarkers)
    requires forall i :: 0 <= i < |payloads| ==> Encode(TxStartEnd(start, end), payloads[i]) == Ok(codes[i])
    requires Join(chunks) == Join(codes)
    ensures
      var mode := StartEnd(start, end, includeMarkers, false);
      var r := PushBufferedAll(PLAIN, Fresh(mode), chunks);
      var frames := if includeMarkers then codes else payloads;
      && (Payloads(r.log) == frames <==>
            forall i :: 0 <= i < |payloads| ==> FreeOf(Scanned(payloads[i], start, includeMarkers), end))
      && (Payloads(r.log) == frames ==> Recovers(r, mode, frames))
  {
    var cfg, mode := PLAIN, StartEnd(start, end, includeMarkers, false);
    var frames := if includeMarkers then codes else payloads;
    forall i | 0 <= i < |codes|
      ensures CutsOrDiffers(false, mode, codes[i], frames[i])
      ensures CutsTo(false, mode, codes[i], frames[i]) <==> FreeOf(Scanned(payloads[i], start, includeMarkers), end)
    {
      StartEndFrame(payloads[i], start, end, includeMarkers);
    }
    FreshIsDrained(cfg, mode);
    StreamIsRecoveredExactlyWhen(cfg, mode, codes, frames, chunks);
  }

  // ----- NMEA 0183

  /** The start markers of the preset. */
  const LEADS: seq<seq<byte>> := [[NmeaSentence.DOLLAR], [NmeaSentence.BANG]]

  /** What the preset decoder should hand out: the sentence without lead character and CRLF. */
  function SentenceBody(sentence: seq<byte>): seq<byte>
    requires |sentence| >= 3
  {
    sentence[1..|sentence| - 2]
  }

  /**
    For every list of accepted payloads and every chunking of their encodings the preset decoder emits
    exactly one frame each, the body with its checksum field, numbered from zero, and keeps nothing.
   */
  lemma NmeaRoundTrip(payloads: seq<seq<byte>>, codes: seq<seq<byte>>, chunks: seq<seq<byte>>)
    requires |codes| == |payloads|
    requires forall i :: 0 <= i < |payloads| ==> Encode(TxNmea, payloads[i]) == Ok(codes[i])
    requires Join(chunks) == Join(codes)
    ensures
      var mode := StartEnd(LEADS, [CR, LF], false, false);
      var r := PushBufferedAll(PLAIN, Fresh(mode), chunks);
      && (forall i :: 0 <= i < |codes| ==> |codes[i]| >= 3)
      && Recovers(r, mode, seq(|codes|, i requires 0 <= i < |codes| => SentenceBody(codes[i])))
  {
    var cfg, mode := PLAIN, StartEnd(LEADS, [CR, LF], false, false);
    forall i | 0 <= i < |codes|
      ensures |codes[i]| >= 3 && CutsTo(false, mode, codes[i], SentenceBody(codes[i]))
    {
      NmeaSentence.EncodedShape(payloads[i]);
      SentenceIsCut(codes[i]);
    }
    PresetIsChunkProof(mode);
    FreshIsDrained(cfg, mode);
    StreamRoundTrip(cfg, mode, codes, seq(|codes|, i requires 0 <= i < |codes| => SentenceBody(codes[i])), chunks);
  }

  lemma PresetIsChunkProof(mode: Mode)
    requires mode == StartEnd(LEADS, [CR, LF], false, false)
    ensures forall input :: ChunkProof(mode, input)
  {
    EqualLengthsAreUnambiguous(mode.start, false);
  }

  lemma SentenceIsCut(code: seq<byte>)
    requires NmeaSentence.IsSentence(code)
    ensures CutsTo(false, StartEnd(LEADS, [CR, LF], false, false), code, SentenceBody(code))
  {
    hide EarliestStart, FindSubsequence;
    var body := SentenceBody(code);
    var rest := body + [CR, LF];
    SentenceParts(code);
    LeadIsFound(code[0], rest);
    assert code[1..] == rest;
    assert rest[|body| + 2..] == [] && rest[..|body|] == body;
  }

  /** Lead, body and CRLF; the printable body holds no CR. */
  lemma SentenceParts(code: seq<byte>)
    requires NmeaSentence.IsSentence(code)
    ensures |code| >= 3 && code == [code[0]] + (SentenceBody(code) + [CR, LF])
    ensures code[0] == NmeaSentence.DOLLAR || code[0] == NmeaSentence.BANG
    ensures FindSubsequence(SentenceBody(code) + [CR, LF], [CR, LF]) == Some(|SentenceBody(code)|)
  {
    hide FindSubsequence, NmeaSentence.Declared;
    var body := SentenceBody(code);
    assert code == [code[0]] + body + code[|code| - 2..];
    forall i | 0 <= i < |body| ensures body[i] != CR {
      assert body[i] == code[..|code| - 2][i + 1];
    }
    OneLineIsFree(body, TxCrlf);
    FreeOfExactlyWhen(body, [CR, LF]);
  }

  lemma LeadIsFound(lead: byte, rest: seq<byte>)
    requires lead == NmeaSentence.DOLLAR || lead == NmeaSentence.BANG
    ensures EarliestStart([lead] + rest, LEADS) == Some(Hit(0, 1))
  {
    var start := LEADS;
    var code := [lead] + rest;
    assert OccursAt(code, [lead], 0);
    assert start[if lead == NmeaSentence.DOLLAR then 0 else 1] == [lead];
    var w := EarliestStartWins(code, start);
    assert EarliestStart(code, start).value.pos == 0;
  }
}
