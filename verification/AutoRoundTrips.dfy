/** What lines sent with each TX ending become under RX `auto`, the line mode of most presets. */
module AutoRoundTrips {
  import opened Bytes
  import opened Framing
  import opened BufferedModes
  import opened BufferedRuns
  import opened AutoLineFraming
  import opened TxEncoding

  predicate IsPlain(payload: seq<byte>) {
    CR !in payload && LF !in payload
  }

  ghost predicate AllPlain(payloads: seq<seq<byte>>) {
    forall i :: 0 <= i < |payloads| ==> IsPlain(payloads[i])
  }

  /** `codes` are the transmissions of `payloads`. */
  ghost predicate AreLines(payloads: seq<seq<byte>>, codes: seq<seq<byte>>, ending: TxLineEnding) {
    && |codes| == |payloads|
    && forall i :: 0 <= i < |payloads| ==> Encode(TxLine(ending), payloads[i]) == Ok(codes[i])
  }

  function AutoRun(chunks: seq<seq<byte>>): State {
    PushBufferedAll(PLAIN, Fresh(Line(AutoLf)), chunks)
  }

  // ----- LF and CRLF

  /** Plain lines that all end in LF: no bare CR, and splitting at LF gives them back. */
  lemma {:induction false} PlainLinesSplit(payloads: seq<seq<byte>>, codes: seq<seq<byte>>, ending: TxLineEnding)
    requires !ending.TxCr? && AreLines(payloads, codes, ending) && AllPlain(payloads)
    ensures NoBareCr(Join(codes)) && Lines(Join(codes)) == payloads && Unterminated(Join(codes)) == []
    decreases |codes|
  {
    if codes != [] {
      var p, rest := payloads[0], Join(codes[1..]);
      PlainLinesSplit(payloads[1..], codes[1..], ending);
      FirstPlainLine(p, ending, rest);
      assert payloads == [p] + payloads[1..];
    }
  }

  lemma FirstPlainLine(p: seq<byte>, ending: TxLineEnding, rest: seq<byte>)
    requires !ending.TxCr? && IsPlain(p) && NoBareCr(rest)
    ensures
      var all := p + Terminator(ending) + rest;
      NoBareCr(all) && Lines(all) == [p] + Lines(rest) && Unterminated(all) == Unterminated(rest)
  {
    var all, lf := p + Terminator(ending) + rest, |p| + if ending.TxCrlf? then 1 else 0;
    assert all[lf] == LF && (ending.TxCrlf? ==> all[|p|] == CR);
    assert forall i :: 0 <= i < |p| ==> all[i] == p[i];
    assert Position(all, LF) == Some(lf);
    assert all[lf + 1..] == rest;
    assert all[..lf] == if ending.TxCrlf? then p + [CR] else p;
    assert StripCr(all[..lf]) == p;
    forall i | 0 <= i < |all| && all[i] == CR ensures LfOrNothingAt(all, i + 1) {
      if i > lf {
        assert rest[i - lf - 1] == CR;
        assert LfOrNothingAt(rest, i - lf);
      }
    }
  }

  // ----- what `auto` reports is plain

  /** The first line holds no CR but a final one, or an LF would follow a bare CR. */
  lemma FirstLineIsPlain(s: seq<byte>, lf: nat)
    requires NoLfAfterBareCr(s) && Position(s, LF) == Some(lf)
    ensures IsPlain(StripCr(s[..lf]))
  {
    forall i | 0 <= i < lf - 1 ensures s[i] != CR {
      assert s[i + 1] != LF && s[lf] == LF;
    }
    assert forall i :: 0 <= i < lf ==> s[..lf][i] == s[i];
  }

  lemma OneMorePlain(before: seq<seq<byte>>, frame: seq<byte>)
    requires AllPlain(before) && IsPlain(frame)
    ensures AllPlain(before + [frame])
  {
  }

  /** The next frame is plain, and the rest is as good. */
  lemma NextFrameIsPlain(mode: Mode, w: seq<byte>)
    requires (mode == Line(AutoLf) && NoLfAfterBareCr(w)) || (mode == Line(CrMode) && LF !in w)
    ensures
      var x := Extract(false, mode, w);
      x.frame.Some? ==>
        && IsPlain(x.frame.value)
        && ((x.mode == Line(AutoLf) && NoLfAfterBareCr(x.buf)) || (x.mode == Line(CrMode) && LF !in x.buf))
  {
    if mode == Line(AutoLf) && LF in w {
      var lf := Position(w, LF).value;
      FirstLineIsPlain(w, lf);
      AutoLineCutsLf(false, w, lf);
      SuffixKeepsLfFree(w, lf + 1);
    }
  }

  lemma {:induction false} ReportsArePlain(s: State)
    requires (s.mode == Line(AutoLf) && NoLfAfterBareCr(s.buf)) || (s.mode == Line(CrMode) && LF !in s.buf)
    requires AllPlain(Payloads(s.log))
    ensures AllPlain(Payloads(Drain(PLAIN, s).log))
    decreases |s.buf|
  {
    hide Extract, Payloads, AllPlain, IsPlain, NoLfAfterBareCr;
    var x := Extract(false, s.mode, s.buf);
    NextFrameIsPlain(s.mode, s.buf);
    if x.frame.Some? {
      NextPayload(PLAIN, s, x);
      OneMorePlain(Payloads(s.log), x.frame.value);
      ReportsArePlain(Next(PLAIN, s, x));
    }
  }

  ghost predicate EveryChunkingYields(stream: seq<byte>, payloads: seq<seq<byte>>) {
    forall chunks :: Join(chunks) == stream ==> Payloads(AutoRun(chunks).log) == payloads
  }

  /** What comes out the same under every chunking is plain. */
  lemma YieldsOnlyPlain(stream: seq<byte>, payloads: seq<seq<byte>>)
    requires EveryChunkingYields(stream, payloads)
    ensures AllPlain(payloads)
  {
    var s := Fresh(Line(AutoLf));
    OneChunk(stream);
    assert Payloads(PushBuffered(PLAIN, s, stream).log) == Payloads(AutoRun([stream]).log) == payloads;
    assert ChunkIndependent(PLAIN, Line(AutoLf), stream) by {
      forall chunks | Join(chunks) == stream ensures Payloads(PushBufferedAll(PLAIN, s, chunks).log) == payloads {
        assert Payloads(AutoRun(chunks).log) == payloads;
      }
    }
    AutoIsChunkIndependentExactlyWhen(PLAIN, stream);
    FirstPush(PLAIN, Line(AutoLf), stream);
    ReportsArePlain(s.(buf := stream));
  }

  lemma OneChunk(stream: seq<byte>)
    ensures Join([stream]) == stream
    ensures AutoRun([stream]) == PushBuffered(PLAIN, Fresh(Line(AutoLf)), stream)
  {
    var none: seq<seq<byte>> := [];
    assert [stream][1..] == none;
    assert Join([stream]) == stream + Join(none) == stream;
    assert PushBufferedAll(PLAIN, Fresh(Line(AutoLf)), [stream])
        == PushBufferedAll(PLAIN, PushBuffered(PLAIN, Fresh(Line(AutoLf)), stream), none);
  }

  // ----- CR

  /** In CR mode a plain line sent with CR is cut back to itself. */
  lemma PlainCrLine(p: seq<byte>)
    requires IsPlain(p)
    ensures CutsTo(false, Line(CrMode), p + [CR], p)
  {
    var code := p + [CR];
    assert Position(code, CR) == Some(|p|) by {
      assert code[|p|] == CR;
      assert forall i :: 0 <= i < |p| ==> code[i] == p[i];
    }
    assert code[|p| + 1..] == [] && code[..|p|] == p;
  }

  lemma {:induction false} NoLfInCrLines(payloads: seq<seq<byte>>, codes: seq<seq<byte>>)
    requires AreLines(payloads, codes, TxCr) && AllPlain(payloads)
    ensures LF !in Join(codes)
    ensures codes != [] ==> Join(codes) != []
    decreases |codes|
  {
    if codes != [] {
      NoLfInCrLines(payloads[1..], codes[1..]);
    }
  }

  /**
    Plain lines sent with CR: a single one is held back as a pending CR, since LF may still follow; two or
    more are all recovered, the decoder having switched to CR for good.
   */
  lemma CrLinesIntoAuto(payloads: seq<seq<byte>>, codes: seq<seq<byte>>, chunks: seq<seq<byte>>)
    requires AreLines(payloads, codes, TxCr) && AllPlain(payloads) && Join(chunks) == Join(codes)
    ensures
      var r := AutoRun(chunks);
      && (|payloads| == 1 ==> r.log == [] && r.buf == codes[0] && r.mode == Line(PendingCr(|payloads[0]|)))
      && (|payloads| != 1 ==> Payloads(r.log) == payloads && r.buf == [])
  {
    hide Join, Drain, AutoLine, Payloads;
    var all, s := Join(codes), Fresh(Line(AutoLf)).(buf := Join(codes));
    NoLfInCrLines(payloads, codes);
    AutoIgnoresChunking(PLAIN, chunks);
    FirstPush(PLAIN, Line(AutoLf), all);
    DrainCrLines(s, payloads, codes);
  }

  lemma DrainCrLines(s: State, payloads: seq<seq<byte>>, codes: seq<seq<byte>>)
    requires AreLines(payloads, codes, TxCr) && AllPlain(payloads)
    requires s == Fresh(Line(AutoLf)).(buf := Join(codes))
    ensures
      var r := Drain(PLAIN, s);
      && (|payloads| == 1 ==> r.log == [] && r.buf == codes[0] && r.mode == Line(PendingCr(|payloads[0]|)))
      && (|payloads| != 1 ==> Payloads(r.log) == payloads && r.buf == [])
  {
    hide AutoLine;
    if codes == [] {
      FreshIsDrained(PLAIN, Line(AutoLf));
    } else {
      var p, rest := payloads[0], Join(codes[1..]);
      NoLfInCrLines(payloads[1..], codes[1..]);
      FirstCr(p, rest);
      if |codes| > 1 {
        ManyCrLines(s, p, rest, payloads, codes);
      } else {
        DrainOnce(PLAIN, s);
      }
    }
  }

  lemma ManyCrLines(s: State, p: seq<byte>, rest: seq<byte>, payloads: seq<seq<byte>>, codes: seq<seq<byte>>)
    requires AreLines(payloads, codes, TxCr) && AllPlain(payloads) && codes != []
    requires s.mode == Line(AutoLf) && s.log == [] && p == payloads[0] && rest == Join(codes[1..])
    requires AutoLine(false, s.buf) == Extraction(Line(CrMode), rest, Some(p))
    ensures Payloads(Drain(PLAIN, s).log) == payloads && Drain(PLAIN, s).buf == []
  {
    hide AutoLine, Drain, Join;
    var u := Next(PLAIN, s, Extraction(Line(CrMode), rest, Some(p)));
    NextPayload(PLAIN, s, Extraction(Line(CrMode), rest, Some(p)));
    RestInCrMode(u, payloads[1..], codes[1..]);
    assert payloads == [] + [p] + payloads[1..];
  }

  lemma FirstCr(p: seq<byte>, rest: seq<byte>)
    requires IsPlain(p) && LF !in rest
    ensures
      var all := p + [CR] + rest;
      AutoLine(false, all) == if rest == [] then Extraction(Line(PendingCr(|p|)), all, None)
                              else Extraction(Line(CrMode), rest, Some(p))
  {
    var all := p + [CR] + rest;
    assert Position(all, CR) == Some(|p|) by {
      assert all[|p|] == CR;
      assert forall i :: 0 <= i < |p| ==> all[i] == p[i];
    }
    assert all[|p| + 1..] == rest && all[..|p|] == p;
  }

  lemma RestInCrMode(s: State, payloads: seq<seq<byte>>, codes: seq<seq<byte>>)
    requires s.mode == Line(CrMode) && s.buf == Join(codes) && AreLines(payloads, codes, TxCr) && AllPlain(payloads)
    ensures DecodesTo(PLAIN, s, payloads)
  {
    forall i | 0 <= i < |codes| ensures CutsTo(false, Line(CrMode), codes[i], payloads[i]) {
      PlainCrLine(payloads[i]);
    }
    assert Extract(false, Line(CrMode), []).frame.None?;
    CodesDecode(PLAIN, s, codes, payloads);
  }

  // ----- the exact condition

  /**
    Whatever the chunking, `auto` recovers the payloads, if and only if none of them contains CR or LF and,
    for lines sent with CR, there is not just one, which would be held back.
   */
  lemma AutoRoundTripExactlyWhen(payloads: seq<seq<byte>>, codes: seq<seq<byte>>, ending: TxLineEnding)
    requires AreLines(payloads, codes, ending)
    ensures EveryChunkingYields(Join(codes), payloads)
       <==> AllPlain(payloads) && (ending.TxCr? ==> |payloads| != 1)
    ensures EveryChunkingYields(Join(codes), payloads) ==>
      forall chunks :: Join(chunks) == Join(codes) ==> AutoRun(chunks).buf == []
  {
    if AllPlain(payloads) {
      forall chunks | Join(chunks) == Join(codes)
        ensures ending.TxCr? && |payloads| == 1 ==> AutoRun(chunks).log == []
        ensures !(ending.TxCr? && |payloads| == 1) ==>
          Payloads(AutoRun(chunks).log) == payloads && AutoRun(chunks).buf == []
      {
        if ending.TxCr? {
          CrLinesIntoAuto(payloads, codes, chunks);
        } else {
          PlainLinesSplit(payloads, codes, ending);
          AutoEqualsLfSplitting(chunks);
        }
      }
      OneChunk(Join(codes));
      assert AutoRun([Join(codes)]).log == [] ==> Payloads(AutoRun([Join(codes)]).log) == [];
    } else if EveryChunkingYields(Join(codes), payloads) {
      YieldsOnlyPlain(Join(codes), payloads);
    }
  }
}
