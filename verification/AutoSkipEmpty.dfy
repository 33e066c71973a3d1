/**
  `auto` framing with skip_empty on: blank lines are never reported, so a bare CR among blanks does no
  harm.  The exact condition for independence of chunking then is a wider one.
 */
module AutoSkipEmpty {
  import opened Bytes
  import opened Framing
  import opened BufferedModes
  import opened BufferedRuns
  import opened AutoLineFraming

  predicate SkipsBlanks(cfg: Config) {
    cfg.parser.None? && cfg.skipEmpty
  }

  // ----- what a drain reports

  /** The reported payloads of one drain from `mode` with the bytes `w`. */
  function Reported(cfg: Config, mode: Mode, w: seq<byte>): seq<seq<byte>>
    requires IsBuffered(mode)
    decreases |w|
  {
    var x := Extract(cfg.includeTerminators, mode, w);
    if x.frame.None? then [] else KeptOne(cfg, x.frame.value) + Reported(cfg, x.mode, x.buf)
  }

  /** The next cut, emitted. */
  lemma OneReport(cfg: Config, s: State)
    requires IsBuffered(s.mode) && cfg.parser.None? && NoFailure(s.log)
    requires Extract(cfg.includeTerminators, s.mode, s.buf).frame.Some?
    ensures
      var x := Extract(cfg.includeTerminators, s.mode, s.buf);
      var u := Next(cfg, s, x);
      && Drain(cfg, s) == Drain(cfg, u) && NoFailure(u.log) && u.mode == x.mode && u.buf == x.buf
      && Payloads(u.log) == Payloads(s.log) + KeptOne(cfg, x.frame.value)
      && Reported(cfg, s.mode, s.buf) == KeptOne(cfg, x.frame.value) + Reported(cfg, u.mode, u.buf)
  {
    hide Extract, Payloads, KeptOne;
    var x := Extract(cfg.includeTerminators, s.mode, s.buf);
    EmitWithoutParser(cfg, s.(mode := x.mode, buf := x.buf), x.frame.value);
  }

  lemma NoReport(cfg: Config, s: State)
    requires IsBuffered(s.mode)
    requires Extract(cfg.includeTerminators, s.mode, s.buf).frame.None?
    ensures
      var x := Extract(cfg.includeTerminators, s.mode, s.buf);
      Drain(cfg, s) == s.(mode := x.mode, buf := x.buf) && Reported(cfg, s.mode, s.buf) == []
  {
    hide Extract;
  }

  lemma {:induction false} DrainReports(cfg: Config, s: State)
    requires IsBuffered(s.mode) && cfg.parser.None? && NoFailure(s.log)
    ensures Payloads(Drain(cfg, s).log) == Payloads(s.log) + Reported(cfg, s.mode, s.buf)
    decreases |s.buf|
  {
    hide Drain, Reported, Payloads, Extract;
    var x := Extract(cfg.includeTerminators, s.mode, s.buf);
    if x.frame.Some? {
      OneReport(cfg, s);
      DrainReports(cfg, Next(cfg, s, x));
    } else {
      NoReport(cfg, s);
    }
  }

  // ----- LF and CR splitting, blanks skipped

  /** What the line from `l` to the LF at `m` becomes. */
  function LineFrameOf(inclusive: bool, w: seq<byte>, l: nat, m: nat): seq<byte>
    requires l <= m < |w|
  {
    if inclusive then w[l..m + 1] else StripCr(w[l..m])
  }

  lemma ReportedLine(cfg: Config, w: seq<byte>, lf: nat)
    requires Position(w, LF) == Some(lf)
    ensures Reported(cfg, Line(AutoLf), w)
         == KeptOne(cfg, LineFrameOf(cfg.includeTerminators, w, 0, lf)) + Reported(cfg, Line(AutoLf), w[lf + 1..])
  {
    AutoLineCutsLf(cfg.includeTerminators, w, lf);
  }

  lemma ReportedPiece(cfg: Config, w: seq<byte>)
    ensures Reported(cfg, Line(CrMode), w) ==
      match Position(w, CR)
      case None => []
      case Some(cr) =>
        KeptOne(cfg, if cfg.includeTerminators then w[..cr + 1] else w[..cr]) + Reported(cfg, Line(CrMode), w[cr + 1..])
  {
  }

  /** A tail without LF: its first CR, once followed by a byte, starts CR splitting. */
  lemma ReportedTail(cfg: Config, w: seq<byte>)
    requires LF !in w
    ensures Reported(cfg, Line(AutoLf), w) ==
      match Position(w, CR)
      case None => []
      case Some(cr) => if cr + 1 < |w| then Reported(cfg, Line(CrMode), w) else []
  {
    ReportedPiece(cfg, w);
  }

  lemma BlankPartsAreSkipped(cfg: Config, w: seq<byte>, lf: nat)
    requires SkipsBlanks(cfg) && lf < |w| && IsBlankFrame(w[..lf + 1])
    ensures KeptOne(cfg, LineFrameOf(cfg.includeTerminators, w, 0, lf)) == []
    ensures KeptOne(cfg, if cfg.includeTerminators then w[..lf + 1] else w[..lf]) == []
  {
    assert forall i :: 0 <= i <= lf ==> w[..lf + 1][i] == w[i];
  }

  /** A part of a blank front. */
  lemma BlankPart(w: seq<byte>, b: nat, n: nat)
    requires n <= b <= |w| && IsBlankFrame(w[..b])
    ensures IsBlankFrame(w[n..][..b - n]) && IsBlankFrame(w[..n])
  {
    var part := w[n..][..b - n];
    forall i | 0 <= i < |part| ensures IsAsciiWhitespace(part[i]) {
      assert part[i] == w[..b][i + n];
    }
    forall i | 0 <= i < n ensures IsAsciiWhitespace(w[..n][i]) {
      assert w[..n][i] == w[..b][i];
    }
  }

  lemma InPart(w: seq<byte>, b: nat, n: nat, i: nat)
    requires b <= n <= |w|
    ensures b <= i < n ==> w[i] in w[b..n]
  {
    assert b <= i < n ==> w[b..n][i - b] == w[i];
  }

  lemma InTail(w: seq<byte>, b: nat, i: nat)
    requires i < |w| && b <= |w|
    ensures b <= i ==> w[i] in w[b..]
  {
    assert b <= i ==> w[b..][i - b] == w[i];
  }

  lemma InHead(w: seq<byte>, n: nat, i: nat)
    requires i < |w| && n <= |w|
    ensures i < n ==> w[i] in w[..n]
  {
    assert i < n ==> w[..n][i] == w[i];
  }

  /** Empty or ending in LF. */
  predicate WholeLines(s: seq<byte>) {
    s == [] || s[|s| - 1] == LF
  }

  /** Blank whole lines in front report nothing to LF splitting. */
  lemma {:induction false} BlankLinesVanish(cfg: Config, w: seq<byte>, b: nat)
    requires SkipsBlanks(cfg) && b <= |w| && IsBlankFrame(w[..b]) && WholeLines(w[..b])
    ensures Reported(cfg, Line(AutoLf), w) == Reported(cfg, Line(AutoLf), w[b..])
    decreases b
  {
    hide Reported;
    if b > 0 {
      assert w[b - 1] == w[..b][b - 1] == LF;
      var lf := Position(w, LF).value;
      assert forall i :: 0 <= i < b ==> w[..b][i] == w[i];
      ReportedLine(cfg, w, lf);
      BlankPart(w, b, lf + 1);
      BlankPartsAreSkipped(cfg, w, lf);
      var rest := w[lf + 1..];
      assert lf + 1 < b ==> rest[..b - lf - 1][b - lf - 2] == w[b - 1];
      BlankLinesVanish(cfg, rest, b - lf - 1);
      assert rest[b - lf - 1..] == w[b..];
    } else {
      assert w[0..] == w;
    }
  }

  lemma BlankAndCr(w: seq<byte>, cr: nat)
    requires cr < |w| && w[cr] == CR && IsBlankFrame(w[..cr])
    ensures IsBlankFrame(w[..cr + 1])
  {
    assert w[..cr + 1] == w[..cr] + [CR];
  }

  /** Blank bytes in front report nothing to CR splitting, up to the first CR behind them. */
  lemma {:induction false} BlankPiecesVanish(cfg: Config, w: seq<byte>, cr: nat)
    requires SkipsBlanks(cfg) && cr < |w| && w[cr] == CR && IsBlankFrame(w[..cr])
    ensures Reported(cfg, Line(CrMode), w) == Reported(cfg, Line(CrMode), w[cr + 1..])
    decreases cr
  {
    hide Reported;
    var first := Position(w, CR).value;
    BlankAndCr(w, cr);
    BlankPart(w, cr + 1, first + 1);
    ReportedPiece(cfg, w);
    BlankPartsAreSkipped(cfg, w, first);
    if first < cr {
      var rest := w[first + 1..];
      BlankPart(w, cr, first + 1);
      BlankPiecesVanish(cfg, rest, cr - first - 1);
      assert rest[cr - first - 1 + 1..] == w[cr + 1..];
    }
  }

  // ----- the condition

  /** Blank whole lines up to `b`, then no LF, and blank up to the first CR, if there is one. */
  ghost predicate BlankUntilLateCr(w: seq<byte>, b: nat) {
    && b <= |w| && IsBlankFrame(w[..b]) && WholeLines(w[..b]) && LF !in w[b..]
    && (CR in w[b..] ==> IsBlankFrame(w[b..][..Position(w[b..], CR).value]))
  }

  /** After whole lines without bare CR the stream is blank until a CR behind its last LF. */
  ghost predicate HarmlessAt(w: seq<byte>, a: nat, b: nat) {
    a <= |w| && WholeLines(w[..a]) && NoBareCr(w[..a]) && BlankUntilLateCr(w[a..], b)
  }

  ghost predicate Harmless(w: seq<byte>) {
    exists a: nat, b: nat :: HarmlessAt(w, a, b)
  }

  /** Chunking cannot be seen: no LF follows a bare CR, or only blanks are affected. */
  ghost predicate Unaffected(w: seq<byte>) {
    NoLfAfterBareCr(w) || Harmless(w)
  }

  /** The first CR of `w` is bare and stands before every LF. */
  predicate BareCrFirst(w: seq<byte>, cr: nat) {
    cr + 1 < |w| && w[cr] == CR && w[cr + 1] != LF && CR !in w[..cr] && LF !in w[..cr]
  }

  lemma FirstIsBare(w: seq<byte>, cr: nat)
    requires BareCrFirst(w, cr)
    ensures Position(w, CR) == Some(cr)
    ensures LF in w ==> Position(w, LF).value > cr + 1
  {
    assert forall i :: 0 <= i < cr ==> w[..cr][i] == w[i];
  }

  /** With a bare CR in the first line and LF behind it, harmless means blank from the start. */
  lemma HarmlessIsBlank(w: seq<byte>, cr: nat, a: nat, b: nat)
    requires BareCrFirst(w, cr) && LF in w && HarmlessAt(w, a, b)
    ensures BlankUntilLateCr(w, b) && cr < b
  {
    FirstIsBare(w, cr);
    BareFrontHasNoLf(w, cr, a);
    assert w[0..] == w;
    InTail(w, b, Position(w, LF).value);
  }

  /** Whole lines with an LF take in the bare CR. */
  lemma BareFrontHasNoLf(w: seq<byte>, cr: nat, a: nat)
    requires BareCrFirst(w, cr)
    ensures 0 < a <= |w| && WholeLines(w[..a]) ==> !NoBareCr(w[..a])
  {
    if 0 < a <= |w| && WholeLines(w[..a]) {
      var front := w[..a];
      assert w[a - 1] == front[a - 1] == LF;
      InHead(w, cr, a - 1);
      assert front[cr] == CR && front[cr + 1] == w[cr + 1];
      assert !LfOrNothingAt(front, cr + 1);
    }
  }

  /** Harmless: switching to CR at the first bare CR or not, the reports are the same. */
  lemma HarmlessSwitch(cfg: Config, w: seq<byte>, cr: nat)
    requires SkipsBlanks(cfg) && BareCrFirst(w, cr) && LF in w && Harmless(w)
    ensures Reported(cfg, Line(CrMode), w) == Reported(cfg, Line(AutoLf), w)
  {
    hide Reported, HarmlessAt;
    var a: nat, b: nat :| HarmlessAt(w, a, b);
    HarmlessIsBlank(w, cr, a, b);
    BlankLinesVanish(cfg, w, b);
    LateSwitch(cfg, w, b);
  }

  /** Behind blank lines, LF splitting reports what CR splitting does. */
  lemma LateSwitch(cfg: Config, w: seq<byte>, b: nat)
    requires SkipsBlanks(cfg) && BlankUntilLateCr(w, b)
    ensures Reported(cfg, Line(AutoLf), w[b..]) == Reported(cfg, Line(CrMode), w)
  {
    hide Reported, IsBlankFrame;
    var tail := w[b..];
    ReportedTail(cfg, tail);
    if CR in tail {
      var p := Position(tail, CR).value;
      hide Position;
      LateCrSkips(cfg, w, b, p);
      if p + 1 == |tail| {
        NothingToReport(cfg);
        assert w[b + p + 1..] == [];
      }
    } else {
      BlankWithoutCr(cfg, w, b);
    }
  }

  lemma NothingToReport(cfg: Config)
    ensures Reported(cfg, Line(CrMode), []) == []
  {
  }

  /** Both the whole and its tail are blank up to the late CR. */
  lemma LateCrSkips(cfg: Config, w: seq<byte>, b: nat, p: nat)
    requires SkipsBlanks(cfg) && b + p < |w| && w[b + p] == CR && IsBlankFrame(w[..b]) && IsBlankFrame(w[b..][..p])
    ensures Reported(cfg, Line(CrMode), w) == Reported(cfg, Line(CrMode), w[b + p + 1..])
    ensures Reported(cfg, Line(CrMode), w[b..]) == Reported(cfg, Line(CrMode), w[b + p + 1..])
  {
    hide Reported, IsBlankFrame;
    assert w[..b + p] == w[..b] + w[b..][..p] && w[b..][p + 1..] == w[b + p + 1..];
    BlankTogether(w[..b], w[b..][..p]);
    BlankPiecesVanish(cfg, w, b + p);
    BlankPiecesVanish(cfg, w[b..], p);
  }

  lemma BlankTogether(a: seq<byte>, b: seq<byte>)
    requires IsBlankFrame(a) && IsBlankFrame(b)
    ensures IsBlankFrame(a + b)
  {
  }

  /** Blanks, then no CR any more: CR splitting reports nothing. */
  lemma {:induction false} BlankWithoutCr(cfg: Config, w: seq<byte>, b: nat)
    requires SkipsBlanks(cfg) && b <= |w| && IsBlankFrame(w[..b]) && CR !in w[b..]
    ensures Reported(cfg, Line(CrMode), w) == []
    decreases b
  {
    hide Reported;
    ReportedPiece(cfg, w);
    if CR in w {
      var cr := Position(w, CR).value;
      InTail(w, b, cr);
      BlankPart(w, b, cr + 1);
      BlankPartsAreSkipped(cfg, w, cr);
      var rest := w[cr + 1..];
      assert rest[b - cr - 1..] == w[b..];
      BlankWithoutCr(cfg, rest, b - cr - 1);
    }
  }

  // ----- sufficiency

  /** The line mode that decides about the bytes seen so far. */
  function Base(mode: Mode): Mode {
    if mode == Line(CrMode) then mode else Line(AutoLf)
  }

  ghost predicate Ready(s: State) {
    && NoFailure(s.log)
    && (s.mode == Line(AutoLf) || s.mode == Line(CrMode)
        || (s.mode.Line? && s.mode.line.PendingCr? && PendingPointsAtCr(s)
            && LF !in s.buf[..s.mode.line.pos] && CR !in s.buf[..s.mode.line.pos]))
  }

  ghost predicate Settles(mode: Mode, w: seq<byte>) {
    mode == Line(CrMode) || Unaffected(w)
  }

  /** What is reported so far, and what would be with `more` in one go. */
  ghost function Total(cfg: Config, s: State, more: seq<byte>): seq<seq<byte>> {
    Payloads(s.log) + Reported(cfg, Base(s.mode), s.buf + more)
  }

  lemma {:induction false} DrainKeepsTotal(cfg: Config, s: State, more: seq<byte>)
    requires SkipsBlanks(cfg) && Ready(s) && Settles(s.mode, s.buf + more)
    ensures
      var t := Drain(cfg, s);
      && Ready(t) && Settles(t.mode, t.buf + more) && Total(cfg, t, more) == Total(cfg, s, more)
      && Reported(cfg, Base(t.mode), t.buf) == []
    decreases |s.buf|
  {
    hide Drain, Reported, Payloads, Extract;
    var x := Extract(cfg.includeTerminators, s.mode, s.buf);
    if x.frame.Some? {
      OneReport(cfg, s);
      var u := Next(cfg, s, x);
      CutKeepsTotal(cfg, s, more, x);
      assert Payloads(u.log) + Reported(cfg, Base(u.mode), u.buf + more) == Total(cfg, s, more) by {
        Regroup(Payloads(s.log), KeptOne(cfg, x.frame.value), Reported(cfg, Base(u.mode), u.buf + more));
      }
      DrainKeepsTotal(cfg, u, more);
    } else {
      NoReport(cfg, s);
      NoCutKeepsTotal(cfg, s, more, x);
    }
  }

  lemma Regroup(a: seq<seq<byte>>, b: seq<seq<byte>>, c: seq<seq<byte>>)
    ensures a + b + c == a + (b + c)
  {
  }

  /** The cut frame, once the mode settles on LF or CR. */
  lemma CutKeepsTotal(cfg: Config, s: State, more: seq<byte>, x: Extraction)
    requires SkipsBlanks(cfg) && Ready(s) && Settles(s.mode, s.buf + more)
    requires x == Extract(cfg.includeTerminators, s.mode, s.buf) && x.frame.Some?
    ensures x.mode == Line(AutoLf) || x.mode == Line(CrMode)
    ensures Settles(x.mode, x.buf + more)
    ensures KeptOne(cfg, x.frame.value) + Reported(cfg, x.mode, x.buf + more) == Reported(cfg, Base(s.mode), s.buf + more)
  {
    hide Reported, Unaffected, Extract;
    var w := s.buf + more;
    if s.mode == Line(CrMode) {
      PieceStaysFirst(cfg, s.buf, more);
    } else if x.mode == Line(AutoLf) {
      LineStaysFirst(cfg.includeTerminators, s, more, x);
      ReportedLine(cfg, w, Position(w, LF).value);
      UnaffectedLater(w, Position(w, LF).value);
    } else {
      BareCrIsFirst(cfg.includeTerminators, s, more, x);
      SwitchKeepsReports(cfg, w, Position(w, CR).value);
    }
  }

  lemma PieceStaysFirst(cfg: Config, buf: seq<byte>, more: seq<byte>)
    requires Extract(cfg.includeTerminators, Line(CrMode), buf).frame.Some?
    ensures
      var x := Extract(cfg.includeTerminators, Line(CrMode), buf);
      && x.mode == Line(CrMode)
      && Reported(cfg, Line(CrMode), buf + more) == KeptOne(cfg, x.frame.value) + Reported(cfg, x.mode, x.buf + more)
  {
    hide KeptOne;
    LineByteLaw(cfg.includeTerminators, Line(CrMode), buf, more, CR);
  }

  /** A line cut at LF is the first line of the longer bytes. */
  lemma LineStaysFirst(inclusive: bool, s: State, more: seq<byte>, x: Extraction)
    requires Ready(s) && s.mode != Line(CrMode)
    requires x == Extract(inclusive, s.mode, s.buf) && x.frame.Some? && x.mode == Line(AutoLf)
    ensures
      var w := s.buf + more;
      && LF in w && x.frame.value == LineFrameOf(inclusive, w, 0, Position(w, LF).value)
      && x.buf + more == w[Position(w, LF).value + 1..]
  {
    if s.mode == Line(AutoLf) {
      AutoLineStaysFirst(inclusive, s.buf, more);
    } else {
      PendingLineStaysFirst(inclusive, s.buf, more, s.mode.line.pos);
    }
  }

  lemma AutoLineStaysFirst(inclusive: bool, buf: seq<byte>, more: seq<byte>)
    requires AutoLine(inclusive, buf).frame.Some? && AutoLine(inclusive, buf).mode == Line(AutoLf)
    ensures
      var w, x := buf + more, AutoLine(inclusive, buf);
      && LF in w && x.frame.value == LineFrameOf(inclusive, w, 0, Position(w, LF).value)
      && x.buf + more == w[Position(w, LF).value + 1..]
  {
    var w, lf := buf + more, Position(buf, LF).value;
    PositionIsStable(buf, more, LF);
    AutoLineCutsLf(inclusive, buf, lf);
    assert w[0..lf] == buf[..lf] && w[0..lf + 1] == buf[..lf + 1];
    assert buf[lf + 1..] + more == w[lf + 1..];
  }

  lemma PendingLineStaysFirst(inclusive: bool, buf: seq<byte>, more: seq<byte>, cr: nat)
    requires cr + 1 < |buf| && buf[cr] == CR && buf[cr + 1] == LF && LF !in buf[..cr]
    ensures
      var w, x := buf + more, AfterPendingCr(inclusive, cr, buf);
      && LF in w && x.frame == Some(LineFrameOf(inclusive, w, 0, Position(w, LF).value))
      && x.buf + more == w[Position(w, LF).value + 1..]
  {
    var w := buf + more;
    assert Position(w, LF) == Some(cr + 1) by {
      assert w[cr] == CR && w[cr + 1] == LF;
      assert forall i :: 0 <= i < cr ==> buf[..cr][i] == w[i];
    }
    hide Position;
    assert w[0..cr + 1] == buf[..cr] + [CR] && w[0..cr + 2] == buf[..cr + 2];
    assert buf[cr + 2..] + more == w[cr + 2..];
  }

  /** A switch to CR mode happens at a bare CR that stands first. */
  lemma BareCrIsFirst(inclusive: bool, s: State, more: seq<byte>, x: Extraction)
    requires Ready(s) && s.mode != Line(CrMode)
    requires x == Extract(inclusive, s.mode, s.buf) && x.frame.Some? && x.mode != Line(AutoLf)
    ensures x.mode == Line(CrMode)
    ensures
      var w := s.buf + more;
      && CR in w && var cr := Position(w, CR).value;
      && BareCrFirst(w, cr) && x.buf + more == w[cr + 1..]
      && x.frame.value == if inclusive then w[..cr + 1] else w[..cr]
  {
    hide Position;
    if s.mode == Line(AutoLf) {
      var cr := Position(s.buf, CR).value;
      NothingBefore(s.buf, cr);
      BareCrStaysFirst(s.buf, more, cr);
    } else {
      BareCrStaysFirst(s.buf, more, s.mode.line.pos);
    }
  }

  lemma NothingBefore(buf: seq<byte>, cr: nat)
    requires Position(buf, CR) == Some(cr) && LF !in buf
    ensures CR !in buf[..cr] && LF !in buf[..cr]
  {
  }

  lemma BareCrStaysFirst(buf: seq<byte>, more: seq<byte>, cr: nat)
    requires BareCrFirst(buf, cr)
    ensures
      var w := buf + more;
      && BareCrFirst(w, cr) && Position(w, CR) == Some(cr)
      && buf[cr + 1..] + more == w[cr + 1..] && w[..cr + 1] == buf[..cr + 1] && w[..cr] == buf[..cr]
  {
    FirstIsBare(buf, cr);
    assert (buf + more)[..cr] == buf[..cr];
    FirstIsBare(buf + more, cr);
  }

  lemma SwitchKeepsReports(cfg: Config, w: seq<byte>, cr: nat)
    requires SkipsBlanks(cfg) && BareCrFirst(w, cr) && Unaffected(w)
    ensures
      KeptOne(cfg, if cfg.includeTerminators then w[..cr + 1] else w[..cr]) + Reported(cfg, Line(CrMode), w[cr + 1..])
      == Reported(cfg, Line(AutoLf), w)
  {
    hide Reported, Harmless;
    FirstIsBare(w, cr);
    ReportedPiece(cfg, w);
    if LF in w {
      assert w[Position(w, LF).value] == LF;
      HarmlessSwitch(cfg, w, cr);
    } else {
      ReportedTail(cfg, w);
    }
  }

  lemma UnaffectedLater(w: seq<byte>, lf: nat)
    requires Unaffected(w) && Position(w, LF) == Some(lf)
    ensures Unaffected(w[lf + 1..])
  {
    if NoLfAfterBareCr(w) {
      SuffixKeepsLfFree(w, lf + 1);
    } else {
      var a: nat, b: nat :| HarmlessAt(w, a, b);
      HarmlessLater(w, lf, a, b);
    }
  }

  lemma HarmlessLater(w: seq<byte>, lf: nat, a: nat, b: nat)
    requires HarmlessAt(w, a, b) && Position(w, LF) == Some(lf)
    ensures Harmless(w[lf + 1..])
  {
    var rest, n := w[lf + 1..], lf + 1;
    if a > 0 {
      assert w[a - 1] == w[..a][a - 1] == LF;
      assert rest[..a - n] == w[..a][n..] && rest[a - n..] == w[a..];
      SuffixKeepsNoBareCr(w[..a], n);
      assert HarmlessAt(rest, a - n, b);
    } else {
      assert w[0..] == w && rest[..0] == [] && rest[0..] == rest;
      InTail(w, b, lf);
      BlankLinesLater(w, n, b);
      assert HarmlessAt(rest, 0, b - n);
    }
  }

  lemma BlankLinesLater(w: seq<byte>, n: nat, b: nat)
    requires n <= b && BlankUntilLateCr(w, b)
    ensures BlankUntilLateCr(w[n..], b - n)
  {
    BlankPart(w, b, n);
    assert w[n..][..b - n] == w[..b][n..] && w[n..][b - n..] == w[b..];
  }

  lemma NoCutKeepsTotal(cfg: Config, s: State, more: seq<byte>, x: Extraction)
    requires SkipsBlanks(cfg) && Ready(s) && Settles(s.mode, s.buf + more)
    requires x == Extract(cfg.includeTerminators, s.mode, s.buf) && x.frame.None?
    ensures
      var t := s.(mode := x.mode, buf := x.buf);
      && Ready(t) && Settles(t.mode, t.buf + more) && Total(cfg, t, more) == Total(cfg, s, more)
      && Reported(cfg, Base(t.mode), t.buf) == []
  {
    hide Reported, Unaffected;
    if s.mode == Line(CrMode) {
      ReportedPiece(cfg, s.buf);
    } else {
      NoLineYet(cfg.includeTerminators, s, x);
      ReportedTail(cfg, s.buf);
    }
  }

  /** No line ends in the bytes so far; a CR among them is the last byte and becomes the pending one. */
  lemma NoLineYet(inclusive: bool, s: State, x: Extraction)
    requires Ready(s) && s.mode != Line(CrMode)
    requires x == Extract(inclusive, s.mode, s.buf) && x.frame.None?
    ensures x.buf == s.buf && LF !in s.buf && (CR in s.buf ==> Position(s.buf, CR).value == |s.buf| - 1)
    ensures x.mode == if CR in s.buf then Line(PendingCr(|s.buf| - 1)) else Line(AutoLf)
    ensures Ready(s.(mode := x.mode))
  {
    if s.mode == Line(AutoLf) {
      if CR in s.buf {
        NothingBefore(s.buf, Position(s.buf, CR).value);
      }
    } else {
      OnlyPending(s.buf, s.mode.line.pos);
    }
  }

  lemma OnlyPending(buf: seq<byte>, cr: nat)
    requires cr + 1 == |buf| && buf[cr] == CR && LF !in buf[..cr] && CR !in buf[..cr]
    ensures LF !in buf && Position(buf, CR) == Some(cr)
  {
    assert buf == buf[..cr] + [CR];
  }

  lemma {:induction false} PushesReport(cfg: Config, s: State, chunks: seq<seq<byte>>)
    requires SkipsBlanks(cfg) && Ready(s) && Settles(s.mode, s.buf + Join(chunks))
    requires Reported(cfg, Base(s.mode), s.buf) == []
    ensures Payloads(PushBufferedAll(cfg, s, chunks).log) == Total(cfg, s, Join(chunks))
    decreases |chunks|
  {
    hide Reported, Payloads, Settles, Ready, Drain;
    if chunks == [] {
      assert s.buf + [] == s.buf;
    } else {
      var t, rest := s.(buf := s.buf + chunks[0]), Join(chunks[1..]);
      assert t.buf + rest == s.buf + Join(chunks);
      LongerIsReady(s, chunks[0]);
      DrainKeepsTotal(cfg, t, rest);
      PushesReport(cfg, PushBuffered(cfg, s, chunks[0]), chunks[1..]);
    }
  }

  lemma LongerIsReady(s: State, chunk: seq<byte>)
    requires Ready(s)
    ensures Ready(s.(buf := s.buf + chunk))
  {
    if s.mode.line.PendingCr? {
      assert (s.buf + chunk)[..s.mode.line.pos] == s.buf[..s.mode.line.pos];
    }
  }

  // ----- necessity

  /** The first byte that is not blank. */
  predicate FirstNonblank(w: seq<byte>, q: nat) {
    q < |w| && !IsAsciiWhitespace(w[q]) && IsBlankFrame(w[..q])
  }

  lemma FindNonblank(w: seq<byte>, n: nat) returns (q: nat)
    requires n <= |w| && !IsBlankFrame(w[..n])
    ensures q < n && FirstNonblank(w, q)
  {
    q := 0;
    while IsAsciiWhitespace(w[q])
      invariant q < n && IsBlankFrame(w[..q])
      invariant exists i :: q <= i < n && !IsAsciiWhitespace(w[i])
      decreases n - q
    {
      assert w[..q + 1] == w[..q] + [w[q]];
      q := q + 1;
    }
  }

  lemma NonblankLater(w: seq<byte>, q: nat, n: nat)
    requires FirstNonblank(w, q) && n <= q
    ensures FirstNonblank(w[n..], q - n) && IsBlankFrame(w[..n])
  {
    BlankPart(w, q, n);
    assert w[n..][..q - n] == w[..q][n..];
  }

  /** A part that contains the byte is reported. */
  lemma NonblankIsKept(cfg: Config, data: seq<byte>, i: nat)
    requires SkipsBlanks(cfg) && i < |data| && !IsAsciiWhitespace(data[i])
    ensures KeptOne(cfg, data) == [data]
  {
  }

  /** The segment around `q` when splitting at `b`: from behind the last `b` before it to the next one. */
  predicate SegmentAround(w: seq<byte>, b: byte, q: nat, l: nat, m: nat) {
    l <= q < m < |w| && w[m] == b && b !in w[l..m] && (l > 0 ==> w[l - 1] == b)
  }

  lemma SegmentShift(w: seq<byte>, b: byte, n: nat, q: nat, l: nat, m: nat)
    requires 0 < n <= |w| && w[n - 1] == b && SegmentAround(w[n..], b, q, l, m)
    ensures SegmentAround(w, b, q + n, l + n, m + n)
    ensures w[n..][l..m] == w[l + n..m + n] && w[n..][l..m + 1] == w[l + n..m + 1 + n]
  {
    PartOfTail(w, n, l, m);
    PartOfTail(w, n, l, m + 1);
    assert l > 0 ==> w[n..][l - 1] == w[l + n - 1];
  }

  lemma PartOfTail(w: seq<byte>, n: nat, l: nat, m: nat)
    requires l <= m && m + n <= |w|
    ensures w[n..][l..m] == w[l + n..m + n]
  {
  }

  lemma FirstSegment(w: seq<byte>, b: byte, q: nat, m: nat)
    requires Position(w, b) == Some(m) && q < m
    ensures SegmentAround(w, b, q, 0, m)
  {
  }

  /** What the piece from `r` to the CR at `t` becomes. */
  function PieceFrameOf(inclusive: bool, w: seq<byte>, r: nat, t: nat): seq<byte>
    requires r <= t < |w|
  {
    if inclusive then w[r..t + 1] else w[r..t]
  }

  lemma FirstLineIsKept(cfg: Config, w: seq<byte>, q: nat, lf: nat)
    requires SkipsBlanks(cfg) && q < lf < |w| && !IsAsciiWhitespace(w[q])
    ensures KeptOne(cfg, LineFrameOf(cfg.includeTerminators, w, 0, lf)) == [LineFrameOf(cfg.includeTerminators, w, 0, lf)]
  {
    var data := LineFrameOf(cfg.includeTerminators, w, 0, lf);
    assert data[q] == w[q];
    NonblankIsKept(cfg, data, q);
  }

  lemma FirstPieceIsKept(cfg: Config, w: seq<byte>, q: nat, cr: nat)
    requires SkipsBlanks(cfg) && q < cr < |w| && !IsAsciiWhitespace(w[q])
    ensures KeptOne(cfg, PieceFrameOf(cfg.includeTerminators, w, 0, cr)) == [PieceFrameOf(cfg.includeTerminators, w, 0, cr)]
    ensures PieceFrameOf(cfg.includeTerminators, w, 0, cr) == if cfg.includeTerminators then w[..cr + 1] else w[..cr]
  {
    var data := PieceFrameOf(cfg.includeTerminators, w, 0, cr);
    assert data[q] == w[q];
    NonblankIsKept(cfg, data, q);
  }

  /** The first reported payload. */
  predicate Leads(data: seq<byte>, reports: seq<seq<byte>>) {
    reports != [] && reports[0] == data
  }

  lemma SkippedLine(cfg: Config, w: seq<byte>, q: nat, lf: nat)
    requires SkipsBlanks(cfg) && FirstNonblank(w, q) && Position(w, LF) == Some(lf) && lf < q
    ensures Reported(cfg, Line(AutoLf), w) == Reported(cfg, Line(AutoLf), w[lf + 1..])
    ensures FirstNonblank(w[lf + 1..], q - lf - 1)
  {
    hide Reported, IsBlankFrame;
    ReportedLine(cfg, w, lf);
    NonblankLater(w, q, lf + 1);
    BlankPartsAreSkipped(cfg, w, lf);
  }

  lemma {:induction false} LeadingLine(cfg: Config, w: seq<byte>, q: nat, lf: nat)
    requires SkipsBlanks(cfg) && q < |w| && !IsAsciiWhitespace(w[q]) && Position(w, LF) == Some(lf) && q < lf
    ensures Leads(LineFrameOf(cfg.includeTerminators, w, 0, lf), Reported(cfg, Line(AutoLf), w))
  {
    hide Reported, KeptOne;
    ReportedLine(cfg, w, lf);
    FirstLineIsKept(cfg, w, q, lf);
  }

  lemma SkippedPiece(cfg: Config, w: seq<byte>, q: nat, cr: nat)
    requires SkipsBlanks(cfg) && FirstNonblank(w, q) && Position(w, CR) == Some(cr) && cr < q
    ensures Reported(cfg, Line(CrMode), w) == Reported(cfg, Line(CrMode), w[cr + 1..])
    ensures FirstNonblank(w[cr + 1..], q - cr - 1)
  {
    hide Reported, IsBlankFrame;
    ReportedPiece(cfg, w);
    NonblankLater(w, q, cr + 1);
    BlankPartsAreSkipped(cfg, w, cr);
  }

  lemma LeadingPiece(cfg: Config, w: seq<byte>, q: nat, cr: nat)
    requires SkipsBlanks(cfg) && q < |w| && !IsAsciiWhitespace(w[q]) && Position(w, CR) == Some(cr) && q < cr
    ensures Leads(PieceFrameOf(cfg.includeTerminators, w, 0, cr), Reported(cfg, Line(CrMode), w))
  {
    hide Reported, KeptOne;
    ReportedPiece(cfg, w);
    FirstPieceIsKept(cfg, w, q, cr);
  }

  lemma NonblankIsElsewhere(w: seq<byte>, q: nat, b: byte, e: nat)
    requires FirstNonblank(w, q) && (b == LF || b == CR) && q <= e < |w| && w[e] == b
    ensures q < |w| && !IsAsciiWhitespace(w[q]) && Position(w, b).Some? && Position(w, b).value != q
  {
    assert b in w;
  }

  /** LF splitting reports the line with the first nonblank byte first. */
  lemma {:induction false} FirstReportedLine(cfg: Config, w: seq<byte>, q: nat, e: nat) returns (l: nat, m: nat)
    requires SkipsBlanks(cfg) && FirstNonblank(w, q) && q <= e < |w| && w[e] == LF
    ensures SegmentAround(w, LF, q, l, m) && l <= m < |w|
    ensures Leads(LineFrameOf(cfg.includeTerminators, w, l, m), Reported(cfg, Line(AutoLf), w))
    decreases |w|
  {
    hide Reported, Leads, LineFrameOf, FirstNonblank, SegmentAround;
    NonblankIsElsewhere(w, q, LF, e);
    var lf := Position(w, LF).value;
    if lf < q {
      SkippedLine(cfg, w, q, lf);
      l, m := FirstReportedLine(cfg, w[lf + 1..], q - lf - 1, e - lf - 1);
      ShiftedLine(cfg.includeTerminators, w, lf + 1, q - lf - 1, l, m);
      l, m := l + lf + 1, m + lf + 1;
    } else {
      l, m := 0, lf;
      FirstSegment(w, LF, q, lf);
      LeadingLine(cfg, w, q, lf);
    }
  }

  lemma ShiftedLine(inclusive: bool, w: seq<byte>, n: nat, q: nat, l: nat, m: nat)
    requires 0 < n <= |w| && w[n - 1] == LF && SegmentAround(w[n..], LF, q, l, m)
    ensures SegmentAround(w, LF, q + n, l + n, m + n)
    ensures l <= m < |w[n..]| && m + n < |w| && LineFrameOf(inclusive, w[n..], l, m) == LineFrameOf(inclusive, w, l + n, m + n)
  {
    SegmentShift(w, LF, n, q, l, m);
  }

  /** CR splitting reports the piece with the first nonblank byte first. */
  lemma {:induction false} FirstReportedPiece(cfg: Config, w: seq<byte>, q: nat, e: nat) returns (r: nat, t: nat)
    requires SkipsBlanks(cfg) && FirstNonblank(w, q) && q <= e < |w| && w[e] == CR
    ensures SegmentAround(w, CR, q, r, t) && r <= t < |w|
    ensures Leads(PieceFrameOf(cfg.includeTerminators, w, r, t), Reported(cfg, Line(CrMode), w))
    decreases |w|
  {
    hide Reported, Leads, PieceFrameOf, FirstNonblank, SegmentAround;
    NonblankIsElsewhere(w, q, CR, e);
    var cr := Position(w, CR).value;
    if cr < q {
      SkippedPiece(cfg, w, q, cr);
      r, t := FirstReportedPiece(cfg, w[cr + 1..], q - cr - 1, e - cr - 1);
      ShiftedPiece(cfg.includeTerminators, w, cr + 1, q - cr - 1, r, t);
      r, t := r + cr + 1, t + cr + 1;
    } else {
      r, t := 0, cr;
      FirstSegment(w, CR, q, cr);
      LeadingPiece(cfg, w, q, cr);
    }
  }

  lemma ShiftedPiece(inclusive: bool, w: seq<byte>, n: nat, q: nat, r: nat, t: nat)
    requires 0 < n <= |w| && w[n - 1] == CR && SegmentAround(w[n..], CR, q, r, t)
    ensures SegmentAround(w, CR, q + n, r + n, t + n)
    ensures r <= t < |w[n..]| && t + n < |w| && PieceFrameOf(inclusive, w[n..], r, t) == PieceFrameOf(inclusive, w, r + n, t + n)
  {
    SegmentShift(w, CR, n, q, r, t);
  }

  lemma PrefixCancels(p: seq<seq<byte>>, a: seq<seq<byte>>, b: seq<seq<byte>>)
    requires a != b
    ensures p + a != p + b
  {
    assert (p + a)[|p|..] == a && (p + b)[|p|..] == b;
  }

  /** A line with nonblank bytes, ended by LF, is no piece of CR splitting when a bare CR stands first. */
  lemma LineIsNoPiece(inclusive: bool, w: seq<byte>, cr: nat, q: nat, l: nat, m: nat, r: nat, t: nat)
    requires BareCrFirst(w, cr) && q < |w| && w[q] != CR
    requires SegmentAround(w, LF, q, l, m) && SegmentAround(w, CR, q, r, t)
    ensures LineFrameOf(inclusive, w, l, m) != PieceFrameOf(inclusive, w, r, t)
  {
    if inclusive {
      assert w[l..m + 1][m - l] == LF && w[r..t + 1][t - r] == CR;
    } else {
      LineOrPieceBetween(w, cr, q, l, m, r, t);
    }
  }

  lemma LineOrPieceBetween(w: seq<byte>, cr: nat, q: nat, l: nat, m: nat, r: nat, t: nat)
    requires BareCrFirst(w, cr) && q < |w| && w[q] != CR
    requires SegmentAround(w, LF, q, l, m) && SegmentAround(w, CR, q, r, t)
    ensures StripCr(w[l..m]) != w[r..t]
  {
    var line, piece := StripCr(w[l..m]), w[r..t];
    assert forall i :: l <= i < m ==> w[l..m][i - l] == w[i];
    if l < r {
      assert w[l..m][r - 1 - l] == CR && r - 1 - l < |line|;
      assert line[r - 1 - l] == CR;
    } else if r < l {
      assert piece[l - 1 - r] == LF;
      assert LF !in line;
    } else {
      assert l == 0;
      FirstLineHoldsCr(w, cr, m);
    }
  }

  /** The line from the start holds the bare CR, even after losing its final CR. */
  lemma FirstLineHoldsCr(w: seq<byte>, cr: nat, m: nat)
    requires BareCrFirst(w, cr) && m < |w| && w[m] == LF
    ensures CR in StripCr(w[0..m])
  {
    InHead(w, cr, m);
    assert cr + 1 < m;
    assert StripCr(w[0..m])[cr] == CR;
  }

  /** Nonblank bytes before the last LF: the first report already differs. */
  lemma EarlyNonblankShows(cfg: Config, w: seq<byte>, cr: nat, q: nat, e: nat)
    requires SkipsBlanks(cfg) && BareCrFirst(w, cr) && FirstNonblank(w, q) && q <= e < |w| && w[e] == LF
    ensures Reported(cfg, Line(AutoLf), w) != Reported(cfg, Line(CrMode), w)
  {
    hide Reported, LineFrameOf, PieceFrameOf, SegmentAround, IsBlankFrame;
    var l, m := FirstReportedLine(cfg, w, q, e);
    if CR in w[q..] {
      var i :| q <= i < |w| && w[i] == CR;
      var r, t := FirstReportedPiece(cfg, w, q, i);
      LineIsNoPiece(cfg.includeTerminators, w, cr, q, l, m, r, t);
    } else {
      BlankWithoutCr(cfg, w, q);
    }
  }

  /** Nonblank bytes between the last LF and the next CR: the piece holds the LF, the line does not. */
  lemma LateNonblankShows(cfg: Config, w: seq<byte>, b: nat, q: nat, e: nat)
    requires SkipsBlanks(cfg) && FirstNonblank(w, q) && 0 < b <= q && w[b - 1] == LF && LF !in w[b..]
    requires CR !in w[b..q] && q <= e < |w| && w[e] == CR
    ensures Reported(cfg, Line(AutoLf), w) != Reported(cfg, Line(CrMode), w)
  {
    hide Reported, PieceFrameOf, SegmentAround, IsBlankFrame;
    var tail := w[b..];
    var r, t := FirstReportedPiece(cfg, w, q, e);
    TailReports(cfg, w, b, q);
    if Reported(cfg, Line(AutoLf), w) != [] {
      var r', t' := FirstReportedPiece(cfg, tail, q - b, e - b);
      LongPieceDiffers(cfg.includeTerminators, w, b, q, r, t, r', t');
    }
  }

  lemma TailReports(cfg: Config, w: seq<byte>, b: nat, q: nat)
    requires SkipsBlanks(cfg) && FirstNonblank(w, q) && 0 < b <= q && w[b - 1] == LF && LF !in w[b..]
    ensures FirstNonblank(w[b..], q - b)
    ensures Reported(cfg, Line(AutoLf), w) == [] || Reported(cfg, Line(AutoLf), w) == Reported(cfg, Line(CrMode), w[b..])
  {
    hide Reported, IsBlankFrame;
    NonblankLater(w, q, b);
    BlankLinesVanish(cfg, w, b);
    ReportedTail(cfg, w[b..]);
  }

  /** The piece that reaches back over an LF is none that lies behind it. */
  lemma LongPieceDiffers(inclusive: bool, w: seq<byte>, b: nat, q: nat, r: nat, t: nat, r': nat, t': nat)
    requires 0 < b <= q && b <= |w| && w[b - 1] == LF && LF !in w[b..]
    requires SegmentAround(w, CR, q, r, t) && SegmentAround(w[b..], CR, q - b, r', t') && CR !in w[b..q]
    ensures PieceFrameOf(inclusive, w, r, t) != PieceFrameOf(inclusive, w[b..], r', t')
  {
    InPart(w, b, q, if r > 0 then r - 1 else 0);
    var long, short := PieceFrameOf(inclusive, w, r, t), PieceFrameOf(inclusive, w[b..], r', t');
    assert long[b - 1 - r] == LF;
    assert LF !in short;
  }

  lemma LastLf(w: seq<byte>) returns (b: nat)
    requires LF in w
    ensures 0 < b <= |w| && w[b - 1] == LF && LF !in w[b..]
  {
    b := |w|;
    while w[b - 1] != LF
      invariant 0 < b <= |w| && LF !in w[b..] && LF in w[..b]
      decreases b
    {
      assert w[..b] == w[..b - 1] + [w[b - 1]] && w[b - 1..] == [w[b - 1]] + w[b..];
      b := b - 1;
    }
  }

  /** Not harmless: switching to CR at the first bare CR changes the reports. */
  lemma HarmfulSwitch(cfg: Config, w: seq<byte>, cr: nat)
    requires SkipsBlanks(cfg) && BareCrFirst(w, cr) && LF in w && !Harmless(w)
    ensures Reported(cfg, Line(AutoLf), w) != Reported(cfg, Line(CrMode), w)
  {
    hide Reported;
    var b := LastLf(w);
    assert !BlankUntilLateCr(w, b) by {
      assert w[0..] == w && w[..0] == [];
      assert !HarmlessAt(w, 0, b);
    }
    if !IsBlankFrame(w[..b]) {
      var q := FindNonblank(w, b);
      EarlyNonblankShows(cfg, w, cr, q, b - 1);
    } else {
      LateCrShows(cfg, w, b);
    }
  }

  lemma LateCrShows(cfg: Config, w: seq<byte>, b: nat)
    requires SkipsBlanks(cfg) && 0 < b <= |w| && w[b - 1] == LF && LF !in w[b..] && IsBlankFrame(w[..b])
    requires CR in w[b..] && !IsBlankFrame(w[b..][..Position(w[b..], CR).value])
    ensures Reported(cfg, Line(AutoLf), w) != Reported(cfg, Line(CrMode), w)
  {
    hide Reported;
    var tail := w[b..];
    var p := Position(tail, CR).value;
    var q := FindNonblank(tail, p);
    assert w[..b + q] == w[..b] + tail[..q];
    BlankTogether(w[..b], tail[..q]);
    assert w[b..b + q] == tail[..q] && w[b + p] == CR;
    LateNonblankShows(cfg, w, b, b + q, b + p);
  }

  /** What is reported when the stream is cut just behind its first troublesome CR and the next byte. */
  function AfterEarlyCut(cfg: Config, w: seq<byte>, c: nat): seq<seq<byte>>
    decreases |w|
  {
    match Position(w, LF)
    case Some(lf) =>
      if lf < c then KeptOne(cfg, LineFrameOf(cfg.includeTerminators, w, 0, lf)) + AfterEarlyCut(cfg, w[lf + 1..], c - lf - 1)
      else Reported(cfg, Line(CrMode), w)
    case None => Reported(cfg, Line(CrMode), w)
  }

  lemma CutAfterLine(cfg: Config, w: seq<byte>, c: nat, lf: nat)
    requires Position(w, LF) == Some(lf)
    ensures AfterEarlyCut(cfg, w, c) ==
      if lf < c then KeptOne(cfg, LineFrameOf(cfg.includeTerminators, w, 0, lf)) + AfterEarlyCut(cfg, w[lf + 1..], c - lf - 1)
      else Reported(cfg, Line(CrMode), w)
  {
    hide Reported, KeptOne, LineFrameOf, Position;
  }

  ghost predicate EarlyCutReports(cfg: Config, s: State, c: nat)
    requires IsBuffered(s.mode) && c + 2 <= |s.buf|
  {
    var early := Drain(cfg, s.(buf := s.buf[..c + 2]));
    Payloads(PushBuffered(cfg, early, s.buf[c + 2..]).log) == Payloads(s.log) + AfterEarlyCut(cfg, s.buf, c)
  }

  lemma {:induction false} CutReports(cfg: Config, s: State, c: nat)
    requires SkipsBlanks(cfg) && NoFailure(s.log) && s.mode == Line(AutoLf) && FirstTrouble(s.buf, c)
    ensures EarlyCutReports(cfg, s, c)
    decreases |s.buf|
  {
    hide EarlyCutReports, Next, Payloads, Drain, KeptOne, LineFrameOf, AutoLine;
    var w := s.buf;
    var lf := Position(w, LF).value;
    if lf < c {
      NextLine(cfg, s, c, lf);
      var u := Next(cfg, s, AutoLine(cfg.includeTerminators, w));
      LaterTrouble(w, c, lf);
      CutReports(cfg, u, c - lf - 1);
      CutReportsOneLineLater(cfg, s, u, c, lf);
    } else {
      TroubleIsBareFirst(w, c, lf);
      CutReportsNow(cfg, s, c);
    }
  }

  /** The first line is reported alike from the whole and from its head. */
  lemma NextLine(cfg: Config, s: State, c: nat, lf: nat)
    requires SkipsBlanks(cfg) && NoFailure(s.log) && s.mode == Line(AutoLf)
    requires c + 2 <= |s.buf| && Position(s.buf, LF) == Some(lf) && lf < c
    ensures
      var head := s.(buf := s.buf[..c + 2]);
      && AutoLine(cfg.includeTerminators, s.buf).frame.Some?
      && var u := Next(cfg, s, AutoLine(cfg.includeTerminators, s.buf));
      && u.mode == Line(AutoLf) && u.buf == s.buf[lf + 1..] && NoFailure(u.log)
      && Payloads(u.log) == Payloads(s.log) + KeptOne(cfg, LineFrameOf(cfg.includeTerminators, s.buf, 0, lf))
      && Drain(cfg, head) == Drain(cfg, u.(buf := u.buf[..c - lf - 1 + 2]))
      && u.buf[c - lf - 1 + 2..] == s.buf[c + 2..]
  {
    hide Payloads, Drain, Reported, KeptOne, AutoLine;
    var head, inclusive := s.(buf := s.buf[..c + 2]), cfg.includeTerminators;
    SameFirstLine(inclusive, s.buf, c, lf);
    AutoLineCutsLf(inclusive, s.buf, lf);
    OneReport(cfg, s);
    OneReport(cfg, head);
    var u := Next(cfg, s, AutoLine(inclusive, s.buf));
    assert Next(cfg, head, AutoLine(inclusive, head.buf)) == u.(buf := u.buf[..c - lf - 1 + 2]);
    assert s.buf[0..lf + 1] == s.buf[..lf + 1] && s.buf[0..lf] == s.buf[..lf];
  }

  lemma CutReportsOneLineLater(cfg: Config, s: State, u: State, c: nat, lf: nat)
    requires IsBuffered(s.mode) && IsBuffered(u.mode) && c + 2 <= |s.buf| && lf < c
    requires Position(s.buf, LF) == Some(lf) && u.buf == s.buf[lf + 1..] && EarlyCutReports(cfg, u, c - lf - 1)
    requires Payloads(u.log) == Payloads(s.log) + KeptOne(cfg, LineFrameOf(cfg.includeTerminators, s.buf, 0, lf))
    requires Drain(cfg, s.(buf := s.buf[..c + 2])) == Drain(cfg, u.(buf := u.buf[..c - lf - 1 + 2]))
    ensures EarlyCutReports(cfg, s, c)
  {
    hide Payloads, Drain, KeptOne, LineFrameOf, Reported, PushBuffered, AfterEarlyCut, Position;
    assert u.buf[c - lf - 1 + 2..] == s.buf[c + 2..];
    CutAfterLine(cfg, s.buf, c, lf);
    Regroup(Payloads(s.log), KeptOne(cfg, LineFrameOf(cfg.includeTerminators, s.buf, 0, lf)),
            AfterEarlyCut(cfg, u.buf, c - lf - 1));
  }

  lemma TroubleIsBareFirst(w: seq<byte>, c: nat, lf: nat)
    requires FirstTrouble(w, c) && Position(w, LF) == Some(lf) && lf >= c
    ensures BareCrFirst(w, c)
  {
    forall i | 0 <= i < c ensures w[i] != CR && w[i] != LF {
      assert w[i + 1] != LF || i + 1 == lf;
    }
    assert forall i :: 0 <= i < c ==> w[..c][i] == w[i];
  }

  lemma CutReportsNow(cfg: Config, s: State, c: nat)
    requires SkipsBlanks(cfg) && NoFailure(s.log) && s.mode == Line(AutoLf) && BareCrFirst(s.buf, c)
    requires Position(s.buf, LF).Some? && Position(s.buf, LF).value >= c
    ensures EarlyCutReports(cfg, s, c)
  {
    var w := s.buf;
    var head := s.(buf := w[..c + 2]);
    assert AfterEarlyCut(cfg, w, c) == Reported(cfg, Line(CrMode), w);
    hide Payloads, Drain, Reported, KeptOne, AutoLine, AfterEarlyCut, Position;
    var u := SwitchedHead(cfg, s, c);
    ThenPush(cfg, u, w[c + 2..]);
    FirstIsBare(w, c);
    ReportedPiece(cfg, w);
    Regroup(Payloads(s.log), KeptOne(cfg, if cfg.includeTerminators then w[..c + 1] else w[..c]),
            Reported(cfg, Line(CrMode), w[c + 1..]));
  }

  /** After its first cut the head is in CR mode. */
  lemma SwitchedHead(cfg: Config, s: State, c: nat) returns (u: State)
    requires SkipsBlanks(cfg) && NoFailure(s.log) && s.mode == Line(AutoLf) && BareCrFirst(s.buf, c)
    ensures u.mode == Line(CrMode) && NoFailure(u.log) && u.buf + s.buf[c + 2..] == s.buf[c + 1..]
    ensures Drain(cfg, s.(buf := s.buf[..c + 2])) == Drain(cfg, u)
    ensures Payloads(u.log) == Payloads(s.log) + KeptOne(cfg, if cfg.includeTerminators then s.buf[..c + 1] else s.buf[..c])
  {
    hide Payloads, Drain, Reported, KeptOne, AutoLine;
    var head := s.(buf := s.buf[..c + 2]);
    HeadSwitches(cfg.includeTerminators, s.buf, c);
    OneReport(cfg, head);
    u := Next(cfg, head, AutoLine(cfg.includeTerminators, head.buf));
  }

  /** In CR mode, draining and then pushing reports what the bytes together would. */
  lemma {:induction false} ThenPush(cfg: Config, u: State, more: seq<byte>)
    requires SkipsBlanks(cfg) && NoFailure(u.log) && u.mode == Line(CrMode)
    ensures Payloads(PushBuffered(cfg, Drain(cfg, u), more).log) == Payloads(u.log) + Reported(cfg, Line(CrMode), u.buf + more)
  {
    hide Payloads, Drain, Reported;
    DrainKeepsTotal(cfg, u, more);
    var t := Drain(cfg, u);
    JustOne(more);
    assert PushBufferedAll(cfg, t, [more]) == PushBuffered(cfg, t, more);
    PushesReport(cfg, t, [more]);
  }

  lemma JustOne(chunk: seq<byte>)
    ensures Join([chunk]) == chunk && [chunk][1..] == []
  {
    assert Join([chunk]) == chunk + Join([]);
  }

  /** The two bytes behind the lines make the decoder switch at the CR. */
  lemma HeadSwitches(inclusive: bool, w: seq<byte>, c: nat)
    requires BareCrFirst(w, c)
    ensures AutoLine(inclusive, w[..c + 2])
         == Extraction(Line(CrMode), w[c + 1..c + 2], Some(if inclusive then w[..c + 1] else w[..c]))
  {
    var head := w[..c + 2];
    assert head == w[..c] + [w[c], w[c + 1]];
    assert head[..c] == w[..c] && head[..c + 1] == w[..c + 1] && head[c + 1..] == w[c + 1..c + 2];
    FirstIsBare(head, c);
    assert LF !in head;
  }

  lemma {:induction false} AffectedDiffers(cfg: Config, w: seq<byte>, c: nat)
    requires SkipsBlanks(cfg) && FirstTrouble(w, c) && !Harmless(w)
    ensures AfterEarlyCut(cfg, w, c) != Reported(cfg, Line(AutoLf), w)
    decreases |w|
  {
    TroubleHasLf(w, c);
    hide Reported, Harmless, FirstTrouble, BareCrFirst, AfterEarlyCut, Position;
    var lf := Position(w, LF).value;
    if lf < c {
      LaterTrouble(w, c, lf);
      HarmlessEarlier(w, c, lf);
      AffectedDiffers(cfg, w[lf + 1..], c - lf - 1);
      DiffersOneLineEarlier(cfg, w, c, lf);
    } else {
      CutAfterLine(cfg, w, c, lf);
      TroubleIsBareFirst(w, c, lf);
      HarmfulSwitch(cfg, w, c);
    }
  }

  lemma DiffersOneLineEarlier(cfg: Config, w: seq<byte>, c: nat, lf: nat)
    requires Position(w, LF) == Some(lf) && lf < c
    requires AfterEarlyCut(cfg, w[lf + 1..], c - lf - 1) != Reported(cfg, Line(AutoLf), w[lf + 1..])
    ensures AfterEarlyCut(cfg, w, c) != Reported(cfg, Line(AutoLf), w)
  {
    hide Reported, AfterEarlyCut, Position, KeptOne, LineFrameOf;
    CutAfterLine(cfg, w, c, lf);
    ReportedLine(cfg, w, lf);
    PrefixCancels(KeptOne(cfg, LineFrameOf(cfg.includeTerminators, w, 0, lf)), AfterEarlyCut(cfg, w[lf + 1..], c - lf - 1),
                  Reported(cfg, Line(AutoLf), w[lf + 1..]));
  }

  /** A line without bare CR in front of harmless bytes keeps them harmless. */
  lemma HarmlessEarlier(w: seq<byte>, c: nat, lf: nat)
    requires FirstTrouble(w, c) && Position(w, LF) == Some(lf) && lf < c
    ensures Harmless(w[lf + 1..]) ==> Harmless(w)
  {
    var rest, n := w[lf + 1..], lf + 1;
    if Harmless(rest) {
      var a: nat, b: nat :| HarmlessAt(rest, a, b);
      HarmlessBehindLine(w, c, n, a, b);
      assert HarmlessAt(w, n + a, b);
    }
  }

  lemma HarmlessBehindLine(w: seq<byte>, c: nat, n: nat, a: nat, b: nat)
    requires FirstTrouble(w, c) && 0 < n <= c && n <= |w| && w[n - 1] == LF && HarmlessAt(w[n..], a, b)
    ensures HarmlessAt(w, n + a, b)
  {
    hide BlankUntilLateCr, NoBareCr, WholeLines;
    var rest := w[n..];
    assert w[..n + a] == w[..n] + rest[..a] && w[n + a..] == rest[a..];
    LinesTogether(w[..n], rest[..a], c, w);
  }

  lemma LinesTogether(line: seq<byte>, lines: seq<byte>, c: nat, w: seq<byte>)
    requires FirstTrouble(w, c) && line <= w && line != [] && line[|line| - 1] == LF && |line| <= c
    requires WholeLines(lines) && NoBareCr(lines)
    ensures WholeLines(line + lines) && NoBareCr(line + lines)
  {
    var all, n := line + lines, |line|;
    forall i | 0 <= i < |all| && all[i] == CR ensures LfOrNothingAt(all, i + 1) {
      if i < n {
        assert w[i] == CR && w[i + 1] == LF;
        assert line[i + 1] == w[i + 1];
      } else {
        assert LfOrNothingAt(lines, i - n + 1);
      }
    }
  }

  /**
    The exact condition with skip_empty on: `auto` reports the same payloads for every chunking if and only
    if no LF follows a bare CR, or whatever follows the last line before the first bare CR is blank, up to
    the first CR behind the last LF.
   */
  lemma SkippingAutoIsChunkIndependentExactlyWhen(cfg: Config, stream: seq<byte>)
    requires SkipsBlanks(cfg)
    ensures ChunkIndependent(cfg, Line(AutoLf), stream) <==> Unaffected(stream)
  {
    hide Reported;
    var s := Fresh(Line(AutoLf));
    assert s.buf + stream == stream;
    DrainReports(cfg, s.(buf := stream));
    if Unaffected(stream) {
      ReportedTail(cfg, []);
      forall chunks | Join(chunks) == stream
        ensures Payloads(PushBufferedAll(cfg, s, chunks).log) == Payloads(PushBuffered(cfg, s, stream).log)
      {
        PushesReport(cfg, s, chunks);
      }
    } else {
      AffectedDependsOnChunks(cfg, stream);
    }
  }

  lemma AffectedDependsOnChunks(cfg: Config, stream: seq<byte>)
    requires SkipsBlanks(cfg) && !Unaffected(stream)
    ensures !ChunkIndependent(cfg, Line(AutoLf), stream)
  {
    hide Reported, Harmless, AfterEarlyCut, Payloads, Drain;
    var s := Fresh(Line(AutoLf)).(buf := stream);
    var c := FindTrouble(stream);
    CutReports(cfg, s, c);
    AffectedDiffers(cfg, stream, c);
    DrainReports(cfg, s);
    PrefixCancels(Payloads(s.log), AfterEarlyCut(cfg, stream, c), Reported(cfg, Line(AutoLf), stream));
    assert CutMatters(cfg, s, c);
    CutAsChunks(cfg, Line(AutoLf), stream, c);
    TwoChunks(cfg, Fresh(Line(AutoLf)), stream[..c + 2], stream[c + 2..]);
    assert stream[..c + 2] + stream[c + 2..] == stream;
  }
}
