/**
  The literal matcher: a sliding window that is cut after every bounded push and yet reports the match
  index and the match context of a search over everything fed since the last reset.
 */
module LiteralMatching {
  import opened Bytes
  import opened Matching

  datatype ShapedPayload = ShapedPayload(data: seq<byte>, matchIndex: nat, needleLen: nat)

  datatype SavedContext = SavedContext(globalIndex: nat, payload: ShapedPayload)

  /** The value of a literal matcher. */
  datatype Literal = Literal(needle: seq<byte>, contextAmount: Option<nat>,
                             window: seq<byte>, base: nat, saved: Option<SavedContext>)

  function New(needle: seq<byte>, contextAmount: Option<nat>): Literal {
    Literal(needle, contextAmount, [], 0, None)
  }

  // ----- the operations

  function Checked(m: Literal): MatchResult {
    match FindSubsequence(m.window, m.needle)
    case None => NoMatch
    case Some(i) => Found(m.base + i)
  }

  /** Shape the match at `globalIndex` over the current window, with at most `cap` bytes before it. */
  function SaveContext(m: Literal, globalIndex: nat, cap: Option<nat>): Literal
    requires m.base <= globalIndex && globalIndex - m.base + |m.needle| <= |m.window|
  {
    if m.contextAmount.None? then m
    else
      var context := if cap.Some? then Min(m.contextAmount.value, cap.value) else m.contextAmount.value;
      var local := globalIndex - m.base;
      var preStart := SaturatingSub(local, context);
      var payload := ShapedPayload(m.window[preStart..local + |m.needle|], local - preStart, |m.needle|);
      m.(saved := Some(SavedContext(globalIndex, payload)))
  }

  function Pushed(m: Literal, chunk: seq<byte>): (Literal, MatchResult) {
    var pushed := m.(saved := None, window := m.window + chunk);
    var result := Checked(pushed);
    (if result.Found? then SaveContext(pushed, result.index, None) else pushed, result)
  }

  /** The cap plus the overlap that keeps a match across the cut visible. */
  function RetainedLimit(needle: seq<byte>, cap: nat): nat {
    Min(cap + SaturatingSub(|needle|, 1), USIZE_MAX)
  }

  function Truncated(m: Literal, keep: nat): Literal {
    var drop := SaturatingSub(|m.window|, keep);
    m.(window := m.window[drop..], base := m.base + drop)
  }

  function BoundedPush(m: Literal, chunk: seq<byte>, cap: nat): (Literal, MatchResult) {
    var (pushed, result) := Pushed(m, chunk);
    var shaped := if result.Found? then SaveContext(pushed, result.index, Some(cap)) else pushed;
    (Truncated(shaped, RetainedLimit(m.needle, cap)), result)
  }

  function WasReset(m: Literal): Literal {
    m.(window := [], base := 0, saved := None)
  }

  /** The saved payload, for the match it was saved for only. */
  function ContextOf(m: Literal, globalIndex: nat): Option<ShapedPayload> {
    if m.contextAmount.Some? && m.saved.Some? && m.saved.value.globalIndex == globalIndex
    then Some(m.saved.value.payload) else None
  }

  /** Context shaping over a complete stream. */
  function ShapeMatchContext(stream: seq<byte>, matchIndex: nat, needleLen: nat, context: Option<nat>): ShapedPayload
    requires matchIndex + needleLen <= |stream|
  {
    if context.None? then ShapedPayload(stream, matchIndex, needleLen)
    else
      var preStart := SaturatingSub(matchIndex, context.value);
      ShapedPayload(stream[preStart..matchIndex + needleLen], matchIndex - preStart, needleLen)
  }

  // ----- the class

  class LiteralMatcher {
    const needle: seq<byte>
    const contextAmount: Option<nat>
    var window: seq<byte>
    var base: nat
    var lastMatchContext: Option<SavedContext>

    function Abs(): Literal
      reads this
    {
      Literal(needle, contextAmount, window, base, lastMatchContext)
    }

    constructor (needle: seq<byte>, contextAmount: Option<nat>)
      ensures Abs() == New(needle, contextAmount)
    {
      this.needle, this.contextAmount := needle, contextAmount;
      window, base, lastMatchContext := [], 0, None;
    }

    method Check() returns (r: MatchResult)
      ensures r == Checked(Abs())
    {
      var i := FindSubsequence(window, needle);
      r := if i.None? then NoMatch else Found(base + i.value);
    }

    method SaveLiteralContext(globalIndex: nat, cap: Option<nat>)
      requires base <= globalIndex && globalIndex - base + |needle| <= |window|
      modifies this`lastMatchContext
      ensures Abs() == SaveContext(old(Abs()), globalIndex, cap)
    {
      if contextAmount.Some? {
        var effective := if cap.Some? then Min(contextAmount.value, cap.value) else contextAmount.value;
        var local := globalIndex - base;
        var preStart := SaturatingSub(local, effective);
        var matchEnd := local + |needle|;
        var payload := ShapedPayload(window[preStart..matchEnd], local - preStart, |needle|);
        lastMatchContext := Some(SavedContext(globalIndex, payload));
      }
    }

    method Push(chunk: seq<byte>) returns (r: MatchResult)
      modifies this
      ensures (Abs(), r) == Pushed(old(Abs()), chunk)
    {
      lastMatchContext := None;
      window := window + chunk;
      r := Check();
      if r.Found? {
        SaveLiteralContext(r.index, None);
      }
    }

    method PushBounded(chunk: seq<byte>, maxBufferedBytes: nat) returns (r: MatchResult)
      modifies this
      ensures (Abs(), r) == BoundedPush(old(Abs()), chunk, maxBufferedBytes)
    {
      r := Push(chunk);
      if r.Found? {
        SaveLiteralContext(r.index, Some(maxBufferedBytes));
      }
      var limit := RetainedLimit(needle, maxBufferedBytes);
      if |window| > limit {
        TruncateFront(limit);
      }
    }

    method TruncateFront(keep: nat)
      modifies this`window, this`base
      ensures Abs() == Truncated(old(Abs()), keep)
    {
      var drop := SaturatingSub(|window|, keep);
      if drop > 0 {
        window := window[drop..];
        base := base + drop;
      }
    }

    method ResetWindow()
      modifies this
      ensures Abs() == WasReset(old(Abs()))
    {
      window, base, lastMatchContext := [], 0, None;
    }
  }

  // ----- refinement of whole-stream search

  /** The window is the tail of `fed`, and the needle does not occur in `fed` yet. */
  ghost predicate Searching(m: Literal, fed: seq<byte>) {
    && m.needle != [] && |m.needle| <= USIZE_MAX
    && m.base <= |fed| && m.window == fed[m.base..]
    && FindSubsequence(fed, m.needle).None?
    && (m.base == 0 || |m.window| >= |m.needle| - 1)
  }

  /** At least the last `cap` bytes before any possible match start are retained. */
  ghost predicate Retains(m: Literal, fed: seq<byte>, cap: nat) {
    m.base == 0 || |m.window| >= cap + |m.needle| - 1
  }

  /** Search over everything ever fed. */
  function SearchAll(fed: seq<byte>, needle: seq<byte>): MatchResult {
    match FindSubsequence(fed, needle)
    case None => NoMatch
    case Some(i) => Found(i)
  }

  /** A needle that did not occur before the chunk can only occur inside the window plus the chunk. */
  lemma WindowSeesFirstMatch(m: Literal, fed: seq<byte>, chunk: seq<byte>)
    requires Searching(m, fed)
    ensures Checked(m.(window := m.window + chunk)) == SearchAll(fed + chunk, m.needle)
  {
    var all, window := fed + chunk, m.window + chunk;
    assert window == all[m.base..];
    forall i | 0 <= i < m.base ensures !OccursAt(all, m.needle, i) {
      OccursInPrefix(fed, chunk, m.needle, i);
    }
    forall i | m.base <= i ensures OccursAt(all, m.needle, i) <==> OccursAt(window, m.needle, i - m.base) {
      OccursInSuffix(all, m.base, m.needle, i);
    }
    match FindSubsequence(window, m.needle) {
      case Some(i) => assert OccursAt(all, m.needle, m.base + i);
      case None =>
        forall i ensures !OccursAt(all, m.needle, i) {
          assert m.base <= i ==> !OccursAt(window, m.needle, i - m.base);
        }
    }
  }

  /**
    One bounded push, with any cap: it reports Found(i) exactly when the needle occurs in everything
    fed, i being the first occurrence, keeps base plus window length equal to the bytes fed, and never
    retains more than the limit.
   */
  lemma BoundedPushRefinesSearch(m: Literal, fed: seq<byte>, chunk: seq<byte>, cap: nat)
    requires Searching(m, fed)
    ensures
      var (next, result) := BoundedPush(m, chunk, cap);
      && result == SearchAll(fed + chunk, m.needle)
      && next.base + |next.window| == |fed + chunk|
      && |next.window| <= cap + |m.needle| - 1 && |next.window| <= USIZE_MAX
      && next.needle == m.needle && next.contextAmount == m.contextAmount
      && (result.NoMatch? ==> Searching(next, fed + chunk))
  {
    hide BoundedPush, Checked;
    WindowSeesFirstMatch(m, fed, chunk);
    BoundedPushFrame(m, chunk, cap);
    assert m.window + chunk == (fed + chunk)[m.base..];
  }

  /** A bounded push answers from the combined window and then keeps only its tail. */
  lemma BoundedPushFrame(m: Literal, chunk: seq<byte>, cap: nat)
    ensures
      var (next, result) := BoundedPush(m, chunk, cap);
      var window := m.window + chunk;
      var drop := SaturatingSub(|window|, RetainedLimit(m.needle, cap));
      && result == Checked(m.(window := window))
      && next.window == window[drop..] && next.base == m.base + drop
      && next.needle == m.needle && next.contextAmount == m.contextAmount
  {
  }

  /** What a bounded push saves is the match shaped over the combined window under the cap. */
  lemma BoundedPushSaves(m: Literal, chunk: seq<byte>, cap: nat)
    requires m.contextAmount.Some?
    ensures
      var (next, result) := BoundedPush(m, chunk, cap);
      var window := m.window + chunk;
      result.Found? ==>
        && m.base <= result.index && result.index - m.base + |m.needle| <= |window|
        && ContextOf(next, result.index) == Some(ShapeMatchContext(window, result.index - m.base, |m.needle|,
                                                                   Some(Min(m.contextAmount.value, cap))))
  {
    hide FindSubsequence, ShapeMatchContext;
    var (pushed, result) := Pushed(m, chunk);
    if result.Found? {
      SavedIsShaped(pushed, result.index, cap);
    }
  }

  /** The second save, under the cap, is what truncation keeps. */
  lemma SavedIsShaped(m: Literal, i: nat, cap: nat)
    requires m.contextAmount.Some? && m.base <= i && i - m.base + |m.needle| <= |m.window|
    ensures
      var shaped := ShapeMatchContext(m.window, i - m.base, |m.needle|, Some(Min(m.contextAmount.value, cap)));
      forall keep :: ContextOf(Truncated(SaveContext(m, i, Some(cap)), keep), i) == Some(shaped)
  {
  }

  /** Bounded pushes up to and including the first Found. */
  function RunBounded(m: Literal, chunks: seq<Chunk>): (Literal, MatchResult)
    decreases |chunks|
  {
    if chunks == [] then (m, NoMatch)
    else
      var (next, result) := BoundedPush(m, chunks[0].bytes, chunks[0].cap);
      if result.Found? then (next, result) else RunBounded(next, chunks[1..])
  }

  /** The unbounded reference: search everything fed after each chunk. */
  function RunReference(fed: seq<byte>, needle: seq<byte>, chunks: seq<Chunk>): (seq<byte>, MatchResult)
    decreases |chunks|
  {
    if chunks == [] then (fed, NoMatch)
    else
      var all := fed + chunks[0].bytes;
      var result := SearchAll(all, needle);
      if result.Found? then (all, result) else RunReference(all, needle, chunks[1..])
  }

  /** Every run of bounded pushes, whatever the chunks and caps, reports what the unbounded search reports. */
  lemma {:induction false} BoundedRunRefinesSearch(m: Literal, fed: seq<byte>, chunks: seq<Chunk>)
    requires Searching(m, fed)
    ensures
      var (final, result) := RunBounded(m, chunks);
      var (all, expected) := RunReference(fed, m.needle, chunks);
      && result == expected
      && final.base + |final.window| == |all|
    decreases |chunks|
  {
    if chunks != [] {
      BoundedPushRefinesSearch(m, fed, chunks[0].bytes, chunks[0].cap);
      var (next, result) := BoundedPush(m, chunks[0].bytes, chunks[0].cap);
      if result.NoMatch? {
        BoundedRunRefinesSearch(next, fed + chunks[0].bytes, chunks[1..]);
      }
    }
  }

  lemma ResetStartsSearching(m: Literal)
    requires m.needle != [] && |m.needle| <= USIZE_MAX
    ensures Searching(WasReset(m), []) && forall cap :: Retains(WasReset(m), [], cap)
  {
  }

  /** From a reset on, bounded pushes report what the unbounded search of the bytes fed since reports. */
  lemma RunFromResetRefinesSearch(m: Literal, chunks: seq<Chunk>)
    requires m.needle != [] && |m.needle| <= USIZE_MAX
    ensures
      var (final, result) := RunBounded(WasReset(m), chunks);
      var (all, expected) := RunReference([], m.needle, chunks);
      result == expected && final.base + |final.window| == |all|
  {
    ResetStartsSearching(m);
    BoundedRunRefinesSearch(WasReset(m), [], chunks);
  }

  // ----- lossless context

  /** Truncation under a fixed cap keeps what a later match needs as context. */
  lemma BoundedPushRetains(m: Literal, fed: seq<byte>, chunk: seq<byte>, cap: nat)
    requires Searching(m, fed) && Retains(m, fed, cap) && |fed + chunk| <= USIZE_MAX
    ensures Retains(BoundedPush(m, chunk, cap).0, fed + chunk, cap)
  {
  }

  /** The payload saved by a bounded push at the first match is the one shaped over the whole stream. */
  lemma SavedContextIsLossless(m: Literal, fed: seq<byte>, chunk: seq<byte>, cap: nat)
    requires Searching(m, fed) && Retains(m, fed, cap) && |fed + chunk| <= USIZE_MAX
    requires m.contextAmount.Some?
    ensures
      var (next, result) := BoundedPush(m, chunk, cap);
      result.Found? ==>
        && result.index + |m.needle| <= |fed + chunk|
        && ContextOf(next, result.index)
           == Some(ShapeMatchContext(fed + chunk, result.index, |m.needle|, Some(Min(m.contextAmount.value, cap))))
  {
    hide BoundedPush, Checked, SearchAll;
    WindowSeesFirstMatch(m, fed, chunk);
    BoundedPushFrame(m, chunk, cap);
    BoundedPushSaves(m, chunk, cap);
    var result := BoundedPush(m, chunk, cap).1;
    if result.Found? {
      SearchAllFinds(fed + chunk, m.needle);
      MatchEndsInChunk(m, fed, chunk, result.index);
      assert m.window + chunk == (fed + chunk)[m.base..];
      ShapingInTail(fed + chunk, m.base, result.index, |m.needle|, Min(m.contextAmount.value, cap));
    }
  }

  lemma SearchAllFinds(fed: seq<byte>, needle: seq<byte>)
    ensures SearchAll(fed, needle).Found? ==> OccursAt(fed, needle, SearchAll(fed, needle).index)
  {
  }

  /** Shaping over a tail of the stream that holds all the context is shaping over the stream. */
  lemma ShapingInTail(stream: seq<byte>, base: nat, i: nat, n: nat, context: nat)
    requires base <= SaturatingSub(i, context) && i + n <= |stream|
    ensures ShapeMatchContext(stream[base..], i - base, n, Some(context))
         == ShapeMatchContext(stream, i, n, Some(context))
  {
    var preStart := SaturatingSub(i, context);
    if i - base < context {
      assert preStart == base;
    }
    assert stream[base..][preStart - base..i - base + n] == stream[preStart..i + n];
  }

  lemma MatchEndsInChunk(m: Literal, fed: seq<byte>, chunk: seq<byte>, i: nat)
    requires Searching(m, fed) && OccursAt(fed + chunk, m.needle, i)
    ensures i + |m.needle| > |fed|
  {
    OccursInPrefix(fed, chunk, m.needle, i);
  }

  /** With one cap throughout, the context of the first match of a run is that of the whole stream. */
  lemma {:induction false} BoundedContextIsLossless(m: Literal, fed: seq<byte>, chunks: seq<Chunk>, cap: nat)
    requires Searching(m, fed) && Retains(m, fed, cap) && m.contextAmount.Some?
    requires forall k :: 0 <= k < |chunks| ==> chunks[k].cap == cap
    requires |RunReference(fed, m.needle, chunks).0| <= USIZE_MAX
    ensures
      var (final, result) := RunBounded(m, chunks);
      var (all, _) := RunReference(fed, m.needle, chunks);
      result.Found? ==>
        && result.index + |m.needle| <= |all|
        && ContextOf(final, result.index)
           == Some(ShapeMatchContext(all, result.index, |m.needle|, Some(Min(m.contextAmount.value, cap))))
    decreases |chunks|
  {
    if chunks != [] {
      var chunk := chunks[0].bytes;
      ReferenceGrows(fed + chunk, m.needle, chunks[1..]);
      BoundedPushRefinesSearch(m, fed, chunk, cap);
      SavedContextIsLossless(m, fed, chunk, cap);
      var (next, result) := BoundedPush(m, chunk, cap);
      if result.NoMatch? {
        BoundedPushRetains(m, fed, chunk, cap);
        BoundedContextIsLossless(next, fed + chunk, chunks[1..], cap);
      }
    }
  }

  lemma {:induction false} ReferenceGrows(fed: seq<byte>, needle: seq<byte>, chunks: seq<Chunk>)
    ensures |RunReference(fed, needle, chunks).0| >= |fed|
    decreases |chunks|
  {
    if chunks != [] {
      ReferenceGrows(fed + chunks[0].bytes, needle, chunks[1..]);
    }
  }

  /**
    What that context is, in terms of the stream: the matched bytes, preceded by as many stream bytes as
    there are, up to the configured amount and the cap, with the position of the match among them.
   */
  lemma {:induction false} ContextIsStreamBytes(m: Literal, fed: seq<byte>, chunks: seq<Chunk>, cap: nat)
    requires Searching(m, fed) && Retains(m, fed, cap) && m.contextAmount.Some?
    requires forall k :: 0 <= k < |chunks| ==> chunks[k].cap == cap
    requires |RunReference(fed, m.needle, chunks).0| <= USIZE_MAX
    ensures
      var (final, result) := RunBounded(m, chunks);
      var (stream, _) := RunReference(fed, m.needle, chunks);
      result.Found? ==>
        var context := ContextOf(final, result.index);
        && context.Some?
        && var before := context.value.matchIndex;
        && before <= result.index && before <= m.contextAmount.value && before <= cap
        && (before == result.index || before == m.contextAmount.value || before == cap)
        && context.value.needleLen == |m.needle|
        && result.index + |m.needle| <= |stream|
        && context.value.data == stream[result.index - before..result.index] + m.needle
  {
    hide RunBounded, RunReference, ShapeMatchContext, OccursAt, Searching, Retains, ContextOf;
    BoundedContextIsLossless(m, fed, chunks, cap);
    BoundedRunRefinesSearch(m, fed, chunks);
    ReferenceFinds(fed, m.needle, chunks);
    var result := RunBounded(m, chunks).1;
    if result.Found? {
      ShapeIsStreamBytes(RunReference(fed, m.needle, chunks).0, m.needle, result.index, Min(m.contextAmount.value, cap));
    }
  }

  lemma ShapeIsStreamBytes(stream: seq<byte>, needle: seq<byte>, i: nat, context: nat)
    requires OccursAt(stream, needle, i)
    ensures
      var shaped := ShapeMatchContext(stream, i, |needle|, Some(context));
      var before := shaped.matchIndex;
      && before <= i && before <= context && (before == i || before == context)
      && shaped.needleLen == |needle| && shaped.data == stream[i - before..i] + needle
  {
    var before := Min(i, context);
    assert stream[i - before..i + |needle|] == stream[i - before..i] + stream[i..i + |needle|];
  }

  lemma {:induction false} ReferenceFinds(fed: seq<byte>, needle: seq<byte>, chunks: seq<Chunk>)
    ensures
      var (stream, result) := RunReference(fed, needle, chunks);
      result.Found? ==> OccursAt(stream, needle, result.index)
    decreases |chunks|
  {
    if chunks != [] {
      SearchAllFinds(fed + chunks[0].bytes, needle);
      ReferenceFinds(fed + chunks[0].bytes, needle, chunks[1..]);
    }
  }

  /**
    A context is there exactly for the match that the last push found, and only if one was configured: every
    push forgets the one before, and a reset forgets it too.
   */
  lemma ContextIsOfLastPush(m: Literal, chunk: seq<byte>, cap: nat, i: nat)
    ensures
      var (final, result) := BoundedPush(m, chunk, cap);
      ContextOf(final, i).Some? <==> m.contextAmount.Some? && result == Found(i)
    ensures ContextOf(WasReset(m), i).None?
  {
    hide FindSubsequence;
  }
}
