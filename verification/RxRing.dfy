/**
  The RX ring: a circular array addressed by absolute stream offsets.  Its reads are proved to return
  slices of the plain sequence of all bytes ever appended.
 */
module RxRings {
  import opened Bytes

  /** What a read hands out. */
  datatype RingSlice = RingSlice(bytes: seq<byte>, fromOffset: nat, nextOffset: nat, bytesLost: nat)

  /** The ring without its array: everything appended, and how much of the front is gone and why. */
  datatype Ring = Ring(capacity: nat, stream: seq<byte>, start: nat, wrapped: nat, cleared: nat)

  ghost predicate WellFormed(r: Ring) {
    && 0 < r.capacity
    && r.start <= |r.stream| && |r.stream| - r.start <= r.capacity
    && r.start == r.wrapped + r.cleared
  }

  // ----- the operations on the plain stream

  function Appended(r: Ring, bytes: seq<byte>): Ring {
    var end := |r.stream| + |bytes|;
    var start := if end > r.capacity && end - r.capacity > r.start then end - r.capacity else r.start;
    r.(stream := r.stream + bytes, start := start, wrapped := r.wrapped + (start - r.start))
  }

  function Cleared(r: Ring): Ring
    requires r.start <= |r.stream|
  {
    r.(start := |r.stream|, cleared := r.cleared + (|r.stream| - r.start))
  }

  /** The slice of the stream that a read at `cursor` of at most `max` bytes returns. */
  function SliceAt(r: Ring, cursor: nat, max: nat): RingSlice
    requires r.start <= |r.stream|
  {
    var end := |r.stream|;
    var lost := if cursor < r.start then r.start - cursor else 0;
    var from := if cursor < r.start then r.start else if cursor > end then end else cursor;
    var take := if max < end - from then max else end - from;
    RingSlice(r.stream[from..from + take], from, from + take, lost)
  }

  // ----- wrap-around arithmetic

  /** Distance from `phys` to `p`, walking forward around a ring of `cap` cells. */
  function Ahead(p: nat, phys: nat, cap: nat): int {
    if p >= phys then p - phys else p + cap - phys
  }

  /** Moving at most once around the ring. */
  lemma ModAdd(o: nat, d: nat, cap: nat)
    requires 0 < cap && d <= cap
    ensures (o + d) % cap == if o % cap + d < cap then o % cap + d else o % cap + d - cap
  {
    var k, r := o / cap, o % cap;
    assert o == cap * k + r;
    if r + d < cap {
      RemainderIsUnique(o + d, cap, k, r + d);
    } else {
      assert cap * (k + 1) == cap * k + cap;
      RemainderIsUnique(o + d, cap, k + 1, r + d - cap);
    }
  }

  /** An offset at or after `s`, less than a ring away. */
  lemma AheadOfLater(o: nat, s: nat, cap: nat)
    requires 0 < cap && s <= o < s + cap
    ensures Ahead(o % cap, s % cap, cap) == o - s
  {
    ModAdd(s, o - s, cap);
  }

  /** An offset before `s`, at most a ring away, is found on the far side. */
  lemma AheadOfEarlier(o: nat, s: nat, cap: nat)
    requires 0 < cap && o < s <= o + cap
    ensures Ahead(o % cap, s % cap, cap) == o + cap - s
  {
    ModAdd(o, s - o, cap);
  }

  // ----- copying in and out of the array

  /** Copy `src` into the ring at physical index `phys`, wrapping; every other cell keeps its value. */
  method WriteRing(buf: array<byte>, phys: nat, src: seq<byte>)
    requires phys < buf.Length && |src| <= buf.Length
    modifies buf
    ensures forall p :: 0 <= p < buf.Length ==>
      buf[p] == if Ahead(p, phys, buf.Length) < |src| then src[Ahead(p, phys, buf.Length)] else old(buf[p])
  {
    var cap := buf.Length;
    var end := phys + |src|;
    if end <= cap {
      forall p | phys <= p < end {
        buf[p] := src[p - phys];
      }
    } else {
      var first := cap - phys;
      forall p | phys <= p < cap {
        buf[p] := src[p - phys];
      }
      forall p | 0 <= p < end - cap {
        buf[p] := src[first + p];
      }
    }
  }

  /** Copy `take` bytes out of the ring from physical index `phys`, wrapping. */
  method ReadRing(buf: array<byte>, phys: nat, take: nat) returns (out: seq<byte>)
    requires phys < buf.Length && take <= buf.Length
    ensures |out| == take
    ensures forall p :: 0 <= p < buf.Length && Ahead(p, phys, buf.Length) < take ==>
      out[Ahead(p, phys, buf.Length)] == buf[p]
  {
    var cap := buf.Length;
    var end := phys + take;
    if end <= cap {
      out := buf[phys..end];
    } else {
      var first := cap - phys;
      out := buf[phys..] + buf[..take - first];
    }
  }

  // ----- the ring

  class RxRing {
    const capacity: nat
    const buf: array<byte>
    var startOffset: nat
    var endOffset: nat
    var bytesWrappedTotal: nat
    /** Every byte ever appended, and how many were dropped by `Clear`. */
    ghost var stream: seq<byte>
    ghost var cleared: nat

    ghost function Abs(): Ring
      reads this
    {
      Ring(capacity, stream, startOffset, bytesWrappedTotal, cleared)
    }

    /** Each retained offset is stored in its cell. */
    ghost predicate Valid()
      reads this, buf
    {
      && WellFormed(Abs())
      && buf.Length == capacity && endOffset == |stream|
      && forall o :: startOffset <= o < endOffset ==> buf[o % capacity] == stream[o]
    }

    constructor (capacity: nat)
      requires capacity > 0
      ensures Valid() && fresh(buf)
      ensures Abs() == Ring(capacity, [], 0, 0, 0)
    {
      this.capacity := capacity;
      this.buf := new byte[capacity](_ => 0);
      startOffset, endOffset, bytesWrappedTotal := 0, 0, 0;
      stream, cleared := [], 0;
    }

    method Append(bytes: seq<byte>)
      requires Valid()
      modifies this, buf
      ensures Valid() && Abs() == Appended(old(Abs()), bytes)
    {
      if bytes == [] {
        assert stream + bytes == stream;
        return;
      }
      var oldEnd, newEnd := endOffset, endOffset + |bytes|;
      var newStart := startOffset;
      if newEnd > capacity && newEnd - capacity > startOffset {
        newStart := newEnd - capacity;
      }
      var lost := newStart - startOffset;
      if lost > 0 {
        bytesWrappedTotal := bytesWrappedTotal + lost;
      }
      var surviveStart := if newStart > oldEnd then newStart else oldEnd;
      var src := bytes[surviveStart - oldEnd..];
      WriteRing(buf, surviveStart % capacity, src);
      StoredAfterWrite(old(buf[..]), buf[..], stream, bytes, startOffset, newStart, surviveStart);
      startOffset, endOffset := newStart, newEnd;
      stream := stream + bytes;
    }

    method Clear()
      requires Valid()
      modifies this
      ensures Valid() && Abs() == Cleared(old(Abs()))
    {
      cleared := cleared + (endOffset - startOffset);
      startOffset := endOffset;
    }

    /** The retained bytes at [from, from + take), through the wrap. */
    method ReadCells(from: nat, take: nat) returns (bytes: seq<byte>)
      requires Valid() && startOffset <= from && from + take <= endOffset
      ensures bytes == stream[from..from + take]
    {
      bytes := ReadRing(buf, from % capacity, take);
      forall i | 0 <= i < take ensures bytes[i] == stream[from + i] {
        AheadOfLater(from + i, from, capacity);
      }
    }

    method ReadFrom(cursor: nat, max: nat) returns (slice: RingSlice)
      requires Valid()
      ensures slice == SliceAt(Abs(), cursor, max)
    {
      var bytesLost := if cursor < startOffset then startOffset - cursor else 0;
      var fromOffset := cursor;
      if cursor < startOffset {
        fromOffset := startOffset;
      } else if cursor > endOffset {
        return RingSlice([], endOffset, endOffset, bytesLost);
      }
      if fromOffset >= endOffset || max == 0 {
        return RingSlice([], fromOffset, fromOffset, bytesLost);
      }
      var available := endOffset - fromOffset;
      var take := if max < available then max else available;
      var bytes := ReadCells(fromOffset, take);
      return RingSlice(bytes, fromOffset, fromOffset + take, bytesLost);
    }
  }

  /** After an append's write, every offset still retained is stored in its cell. */
  lemma StoredAfterWrite(before: seq<byte>, after: seq<byte>, stream: seq<byte>, bytes: seq<byte>,
                         start: nat, newStart: nat, surviveStart: nat)
    requires
      var cap, oldEnd, newEnd := |before|, |stream|, |stream| + |bytes|;
      && 0 < cap == |after|
      && start <= newStart <= newEnd <= newStart + cap && start <= oldEnd
      && surviveStart == (if newStart > oldEnd then newStart else oldEnd)
      && (forall o :: start <= o < oldEnd ==> before[o % cap] == stream[o])
      && (forall p :: 0 <= p < cap ==>
            var d := Ahead(p, surviveStart % cap, cap);
            after[p] == if d < newEnd - surviveStart then bytes[surviveStart - oldEnd..][d] else before[p])
    ensures forall o :: newStart <= o < |stream| + |bytes| ==> after[o % |after|] == (stream + bytes)[o]
  {
    var cap := |before|;
    forall o | newStart <= o < |stream| + |bytes| ensures after[o % cap] == (stream + bytes)[o] {
      if surviveStart <= o {
        AheadOfLater(o, surviveStart, cap);
      } else {
        AheadOfEarlier(o, surviveStart, cap);
      }
    }
  }

  // ----- every run, seen by a reader that follows next_offset

  datatype Op = Append(bytes: seq<byte>) | Clear | Read(max: nat)

  /** A reader's record: its cursor, what it received and at which stream offsets, and what it was told it lost. */
  datatype Reader = Reader(ring: Ring, cursor: nat, received: seq<byte>, offsets: seq<nat>, lost: nat)

  function Perform(s: Reader, op: Op): Reader
    requires s.ring.start <= |s.ring.stream|
  {
    match op
    case Append(bytes) => s.(ring := Appended(s.ring, bytes))
    case Clear => s.(ring := Cleared(s.ring))
    case Read(max) =>
      var slice := SliceAt(s.ring, s.cursor, max);
      s.(cursor := slice.nextOffset, received := s.received + slice.bytes,
         offsets := s.offsets + seq(|slice.bytes|, i requires 0 <= i => slice.fromOffset + i),
         lost := s.lost + slice.bytesLost)
  }

  /** What holds of a reader that started at `origin`. */
  ghost predicate Faithful(s: Reader, origin: nat) {
    && WellFormed(s.ring)
    && origin <= s.cursor <= |s.ring.stream|
    && |s.received| + s.lost == s.cursor - origin
    && |s.offsets| == |s.received|
    && (forall k :: 0 <= k < |s.offsets| ==>
          origin <= s.offsets[k] < s.cursor && s.received[k] == s.ring.stream[s.offsets[k]])
    && (forall j, k :: 0 <= j < k < |s.offsets| ==> s.offsets[j] < s.offsets[k])
  }

  lemma PerformStaysFaithful(s: Reader, origin: nat, op: Op)
    requires Faithful(s, origin)
    ensures Faithful(Perform(s, op), origin)
    ensures s.ring.stream <= Perform(s, op).ring.stream
  {
    match op
    case Append(bytes) =>
    case Clear =>
    case Read(max) => ReadStaysFaithful(s, origin, max);
  }

  lemma ReadStaysFaithful(s: Reader, origin: nat, max: nat)
    requires Faithful(s, origin)
    ensures Faithful(Perform(s, Read(max)), origin)
  {
    var slice := SliceAt(s.ring, s.cursor, max);
    assert slice.bytes == s.ring.stream[slice.fromOffset..slice.nextOffset];
    var t := Perform(s, Read(max));
    forall k | 0 <= k < |t.offsets|
      ensures origin <= t.offsets[k] < t.cursor && t.received[k] == t.ring.stream[t.offsets[k]]
    {
      if k >= |s.offsets| {
        assert t.offsets[k] == slice.fromOffset + (k - |s.offsets|);
      }
    }
  }

  ghost function Run(s: Reader, ops: seq<Op>): Reader
    decreases |ops|
  {
    if ops == [] || s.ring.start > |s.ring.stream| then s else Run(Perform(s, ops[0]), ops[1..])
  }

  /**
    In every run the bytes received are bytes of the appended stream at strictly increasing offsets, none
    twice, and bytes received plus bytes reported lost is exactly the distance the cursor moved; the start
    offset is always the bytes wrapped out plus the bytes cleared.
   */
  lemma {:induction false} RingRefinesStream(s: Reader, origin: nat, ops: seq<Op>)
    requires Faithful(s, origin)
    ensures Faithful(Run(s, ops), origin)
    ensures s.ring.stream <= Run(s, ops).ring.stream
    decreases |ops|
  {
    if ops != [] {
      PerformStaysFaithful(s, origin, ops[0]);
      RingRefinesStream(Perform(s, ops[0]), origin, ops[1..]);
    }
  }

  /** Whenever the reader reads, its cursor is still inside the ring. */
  ghost predicate KeepsUp(s: Reader, ops: seq<Op>)
    decreases |ops|
  {
    ops == [] || s.ring.start > |s.ring.stream|
    || ((ops[0].Read? ==> s.ring.start <= s.cursor) && KeepsUp(Perform(s, ops[0]), ops[1..]))
  }

  lemma {:induction false} LosesExactlyWhenBehind(s: Reader, origin: nat, ops: seq<Op>)
    requires Faithful(s, origin)
    ensures Run(s, ops).lost >= s.lost
    ensures Run(s, ops).lost == s.lost <==> KeepsUp(s, ops)
    decreases |ops|
  {
    hide Faithful;
    if ops != [] {
      StartIsInside(s, origin);
      PerformStaysFaithful(s, origin, ops[0]);
      LosesExactlyWhenBehind(Perform(s, ops[0]), origin, ops[1..]);
    }
  }

  lemma StartIsInside(s: Reader, origin: nat)
    requires Faithful(s, origin)
    ensures s.ring.start <= |s.ring.stream| && s.cursor <= |s.ring.stream|
  {
  }

  /**
    The exact condition for losing nothing, through any wraps and clears: a reader is told of no loss if and
    only if its cursor is inside the ring whenever it reads, and it has then received the stream itself.
   */
  lemma ReceivesStreamExactlyWhenKeepingUp(s: Reader, origin: nat, ops: seq<Op>)
    requires Faithful(s, origin) && s.lost == 0
    ensures
      var r := Run(s, ops);
      && (r.lost == 0 <==> KeepsUp(s, ops))
      && (KeepsUp(s, ops) ==> origin <= r.cursor <= |r.ring.stream| && r.received == r.ring.stream[origin..r.cursor])
  {
    LosesExactlyWhenBehind(s, origin, ops);
    RingRefinesStream(s, origin, ops);
    if KeepsUp(s, ops) {
      NothingLostWhileRetained(Run(s, ops), origin);
    }
  }

  /** A reader that was told of no loss has received the stream itself. */
  lemma {:induction false} NothingLostWhileRetained(s: Reader, origin: nat)
    requires Faithful(s, origin) && s.lost == 0
    ensures s.received == s.ring.stream[origin..s.cursor]
  {
    forall k | 0 <= k < |s.offsets| ensures s.offsets[k] == origin + k {
      IncreasingFillsRange(s.offsets, origin, k);
    }
  }

  lemma {:induction false} IncreasingFillsRange(offsets: seq<nat>, origin: nat, k: nat)
    requires k < |offsets|
    requires forall i :: 0 <= i < |offsets| ==> origin <= offsets[i] < origin + |offsets|
    requires forall i, j :: 0 <= i < j < |offsets| ==> offsets[i] < offsets[j]
    ensures offsets[k] == origin + k
  {
    AtLeast(offsets, origin, k);
    AtMost(offsets, origin + |offsets|, k);
  }

  lemma {:induction false} AtLeast(offsets: seq<nat>, origin: nat, k: nat)
    requires k < |offsets| && origin <= offsets[0]
    requires forall i, j :: 0 <= i < j < |offsets| ==> offsets[i] < offsets[j]
    ensures origin + k <= offsets[k]
  {
    if k > 0 {
      AtLeast(offsets, origin, k - 1);
    }
  }

  lemma {:induction false} AtMost(offsets: seq<nat>, limit: nat, k: nat)
    requires k < |offsets| && offsets[|offsets| - 1] < limit
    requires forall i, j :: 0 <= i < j < |offsets| ==> offsets[i] < offsets[j]
    ensures offsets[k] + (|offsets| - k) <= limit
    decreases |offsets| - k
  {
    if k < |offsets| - 1 {
      AtMost(offsets, limit, k + 1);
    }
  }

  // ----- the ring in terms of its history alone

  /** Everything the operations appended. */
  function History(ops: seq<Op>): seq<byte> {
    if ops == [] then []
    else
      var last := ops[|ops| - 1];
      History(ops[..|ops| - 1]) + if last.Append? then last.bytes else []
  }

  /** How long the history was at the last clear. */
  function LastClear(ops: seq<Op>): nat {
    if ops == [] then 0
    else if ops[|ops| - 1].Clear? then |History(ops[..|ops| - 1])|
    else LastClear(ops[..|ops| - 1])
  }

  /** The first offset still retained: behind the last clear, and at most a ring from the end. */
  function Oldest(capacity: nat, ops: seq<Op>): nat {
    if |History(ops)| > capacity && |History(ops)| - capacity > LastClear(ops) then |History(ops)| - capacity
    else LastClear(ops)
  }

  /** The bytes that clears threw away. */
  function Discarded(capacity: nat, ops: seq<Op>): int {
    if ops == [] then 0
    else
      var init := ops[..|ops| - 1];
      Discarded(capacity, init) + if ops[|ops| - 1].Clear? then |History(init)| - Oldest(capacity, init) else 0
  }

  function NewReader(capacity: nat): Reader {
    Reader(Ring(capacity, [], 0, 0, 0), 0, [], [], 0)
  }

  lemma {:induction false} RunOneMore(s: Reader, origin: nat, ops: seq<Op>, op: Op)
    requires Faithful(s, origin)
    ensures Faithful(Run(s, ops), origin)
    ensures Run(s, ops + [op]) == Perform(Run(s, ops), op)
    decreases |ops|
  {
    hide Faithful, Perform;
    StartIsInside(s, origin);
    if ops == [] {
      assert [] + [op] == [op] && [op][1..] == [];
      RunsOut(Perform(s, op));
      RunsOut(s);
      PerformStaysFaithful(s, origin, op);
      StartIsInside(Perform(s, op), origin);
    } else {
      PerformStaysFaithful(s, origin, ops[0]);
      assert (ops + [op])[1..] == ops[1..] + [op];
      RunOneMore(Perform(s, ops[0]), origin, ops[1..], op);
    }
  }

  lemma RunsOut(s: Reader)
    ensures Run(s, []) == s
  {
  }

  /**
    The exact state in every run: the stream is the bytes appended, and the start offset is the later of the
    end of the stream at the last clear and a ring's capacity before its end now; what is missing was
    cleared or else wrapped out.
   */
  lemma {:induction false} RingIsItsHistory(capacity: nat, ops: seq<Op>)
    requires 0 < capacity
    ensures Faithful(Run(NewReader(capacity), ops), 0)
    ensures IsRingOf(Run(NewReader(capacity), ops).ring, capacity, ops)
    decreases |ops|
  {
    var s := NewReader(capacity);
    if ops == [] {
      RunsOut(s);
    } else {
      hide Faithful, IsRingOf, Perform;
      var init, last := ops[..|ops| - 1], ops[|ops| - 1];
      RingIsItsHistory(capacity, init);
      RunOneMore(s, 0, init, last);
      assert init + [last] == ops;
      StartIsInside(Run(s, init), 0);
      PerformStaysFaithful(Run(s, init), 0, last);
      HistoryGoesOn(capacity, init, last, Run(s, init));
    }
  }

  /** The ring that these operations leave, in terms of them alone. */
  predicate IsRingOf(r: Ring, capacity: nat, ops: seq<Op>) {
    && r.capacity == capacity && r.stream == History(ops)
    && r.start == Oldest(capacity, ops) && LastClear(ops) <= |History(ops)|
    && r.cleared == Discarded(capacity, ops) && r.wrapped == Oldest(capacity, ops) - Discarded(capacity, ops)
  }

  lemma HistoryGoesOn(capacity: nat, init: seq<Op>, last: Op, s: Reader)
    requires IsRingOf(s.ring, capacity, init) && s.ring.start <= |s.ring.stream|
    ensures IsRingOf(Perform(s, last).ring, capacity, init + [last])
  {
    assert (init + [last])[..|init|] == init;
    assert last.Append? || History(init + [last]) == History(init);
  }

  /**
    What a read returns after any operations: the bytes of the appended stream from the cursor, or the
    oldest retained offset if that is later, as many as there are up to `max`; with `max` large enough the
    next offset is the end of the stream.
   */
  lemma {:induction false} ReadReturnsAllThereIs(capacity: nat, ops: seq<Op>, cursor: nat, max: nat)
    requires 0 < capacity
    ensures
      var r, stream, oldest := Run(NewReader(capacity), ops).ring, History(ops), Oldest(capacity, ops);
      && r.start <= |r.stream| && oldest <= |stream|
      && var slice := SliceAt(r, cursor, max);
      && (cursor <= |stream| ==>
            var from := if cursor < oldest then oldest else cursor;
            && slice.fromOffset == from && slice.bytesLost == from - cursor
            && |slice.bytes| == (if max < |stream| - from then max else |stream| - from)
            && slice.bytes == stream[from..from + |slice.bytes|] && slice.nextOffset == from + |slice.bytes|
            && (max >= |stream| - from ==> slice.nextOffset == |stream|))
      && (cursor > |stream| ==> slice == RingSlice([], |stream|, |stream|, 0))
  {
    RingIsItsHistory(capacity, ops);
  }

  /** So a reader that follows next_offset reaches the end by one large enough read, and then holds all it was not told it lost. */
  lemma ReaderCatchesUp(capacity: nat, ops: seq<Op>, max: nat)
    requires 0 < capacity && max >= capacity
    ensures
      var s := Run(NewReader(capacity), ops);
      && s.ring.start <= |s.ring.stream|
      && var t := Perform(s, Read(max));
      && t.cursor == |History(ops)| && |t.received| + t.lost == |History(ops)|
      && (KeepsUp(NewReader(capacity), ops + [Read(max)]) ==> t.received == History(ops))
  {
    RingIsItsHistory(capacity, ops);
    RunOneMore(NewReader(capacity), 0, ops, Read(max));
    ReceivesStreamExactlyWhenKeepingUp(NewReader(capacity), 0, ops + [Read(max)]);
    PerformStaysFaithful(Run(NewReader(capacity), ops), 0, Read(max));
  }
}
