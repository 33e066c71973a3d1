/** NMEA 0183 sentence encoding: lead character, body, `*HH` XOR checksum, CRLF. */
module NmeaSentence {
  import opened Bytes

  const DOLLAR: byte := 0x24
  const BANG: byte := 0x21
  const STAR: byte := 0x2A

  // ----- checksum and its hexadecimal form

  function Xor(a: byte, b: byte): byte {
    ((a as bv8) ^ (b as bv8)) as int
  }

  /** XOR of all bytes. */
  function XorChecksum(bytes: seq<byte>): byte {
    if bytes == [] then 0 else Xor(XorChecksum(bytes[..|bytes| - 1]), bytes[|bytes| - 1])
  }

  /** Value of an ASCII hexadecimal digit of either case. */
  function HexValue(c: byte): Option<nat> {
    if 0x30 <= c <= 0x39 then Some(c - 0x30)
    else if 0x41 <= c <= 0x46 then Some(c - 0x41 + 10)
    else if 0x61 <= c <= 0x66 then Some(c - 0x61 + 10)
    else None
  }

  function HexDigit(v: nat): byte
    requires v < 16
  {
    if v < 10 then 0x30 + v else 0x41 + v - 10
  }

  /** The two upper-case digits of a byte. */
  function HexUpper(v: byte): seq<byte> {
    [HexDigit(v / 16), HexDigit(v % 16)]
  }

  function ParseHex(hi: byte, lo: byte): Option<nat> {
    if HexValue(hi).Some? && HexValue(lo).Some?
    then Some(16 * HexValue(hi).value + HexValue(lo).value)
    else None
  }

  lemma HexReadsBack(v: byte)
    ensures ParseHex(HexUpper(v)[0], HexUpper(v)[1]) == Some(v)
  {
    assert HexValue(HexDigit(v / 16)) == Some(v / 16);
    assert HexValue(HexDigit(v % 16)) == Some(v % 16);
  }

  // ----- encoding

  predicate Printable(s: seq<byte>) {
    forall i :: 0 <= i < |s| ==> 0x20 <= s[i] <= 0x7E
  }

  predicate HasLead(payload: seq<byte>) {
    payload != [] && (payload[0] == DOLLAR || payload[0] == BANG)
  }

  /** The checksum value that a body declares in a trailing `*HH`. */
  function Declared(body: seq<byte>): Option<nat> {
    if |body| >= 3 && body[|body| - 3] == STAR then ParseHex(body[|body| - 2], body[|body| - 1]) else None
  }

  /** The body that a payload supplies: without its lead character, if it has one. */
  function Body(payload: seq<byte>): seq<byte> {
    if HasLead(payload) then payload[1..] else payload
  }

  function Lead(payload: seq<byte>): byte {
    if HasLead(payload) then payload[0] else DOLLAR
  }

  /** `None` is an error result: a line break, a non-printable byte or a wrong declared checksum. */
  function Encode(payload: seq<byte>): Option<seq<byte>> {
    if CR in payload || LF in payload then None
    else if !Printable(payload) then None
    else
      var lead, body := Lead(payload), Body(payload);
      match Declared(body)
      case Some(received) =>
        if XorChecksum(body[..|body| - 3]) != received then None
        else Some([lead] + body + [CR, LF])
      case None =>
        Some([lead] + body + [STAR] + HexUpper(XorChecksum(body)) + [CR, LF])
  }

  // ----- what an encoded sentence is

  /** Lead character, printable body ending in a `*HH` that is the XOR of what precedes it, CRLF. */
  predicate IsSentence(s: seq<byte>) {
    && |s| >= 6
    && (s[0] == DOLLAR || s[0] == BANG)
    && s[|s| - 2..] == [CR, LF]
    && Printable(s[..|s| - 2])
    && Declared(s[1..|s| - 2]) == Some(XorChecksum(s[1..|s| - 5]))
  }

  /** Every accepted payload becomes a sentence whose declared checksum is the XOR of its body. */
  lemma EncodedShape(payload: seq<byte>)
    requires Encode(payload).Some?
    ensures IsSentence(Encode(payload).value)
  {
    var lead, body := Lead(payload), Body(payload);
    match Declared(body)
    case Some(_) => BodyWithChecksum(lead, body);
    case None =>
      hide XorChecksum, IsSentence;
      var sum := XorChecksum(body);
      AppendedShape(lead, body, sum);
      assert [lead] + body + [STAR] + HexUpper(sum) + [CR, LF] == [lead] + (body + [STAR] + HexUpper(sum)) + [CR, LF];
  }

  lemma AppendedShape(lead: byte, body: seq<byte>, sum: byte)
    requires (lead == DOLLAR || lead == BANG) && Printable(body) && sum == XorChecksum(body)
    ensures IsSentence([lead] + (body + [STAR] + HexUpper(sum)) + [CR, LF])
  {
    hide XorChecksum, IsSentence;
    var full := body + [STAR] + HexUpper(sum);
    HexReadsBack(sum);
    assert full[..|full| - 3] == body;
    BodyWithChecksum(lead, full);
  }

  lemma BodyWithChecksum(lead: byte, body: seq<byte>)
    requires (lead == DOLLAR || lead == BANG) && Printable(body) && |body| >= 3
    requires Declared(body) == Some(XorChecksum(body[..|body| - 3]))
    ensures IsSentence([lead] + body + [CR, LF])
  {
    var s := [lead] + body + [CR, LF];
    assert s[1..|s| - 2] == body && s[1..|s| - 5] == body[..|body| - 3];
    assert s[..|s| - 2] == [lead] + body;
    assert s[|s| - 2..] == [CR, LF];
  }

  /** A sentence without its CRLF is accepted and encodes to itself. */
  lemma SentencesReencode(s: seq<byte>)
    requires IsSentence(s)
    ensures Encode(s[..|s| - 2]) == Some(s)
  {
    var payload := s[..|s| - 2];
    var body := s[1..|s| - 2];
    assert payload[1..] == body && body[..|body| - 3] == s[1..|s| - 5];
    assert CR !in payload && LF !in payload;
    assert [s[0]] + body + [CR, LF] == s by {
      assert s == s[..|s| - 2] + s[|s| - 2..];
    }
  }

  /** Re-encoding the output of the encoder without its CRLF gives the same output. */
  lemma EncodingIsIdempotent(payload: seq<byte>)
    requires Encode(payload).Some?
    ensures
      var s := Encode(payload).value;
      |s| >= 2 && Encode(s[..|s| - 2]) == Some(s)
  {
    EncodedShape(payload);
    SentencesReencode(Encode(payload).value);
  }

  // ----- which payloads are accepted

  const UPPER: string := "0123456789ABCDEF"
  const LOWER: string := "0123456789abcdef"

  /** `c` writes the hexadecimal digit `v`, in either case. */
  predicate Writes(c: byte, v: nat) {
    v < 16 && (c == UPPER[v] as int || c == LOWER[v] as int)
  }

  /** The body is `core`, a star and two hexadecimal digits that write `v`. */
  predicate Claims(body: seq<byte>, core: seq<byte>, v: nat) {
    && |body| == |core| + 3 && core <= body && body[|core|] == STAR
    && Writes(body[|core| + 1], v / 16) && Writes(body[|core| + 2], v % 16)
  }

  lemma DigitsAreWritten(c: byte, v: nat)
    ensures HexValue(c) == Some(v) <==> Writes(c, v)
  {
    if v < 16 {
      assert UPPER[v] as int == (if v < 10 then 0x30 + v else 0x41 + v - 10) by { UpperDigits(v); }
      assert LOWER[v] as int == (if v < 10 then 0x30 + v else 0x61 + v - 10) by { LowerDigits(v); }
    }
  }

  lemma UpperDigits(v: nat)
    requires v < 16
    ensures UPPER[v] as int == if v < 10 then 0x30 + v else 0x41 + v - 10
  {
    assert UPPER[0] == '0' && UPPER[1] == '1' && UPPER[2] == '2' && UPPER[3] == '3';
    assert UPPER[4] == '4' && UPPER[5] == '5' && UPPER[6] == '6' && UPPER[7] == '7';
    assert UPPER[8] == '8' && UPPER[9] == '9' && UPPER[10] == 'A' && UPPER[11] == 'B';
    assert UPPER[12] == 'C' && UPPER[13] == 'D' && UPPER[14] == 'E' && UPPER[15] == 'F';
  }

  lemma LowerDigits(v: nat)
    requires v < 16
    ensures LOWER[v] as int == if v < 10 then 0x30 + v else 0x61 + v - 10
  {
    assert LOWER[0] == '0' && LOWER[1] == '1' && LOWER[2] == '2' && LOWER[3] == '3';
    assert LOWER[4] == '4' && LOWER[5] == '5' && LOWER[6] == '6' && LOWER[7] == '7';
    assert LOWER[8] == '8' && LOWER[9] == '9' && LOWER[10] == 'a' && LOWER[11] == 'b';
    assert LOWER[12] == 'c' && LOWER[13] == 'd' && LOWER[14] == 'e' && LOWER[15] == 'f';
  }

  /** The parsed declaration is the claimed value: there is at most one, and any digit pair makes one. */
  lemma DeclaredIsClaimed(body: seq<byte>, core: seq<byte>, v: nat)
    ensures Claims(body, core, v) <==> Declared(body) == Some(v) && core == body[..|body| - 3]
  {
    hide ParseHex, Writes;
    if |body| >= 3 {
      PairIsWritten(body[|body| - 2], body[|body| - 1], v);
      assert |core| == |body| - 3 ==> (core <= body <==> core == body[..|body| - 3]);
    }
  }

  lemma PairIsWritten(hi: byte, lo: byte, v: nat)
    ensures ParseHex(hi, lo) == Some(v) <==> Writes(hi, v / 16) && Writes(lo, v % 16)
  {
    hide Writes;
    DigitsAreWritten(hi, v / 16);
    DigitsAreWritten(lo, v % 16);
    forall h: nat, l: nat | HexValue(hi) == Some(h) && HexValue(lo) == Some(l)
      ensures 16 * h + l == v <==> h == v / 16 && l == v % 16
    {
      assert l < 16;
    }
  }

  /** A payload is accepted exactly when it is printable and every checksum its body claims is the XOR. */
  lemma AcceptedExactlyWhen(payload: seq<byte>)
    ensures Encode(payload).Some? <==>
      && Printable(payload)
      && forall core, v: nat :: Claims(Body(payload), core, v) ==> v == XorChecksum(core)
  {
    var body := Body(payload);
    if Printable(payload) {
      assert CR !in payload && LF !in payload;
      forall core, v: nat ensures Claims(body, core, v) <==> Declared(body) == Some(v) && core == body[..|body| - 3] {
        DeclaredIsClaimed(body, core, v);
      }
      assert Declared(body).Some? ==> Claims(body, body[..|body| - 3], Declared(body).value);
    }
  }

  /**
    What acceptance means for the receiver: the output carries exactly the payload's body, with the
    claimed checksum if it claims one and with the XOR in upper-case digits if it does not.
   */
  lemma OutputCarriesBody(payload: seq<byte>)
    requires Encode(payload).Some?
    ensures
      var s := Encode(payload).value;
      var sent := s[1..|s| - 2];
      && |s| >= 3 && s[0] == Lead(payload)
      && ((exists core, v: nat :: Claims(Body(payload), core, v)) ==> sent == Body(payload))
      && ((forall core, v: nat :: !Claims(Body(payload), core, v)) ==>
            sent == Body(payload) + [STAR] + HexUpper(XorChecksum(Body(payload)))
            && Claims(sent, Body(payload), XorChecksum(Body(payload))))
  {
    hide Claims, Declared, HexUpper, XorChecksum;
    var body := Body(payload);
    ClaimsExactlyWhenDeclared(body);
    var s := Encode(payload).value;
    if Declared(body).Some? {
      assert s[1..|s| - 2] == body;
    } else {
      assert s[1..|s| - 2] == body + [STAR] + HexUpper(XorChecksum(body));
      AppendedClaims(body, XorChecksum(body));
    }
  }

  lemma ClaimsExactlyWhenDeclared(body: seq<byte>)
    ensures (exists core, v: nat :: Claims(body, core, v)) <==> Declared(body).Some?
  {
    forall core, v: nat ensures Claims(body, core, v) ==> Declared(body).Some? {
      DeclaredIsClaimed(body, core, v);
    }
    if Declared(body).Some? {
      DeclaredIsClaimed(body, body[..|body| - 3], Declared(body).value);
    }
  }

  lemma AppendedClaims(body: seq<byte>, sum: byte)
    ensures Claims(body + [STAR] + HexUpper(sum), body, sum)
  {
    var sent := body + [STAR] + HexUpper(sum);
    HexReadsBack(sum);
    assert sent[..|sent| - 3] == body;
    DeclaredIsClaimed(sent, body, sum);
  }

  // ----- what the checksum is

  /** The bits of a byte, as masks. */
  predicate IsBit(mask: bv8) {
    mask in {1, 2, 4, 8, 16, 32, 64, 128}
  }

  predicate IsSet(bits: bv8, mask: bv8) {
    bits & mask != 0
  }

  predicate HasBit(b: byte, mask: bv8) {
    IsSet(b as bv8, mask)
  }

  /** How many of the bytes have this bit set. */
  function BitCount(bytes: seq<byte>, mask: bv8): nat {
    if bytes == [] then 0
    else BitCount(bytes[..|bytes| - 1], mask) + if HasBit(bytes[|bytes| - 1], mask) then 1 else 0
  }

  lemma XorBit(a: byte, b: byte, mask: bv8)
    requires IsBit(mask)
    ensures HasBit(Xor(a, b), mask) <==> HasBit(a, mask) != HasBit(b, mask)
  {
    hide Xor, IsBit, IsSet;
    BitsOfXor(a, b);
    OneBit(a as bv8, b as bv8, mask);
  }

  lemma BitsOfXor(a: byte, b: byte)
    ensures Xor(a, b) as bv8 == (a as bv8) ^ (b as bv8)
  {
    ThereAndBack((a as bv8) ^ (b as bv8));
  }

  lemma ThereAndBack(x: bv8)
    ensures (x as int) as bv8 == x
  {
  }

  lemma OneBit(x: bv8, y: bv8, mask: bv8)
    requires IsBit(mask)
    ensures IsSet(x ^ y, mask) <==> IsSet(x, mask) != IsSet(y, mask)
  {
  }

  /** The checksum is the bitwise parity: each of its bits is set exactly when an odd number of bytes have it. */
  lemma {:induction false} ChecksumIsParity(bytes: seq<byte>, mask: bv8)
    requires IsBit(mask)
    ensures HasBit(XorChecksum(bytes), mask) <==> BitCount(bytes, mask) % 2 == 1
    decreases |bytes|
  {
    hide HasBit, Xor, IsBit;
    if bytes == [] {
      ZeroHasNoBit(mask);
    } else {
      var init, last := bytes[..|bytes| - 1], bytes[|bytes| - 1];
      ChecksumIsParity(init, mask);
      XorBit(XorChecksum(init), last, mask);
    }
  }

  lemma ZeroHasNoBit(mask: bv8)
    ensures !HasBit(0, mask)
  {
  }

  /** Bytes followed by their own checksum check to zero, and one byte is its own checksum. */
  lemma {:induction false} ChecksumCancels(bytes: seq<byte>, b: byte)
    ensures XorChecksum(bytes + [XorChecksum(bytes)]) == 0 && XorChecksum([b]) == b
  {
    var sum := XorChecksum(bytes);
    assert (bytes + [sum])[..|bytes|] == bytes && [b][..0] == [];
    assert XorChecksum([]) == 0;
    hide XorChecksum;
    XorItself(sum);
    XorZero(b);
  }

  lemma XorItself(b: byte)
    ensures Xor(b, b) == 0
  {
  }

  lemma XorZero(b: byte)
    ensures Xor(0, b) == b
  {
  }

  /** The order of the bytes does not matter. */
  lemma {:induction false} ChecksumIgnoresOrder(a: seq<byte>, b: seq<byte>, mask: bv8)
    requires multiset(a) == multiset(b) && IsBit(mask)
    ensures HasBit(XorChecksum(a), mask) <==> HasBit(XorChecksum(b), mask)
  {
    hide HasBit, IsBit, XorChecksum;
    ChecksumIsParity(a, mask);
    ChecksumIsParity(b, mask);
    CountIgnoresOrder(a, b, mask);
  }

  lemma {:induction false} CountIgnoresOrder(a: seq<byte>, b: seq<byte>, mask: bv8)
    requires multiset(a) == multiset(b)
    ensures BitCount(a, mask) == BitCount(b, mask)
    decreases |a|
  {
    hide HasBit;
    if a == [] {
      assert |b| == |multiset(b)| == |multiset(a)| == 0;
    } else {
      var last := a[|a| - 1];
      assert a == a[..|a| - 1] + [last];
      assert last in multiset(b);
      var i :| 0 <= i < |b| && b[i] == last;
      assert b == b[..i] + [last] + b[i + 1..];
      assert multiset(b[..i] + b[i + 1..]) == multiset(b) - multiset{last};
      CountIgnoresOrder(a[..|a| - 1], b[..i] + b[i + 1..], mask);
      CountWithout(b, i, mask);
    }
  }

  lemma {:induction false} CountWithout(b: seq<byte>, i: nat, mask: bv8)
    requires i < |b|
    ensures BitCount(b, mask) == BitCount(b[..i] + b[i + 1..], mask) + if HasBit(b[i], mask) then 1 else 0
    decreases |b|
  {
    hide HasBit;
    if i == |b| - 1 {
      assert b[..i] + b[i + 1..] == b[..|b| - 1];
    } else {
      var init := b[..|b| - 1];
      CountWithout(init, i, mask);
      assert (b[..i] + b[i + 1..])[..|b| - 2] == init[..i] + init[i + 1..];
      assert (b[..i] + b[i + 1..])[|b| - 2] == b[|b| - 1];
    }
  }

  // ----- bytes as they are sent

  lemma OneMoreByte(bytes: seq<byte>, b: byte)
    ensures XorChecksum(bytes + [b]) == Xor(XorChecksum(bytes), b)
  {
    assert (bytes + [b])[..|bytes|] == bytes;
  }

  lemma FiveBytes(a: byte, b: byte, c: byte, d: byte, e: byte)
    ensures XorChecksum([a, b, c, d, e]) == Xor(Xor(Xor(Xor(a, b), c), d), e)
  {
    hide XorChecksum, Xor;
    ChecksumCancels([], a);
    OneMoreByte([a], b);
    OneMoreByte([a, b], c);
    OneMoreByte([a, b, c], d);
    OneMoreByte([a, b, c, d], e);
    assert [a] + [b] == [a, b] && [a, b] + [c] == [a, b, c];
    assert [a, b, c] + [d] == [a, b, c, d] && [a, b, c, d] + [e] == [a, b, c, d, e];
  }

  /** A body without `*HH` is sent with the digits of its sum. */
  lemma SentWithSum(lead: byte, body: seq<byte>, sum: byte)
    requires lead == DOLLAR || lead == BANG
    requires Printable(body) && STAR !in body && XorChecksum(body) == sum
    ensures Encode([lead] + body) == Some([lead] + body + [STAR, HexDigit(sum / 16), HexDigit(sum % 16), CR, LF])
  {
    hide XorChecksum, HexDigit;
    assert ([lead] + body)[1..] == body;
    assert Declared(body).None?;
    assert [lead] + body + [STAR] + HexUpper(sum) + [CR, LF]
        == [lead] + body + [STAR, HexDigit(sum / 16), HexDigit(sum % 16), CR, LF];
  }

  /** `$GPRMC` of NMEA 0183 and `!AIVDM` of AIS as sentences. */
  lemma StandardBytes()
    ensures Encode([0x24, 0x47, 0x50, 0x52, 0x4D, 0x43])
         == Some([0x24, 0x47, 0x50, 0x52, 0x4D, 0x43, 0x2A, 0x34, 0x42, 0x0D, 0x0A])
    ensures Encode([0x21, 0x41, 0x49, 0x56, 0x44, 0x4D])
         == Some([0x21, 0x41, 0x49, 0x56, 0x44, 0x4D, 0x2A, 0x35, 0x37, 0x0D, 0x0A])
  {
    hide XorChecksum, Xor, Encode;
    var rmc, vdm := [0x47, 0x50, 0x52, 0x4D, 0x43], [0x41, 0x49, 0x56, 0x44, 0x4D];
    FiveBytes(0x47, 0x50, 0x52, 0x4D, 0x43);
    FiveBytes(0x41, 0x49, 0x56, 0x44, 0x4D);
    Sums();
    SentWithSum(DOLLAR, rmc, 0x4B);
    SentWithSum(BANG, vdm, 0x57);
    assert [DOLLAR] + rmc == [0x24, 0x47, 0x50, 0x52, 0x4D, 0x43];
    assert [BANG] + vdm == [0x21, 0x41, 0x49, 0x56, 0x44, 0x4D];
    assert HexDigit(4) == 0x34 && HexDigit(11) == 0x42 && HexDigit(5) == 0x35 && HexDigit(7) == 0x37;
    assert 0x4B / 16 == 4 && 0x4B % 16 == 11 && 0x57 / 16 == 5 && 0x57 % 16 == 7;
    assert [DOLLAR] + rmc + [STAR, 0x34, 0x42, CR, LF]
        == [0x24, 0x47, 0x50, 0x52, 0x4D, 0x43, 0x2A, 0x34, 0x42, 0x0D, 0x0A];
    assert [BANG] + vdm + [STAR, 0x35, 0x37, CR, LF]
        == [0x21, 0x41, 0x49, 0x56, 0x44, 0x4D, 0x2A, 0x35, 0x37, 0x0D, 0x0A];
  }

  lemma Sums()
    ensures Xor(Xor(Xor(Xor(0x47, 0x50), 0x52), 0x4D), 0x43) == 0x4B
    ensures Xor(Xor(Xor(Xor(0x41, 0x49), 0x56), 0x44), 0x4D) == 0x57
  {
    assert Xor(0x47, 0x50) == 0x17 && Xor(0x17, 0x52) == 0x45 && Xor(0x45, 0x4D) == 0x08 && Xor(0x08, 0x43) == 0x4B;
    assert Xor(0x41, 0x49) == 0x08 && Xor(0x08, 0x56) == 0x5E && Xor(0x5E, 0x44) == 0x1A && Xor(0x1A, 0x4D) == 0x57;
  }
}
