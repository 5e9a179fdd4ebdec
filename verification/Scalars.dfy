/** The byte-level definitions of `Utf8` against the encoding of code points (section 3 of RFC 3629). */
module Scalars {
  import opened Chars
  import opened Utf8

  type Scalar = n: int | 0 <= n < 0xD800 || 0xE000 <= n < 0x11_0000

  function Lead(mark: nat, bits: nat): Byte
    requires mark + bits < 0x100
  {
    mark + bits
  }

  function Tail(n: nat): Byte {
    0x80 + n % 64
  }

  function Encode(n: Scalar): Bytes {
    if n < 0x80 then [Lead(0, n)]
    else if n < 0x800 then [Lead(0xC0, n / 64), Tail(n)]
    else if n < 0x1_0000 then [Lead(0xE0, n / 64 / 64), Tail(n / 64), Tail(n)]
    else [Lead(0xF0, n / 64 / 64 / 64), Tail(n / 64 / 64), Tail(n / 64), Tail(n)]
  }

  function EncodeAll(ns: seq<Scalar>): Bytes {
    if ns == [] then [] else Encode(ns[0]) + EncodeAll(ns[1..])
  }

  function Bits(b: Byte, mark: nat): nat
    requires mark <= b
  {
    var n: int := b;
    n - mark
  }

  /** The code point of the well-formed character at the front of `s`. */
  function Decode(s: Bytes): nat
    requires CharLen(s) > 0
  {
    var n := CharLen(s);
    if n == 1 then s[0]
    else if n == 2 then 64 * Bits(s[0], 0xC0) + Bits(s[1], 0x80)
    else if n == 3 then 64 * (64 * Bits(s[0], 0xE0) + Bits(s[1], 0x80)) + Bits(s[2], 0x80)
    else 64 * (64 * (64 * Bits(s[0], 0xF0) + Bits(s[1], 0x80)) + Bits(s[2], 0x80)) + Bits(s[3], 0x80)
  }

  /** An encoded code point is one well-formed character, wherever it stands. */
  lemma EncodedChar(n: Scalar, rest: Bytes)
    ensures CharLen(Encode(n) + rest) == |Encode(n)|
  {
    var s := Encode(n) + rest;
    assert forall k :: 0 <= k < |Encode(n)| ==> s[k] == Encode(n)[k];
  }

  lemma SixBits(a: nat, b: Byte)
    requires IsContinuation(b)
    ensures (64 * a + Bits(b, 0x80)) / 64 == a && Tail(64 * a + Bits(b, 0x80)) == b
  {
  }

  lemma TwoDecodes(s: Bytes)
    requires CharLen(s) == 2
    ensures 0x80 <= Decode(s) < 0x800 && Encode(Decode(s)) == s[..2]
  {
    SixBits(Bits(s[0], 0xC0), s[1]);
  }

  lemma ThreeDecodes(s: Bytes)
    requires CharLen(s) == 3
    ensures 0x800 <= Decode(s) < 0x1_0000 && (Decode(s) < 0xD800 || Decode(s) >= 0xE000)
    ensures Encode(Decode(s)) == s[..3]
  {
    var a := 64 * Bits(s[0], 0xE0) + Bits(s[1], 0x80);
    SixBits(Bits(s[0], 0xE0), s[1]);
    SixBits(a, s[2]);
  }

  lemma FourDecodes(s: Bytes)
    requires CharLen(s) == 4
    ensures 0x1_0000 <= Decode(s) < 0x11_0000 && Encode(Decode(s)) == s[..4]
  {
    var a := 64 * Bits(s[0], 0xF0) + Bits(s[1], 0x80);
    var b := 64 * a + Bits(s[2], 0x80);
    SixBits(Bits(s[0], 0xF0), s[1]);
    SixBits(a, s[2]);
    SixBits(b, s[3]);
  }

  /** Every well-formed character encodes a code point. */
  lemma CharDecodes(s: Bytes)
    requires CharLen(s) > 0
    ensures Decode(s) < 0xD800 || 0xE000 <= Decode(s) < 0x11_0000
    ensures Encode(Decode(s)) == s[..CharLen(s)]
  {
    if CharLen(s) == 2 {
      TwoDecodes(s);
    } else if CharLen(s) == 3 {
      ThreeDecodes(s);
    } else if CharLen(s) == 4 {
      FourDecodes(s);
    }
  }

  lemma FirstDecodes(s: Bytes) returns (n: Scalar, rest: Bytes)
    requires Valid(s) && s != []
    ensures s == Encode(n) + rest && Valid(rest) && |rest| < |s|
  {
    CharDecodes(s);
    n, rest := Decode(s), s[CharLen(s)..];
    assert s == s[..CharLen(s)] + rest;
  }

  /** Well-formed text is exactly the encodings of code point sequences. */
  lemma {:induction false} ValidDecodes(s: Bytes) returns (ns: seq<Scalar>)
    requires Valid(s)
    ensures s == EncodeAll(ns)
    decreases |s|
  {
    if s == [] {
      return [];
    }
    var n, rest := FirstDecodes(s);
    ns := ValidDecodes(rest);
    EncodeCons(n, ns);
    ns := [n] + ns;
  }

  lemma EncodeCons(n: Scalar, ns: seq<Scalar>)
    ensures EncodeAll([n] + ns) == Encode(n) + EncodeAll(ns)
  {
    assert ([n] + ns)[1..] == ns;
  }

  lemma {:induction false} EncodedValid(ns: seq<Scalar>)
    ensures Valid(EncodeAll(ns))
  {
    if ns != [] {
      EncodedValid(ns[1..]);
      EncodedChar(ns[0], EncodeAll(ns[1..]));
      assert EncodeAll(ns)[|Encode(ns[0])|..] == EncodeAll(ns[1..]);
    }
  }

  /** The bytes that count as whitespace are those of the White_Space code points. */
  lemma WhitespaceExactly(n: Scalar, rest: Bytes)
    ensures IsWhitespaceAt(Encode(n) + rest, 0) <==> IsWhiteSpace(n)
  {
    var s := Encode(n) + rest;
    assert forall k :: 0 <= k < |Encode(n)| ==> s[k] == Encode(n)[k];
  }
}
