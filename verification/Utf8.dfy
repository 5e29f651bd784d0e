/**
 UTF-8 as Go's buffers write it and as utf8.DecodeRune reads it: a malformed byte becomes U+FFFD.
 */
module Utf8 {
  import opened Basics

  const REPLACEMENT := '\U{FFFD}'

  function EncodeChar(c: char): (b: Bytes)
    ensures 1 <= |b| <= 4
  {
    var n := c as int;
    if n < 0x80 then [n]
    else if n < 0x800 then [0xC0 + n / 64, 0x80 + n % 64]
    else if n < 0x1_0000 then [0xE0 + n / 4096, 0x80 + n / 64 % 64, 0x80 + n % 64]
    else [0xF0 + n / 262144, 0x80 + n / 4096 % 64, 0x80 + n / 64 % 64, 0x80 + n % 64]
  }

  function Encode(s: string): Bytes {
    if s == "" then [] else EncodeChar(s[0]) + Encode(s[1..])
  }

  predicate Continues(b: Bytes, i: nat) {
    i < |b| && 0x80 <= b[i] <= 0xBF
  }

  // The payload bits of the continuation byte at i.
  function Tail(b: Bytes, i: nat): nat
    requires Continues(b, i)
  {
    b[i] as int - 0x80
  }

  predicate IsScalar(n: int) {
    0 <= n < 0xD800 || 0xE000 <= n < 0x11_0000
  }

  // The first rune of b and its width; overlong forms, surrogates and truncated forms are malformed.
  function DecodeRune(b: Bytes): (r: (char, nat))
    requires |b| > 0
    ensures 1 <= r.1 <= |b|
  {
    if b[0] < 0x80 then (b[0] as char, 1)
    else if 0xC2 <= b[0] <= 0xDF && Continues(b, 1) then
      (((b[0] as int - 0xC0) * 64 + Tail(b, 1)) as char, 2)
    else if 0xE0 <= b[0] <= 0xEF && Continues(b, 1) && Continues(b, 2) then
      var n := (b[0] as int - 0xE0) * 4096 + Tail(b, 1) * 64 + Tail(b, 2);
      if n >= 0x800 && IsScalar(n) then (n as char, 3) else (REPLACEMENT, 1)
    else if 0xF0 <= b[0] <= 0xF4 && Continues(b, 1) && Continues(b, 2) && Continues(b, 3) then
      var n := (b[0] as int - 0xF0) * 262144 + Tail(b, 1) * 4096 + Tail(b, 2) * 64 + Tail(b, 3);
      if n >= 0x1_0000 && IsScalar(n) then (n as char, 4) else (REPLACEMENT, 1)
    else (REPLACEMENT, 1)
  }

  function Decode(b: Bytes): string {
    if b == [] then "" else
      var (c, n) := DecodeRune(b);
      [c] + Decode(b[n..])
  }

  lemma {:induction false} Places(n: nat)
    ensures n / 4096 == n / 64 / 64 && n / 262144 == n / 4096 / 64
    ensures n == n / 64 * 64 + n % 64
    ensures n / 64 == n / 4096 * 64 + n / 64 % 64
    ensures n / 4096 == n / 262144 * 64 + n / 4096 % 64
  {
  }

  lemma {:induction false} DecodeRuneOfEncode(c: char, rest: Bytes)
    ensures DecodeRune(EncodeChar(c) + rest) == (c, |EncodeChar(c)|)
  {
    var n, b := c as int, EncodeChar(c) + rest;
    Places(n);
    if n >= 0x1_0000 {
      assert [b[0], b[1], b[2], b[3]] == EncodeChar(c);
    } else if n >= 0x800 {
      assert [b[0], b[1], b[2]] == EncodeChar(c);
    } else if n >= 0x80 {
      assert [b[0], b[1]] == EncodeChar(c);
    }
  }

  function Bits(b: Bytes, i: nat, lead: int): int
    requires i < |b|
  {
    b[i] as int - lead
  }

  // The bits of the encoding, by length: the ranges and the leading bits of RFC 3629, section 3.
  lemma {:induction false} EncodedBits(c: char)
    ensures
      var (b, n) := (EncodeChar(c), c as int);
      && (|b| == 1 <==> n < 0x80) && (|b| <= 2 <==> n < 0x800) && (|b| <= 3 <==> n < 0x1_0000)
      && (forall i | 1 <= i < |b| :: 0x80 <= b[i] < 0xC0)
      && (|b| == 1 ==> n == b[0] as int)
      && (|b| == 2 ==> 0xC0 <= b[0] < 0xE0 && n == Bits(b, 0, 0xC0) * 64 + Bits(b, 1, 0x80))
      && (|b| == 3 ==>
            && 0xE0 <= b[0] < 0xF0
            && n == (Bits(b, 0, 0xE0) * 64 + Bits(b, 1, 0x80)) * 64 + Bits(b, 2, 0x80))
      && (|b| == 4 ==>
            && 0xF0 <= b[0] < 0xF8
            && n == ((Bits(b, 0, 0xF0) * 64 + Bits(b, 1, 0x80)) * 64 + Bits(b, 2, 0x80)) * 64 + Bits(b, 3, 0x80))
  {
    Places(c as int);
  }

  // The front of b is read as a character exactly if it is that character's encoding; if it is no
  // character's, one byte is replaced.
  lemma {:induction false} DecodeRuneExactly(b: Bytes, c: char, n: nat)
    requires b != []
    ensures DecodeRune(b) == (c, n) <==>
      || EncodedAt(b, c, n)
      || (c == '\U{FFFD}' && n == 1 && forall d, m: nat :: !EncodedAt(b, d, m))
  {
    forall d, m: nat | EncodedAt(b, d, m) ensures DecodeRune(b) == (d, m) {
      assert b == EncodeChar(d) + b[m..];
      DecodeRuneOfEncode(d, b[m..]);
    }
    if DecodeRune(b) != (REPLACEMENT, 1) {
      DecodedIsEncoded(b);
    }
  }

  predicate EncodedAt(b: Bytes, c: char, n: nat) {
    n == |EncodeChar(c)| <= |b| && b[..n] == EncodeChar(c)
  }

  lemma {:induction false} LastBits(q: nat, r: nat)
    requires r < 64
    ensures (q * 64 + r) / 64 == q && (q * 64 + r) % 64 == r
  {
  }

  lemma {:induction false} TwoBytes(x: nat, y: nat)
    requires 2 <= x < 32 && y < 64
    ensures EncodeChar((x * 64 + y) as char) == [0xC0 + x, 0x80 + y]
  {
    LastBits(x, y);
  }

  lemma {:induction false} ThreeBytes(x: nat, y: nat, z: nat)
    requires x < 16 && y < 64 && z < 64 && IsScalar((x * 64 + y) * 64 + z) && (x * 64 + y) * 64 + z >= 0x800
    ensures EncodeChar(((x * 64 + y) * 64 + z) as char) == [0xE0 + x, 0x80 + y, 0x80 + z]
  {
    LastBits(x * 64 + y, z);
    LastBits(x, y);
    Places((x * 64 + y) * 64 + z);
  }

  lemma {:induction false} FourBytes(x: nat, y: nat, z: nat, w: nat)
    requires x < 5 && y < 64 && z < 64 && w < 64
    requires 0x1_0000 <= ((x * 64 + y) * 64 + z) * 64 + w < 0x11_0000
    ensures EncodeChar((((x * 64 + y) * 64 + z) * 64 + w) as char) == [0xF0 + x, 0x80 + y, 0x80 + z, 0x80 + w]
  {
    LastBits((x * 64 + y) * 64 + z, w);
    LastBits(x * 64 + y, z);
    LastBits(x, y);
    Places(((x * 64 + y) * 64 + z) * 64 + w);
  }

  lemma {:induction false} DecodedIsEncoded(b: Bytes)
    requires b != [] && DecodeRune(b) != (REPLACEMENT, 1)
    ensures EncodedAt(b, DecodeRune(b).0, DecodeRune(b).1)
  {
    var n := DecodeRune(b).1;
    if n == 2 {
      TwoBytes(Bits(b, 0, 0xC0), Tail(b, 1));
    } else if n == 3 {
      ThreeBytes(Bits(b, 0, 0xE0), Tail(b, 1), Tail(b, 2));
    } else if n == 4 {
      FourBytes(Bits(b, 0, 0xF0), Tail(b, 1), Tail(b, 2), Tail(b, 3));
    }
  }

  lemma {:induction false} DecodeEncode(s: string)
    ensures Decode(Encode(s)) == s
  {
    if s != "" {
      DecodeRuneOfEncode(s[0], Encode(s[1..]));
      assert Encode(s)[|EncodeChar(s[0])|..] == Encode(s[1..]);
      DecodeEncode(s[1..]);
    }
  }

  lemma {:induction false} EncodeInjective(s: string, t: string)
    requires Encode(s) == Encode(t)
    ensures s == t
  {
    DecodeEncode(s);
    DecodeEncode(t);
  }

  lemma {:induction false} EncodeConcat(s: string, t: string)
    ensures Encode(s + t) == Encode(s) + Encode(t)
  {
    if s == "" {
      assert s + t == t;
    } else {
      assert (s + t)[1..] == s[1..] + t;
      EncodeConcat(s[1..], t);
    }
  }
}
