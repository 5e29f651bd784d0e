/**
 The grammar of JSON texts, RFC 8259, as a relation between texts and values that mentions no parser. The
 reference parser reads exactly the texts of a value, so what is proved of canonical bytes holds for every
 way of writing a document.
 */
module Grammar {
  import opened Basics
  import opened Decimal
  import opened Json
  import opened JsonText
  import opened Jcs
  import opened Canonical
  import Utf8

  predicate White(s: string) {
    forall c | c in s :: c == ' ' || c == '\t' || c == '\n' || c == '\r'
  }

  /* Numbers, section 6 */

  predicate DigitRun(s: string) {
    s != "" && forall c | c in s :: '0' <= c <= '9'
  }

  predicate IntegerPart(s: string) {
    DigitRun(s) && (|s| > 1 ==> s[0] != '0')
  }

  predicate FractionPart(s: string) {
    s == "" || (s[0] == '.' && DigitRun(s[1..]))
  }

  predicate ExponentPart(s: string) {
    || s == ""
    || ((s[0] == 'e' || s[0] == 'E')
        && (DigitRun(s[1..]) || (|s| > 1 && (s[1] == '+' || s[1] == '-') && DigitRun(s[2..]))))
  }

  predicate NumberParts(s: string, sign: string, i: string, f: string, e: string) {
    && s == sign + (i + (f + e))
    && (sign == "" || sign == "-") && IntegerPart(i) && FractionPart(f) && ExponentPart(e)
  }

  ghost predicate IsNumber(s: string) {
    exists sign, i, f, e :: NumberParts(s, sign, i, f, e)
  }

  lemma {:induction false} DigitsCounted(s: string)
    ensures forall k | 0 <= k < DigitsLength(s) :: IsDigit(s[k])
    ensures DigitsLength(s) > 0 ==> DigitRun(s[..DigitsLength(s)])
  {
    if s != "" && IsDigit(s[0]) {
      DigitsCounted(s[1..]);
      assert forall k | 1 <= k < DigitsLength(s) :: s[k] == s[1..][k - 1];
    }
  }

  lemma {:induction false} RunIsCounted(s: string)
    requires DigitRun(s)
    ensures AllDigits(s) && DigitsLength(s) == |s|
  {
    assert forall k | 0 <= k < |s| :: s[k] in s;
    DigitsLengthAll(s);
  }

  // The front of s that is read as each part is such a part.
  lemma {:induction false} FractionSound(s: string) returns (f: string, rest: string)
    requires FractionLength(s).Some?
    ensures s == f + rest && FractionPart(f) && |f| == FractionLength(s).value
  {
    var n := FractionLength(s).value;
    f, rest := s[..n], s[n..];
    if n > 0 {
      DigitsCounted(s[1..]);
      assert f[1..] == s[1..][..n - 1];
    }
  }

  lemma {:induction false} ExponentSound(s: string) returns (e: string, rest: string)
    requires ExponentLength(s).Some?
    ensures s == e + rest && ExponentPart(e) && |e| == ExponentLength(s).value
  {
    var n := ExponentLength(s).value;
    e, rest := s[..n], s[n..];
    if n > 0 {
      var i := if |s| > 1 && (s[1] == '+' || s[1] == '-') then 2 else 1;
      DigitsCounted(s[i..]);
      assert e[i..] == s[i..][..n - i];
    }
  }

  lemma {:induction false} IntegerSound(s: string) returns (sign: string, i: string, rest: string)
    requires IntegerLength(s).Some?
    ensures s == sign + (i + rest) && (sign == "" || sign == "-") && IntegerPart(i)
    ensures |sign| + |i| == IntegerLength(s).value
  {
    var n := IntegerLength(s).value;
    var k := if s[0] == '-' then 1 else 0;
    sign, i, rest := s[..k], s[k..n], s[n..];
    DigitsCounted(s[k..]);
    assert s[k] != '0' ==> i == s[k..][..n - k];
  }

  lemma {:induction false} DropTwo(sign: string, i: string, rest: string)
    ensures (sign + (i + rest))[|sign| + |i|..] == rest
  {
  }

  lemma {:induction false} TakeParts(sign: string, i: string, f: string, e: string, rest: string)
    ensures sign + (i + (f + (e + rest))) == sign + (i + (f + e)) + rest
  {
    Assoc(f, e, rest);
    Assoc(i, f + e, rest);
    Assoc(sign, i + (f + e), rest);
  }

  lemma {:induction false} PartsMakeNumber(sign: string, i: string, f: string, e: string)
    requires (sign == "" || sign == "-") && IntegerPart(i) && FractionPart(f) && ExponentPart(e)
    ensures IsNumber(sign + (i + (f + e)))
  {
    assert NumberParts(sign + (i + (f + e)), sign, i, f, e);
  }

  // The front of s that is read as fraction and exponent is such.
  lemma {:induction false} DecimalsSound(s: string) returns (f: string, e: string, rest: string)
    requires DecimalsLength(s).Some?
    ensures s == f + (e + rest) && FractionPart(f) && ExponentPart(e) && |f| + |e| == DecimalsLength(s).value
  {
    var after;
    f, after := FractionSound(s);
    DropFront(f, after);
    e, rest := ExponentSound(after);
  }

  lemma {:induction false} NumberLengths(s: string, n: nat, rest: string)
    requires IntegerLength(s) == Some(n) && s[n..] == rest && NumberLength(s).Some?
    ensures DecimalsLength(rest).Some? && NumberLength(s).value == n + DecimalsLength(rest).value
  {
  }

  // The front of s that is read as a number is one.
  lemma {:induction false} NumberIsSound(s: string) returns (t: string, rest: string)
    requires NumberLength(s).Some?
    ensures s == t + rest && IsNumber(t) && |t| == NumberLength(s).value
  {
    var sign, i, decimals := IntegerSound(s);
    DropTwo(sign, i, decimals);
    NumberLengths(s, |sign| + |i|, decimals);
    var f, e, last := DecimalsSound(decimals);
    t, rest := sign + (i + (f + e)), last;
    TakeParts(sign, i, f, e, last);
    PartsMakeNumber(sign, i, f, e);
  }

  lemma {:induction false} IntegerIsCounted(sign: string, i: string, rest: string)
    requires (sign == "" || sign == "-") && IntegerPart(i) && (rest == "" || !IsDigit(rest[0]))
    ensures IntegerLength(sign + (i + rest)) == Some(|sign| + |i|)
  {
    var s := sign + i;
    RunIsCounted(i);
    assert i[0] in i;
    assert s[|sign|..] == i;
    IntegerLengthAppend(s, rest);
    Assoc(sign, i, rest);
  }

  lemma {:induction false} FractionIsCounted(f: string, rest: string)
    requires FractionPart(f) && (rest == "" || (!IsDigit(rest[0]) && rest[0] != '.'))
    ensures FractionLength(f + rest) == Some(|f|)
  {
    if f == "" {
      assert f + rest == rest;
    } else {
      RunIsCounted(f[1..]);
      assert (f + rest)[1..] == f[1..] + rest;
      DigitsLengthAppend(f[1..], rest);
    }
  }

  lemma {:induction false} ExponentIsCounted(e: string)
    requires ExponentPart(e)
    ensures ExponentLength(e) == Some(|e|)
  {
    if e != "" {
      var i := if |e| > 1 && (e[1] == '+' || e[1] == '-') then 2 else 1;
      assert e[1..] != "" ==> e[1..][0] in e[1..];
      RunIsCounted(e[i..]);
    }
  }

  lemma {:induction false} RestStarts(f: string, e: string)
    requires FractionPart(f) && ExponentPart(e)
    ensures f + e == "" || !IsDigit((f + e)[0])
    ensures e == "" || (!IsDigit(e[0]) && e[0] != '.')
  {
  }

  lemma {:induction false} DecimalsAreRead(f: string, e: string)
    requires FractionPart(f) && ExponentPart(e)
    ensures DecimalsLength(f + e) == Some(|f| + |e|)
  {
    RestStarts(f, e);
    FractionIsCounted(f, e);
    DropFront(f, e);
    ExponentIsCounted(e);
  }

  lemma {:induction false} ReadWhole(s: string, n: nat, rest: string)
    requires IntegerLength(s) == Some(n) && s[n..] == rest && DecimalsLength(rest) == Some(|rest|)
    ensures ValidNumber(s)
  {
  }

  lemma {:induction false} NumberIsComplete(s: string)
    requires IsNumber(s)
    ensures ValidNumber(s)
  {
    var sign, i, f, e :| NumberParts(s, sign, i, f, e);
    var n, rest := |sign| + |i|, f + e;
    assert DecimalsLength(rest) == Some(|rest|) by {
      DecimalsAreRead(f, e);
    }
    assert IntegerLength(s) == Some(n) by {
      RestStarts(f, e);
      IntegerIsCounted(sign, i, rest);
    }
    assert s[n..] == rest by {
      DropTwo(sign, i, rest);
    }
    ReadWhole(s, n, rest);
  }

  // The numbers of the grammar are those that are read whole.
  lemma {:induction false} NumbersExactly(s: string)
    ensures ValidNumber(s) <==> IsNumber(s)
  {
    if ValidNumber(s) {
      var t, rest := NumberIsSound(s);
      assert rest == "" && t + rest == t;
    }
    if IsNumber(s) {
      NumberIsComplete(s);
    }
  }

  /* Strings, section 7 */

  predicate HexIs(c: char, d: nat) {
    || ('0' <= c <= '9' && d == c as int - 0x30)
    || ('a' <= c <= 'f' && d == c as int - 0x61 + 10)
    || ('A' <= c <= 'F' && d == c as int - 0x41 + 10)
  }

  predicate Hex4Of(t: string, a: nat, b: nat, c: nat, d: nat, u: nat)
    requires |t| >= 4
  {
    HexIs(t[0], a) && HexIs(t[1], b) && HexIs(t[2], c) && HexIs(t[3], d) && u == ((a * 16 + b) * 16 + c) * 16 + d
  }

  ghost predicate HexDigitsOf(t: string, u: nat)
    requires |t| >= 4
  {
    exists a: nat, b: nat, c: nat, d: nat :: Hex4Of(t, a, b, c, d, u)
  }

  // A backslash, the letter u and the four digits of u stand at i.
  ghost predicate UnitAt(s: string, i: nat, u: nat) {
    i + 6 <= |s| && s[i] == '\\' && s[i + 1] == 'u' && HexDigitsOf(s[i + 2..], u)
  }

  predicate ShortEscape(e: char, c: char) {
    || (c == e && (e == '"' || e == '\\' || e == '/'))
    || (e == 'b' && c == '\U{8}') || (e == 'f' && c == '\U{C}')
    || (e == 'n' && c == '\n') || (e == 'r' && c == '\r') || (e == 't' && c == '\t')
  }

  ghost predicate PairAt(s: string, u: nat, l: nat) {
    UnitAt(s, 0, u) && UnitAt(s, 6, l) && 0xD800 <= u < 0xDC00 <= l < 0xE000
  }

  function PairChar(u: nat, l: nat): char
    requires 0xD800 <= u < 0xDC00 <= l < 0xE000
  {
    (0x1_0000 + (u - 0xD800) * 0x400 + (l - 0xDC00)) as char
  }

  // The first n characters of s stand for c. A surrogate that is not one of a pair stands for U+FFFD.
  ghost predicate Piece(s: string, n: nat, c: char) {
    || (n == 1 && s != "" && c == s[0] && c >= ' ' && c != '"' && c != '\\')
    || (n == 2 && |s| >= 2 && s[0] == '\\' && ShortEscape(s[1], c))
    || (n == 6 && exists u: nat :: UnitAt(s, 0, u) && !(0xD800 <= u < 0xE000) && c as int == u)
    || (n == 12 && exists u: nat, l: nat :: PairAt(s, u, l) && c == PairChar(u, l))
    || (n == 6 && c == '\U{FFFD}' && (exists u: nat :: UnitAt(s, 0, u) && 0xD800 <= u < 0xE000)
        && !exists u: nat, l: nat :: PairAt(s, u, l))
  }

  // What stands between the quotes, piece by piece.
  ghost predicate IsBody(s: string, text: string)
    decreases |s|
  {
    if text == "" then s == ""
    else exists n: nat :: 0 < n <= |s| && Piece(s, n, text[0]) && IsBody(s[n..], text[1..])
  }

  lemma {:induction false} HexIsValue(c: char, d: nat)
    ensures HexValue(c) == Some(d) <==> HexIs(c, d)
  {
  }

  lemma {:induction false} Hex4Exactly(t: string, u: nat)
    requires |t| >= 4
    ensures Hex4(t) == Some(u) <==> HexDigitsOf(t, u)
  {
    if a: nat, b: nat, c: nat, d: nat :| Hex4Of(t, a, b, c, d, u) {
      HexIsValue(t[0], a);
      HexIsValue(t[1], b);
      HexIsValue(t[2], c);
      HexIsValue(t[3], d);
    }
    if Hex4(t) == Some(u) {
      var (a, b) := (HexValue(t[0]).value, HexValue(t[1]).value);
      var (c, d) := (HexValue(t[2]).value, HexValue(t[3]).value);
      HexIsValue(t[0], a);
      HexIsValue(t[1], b);
      HexIsValue(t[2], c);
      HexIsValue(t[3], d);
      assert Hex4Of(t, a, b, c, d, u);
    }
  }

  lemma {:induction false} UnitIsHex4(s: string, i: nat, u: nat)
    ensures UnitAt(s, i, u) <==> i + 6 <= |s| && s[i] == '\\' && s[i + 1] == 'u' && Hex4(s[i + 2..]) == Some(u)
  {
    if i + 6 <= |s| {
      Hex4Exactly(s[i + 2..], u);
    }
  }

  // Nothing behind the end of a body makes an escape at its end a pair: a quote is no part of one.
  lemma {:induction false} UnitBeyond(body: string, rest: string, i: nat, u: nat)
    requires i <= |body|
    ensures UnitAt(body + ("\"" + rest), i, u) <==> UnitAt(body, i, u)
  {
    var s := body + ("\"" + rest);
    UnitIsHex4(s, i, u);
    UnitIsHex4(body, i, u);
    assert s[|body|] == '"';
    if i + 6 <= |s| {
      assert forall k | 0 <= k < |body| :: s[k] == body[k];
      if i + 6 <= |body| {
        Hex4Same(s[i + 2..], body[i + 2..]);
      }
    }
  }

  lemma {:induction false} Hex4Same(s: string, t: string)
    requires |s| >= 4 && |t| >= 4 && s[0] == t[0] && s[1] == t[1] && s[2] == t[2] && s[3] == t[3]
    ensures Hex4(s) == Hex4(t)
  {
  }

  // What is read of a unit: the character, or a pair of surrogates, or a replacement.
  lemma {:induction false} UnitUnescaped(s: string, u: nat)
    requires UnitAt(s, 0, u)
    ensures |s| >= 6 && Hex4(s[2..]) == Some(u) && Unescape(s) == UnescapeUnit(s)
  {
    UnitIsHex4(s, 0, u);
  }

  lemma {:induction false} PlainRead(s: string, u: nat)
    requires UnitAt(s, 0, u) && !(0xD800 <= u < 0xE000)
    ensures u < 0x11_0000 && Unescape(s) == Some((u as char, s[6..]))
  {
    UnitUnescaped(s, u);
  }

  lemma {:induction false} LowRead(s: string, u: nat)
    requires |s| >= 6 && Hex4(s[2..]) == Some(u) && 0xD800 <= u < 0xE000
    ensures
      var low := if |s| >= 8 && s[6] == '\\' && s[7] == 'u' then Hex4(s[8..]) else None;
      UnescapeUnit(s) ==
        if u < 0xDC00 && low.Some? && 0xDC00 <= low.value < 0xE000 then Some((PairChar(u, low.value), s[12..]))
        else Some(('\U{FFFD}', s[6..]))
  {
  }

  lemma {:induction false} PairRead(s: string, u: nat, l: nat)
    requires PairAt(s, u, l)
    ensures Unescape(s) == Some((PairChar(u, l), s[12..]))
  {
    UnitUnescaped(s, u);
    UnitIsHex4(s, 6, l);
    LowRead(s, u);
  }

  lemma {:induction false} LoneRead(s: string, u: nat)
    requires UnitAt(s, 0, u) && 0xD800 <= u < 0xE000 && !exists l: nat :: PairAt(s, u, l)
    ensures Unescape(s) == Some(('\U{FFFD}', s[6..]))
  {
    UnitUnescaped(s, u);
    LowRead(s, u);
    if |s| >= 8 && s[6] == '\\' && s[7] == 'u' && Hex4(s[8..]).Some? {
      var l := Hex4(s[8..]).value;
      UnitIsHex4(s, 6, l);
      assert !PairAt(s, u, l);
    }
  }

  lemma {:induction false} PairBeyond(body: string, rest: string, u: nat, l: nat)
    ensures |body| >= 6 ==> (PairAt(body + ("\"" + rest), u, l) <==> PairAt(body, u, l))
  {
    if |body| >= 6 {
      UnitBeyond(body, rest, 0, u);
      UnitBeyond(body, rest, 6, l);
    }
  }

  // A piece is read as its character, whatever stands behind the closing quote.
  lemma {:induction false} PieceIsRead(body: string, rest: string, n: nat, c: char)
    requires Piece(body, n, c)
    ensures
      var s := body + ("\"" + rest);
      n <= |body| && s[0] != '"' && Unescape(s) == Some((c, s[n..]))
  {
    var s := body + ("\"" + rest);
    if n == 6 {
      var u: nat :| UnitAt(body, 0, u);
      UnitBeyond(body, rest, 0, u);
      forall u': nat, l: nat ensures PairAt(s, u', l) <==> PairAt(body, u', l) {
        PairBeyond(body, rest, u', l);
      }
      SixRead(body, s, u, c);
    } else if n == 12 {
      var u: nat, l: nat :| PairAt(body, u, l) && c == PairChar(u, l);
      PairBeyond(body, rest, u, l);
      PairRead(s, u, l);
    }
  }

  lemma {:induction false} SixRead(body: string, s: string, u: nat, c: char)
    requires Piece(body, 6, c) && UnitAt(body, 0, u) && UnitAt(s, 0, u)
    requires forall u': nat, l: nat :: PairAt(s, u', l) <==> PairAt(body, u', l)
    ensures Unescape(s) == Some((c, s[6..]))
  {
    forall u': nat | UnitAt(body, 0, u') ensures u' == u {
      UnitIsHex4(body, 0, u);
      UnitIsHex4(body, 0, u');
    }
    if 0xD800 <= u < 0xE000 {
      LoneRead(s, u);
    } else {
      PlainRead(s, u);
    }
  }

  lemma {:induction false} UnitIsPiece(body: string, rest: string, u: nat, n: nat, c: char)
    requires n <= |body| && UnitAt(body + ("\"" + rest), 0, u)
    requires
      var s := body + ("\"" + rest);
      Unescape(s) == Some((c, s[n..]))
    ensures Piece(body, n, c)
  {
    var s := body + ("\"" + rest);
    UnitBeyond(body, rest, 0, u);
    if !(0xD800 <= u < 0xE000) {
      PlainRead(s, u);
      assert |s[6..]| == |s[n..]|;
    } else if l: nat :| PairAt(s, u, l) {
      PairRead(s, u, l);
      assert |s[12..]| == |s[n..]|;
      PairBeyond(body, rest, u, l);
    } else {
      LoneRead(s, u);
      assert |s[6..]| == |s[n..]|;
      LoneIsPiece(body, rest, u);
    }
  }

  lemma {:induction false} LoneIsPiece(body: string, rest: string, u: nat)
    requires UnitAt(body, 0, u) && 0xD800 <= u < 0xE000
    requires !exists l: nat :: PairAt(body + ("\"" + rest), u, l)
    ensures Piece(body, 6, '\U{FFFD}')
  {
    forall u': nat, l: nat ensures !PairAt(body, u', l) {
      UnitIsHex4(body, 0, u);
      UnitIsHex4(body, 0, u');
      PairBeyond(body, rest, u, l);
    }
  }

  // What is read as one character is a piece.
  lemma {:induction false} ReadIsPiece(body: string, rest: string, n: nat, c: char)
    requires body != "" && n <= |body| && body[0] != '"'
    requires
      var s := body + ("\"" + rest);
      Unescape(s) == Some((c, s[n..]))
    ensures Piece(body, n, c)
  {
    var s := body + ("\"" + rest);
    if s[0] != '\\' {
      assert |s[1..]| == |s[n..]|;
    } else if s[1] != 'u' {
      assert |s[2..]| == |s[n..]|;
    } else {
      var u := Hex4(s[2..]).value;
      UnitIsHex4(s, 0, u);
      UnitIsPiece(body, rest, u, n, c);
    }
  }

  lemma {:induction false} OneMoreRead(s: string, c: char, r: string, text: string, rest: string)
    requires s != "" && s[0] != '"' && Unescape(s) == Some((c, r)) && ParseString(r) == Some((text, rest))
    ensures ParseString(s) == Some(([c] + text, rest))
  {
  }

  ghost predicate Continued(body: string, n: nat, text: string) {
    text != "" && 0 < n <= |body| && Piece(body, n, text[0]) && IsBody(body[n..], text[1..])
  }

  lemma {:induction false} BodyContinues(body: string, text: string) returns (n: nat)
    requires IsBody(body, text) && text != ""
    ensures Continued(body, n, text)
  {
    n :| 0 < n <= |body| && Piece(body, n, text[0]) && IsBody(body[n..], text[1..]);
  }

  lemma {:induction false} DropInside(body: string, n: nat, tail: string)
    requires n <= |body|
    ensures (body + tail)[n..] == body[n..] + tail
  {
  }

  lemma {:induction false} BodyIsRead(body: string, text: string, rest: string)
    requires IsBody(body, text)
    ensures ParseString(body + ("\"" + rest)) == Some((text, rest))
    decreases |text|
  {
    if text == "" {
      DropFront("\"", rest);
      assert body + ("\"" + rest) == "\"" + rest;
    } else {
      var n := BodyContinues(body, text);
      PieceIsRead(body, rest, n, text[0]);
      BodyIsRead(body[n..], text[1..], rest);
      DropInside(body, n, "\"" + rest);
      OneMoreRead(body + ("\"" + rest), text[0], body[n..] + ("\"" + rest), text[1..], rest);
      assert [text[0]] + text[1..] == text;
    }
  }

  lemma {:induction false} UnescapeDrops(s: string)
    requires Unescape(s).Some?
    ensures Unescape(s).value.1 == s[|s| - |Unescape(s).value.1|..]
  {
  }

  lemma {:induction false} Rejoined(s: string, n: nat, body: string, tail: string)
    requires n <= |s| && s[n..] == body + tail
    ensures s == (s[..n] + body) + tail && (s[..n] + body)[n..] == body
  {
  }

  lemma {:induction false} ReadIsBody(s: string) returns (body: string)
    requires ParseString(s).Some?
    ensures s == body + ("\"" + ParseString(s).value.1) && IsBody(body, ParseString(s).value.0)
    decreases |s|
  {
    var (text, rest) := ParseString(s).value;
    if s[0] == '"' {
      body := "";
      assert s == "\"" + s[1..];
    } else {
      var (c, r) := Unescape(s).value;
      var n := |s| - |r|;
      UnescapeDrops(s);
      var tail := ReadIsBody(r);
      body := s[..n] + tail;
      Rejoined(s, n, tail, "\"" + rest);
      ReadIsPiece(body, rest, n, c);
      assert text[0] == c && text[1..] == ParseString(r).value.0;
      assert Piece(body, n, text[0]) && IsBody(body[n..], text[1..]);
    }
  }

  /* Values, sections 3 to 5 */

  predicate Enclosed(t: string, open: char, close: char) {
    |t| >= 2 && t[0] == open && t[|t| - 1] == close
  }

  function Inner(t: string): string
    requires |t| >= 2
  {
    t[1..|t| - 1]
  }

  ghost predicate IsString(t: string, text: string) {
    Enclosed(t, '"', '"') && IsBody(Inner(t), text)
  }

  // t is a text of v: no space around it, and any layout inside.
  ghost predicate IsText(t: string, v: Json)
    decreases |t|, 0
  {
    match v
    case Null => t == "null"
    case Bool(b) => t == if b then "true" else "false"
    case Num(text) => t == text && IsNumber(t)
    case Str(text) => IsString(t, text)
    case Arr(items) => Enclosed(t, '[', ']') && if items == [] then White(Inner(t)) else IsItems(Inner(t), items)
    case Obj(members) =>
      && Enclosed(t, '{', '}')
      && ((White(Inner(t)) && members == map[]) || IsMembers(Inner(t), map[], members))
  }

  // An element with space around it, and what follows: nothing, or a comma and more.
  predicate ItemSplit(s: string, before: string, t: string, after: string, tail: string) {
    && s == before + (t + (after + tail)) && White(before) && White(after)
    && (tail == "" || tail[0] == ',')
  }

  ghost predicate IsItems(s: string, items: seq<Json>)
    requires items != []
    decreases |s|, 1
  {
    exists before, t, after, tail | ItemSplit(s, before, t, after, tail) ::
      && |t| <= |s| && |tail| <= |s|
      && IsText(t, items[0])
      && if tail == "" then |items| == 1 else |items| > 1 && IsItems(tail[1..], items[1..])
  }

  predicate MemberSplit(
    s: string, before: string, name: string, colon: string, space: string, t: string, after: string, tail: string) {
    && s == before + (name + (colon + (":" + (space + (t + (after + tail))))))
    && White(before) && White(colon) && White(space) && White(after)
    && (tail == "" || tail[0] == ',')
  }

  // Of members with one name the last counts.
  ghost predicate IsMembers(s: string, read: map<string, Json>, members: map<string, Json>)
    decreases |s|, 1
  {
    exists before, name, colon, space, t, after, tail, key, v
      | MemberSplit(s, before, name, colon, space, t, after, tail) && IsString(name, key) ::
      && |t| <= |s| && |tail| <= |s|
      && IsText(t, v)
      && if tail == "" then members == read[key := v] else IsMembers(tail[1..], read[key := v], members)
  }

  lemma {:induction false} SpaceSkipped(s: string) returns (space: string)
    ensures s == space + SkipSpace(s) && White(space)
  {
    if s != "" && IsSpace(s[0]) {
      space := SpaceSkipped(s[1..]);
      space := [s[0]] + space;
    } else {
      space := "";
    }
  }

  lemma {:induction false} WhiteIsSpace(s: string)
    ensures White(s) <==> AllSpace(s)
  {
    assert forall i | 0 <= i < |s| :: s[i] in s;
  }

  lemma {:induction false} SkipsWhite(space: string, text: string)
    requires White(space) && (text == "" || !IsSpace(text[0]))
    ensures SkipSpace(space + text) == text
  {
    WhiteIsSpace(space);
    SkipSpaceAppend(space, text);
  }

  /* What the parser reads is a text of the value it returns */

  lemma {:induction false} ItemsMadeOf(before: string, t: string, after: string, tail: string, items: seq<Json>)
    requires White(before) && White(after) && items != [] && IsText(t, items[0])
    requires tail == "" || (tail[0] == ',' && |items| > 1 && IsItems(tail[1..], items[1..]))
    requires tail == "" ==> |items| == 1
    ensures IsItems(before + (t + (after + tail)), items)
  {
    assert ItemSplit(before + (t + (after + tail)), before, t, after, tail);
  }

  lemma {:induction false} MembersMadeOf(
    before: string, name: string, colon: string, space: string, t: string, after: string, tail: string,
    key: string, v: Json, read: map<string, Json>, members: map<string, Json>)
    requires White(before) && White(colon) && White(space) && White(after) && IsString(name, key) && IsText(t, v)
    requires
      if tail == "" then members == read[key := v]
      else tail[0] == ',' && IsMembers(tail[1..], read[key := v], members)
    ensures IsMembers(before + (name + (colon + (":" + (space + (t + (after + tail)))))), read, members)
  {
    var s := before + (name + (colon + (":" + (space + (t + (after + tail))))));
    assert MemberSplit(s, before, name, colon, space, t, after, tail);
  }

  // The first element or member of a list, and what follows it.
  lemma {:induction false} FirstItem(s: string, items: seq<Json>)
    returns (before: string, t: string, after: string, tail: string)
    requires items != [] && IsItems(s, items)
    ensures ItemSplit(s, before, t, after, tail) && |t| <= |s| && |tail| <= |s| && IsText(t, items[0])
    ensures if tail == "" then |items| == 1 else |items| > 1 && IsItems(tail[1..], items[1..])
  {
    before, t, after, tail :| ItemSplit(s, before, t, after, tail) && |t| <= |s| && |tail| <= |s|
      && IsText(t, items[0])
      && if tail == "" then |items| == 1 else |items| > 1 && IsItems(tail[1..], items[1..]);
  }

  lemma {:induction false} FirstMember(s: string, read: map<string, Json>, members: map<string, Json>)
    returns (
      before: string, name: string, colon: string, space: string, t: string, after: string, tail: string,
      key: string, v: Json)
    requires IsMembers(s, read, members)
    ensures MemberSplit(s, before, name, colon, space, t, after, tail) && IsString(name, key) && IsText(t, v)
    ensures |t| <= |s| && |tail| <= |s|
    ensures if tail == "" then members == read[key := v] else IsMembers(tail[1..], read[key := v], members)
  {
    before, name, colon, space, t, after, tail, key, v :|
      MemberSplit(s, before, name, colon, space, t, after, tail) && IsString(name, key)
      && |t| <= |s| && |tail| <= |s| && IsText(t, v)
      && if tail == "" then members == read[key := v] else IsMembers(tail[1..], read[key := v], members);
  }

  lemma {:induction false} SpaceBeforeItems(space: string, s: string, items: seq<Json>)
    requires White(space) && items != [] && IsItems(s, items)
    ensures IsItems(space + s, items)
  {
    var before, t, after, tail := FirstItem(s, items);
    Assoc(space, before, t + (after + tail));
    ItemsMadeOf(space + before, t, after, tail, items);
  }

  lemma {:induction false} SpaceBeforeMembers(
    spaces: string, s: string, read: map<string, Json>, members: map<string, Json>)
    requires White(spaces) && IsMembers(s, read, members)
    ensures IsMembers(spaces + s, read, members)
  {
    var before, name, colon, space, t, after, tail, key, v := FirstMember(s, read, members);
    Assoc(spaces, before, name + (colon + (":" + (space + (t + (after + tail))))));
    MembersMadeOf(spaces + before, name, colon, space, t, after, tail, key, v, read, members);
  }

  lemma {:induction false} Wrapped(open: char, inner: string, close: char)
    ensures Enclosed([open] + inner + [close], open, close) && Inner([open] + inner + [close]) == inner
  {
  }

  lemma {:induction false} Glue(a: string, b: string, c: string, d: string)
    ensures a + (b + (c + d)) == (a + b + c) + d
    ensures a + (b + (c + d)) == (a + (b + c)) + d
  {
  }

  lemma {:induction false} ValueIsText(s: string) returns (t: string)
    requires ParseValue(s).Some?
    ensures s == t + ParseValue(s).value.1 && IsText(t, ParseValue(s).value.0)
    decreases |s|, 0
  {
    var (v, rest) := ParseValue(s).value;
    assert s == [s[0]] + s[1..];
    if s[0] == '"' {
      var body := ReadIsBody(s[1..]);
      t := ['"'] + body + ['"'];
      Wrapped('"', body, '"');
      Glue(['"'], body, ['"'], rest);
    } else if s[0] == '[' {
      var space := SpaceSkipped(s[1..]);
      var u := SkipSpace(s[1..]);
      if u[0] == ']' {
        t := ['['] + space + [']'];
        Wrapped('[', space, ']');
        assert u == [']'] + rest;
        Glue(['['], space, [']'], rest);
      } else {
        var inner := ItemsAreText(u);
        t := ['['] + (space + inner) + [']'];
        SpaceBeforeItems(space, inner, v.items);
        Wrapped('[', space + inner, ']');
        Assoc(space, inner, [']'] + rest);
        Glue(['['], space + inner, [']'], rest);
      }
    } else if s[0] == '{' {
      var space := SpaceSkipped(s[1..]);
      var u := SkipSpace(s[1..]);
      if u[0] == '}' {
        t := ['{'] + space + ['}'];
        Wrapped('{', space, '}');
        assert u == ['}'] + rest;
        Glue(['{'], space, ['}'], rest);
      } else {
        var inner := MembersAreText(u, map[]);
        t := ['{'] + (space + inner) + ['}'];
        SpaceBeforeMembers(space, inner, map[], v.members);
        Wrapped('{', space + inner, '}');
        Assoc(space, inner, ['}'] + rest);
        Glue(['{'], space + inner, ['}'], rest);
      }
    } else if s[0] == 'n' || s[0] == 't' || s[0] == 'f' {
      t := if s[0] == 'n' then "null" else if s[0] == 't' then "true" else "false";
    } else {
      var last;
      t, last := NumberIsSound(s);
      DropFront(t, last);
    }
  }

  // One step of reading elements: the last one and the bracket, or one, a comma and more.
  lemma {:induction false} ItemsStep(s: string)
    requires ParseItems(s).Some?
    ensures
      var (items, rest) := ParseItems(s).value;
      && ParseValue(s).Some? && items != [] && items[0] == ParseValue(s).value.0
      && var u := SkipSpace(ParseValue(s).value.1);
         && u != ""
         && if u[0] == ']' then |items| == 1 && rest == u[1..]
            else u[0] == ',' && |items| > 1 && ParseItems(SkipSpace(u[1..])) == Some((items[1..], rest))
  {
  }

  lemma {:induction false} ItemsAreText(s: string) returns (inner: string)
    requires ParseItems(s).Some?
    ensures ParseItems(s).value.0 != [] && IsItems(inner, ParseItems(s).value.0)
    ensures s == inner + ([']'] + ParseItems(s).value.1)
    decreases |s|, 1
  {
    var (items, rest) := ParseItems(s).value;
    ItemsStep(s);
    var t := ValueIsText(s);
    var after := SpaceSkipped(ParseValue(s).value.1);
    var u := SkipSpace(ParseValue(s).value.1);
    var tail := "";
    if u[0] == ',' {
      var more := ItemsAreText(SkipSpace(u[1..]));
      tail := CommaAndMore(u, more, [']'] + rest);
      SpaceBeforeItems(tail[1..|tail| - |more|], more, items[1..]);
    } else {
      CloseAlone(u);
    }
    inner := "" + (t + (after + tail));
    ItemsMadeOf("", t, after, tail, items);
    TailGlued(t, after, tail, [']'] + rest);
  }

  lemma {:induction false} CloseAlone(u: string)
    requires u != ""
    ensures u == "" + ([u[0]] + u[1..])
  {
  }

  // A comma, space, and what was read after it.
  lemma {:induction false} CommaAndMore(u: string, more: string, close: string) returns (tail: string)
    requires u != "" && u[0] == ',' && SkipSpace(u[1..]) == more + close
    ensures u == tail + close && tail != "" && tail[0] == ',' && |more| < |tail|
    ensures White(tail[1..|tail| - |more|]) && tail[1..] == tail[1..|tail| - |more|] + more
  {
    var space := SpaceSkipped(u[1..]);
    tail := [','] + (space + more);
    Assoc(space, more, close);
    Assoc([','], space + more, close);
    assert tail[1..] == space + more && tail[1..|tail| - |more|] == space;
  }

  lemma {:induction false} TailGlued(t: string, after: string, tail: string, close: string)
    ensures t + (after + (tail + close)) == "" + (t + (after + tail)) + close
  {
    Assoc(after, tail, close);
    Assoc(t, after + tail, close);
  }

  lemma {:induction false} MemberGlued(
    name: string, colon: string, space: string, t: string, after: string, tail: string, close: string)
    ensures name + (colon + (":" + (space + (t + (after + (tail + close))))))
      == "" + (name + (colon + (":" + (space + (t + (after + tail)))))) + close
  {
    TailGlued(t, after, tail, close);
    Assoc(space, t + (after + tail), close);
    Assoc(":", space + (t + (after + tail)), close);
    Assoc(colon, ":" + (space + (t + (after + tail))), close);
    Assoc(name, colon + (":" + (space + (t + (after + tail)))), close);
  }

  // One step of reading members.
  lemma {:induction false} MembersStep(s: string, read: map<string, Json>)
    requires ParseMembers(s, read).Some?
    ensures
      && s != "" && s[0] == '"' && ParseString(s[1..]).Some?
      && var c := SkipSpace(ParseString(s[1..]).value.1);
         && c != "" && c[0] == ':' && ParseValue(SkipSpace(c[1..])).Some?
         && var (v, r) := ParseValue(SkipSpace(c[1..])).value;
            var u := SkipSpace(r);
            var read' := read[ParseString(s[1..]).value.0 := v];
            && u != ""
            && if u[0] == '}' then ParseMembers(s, read) == Some((read', u[1..]))
               else u[0] == ',' && ParseMembers(s, read) == ParseMembers(SkipSpace(u[1..]), read')
  {
  }

  lemma {:induction false} NameIsText(s: string) returns (name: string)
    requires s != "" && s[0] == '"' && ParseString(s[1..]).Some?
    ensures s == name + ParseString(s[1..]).value.1 && IsString(name, ParseString(s[1..]).value.0)
  {
    var body := ReadIsBody(s[1..]);
    name := ['"'] + body + ['"'];
    Wrapped('"', body, '"');
    Glue(['"'], body, ['"'], ParseString(s[1..]).value.1);
    assert s == ['"'] + s[1..];
  }

  lemma {:induction false} ColonAndValue(s: string) returns (colon: string, space: string)
    requires var c := SkipSpace(s); c != "" && c[0] == ':'
    ensures s == colon + (":" + (space + SkipSpace(SkipSpace(s)[1..]))) && White(colon) && White(space)
  {
    colon := SpaceSkipped(s);
    space := SpaceSkipped(SkipSpace(s)[1..]);
    assert SkipSpace(s) == ":" + SkipSpace(s)[1..];
  }

  lemma {:induction false} MembersAreText(s: string, read: map<string, Json>) returns (inner: string)
    requires ParseMembers(s, read).Some?
    ensures IsMembers(inner, read, ParseMembers(s, read).value.0)
    ensures s == inner + (['}'] + ParseMembers(s, read).value.1)
    decreases |s|, 1
  {
    var (members, rest) := ParseMembers(s, read).value;
    MembersStep(s, read);
    var name := NameIsText(s);
    var (key, afterKey) := ParseString(s[1..]).value;
    var colon, space := ColonAndValue(afterKey);
    var d := SkipSpace(SkipSpace(afterKey)[1..]);
    var t := ValueIsText(d);
    var (v, r) := ParseValue(d).value;
    var after := SpaceSkipped(r);
    var u := SkipSpace(r);
    var tail := "";
    if u[0] == ',' {
      var more := MembersAreText(SkipSpace(u[1..]), read[key := v]);
      tail := CommaAndMore(u, more, ['}'] + rest);
      SpaceBeforeMembers(tail[1..|tail| - |more|], more, read[key := v], members);
    } else {
      CloseAlone(u);
    }
    inner := "" + (name + (colon + (":" + (space + (t + (after + tail))))));
    MembersMadeOf("", name, colon, space, t, after, tail, key, v, read, members);
    MemberGlued(name, colon, space, t, after, tail, ['}'] + rest);
  }

  /* A text of a value is read as that value */

  lemma {:induction false} NumberStarts(t: string)
    requires IsNumber(t)
    ensures t != "" && (t[0] == '-' || IsDigit(t[0]))
  {
    NumberIsComplete(t);
    NumberHead(t);
  }

  // A text of a value starts with neither space nor a closing bracket.
  lemma {:induction false} TextHead(t: string, v: Json)
    requires IsText(t, v)
    ensures t != "" && !IsSpace(t[0]) && t[0] != ']' && t[0] != '}'
  {
    match v
    case Num(_) => NumberStarts(t);
    case Str(text) => assert IsString(t, text);
    case Arr(_) => assert Enclosed(t, '[', ']');
    case Obj(_) => assert Enclosed(t, '{', '}');
    case _ =>
  }

  lemma {:induction false} Unwrapped(t: string, open: char, close: char, rest: string)
    requires Enclosed(t, open, close)
    ensures t + rest == [open] + (Inner(t) + ([close] + rest)) && (t + rest)[1..] == Inner(t) + ([close] + rest)
  {
    assert t == [open] + (Inner(t) + [close]);
    Assoc(Inner(t), [close], rest);
    Assoc([open], Inner(t) + [close], rest);
    DropFront([open], Inner(t) + ([close] + rest));
  }

  lemma {:induction false} StringIsRead(t: string, text: string, rest: string)
    requires IsString(t, text)
    ensures (t + rest)[0] == '"' && ParseString((t + rest)[1..]) == Some((text, rest))
  {
    Unwrapped(t, '"', '"', rest);
    BodyIsRead(Inner(t), text, rest);
  }

  lemma {:induction false} TextIsRead(t: string, v: Json, rest: string)
    requires IsText(t, v) && (v.Num? ==> EndsNumber(rest))
    ensures ParseValue(t + rest) == Some((v, rest))
    decreases |t|, 0
  {
    match v
    case Num(text) =>
      NumberIsComplete(t);
      ParseNumberValue(t, rest);
    case Str(text) => StringIsRead(t, text, rest);
    case Arr(items) =>
      Unwrapped(t, '[', ']', rest);
      if items == [] {
        SkipsWhite(Inner(t), [']'] + rest);
        DropFront([']'], rest);
      } else {
        ItemsAreRead(Inner(t), items, rest);
      }
      ParseArrayValue(Inner(t) + ([']'] + rest));
    case Obj(members) =>
      Unwrapped(t, '{', '}', rest);
      if White(Inner(t)) && members == map[] {
        SkipsWhite(Inner(t), ['}'] + rest);
        DropFront(['}'], rest);
      } else {
        MembersAreRead(Inner(t), map[], members, rest);
      }
      ParseObjectValue(Inner(t) + (['}'] + rest));
    case _ => DropFront(t, rest);
  }

  // What stands behind a value: space, and a comma or the closing bracket.
  lemma {:induction false} AfterValue(after: string, tail: string, close: char, rest: string)
    requires White(after) && (tail == "" || tail[0] == ',') && (close == ']' || close == '}')
    ensures
      var u := tail + ([close] + rest);
      && u != "" && u[0] == (if tail == "" then close else ',')
      && SkipSpace(after + u) == u && EndsNumber(after + u)
      && u[1..] == if tail == "" then rest else tail[1..] + ([close] + rest)
  {
    var u := tail + ([close] + rest);
    SkipsWhite(after, u);
    assert after != "" ==> after[0] in after;
    if tail == "" {
      assert u == [close] + rest;
    }
  }

  // One element in front of what follows it.
  lemma {:induction false} ItemIsRead(t: string, v: Json, next: string)
    requires ParseValue(t + next) == Some((v, next)) && SkipSpace(next) != ""
    ensures
      var u := SkipSpace(next);
      ParseItems(t + next) ==
        if u[0] == ']' then Some(([v], u[1..]))
        else if u[0] != ',' || ParseItems(SkipSpace(u[1..])).None? then None
        else
          var (vs, rest) := ParseItems(SkipSpace(u[1..])).value;
          Some(([v] + vs, rest))
  {
  }

  lemma {:induction false} ItemsAreRead(s: string, items: seq<Json>, rest: string)
    requires items != [] && IsItems(s, items)
    ensures
      var u := SkipSpace(s + ([']'] + rest));
      u != "" && u[0] != ']' && ParseItems(u) == Some((items, rest))
    decreases |s|, 1
  {
    var before, t, after, tail := FirstItem(s, items);
    var u := tail + ([']'] + rest);
    ItemFront(s, before, t, after, tail, [']'] + rest);
    AfterValue(after, tail, ']', rest);
    TextHead(t, items[0]);
    SkipsWhite(before, t + (after + u));
    TextIsRead(t, items[0], after + u);
    ItemIsRead(t, items[0], after + u);
    if tail == "" {
      assert items == [items[0]];
    } else {
      ItemsAreRead(tail[1..], items[1..], rest);
      assert items == [items[0]] + items[1..];
    }
  }

  lemma {:induction false} ItemFront(s: string, before: string, t: string, after: string, tail: string, close: string)
    requires ItemSplit(s, before, t, after, tail)
    ensures s + close == before + (t + (after + (tail + close)))
  {
    Assoc(after, tail, close);
    Assoc(t, after + tail, close);
    Assoc(before, t + (after + tail), close);
  }

  lemma {:induction false} MemberFront(
    s: string, before: string, name: string, colon: string, space: string, t: string, after: string, tail: string,
    close: string)
    requires MemberSplit(s, before, name, colon, space, t, after, tail)
    ensures s + close == before + (name + (colon + (":" + (space + (t + (after + (tail + close)))))))
  {
    var more := name + (colon + (":" + (space + (t + (after + tail)))));
    MemberGlued(name, colon, space, t, after, tail, close);
    assert "" + more == more;
    Assoc(before, more, close);
  }

  // One member in front of what follows it.
  lemma {:induction false} MemberIsRead(
    name: string, colon: string, space: string, t: string, key: string, v: Json, next: string, read: map<string, Json>)
    requires IsString(name, key) && White(colon) && White(space) && t != "" && !IsSpace(t[0])
    requires ParseValue(t + next) == Some((v, next)) && SkipSpace(next) != ""
    ensures
      var s := name + (colon + (":" + (space + (t + next))));
      var u := SkipSpace(next);
      && s[0] == '"'
      && ParseMembers(s, read) ==
         if u[0] == '}' then Some((read[key := v], u[1..]))
         else if u[0] != ',' then None
         else ParseMembers(SkipSpace(u[1..]), read[key := v])
  {
    var body := space + (t + next);
    StringIsRead(name, key, colon + (":" + body));
    SkipsWhite(colon, ":" + body);
    DropFront(":", body);
    SkipsWhite(space, t + next);
  }

  lemma {:induction false} MembersAreRead(
    s: string, read: map<string, Json>, members: map<string, Json>, rest: string)
    requires IsMembers(s, read, members)
    ensures
      var u := SkipSpace(s + (['}'] + rest));
      u != "" && u[0] != '}' && ParseMembers(u, read) == Some((members, rest))
    decreases |s|, 1
  {
    var before, name, colon, space, t, after, tail, key, v := FirstMember(s, read, members);
    var next := after + (tail + (['}'] + rest));
    MemberFront(s, before, name, colon, space, t, after, tail, ['}'] + rest);
    AfterValue(after, tail, '}', rest);
    TextHead(t, v);
    TextIsRead(t, v, next);
    MemberIsRead(name, colon, space, t, key, v, next, read);
    SkipsWhite(before, name + (colon + (":" + (space + (t + next)))));
    if tail != "" {
      MembersAreRead(tail[1..], read[key := v], members, rest);
    }
  }

  /* Documents */

  ghost predicate DocumentSplit(text: string, before: string, t: string, after: string, v: Json) {
    text == before + (t + after) && White(before) && IsText(t, v)
  }

  // A text of v, with space around it.
  ghost predicate IsDocument(text: string, v: Json) {
    exists before, t, after :: DocumentSplit(text, before, t, after, v) && White(after)
  }

  // A text of v, after space, and behind it nothing that the check for trailing data sees.
  ghost predicate Opens(text: string, v: Json) {
    exists before, t, after :: DocumentSplit(text, before, t, after, v) && !Trails(after)
  }

  lemma {:induction false} SplitIsRead(text: string, before: string, t: string, after: string, v: Json)
    requires DocumentSplit(text, before, t, after, v) && EndsNumber(after)
    ensures ParseValue(SkipSpace(text)) == Some((v, after))
  {
    TextHead(t, v);
    SkipsWhite(before, t + after);
    TextIsRead(t, v, after);
  }

  lemma {:induction false} ReadIsSplit(text: string) returns (before: string, t: string)
    requires ParseValue(SkipSpace(text)).Some?
    ensures DocumentSplit(text, before, t, ParseValue(SkipSpace(text)).value.1, ParseValue(SkipSpace(text)).value.0)
  {
    before := SpaceSkipped(text);
    t := ValueIsText(SkipSpace(text));
  }

  lemma {:induction false} WhiteEndsNumber(after: string)
    requires White(after) || !Trails(after)
    ensures EndsNumber(after)
  {
    assert after != "" ==> after[0] in after;
    if after != "" && !White(after) {
      assert !TrailsAt(after, 0);
    }
  }

  lemma {:induction false} WhiteIsSkipped(after: string)
    ensures SkipSpace(after) == "" <==> White(after)
  {
    if White(after) {
      SkipsWhite(after, "");
      assert after + "" == after;
    }
    if SkipSpace(after) == "" {
      var space := SpaceSkipped(after);
      assert space + "" == space;
    }
  }

  // The parser accepts exactly the documents of the grammar, and returns what they stand for.
  lemma {:induction false} DocumentsExactly(text: string, v: Json)
    ensures ParseDocument(text) == Some(v) <==> IsDocument(text, v)
  {
    if before, t, after :| DocumentSplit(text, before, t, after, v) && White(after) {
      WhiteEndsNumber(after);
      WhiteIsSkipped(after);
      SplitIsRead(text, before, t, after, v);
    }
    if ParseDocument(text) == Some(v) {
      var before, t := ReadIsSplit(text);
      WhiteIsSkipped(ParseValue(SkipSpace(text)).value.1);
    }
  }

  // A text stands for one value only.
  lemma {:induction false} OneValue(text: string, v: Json, w: Json)
    requires IsDocument(text, v) && IsDocument(text, w)
    ensures v == w
  {
    DocumentsExactly(text, v);
    DocumentsExactly(text, w);
  }

  lemma {:induction false} OpensIsReads(raw: Bytes, v: Json)
    ensures Opens(Utf8.Decode(raw), v) <==> Reads(raw, v)
  {
    var text := Utf8.Decode(raw);
    if before, t, after :| DocumentSplit(text, before, t, after, v) && !Trails(after) {
      WhiteEndsNumber(after);
      SplitIsRead(text, before, t, after, v);
    }
    if Reads(raw, v) {
      var before, t := ReadIsSplit(text);
    }
  }

  // Any bytes have a canonical form if and only if they open with a text of a supported value, and then
  // it is the canonical text of that value.
  lemma {:induction false} CanonicalExactly(raw: Bytes, bytes: Bytes)
    ensures Jcs.Canonical(raw) == Ok(bytes) <==>
      exists v :: Opens(Utf8.Decode(raw), v) && Supported(v) && bytes == Utf8.Encode(Text(v))
  {
    ReadsByMore(raw);
    forall v ensures Opens(Utf8.Decode(raw), v) <==> Reads(raw, v) {
      OpensIsReads(raw, v);
    }
    if v :| Opens(Utf8.Decode(raw), v) && Supported(v) && bytes == Utf8.Encode(Text(v)) {
      assert Reads(raw, v);
      FailsIffUnsupported(v);
    }
    if Jcs.Canonical(raw) == Ok(bytes) {
      var v := ParseValue(SkipSpace(Utf8.Decode(raw))).value.0;
      FailsIffUnsupported(v);
      assert Reads(raw, v);
    }
  }

  // However two documents are written, their canonical bytes are the same exactly if their values are
  // equal up to the spelling of numbers.
  lemma {:induction false} WritingIsIrrelevant(text: string, text': string, v: Json, v': Json)
    requires IsDocument(text, v) && IsDocument(text', v') && Supported(v)
    ensures Jcs.Canonical(Utf8.Encode(text)) == Jcs.Canonical(Utf8.Encode(text')) <==> Normal(v) == Normal(v')
  {
    Utf8.DecodeEncode(text);
    Utf8.DecodeEncode(text');
    DocumentOpens(text, v);
    DocumentOpens(text', v');
    OpensIsReads(Utf8.Encode(text), v);
    OpensIsReads(Utf8.Encode(text'), v');
    LayoutIsIrrelevant(Utf8.Encode(text), Utf8.Encode(text'), v, v');
    SucceedsIffReads(Utf8.Encode(text));
  }

  lemma {:induction false} DocumentOpens(text: string, v: Json)
    requires IsDocument(text, v)
    ensures Opens(text, v)
  {
    var before, t, after :| DocumentSplit(text, before, t, after, v) && White(after);
    forall i: nat ensures !TrailsAt(after, i) {
      assert i < |after| ==> after[i] in after;
    }
  }
}
