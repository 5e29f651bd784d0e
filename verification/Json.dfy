/**
 JSON values and a reference parser for RFC 8259, with the choices of Go's encoding/json:
 numbers keep their text, a repeated member name keeps its last value, and a lone surrogate
 escape reads as U+FFFD.
 */
module Json {
  import opened Basics
  import opened Decimal

  datatype Json =
    | Null
    | Bool(b: bool)
    | Num(text: string)
    | Str(s: string)
    | Arr(items: seq<Json>)
    | Obj(members: map<string, Json>)

  // A parse result: the value and the text after it.
  type Parsed<+T> = Option<(T, string)>

  predicate IsSpace(c: char) {
    c == ' ' || c == '\t' || c == '\n' || c == '\r'
  }

  predicate AllSpace(s: string) {
    forall i | 0 <= i < |s| :: IsSpace(s[i])
  }

  function SkipSpace(s: string): (r: string)
    ensures |r| <= |s|
    ensures r != "" ==> !IsSpace(r[0])
  {
    if s != "" && IsSpace(s[0]) then SkipSpace(s[1..]) else s
  }

  function ParseValue(s: string): (r: Parsed<Json>)
    ensures r.Some? ==> |r.value.1| < |s|
    decreases |s|, 0
  {
    if s == "" then None
    else if s[0] == '"' then
      match ParseString(s[1..])
      case None => None
      case Some((text, rest)) => Some((Str(text), rest))
    else if s[0] == '[' then
      var t := SkipSpace(s[1..]);
      if t != "" && t[0] == ']' then Some((Arr([]), t[1..]))
      else
        match ParseItems(t)
        case None => None
        case Some((items, rest)) => Some((Arr(items), rest))
    else if s[0] == '{' then
      var t := SkipSpace(s[1..]);
      if t != "" && t[0] == '}' then Some((Obj(map[]), t[1..]))
      else
        match ParseMembers(t, map[])
        case None => None
        case Some((members, rest)) => Some((Obj(members), rest))
    else if s[0] == 'n' then ParseLiteral(s, "null", Null)
    else if s[0] == 't' then ParseLiteral(s, "true", Bool(true))
    else if s[0] == 'f' then ParseLiteral(s, "false", Bool(false))
    else ParseNumber(s)
  }

  function ParseLiteral(s: string, word: string, v: Json): (r: Parsed<Json>)
    requires word != ""
    ensures r.Some? ==> |r.value.1| < |s|
  {
    if word <= s then Some((v, s[|word|..])) else None
  }

  function ParseNumber(s: string): (r: Parsed<Json>)
    ensures r.Some? ==> |r.value.1| < |s|
  {
    match NumberLength(s)
    case None => None
    case Some(n) => Some((Num(s[..n]), s[n..]))
  }

  // One or more elements and the closing bracket.
  function ParseItems(s: string): (r: Parsed<seq<Json>>)
    ensures r.Some? ==> |r.value.1| < |s|
    decreases |s|, 1
  {
    match ParseValue(s)
    case None => None
    case Some((v, rest)) =>
      var t := SkipSpace(rest);
      if t == "" then None
      else if t[0] == ']' then Some(([v], t[1..]))
      else if t[0] != ',' then None
      else
        match ParseItems(SkipSpace(t[1..]))
        case None => None
        case Some((vs, rest')) => Some(([v] + vs, rest'))
  }

  // One or more members and the closing brace, added to those read so far.
  function ParseMembers(s: string, read: map<string, Json>): (r: Parsed<map<string, Json>>)
    ensures r.Some? ==> |r.value.1| < |s|
    decreases |s|, 1
  {
    if s == "" || s[0] != '"' then None else
      match ParseString(s[1..])
      case None => None
      case Some((key, afterKey)) =>
        var t := SkipSpace(afterKey);
        if t == "" || t[0] != ':' then None else
          match ParseValue(SkipSpace(t[1..]))
          case None => None
          case Some((v, rest)) =>
            var u := SkipSpace(rest);
            if u == "" then None
            else if u[0] == '}' then Some((read[key := v], u[1..]))
            else if u[0] != ',' then None
            else ParseMembers(SkipSpace(u[1..]), read[key := v])
  }

  // The rest of a string literal, up to and including its closing quote.
  function ParseString(s: string): (r: Parsed<string>)
    ensures r.Some? ==> |r.value.1| < |s|
  {
    if s == "" then None
    else if s[0] == '"' then Some(("", s[1..]))
    else
      match Unescape(s)
      case None => None
      case Some((c, rest)) =>
        match ParseString(rest)
        case None => None
        case Some((text, rest')) => Some(([c] + text, rest'))
  }

  // One character of a string literal.
  function Unescape(s: string): (r: Parsed<char>)
    ensures r.Some? ==> |r.value.1| < |s|
  {
    if s == "" || s[0] < ' ' then None
    else if s[0] != '\\' then Some((s[0], s[1..]))
    else if |s| < 2 then None
    else match s[1]
      case '"' => Some(('"', s[2..]))
      case '\\' => Some(('\\', s[2..]))
      case '/' => Some(('/', s[2..]))
      case 'b' => Some(('\U{8}', s[2..]))
      case 'f' => Some(('\U{C}', s[2..]))
      case 'n' => Some(('\n', s[2..]))
      case 'r' => Some(('\r', s[2..]))
      case 't' => Some(('\t', s[2..]))
      case 'u' => UnescapeUnit(s)
      case _ => None
  }

  // \uXXXX, joined with a following escape when the two form a surrogate pair.
  function UnescapeUnit(s: string): (r: Parsed<char>)
    requires |s| >= 2
    ensures r.Some? ==> |r.value.1| < |s|
  {
    match Hex4(s[2..])
    case None => None
    case Some(u) =>
      if !(0xD800 <= u < 0xE000) then Some((u as char, s[6..]))
      else
        var low := if |s| >= 8 && s[6] == '\\' && s[7] == 'u' then Hex4(s[8..]) else None;
        if u < 0xDC00 && low.Some? && 0xDC00 <= low.value < 0xE000 then
          Some(((0x1_0000 + (u - 0xD800) * 0x400 + (low.value - 0xDC00)) as char, s[12..]))
        else Some(('\U{FFFD}', s[6..]))
  }

  function HexValue(c: char): (d: Option<nat>)
    ensures d.Some? ==> d.value < 16
  {
    if '0' <= c <= '9' then Some(c as int - '0' as int)
    else if 'a' <= c <= 'f' then Some(c as int - 'a' as int + 10)
    else if 'A' <= c <= 'F' then Some(c as int - 'A' as int + 10)
    else None
  }

  // The value of the first four characters of s as hexadecimal digits.
  function Hex4(s: string): (r: Option<nat>)
    ensures r.Some? ==> |s| >= 4 && r.value < 0x1_0000
  {
    if |s| < 4 then None else
      var (a, b, c, d) := (HexValue(s[0]), HexValue(s[1]), HexValue(s[2]), HexValue(s[3]));
      if a.Some? && b.Some? && c.Some? && d.Some?
      then Some(((a.value * 16 + b.value) * 16 + c.value) * 16 + d.value)
      else None
  }

  function DigitsLength(s: string): (n: nat)
    ensures n <= |s|
  {
    if s != "" && IsDigit(s[0]) then 1 + DigitsLength(s[1..]) else 0
  }

  // Each of these gives the length of one part of a number at the front of s, None when malformed.
  function IntegerLength(s: string): (r: Option<nat>)
    ensures r.Some? ==> 0 < r.value <= |s|
  {
    var i := if s != "" && s[0] == '-' then 1 else 0;
    if i < |s| && s[i] == '0' then Some(i + 1) else
      var d := DigitsLength(s[i..]);
      if d == 0 then None else Some(i + d)
  }

  function FractionLength(s: string): (r: Option<nat>)
    ensures r.Some? ==> r.value <= |s|
  {
    if s == "" || s[0] != '.' then Some(0) else
      var d := DigitsLength(s[1..]);
      if d == 0 then None else Some(1 + d)
  }

  function ExponentLength(s: string): (r: Option<nat>)
    ensures r.Some? ==> r.value <= |s|
  {
    if s == "" || (s[0] != 'e' && s[0] != 'E') then Some(0) else
      var i := if |s| > 1 && (s[1] == '+' || s[1] == '-') then 2 else 1;
      var d := DigitsLength(s[i..]);
      if d == 0 then None else Some(i + d)
  }

  function DecimalsLength(s: string): (r: Option<nat>)
    ensures r.Some? ==> r.value <= |s|
  {
    match FractionLength(s)
    case None => None
    case Some(f) =>
      match ExponentLength(s[f..])
      case None => None
      case Some(e) => Some(f + e)
  }

  function NumberLength(s: string): (r: Option<nat>)
    ensures r.Some? ==> 0 < r.value <= |s|
  {
    match IntegerLength(s)
    case None => None
    case Some(i) =>
      match DecimalsLength(s[i..])
      case None => None
      case Some(d) => Some(i + d)
  }

  // A complete document: one value with nothing but space around it.
  function ParseDocument(s: string): Option<Json> {
    match ParseValue(SkipSpace(s))
    case None => None
    case Some((v, rest)) => if SkipSpace(rest) == "" then Some(v) else None
  }

  predicate ValidNumber(s: string) {
    NumberLength(s) == Some(|s|)
  }

  // rest cannot be read as the continuation of a number.
  predicate EndsNumber(rest: string) {
    rest == "" || !(IsDigit(rest[0]) || rest[0] in ".eE")
  }

  lemma {:induction false} DigitsLengthAppend(s: string, rest: string)
    requires DigitsLength(s) < |s| || rest == "" || !IsDigit(rest[0])
    ensures DigitsLength(s + rest) == DigitsLength(s)
  {
    if s == "" {
      assert s + rest == rest;
    } else if IsDigit(s[0]) {
      assert (s + rest)[1..] == s[1..] + rest;
      DigitsLengthAppend(s[1..], rest);
    }
  }

  lemma {:induction false} IntegerLengthAppend(s: string, rest: string)
    requires IntegerLength(s).Some?
    requires IntegerLength(s).value < |s| || rest == "" || !IsDigit(rest[0])
    ensures IntegerLength(s + rest) == IntegerLength(s)
  {
    var sign := if s[0] == '-' then 1 else 0;
    assert (s + rest)[sign..] == s[sign..] + rest;
    if s[sign] != '0' {
      DigitsLengthAppend(s[sign..], rest);
    }
  }

  lemma {:induction false} FractionLengthAppend(s: string, rest: string)
    requires FractionLength(s).Some? && EndsNumber(rest)
    ensures FractionLength(s + rest) == FractionLength(s)
  {
    if s == "" {
      assert s + rest == rest;
    } else {
      assert (s + rest)[1..] == s[1..] + rest;
      DigitsLengthAppend(s[1..], rest);
    }
  }

  lemma {:induction false} ExponentLengthAppend(s: string, rest: string)
    requires ExponentLength(s).Some? && EndsNumber(rest)
    ensures ExponentLength(s + rest) == ExponentLength(s)
  {
    if s == "" {
      assert s + rest == rest;
    } else if s[0] == 'e' || s[0] == 'E' {
      var i := if |s| > 1 && (s[1] == '+' || s[1] == '-') then 2 else 1;
      assert (s + rest)[i..] == s[i..] + rest;
      DigitsLengthAppend(s[i..], rest);
    }
  }

  lemma {:induction false} DecimalsLengthAppend(s: string, rest: string)
    requires DecimalsLength(s).Some? && EndsNumber(rest)
    ensures DecimalsLength(s + rest) == DecimalsLength(s)
  {
    FractionLengthAppend(s, rest);
    var f := FractionLength(s).value;
    assert (s + rest)[f..] == s[f..] + rest;
    ExponentLengthAppend(s[f..], rest);
  }

  // What follows a number does not change how it is read.
  lemma {:induction false} NumberLengthAppend(s: string, rest: string)
    requires ValidNumber(s) && EndsNumber(rest)
    ensures NumberLength(s + rest) == Some(|s|)
  {
    var i := IntegerLength(s).value;
    IntegerLengthAppend(s, rest);
    assert (s + rest)[i..] == s[i..] + rest;
    DecimalsLengthAppend(s[i..], rest);
  }

  lemma {:induction false} DigitsLengthIsAll(s: string)
    requires DigitsLength(s) == |s|
    ensures AllDigits(s)
  {
    if s != "" {
      DigitsLengthIsAll(s[1..]);
    }
  }

  // A number without fraction and exponent is a numeral.
  lemma {:induction false} PlainNumberIsNumeral(s: string)
    requires ValidNumber(s) && '.' !in s && 'e' !in s && 'E' !in s
    ensures Numeral(s)
  {
    if Digits(s)[0] != '0' {
      DigitsLengthIsAll(Digits(s));
    }
  }

  lemma {:induction false} DigitsLengthAll(s: string)
    requires AllDigits(s)
    ensures DigitsLength(s) == |s|
  {
    if s != "" {
      DigitsLengthAll(s[1..]);
    }
  }

  lemma {:induction false} FormatIntIsNumber(n: int)
    ensures ValidNumber(FormatInt(n))
  {
    var s := FormatInt(n);
    var digits := FormatNat(if n < 0 then -n else n);
    DigitsLengthAll(digits);
    assert s[if n < 0 then 1 else 0..] == digits;
    assert IntegerLength(s) == Some(|s|);
    assert s[|s|..] == "";
  }
}
