/**
 What the canonical form is for: it determines the value, every way of writing a document leads to
 the same bytes, and canonical bytes are their own canonical form.
 */
module Canonical {
  import opened Basics
  import opened Decimal
  import opened Json
  import opened JsonText
  import opened KeyOrder
  import opened Jcs
  import Utf16
  import Utf8

  // The text is an integer within the range of section 3.2.2.3.
  predicate SafeInteger(text: string) {
    Numeral(text) && -9007199254740991 <= NumeralValue(text) <= 9007199254740991
  }

  // Every number, at every depth, is a safe integer.
  predicate Supported(v: Json) {
    match v
    case Num(text) => SafeInteger(text)
    case Arr(items) => forall i | 0 <= i < |items| :: Supported(items[i])
    case Obj(members) => forall k | k in members :: Supported(members[k])
    case _ => true
  }

  // The value with each supported number in its shortest form.
  function Normal(v: Json): Json {
    match v
    case Num(text) => Num(NormalNumber(text))
    case Arr(items) => Arr(seq(|items|, i requires 0 <= i < |items| => Normal(items[i])))
    case Obj(members) => Obj(map k | k in members :: Normal(members[k]))
    case _ => v
  }

  lemma {:induction false} SafeIntegerIsAccepted(text: string)
    ensures NumberError(text).None? <==> SafeInteger(text)
    ensures SafeInteger(text) ==> NormalNumber(text) == FormatInt(NumeralValue(text))
  {
    if Numeral(text) {
      ParseIntReads(text, NumeralValue(text));
      forall c | c in text ensures c !in ".eE" {
        assert c == '-' || c in Digits(text);
      }
    }
    if ParseInt(text).Some? {
      ParseIntReads(text, ParseInt(text).value);
    }
  }

  // What becomes of a number, told from its text: with a fraction or an exponent it is refused as no
  // integer, beyond 64 bits as unreadable, beyond 2^53 - 1 as out of range, and otherwise accepted.
  lemma {:induction false} NumberVerdict(text: string)
    requires ValidNumber(text)
    ensures
      var fractional := '.' in text || 'e' in text || 'E' in text;
      && (!fractional ==> Numeral(text))
      && (FirstError(Num(text)) == Some(NonInteger(text)) <==> fractional)
      && (FirstError(Num(text)) == Some(Unparsable(text)) <==>
           !fractional && !(-9223372036854775808 <= NumeralValue(text) <= 9223372036854775807))
      && (FirstError(Num(text)) == Some(OutOfRange(text)) <==>
           && !fractional && -9223372036854775808 <= NumeralValue(text) <= 9223372036854775807
           && !(-9007199254740991 <= NumeralValue(text) <= 9007199254740991))
      && (FirstError(Num(text)) == None <==>
           !fractional && -9007199254740991 <= NumeralValue(text) <= 9007199254740991)
  {
    if '.' !in text && 'e' !in text && 'E' !in text {
      PlainNumberIsNumeral(text);
      ParseIntReads(text, NumeralValue(text));
      assert forall c | c in text :: c !in ".eE";
      if ParseInt(text).Some? {
        ParseIntReads(text, ParseInt(text).value);
      }
    } else {
      var c := if '.' in text then '.' else if 'e' in text then 'e' else 'E';
      assert c in text && c in ".eE";
    }
  }

  // Two numbers are written alike exactly if they have the same value, and no spelling is shorter.
  lemma {:induction false} NormalNumberIsValue(text: string, text': string)
    requires SafeInteger(text) && SafeInteger(text')
    ensures NormalNumber(text) == NormalNumber(text') <==> NumeralValue(text) == NumeralValue(text')
    ensures |NormalNumber(text)| <= |text|
  {
    SafeIntegerIsAccepted(text);
    SafeIntegerIsAccepted(text');
    FormatIntDenotes(NumeralValue(text));
    FormatIntDenotes(NumeralValue(text'));
    FormatIntIsShortest(text);
  }

  // Canonicalization fails exactly on a number outside the subset.
  lemma {:induction false} FailsIffUnsupported(v: Json)
    ensures FirstError(v).None? <==> Supported(v)
    decreases v
  {
    match v
    case Num(text) => SafeIntegerIsAccepted(text);
    case Arr(items) => ItemsFailIffUnsupported(items);
    case Obj(members) => MembersFailIffUnsupported(v, Ascending(members.Keys));
    case _ =>
  }

  lemma {:induction false} ItemsFailIffUnsupported(items: seq<Json>)
    ensures FirstItemError(items).None? <==> forall i | 0 <= i < |items| :: Supported(items[i])
    decreases items
  {
    if items != [] {
      FailsIffUnsupported(items[0]);
      ItemsFailIffUnsupported(items[1..]);
      assert forall i | 0 < i < |items| :: items[i] == items[1..][i - 1];
    }
  }

  lemma {:induction false} MembersFailIffUnsupported(v: Json, keys: seq<string>)
    requires v.Obj? && forall k :: k in keys ==> k in v.members
    ensures FirstMemberError(v, keys).None? <==> forall k | k in keys :: Supported(v.members[k])
    decreases v, |keys|
  {
    if keys != [] {
      FailsIffUnsupported(v.members[keys[0]]);
      MembersFailIffUnsupported(v, keys[1..]);
      assert forall k | k in keys :: k == keys[0] || k in keys[1..];
    }
  }

  // The printed tree denotes the normal value.
  lemma {:induction false} OrderedDenotesNormal(v: Json)
    ensures ToJson(Ordered(v)) == Normal(v)
    decreases v
  {
    match v
    case Arr(items) => ItemsDenoteNormal(items);
    case Obj(members) =>
      AscendingIsDistinct(members.Keys);
      MembersDenoteNormal(v, Ascending(members.Keys), map[]);
      AllNormalMembers(v, Ascending(members.Keys));
    case _ =>
  }

  lemma {:induction false} AllNormalMembers(v: Json, keys: seq<string>)
    requires v.Obj? && forall k :: k in keys <==> k in v.members
    ensures Normal(v).members == map[] + NormalMembers(v, keys)
  {
  }

  lemma {:induction false} ItemsDenoteNormal(items: seq<Json>)
    ensures ItemsToJson(OrderedItems(items)) == seq(|items|, i requires 0 <= i < |items| => Normal(items[i]))
    decreases items
  {
    if items != [] {
      OrderedDenotesNormal(items[0]);
      ItemsDenoteNormal(items[1..]);
    }
  }

  lemma {:induction false} AscendingIsDistinct(s: set<string>)
    ensures Distinct(Ascending(s))
  {
    var keys := Ascending(s);
    AscendingIsSorted(s);
    forall i, j | 0 <= i < j < |keys| ensures keys[i] != keys[j] {
      Utf16.LessIsStrictTotalOrder(keys[i], keys[i], keys[i]);
    }
  }

  function NormalMembers(v: Json, keys: seq<string>): map<string, Json>
    requires v.Obj? && forall k :: k in keys ==> k in v.members
  {
    map k | k in keys :: Normal(v.members[k])
  }

  lemma {:induction false} NormalMembersSplit(v: Json, keys: seq<string>, read: map<string, Json>)
    requires v.Obj? && keys != [] && Distinct(keys) && forall k :: k in keys ==> k in v.members
    ensures read[keys[0] := Normal(v.members[keys[0]])] + NormalMembers(v, keys[1..]) == read + NormalMembers(v, keys)
  {
    assert keys[0] !in keys[1..];
    assert forall k :: k in keys <==> k == keys[0] || k in keys[1..];
  }

  lemma {:induction false} MembersDenoteNormal(v: Json, keys: seq<string>, read: map<string, Json>)
    requires v.Obj? && Distinct(keys) && forall k :: k in keys ==> k in v.members
    ensures MembersToJson(OrderedMembers(v, keys), read) == read + NormalMembers(v, keys)
    decreases v, |keys|
  {
    if keys != [] {
      var k := keys[0];
      OrderedDenotesNormal(v.members[k]);
      MembersDenoteNormal(v, keys[1..], read[k := Normal(v.members[k])]);
      NormalMembersSplit(v, keys, read);
    }
  }

  lemma {:induction false} OrderedIsNumeric(v: Json)
    requires Supported(v)
    ensures Numeric(Ordered(v))
    decreases v
  {
    match v
    case Num(text) =>
      SafeIntegerIsAccepted(text);
      FormatIntIsNumber(NumeralValue(text));
    case Arr(items) => OrderedItemsAreNumeric(items);
    case Obj(members) => OrderedMembersAreNumeric(v, Ascending(members.Keys));
    case _ =>
  }

  lemma {:induction false} OrderedItemsAreNumeric(items: seq<Json>)
    requires forall i | 0 <= i < |items| :: Supported(items[i])
    ensures forall i | 0 <= i < |items| :: Numeric(OrderedItems(items)[i])
    decreases items
  {
    if items != [] {
      OrderedIsNumeric(items[0]);
      OrderedItemsAreNumeric(items[1..]);
    }
  }

  lemma {:induction false} OrderedMembersAreNumeric(v: Json, keys: seq<string>)
    requires v.Obj? && forall k :: k in keys ==> k in v.members && Supported(v.members[k])
    ensures forall i | 0 <= i < |keys| :: Numeric(OrderedMembers(v, keys)[i].value)
    decreases v, |keys|
  {
    if keys != [] {
      OrderedIsNumeric(v.members[keys[0]]);
      OrderedMembersAreNumeric(v, keys[1..]);
    }
  }

  // Every object, at every depth, has its members in key order.
  predicate InKeyOrder(t: Tree) {
    match t
    case TArr(items) => forall i | 0 <= i < |items| :: InKeyOrder(items[i])
    case TObj(members) =>
      && (forall i, j | 0 <= i < j < |members| :: Utf16.Less(members[i].key, members[j].key))
      && forall i | 0 <= i < |members| :: InKeyOrder(members[i].value)
    case _ => true
  }

  lemma {:induction false} OrderedIsInKeyOrder(v: Json)
    ensures InKeyOrder(Ordered(v))
    decreases v
  {
    match v
    case Arr(items) => OrderedItemsAreInKeyOrder(items);
    case Obj(members) =>
      AscendingIsSorted(members.Keys);
      OrderedMembersAreInKeyOrder(v, Ascending(members.Keys));
    case _ =>
  }

  lemma {:induction false} OrderedItemsAreInKeyOrder(items: seq<Json>)
    ensures forall i | 0 <= i < |items| :: InKeyOrder(OrderedItems(items)[i])
    decreases items
  {
    if items != [] {
      OrderedIsInKeyOrder(items[0]);
      OrderedItemsAreInKeyOrder(items[1..]);
    }
  }

  lemma {:induction false} OrderedMembersAreInKeyOrder(v: Json, keys: seq<string>)
    requires v.Obj? && forall k :: k in keys ==> k in v.members
    ensures forall i | 0 <= i < |keys| ::
      OrderedMembers(v, keys)[i].key == keys[i] && InKeyOrder(OrderedMembers(v, keys)[i].value)
    decreases v, |keys|
  {
    if keys != [] {
      OrderedIsInKeyOrder(v.members[keys[0]]);
      OrderedMembersAreInKeyOrder(v, keys[1..]);
    }
  }

  // The parts with commas between them.
  function Joined(parts: seq<string>): string {
    if parts == [] then ""
    else if |parts| == 1 then parts[0]
    else parts[0] + ("," + Joined(parts[1..]))
  }

  function Texts(items: seq<Json>): seq<string> {
    seq(|items|, i requires 0 <= i < |items| => Text(items[i]))
  }

  function MemberTexts(v: Json, keys: seq<string>): seq<string>
    requires v.Obj? && forall k :: k in keys ==> k in v.members
  {
    seq(|keys|, i requires 0 <= i < |keys| =>
      "\"" + EscapeAll(keys[i], CANONICAL) + "\"" + (":" + Text(v.members[keys[i]])))
  }

  // The canonical text, case by case: no space anywhere, members in key order, numbers in decimal.
  lemma {:induction false} TextIs(v: Json)
    requires Supported(v)
    ensures
      match v
      case Null => Text(v) == "null"
      case Bool(b) => Text(v) == if b then "true" else "false"
      case Num(text) => Text(v) == FormatInt(NumeralValue(text))
      case Str(s) => Text(v) == "\"" + EscapeAll(s, CANONICAL) + "\""
      case Arr(items) => Text(v) == "[" + Joined(Texts(items)) + "]"
      case Obj(members) => Text(v) == "{" + Joined(MemberTexts(v, Ascending(members.Keys))) + "}"
  {
    match v
    case Num(text) => SafeIntegerIsAccepted(text);
    case Arr(items) =>
      TextOfArray(items);
      JoinedItems(items, 0);
      assert items[0..] == items;
    case Obj(members) =>
      var keys := Ascending(members.Keys);
      TextOfObject(v);
      JoinedMembers(v, keys, 0);
      assert keys[0..] == keys;
    case _ =>
  }

  lemma {:induction false} JoinedCons(first: string, rest: seq<string>, close: string)
    ensures Joined([first] + rest) + close == first + if rest == [] then close else "," + (Joined(rest) + close)
  {
    assert ([first] + rest)[1..] == rest;
    if rest != [] {
      Assoc(first, "," + Joined(rest), close);
      Assoc(",", Joined(rest), close);
    }
  }

  // One part more in front: what is still to be written, and the parts joined and closed.
  lemma {:induction false} OneMorePart(
    first: bool, last: bool, part: string, after: string, after': string, joined: string, joined': string,
    close: string)
    requires after == if first then part + after' else "," + (part + after')
    requires after' == if last then close else "," + joined'
    requires joined == part + if last then close else "," + joined'
    ensures after == if first then joined else "," + joined
  {
  }

  lemma {:induction false} JoinedStep(items: seq<Json>, i: nat)
    requires i < |items|
    ensures Joined(Texts(items[i..])) + "]" ==
      Text(items[i]) + if i + 1 == |items| then "]" else "," + (Joined(Texts(items[i + 1..])) + "]")
  {
    JoinedCons(Text(items[i]), Texts(items[i + 1..]), "]");
    assert Texts(items[i..]) == [Text(items[i])] + Texts(items[i + 1..]);
  }

  lemma {:induction false} JoinedItems(items: seq<Json>, i: nat)
    requires i <= |items|
    ensures
      var rest := Joined(Texts(items[i..])) + "]";
      ItemsAfter(items, i) == if 0 < i < |items| then "," + rest else rest
    decreases |items| - i
  {
    if i < |items| {
      ItemsSplit(items, i);
      JoinedItems(items, i + 1);
      JoinedStep(items, i);
      OneMorePart(
        i == 0, i + 1 == |items|, Text(items[i]), ItemsAfter(items, i), ItemsAfter(items, i + 1),
        Joined(Texts(items[i..])) + "]", Joined(Texts(items[i + 1..])) + "]", "]");
    }
  }

  function MemberText(v: Json, key: string): string
    requires v.Obj? && key in v.members
  {
    Quote(key, CANONICAL) + (":" + Text(v.members[key]))
  }

  lemma {:induction false} JoinedMemberStep(v: Json, keys: seq<string>, i: nat)
    requires v.Obj? && i < |keys| && forall k :: k in keys ==> k in v.members
    ensures Joined(MemberTexts(v, keys[i..])) + "}" ==
      MemberText(v, keys[i]) + if i + 1 == |keys| then "}" else "," + (Joined(MemberTexts(v, keys[i + 1..])) + "}")
  {
    JoinedCons(MemberText(v, keys[i]), MemberTexts(v, keys[i + 1..]), "}");
    assert MemberTexts(v, keys[i..]) == [MemberText(v, keys[i])] + MemberTexts(v, keys[i + 1..]);
  }

  lemma {:induction false} JoinedMembers(v: Json, keys: seq<string>, i: nat)
    requires v.Obj? && i <= |keys| && forall k :: k in keys ==> k in v.members
    ensures
      var rest := Joined(MemberTexts(v, keys[i..])) + "}";
      MembersAfter(v, keys, i) == if 0 < i < |keys| then "," + rest else rest
    decreases |keys| - i
  {
    if i < |keys| {
      var key, text := Quote(keys[i], CANONICAL), Text(v.members[keys[i]]);
      MembersSplit(v, keys, i);
      Assoc(key, ":" + text, MembersAfter(v, keys, i + 1));
      Assoc(":", text, MembersAfter(v, keys, i + 1));
      JoinedMembers(v, keys, i + 1);
      JoinedMemberStep(v, keys, i);
      OneMorePart(
        i == 0, i + 1 == |keys|, MemberText(v, keys[i]), MembersAfter(v, keys, i), MembersAfter(v, keys, i + 1),
        Joined(MemberTexts(v, keys[i..])) + "}", Joined(MemberTexts(v, keys[i + 1..])) + "}", "}");
    }
  }

  // No way of writing a character in a string literal is shorter than the canonical one.
  lemma {:induction false} EscapeIsShortest(text: string, c: char, rest: string)
    requires ReadsAs(text, c, rest)
    ensures |Escape(c)| <= |text|
  {
    var s := text + rest;
    if s[0] != '\\' {
      assert |s[1..]| == |rest|;
    } else if s[1] != 'u' {
      assert |s[2..]| == |rest|;
    }
  }

  lemma {:induction false} HexDigitIsTheOnly(c: char)
    requires HexValue(c).Some? && !('A' <= c <= 'F')
    ensures HexDigit(HexValue(c).value) == c
  {
  }

  lemma {:induction false} LastPlace(q: nat, d: nat)
    requires d < 16
    ensures (q * 16 + d) / 16 == q && (q * 16 + d) % 16 == d
  {
  }

  lemma {:induction false} PlacesOf(a: nat, b: nat, c: nat, d: nat)
    requires a < 16 && b < 16 && c < 16 && d < 16
    ensures
      var n := ((a * 16 + b) * 16 + c) * 16 + d;
      n / 4096 == a && n / 256 % 16 == b && n / 16 % 16 == c && n % 16 == d
  {
    var n := ((a * 16 + b) * 16 + c) * 16 + d;
    LastPlace((a * 16 + b) * 16 + c, d);
    LastPlace(a * 16 + b, c);
    LastPlace(a, b);
    DivideBy256(n);
    DivideBy4096(n);
  }

  lemma {:induction false} Hex4IsTheOnly(digits: string, n: nat)
    requires |digits| == 4 && Hex4(digits) == Some(n) && forall d | d in digits :: !('A' <= d <= 'F')
    ensures digits == [HexDigit(n / 4096), HexDigit(n / 256 % 16), HexDigit(n / 16 % 16), HexDigit(n % 16)]
  {
    assert digits[0] in digits && digits[1] in digits && digits[2] in digits && digits[3] in digits;
    HexDigitIsTheOnly(digits[0]);
    HexDigitIsTheOnly(digits[1]);
    HexDigitIsTheOnly(digits[2]);
    HexDigitIsTheOnly(digits[3]);
    PlacesOf(
      HexValue(digits[0]).value, HexValue(digits[1]).value, HexValue(digits[2]).value, HexValue(digits[3]).value);
  }

  // The canonical escape is the only one that is as short and has no upper-case digit.
  lemma {:induction false} EscapeIsTheOnly(text: string, c: char)
    requires ReadsAs(text, c, "") && |text| <= |Escape(c)|
    requires text[0] == '\\' ==> forall d | d in text :: !('A' <= d <= 'F')
    ensures text == Escape(c)
  {
    assert text + "" == text;
    if text[0] != '\\' {
      assert text[1..] == "";
    } else if text[1] != 'u' {
      assert text[2..] == "";
    } else {
      assert text[6..] == "";
      assert forall d | d in text[2..] :: d in text;
      Hex4IsTheOnly(text[2..], c as int);
      assert text == "\\u" + text[2..];
    }
  }

  lemma {:induction false} HexDigitValue(d: nat)
    requires d < 16
    ensures HexValue(HexDigit(d)) == Some(d)
  {
  }

  lemma {:induction false} DivideBy256(n: nat)
    ensures n / 256 == n / 16 / 16
  {
  }

  lemma {:induction false} DivideBy4096(n: nat)
    ensures n / 4096 == n / 256 / 16
  {
  }

  lemma {:induction false} HexPlaces(n: nat)
    ensures n == ((n / 4096 * 16 + n / 256 % 16) * 16 + n / 16 % 16) * 16 + n % 16
  {
    DivideBy256(n);
    DivideBy4096(n);
    var q1, q2 := n / 16, n / 256;
    assert n == q1 * 16 + n % 16;
    assert q1 == q2 * 16 + q1 % 16;
    assert q2 == n / 4096 * 16 + q2 % 16;
  }

  lemma {:induction false} Hex4OfDigits(n: nat, rest: string)
    requires n < 0x1_0000
    ensures
      Hex4([HexDigit(n / 4096), HexDigit(n / 256 % 16), HexDigit(n / 16 % 16), HexDigit(n % 16)] + rest) == Some(n)
  {
    HexPlaces(n);
    HexDigitValue(n / 4096);
    HexDigitValue(n / 256 % 16);
    HexDigitValue(n / 16 % 16);
    HexDigitValue(n % 16);
  }

  lemma {:induction false} UnescapeUnitEscape(c: char, rest: string)
    requires c as int < 0x1_0000
    ensures ReadsAs(UnitEscape(c), c, rest)
  {
    var n, t := c as int, UnitEscape(c) + rest;
    var digits := [HexDigit(n / 4096), HexDigit(n / 256 % 16), HexDigit(n / 16 % 16), HexDigit(n % 16)];
    Hex4OfDigits(n, rest);
    assert t[2..] == digits + rest;
    assert t[6..] == rest;
  }

  lemma {:induction false} EscapeIsRead(c: char, rest: string)
    ensures ReadsAs(Escape(c), c, rest)
  {
    if c < ' ' {
      UnescapeUnitEscape(c, rest);
    }
    DropFront(Escape(c), rest);
  }

  lemma {:induction false} EscapesAreRead()
    ensures Escapes(Escape)
  {
    var escape := Escape;
    forall c: char, rest: string ensures ReadsAs(escape(c), c, rest) {
      EscapeIsRead(c, rest);
    }
  }

  lemma {:induction false} CanonicalIsGood()
    ensures Good(CANONICAL)
  {
    EscapesAreRead();
  }

  // The round trip: a parser reads back exactly the normal value and leaves exactly the rest.
  lemma {:induction false} RoundTrip(v: Json, rest: string)
    requires Supported(v)
    requires v.Num? ==> EndsNumber(rest)
    ensures ParseValue(Text(v) + rest) == Some((Normal(v), rest))
  {
    CanonicalIsGood();
    OrderedIsNumeric(v);
    OrderedDenotesNormal(v);
    ParseRender(Ordered(v), CANONICAL, 0, rest);
  }

  lemma {:induction false} FormatIntIsNormal(n: int)
    ensures SafeInteger(FormatInt(n)) <==> -9007199254740991 <= n <= 9007199254740991
    ensures NormalNumber(FormatInt(n)) == FormatInt(n)
  {
    FormatIntDenotes(n);
    SafeIntegerIsAccepted(FormatInt(n));
  }

  // An integer has a canonical form, its shortest numeral, exactly if it is at most 2^53 - 1 in absolute
  // value.
  lemma {:induction false} IntegersAccepted(n: int)
    ensures Jcs.Canonical(Utf8.Encode(FormatInt(n))).Ok? <==> -9007199254740991 <= n <= 9007199254740991
    ensures -9007199254740991 <= n <= 9007199254740991 ==>
      Jcs.Canonical(Utf8.Encode(FormatInt(n))) == Ok(Utf8.Encode(FormatInt(n)))
  {
    var t := TNum(FormatInt(n));
    CanonicalIsGood();
    FormatIntIsNumber(n);
    FormatIntIsNormal(n);
    FailsIffUnsupported(ToJson(t));
    assert FormatInt(n) + "" == FormatInt(n) == Render(t, CANONICAL, 0);
    assert !Trails("");
    CanonicalOfDocument(t, CANONICAL, 0, "");
  }

  // Normalizing changes neither what is supported nor what is printed.
  lemma {:induction false} NormalIsStable(v: Json)
    ensures Normal(Normal(v)) == Normal(v)
    ensures Supported(Normal(v)) <==> Supported(v)
    decreases v
  {
    match v
    case Num(text) =>
      SafeIntegerIsAccepted(text);
      if SafeInteger(text) {
        FormatIntIsNormal(NumeralValue(text));
      }
    case Arr(items) =>
      forall i | 0 <= i < |items|
        ensures Normal(Normal(items[i])) == Normal(items[i])
        ensures Supported(Normal(items[i])) <==> Supported(items[i])
      {
        NormalIsStable(items[i]);
      }
      assert forall i | 0 <= i < |items| :: Normal(v).items[i] == Normal(items[i]);
    case Obj(members) =>
      forall k | k in members
        ensures Normal(Normal(members[k])) == Normal(members[k])
        ensures Supported(Normal(members[k])) <==> Supported(members[k])
      {
        NormalIsStable(members[k]);
      }
      assert Normal(v).members.Keys == members.Keys;
    case _ =>
  }

  // The printed tree depends on the normal value only.
  lemma {:induction false} OrderedOfNormal(v: Json)
    ensures Ordered(Normal(v)) == Ordered(v)
    decreases v
  {
    match v
    case Num(text) =>
      SafeIntegerIsAccepted(text);
      if SafeInteger(text) {
        FormatIntIsNormal(NumeralValue(text));
      }
    case Arr(items) => OrderedItemsOfNormal(items);
    case Obj(members) =>
      assert Normal(v).members.Keys == members.Keys;
      OrderedMembersOfNormal(v, Ascending(members.Keys));
    case _ =>
  }

  lemma {:induction false} OrderedItemsOfNormal(items: seq<Json>)
    ensures OrderedItems(seq(|items|, i requires 0 <= i < |items| => Normal(items[i]))) == OrderedItems(items)
    decreases items
  {
    if items != [] {
      var normal := seq(|items|, i requires 0 <= i < |items| => Normal(items[i]));
      var rest := items[1..];
      assert normal[1..] == seq(|rest|, i requires 0 <= i < |rest| => Normal(rest[i]));
      OrderedOfNormal(items[0]);
      OrderedItemsOfNormal(rest);
    }
  }

  lemma {:induction false} OrderedMembersOfNormal(v: Json, keys: seq<string>)
    requires v.Obj? && forall k :: k in keys ==> k in v.members
    ensures OrderedMembers(Normal(v), keys) == OrderedMembers(v, keys)
    decreases v, |keys|
  {
    if keys != [] {
      OrderedOfNormal(v.members[keys[0]]);
      OrderedMembersOfNormal(v, keys[1..]);
    }
  }

  // Two values have the same canonical bytes exactly when they are the same up to number spelling.
  lemma {:induction false} BytesDetermineValue(v: Json, w: Json)
    requires Supported(v) && Supported(w)
    ensures Utf8.Encode(Text(v)) == Utf8.Encode(Text(w)) <==> Normal(v) == Normal(w)
  {
    if Utf8.Encode(Text(v)) == Utf8.Encode(Text(w)) {
      Utf8.EncodeInjective(Text(v), Text(w));
      RoundTrip(v, "");
      RoundTrip(w, "");
    }
    if Normal(v) == Normal(w) {
      OrderedOfNormal(v);
      OrderedOfNormal(w);
    }
  }

  lemma {:induction false} TextHead(v: Json, rest: string)
    requires Supported(v)
    ensures SkipSpace(Text(v) + rest) == Text(v) + rest
  {
    OrderedIsNumeric(v);
    RenderHead(Ordered(v), CANONICAL, 0, rest);
  }

  // Canonical bytes are a fixed point.
  lemma {:induction false} Idempotent(raw: Bytes)
    requires Jcs.Canonical(raw).Ok?
    ensures Jcs.Canonical(Jcs.Canonical(raw).value) == Jcs.Canonical(raw)
  {
    var v := ParseValue(SkipSpace(Utf8.Decode(raw))).value.0;
    FailsIffUnsupported(v);
    Utf8.DecodeEncode(Text(v));
    assert Text(v) + "" == Text(v);
    TextHead(v, "");
    RoundTrip(v, "");
    NormalIsStable(v);
    FailsIffUnsupported(Normal(v));
    OrderedOfNormal(v);
  }

  // Only space stands before position i, and what stands there is no closing bracket.
  predicate TrailsAt(rest: string, i: nat) {
    && i < |rest| && rest[i] !in " \t\n\r" && rest[i] != ']' && rest[i] != '}'
    && forall j | 0 <= j < i :: rest[j] in " \t\n\r"
  }

  ghost predicate Trails(rest: string) {
    exists i: nat :: TrailsAt(rest, i)
  }

  lemma {:induction false} TrailsIsMore(rest: string)
    ensures MoreFollows(rest) <==> Trails(rest)
  {
    if rest != "" && rest[0] in " \t\n\r" {
      TrailsIsMore(rest[1..]);
      if i: nat :| TrailsAt(rest, i) {
        assert TrailsAt(rest[1..], i - 1);
      }
      if i: nat :| TrailsAt(rest[1..], i) {
        assert forall j | 0 < j <= i + 1 :: rest[j] == rest[1..][j - 1];
        assert TrailsAt(rest, i + 1);
      }
    } else if MoreFollows(rest) {
      assert TrailsAt(rest, 0);
    }
  }

  // A document written in one of the good styles, in any member order, followed by anything that is not taken
  // for more data, has the canonical bytes of its value.
  lemma {:induction false} CanonicalOfDocument(t: Tree, st: Style, depth: nat, after: string)
    requires Good(st) && Numeric(t)
    requires t.TNum? ==> EndsNumber(after)
    ensures Jcs.Canonical(Utf8.Encode(Render(t, st, depth) + after)) ==
      if Trails(after) then Err(TrailingData)
      else if FirstError(ToJson(t)).Some? then Err(FirstError(ToJson(t)).value)
      else Ok(Utf8.Encode(Text(ToJson(t))))
  {
    var text := Render(t, st, depth) + after;
    TrailsIsMore(after);
    Utf8.DecodeEncode(text);
    RenderHead(t, st, depth, after);
    ParseRender(t, st, depth, after);
  }

  // The document's first value is v, and nothing follows that would be taken for more data.
  ghost predicate Reads(raw: Bytes, v: Json) {
    match ParseValue(SkipSpace(Utf8.Decode(raw)))
    case None => false
    case Some((w, rest)) => w == v && !Trails(rest)
  }

  lemma {:induction false} ReadsByMore(raw: Bytes)
    ensures
      var parsed := ParseValue(SkipSpace(Utf8.Decode(raw)));
      forall v :: Reads(raw, v) <==> parsed.Some? && parsed.value.0 == v && !MoreFollows(parsed.value.1)
  {
    var parsed := ParseValue(SkipSpace(Utf8.Decode(raw)));
    if parsed.Some? {
      TrailsIsMore(parsed.value.1);
    }
  }

  // Exactly the documents of supported values have canonical bytes.
  lemma {:induction false} SucceedsIffReads(raw: Bytes)
    ensures Jcs.Canonical(raw).Ok? <==> exists v :: Reads(raw, v) && Supported(v)
  {
    ReadsByMore(raw);
    if v :| Reads(raw, v) {
      FailsIffUnsupported(v);
    }
    if Jcs.Canonical(raw).Ok? {
      var v := ParseValue(SkipSpace(Utf8.Decode(raw))).value.0;
      FailsIffUnsupported(v);
      assert Reads(raw, v);
    }
  }

  // What reaches the signed bytes is the value and nothing else of how it arrived: any two documents
  // have the same canonical bytes exactly when their values are supported and equal up to the
  // spelling of numbers.
  lemma {:induction false} LayoutIsIrrelevant(raw: Bytes, raw': Bytes, v: Json, v': Json)
    requires Reads(raw, v) && Reads(raw', v')
    ensures
      Jcs.Canonical(raw).Ok? && Jcs.Canonical(raw) == Jcs.Canonical(raw') <==> Supported(v) && Normal(v) == Normal(v')
  {
    ReadsByMore(raw);
    ReadsByMore(raw');
    FailsIffUnsupported(v);
    FailsIffUnsupported(v');
    NormalIsStable(v);
    NormalIsStable(v');
    if Supported(v) && Supported(v') {
      BytesDetermineValue(v, v');
    }
  }

  // The check for trailing data does not see a closing bracket: this text is accepted.
  lemma {:induction false} TrailingBracketIsAccepted()
    ensures Jcs.Canonical(Utf8.Encode("null]x")) == Ok(Utf8.Encode("null"))
  {
    CanonicalIsGood();
    CanonicalOfDocument(TNull, CANONICAL, 0, "]x");
    TrailsIsMore("]x");
    assert "null" + "]x" == "null]x";
  }
}
