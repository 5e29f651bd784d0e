/**
 The JSON Canonicalization Scheme of RFC 8785, restricted to integers of at most 2^53 - 1 in
 absolute value: the bytes a signature covers.
 */
module Jcs {
  import opened Basics
  import opened Decimal
  import opened Json
  import opened JsonText
  import opened KeyOrder
  import Utf8

  const MAX_SAFE_INTEGER := 0x1F_FFFF_FFFF_FFFF

  datatype Error =
    | Malformed
    | TrailingData
    | NonInteger(text: string)
    | Unparsable(text: string)
    | OutOfRange(text: string)

  /* Strings, section 3.2.2.2 */

  function HexDigit(d: nat): char
    requires d < 16
  {
    if d < 10 then ('0' as int + d) as char else ('a' as int + d - 10) as char
  }

  function UnitEscape(c: char): string
    requires c as int < 0x1_0000
  {
    var n := c as int;
    "\\u" + [HexDigit(n / 4096), HexDigit(n / 256 % 16), HexDigit(n / 16 % 16), HexDigit(n % 16)]
  }

  function Escape(c: char): string {
    match c
    case '"' => "\\\""
    case '\\' => "\\\\"
    case '\U{8}' => "\\b"
    case '\U{C}' => "\\f"
    case '\n' => "\\n"
    case '\r' => "\\r"
    case '\t' => "\\t"
    case _ => if c < ' ' then UnitEscape(c) else [c]
  }

  const CANONICAL := Style(Escape, _ => "", "")

  /* Numbers */

  function NumberError(text: string): Option<Error> {
    if exists c :: c in text && c in ".eE" then Some(NonInteger(text))
    else
      match ParseInt(text)
      case None => Some(Unparsable(text))
      case Some(n) =>
        if n > MAX_SAFE_INTEGER || n < -MAX_SAFE_INTEGER then Some(OutOfRange(text)) else None
  }

  function NormalNumber(text: string): string {
    if NumberError(text).None? then FormatInt(ParseInt(text).value) else text
  }

  /* Values */

  // The error the printer meets first: elements in order, members in key order.
  function FirstError(v: Json): Option<Error>
    decreases v
  {
    match v
    case Num(text) => NumberError(text)
    case Arr(items) => FirstItemError(items)
    case Obj(members) => FirstMemberError(v, Ascending(members.Keys))
    case _ => None
  }

  function FirstItemError(items: seq<Json>): Option<Error>
    decreases items
  {
    if items == [] then None
    else if FirstError(items[0]).Some? then FirstError(items[0])
    else FirstItemError(items[1..])
  }

  function FirstMemberError(v: Json, keys: seq<string>): Option<Error>
    requires v.Obj? && forall k :: k in keys ==> k in v.members
    decreases v, |keys|
  {
    if keys == [] then None
    else if FirstError(v.members[keys[0]]).Some? then FirstError(v.members[keys[0]])
    else FirstMemberError(v, keys[1..])
  }

  // The value as it is printed: members in key order, numbers in shortest form.
  function Ordered(v: Json): Tree
    decreases v
  {
    match v
    case Null => TNull
    case Bool(b) => TBool(b)
    case Num(text) => TNum(NormalNumber(text))
    case Str(s) => TStr(s)
    case Arr(items) => TArr(OrderedItems(items))
    case Obj(members) => TObj(OrderedMembers(v, Ascending(members.Keys)))
  }

  function OrderedItems(items: seq<Json>): (r: seq<Tree>)
    ensures |r| == |items|
    decreases items
  {
    if items == [] then [] else [Ordered(items[0])] + OrderedItems(items[1..])
  }

  function OrderedMembers(v: Json, keys: seq<string>): (r: seq<Member>)
    requires v.Obj? && forall k :: k in keys ==> k in v.members
    ensures |r| == |keys|
    decreases v, |keys|
  {
    if keys == [] then [] else [Member(keys[0], Ordered(v.members[keys[0]]))] + OrderedMembers(v, keys[1..])
  }

  function Text(v: Json): string {
    Render(Ordered(v), CANONICAL, 0)
  }

  // The canonical bytes of a received document.
  function Canonical(raw: Bytes): Result<Bytes, Error> {
    match ParseValue(SkipSpace(Utf8.Decode(raw)))
    case None => Err(Malformed)
    case Some((v, rest)) =>
      if MoreFollows(rest) then Err(TrailingData)
      else match FirstError(v)
        case Some(e) => Err(e)
        case None => Ok(Utf8.Encode(Text(v)))
  }

  // json.Decoder.More: at the top level it answers no before a closing bracket.
  predicate MoreFollows(rest: string) {
    var t := SkipSpace(rest);
    t != "" && t[0] != ']' && t[0] != '}'
  }

  /* The printer */

  class Buffer {
    var data: Bytes

    constructor ()
      ensures data == []
    {
      data := [];
    }

    method WriteString(s: string)
      modifies this
      ensures data == old(data) + Utf8.Encode(s)
    {
      data := data + Utf8.Encode(s);
    }
  }

  // Writes s with the escapes of section 3.2.2.2.
  method AppendString(buf: Buffer, s: string)
    modifies buf
    ensures buf.data == old(buf.data) + Utf8.Encode(Quote(s, CANONICAL))
  {
    assert Quote(s, CANONICAL) == "\"" + (EscapeAll(s, CANONICAL) + "\"");
    Write(buf.data, "\"", EscapeAll(s, CANONICAL) + "\"", buf.data, Quote(s, CANONICAL));
    buf.WriteString("\"");
    var i := 0;
    while i < |s|
      invariant i <= |s|
      invariant Owes(buf.data, EscapeAll(s[i..], CANONICAL) + "\"", old(buf.data), Quote(s, CANONICAL))
    {
      ghost var rest := EscapeAll(s[i + 1..], CANONICAL) + "\"";
      assert s[i..][1..] == s[i + 1..];
      assert EscapeAll(s[i..], CANONICAL) + "\"" == Escape(s[i]) + rest;
      Write(buf.data, Escape(s[i]), rest, old(buf.data), Quote(s, CANONICAL));
      buf.WriteString(Escape(s[i]));
      i := i + 1;
    }
    assert EscapeAll(s[i..], CANONICAL) + "\"" == "\"";
    buf.WriteString("\"");
  }

  // Once rest is written after data, the buffer holds what it held before and then text.
  ghost predicate Owes(data: Bytes, rest: string, before: Bytes, text: string) {
    data + Utf8.Encode(rest) == before + Utf8.Encode(text)
  }

  lemma {:induction false} Write(data: Bytes, s: string, rest: string, before: Bytes, text: string)
    requires Owes(data, s + rest, before, text)
    ensures Owes(data + Utf8.Encode(s), rest, before, text)
  {
    Utf8.EncodeConcat(s, rest);
    Assoc(data, Utf8.Encode(s), Utf8.Encode(rest));
  }

  // The names of a map in whatever order the runtime walks it.
  method CollectKeys(members: map<string, Json>) returns (keys: seq<string>)
    ensures Distinct(keys) && forall k :: k in keys <==> k in members.Keys
  {
    keys := [];
    var left := members.Keys;
    while left != {}
      invariant left <= members.Keys
      invariant Distinct(keys) && forall k :: k in keys <==> k in members.Keys - left
      decreases |left|
    {
      var k :| k in left;
      assert k !in keys;
      keys := keys + [k];
      left := left - {k};
    }
  }

  method AppendCanonical(buf: Buffer, v: Json) returns (err: Option<Error>)
    modifies buf
    ensures err == FirstError(v)
    ensures err.None? ==> buf.data == old(buf.data) + Utf8.Encode(Text(v))
    decreases v, 1
  {
    err := None;
    match v
    case Null => buf.WriteString("null");
    case Bool(b) => buf.WriteString(if b then "true" else "false");
    case Num(text) =>
      err := NumberError(text);
      if err.None? {
        buf.WriteString(FormatInt(ParseInt(text).value));
      }
    case Str(s) => AppendString(buf, s);
    case Arr(_) => err := AppendArray(buf, v);
    case Obj(_) => err := AppendObject(buf, v);
  }

  method AppendArray(buf: Buffer, v: Json) returns (err: Option<Error>)
    requires v.Arr?
    modifies buf
    ensures err == FirstError(v)
    ensures err.None? ==> buf.data == old(buf.data) + Utf8.Encode(Text(v))
    decreases v, 0
  {
    err := None;
    var items := v.items;
    ghost var before, text := buf.data, Text(v);
    TextOfArray(items);
    Write(buf.data, "[", ItemsAfter(items, 0), before, text);
    buf.WriteString("[");
    for i := 0 to |items|
      invariant Owes(buf.data, ItemsAfter(items, i), before, text)
      invariant err.None? && FirstError(v) == FirstItemError(items[i..])
    {
      ItemsSplit(items, i);
      if i > 0 {
        Write(buf.data, ",", Text(items[i]) + ItemsAfter(items, i + 1), before, text);
        buf.WriteString(",");
      }
      Write(buf.data, Text(items[i]), ItemsAfter(items, i + 1), before, text);
      ErrorSplit(items, i);
      err := AppendCanonical(buf, items[i]);
      if err.Some? {
        return;
      }
    }
    buf.WriteString("]");
    assert items[|items|..] == [];
  }

  method AppendObject(buf: Buffer, v: Json) returns (err: Option<Error>)
    requires v.Obj?
    modifies buf
    ensures err == FirstError(v)
    ensures err.None? ==> buf.data == old(buf.data) + Utf8.Encode(Text(v))
    decreases v, 0
  {
    err := None;
    var keys := CollectKeys(v.members);
    SortIsAscending(keys, v.members.Keys);
    keys := Sort(keys);
    ghost var before, text := buf.data, Text(v);
    TextOfObject(v);
    Write(buf.data, "{", MembersAfter(v, keys, 0), before, text);
    buf.WriteString("{");
    for i := 0 to |keys|
      invariant Owes(buf.data, MembersAfter(v, keys, i), before, text)
      invariant err.None? && FirstError(v) == FirstMemberError(v, keys[i..])
    {
      ghost var rest := Text(v.members[keys[i]]) + MembersAfter(v, keys, i + 1);
      MembersSplit(v, keys, i);
      if i > 0 {
        Write(buf.data, ",", Quote(keys[i], CANONICAL) + (":" + rest), before, text);
        buf.WriteString(",");
      }
      Write(buf.data, Quote(keys[i], CANONICAL), ":" + rest, before, text);
      AppendString(buf, keys[i]);
      Write(buf.data, ":", rest, before, text);
      buf.WriteString(":");
      Write(buf.data, Text(v.members[keys[i]]), MembersAfter(v, keys, i + 1), before, text);
      MemberErrorSplit(v, keys, i);
      err := AppendCanonical(buf, v.members[keys[i]]);
      if err.Some? {
        return;
      }
    }
    buf.WriteString("}");
    assert keys[|keys|..] == [];
  }

  lemma {:induction false} ErrorSplit(items: seq<Json>, i: nat)
    requires i < |items|
    ensures FirstItemError(items[i..]) ==
      if FirstError(items[i]).Some? then FirstError(items[i]) else FirstItemError(items[i + 1..])
  {
    assert items[i..][1..] == items[i + 1..];
  }

  lemma {:induction false} MemberErrorSplit(v: Json, keys: seq<string>, i: nat)
    requires v.Obj? && i < |keys| && forall k :: k in keys ==> k in v.members
    ensures
      var e := FirstError(v.members[keys[i]]);
      FirstMemberError(v, keys[i..]) == if e.Some? then e else FirstMemberError(v, keys[i + 1..])
  {
    assert keys[i..][1..] == keys[i + 1..];
  }

  // What is still to be written of an array before element i.
  function ItemsAfter(items: seq<Json>, i: nat): string
    requires i <= |items|
  {
    if i == |items| then "]"
    else
      var rest := RenderItems(OrderedItems(items[i..]), CANONICAL, 1, "]");
      if i > 0 then "," + rest else rest
  }

  function MembersAfter(v: Json, keys: seq<string>, i: nat): string
    requires v.Obj? && i <= |keys| && forall k :: k in keys ==> k in v.members
  {
    if i == |keys| then "}"
    else
      var rest := RenderMembers(OrderedMembers(v, keys[i..]), CANONICAL, 1, "}");
      if i > 0 then "," + rest else rest
  }

  lemma {:induction false} TextOfArray(items: seq<Json>)
    ensures Text(Arr(items)) == "[" + ItemsAfter(items, 0)
  {
    assert CANONICAL.newline(0) + "]" == "]";
    assert items[0..] == items;
  }

  lemma {:induction false} TextOfObject(v: Json)
    requires v.Obj?
    ensures Text(v) == "{" + MembersAfter(v, Ascending(v.members.Keys), 0)
  {
    var keys := Ascending(v.members.Keys);
    assert CANONICAL.newline(0) + "}" == "}";
    assert keys[0..] == keys;
  }

  lemma {:induction false} ItemsSplit(items: seq<Json>, i: nat)
    requires i < |items|
    ensures
      var rest := Text(items[i]) + ItemsAfter(items, i + 1);
      ItemsAfter(items, i) == if i > 0 then "," + rest else rest
  {
    var ts, rest := OrderedItems(items[i..]), OrderedItems(items[i + 1..]);
    assert items[i..][0] == items[i] && items[i..][1..] == items[i + 1..];
    assert ts == [Ordered(items[i])] + rest;
    RenderFirstItem(Ordered(items[i]), rest);
  }

  lemma {:induction false} RenderFirstItem(t: Tree, rest: seq<Tree>)
    ensures RenderItems([t] + rest, CANONICAL, 1, "]") ==
      Render(t, CANONICAL, 0) + if rest == [] then "]" else "," + RenderItems(rest, CANONICAL, 1, "]")
  {
    assert CANONICAL.newline(1) == "";
    assert ([t] + rest)[1..] == rest;
    CompactDepth(t, 0, 1);
  }

  lemma {:induction false} MembersSplit(v: Json, keys: seq<string>, i: nat)
    requires v.Obj? && i < |keys| && forall k :: k in keys ==> k in v.members
    ensures
      var rest := Quote(keys[i], CANONICAL) + (":" + (Text(v.members[keys[i]]) + MembersAfter(v, keys, i + 1)));
      MembersAfter(v, keys, i) == if i > 0 then "," + rest else rest
  {
    var m := Member(keys[i], Ordered(v.members[keys[i]]));
    var rest := OrderedMembers(v, keys[i + 1..]);
    assert keys[i..][0] == keys[i] && keys[i..][1..] == keys[i + 1..];
    assert OrderedMembers(v, keys[i..]) == [m] + rest;
    RenderFirstMember(m, rest);
  }

  lemma {:induction false} RenderFirstMember(m: Member, rest: seq<Member>)
    ensures RenderMembers([m] + rest, CANONICAL, 1, "}") ==
      Quote(m.key, CANONICAL)
      + (":" + (Render(m.value, CANONICAL, 0)
                + if rest == [] then "}" else "," + RenderMembers(rest, CANONICAL, 1, "}")))
  {
    assert CANONICAL.newline(1) == "" && CANONICAL.colon == "";
    assert ([m] + rest)[1..] == rest;
    CompactDepth(m.value, 0, 1);
  }

  // Without space between tokens the depth does not show.
  lemma {:induction false} CompactDepth(t: Tree, d: nat, e: nat)
    ensures Render(t, CANONICAL, d) == Render(t, CANONICAL, e)
    decreases t, 0
  {
    match t
    case TArr(items) =>
      if items != [] {
        assert CANONICAL.newline(d) + "]" == "]" == CANONICAL.newline(e) + "]";
        CompactItemsDepth(items, d + 1, e + 1, "]");
      }
    case TObj(members) =>
      if members != [] {
        assert CANONICAL.newline(d) + "}" == "}" == CANONICAL.newline(e) + "}";
        CompactMembersDepth(members, d + 1, e + 1, "}");
      }
    case _ =>
  }

  lemma {:induction false} CompactItemsDepth(items: seq<Tree>, d: nat, e: nat, close: string)
    requires items != []
    ensures RenderItems(items, CANONICAL, d, close) == RenderItems(items, CANONICAL, e, close)
    decreases items, 1
  {
    CompactDepth(items[0], d, e);
    if |items| > 1 {
      CompactItemsDepth(items[1..], d, e, close);
    }
  }

  lemma {:induction false} CompactMembersDepth(members: seq<Member>, d: nat, e: nat, close: string)
    requires members != []
    ensures RenderMembers(members, CANONICAL, d, close) == RenderMembers(members, CANONICAL, e, close)
    decreases members, 1
  {
    CompactDepth(members[0].value, d, e);
    if |members| > 1 {
      CompactMembersDepth(members[1..], d, e, close);
    }
  }

  method CanonicalizeJSON(raw: Bytes) returns (r: Result<Bytes, Error>)
    ensures r == Canonical(raw)
  {
    var parsed := ParseValue(SkipSpace(Utf8.Decode(raw)));
    if parsed.None? {
      return Err(Malformed);
    }
    var (v, rest) := parsed.value;
    if MoreFollows(rest) {
      return Err(TrailingData);
    }
    var buf := new Buffer();
    var err := AppendCanonical(buf, v);
    if err.Some? {
      return Err(err.value);
    }
    assert [] + Utf8.Encode(Text(v)) == Utf8.Encode(Text(v));
    return Ok(buf.data);
  }
}
