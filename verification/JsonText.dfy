/**
 JSON texts. A tree is a value whose object members still stand in the order they are written in;
 a style fixes the escapes and the space between tokens. Every tree in every good style parses
 back to its value, so one proof serves the canonical form, json.Marshal and json.MarshalIndent.
 */
module JsonText {
  import opened Basics
  import opened Decimal
  import opened Json

  datatype Tree =
    | TNull
    | TBool(b: bool)
    | TNum(text: string)
    | TStr(s: string)
    | TArr(items: seq<Tree>)
    | TObj(members: seq<Member>)

  datatype Member = Member(key: string, value: Tree)

  // newline(n) is what separates tokens at depth n.
  datatype Style = Style(escape: char -> string, newline: nat -> string, colon: string)

  // The text stands for c inside a string literal, whatever follows it.
  predicate ReadsAs(text: string, c: char, rest: string) {
    text != "" && text[0] != '"' && Unescape(text + rest) == Some((c, rest))
  }

  ghost predicate Escapes(escape: char -> string) {
    forall c: char, rest: string :: ReadsAs(escape(c), c, rest)
  }

  ghost predicate Good(st: Style) {
    && Escapes(st.escape)
    && (forall n: nat :: AllSpace(st.newline(n)))
    && AllSpace(st.colon)
  }

  // Numbers are the only leaves whose text could be malformed.
  predicate Numeric(t: Tree) {
    match t
    case TNum(text) => ValidNumber(text)
    case TArr(items) => forall i | 0 <= i < |items| :: Numeric(items[i])
    case TObj(members) => forall i | 0 <= i < |members| :: Numeric(members[i].value)
    case _ => true
  }

  // The value a tree denotes: of two members with one name the later counts.
  function ToJson(t: Tree): Json
    decreases t, 0
  {
    match t
    case TNull => Null
    case TBool(b) => Bool(b)
    case TNum(text) => Num(text)
    case TStr(s) => Str(s)
    case TArr(items) => Arr(ItemsToJson(items))
    case TObj(members) => Obj(MembersToJson(members, map[]))
  }

  function ItemsToJson(items: seq<Tree>): (r: seq<Json>)
    decreases items, 1
  {
    if items == [] then [] else [ToJson(items[0])] + ItemsToJson(items[1..])
  }

  function MembersToJson(members: seq<Member>, read: map<string, Json>): map<string, Json>
    decreases members, 1
  {
    if members == [] then read
    else MembersToJson(members[1..], read[members[0].key := ToJson(members[0].value)])
  }

  function EscapeAll(s: string, st: Style): string {
    if s == "" then "" else st.escape(s[0]) + EscapeAll(s[1..], st)
  }

  function Quote(s: string, st: Style): string {
    "\"" + EscapeAll(s, st) + "\""
  }

  function Render(t: Tree, st: Style, depth: nat): string
    decreases t, 0
  {
    match t
    case TNull => "null"
    case TBool(b) => if b then "true" else "false"
    case TNum(text) => text
    case TStr(s) => Quote(s, st)
    case TArr(items) =>
      if items == [] then "[]"
      else "[" + RenderItems(items, st, depth + 1, st.newline(depth) + "]")
    case TObj(members) =>
      if members == [] then "{}"
      else "{" + RenderMembers(members, st, depth + 1, st.newline(depth) + "}")
  }

  function RenderItems(items: seq<Tree>, st: Style, depth: nat, close: string): string
    requires items != []
    decreases items, 1
  {
    st.newline(depth) + (Render(items[0], st, depth)
    + if |items| == 1 then close else "," + RenderItems(items[1..], st, depth, close))
  }

  function RenderMembers(members: seq<Member>, st: Style, depth: nat, close: string): string
    requires members != []
    decreases members, 1
  {
    st.newline(depth) + (Quote(members[0].key, st) + (":" + (st.colon + (Render(members[0].value, st, depth)
    + if |members| == 1 then close else "," + RenderMembers(members[1..], st, depth, close)))))
  }

  lemma {:induction false} SkipSpaceAppend(space: string, text: string)
    requires AllSpace(space)
    ensures SkipSpace(space + text) == SkipSpace(text)
  {
    if space == "" {
      assert space + text == text;
    } else {
      assert (space + text)[1..] == space[1..] + text;
      SkipSpaceAppend(space[1..], text);
    }
  }

  lemma {:induction false} ParseQuoted(s: string, st: Style, rest: string)
    requires Good(st)
    ensures ParseString(EscapeAll(s, st) + ("\"" + rest)) == Some((s, rest))
  {
    if s == "" {
      assert EscapeAll(s, st) + ("\"" + rest) == "\"" + rest;
      DropFront("\"", rest);
    } else {
      var tail := EscapeAll(s[1..], st) + ("\"" + rest);
      Assoc(st.escape(s[0]), EscapeAll(s[1..], st), "\"" + rest);
      assert ReadsAs(st.escape(s[0]), s[0], tail);
      ParseQuoted(s[1..], st, rest);
      assert [s[0]] + s[1..] == s;
    }
  }

  lemma {:induction false} RenderHead(t: Tree, st: Style, depth: nat, rest: string)
    requires Numeric(t)
    ensures Render(t, st, depth) != "" && Render(t, st, depth)[0] != ']'
    ensures SkipSpace(Render(t, st, depth) + rest) == Render(t, st, depth) + rest
  {
  }

  // What ParseValue makes of a text by its first character.
  lemma {:induction false} ParseStringValue(s: string, st: Style, rest: string)
    requires Good(st)
    ensures ParseValue(Quote(s, st) + rest) == Some((Str(s), rest))
  {
    QuoteText(s, st, rest);
    ParseQuoted(s, st, rest);
  }

  lemma {:induction false} QuoteText(s: string, st: Style, rest: string)
    ensures Quote(s, st) + rest != "" && (Quote(s, st) + rest)[0] == '"'
    ensures (Quote(s, st) + rest)[1..] == EscapeAll(s, st) + ("\"" + rest)
  {
    Assoc("\"", EscapeAll(s, st), "\"");
    Assoc("\"", EscapeAll(s, st) + "\"", rest);
    Assoc(EscapeAll(s, st), "\"", rest);
  }

  lemma {:induction false} ParseArrayValue(body: string)
    requires SkipSpace(body) != ""
    ensures ParseValue("[" + body) ==
      var t := SkipSpace(body);
      if t[0] == ']' then Some((Arr([]), t[1..]))
      else if ParseItems(t).None? then None
      else Some((Arr(ParseItems(t).value.0), ParseItems(t).value.1))
  {
    DropFront("[", body);
  }

  lemma {:induction false} ParseObjectValue(body: string)
    requires SkipSpace(body) != ""
    ensures ParseValue("{" + body) ==
      var t := SkipSpace(body);
      if t[0] == '}' then Some((Obj(map[]), t[1..]))
      else if ParseMembers(t, map[]).None? then None
      else Some((Obj(ParseMembers(t, map[]).value.0), ParseMembers(t, map[]).value.1))
  {
    DropFront("{", body);
  }

  lemma {:induction false} ParseNumberValue(text: string, rest: string)
    requires ValidNumber(text) && EndsNumber(rest)
    ensures ParseValue(text + rest) == Some((Num(text), rest))
  {
    NumberHead(text);
    NumberLengthAppend(text, rest);
    ParseNumberPrefix(text, rest);
    ParseValueByHead(text + rest);
  }

  lemma {:induction false} ParseNumberPrefix(text: string, rest: string)
    requires NumberLength(text + rest) == Some(|text|)
    ensures ParseNumber(text + rest) == Some((Num(text), rest))
  {
    DropFront(text, rest);
  }

  lemma {:induction false} ParseValueByHead(s: string)
    requires s != "" && (s[0] == '-' || IsDigit(s[0]))
    ensures ParseValue(s) == ParseNumber(s)
  {
  }

  lemma {:induction false} NumberHead(text: string)
    requires ValidNumber(text)
    ensures text != "" && (text[0] == '-' || IsDigit(text[0]))
  {
  }

  lemma {:induction false} ParseLiteralValue(t: Tree, st: Style, depth: nat, rest: string)
    requires t.TNull? || t.TBool?
    ensures ParseValue(Render(t, st, depth) + rest) == Some((ToJson(t), rest))
  {
    DropFront(Render(t, st, depth), rest);
  }

  // Parsing undoes rendering, in every style.
  lemma {:induction false} ParseRender(t: Tree, st: Style, depth: nat, rest: string)
    requires Good(st) && Numeric(t)
    requires t.TNum? ==> EndsNumber(rest)
    ensures ParseValue(Render(t, st, depth) + rest) == Some((ToJson(t), rest))
    decreases t, 0
  {
    match t
    case TStr(s) => ParseStringValue(s, st, rest);
    case TNum(text) => ParseNumberValue(text, rest);
    case TArr(items) =>
      if items == [] {
        assert "[]" + rest == "[" + ("]" + rest);
        ParseArrayValue("]" + rest);
      } else {
        var body := RenderItems(items, st, depth + 1, st.newline(depth) + "]");
        ParseRenderItems(items, st, depth + 1, st.newline(depth), rest);
        Assoc("[", body, rest);
        ParseArrayValue(body + rest);
      }
    case TObj(members) =>
      if members == [] {
        assert "{}" + rest == "{" + ("}" + rest);
        ParseObjectValue("}" + rest);
      } else {
        var body := RenderMembers(members, st, depth + 1, st.newline(depth) + "}");
        ParseRenderMembers(members, st, depth + 1, st.newline(depth), rest, map[]);
        Assoc("{", body, rest);
        ParseObjectValue(body + rest);
      }
    case _ => ParseLiteralValue(t, st, depth, rest);
  }

  lemma {:induction false} ParseRenderItems(items: seq<Tree>, st: Style, depth: nat, space: string, rest: string)
    requires Good(st) && items != [] && AllSpace(space)
    requires forall i | 0 <= i < |items| :: Numeric(items[i])
    ensures
      var t := SkipSpace(RenderItems(items, st, depth, space + "]") + rest);
      t != "" && t[0] != ']' && ParseItems(t) == Some((ItemsToJson(items), rest))
    decreases items, 1
  {
    var more := if |items| == 1 then "" else RenderItems(items[1..], st, depth, space + "]") + rest;
    var after := if |items| == 1 then space + ("]" + rest) else "," + more;
    ItemText(items, st, depth, space, rest, after);
    SkipSpaceAppend(st.newline(depth), Render(items[0], st, depth) + after);
    AfterElement(space, "]", rest, more, |items| == 1);
    ParseItem(items[0], st, depth, after);
    if |items| == 1 {
      assert ItemsToJson(items) == [ToJson(items[0])];
    } else {
      ParseRenderItems(items[1..], st, depth, space, rest);
    }
  }

  // The text of the elements, split at the first of them.
  lemma {:induction false} ItemText(items: seq<Tree>, st: Style, depth: nat, space: string, rest: string, after: string)
    requires items != []
    requires after ==
      if |items| == 1 then space + ("]" + rest)
      else "," + (RenderItems(items[1..], st, depth, space + "]") + rest)
    ensures
      RenderItems(items, st, depth, space + "]") + rest
      == st.newline(depth) + (Render(items[0], st, depth) + after)
  {
    var tail := if |items| == 1 then space + "]" else "," + RenderItems(items[1..], st, depth, space + "]");
    var head := Render(items[0], st, depth);
    Assoc(head, tail, rest);
    Assoc(st.newline(depth), head + tail, rest);
    if |items| == 1 {
      Assoc(space, "]", rest);
    } else {
      Assoc(",", RenderItems(items[1..], st, depth, space + "]"), rest);
    }
  }

  // The first element is read and the rest is left to what follows it.
  lemma {:induction false} ParseItem(item: Tree, st: Style, depth: nat, after: string)
    requires Good(st) && Numeric(item)
    requires SkipSpace(after) != "" && after != "" && EndsNumber(after)
    ensures
      var t := Render(item, st, depth) + after;
      var u := SkipSpace(after);
      && SkipSpace(t) == t && t != "" && t[0] != ']'
      && ParseItems(t) ==
         if u[0] == ']' then Some(([ToJson(item)], u[1..]))
         else if u[0] != ',' || ParseItems(SkipSpace(u[1..])).None? then None
         else
           var (vs, rest') := ParseItems(SkipSpace(u[1..])).value;
           Some(([ToJson(item)] + vs, rest'))
    decreases item, 2
  {
    RenderHead(item, st, depth, after);
    ParseRender(item, st, depth, after);
  }

  lemma {:induction false} ParseRenderMembers(
    members: seq<Member>, st: Style, depth: nat, space: string, rest: string, read: map<string, Json>)
    requires Good(st) && members != [] && AllSpace(space)
    requires forall i | 0 <= i < |members| :: Numeric(members[i].value)
    ensures
      var t := SkipSpace(RenderMembers(members, st, depth, space + "}") + rest);
      t != "" && t[0] != '}' && ParseMembers(t, read) == Some((MembersToJson(members, read), rest))
    decreases members, 1
  {
    var key, value := members[0].key, members[0].value;
    var more := if |members| == 1 then "" else RenderMembers(members[1..], st, depth, space + "}") + rest;
    var after := if |members| == 1 then space + ("}" + rest) else "," + more;
    var read' := read[key := ToJson(value)];
    MembersStart(members, st, depth, space, rest, after);
    AfterElement(space, "}", rest, more, |members| == 1);
    ParseMember(key, value, st, depth, after, read);
    if |members| == 1 {
      assert members[1..] == [];
    } else {
      ParseRenderMembers(members[1..], st, depth, space, rest, read');
    }
  }

  // What follows an element: the closing bracket after space, or a comma and more.
  lemma {:induction false} AfterElement(space: string, close: string, rest: string, more: string, last: bool)
    requires AllSpace(space) && close in {"]", "}"}
    ensures
      var after := if last then space + (close + rest) else "," + more;
      && after != "" && SkipSpace(after) == (if last then close + rest else after) && EndsNumber(after)
      && SkipSpace(after)[1..] == if last then rest else more
  {
    SkipSpaceAppend(space, close + rest);
    DropFront(close, rest);
    DropFront(",", more);
  }

  lemma {:induction false} MembersStart(
    members: seq<Member>, st: Style, depth: nat, space: string, rest: string, after: string)
    requires members != [] && AllSpace(st.newline(depth))
    requires after ==
      if |members| == 1 then space + ("}" + rest)
      else "," + (RenderMembers(members[1..], st, depth, space + "}") + rest)
    ensures
      SkipSpace(RenderMembers(members, st, depth, space + "}") + rest)
      == SkipSpace(Quote(members[0].key, st) + (":" + (st.colon + (Render(members[0].value, st, depth) + after))))
  {
    MemberText(members, st, depth, space, rest, after);
    SkipSpaceAppend(
      st.newline(depth),
      Quote(members[0].key, st) + (":" + (st.colon + (Render(members[0].value, st, depth) + after))));
  }

  // The text of the members, split at the first of them.
  lemma {:induction false} MemberText(
    members: seq<Member>, st: Style, depth: nat, space: string, rest: string, after: string)
    requires members != []
    requires after ==
      if |members| == 1 then space + ("}" + rest)
      else "," + (RenderMembers(members[1..], st, depth, space + "}") + rest)
    ensures
      RenderMembers(members, st, depth, space + "}") + rest
      == st.newline(depth)
         + (Quote(members[0].key, st) + (":" + (st.colon + (Render(members[0].value, st, depth) + after))))
  {
    var tail := if |members| == 1 then space + "}" else "," + RenderMembers(members[1..], st, depth, space + "}");
    var value := Render(members[0].value, st, depth);
    Assoc(value, tail, rest);
    Assoc(st.colon, value + tail, rest);
    Assoc(":", st.colon + (value + tail), rest);
    Assoc(Quote(members[0].key, st), ":" + (st.colon + (value + tail)), rest);
    Assoc(st.newline(depth), Quote(members[0].key, st) + (":" + (st.colon + (value + tail))), rest);
    if |members| == 1 {
      Assoc(space, "}", rest);
    } else {
      Assoc(",", RenderMembers(members[1..], st, depth, space + "}"), rest);
    }
  }

  // The first member is read and the rest is left to what follows it.
  lemma {:induction false} ParseMember(
    key: string, value: Tree, st: Style, depth: nat, after: string, read: map<string, Json>)
    requires Good(st) && Numeric(value)
    requires SkipSpace(after) != "" && after != "" && EndsNumber(after)
    ensures
      var t := Quote(key, st) + (":" + (st.colon + (Render(value, st, depth) + after)));
      var u := SkipSpace(after);
      && SkipSpace(t) == t
      && ParseMembers(t, read) ==
         if u[0] == '}' then Some((read[key := ToJson(value)], u[1..]))
         else if u[0] != ',' then None
         else ParseMembers(SkipSpace(u[1..]), read[key := ToJson(value)])
    decreases value, 2
  {
    var body := st.colon + (Render(value, st, depth) + after);
    var t := Quote(key, st) + (":" + body);
    QuoteText(key, st, ":" + body);
    ParseQuoted(key, st, ":" + body);
    DropFront(":", body);
    SkipSpaceAppend(st.colon, Render(value, st, depth) + after);
    RenderHead(value, st, depth, after);
    ParseRender(value, st, depth, after);
  }
}
