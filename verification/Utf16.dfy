/**
 The property order of RFC 8785, section 3.2.3: strings compared as sequences of UTF-16 code units.
 The surrogate ranges are those of RFC 2781, section 2.1.
 */
module Utf16 {

  function EncodeChar(c: char): (u: seq<nat>)
    ensures 1 <= |u| <= 2
  {
    var n := c as int;
    if n < 0x1_0000 then [n]
    else [0xD800 + (n - 0x1_0000) / 0x400, 0xDC00 + (n - 0x1_0000) % 0x400]
  }

  function Encode(s: string): seq<nat> {
    if s == "" then [] else EncodeChar(s[0]) + Encode(s[1..])
  }

  // Lexicographic order; a proper prefix comes first.
  predicate LexLess(a: seq<nat>, b: seq<nat>) {
    if a == [] || b == [] then |a| < |b|
    else a[0] < b[0] || (a[0] == b[0] && LexLess(a[1..], b[1..]))
  }

  predicate Less(a: string, b: string) {
    LexLess(Encode(a), Encode(b))
  }

  // Walks both encodings to the first unit that differs.
  method LessUTF16(a: string, b: string) returns (less: bool)
    ensures less == Less(a, b)
  {
    var ua, ub := Encode(a), Encode(b);
    var i := 0;
    while i < |ua| && i < |ub|
      invariant i <= |ua| && i <= |ub|
      invariant Less(a, b) == LexLess(ua[i..], ub[i..])
    {
      assert ua[i..][1..] == ua[i + 1..] && ub[i..][1..] == ub[i + 1..];
      if ua[i] != ub[i] {
        return ua[i] < ub[i];
      }
      i := i + 1;
    }
    return |ua| < |ub|;
  }

  // Code points renumbered so that the supplementary planes fall between U+D7FF and U+E000.
  function Rank(c: char): nat {
    var n := c as int;
    if n < 0xD800 then n
    else if n < 0x1_0000 then n + 0x10_0000
    else 0xD800 + (n - 0x1_0000)
  }

  predicate RankLess(a: string, b: string) {
    if a == "" || b == "" then |a| < |b|
    else Rank(a[0]) < Rank(b[0]) || (a[0] == b[0] && RankLess(a[1..], b[1..]))
  }

  lemma {:induction false} RankInjective(c: char, d: char)
    ensures Rank(c) == Rank(d) ==> c == d
  {
  }

  lemma {:induction false} DifferentHeads(c: char, d: char, a: seq<nat>, b: seq<nat>)
    requires c != d
    ensures LexLess(EncodeChar(c) + a, EncodeChar(d) + b) <==> Rank(c) < Rank(d)
  {
    var x, y := EncodeChar(c) + a, EncodeChar(d) + b;
    if c as int >= 0x1_0000 && d as int >= 0x1_0000 && x[0] == y[0] {
      assert x[1..][0] == EncodeChar(c)[1] && y[1..][0] == EncodeChar(d)[1];
    }
  }

  lemma {:induction false} SameHead(u: seq<nat>, a: seq<nat>, b: seq<nat>)
    ensures LexLess(u + a, u + b) == LexLess(a, b)
  {
    if u == [] {
      assert u + a == a && u + b == b;
    } else {
      assert (u + a)[1..] == u[1..] + a && (u + b)[1..] == u[1..] + b;
      SameHead(u[1..], a, b);
    }
  }

  // The order theorem: comparing code units is comparing code points under Rank.
  lemma {:induction false} LessIsRankLess(a: string, b: string)
    ensures Less(a, b) <==> RankLess(a, b)
  {
    if a != "" && b != "" {
      if a[0] == b[0] {
        SameHead(EncodeChar(a[0]), Encode(a[1..]), Encode(b[1..]));
        LessIsRankLess(a[1..], b[1..]);
      } else {
        RankInjective(a[0], b[0]);
        DifferentHeads(a[0], b[0], Encode(a[1..]), Encode(b[1..]));
      }
    }
  }

  lemma {:induction false} RankTransitive(a: string, b: string, c: string)
    requires RankLess(a, b) && RankLess(b, c)
    ensures RankLess(a, c)
  {
    if a != "" && b != "" && c != "" && a[0] == b[0] && b[0] == c[0] {
      RankTransitive(a[1..], b[1..], c[1..]);
    }
  }

  lemma {:induction false} RankTotal(a: string, b: string)
    ensures RankLess(a, b) || a == b || RankLess(b, a)
    ensures !(RankLess(a, b) && RankLess(b, a)) && !RankLess(a, a)
  {
    if a != "" && b != "" {
      RankInjective(a[0], b[0]);
      RankTotal(a[1..], b[1..]);
    }
    RankIrreflexive(a);
  }

  lemma {:induction false} RankIrreflexive(a: string)
    ensures !RankLess(a, a)
  {
    if a != "" {
      RankIrreflexive(a[1..]);
    }
  }

  // The key order is a strict total order on strings.
  lemma {:induction false} LessIsStrictTotalOrder(a: string, b: string, c: string)
    ensures !Less(a, a)
    ensures Less(a, b) && Less(b, c) ==> Less(a, c)
    ensures Less(a, b) || a == b || Less(b, a)
    ensures !(Less(a, b) && Less(b, a))
  {
    LessIsRankLess(a, a);
    LessIsRankLess(a, b);
    LessIsRankLess(b, a);
    LessIsRankLess(b, c);
    LessIsRankLess(a, c);
    RankTotal(a, b);
    if RankLess(a, b) && RankLess(b, c) {
      RankTransitive(a, b, c);
    }
  }
}
