/**
 Sorting member names. A set of names has exactly one sorted enumeration, so the order in which a
 map is walked cannot show in the output.
 */
module KeyOrder {
  import Utf16

  predicate IsLeast(k: string, s: set<string>) {
    k in s && forall j | j in s :: j == k || Utf16.Less(k, j)
  }

  lemma {:induction false} LeastExists(s: set<string>)
    requires s != {}
    ensures exists k :: IsLeast(k, s)
    decreases |s|
  {
    var k :| k in s;
    if s == {k} {
      assert IsLeast(k, s);
    } else {
      LeastExists(s - {k});
      var j :| IsLeast(j, s - {k});
      Utf16.LessIsStrictTotalOrder(j, k, j);
      forall i | i in s - {k} && Utf16.Less(k, j) ensures Utf16.Less(k, i) {
        Utf16.LessIsStrictTotalOrder(k, j, i);
      }
      assert IsLeast(j, s) || IsLeast(k, s);
    }
  }

  function Least(s: set<string>): (k: string)
    requires s != {}
    ensures IsLeast(k, s)
  {
    LeastExists(s);
    assert forall j, k | IsLeast(j, s) && IsLeast(k, s) :: j == k by {
      forall j, k | IsLeast(j, s) && IsLeast(k, s) ensures j == k {
        Utf16.LessIsStrictTotalOrder(j, k, j);
      }
    }
    var k :| IsLeast(k, s);
    k
  }

  // The names of s from least to greatest.
  function Ascending(s: set<string>): (ks: seq<string>)
    ensures forall k :: k in ks <==> k in s
    decreases |s|
  {
    if s == {} then [] else [Least(s)] + Ascending(s - {Least(s)})
  }

  predicate Sorted(ks: seq<string>) {
    forall i, j | 0 <= i < j < |ks| :: Utf16.Less(ks[i], ks[j])
  }

  lemma {:induction false} AscendingIsSorted(s: set<string>)
    ensures Sorted(Ascending(s))
    decreases |s|
  {
    if s != {} {
      var k, rest := Least(s), s - {Least(s)};
      AscendingIsSorted(rest);
      forall j | 0 <= j < |Ascending(rest)| ensures Utf16.Less(k, Ascending(rest)[j]) {
        assert Ascending(rest)[j] in Ascending(rest);
      }
    }
  }

  // A sorted enumeration is the ascending one: nothing is left to choose.
  lemma {:induction false} SortedIsAscending(ks: seq<string>, s: set<string>)
    requires Sorted(ks) && forall k :: k in ks <==> k in s
    ensures ks == Ascending(s)
    decreases |ks|
  {
    if ks == [] {
      assert s == {};
    } else {
      var k := ks[0];
      assert k in s;
      forall j | j in s ensures j == k || Utf16.Less(k, j) {
        var i :| 0 <= i < |ks| && ks[i] == j;
      }
      Utf16.LessIsStrictTotalOrder(k, Least(s), k);
      assert k == Least(s);
      forall j ensures j in ks[1..] <==> j in s - {k} {
        if j in ks[1..] {
          Utf16.LessIsStrictTotalOrder(k, k, k);
        }
      }
      SortedIsAscending(ks[1..], s - {k});
    }
  }

  function Insert(k: string, ks: seq<string>): (r: seq<string>)
    requires Sorted(ks) && k !in ks
    ensures Sorted(r)
    ensures forall j :: j in r <==> j == k || j in ks
  {
    if ks == [] then [k]
    else
      Utf16.LessIsStrictTotalOrder(k, ks[0], k);
      if Utf16.Less(k, ks[0]) then
        assert forall j | 0 < j < |ks| :: Utf16.Less(k, ks[j]) by {
          forall j | 0 < j < |ks| ensures Utf16.Less(k, ks[j]) {
            Utf16.LessIsStrictTotalOrder(k, ks[0], ks[j]);
          }
        }
        [k] + ks
      else
        var r := Insert(k, ks[1..]);
        assert forall j | 0 <= j < |r| :: Utf16.Less(ks[0], r[j]) by {
          forall j | 0 <= j < |r| ensures Utf16.Less(ks[0], r[j]) {
            assert r[j] in r;
          }
        }
        [ks[0]] + r
  }

  predicate Distinct(ks: seq<string>) {
    forall i, j | 0 <= i < j < |ks| :: ks[i] != ks[j]
  }

  // Stands for the library's sort.
  function Sort(ks: seq<string>): (r: seq<string>)
    requires Distinct(ks)
    ensures Sorted(r)
    ensures forall j :: j in r <==> j in ks
  {
    if ks == [] then [] else Insert(ks[0], Sort(ks[1..]))
  }

  // Whatever order the names were collected in, sorting gives the same result.
  lemma {:induction false} SortIsAscending(ks: seq<string>, s: set<string>)
    requires Distinct(ks) && forall k :: k in ks <==> k in s
    ensures Sort(ks) == Ascending(s)
  {
    SortedIsAscending(Sort(ks), s);
  }
}
