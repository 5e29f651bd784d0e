/** The simulated network's partition table: which node may reach which host. */
module Partition {
  type Blocks = map<string, set<string>>

  predicate Blocked(m: Blocks, u: string, v: string) {
    u in m && v in m[u]
  }

  // One of the two is in g and the other in h.
  predicate Cross(g: seq<string>, h: seq<string>, u: string, v: string) {
    (u in g && v in h) || (v in g && u in h)
  }

  // The two nodes are in groups of different position.
  predicate Split(groups: seq<seq<string>>, u: string, v: string) {
    exists i, j :: 0 <= i < |groups| && 0 <= j < |groups| && i != j && u in groups[i] && v in groups[j]
  }

  ghost predicate CrossAfter(groups: seq<seq<string>>, i: nat, end: nat, u: string, v: string)
    requires i < end <= |groups|
  {
    exists j :: i < j < end && Cross(groups[i], groups[j], u, v)
  }

  ghost predicate SplitBefore(groups: seq<seq<string>>, end: nat, u: string, v: string)
    requires end <= |groups|
  {
    exists i :: 0 <= i < end && CrossAfter(groups, i, |groups|, u, v)
  }

  // m blocks what before blocks and the pairs across g and h.
  ghost predicate Adds(before: Blocks, m: Blocks, g: seq<string>, h: seq<string>) {
    forall u, v :: Blocked(m, u, v) <==> Blocked(before, u, v) || Cross(g, h, u, v)
  }

  lemma {:induction false} CrossSnoc(g: seq<string>, h: seq<string>, a: string, u: string, v: string)
    ensures Cross(g + [a], h, u, v) <==> Cross(g, h, u, v) || Cross([a], h, u, v)
    ensures Cross(h, g + [a], u, v) <==> Cross(h, g, u, v) || Cross(h, [a], u, v)
  {
  }

  lemma {:induction false} AddNode(m0: Blocks, m1: Blocks, m2: Blocks, g: seq<string>, h: seq<string>, x: nat)
    requires x < |g| && Adds(m0, m1, g[..x], h) && Adds(m1, m2, [g[x]], h)
    ensures Adds(m0, m2, g[..x + 1], h)
  {
    assert g[..x + 1] == g[..x] + [g[x]];
    forall u, v ensures Blocked(m2, u, v) <==> Blocked(m0, u, v) || Cross(g[..x + 1], h, u, v) {
      CrossSnoc(g[..x], h, g[x], u, v);
      assert Blocked(m1, u, v) <==> Blocked(m0, u, v) || Cross(g[..x], h, u, v);
    }
  }

  lemma {:induction false} AddPair(m0: Blocks, m1: Blocks, m2: Blocks, a: string, h: seq<string>, y: nat)
    requires y < |h| && Adds(m0, m1, [a], h[..y])
    requires forall u, v :: Blocked(m2, u, v) <==> Blocked(m1, u, v) || Cross([a], [h[y]], u, v)
    ensures Adds(m0, m2, [a], h[..y + 1])
  {
    assert h[..y + 1] == h[..y] + [h[y]];
    forall u, v ensures Blocked(m2, u, v) <==> Blocked(m0, u, v) || Cross([a], h[..y + 1], u, v) {
      CrossSnoc(h[..y], [a], h[y], u, v);
      assert Blocked(m1, u, v) <==> Blocked(m0, u, v) || Cross([a], h[..y], u, v);
    }
  }

  // Ordered pairs of positions suffice.
  lemma {:induction false} SplitIsSplitBefore(groups: seq<seq<string>>, u: string, v: string)
    ensures Split(groups, u, v) <==> SplitBefore(groups, |groups|, u, v)
  {
    if i, j :| 0 <= i < |groups| && 0 <= j < |groups| && i != j && u in groups[i] && v in groups[j] {
      var low, high := if i < j then i else j, if i < j then j else i;
      assert Cross(groups[low], groups[high], u, v);
      assert CrossAfter(groups, low, |groups|, u, v);
    }
    if SplitBefore(groups, |groups|, u, v) {
      var i :| 0 <= i < |groups| && CrossAfter(groups, i, |groups|, u, v);
      var j :| i < j < |groups| && Cross(groups[i], groups[j], u, v);
    }
  }

  lemma {:induction false} SplitIsSymmetric(groups: seq<seq<string>>, u: string, v: string)
    ensures Split(groups, u, v) <==> Split(groups, v, u)
  {
  }

  // Healing is a partition into nothing.
  lemma {:induction false} NobodySplit(u: string, v: string)
    ensures !Split([], u, v)
  {
  }

  class PartitionTable {
    var hostToNode: map<string, string>
    var blocked: Blocks

    // The groups of the latest partition, none after Heal.
    ghost var groups: seq<seq<string>>

    ghost predicate Valid()
      reads this
    {
      forall u, v :: Blocked(blocked, u, v) <==> Split(groups, u, v)
    }

    constructor ()
      ensures Valid() && hostToNode == map[] && groups == []
    {
      hostToNode, blocked, groups := map[], map[], [];
    }

    method RegisterHost(hostport: string, node: string)
      requires Valid()
      modifies this`hostToNode
      ensures Valid() && hostToNode == old(hostToNode)[hostport := node]
    {
      hostToNode := hostToNode[hostport := node];
    }

    method Block(a: string, b: string)
      modifies this`blocked
      ensures forall u, v :: Blocked(blocked, u, v) <==> old(Blocked(blocked, u, v)) || Cross([a], [b], u, v)
    {
      if a !in blocked {
        blocked := blocked[a := {}];
      }
      if b !in blocked {
        blocked := blocked[b := {}];
      }
      blocked := blocked[a := blocked[a] + {b}];
      blocked := blocked[b := blocked[b] + {a}];
    }

    // Replaces any earlier partition.
    method SetGroups(groups: seq<seq<string>>)
      modifies this`blocked, this`groups
      ensures Valid() && this.groups == groups
      ensures forall u, v :: Blocked(blocked, u, v) <==> Blocked(blocked, v, u)
    {
      blocked := map[];
      for i := 0 to |groups|
        invariant forall u, v :: Blocked(blocked, u, v) <==> SplitBefore(groups, i, u, v)
      {
        ghost var m1 := blocked;
        for j := i + 1 to |groups|
          invariant forall u, v :: Blocked(blocked, u, v) <==> Blocked(m1, u, v) || CrossAfter(groups, i, j, u, v)
        {
          ghost var m2 := blocked;
          for x := 0 to |groups[i]|
            invariant Adds(m2, blocked, groups[i][..x], groups[j])
          {
            ghost var m3 := blocked;
            for y := 0 to |groups[j]|
              invariant Adds(m3, blocked, [groups[i][x]], groups[j][..y])
            {
              ghost var m4 := blocked;
              Block(groups[i][x], groups[j][y]);
              AddPair(m3, m4, blocked, groups[i][x], groups[j], y);
            }
            assert groups[j][..|groups[j]|] == groups[j];
            AddNode(m2, m3, blocked, groups[i], groups[j], x);
          }
          assert groups[i][..|groups[i]|] == groups[i];
        }
      }
      this.groups := groups;
      forall u, v ensures Blocked(blocked, u, v) <==> Split(groups, u, v) {
        SplitIsSplitBefore(groups, u, v);
      }
      forall u, v ensures Blocked(blocked, u, v) <==> Blocked(blocked, v, u) {
        SplitIsSymmetric(groups, u, v);
      }
    }

    method Heal()
      modifies this`blocked, this`groups
      ensures Valid() && groups == [] && forall u, v :: !Blocked(blocked, u, v)
    {
      blocked, groups := map[], [];
      forall u, v ensures !Split(groups, u, v) {
        NobodySplit(u, v);
      }
    }

    // Hosts nobody registered can always be reached.
    method Allowed(from: string, hostport: string) returns (ok: bool)
      requires Valid()
      ensures ok <==> !(hostport in hostToNode && Split(groups, from, hostToNode[hostport]))
    {
      if hostport !in hostToNode {
        return true;
      }
      var to := hostToNode[hostport];
      return !(from in blocked && to in blocked[from]);
    }
  }

  predicate Disjoint(groups: seq<seq<string>>) {
    forall i, j, n | 0 <= i < |groups| && 0 <= j < |groups| && n in groups[i] && n in groups[j] :: i == j
  }

  // With disjoint groups two nodes are cut off exactly when both are in a group and not in the same.
  lemma {:induction false} DisjointGroupsSplit(groups: seq<seq<string>>, u: string, v: string)
    requires Disjoint(groups)
    ensures Split(groups, u, v) <==>
      && (exists i :: 0 <= i < |groups| && u in groups[i])
      && (exists j :: 0 <= j < |groups| && v in groups[j])
      && !(exists i :: 0 <= i < |groups| && u in groups[i] && v in groups[i])
  {
  }

  // A node is cut off from itself exactly when it is listed in two groups, so two nodes of one group
  // can always talk exactly when no node is listed twice.
  lemma {:induction false} SameGroupTalks(groups: seq<seq<string>>)
    ensures Disjoint(groups) <==>
      forall i, u, v | 0 <= i < |groups| && u in groups[i] && v in groups[i] :: !Split(groups, u, v)
  {
    if !Disjoint(groups) {
      var i, j, n :| 0 <= i < |groups| && 0 <= j < |groups| && n in groups[i] && n in groups[j] && i != j;
      assert Split(groups, n, n);
    }
  }

  // With a listed twice, a cannot reach b in its own group, nor itself.
  lemma {:induction false} OverlapCutsOff()
    ensures Split([["a", "b"], ["a"]], "a", "b") && Split([["a", "b"], ["a"]], "a", "a")
  {
    var groups := [["a", "b"], ["a"]];
    assert "a" in groups[0] && "b" in groups[0] && "a" in groups[1];
  }
}
