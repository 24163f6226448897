/** Walking down through the children index: pre-order and levels (crates/remoter-core/src/tree.rs:252-275, 1088-1109). */
module Walks {
  import opened Base
  import opened Inheritance
  import opened Nodes
  import opened Lineages
  import opened Forests
  import opened SiblingIndex

  /** Pre-order of a list of subtrees, cut off below `fuel` levels. */
  function PreorderFrom(children: Index, s: seq<NodeId>, fuel: nat): seq<NodeId>
    decreases fuel, |s|
  {
    if s == [] || fuel == 0 then []
    else [s[0]] + PreorderFrom(children, Kids(children, Some(s[0])), fuel - 1) + PreorderFrom(children, s[1..], fuel)
  }

  lemma PreorderUnfold(children: Index, s: seq<NodeId>, fuel: nat)
    requires s != [] && fuel > 0
    ensures PreorderFrom(children, s, fuel)
            == [s[0]] + PreorderFrom(children, Kids(children, Some(s[0])), fuel - 1) + PreorderFrom(children, s[1..], fuel)
  {
  }

  lemma PreorderEmpty(children: Index, s: seq<NodeId>, fuel: nat)
    requires s == [] || fuel == 0
    ensures PreorderFrom(children, s, fuel) == []
  {
  }

  lemma PreorderCases(children: Index, s: seq<NodeId>, fuel: nat, y: NodeId)
    ensures y in PreorderFrom(children, s, fuel) <==>
            s != [] && fuel > 0
            && (y == s[0] || y in PreorderFrom(children, Kids(children, Some(s[0])), fuel - 1)
                || y in PreorderFrom(children, s[1..], fuel))
  {
  }

  /** Pre-order below a node; as many levels as the map has nodes are always enough. */
  function Preorder(nodes: Forest, children: Index, id: NodeId): seq<NodeId> {
    PreorderFrom(children, Kids(children, Some(id)), |nodes|)
  }

  /** The cut-off is not reached. */
  ghost predicate Fits(children: Index, s: seq<NodeId>, fuel: nat)
    decreases fuel, |s|
  {
    s == []
    || (fuel > 0 && Fits(children, Kids(children, Some(s[0])), fuel - 1) && Fits(children, s[1..], fuel))
  }

  lemma {:induction false} ChildDepth(nodes: Forest, x: NodeId, child: NodeId)
    requires Anchored(nodes) && x in nodes && child in nodes && nodes[child].parentId == Some(x)
    ensures Depth(nodes, child) == Depth(nodes, x) + 1 <= |nodes|
    ensures Under(Parents(nodes), x, child)
  {
    DepthStep(nodes, child);
    DepthStep(nodes, x);
    LineageChain(Parents(nodes), Some(child));
  }

  lemma {:induction false} FitsInTree(nodes: Forest, children: Index, s: seq<NodeId>, fuel: nat)
    requires Anchored(nodes) && Indexed(nodes, children)
    requires forall x :: x in s ==> x in nodes && fuel + Depth(nodes, x) > |nodes|
    ensures Fits(children, s, fuel)
    decreases fuel, |s|
  {
    hide Lineage, Rooted, Climb;
    if s != [] {
      var x := s[0];
      assert x in s;
      KidsExact(nodes, children, Some(x));
      DepthStep(nodes, x);
      LineageChain(Parents(nodes), Some(x));
      forall child | child in Kids(children, Some(x)) ensures fuel - 1 + Depth(nodes, child) > |nodes| {
        ChildDepth(nodes, x, child);
      }
      FitsInTree(nodes, children, Kids(children, Some(x)), fuel - 1);
      FitsInTree(nodes, children, s[1..], fuel);
    }
  }

  lemma {:induction false} FuelIrrelevant(children: Index, s: seq<NodeId>, f: nat, g: nat)
    requires Fits(children, s, f) && f <= g
    ensures Fits(children, s, g) && PreorderFrom(children, s, f) == PreorderFrom(children, s, g)
    decreases f, |s|
  {
    if s != [] {
      FuelIrrelevant(children, Kids(children, Some(s[0])), f - 1, g - 1);
      FuelIrrelevant(children, s[1..], f, g);
    }
  }

  lemma {:induction false} FitsAppend(children: Index, s: seq<NodeId>, t: seq<NodeId>, fuel: nat)
    requires Fits(children, s, fuel) && Fits(children, t, fuel)
    ensures Fits(children, s + t, fuel)
    decreases |s|
  {
    if s == [] {
      assert s + t == t;
    } else {
      FitsAppend(children, s[1..], t, fuel);
      assert (s + t)[1..] == s[1..] + t;
    }
  }

  lemma {:induction false} PreorderAppend(children: Index, s: seq<NodeId>, t: seq<NodeId>, fuel: nat)
    ensures PreorderFrom(children, s + t, fuel) == PreorderFrom(children, s, fuel) + PreorderFrom(children, t, fuel)
    decreases |s|
  {
    if s == [] {
      assert s + t == t;
    } else if fuel > 0 {
      var below, rest := PreorderFrom(children, Kids(children, Some(s[0])), fuel - 1), PreorderFrom(children, s[1..], fuel);
      PreorderAppend(children, s[1..], t, fuel);
      assert (s + t)[0] == s[0] && (s + t)[1..] == s[1..] + t;
      Regroup(s[0], below, rest, PreorderFrom(children, t, fuel));
    }
  }

  lemma Regroup(x: NodeId, a: seq<NodeId>, b: seq<NodeId>, c: seq<NodeId>)
    ensures [x] + a + (b + c) == ([x] + a + b) + c
  {
  }

  /** One step of a depth-first traversal: the first pending node is replaced by its children. */
  lemma {:induction false} PreorderPop(children: Index, s: seq<NodeId>, fuel: nat)
    requires s != [] && Fits(children, s, fuel)
    ensures Fits(children, Kids(children, Some(s[0])) + s[1..], fuel)
    ensures PreorderFrom(children, s, fuel) == [s[0]] + PreorderFrom(children, Kids(children, Some(s[0])) + s[1..], fuel)
  {
    var kids := Kids(children, Some(s[0]));
    FuelIrrelevant(children, kids, fuel - 1, fuel);
    FitsAppend(children, kids, s[1..], fuel);
    PreorderAppend(children, kids, s[1..], fuel);
  }

  /** What is visited and what is pending add up to the whole traversal. */
  ghost predicate Traversing(children: Index, out: seq<NodeId>, pending: seq<NodeId>, fuel: nat, all: seq<NodeId>) {
    Fits(children, pending, fuel) && Distinct(all) && out + PreorderFrom(children, pending, fuel) == all
  }

  lemma {:induction false} TraversalStep(children: Index, out: seq<NodeId>, pending: seq<NodeId>, fuel: nat, all: seq<NodeId>)
    requires pending != [] && Traversing(children, out, pending, fuel, all)
    ensures pending[0] !in out && |out| < |all|
    ensures Traversing(children, out + [pending[0]], Kids(children, Some(pending[0])) + pending[1..], fuel, all)
  {
    hide PreorderFrom, Fits;
    PreorderPop(children, pending, fuel);
    assert all[|out|] == pending[0] && forall i :: 0 <= i < |out| ==> all[i] == out[i];
  }

  lemma TraversalDone(children: Index, out: seq<NodeId>, fuel: nat, all: seq<NodeId>)
    requires Traversing(children, out, [], fuel, all)
    ensures out == all
  {
    PreorderEmpty(children, [], fuel);
    assert out + [] == out;
  }

  /** Under a node and not the node: under one of its children. */
  lemma {:induction false} ChildOnPath(nodes: Forest, x: NodeId, y: NodeId) returns (child: NodeId)
    requires Anchored(nodes) && x in nodes && y in nodes && Under(Parents(nodes), x, y) && x != y
    ensures child in nodes && nodes[child].parentId == Some(x) && Under(Parents(nodes), child, y)
    decreases Depth(nodes, y)
  {
    DepthStep(nodes, y);
    var p := nodes[y].parentId.value;
    LineageStep(Parents(nodes), p);
    if p == x {
      child := y;
    } else {
      child := ChildOnPath(nodes, x, p);
      UnderTransitive(Parents(nodes), child, p, y);
    }
  }

  lemma {:induction false} SelfUnder(nodes: Forest, x: NodeId)
    requires Anchored(nodes) && x in nodes
    ensures Under(Parents(nodes), x, x) && Rooted(Parents(nodes), Some(x))
  {
    DepthStep(nodes, x);
    assert Anchor(nodes, x);
  }

  lemma {:induction false} UnderIsDeeper(nodes: Forest, x: NodeId, y: NodeId)
    requires Anchored(nodes) && y in nodes && Under(Parents(nodes), x, y)
    ensures x in nodes && Depth(nodes, x) <= Depth(nodes, y)
    ensures Depth(nodes, x) == Depth(nodes, y) ==> x == y
  {
    hide Lineage, Rooted, Climb;
    var p := Lineage(Parents(nodes), Some(y));
    assert Anchor(nodes, y);
    LineageChain(Parents(nodes), Some(y));
    var k :| 0 <= k < |p| && p[k] == x;
    LineageSuffix(Parents(nodes), Some(y), k);
    DepthStep(nodes, y);
  }

  /** Whatever the traversal lists is in the subtree of a member of its start list. */
  lemma {:induction false} PreorderSound(nodes: Forest, children: Index, s: seq<NodeId>, fuel: nat, y: NodeId) returns (x: NodeId)
    requires Anchored(nodes) && Indexed(nodes, children)
    requires forall z :: z in s ==> z in nodes
    requires y in PreorderFrom(children, s, fuel)
    ensures x in s && y in nodes && Under(Parents(nodes), x, y)
    decreases fuel, |s|
  {
    hide Lineage, Rooted, Climb, Indexed, PreorderFrom, Under;
    PreorderCases(children, s, fuel, y);
    var kids := Kids(children, Some(s[0]));
    assert s[0] in s;
    if y == s[0] {
      x := y;
      SelfUnder(nodes, y);
    } else if y in PreorderFrom(children, s[1..], fuel) {
      x := PreorderSound(nodes, children, s[1..], fuel, y);
    } else {
      x := s[0];
      KidsExact(nodes, children, Some(x));
      var child := PreorderSound(nodes, children, kids, fuel - 1, y);
      BelowChild(nodes, x, child, y);
    }
  }

  lemma {:induction false} BelowChild(nodes: Forest, x: NodeId, child: NodeId, y: NodeId)
    requires Anchored(nodes) && x in nodes && child in nodes && nodes[child].parentId == Some(x)
    requires y in nodes && Under(Parents(nodes), child, y)
    ensures Under(Parents(nodes), x, y) && Depth(nodes, x) < Depth(nodes, y)
  {
    hide Lineage, Rooted, Climb;
    ChildDepth(nodes, x, child);
    SelfUnder(nodes, y);
    UnderTransitive(Parents(nodes), x, child, y);
    UnderIsDeeper(nodes, child, y);
  }

  /** The traversal misses no member of the subtrees of its start list. */
  lemma {:induction false} PreorderComplete(nodes: Forest, children: Index, s: seq<NodeId>, fuel: nat, x: NodeId, y: NodeId)
    requires Anchored(nodes) && Indexed(nodes, children) && Fits(children, s, fuel)
    requires x in s && x in nodes && y in nodes && Under(Parents(nodes), x, y)
    ensures y in PreorderFrom(children, s, fuel)
    decreases fuel, |s|
  {
    hide Lineage, Rooted, Climb;
    if x != s[0] {
      PreorderComplete(nodes, children, s[1..], fuel, x, y);
    } else if x != y {
      var child := ChildOnPath(nodes, x, y);
      KidsExact(nodes, children, Some(x));
      PreorderComplete(nodes, children, Kids(children, Some(x)), fuel - 1, child, y);
    }
  }

  /** A traversal of distinct nodes of one depth visits nothing twice. */
  lemma {:induction false} PreorderDistinct(nodes: Forest, children: Index, s: seq<NodeId>, fuel: nat, depth: nat)
    requires Anchored(nodes) && Indexed(nodes, children) && Distinct(s)
    requires forall x :: x in s ==> x in nodes && Depth(nodes, x) == depth
    ensures Distinct(PreorderFrom(children, s, fuel))
    decreases fuel, |s|
  {
    hide Lineage, Rooted, Climb, Indexed, PreorderFrom;
    if s == [] || fuel == 0 {
      PreorderEmpty(children, s, fuel);
    } else {
      var x, kids := s[0], Kids(children, Some(s[0]));
      assert x in s;
      KidsExact(nodes, children, Some(x));
      forall child | child in kids ensures Depth(nodes, child) == depth + 1 {
        ChildDepth(nodes, x, child);
      }
      PreorderDistinct(nodes, children, kids, fuel - 1, depth + 1);
      PreorderDistinct(nodes, children, s[1..], fuel, depth);
      PreorderApart(nodes, children, s, fuel, depth);
      PreorderUnfold(children, s, fuel);
      DistinctJoin(x, PreorderFrom(children, kids, fuel - 1), PreorderFrom(children, s[1..], fuel));
    }
  }

  lemma {:induction false} PreorderApart(nodes: Forest, children: Index, s: seq<NodeId>, fuel: nat, depth: nat)
    requires Anchored(nodes) && Indexed(nodes, children) && Distinct(s) && s != [] && fuel > 0
    requires forall x :: x in s ==> x in nodes && Depth(nodes, x) == depth
    ensures s[0] !in PreorderFrom(children, Kids(children, Some(s[0])), fuel - 1)
    ensures s[0] !in PreorderFrom(children, s[1..], fuel)
    ensures forall y :: y in PreorderFrom(children, Kids(children, Some(s[0])), fuel - 1) ==>
              y !in PreorderFrom(children, s[1..], fuel)
  {
    hide Lineage, Rooted, Climb, Indexed, PreorderFrom, Under;
    var x, kids := s[0], Kids(children, Some(s[0]));
    assert x in s;
    KidsExact(nodes, children, Some(x));
    SelfUnder(nodes, x);
    forall y | y in PreorderFrom(children, s[1..], fuel) ensures !Under(Parents(nodes), x, y) {
      PreorderBeside(nodes, children, s, fuel, depth, y);
    }
    forall y | y in PreorderFrom(children, kids, fuel - 1) ensures y != x && Under(Parents(nodes), x, y) {
      var child := PreorderSound(nodes, children, kids, fuel - 1, y);
      BelowChild(nodes, x, child, y);
    }
  }

  lemma DistinctJoin(x: NodeId, a: seq<NodeId>, b: seq<NodeId>)
    requires Distinct(a) && Distinct(b) && x !in a && x !in b && forall y :: y in a ==> y !in b
    ensures Distinct([x] + a + b)
  {
    var s := [x] + a + b;
    forall i, j | 0 <= i < j < |s| ensures s[i] != s[j] {
      if i == 0 {
        assert s[j] in a + b;
      } else if i <= |a| {
        assert s[i] == a[i - 1] && s[i] in a;
        assert j <= |a| || s[j] in b;
      } else {
        assert s[i] == b[i - 1 - |a|] && s[j] == b[j - 1 - |a|];
      }
    }
  }

  lemma {:induction false} PreorderBeside(nodes: Forest, children: Index, s: seq<NodeId>, fuel: nat, depth: nat, y: NodeId)
    requires Anchored(nodes) && Indexed(nodes, children) && Distinct(s) && s != []
    requires forall x :: x in s ==> x in nodes && Depth(nodes, x) == depth
    requires y in PreorderFrom(children, s[1..], fuel)
    ensures !Under(Parents(nodes), s[0], y)
  {
    hide Lineage, Rooted, Climb, Indexed, PreorderFrom, Under;
    var other := PreorderSound(nodes, children, s[1..], fuel, y);
    assert other in s && s[0] in s;
    SelfUnder(nodes, y);
    if Under(Parents(nodes), s[0], y) {
      UnderAtDepth(Parents(nodes), s[0], other, y);
    }
  }

  /**
   The descendants of a node are exactly the other nodes whose path to the root passes
   through it, once each.
   */
  lemma {:induction false} PreorderExact(nodes: Forest, children: Index, id: NodeId)
    requires Anchored(nodes) && Indexed(nodes, children) && id in nodes
    ensures Fits(children, Kids(children, Some(id)), |nodes|)
    ensures Distinct(Preorder(nodes, children, id))
    ensures forall y :: y in Preorder(nodes, children, id) <==> y in nodes && y != id && Under(Parents(nodes), id, y)
  {
    hide Lineage, Rooted, Climb;
    var kids := Kids(children, Some(id));
    KidsExact(nodes, children, Some(id));
    forall child | child in kids ensures Depth(nodes, child) == Depth(nodes, id) + 1 {
      ChildDepth(nodes, id, child);
    }
    FitsInTree(nodes, children, kids, |nodes|);
    PreorderDistinct(nodes, children, kids, |nodes|, Depth(nodes, id) + 1);
    forall y ensures y in Preorder(nodes, children, id) <==> y in nodes && y != id && Under(Parents(nodes), id, y) {
      DescendantExact(nodes, children, id, y);
    }
  }

  lemma {:induction false} DescendantExact(nodes: Forest, children: Index, id: NodeId, y: NodeId)
    requires Anchored(nodes) && Indexed(nodes, children) && id in nodes
    requires Fits(children, Kids(children, Some(id)), |nodes|)
    ensures y in Preorder(nodes, children, id) <==> y in nodes && y != id && Under(Parents(nodes), id, y)
  {
    hide Lineage, Rooted, Climb;
    var kids := Kids(children, Some(id));
    KidsExact(nodes, children, Some(id));
    if y in Preorder(nodes, children, id) {
      var child := PreorderSound(nodes, children, kids, |nodes|, y);
      BelowChild(nodes, id, child, y);
    }
    if y in nodes && y != id && Under(Parents(nodes), id, y) {
      var child := ChildOnPath(nodes, id, y);
      PreorderComplete(nodes, children, kids, |nodes|, child, y);
    }
  }

  /** Pre-order without a bound: each child, then its own descendants, then the next child's. */
  lemma {:induction false} PreorderUnfolds(nodes: Forest, children: Index, s: seq<NodeId>, id: NodeId)
    requires Anchored(nodes) && Indexed(nodes, children) && s != []
    requires forall x :: x in s ==> x in nodes && nodes[x].parentId == Some(id)
    ensures PreorderFrom(children, s, |nodes|)
            == [s[0]] + Preorder(nodes, children, s[0]) + PreorderFrom(children, s[1..], |nodes|)
  {
    hide Lineage, Rooted, Climb;
    assert s[0] in s;
    DepthStep(nodes, s[0]);
    LineageChain(Parents(nodes), Some(s[0]));
    ChildDepth(nodes, id, s[0]);
    KidsExact(nodes, children, Some(s[0]));
    var kids := Kids(children, Some(s[0]));
    forall child | child in kids ensures |nodes| - 1 + Depth(nodes, child) > |nodes| {
      ChildDepth(nodes, s[0], child);
    }
    FitsInTree(nodes, children, kids, |nodes| - 1);
    FuelIrrelevant(children, kids, |nodes| - 1, |nodes|);
  }

  // Levels.

  /** `h` is the number of levels of the subtree of `id`. */
  ghost predicate IsHeight(nodes: Forest, id: NodeId, h: nat) {
    && (exists x :: x in nodes && Under(Parents(nodes), id, x) && Depth(nodes, x) == Depth(nodes, id) + h - 1)
    && forall x :: x in nodes && Under(Parents(nodes), id, x) ==> Depth(nodes, x) <= Depth(nodes, id) + h - 1
  }

  /** The members of a subtree `k` levels below its top. */
  ghost function Level(nodes: Forest, id: NodeId, k: nat): set<NodeId> {
    set x | x in nodes && Under(Parents(nodes), id, x) && Depth(nodes, x) == Depth(nodes, id) + k
  }

  /** A level is the children of the level above. */
  lemma {:induction false} LevelStep(nodes: Forest, id: NodeId, k: nat, x: NodeId)
    requires Anchored(nodes) && id in nodes && x in nodes
    ensures x in Level(nodes, id, k + 1) <==>
            nodes[x].parentId.Some? && nodes[x].parentId.value in Level(nodes, id, k)
  {
    hide Lineage, Rooted, Climb;
    DepthStep(nodes, x);
    DepthStep(nodes, id);
    var par := Parents(nodes);
    if nodes[x].parentId.None? {
      RootLineage(par);
    } else {
      var p := nodes[x].parentId.value;
      ChildDepth(nodes, p, x);
      SelfUnder(nodes, x);
      SelfUnder(nodes, p);
      if Under(par, id, p) {
        UnderTransitive(par, id, p, x);
      }
    }
  }

  lemma {:induction false} LevelZero(nodes: Forest, id: NodeId)
    requires Anchored(nodes) && id in nodes
    ensures Level(nodes, id, 0) == {id}
  {
    SelfUnder(nodes, id);
    forall x | x in Level(nodes, id, 0) ensures x == id {
      UnderIsDeeper(nodes, id, x);
    }
  }

  /** Below an empty level there is nothing. */
  lemma {:induction false} LevelEmpty(nodes: Forest, id: NodeId, k: nat, j: nat)
    requires Anchored(nodes) && id in nodes && Level(nodes, id, k) == {} && k <= j
    ensures Level(nodes, id, j) == {}
    decreases j
  {
    hide Lineage, Rooted, Climb;
    if k < j {
      LevelEmpty(nodes, id, k, j - 1);
      forall x | x in nodes ensures x !in Level(nodes, id, j) {
        LevelStep(nodes, id, j - 1, x);
      }
    }
  }

  lemma {:induction false} HeightFromLevels(nodes: Forest, id: NodeId, h: nat)
    requires Anchored(nodes) && id in nodes && h > 0
    requires Level(nodes, id, h - 1) != {} && Level(nodes, id, h) == {}
    ensures IsHeight(nodes, id, h)
  {
    hide Lineage, Rooted, Climb;
    var deepest :| deepest in Level(nodes, id, h - 1);
    forall x | x in nodes && Under(Parents(nodes), id, x) ensures Depth(nodes, x) <= Depth(nodes, id) + h - 1 {
      UnderIsDeeper(nodes, id, x);
      var j := Depth(nodes, x) - Depth(nodes, id);
      assert x in Level(nodes, id, j);
      if j >= h {
        LevelEmpty(nodes, id, h, j);
      }
    }
  }
}
