/** Ordering nodes so that every parent comes before its children (crates/remoter-import/src/native.rs:378-398). */
module ParentOrder {
  import opened Base
  import opened Inheritance
  import opened Nodes
  import opened Lineages
  import opened Forests
  import opened Trees

  /** Nothing above the node in this list is waited for. */
  predicate AtTop(n: Node, root: Option<NodeId>) {
    n.parentId.None? || n.parentId == root
  }

  predicate Ready(n: Node, root: Option<NodeId>, placed: set<NodeId>) {
    AtTop(n, root) || n.parentId.value in placed
  }

  function Pick(nodes: seq<Node>, root: Option<NodeId>, placed: set<NodeId>, ready: bool): seq<Node> {
    if nodes == [] then []
    else (if Ready(nodes[0], root, placed) == ready then [nodes[0]] else []) + Pick(nodes[1..], root, placed, ready)
  }

  /** Every node's parent is the root of the import or stands earlier in the list. */
  ghost predicate ParentsBefore(out: seq<Node>, root: Option<NodeId>) {
    forall i :: 0 <= i < |out| ==> AtTop(out[i], root) || ParentAmong(out[..i], out[i].parentId.value)
  }

  ghost predicate ParentAmong(out: seq<Node>, parent: NodeId) {
    exists j :: 0 <= j < |out| && out[j].id == parent
  }

  /** The parent links inside the list, its top level being rooted. */
  function LinksOf(nodes: seq<Node>, root: Option<NodeId>): ParentMap {
    var forest := ForestOf(nodes);
    map id | id in forest :: if AtTop(forest[id], root) then None else forest[id].parentId
  }

  function IdSet(nodes: seq<Node>): set<NodeId> {
    set n | n in nodes :: n.id
  }

  lemma PickNone(root: Option<NodeId>, placed: set<NodeId>)
    ensures Pick([], root, placed, true) == [] == Pick([], root, placed, false)
  {
  }

  lemma PickNext(nodes: seq<Node>, root: Option<NodeId>, placed: set<NodeId>)
    requires nodes != []
    ensures var now, rest := Ready(nodes[0], root, placed), nodes[1..];
            && Pick(nodes, root, placed, now) == [nodes[0]] + Pick(rest, root, placed, now)
            && Pick(nodes, root, placed, !now) == Pick(rest, root, placed, !now)
  {
    hide Ready;
  }

  lemma {:induction false} PickParts(nodes: seq<Node>, root: Option<NodeId>, placed: set<NodeId>)
    ensures multiset(nodes) == multiset(Pick(nodes, root, placed, true)) + multiset(Pick(nodes, root, placed, false))
    ensures forall n :: n in Pick(nodes, root, placed, true) <==> n in nodes && Ready(n, root, placed)
    ensures forall n :: n in Pick(nodes, root, placed, false) <==> n in nodes && !Ready(n, root, placed)
    ensures |nodes| == |Pick(nodes, root, placed, true)| + |Pick(nodes, root, placed, false)|
  {
    hide Ready, Pick;
    if nodes == [] {
      PickNone(root, placed);
    } else {
      PickParts(nodes[1..], root, placed);
      PickNext(nodes, root, placed);
      assert nodes == [nodes[0]] + nodes[1..];
    }
  }

  lemma {:induction false} ParentsBeforeGrows(out: seq<Node>, ready: seq<Node>, root: Option<NodeId>)
    requires ParentsBefore(out, root)
    requires forall n :: n in ready ==> Ready(n, root, IdSet(out))
    ensures ParentsBefore(out + ready, root)
  {
    var all := out + ready;
    forall i | 0 <= i < |all| ensures AtTop(all[i], root) || ParentAmong(all[..i], all[i].parentId.value) {
      if i < |out| {
        assert all[i] == out[i] && all[..i] == out[..i];
      } else {
        assert all[i] in ready;
        if !AtTop(all[i], root) {
          var n :| n in out && n.id == all[i].parentId.value;
          var j :| 0 <= j < |out| && out[j] == n;
          assert all[..i][j] == n;
        }
      }
    }
  }

  lemma IdSetGrows(out: seq<Node>, ready: seq<Node>)
    ensures IdSet(out + ready) == IdSet(out) + IdSet(ready)
  {
  }

  /** The waiting nodes hold each other up: none of them reaches the top. */
  lemma {:induction false} StuckIsUnrooted(all: seq<Node>, waiting: seq<Node>, placed: set<NodeId>, root: Option<NodeId>, n: Node)
    requires DistinctIds(all) && (forall x :: x in waiting ==> x in all && !Ready(x, root, placed))
    requires forall x :: x in all ==> x in waiting || x.id in placed
    requires n in waiting
    ensures !Rooted(LinksOf(all, root), Some(n.id))
    decreases |Lineage(LinksOf(all, root), Some(n.id))|
  {
    hide Lineage, Rooted, Climb, ForestOf;
    var par := LinksOf(all, root);
    ForestOfMembers(all);
    if Rooted(par, Some(n.id)) {
      LineageStep(par, n.id);
      LineageChain(par, par[n.id]);
      var p := n.parentId.value;
      LineageStep(par, p);
      assert p in par;
      var m := ForestOf(all)[p];
      assert m in waiting;
      StuckIsUnrooted(all, waiting, placed, root, m);
    }
  }

  /** A node whose parent is placed reaches the top because its parent does. */
  lemma {:induction false} PlacedIsRooted(all: seq<Node>, root: Option<NodeId>, placed: set<NodeId>, n: Node)
    requires DistinctIds(all) && n in all && Ready(n, root, placed)
    requires forall id :: id in placed ==> Rooted(LinksOf(all, root), Some(id))
    ensures Rooted(LinksOf(all, root), Some(n.id))
  {
    hide Lineage, Rooted, Climb, ForestOf;
    ForestOfMembers(all);
    RootLineage(LinksOf(all, root));
    LineageStep(LinksOf(all, root), n.id);
  }

  /**
   `parents_first`: rounds of placing whatever has its parent in place. The result is a
   permutation with parents first, and it exists exactly when every node reaches the top.
   */
  method ParentsFirst(input: seq<Node>, root: Option<NodeId>) returns (r: Option<seq<Node>>)
    ensures r.Some? ==> multiset(r.value) == multiset(input) && ParentsBefore(r.value, root)
    ensures DistinctIds(input) ==>
              (r.Some? <==> forall n :: n in input ==> Rooted(LinksOf(input, root), Some(n.id)))
  {
    hide Pick, Rooted, LinksOf, ParentsBefore, DistinctIds, IdSet;
    var placed: set<NodeId>, out: seq<Node>, nodes := {}, [], input;
    Starting(input, root);
    while nodes != []
      invariant multiset(out) + multiset(nodes) == multiset(input)
      invariant placed == IdSet(out) && ParentsBefore(out, root)
      invariant DistinctIds(input) ==> forall id :: id in placed ==> Rooted(LinksOf(input, root), Some(id))
      decreases |nodes|
    {
      var ready, waiting := Pick(nodes, root, placed, true), Pick(nodes, root, placed, false);
      PickParts(nodes, root, placed);
      if |waiting| == |nodes| {
        if DistinctIds(input) {
          Stuck(input, out, nodes, root);
        }
        return None;
      }
      if DistinctIds(input) {
        RoundIsRooted(input, out, nodes, root);
      }
      ParentsBeforeGrows(out, ready, root);
      IdSetGrows(out, ready);
      placed, out, nodes := placed + IdSet(ready), out + ready, waiting;
    }
    if DistinctIds(input) {
      AllPlaced(input, out);
    }
    return Some(out);
  }

  lemma Starting(input: seq<Node>, root: Option<NodeId>)
    ensures IdSet([]) == {} && ParentsBefore([], root) && multiset([]) + multiset(input) == multiset(input)
  {
  }

  lemma {:induction false} SplitMembers(input: seq<Node>, out: seq<Node>, rest: seq<Node>)
    requires multiset(out) + multiset(rest) == multiset(input)
    ensures forall x :: x in input <==> x in out || x in rest
  {
    assert forall x :: x in input <==> x in multiset(input);
    assert forall x :: x in out <==> x in multiset(out);
    assert forall x :: x in rest <==> x in multiset(rest);
  }

  lemma {:induction false} Stuck(input: seq<Node>, out: seq<Node>, nodes: seq<Node>, root: Option<NodeId>)
    requires DistinctIds(input) && multiset(out) + multiset(nodes) == multiset(input) && nodes != []
    requires |Pick(nodes, root, IdSet(out), false)| == |nodes|
    ensures exists n :: n in input && !Rooted(LinksOf(input, root), Some(n.id))
  {
    hide Rooted, LinksOf, DistinctIds, Pick, Ready;
    SplitMembers(input, out, nodes);
    PickParts(nodes, root, IdSet(out));
    var n := nodes[0];
    assert forall x :: x in nodes ==> !Ready(x, root, IdSet(out)) by {
      assert Pick(nodes, root, IdSet(out), true) == [];
    }
    assert forall x :: x in input ==> x in nodes || x.id in IdSet(out);
    StuckIsUnrooted(input, nodes, IdSet(out), root, n);
  }

  lemma {:induction false} RoundIsRooted(input: seq<Node>, out: seq<Node>, nodes: seq<Node>, root: Option<NodeId>)
    requires DistinctIds(input) && multiset(out) + multiset(nodes) == multiset(input)
    requires forall id :: id in IdSet(out) ==> Rooted(LinksOf(input, root), Some(id))
    ensures forall id :: id in IdSet(out) + IdSet(Pick(nodes, root, IdSet(out), true)) ==> Rooted(LinksOf(input, root), Some(id))
  {
    hide Rooted, LinksOf, DistinctIds, Pick, Ready;
    SplitMembers(input, out, nodes);
    PickParts(nodes, root, IdSet(out));
    forall id | id in IdSet(Pick(nodes, root, IdSet(out), true)) ensures Rooted(LinksOf(input, root), Some(id)) {
      var n :| n in Pick(nodes, root, IdSet(out), true) && n.id == id;
      PlacedIsRooted(input, root, IdSet(out), n);
    }
  }

  lemma {:induction false} AllPlaced(input: seq<Node>, out: seq<Node>)
    requires multiset(out) + multiset([]) == multiset(input)
    ensures multiset(out) == multiset(input) && forall n :: n in input ==> n.id in IdSet(out)
  {
    SplitMembers(input, out, []);
  }
}
