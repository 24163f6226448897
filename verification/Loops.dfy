/**
 Walking down in a tree that may be corrupt: which nodes can be walked, and what the walk then finds
 (crates/remoter-core/src/tree.rs:260-284, 1088-1109).
 */
module Loops {
  import opened Base
  import opened Inheritance
  import opened Nodes
  import opened Lineages
  import opened Forests
  import opened SiblingIndex
  import opened Walks

  /** The node is among its own ancestors. */
  ghost predicate OnLoop(par: ParentMap, id: NodeId) {
    exists p :: p != [] && Segment(par, Some(id), p, Some(id))
  }

  /** Going up from `x` passes `top`, which may be `x` itself. */
  ghost predicate Below(par: ParentMap, top: NodeId, x: NodeId) {
    exists p :: Segment(par, Some(x), p, Some(top))
  }

  lemma {:induction false} RootedIsNotOnLoop(par: ParentMap, id: NodeId)
    requires Rooted(par, Some(id))
    ensures !OnLoop(par, id)
  {
    hide Rooted, Climb;
    if OnLoop(par, id) {
      var p :| p != [] && Segment(par, Some(id), p, Some(id));
      assert Segment(par, Some(id), [], Some(id));
      assert Cyclic(par, Some(id));
      CyclicIsNotRooted(par, Some(id));
    }
  }

  /** Where parent chains reach the root, being below a node is being in its subtree. */
  lemma {:induction false} BelowIsUnder(par: ParentMap, top: NodeId, x: NodeId)
    requires Rooted(par, Some(x)) && top in par
    ensures Below(par, top, x) <==> Under(par, top, x)
  {
    hide Rooted, Climb;
    LineageChain(par, Some(x));
    var p := Lineage(par, Some(x));
    if Below(par, top, x) {
      var q :| Segment(par, Some(x), q, Some(top));
      var rest := SegmentRest(par, Some(x), q, Some(top), p);
      assert rest != [] && rest[0] == top;
      assert p[|q|] == top;
    }
    if Under(par, top, x) {
      var k :| 0 <= k < |p| && p[k] == top;
      SegmentSplit(par, Some(x), p, None, k);
    }
  }

  // The part of a tree below a node, cut off.

  ghost function Cut(nodes: Forest, id: NodeId): (cut: Forest)
    requires id in nodes
    ensures forall x :: x in cut <==> x in nodes && Below(Parents(nodes), id, x)
  {
    map x | x in nodes && Below(Parents(nodes), id, x) :: if x == id then nodes[x].(parentId := None) else nodes[x]
  }

  /** Whatever is passed on the way up to a node that is on no loop is another node below it. */
  lemma {:induction false} OnTheWay(par: ParentMap, id: NodeId, x: NodeId, p: seq<NodeId>, y: NodeId)
    requires !OnLoop(par, id) && Segment(par, Some(x), p, Some(id)) && y in p
    ensures y != id && Below(par, id, y)
  {
    var k :| 0 <= k < |p| && p[k] == y;
    SegmentSplit(par, Some(x), p, Some(id), k);
    assert p[k..] != [];
  }

  /** The way up inside the cut is the way up in the tree, ending at its top. */
  lemma {:induction false} CutLineage(nodes: Forest, id: NodeId, x: NodeId, p: seq<NodeId>)
    requires id in nodes && !OnLoop(Parents(nodes), id) && x in nodes && Segment(Parents(nodes), Some(x), p, Some(id))
    ensures Rooted(Parents(Cut(nodes, id)), Some(x)) && Lineage(Parents(Cut(nodes, id)), Some(x)) == p + [id]
  {
    hide Rooted, Climb, Lineage;
    var par, cut := Parents(nodes), Cut(nodes, id);
    var after := Parents(cut);
    SegmentInside(par, Some(x), p, Some(id));
    forall y | y in p ensures y in after && after[y] == par[y] {
      OnTheWay(par, id, x, p, y);
    }
    SegmentKept(par, after, Some(x), p, Some(id));
    assert Segment(par, Some(id), [], Some(id));
    assert after[id] == None && Segment(after, Some(id), [id], None);
    SegmentJoin(after, Some(x), p, Some(id), [id], None);
    LineageIs(after, Some(x), p + [id]);
  }

  lemma {:induction false} CutAnchored(nodes: Forest, id: NodeId)
    requires id in nodes && !OnLoop(Parents(nodes), id)
    ensures id in Cut(nodes, id) && Anchored(Cut(nodes, id))
    ensures forall x :: x in Cut(nodes, id) ==> Under(Parents(Cut(nodes, id)), id, x)
    ensures Depth(Cut(nodes, id), id) == 1
  {
    hide Rooted, Climb, Lineage, OnLoop;
    var par, cut := Parents(nodes), Cut(nodes, id);
    assert Segment(par, Some(id), [], Some(id));
    CutLineage(nodes, id, id, []);
    forall x | x in cut ensures Anchor(cut, x) && Under(Parents(cut), id, x) {
      var p :| Segment(par, Some(x), p, Some(id));
      CutLineage(nodes, id, x, p);
    }
  }

  /** The children of a node of the cut are in the cut, and none of them is its top. */
  lemma {:induction false} CutChild(nodes: Forest, id: NodeId, x: NodeId, child: NodeId)
    requires id in nodes && !OnLoop(Parents(nodes), id) && x in Cut(nodes, id) && child in nodes && nodes[child].parentId == Some(x)
    ensures child in Cut(nodes, id) && child != id && Cut(nodes, id)[child] == nodes[child]
  {
    var par := Parents(nodes);
    var p :| Segment(par, Some(x), p, Some(id));
    assert ([child] + p)[1..] == p;
    assert Segment(par, Some(child), [child] + p, Some(id));
    assert [child] + p != [];
  }

  ghost function CutIndex(children: Index, cut: Forest, id: NodeId): Index {
    (map key | key in children && key.Some? && key.value in cut :: children[key])[None := [id]]
  }

  lemma {:induction false} CutKids(nodes: Forest, children: Index, id: NodeId, x: NodeId)
    requires id in nodes && x in Cut(nodes, id)
    ensures Kids(CutIndex(children, Cut(nodes, id), id), Some(x)) == Kids(children, Some(x))
  {
  }

  lemma {:induction false} CutMember(nodes: Forest, children: Index, id: NodeId, key: Option<NodeId>, x: NodeId)
    requires id in nodes && !OnLoop(Parents(nodes), id) && Indexed(nodes, children)
    requires key in CutIndex(children, Cut(nodes, id), id) && x in CutIndex(children, Cut(nodes, id), id)[key]
    ensures x in Cut(nodes, id) && Cut(nodes, id)[x].parentId == key && Cut(nodes, id)[x].sortOrder == nodes[x].sortOrder
  {
    hide OnLoop;
    if key.Some? {
      CutChild(nodes, id, key.value, x);
    } else {
      assert Segment(Parents(nodes), Some(id), [], Some(id));
    }
  }

  lemma {:induction false} CutListed(nodes: Forest, children: Index, id: NodeId, x: NodeId)
    requires id in nodes && Indexed(nodes, children) && x in Cut(nodes, id)
    ensures var cut := Cut(nodes, id);
            var index := CutIndex(children, cut, id);
            cut[x].parentId in index && x in index[cut[x].parentId]
  {
    hide Below;
    if x != id {
      ParentInCut(nodes, id, x);
    }
  }

  lemma {:induction false} CutSorted(nodes: Forest, children: Index, id: NodeId, key: Option<NodeId>)
    requires id in nodes && !OnLoop(Parents(nodes), id) && Indexed(nodes, children) && key in CutIndex(children, Cut(nodes, id), id)
    ensures var index := CutIndex(children, Cut(nodes, id), id);
            index[key] != [] && Sorted(Cut(nodes, id), index[key])
  {
    hide OnLoop, Cut, CutIndex, Indexed, Sorted;
    var cut, list := Cut(nodes, id), CutIndex(children, Cut(nodes, id), id)[key];
    CutList(children, cut, id, key);
    forall x | x in list ensures x in cut && (x in nodes ==> cut[x].sortOrder == nodes[x].sortOrder) {
      CutMember(nodes, children, id, key, x);
    }
    if key.Some? {
      ListSorted(nodes, children, key);
      SortedKept(nodes, cut, list);
    } else {
      OneSorted(cut, id);
    }
  }

  lemma CutList(children: Index, cut: Forest, id: NodeId, key: Option<NodeId>)
    requires key in CutIndex(children, cut, id)
    ensures key.None? ==> CutIndex(children, cut, id)[key] == [id]
    ensures key.Some? ==> key in children && CutIndex(children, cut, id)[key] == children[key]
  {
  }

  lemma ListSorted(nodes: Forest, children: Index, key: Option<NodeId>)
    requires Indexed(nodes, children) && key in children
    ensures children[key] != [] && Sorted(nodes, children[key])
  {
  }

  lemma OneSorted(nodes: Forest, id: NodeId)
    requires id in nodes
    ensures Sorted(nodes, [id])
  {
  }

  lemma {:induction false} CutIndexed(nodes: Forest, children: Index, id: NodeId)
    requires id in nodes && !OnLoop(Parents(nodes), id) && Indexed(nodes, children)
    ensures Indexed(Cut(nodes, id), CutIndex(children, Cut(nodes, id), id))
  {
    hide OnLoop, Below, Cut, CutIndex, Sorted, Parents, Indexed;
    var cut, index := Cut(nodes, id), CutIndex(children, Cut(nodes, id), id);
    forall key, x | key in index && x in index[key] ensures x in cut && cut[x].parentId == key {
      CutMember(nodes, children, id, key, x);
    }
    forall key | key in index ensures index[key] != [] && Sorted(cut, index[key]) {
      CutSorted(nodes, children, id, key);
    }
    forall x | x in cut ensures cut[x].parentId in index && x in index[cut[x].parentId] {
      CutListed(nodes, children, id, x);
    }
    MakesIndex(cut, index);
  }

  lemma MakesIndex(nodes: Forest, children: Index)
    requires forall key :: key in children ==> children[key] != [] && Sorted(nodes, children[key])
    requires forall key, x :: key in children && x in children[key] ==> x in nodes && nodes[x].parentId == key
    requires forall x :: x in nodes ==> nodes[x].parentId in children && x in children[nodes[x].parentId]
    ensures Indexed(nodes, children)
  {
    hide Sorted;
  }

  lemma {:induction false} ParentInCut(nodes: Forest, id: NodeId, x: NodeId)
    requires id in nodes && x in Cut(nodes, id) && x != id
    ensures nodes[x].parentId.Some? && nodes[x].parentId.value in Cut(nodes, id)
  {
    var par := Parents(nodes);
    var p :| Segment(par, Some(x), p, Some(id));
    assert p[0] == x && Segment(par, par[x], p[1..], Some(id));
    if p[1..] == [] {
      assert par[x] == Some(id);
      assert Segment(par, Some(id), [], Some(id));
    } else {
      assert p[1..][0] in par;
    }
  }

  // Pre-order below a node that is on no loop.

  /** The walk down from nodes of the cut sees nothing else. */
  lemma {:induction false} CutPreorder(nodes: Forest, children: Index, id: NodeId, s: seq<NodeId>, fuel: nat)
    requires id in nodes && !OnLoop(Parents(nodes), id) && Indexed(nodes, children) && forall x :: x in s ==> x in Cut(nodes, id)
    ensures var index := CutIndex(children, Cut(nodes, id), id);
            && PreorderFrom(index, s, fuel) == PreorderFrom(children, s, fuel)
            && (Fits(index, s, fuel) <==> Fits(children, s, fuel))
    decreases fuel, |s|
  {
    hide OnLoop, Cut, CutIndex, Indexed, PreorderFrom, Fits, Kids;
    var index := CutIndex(children, Cut(nodes, id), id);
    WalkUnfolds(index, s, fuel);
    WalkUnfolds(children, s, fuel);
    if s != [] && fuel > 0 {
      var x := s[0];
      assert x in s;
      CutKids(nodes, children, id, x);
      KidsExact(nodes, children, Some(x));
      forall y | y in Kids(children, Some(x)) ensures y in Cut(nodes, id) {
        CutChild(nodes, id, x, y);
      }
      CutPreorder(nodes, children, id, Kids(children, Some(x)), fuel - 1);
      CutPreorder(nodes, children, id, s[1..], fuel);
    }
  }

  lemma WalkUnfolds(children: Index, s: seq<NodeId>, fuel: nat)
    ensures s == [] || fuel == 0 ==> PreorderFrom(children, s, fuel) == [] && (Fits(children, s, fuel) <==> s == [])
    ensures s != [] && fuel > 0 ==>
              var kids := Kids(children, Some(s[0]));
              && PreorderFrom(children, s, fuel) == [s[0]] + PreorderFrom(children, kids, fuel - 1) + PreorderFrom(children, s[1..], fuel)
              && (Fits(children, s, fuel) <==> Fits(children, kids, fuel - 1) && Fits(children, s[1..], fuel))
  {
  }

  lemma CutSize(nodes: Forest, id: NodeId)
    requires id in nodes
    ensures |Cut(nodes, id)| <= |nodes|
  {
    SubsetIsNoLarger(Cut(nodes, id).Keys, nodes.Keys);
  }

  /**
   In any stored tree, corrupt or not: the walk down from a node that is on no loop lists each node below it
   once and nothing else.
   */
  lemma {:induction false} WalkFinds(nodes: Forest, children: Index, id: NodeId)
    requires id in nodes && !OnLoop(Parents(nodes), id) && Indexed(nodes, children)
    ensures Fits(children, Kids(children, Some(id)), |nodes|)
    ensures Distinct(Preorder(nodes, children, id))
    ensures forall y :: y in Preorder(nodes, children, id) <==> y in nodes && y != id && Below(Parents(nodes), id, y)
  {
    hide OnLoop, Below, Indexed, PreorderFrom, Fits, CutIndex, Kids, Distinct, Under, Anchored, Depth;
    var cut := Cut(nodes, id);
    var index, kids := CutIndex(children, cut, id), Kids(children, Some(id));
    CutAnchored(nodes, id);
    CutIndexed(nodes, children, id);
    PreorderExact(cut, index, id);
    CutKids(nodes, children, id, id);
    KidsExact(nodes, children, Some(id));
    forall y | y in kids ensures y in cut {
      CutChild(nodes, id, id, y);
    }
    CutPreorder(nodes, children, id, kids, |cut|);
    CutSize(nodes, id);
    FuelIrrelevant(children, kids, |cut|, |nodes|);
  }

  lemma {:induction false} WalkReady(nodes: Forest, children: Index, id: NodeId)
    requires id in nodes && !OnLoop(Parents(nodes), id) && Indexed(nodes, children)
    ensures Traversing(children, [], Kids(children, Some(id)), |nodes|, Preorder(nodes, children, id))
  {
    hide OnLoop, Below, Indexed, PreorderFrom, Fits, Kids, Distinct;
    WalkFinds(nodes, children, id);
    assert [] + PreorderFrom(children, Kids(children, Some(id)), |nodes|) == Preorder(nodes, children, id);
  }

  // On a loop no walk down can finish.

  /** All the lists of children that visiting these nodes puts on the stack. */
  ghost function Pushed(children: Index, out: seq<NodeId>): multiset<NodeId> {
    if out == [] then multiset{} else Pushed(children, out[..|out| - 1]) + multiset(Kids(children, Some(out[|out| - 1])))
  }

  lemma PushedNext(children: Index, out: seq<NodeId>, x: NodeId)
    ensures Pushed(children, out + [x]) == Pushed(children, out) + multiset(Kids(children, Some(x)))
  {
    assert (out + [x])[..|out|] == out;
  }

  lemma {:induction false} PushedHolds(children: Index, out: seq<NodeId>, x: NodeId)
    requires x in out
    ensures multiset(Kids(children, Some(x))) <= Pushed(children, out)
  {
    hide Kids;
    var last := |out| - 1;
    if x != out[last] {
      assert x in out[..last];
      PushedHolds(children, out[..last], x);
    }
  }

  /** What has been visited or is pending is what has been pushed, first by the start and then by every visit. */
  ghost predicate Accounted(children: Index, id: NodeId, out: seq<NodeId>, pending: seq<NodeId>) {
    Distinct(out) && multiset(out) + multiset(pending) == multiset(Kids(children, Some(id))) + Pushed(children, out)
  }

  lemma AccountedFirst(children: Index, id: NodeId)
    ensures Accounted(children, id, [], Kids(children, Some(id)))
  {
  }

  lemma {:induction false} AccountedNext(children: Index, id: NodeId, out: seq<NodeId>, pending: seq<NodeId>)
    requires pending != [] && pending[0] !in out && Accounted(children, id, out, pending)
    ensures Accounted(children, id, out + [pending[0]], Kids(children, Some(pending[0])) + pending[1..])
  {
    hide Kids, Pushed;
    var x, rest, kids := pending[0], pending[1..], Kids(children, Some(pending[0]));
    PushedNext(children, out, x);
    assert pending == [x] + rest;
    assert multiset(out + [x]) == multiset(out) + multiset([x]) && multiset(kids + rest) == multiset(kids) + multiset(rest);
    assert multiset(pending) == multiset([x]) + multiset(rest);
    DistinctAppend(out, [x]);
    assert Distinct(out + [x]);
    assert multiset(out + [x]) + multiset(kids + rest) == (multiset(out) + multiset(pending)) + multiset(kids);
    assert multiset(Kids(children, Some(id))) + Pushed(children, out + [x])
        == (multiset(Kids(children, Some(id))) + Pushed(children, out)) + multiset(kids);
  }

  lemma OneMore(all: set<NodeId>, out: seq<NodeId>, x: NodeId)
    requires x in all
    ensures Elements(out + [x]) == Elements(out) + {x} && (x in Elements(out) <==> x in out)
    ensures x !in out ==> all - Elements(out + [x]) < all - Elements(out)
  {
  }

  /** Everything on a way up to the start from a visited node has been visited when the walk is over. */
  lemma {:induction false} VisitedBelow(nodes: Forest, children: Index, id: NodeId, out: seq<NodeId>, x: NodeId, p: seq<NodeId>)
    requires Indexed(nodes, children) && Accounted(children, id, out, []) && p != [] && Segment(Parents(nodes), Some(x), p, Some(id))
    ensures x in out
    decreases |p|
  {
    hide Pushed, Distinct, Indexed;
    var par := Parents(nodes);
    assert p[0] == x && x in nodes;
    assert multiset(out) + multiset([]) == multiset(out);
    if p[1..] == [] {
      assert nodes[x].parentId == Some(id);
      KidsExact(nodes, children, Some(id));
      assert x in multiset(Kids(children, Some(id)));
    } else {
      var y := p[1..][0];
      assert nodes[x].parentId == Some(y);
      VisitedBelow(nodes, children, id, out, y, p[1..]);
      PushedHolds(children, out, y);
      KidsExact(nodes, children, Some(y));
      assert x in multiset(Kids(children, Some(y)));
    }
    assert x in multiset(out);
  }

  /** A walk that is over started from a node that is on no loop. */
  lemma {:induction false} FinishedIsFree(nodes: Forest, children: Index, id: NodeId, out: seq<NodeId>)
    requires Indexed(nodes, children) && Accounted(children, id, out, [])
    ensures !OnLoop(Parents(nodes), id)
  {
    hide Pushed, Indexed;
    var par := Parents(nodes);
    if OnLoop(par, id) {
      var p :| p != [] && Segment(par, Some(id), p, Some(id));
      VisitedBelow(nodes, children, id, out, id, p);
      var c := ChildOnLoop(nodes, id, p);
      KidsExact(nodes, children, Some(id));
      PushedHolds(children, out, id);
      assert multiset(out) + multiset([]) == multiset(out);
      assert c in multiset(Kids(children, Some(id)));
      assert multiset(out)[c] >= 2;
      OnceIfDistinct(out, c);
    }
  }

  lemma {:induction false} ChildOnLoop(nodes: Forest, id: NodeId, p: seq<NodeId>) returns (c: NodeId)
    requires p != [] && exists x :: Segment(Parents(nodes), Some(x), p, Some(id))
    ensures c in nodes && nodes[c].parentId == Some(id)
    decreases |p|
  {
    var par := Parents(nodes);
    var x :| Segment(par, Some(x), p, Some(id));
    if p[1..] == [] {
      c := p[0];
    } else {
      assert Segment(par, Some(p[1..][0]), p[1..], Some(id));
      c := ChildOnLoop(nodes, id, p[1..]);
    }
  }

  lemma {:induction false} OnceIfDistinct(s: seq<NodeId>, x: NodeId)
    requires Distinct(s)
    ensures multiset(s)[x] <= 1
  {
    if s != [] {
      var last := |s| - 1;
      OnceIfDistinct(s[..last], x);
      assert s == s[..last] + [s[last]];
      assert x == s[last] ==> x !in s[..last];
    }
  }

  // Levels below a node that is on no loop.

  /** `next` lists the children of `parents`, each once. */
  ghost predicate ListsChildren(nodes: Forest, parents: seq<NodeId>, next: seq<NodeId>) {
    Distinct(next)
    && forall x :: x in next <==> x in nodes && nodes[x].parentId.Some? && nodes[x].parentId.value in parents
  }

  lemma NoChildren(nodes: Forest)
    ensures ListsChildren(nodes, [], [])
  {
  }

  lemma {:induction false} MoreChildren(nodes: Forest, children: Index, level: seq<NodeId>, i: nat, next: seq<NodeId>)
    requires Indexed(nodes, children) && Distinct(level) && i < |level| && ListsChildren(nodes, level[..i], next)
    ensures ListsChildren(nodes, level[..i + 1], next + Kids(children, Some(level[i])))
  {
    hide Indexed;
    KidsExact(nodes, children, Some(level[i]));
    assert level[i] !in level[..i];
    assert level[..i + 1] == level[..i] + [level[i]];
    DistinctAppend(next, Kids(children, Some(level[i])));
  }

  /** The children of a level are the next level. */
  lemma {:induction false} LevelBelow(nodes: Forest, id: NodeId, k: nat, level: seq<NodeId>, next: seq<NodeId>)
    requires Anchored(nodes) && id in nodes && Elements(level) == Level(nodes, id, k)
    requires ListsChildren(nodes, level, next)
    ensures Distinct(next) && Elements(next) == Level(nodes, id, k + 1)
  {
    hide Lineage, Rooted, Climb;
    assert forall y :: y in level <==> y in Elements(level);
    forall x | x in nodes ensures x in Elements(next) <==> x in Level(nodes, id, k + 1) {
      LevelStep(nodes, id, k, x);
    }
  }

  ghost function UpTo(cut: Forest, depth: nat): set<NodeId> {
    set x | x in cut && Depth(cut, x) <= depth
  }

  /** Before the next parent's children are added, none of them has been seen. */
  ghost predicate Sweeping(nodes: Forest, id: NodeId, k: nat, level: seq<NodeId>, i: nat, next: seq<NodeId>, seen: set<NodeId>)
    requires id in nodes && i <= |level|
  {
    var cut := Cut(nodes, id);
    Elements(level) == Level(cut, id, k) && Distinct(level) && ListsChildren(cut, level[..i], next) && seen == UpTo(cut, k + 1) + Elements(next)
  }

  lemma {:induction false} SweepNext(nodes: Forest, children: Index, id: NodeId, k: nat, level: seq<NodeId>, i: nat, next: seq<NodeId>, seen: set<NodeId>)
    requires id in nodes && !OnLoop(Parents(nodes), id) && Indexed(nodes, children) && i < |level| && Sweeping(nodes, id, k, level, i, next, seen)
    ensures var kids := Kids(children, Some(level[i]));
            && Distinct(kids) && (forall c :: c in kids ==> c !in seen)
            && Sweeping(nodes, id, k, level, i + 1, next + kids, seen + Elements(kids))
  {
    hide OnLoop, Below, Indexed, Kids, CutIndex, Lineage, Rooted, Climb, Depth, Anchored, Distinct, Under;
    var cut, x := Cut(nodes, id), level[i];
    var index, kids := CutIndex(children, cut, id), Kids(children, Some(x));
    CutAnchored(nodes, id);
    CutIndexed(nodes, children, id);
    assert x in level && x in Elements(level);
    CutKids(nodes, children, id, x);
    MoreChildren(cut, index, level, i, next);
    KidsExact(cut, index, Some(x));
    forall c | c in kids ensures c !in UpTo(cut, k + 1) && c !in next {
      LevelStep(cut, id, k, c);
      ListedElsewhere(cut, level, i, next, c);
    }
    assert Elements(next + kids) == Elements(next) + Elements(kids);
  }

  lemma ListedElsewhere(cut: Forest, level: seq<NodeId>, i: nat, next: seq<NodeId>, c: NodeId)
    requires Distinct(level) && i < |level| && ListsChildren(cut, level[..i], next) && c in cut && cut[c].parentId == Some(level[i])
    ensures c !in next
  {
    assert level[i] !in level[..i];
  }

  lemma {:induction false} SweepStarts(nodes: Forest, id: NodeId)
    requires id in nodes && !OnLoop(Parents(nodes), id)
    ensures Sweeping(nodes, id, 0, [id], 0, [], {id})
  {
    hide OnLoop, Below, Lineage, Rooted, Climb, Depth, Anchored;
    var cut := Cut(nodes, id);
    CutAnchored(nodes, id);
    LevelZero(cut, id);
    NoChildren(cut);
    assert [id][..0] == [] && Elements([id]) == {id} && Elements<NodeId>([]) == {};
    forall x | x in UpTo(cut, 1) ensures x == id {
      UnderIsDeeper(cut, id, x);
      DepthStep(cut, x);
    }
  }

  /** A level swept to its end, with something below it, gives way to the next. */
  lemma {:induction false} SweepLevel(nodes: Forest, id: NodeId, k: nat, level: seq<NodeId>, next: seq<NodeId>, seen: set<NodeId>)
    requires id in nodes && !OnLoop(Parents(nodes), id) && Sweeping(nodes, id, k, level, |level|, next, seen)
    ensures Sweeping(nodes, id, k + 1, next, 0, [], seen)
    ensures level != [] && next == [] ==> IsHeight(Cut(nodes, id), id, k + 1)
  {
    hide OnLoop, Below, Lineage, Rooted, Climb, Depth, Anchored, Under, IsHeight;
    var cut := Cut(nodes, id);
    CutAnchored(nodes, id);
    assert level[..|level|] == level && next[..0] == [];
    LevelBelow(cut, id, k, level, next);
    NoChildren(cut);
    forall x | x in cut ensures x in seen <==> x in UpTo(cut, k + 2) {
      assert Under(Parents(cut), id, x);
      assert x in Level(cut, id, k + 1) <==> Depth(cut, x) == k + 2;
    }
    assert Elements<NodeId>([]) == {};
    if level != [] && next == [] {
      assert level[0] in Elements(level);
      HeightFromLevels(cut, id, k + 1);
    }
  }

  // On a loop the sweep cannot end.

  /** Every swept node's children have been seen, and the start is not among them. */
  ghost predicate Swept(children: Index, id: NodeId, done: set<NodeId>, seen: set<NodeId>) {
    id in seen && forall v, c :: v in done && c in Kids(children, Some(v)) ==> c in seen && c != id
  }

  lemma {:induction false} SweepOpens(nodes: Forest, children: Index, id: NodeId)
    requires id in nodes
    ensures !OnLoop(Parents(nodes), id) ==> Sweeping(nodes, id, 0, [id], 0, [], {id})
    ensures Swept(children, id, {id} - Elements([id]), {id})
  {
    hide OnLoop, Sweeping;
    if !OnLoop(Parents(nodes), id) {
      SweepStarts(nodes, id);
    }
  }

  lemma LevelOpens(children: Index, id: NodeId, level: seq<NodeId>, seen: set<NodeId>)
    requires Swept(children, id, seen - Elements(level), seen)
    ensures Swept(children, id, (seen - Elements(level)) + Elements(level[..0]), seen) && seen == seen + Elements<NodeId>([]) && seen !! Elements<NodeId>([])
  {
  }

  lemma LevelCloses(children: Index, id: NodeId, level: seq<NodeId>, seen: set<NodeId>, more: set<NodeId>)
    requires Swept(children, id, (seen - Elements(level)) + Elements(level[..|level|]), more) && seen <= more
    ensures Swept(children, id, seen, more)
  {
    assert level[..|level|] == level;
  }

  /** Another parent's children, none of them seen before, have now been seen. */
  lemma {:induction false} SweptNext(nodes: Forest, children: Index, id: NodeId, level: seq<NodeId>, i: nat, seen: set<NodeId>, next: seq<NodeId>, more: set<NodeId>)
    requires Indexed(nodes, children) && i < |level| && Swept(children, id, (seen - Elements(level)) + Elements(level[..i]), more)
    requires more == seen + Elements(next) <= nodes.Keys && seen !! Elements(next)
    requires forall c :: c in Kids(children, Some(level[i])) ==> c !in more
    ensures var kids := Kids(children, Some(level[i]));
            && Swept(children, id, (seen - Elements(level)) + Elements(level[..i + 1]), more + Elements(kids))
            && more + Elements(kids) == seen + Elements(next + kids) <= nodes.Keys && seen !! Elements(next + kids)
  {
    hide Indexed;
    KidsExact(nodes, children, Some(level[i]));
    assert level[..i + 1] == level[..i] + [level[i]];
  }

  /** A level of nodes not seen before leaves fewer to see. */
  lemma Outgrown(all: set<NodeId>, seen: set<NodeId>, more: set<NodeId>, next: seq<NodeId>)
    requires next != [] && more == seen + Elements(next) <= all && seen !! Elements(next)
    ensures all - more < all - seen && more - Elements(next) == seen
  {
    assert next[0] in Elements(next);
  }

  lemma {:induction false} SweptReaches(nodes: Forest, children: Index, id: NodeId, seen: set<NodeId>, x: NodeId, p: seq<NodeId>)
    requires Indexed(nodes, children) && Swept(children, id, seen, seen) && p != [] && Segment(Parents(nodes), Some(x), p, Some(id))
    ensures x in seen && x != id
    decreases |p|
  {
    hide Indexed;
    assert p[0] == x && x in nodes;
    if p[1..] == [] {
      KidsExact(nodes, children, Some(id));
    } else {
      var y := p[1..][0];
      SweptReaches(nodes, children, id, seen, y, p[1..]);
      KidsExact(nodes, children, Some(y));
    }
  }

  lemma {:induction false} SweptIsFree(nodes: Forest, children: Index, id: NodeId, seen: set<NodeId>)
    requires Indexed(nodes, children) && Swept(children, id, seen, seen)
    ensures !OnLoop(Parents(nodes), id)
  {
    hide Indexed, Swept;
    if OnLoop(Parents(nodes), id) {
      var p :| p != [] && Segment(Parents(nodes), Some(id), p, Some(id));
      SweptReaches(nodes, children, id, seen, id, p);
    }
  }

  // Where parent chains reach the root, this is the height in the whole tree.

  lemma {:induction false} CutDepth(nodes: Forest, id: NodeId, x: NodeId)
    requires Anchored(nodes) && id in nodes && x in nodes
    ensures !OnLoop(Parents(nodes), id)
    ensures x in Cut(nodes, id) <==> Under(Parents(nodes), id, x)
    ensures x in Cut(nodes, id) ==> Depth(Cut(nodes, id), x) == Depth(nodes, x) - Depth(nodes, id) + 1
  {
    hide Rooted, Climb, Lineage, OnLoop, Below;
    var par := Parents(nodes);
    assert Anchor(nodes, id) && Anchor(nodes, x);
    RootedIsNotOnLoop(par, id);
    BelowIsUnder(par, id, x);
    if Under(par, id, x) {
      LineageChain(par, Some(x));
      var p := Lineage(par, Some(x));
      var k :| 0 <= k < |p| && p[k] == id;
      LineageSuffix(par, Some(x), k);
      SegmentSplit(par, Some(x), p, None, k);
      CutLineage(nodes, id, x, p[..k]);
    }
  }

  lemma {:induction false} CutHeight(nodes: Forest, id: NodeId, h: nat)
    requires Anchored(nodes) && id in nodes
    ensures !OnLoop(Parents(nodes), id)
    ensures IsHeight(Cut(nodes, id), id, h) <==> IsHeight(nodes, id, h)
  {
    hide Rooted, Climb, Lineage, OnLoop, Below, Anchored, Depth, Cut;
    var cut := Cut(nodes, id);
    CutDepth(nodes, id, id);
    CutAnchored(nodes, id);
    forall x | x in nodes
      ensures x in cut <==> Under(Parents(nodes), id, x)
      ensures x in cut ==> Depth(cut, x) == Depth(nodes, x) - Depth(nodes, id) + 1
    {
      CutDepth(nodes, id, x);
    }
    SameHeight(nodes, cut, id, h);
  }

  lemma SameHeight(nodes: Forest, cut: Forest, id: NodeId, h: nat)
    requires Depth(cut, id) == 1 && (forall x :: x in cut ==> x in nodes && Under(Parents(cut), id, x))
    requires forall x :: x in nodes ==> (x in cut <==> Under(Parents(nodes), id, x)) && (x in cut ==> Depth(cut, x) == Depth(nodes, x) - Depth(nodes, id) + 1)
    ensures IsHeight(cut, id, h) <==> IsHeight(nodes, id, h)
  {
    hide Depth, Under;
  }
}
