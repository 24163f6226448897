/**
 Parent-pointer walks over an arbitrary finite parent map, corrupt ones included
 (crates/remoter-core/src/tree.rs:201-256).
 */
module Lineages {
  import opened Base
  import opened Inheritance

  type ParentMap = map<NodeId, Option<NodeId>>

  /** How a walk towards the root ends. */
  datatype Walk = Reached(path: seq<NodeId>) | Dangling(id: NodeId) | Endless

  /** The walk of `Tree::ancestors`: at most `limit` parents, the limit tested before the lookup. */
  function Climb(par: ParentMap, cursor: Option<NodeId>, limit: nat): (walk: Walk)
    ensures walk.Reached? ==> |walk.path| <= limit && forall x :: x in walk.path ==> x in par
    decreases limit
  {
    if cursor.None? then Reached([])
    else if limit == 0 then Endless
    else if cursor.value !in par then Dangling(cursor.value)
    else
      match Climb(par, par[cursor.value], limit - 1)
      case Reached(rest) => Reached([cursor.value] + rest)
      case failed => failed
  }

  /** The proper ancestors of `id`, nearest first. */
  function AncestorWalk(par: ParentMap, id: NodeId): Walk
    requires id in par
  {
    Climb(par, par[id], |par|)
  }

  /** `p` follows parent pointers from the cursor `from` to the cursor `to`. */
  ghost predicate Segment(par: ParentMap, from: Option<NodeId>, p: seq<NodeId>, to: Option<NodeId>)
    decreases |p|
  {
    if p == [] then from == to
    else from == Some(p[0]) && p[0] in par && Segment(par, par[p[0]], p[1..], to)
  }

  /** A complete path from a cursor to the root. */
  ghost predicate Chain(par: ParentMap, from: Option<NodeId>, p: seq<NodeId>) {
    Segment(par, from, p, None)
  }

  /** The parents above `from` run into a node they already visited. */
  ghost predicate Cyclic(par: ParentMap, from: Option<NodeId>) {
    exists tail, at, loop :: loop != [] && Segment(par, from, tail, at) && Segment(par, at, loop, at)
  }

  /** The parents above `from` lead to the id `missing`, which is not in the map. */
  ghost predicate DanglesAt(par: ParentMap, from: Option<NodeId>, missing: NodeId) {
    missing !in par && exists p :: Segment(par, from, p, Some(missing))
  }

  predicate Rooted(par: ParentMap, cursor: Option<NodeId>) {
    Climb(par, cursor, |par|).Reached?
  }

  /** The path from a cursor to the root, the cursor's own node first; empty when there is none. */
  function Lineage(par: ParentMap, cursor: Option<NodeId>): seq<NodeId> {
    match Climb(par, cursor, |par|)
    case Reached(p) => p
    case _ => []
  }

  /** `x` is in the subtree of `top`, which includes `top` itself. */
  predicate Under(par: ParentMap, top: NodeId, x: NodeId) {
    top in Lineage(par, Some(x))
  }

  // Segments compose, split and are determined by their start.

  lemma {:induction false} SegmentSplit(par: ParentMap, from: Option<NodeId>, p: seq<NodeId>, to: Option<NodeId>, k: nat)
    requires k <= |p| && Segment(par, from, p, to)
    ensures Segment(par, from, p[..k], if k == |p| then to else Some(p[k]))
    ensures Segment(par, if k == |p| then to else Some(p[k]), p[k..], to)
    decreases |p|
  {
    if k > 0 {
      SegmentSplit(par, par[p[0]], p[1..], to, k - 1);
      assert p[..k][1..] == p[1..][..k - 1];
      assert p[k..] == p[1..][k - 1..];
    } else {
      assert p[..k] == [] && p[k..] == p;
    }
  }

  lemma {:induction false} SegmentJoin(par: ParentMap, from: Option<NodeId>, p: seq<NodeId>, via: Option<NodeId>, q: seq<NodeId>, to: Option<NodeId>)
    requires Segment(par, from, p, via) && Segment(par, via, q, to)
    ensures Segment(par, from, p + q, to)
    decreases |p|
  {
    if p == [] {
      assert p + q == q;
    } else {
      SegmentJoin(par, par[p[0]], p[1..], via, q, to);
      assert (p + q)[1..] == p[1..] + q;
    }
  }

  lemma {:induction false} ChainUnique(par: ParentMap, from: Option<NodeId>, p: seq<NodeId>, q: seq<NodeId>)
    requires Chain(par, from, p) && Chain(par, from, q)
    ensures p == q
    decreases |p|
  {
    if p != [] && q != [] {
      ChainUnique(par, par[p[0]], p[1..], q[1..]);
      assert p == [p[0]] + p[1..] && q == [q[0]] + q[1..];
    }
  }

  /** A path to the root visits nothing twice, so it fits in the map. */
  lemma {:induction false} ChainDistinct(par: ParentMap, from: Option<NodeId>, p: seq<NodeId>)
    requires Chain(par, from, p)
    ensures Distinct(p) && |p| <= |par|
    ensures forall x :: x in p ==> x in par
  {
    forall i, j | 0 <= i < j < |p| ensures p[i] != p[j] {
      SegmentSplit(par, from, p, None, i);
      SegmentSplit(par, from, p, None, j);
      if p[i] == p[j] {
        ChainUnique(par, Some(p[i]), p[i..], p[j..]);
      }
    }
    SegmentInside(par, from, p, None);
    DistinctWithin(p, par.Keys);
  }

  lemma {:induction false} SegmentInside(par: ParentMap, from: Option<NodeId>, p: seq<NodeId>, to: Option<NodeId>)
    requires Segment(par, from, p, to)
    ensures forall x :: x in p ==> x in par
    decreases |p|
  {
    if p != [] {
      SegmentInside(par, par[p[0]], p[1..], to);
      assert p == [p[0]] + p[1..];
    }
  }

  /** What each outcome of a bounded climb says about the pointers it followed. */
  lemma {:induction false} ClimbSound(par: ParentMap, cursor: Option<NodeId>, limit: nat) returns (p: seq<NodeId>, at: Option<NodeId>)
    ensures Segment(par, cursor, p, at) && |p| <= limit
    ensures match Climb(par, cursor, limit)
            case Reached(q) => q == p && at.None?
            case Dangling(id) => at == Some(id) && id !in par
            case Endless => at.Some? && |p| == limit
    decreases limit
  {
    if cursor.None? || limit == 0 || cursor.value !in par {
      p, at := [], cursor;
    } else {
      p, at := ClimbSound(par, par[cursor.value], limit - 1);
      p := [cursor.value] + p;
    }
  }

  lemma {:induction false} ClimbComplete(par: ParentMap, cursor: Option<NodeId>, p: seq<NodeId>, limit: nat)
    requires Chain(par, cursor, p) && |p| <= limit
    ensures Climb(par, cursor, limit) == Reached(p)
    decreases limit
  {
    if p != [] {
      ClimbComplete(par, par[p[0]], p[1..], limit - 1);
      assert p == [p[0]] + p[1..];
    }
  }

  /** `Lineage` is the one complete path from the cursor, whenever there is one. */
  lemma {:induction false} LineageIs(par: ParentMap, cursor: Option<NodeId>, p: seq<NodeId>)
    requires Chain(par, cursor, p)
    ensures Rooted(par, cursor) && Lineage(par, cursor) == p
    ensures Distinct(p) && |p| <= |par|
    ensures forall x :: x in p ==> x in par
  {
    ChainDistinct(par, cursor, p);
    ClimbComplete(par, cursor, p, |par|);
  }

  lemma {:induction false} LineageChain(par: ParentMap, cursor: Option<NodeId>)
    requires Rooted(par, cursor)
    ensures Chain(par, cursor, Lineage(par, cursor))
    ensures Distinct(Lineage(par, cursor)) && |Lineage(par, cursor)| <= |par|
    ensures forall x :: x in Lineage(par, cursor) ==> x in par
  {
    var p, at := ClimbSound(par, cursor, |par|);
    LineageIs(par, cursor, p);
  }

  /** The lineage of a node is the node, then its parent's lineage. */
  lemma {:induction false} LineageStep(par: ParentMap, id: NodeId)
    requires id in par
    ensures Rooted(par, Some(id)) <==> Rooted(par, par[id])
    ensures Rooted(par, Some(id)) ==> Lineage(par, Some(id)) == [id] + Lineage(par, par[id])
  {
    if Rooted(par, Some(id)) {
      LineageChain(par, Some(id));
      LineageIs(par, par[id], Lineage(par, Some(id))[1..]);
    }
    if Rooted(par, par[id]) {
      LineageChain(par, par[id]);
      assert ([id] + Lineage(par, par[id]))[1..] == Lineage(par, par[id]);
      LineageIs(par, Some(id), [id] + Lineage(par, par[id]));
    }
  }

  lemma RootLineage(par: ParentMap)
    ensures Rooted(par, None) && Lineage(par, None) == []
  {
  }

  /** Every node on a lineage has the rest of it as its own. */
  lemma {:induction false} LineageSuffix(par: ParentMap, cursor: Option<NodeId>, k: nat)
    requires Rooted(par, cursor) && k < |Lineage(par, cursor)|
    ensures Rooted(par, Some(Lineage(par, cursor)[k]))
    ensures Lineage(par, Some(Lineage(par, cursor)[k])) == Lineage(par, cursor)[k..]
  {
    LineageChain(par, cursor);
    SegmentSplit(par, cursor, Lineage(par, cursor), None, k);
    LineageIs(par, Some(Lineage(par, cursor)[k]), Lineage(par, cursor)[k..]);
  }

  /** Two members of one subtree at the same depth above a common node are the same node. */
  lemma {:induction false} UnderAtDepth(par: ParentMap, a: NodeId, b: NodeId, x: NodeId)
    requires Rooted(par, Some(x)) && Under(par, a, x) && Under(par, b, x)
    requires |Lineage(par, Some(a))| == |Lineage(par, Some(b))|
    ensures a == b
  {
    var p := Lineage(par, Some(x));
    var i :| 0 <= i < |p| && p[i] == a;
    var j :| 0 <= j < |p| && p[j] == b;
    LineageSuffix(par, Some(x), i);
    LineageSuffix(par, Some(x), j);
  }

  lemma {:induction false} UnderTransitive(par: ParentMap, a: NodeId, b: NodeId, x: NodeId)
    requires Rooted(par, Some(x)) && Under(par, b, x) && Under(par, a, b)
    ensures Under(par, a, x)
  {
    var p := Lineage(par, Some(x));
    var j :| 0 <= j < |p| && p[j] == b;
    LineageSuffix(par, Some(x), j);
  }

  /** A closed walk leaves no way to the root from any cursor that leads to it. */
  lemma {:induction false} CycleHasNoChain(par: ParentMap, from: Option<NodeId>, p: seq<NodeId>)
    requires Cyclic(par, from)
    ensures !Chain(par, from, p)
  {
    var tail, at, loop :| loop != [] && Segment(par, from, tail, at) && Segment(par, at, loop, at);
    if Chain(par, from, p) {
      var rest := SegmentRest(par, from, tail, at, p);
      SegmentJoin(par, at, loop, at, rest, None);
      ChainUnique(par, at, loop + rest, rest);
    }
  }

  lemma {:induction false} CyclicIsNotRooted(par: ParentMap, from: Option<NodeId>)
    requires Cyclic(par, from)
    ensures !Rooted(par, from)
  {
    hide Cyclic, Climb;
    if Rooted(par, from) {
      LineageChain(par, from);
      CycleHasNoChain(par, from, Lineage(par, from));
    }
  }

  /** A segment from a cursor is a prefix of that cursor's chain. */
  lemma {:induction false} SegmentRest(par: ParentMap, from: Option<NodeId>, p: seq<NodeId>, at: Option<NodeId>, full: seq<NodeId>) returns (rest: seq<NodeId>)
    requires Segment(par, from, p, at) && Chain(par, from, full)
    ensures full == p + rest && Chain(par, at, rest)
    decreases |p|
  {
    if p == [] {
      rest := full;
    } else {
      rest := SegmentRest(par, par[p[0]], p[1..], at, full[1..]);
      assert full == [p[0]] + full[1..];
    }
  }

  lemma {:induction false} DanglingHasNoChain(par: ParentMap, from: Option<NodeId>, missing: NodeId, p: seq<NodeId>)
    requires DanglesAt(par, from, missing)
    ensures !Chain(par, from, p)
  {
    var q :| Segment(par, from, q, Some(missing));
    if Chain(par, from, p) {
      var rest := SegmentRest(par, from, q, Some(missing), p);
    }
  }

  /** Two ways of leaving the same cursor: one is a prefix of the other. */
  lemma {:induction false} SegmentsAgree(par: ParentMap, from: Option<NodeId>, p: seq<NodeId>, a: Option<NodeId>, q: seq<NodeId>, b: Option<NodeId>) returns (rest: seq<NodeId>)
    requires Segment(par, from, p, a) && Segment(par, from, q, b) && |p| <= |q|
    ensures q == p + rest && Segment(par, a, rest, b)
    decreases |p|
  {
    if p == [] {
      rest := q;
    } else {
      rest := SegmentsAgree(par, par[p[0]], p[1..], a, q[1..], b);
      assert q == [q[0]] + q[1..];
    }
  }

  lemma {:induction false} DanglingIsNotCyclic(par: ParentMap, from: Option<NodeId>, missing: NodeId)
    requires DanglesAt(par, from, missing)
    ensures !Cyclic(par, from)
  {
    var q :| Segment(par, from, q, Some(missing));
    if Cyclic(par, from) {
      var tail, at, loop :| loop != [] && Segment(par, from, tail, at) && Segment(par, at, loop, at);
      LoopNeverLeaves(par, from, tail, at, loop, q, missing);
    }
  }

  lemma {:induction false} LoopNeverLeaves(par: ParentMap, from: Option<NodeId>, tail: seq<NodeId>, at: Option<NodeId>, loop: seq<NodeId>, q: seq<NodeId>, missing: NodeId)
    requires loop != [] && Segment(par, from, tail, at) && Segment(par, at, loop, at)
    requires missing !in par && Segment(par, from, q, Some(missing))
    ensures false
    decreases |q|
  {
    if |tail| <= |q| {
      var rest := SegmentsAgree(par, from, tail, at, q, Some(missing));
      if tail == [] {
        if |loop| <= |q| {
          var further := SegmentsAgree(par, from, loop, at, q, Some(missing));
          LoopNeverLeaves(par, at, [], at, loop, further, missing);
        } else {
          var extra := SegmentsAgree(par, from, q, Some(missing), loop, at);
        }
      } else {
        LoopNeverLeaves(par, at, [], at, loop, rest, missing);
      }
    } else {
      var extra := SegmentsAgree(par, from, q, Some(missing), tail, at);
    }
  }

  /** Pigeonhole: as many steps as the map has nodes, taken from a node's parent, close a loop. */
  lemma {:induction false} FullWalkCycles(par: ParentMap, id: NodeId, p: seq<NodeId>, at: Option<NodeId>)
    requires id in par && Segment(par, par[id], p, at) && |p| == |par|
    ensures Cyclic(par, par[id])
  {
    SegmentInside(par, par[id], p, at);
    if i, j :| 0 <= i < j < |p| && p[i] == p[j] {
      SegmentSplit(par, par[id], p, at, j);
      SegmentSplit(par, par[id], p[..j], Some(p[j]), i);
      assert p[..j][i..] != [];
      assert Segment(par, Some(p[i]), p[..j][i..], Some(p[i]));
    } else {
      DistinctSize(p);
      assert Elements(p) <= par.Keys;
      SubsetIsNoLarger(Elements(p), par.Keys);
      assert id in Elements(p);
      var k :| 0 <= k < |p| && p[k] == id;
      SegmentSplit(par, par[id], p, at, k);
      assert Segment(par, Some(id), [id], par[id]);
      SegmentJoin(par, par[id], p[..k], Some(id), [id], par[id]);
      assert Segment(par, par[id], [], par[id]);
    }
  }

  /**
   Walk exactness: on any finite map the bounded walk from a node reports the full path,
   the missing parent or a corrupt tree exactly when its parent pointers reach the root,
   dangle or cycle.
   */
  lemma {:induction false} WalkExact(par: ParentMap, id: NodeId)
    requires id in par
    ensures forall p :: AncestorWalk(par, id) == Reached(p) <==> Chain(par, par[id], p)
    ensures forall missing :: AncestorWalk(par, id) == Dangling(missing) <==> DanglesAt(par, par[id], missing)
    ensures AncestorWalk(par, id) == Endless <==> Cyclic(par, par[id])
  {
    var from := par[id];
    var q, at := ClimbSound(par, from, |par|);
    forall p | Chain(par, from, p) ensures AncestorWalk(par, id) == Reached(p) {
      LineageIs(par, from, p);
    }
    forall missing | DanglesAt(par, from, missing) ensures AncestorWalk(par, id) == Dangling(missing) {
      DanglingHasNoChain(par, from, missing, q);
      DanglingIsNotCyclic(par, from, missing);
      if AncestorWalk(par, id).Endless? {
        FullWalkCycles(par, id, q, at);
      } else {
        var r :| Segment(par, from, r, Some(missing));
        if |q| <= |r| {
          var rest := SegmentsAgree(par, from, q, at, r, Some(missing));
        } else {
          var rest := SegmentsAgree(par, from, r, Some(missing), q, at);
        }
      }
    }
    if AncestorWalk(par, id).Endless? {
      FullWalkCycles(par, id, q, at);
    }
    if Cyclic(par, from) {
      CycleHasNoChain(par, from, q);
      if AncestorWalk(par, id).Dangling? {
        DanglingIsNotCyclic(par, from, at.value);
      }
    }
  }

  /** When every parent is in the map, a node fails to reach the root exactly when its parents cycle. */
  lemma {:induction false} UnrootedIsCyclic(par: ParentMap, id: NodeId)
    requires id in par && forall x :: x in par && par[x].Some? ==> par[x].value in par
    ensures !Rooted(par, Some(id)) <==> Cyclic(par, par[id])
  {
    hide Climb, Cyclic, Rooted, Lineage;
    WalkExact(par, id);
    LineageStep(par, id);
    if Cyclic(par, par[id]) {
      CyclicIsNotRooted(par, par[id]);
    } else if AncestorWalk(par, id).Dangling? {
      StaysInside(par, par[id], AncestorWalk(par, id).id);
    } else {
      LineageIs(par, par[id], AncestorWalk(par, id).path);
    }
  }

  lemma {:induction false} StaysInside(par: ParentMap, from: Option<NodeId>, missing: NodeId)
    requires (forall x :: x in par && par[x].Some? ==> par[x].value in par) && (from.Some? ==> from.value in par)
    ensures !DanglesAt(par, from, missing)
  {
    forall p | Segment(par, from, p, Some(missing)) ensures missing in par {
      EndsInside(par, from, p, Some(missing));
    }
  }

  lemma {:induction false} EndsInside(par: ParentMap, from: Option<NodeId>, p: seq<NodeId>, to: Option<NodeId>)
    requires (forall x :: x in par && par[x].Some? ==> par[x].value in par) && (from.Some? ==> from.value in par)
    requires Segment(par, from, p, to)
    ensures to.Some? ==> to.value in par
    decreases |p|
  {
    if p != [] {
      EndsInside(par, par[p[0]], p[1..], to);
    }
  }
}
