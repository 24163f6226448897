/** The parent-to-children index and its sorting (crates/remoter-core/src/tree.rs:64-70, 1111-1136). */
module SiblingIndex {
  import opened Base
  import opened Inheritance
  import opened Nodes
  import opened Forests

  type Index = map<Option<NodeId>, seq<NodeId>>

  /** The display order of siblings: sort order, ties broken by id. */
  predicate Before(nodes: Forest, a: NodeId, b: NodeId)
    requires a in nodes && b in nodes
  {
    nodes[a].sortOrder < nodes[b].sortOrder || (nodes[a].sortOrder == nodes[b].sortOrder && a < b)
  }

  ghost predicate Sorted(nodes: Forest, s: seq<NodeId>) {
    && (forall i :: 0 <= i < |s| ==> s[i] in nodes)
    && forall i, j :: 0 <= i < j < |s| ==> Before(nodes, s[i], s[j])
  }

  /** One list per parent that has children: exactly its children, in display order. */
  ghost predicate Indexed(nodes: Forest, children: Index) {
    && (forall key :: key in children ==> children[key] != [] && Sorted(nodes, children[key]))
    && (forall key, x :: key in children && x in children[key] ==> x in nodes && nodes[x].parentId == key)
    && (forall x :: x in nodes ==> nodes[x].parentId in children && x in children[nodes[x].parentId])
  }

  /** `Tree::children`: the empty list for a parent with none. */
  function Kids(children: Index, parent: Option<NodeId>): seq<NodeId> {
    if parent in children then children[parent] else []
  }

  lemma KidsExact(nodes: Forest, children: Index, parent: Option<NodeId>)
    requires Indexed(nodes, children)
    ensures forall x :: x in Kids(children, parent) <==> x in nodes && nodes[x].parentId == parent
    ensures Sorted(nodes, Kids(children, parent)) && Distinct(Kids(children, parent))
  {
  }

  function InsertSorted(nodes: Forest, s: seq<NodeId>, x: NodeId): seq<NodeId>
    requires x in nodes && forall y :: y in s ==> y in nodes
  {
    if s == [] || Before(nodes, x, s[0]) then [x] + s else [s[0]] + InsertSorted(nodes, s[1..], x)
  }

  /** `sort_by_key` on (sort order, id). */
  function SortIds(nodes: Forest, s: seq<NodeId>): seq<NodeId>
    requires forall y :: y in s ==> y in nodes
    ensures forall y :: y in SortIds(nodes, s) ==> y in s
    decreases |s|
  {
    if s == [] then []
    else
      var rest := SortIds(nodes, s[1..]);
      InsertSortedElements(nodes, rest, s[0]);
      InsertSorted(nodes, rest, s[0])
  }

  lemma {:induction false} InsertSortedElements(nodes: Forest, s: seq<NodeId>, x: NodeId)
    requires x in nodes && forall y :: y in s ==> y in nodes
    ensures forall y :: y in InsertSorted(nodes, s, x) <==> y == x || y in s
    ensures |InsertSorted(nodes, s, x)| == |s| + 1
  {
    if s != [] && !Before(nodes, x, s[0]) {
      InsertSortedElements(nodes, s[1..], x);
      assert s == [s[0]] + s[1..];
    }
  }

  lemma {:induction false} InsertSortedSorted(nodes: Forest, s: seq<NodeId>, x: NodeId)
    requires x in nodes && x !in s && Sorted(nodes, s)
    ensures Sorted(nodes, InsertSorted(nodes, s, x))
  {
    InsertSortedElements(nodes, s, x);
    if s != [] && !Before(nodes, x, s[0]) {
      InsertSortedSorted(nodes, s[1..], x);
      InsertSortedElements(nodes, s[1..], x);
      var rest := InsertSorted(nodes, s[1..], x);
      forall j | 0 <= j < |rest| ensures Before(nodes, s[0], rest[j]) {
        assert rest[j] == x || rest[j] in s[1..];
      }
    }
  }

  /** Sorting yields the same ids, once each, in display order. */
  lemma {:induction false} SortIdsCorrect(nodes: Forest, s: seq<NodeId>)
    requires Distinct(s) && forall y :: y in s ==> y in nodes
    ensures Sorted(nodes, SortIds(nodes, s))
    ensures forall y :: y in SortIds(nodes, s) <==> y in s
    decreases |s|
  {
    if s != [] {
      SortIdsCorrect(nodes, s[1..]);
      assert s[0] !in s[1..];
      InsertSortedSorted(nodes, SortIds(nodes, s[1..]), s[0]);
      InsertSortedElements(nodes, SortIds(nodes, s[1..]), s[0]);
      assert s == [s[0]] + s[1..];
    }
  }

  lemma NonemptyElements(s: seq<NodeId>)
    ensures s != [] <==> Elements(s) != {}
    ensures s != [] ==> s[0] in Elements(s)
  {
    if s != [] {
      assert s[0] in Elements(s);
    }
  }

  lemma HeadLeast(nodes: Forest, s: seq<NodeId>, x: NodeId)
    requires s != [] && Sorted(nodes, s) && x in Elements(s)
    ensures x == s[0] || Before(nodes, s[0], x)
  {
  }

  lemma {:induction false} SortedUnique(nodes: Forest, s: seq<NodeId>, t: seq<NodeId>)
    requires Sorted(nodes, s) && Sorted(nodes, t) && Elements(s) == Elements(t)
    ensures s == t
    decreases |s|
  {
    NonemptyElements(s);
    NonemptyElements(t);
    if s != [] {
      HeadLeast(nodes, s, t[0]);
      HeadLeast(nodes, t, s[0]);
      TailElements(nodes, s);
      TailElements(nodes, t);
      SortedUnique(nodes, s[1..], t[1..]);
    }
  }

  lemma TailElements(nodes: Forest, s: seq<NodeId>)
    requires s != [] && Sorted(nodes, s)
    ensures Sorted(nodes, s[1..]) && s == [s[0]] + s[1..]
    ensures Elements(s[1..]) == Elements(s) - {s[0]}
  {
    assert s == [s[0]] + s[1..];
    assert s[0] !in s[1..];
  }

  /** The index holds nothing of its own: the node map determines it, so order survives a reload. */
  lemma {:induction false} IndexUnique(nodes: Forest, a: Index, b: Index)
    requires Indexed(nodes, a) && Indexed(nodes, b)
    ensures a == b
  {
    forall key | key in a ensures key in b && a[key] == b[key] {
      assert a[key][0] in nodes && nodes[a[key][0]].parentId == key;
      assert Elements(a[key]) == Elements(b[key]);
      SortedUnique(nodes, a[key], b[key]);
    }
    forall key | key in b ensures key in a {
      assert b[key][0] in nodes && nodes[b[key][0]].parentId == key;
    }
  }

  /** Only placement and sort order matter to the index. */
  lemma IndexedCongruent(before: Forest, after: Forest, children: Index)
    requires Indexed(before, children) && before.Keys == after.Keys
    requires forall x :: x in before ==>
               before[x].parentId == after[x].parentId && before[x].sortOrder == after[x].sortOrder
    ensures Indexed(after, children)
  {
  }

  // Maintaining the index.

  /** `retain` with one id left out. */
  function Without(s: seq<NodeId>, x: NodeId): seq<NodeId> {
    if s == [] then [] else (if s[0] == x then [] else [s[0]]) + Without(s[1..], x)
  }

  lemma {:induction false} WithoutElements(s: seq<NodeId>, x: NodeId)
    ensures forall y :: y in Without(s, x) <==> y in s && y != x
  {
    if s != [] {
      WithoutElements(s[1..], x);
      assert s == [s[0]] + s[1..];
    }
  }

  lemma {:induction false} WithoutSorted(nodes: Forest, s: seq<NodeId>, x: NodeId)
    requires Sorted(nodes, s)
    ensures Sorted(nodes, Without(s, x))
  {
    if s != [] {
      TailElements(nodes, s);
      WithoutSorted(nodes, s[1..], x);
      WithoutElements(s[1..], x);
      SortedCons(nodes, s[0], Without(s[1..], x));
    }
  }

  lemma SortedCons(nodes: Forest, x: NodeId, s: seq<NodeId>)
    requires x in nodes && Sorted(nodes, s) && forall y :: y in s ==> y in nodes && Before(nodes, x, y)
    ensures Sorted(nodes, [x] + s)
  {
  }

  /** A sorted list stays one in any map that keeps its members' sort orders. */
  lemma SortedKept(nodes: Forest, after: Forest, s: seq<NodeId>)
    requires Sorted(nodes, s) && forall x :: x in s && x in nodes ==> x in after && after[x].sortOrder == nodes[x].sortOrder
    ensures Sorted(after, s)
  {
    assert forall i :: 0 <= i < |s| ==> s[i] in s;
  }

  /** `Tree::unlink`: forget one child, and its list with it when that was the last. */
  function Unlinked(children: Index, parent: Option<NodeId>, id: NodeId): Index {
    if parent !in children then children
    else if Without(children[parent], id) == [] then children - {parent}
    else children[parent := Without(children[parent], id)]
  }

  lemma {:induction false} UnlinkIndexed(nodes: Forest, children: Index, id: NodeId)
    requires Indexed(nodes, children) && id in nodes
    ensures Indexed(nodes - {id}, Unlinked(children, nodes[id].parentId, id))
  {
    hide Sorted, Without;
    var parent, rest := nodes[id].parentId, nodes - {id};
    var after := Unlinked(children, parent, id);
    WithoutElements(children[parent], id);
    WithoutSorted(nodes, children[parent], id);
    forall key | key in after ensures after[key] != [] && Sorted(rest, after[key]) {
      SortedKept(nodes, rest, after[key]);
    }
    forall x | x in rest ensures rest[x].parentId in after && x in after[rest[x].parentId] {
      assert nodes[x].parentId == parent ==> x in Without(children[parent], id);
    }
  }

  /** `Tree::link`: append and sort again. */
  function Linked(nodes: Forest, children: Index, parent: Option<NodeId>, id: NodeId): Index
    requires id in nodes && forall x :: x in Kids(children, parent) ==> x in nodes
  {
    children[parent := SortIds(nodes, Kids(children, parent) + [id])]
  }

  lemma {:induction false} LinkIndexed(nodes: Forest, children: Index, id: NodeId)
    requires id in nodes && Indexed(nodes - {id}, children)
    ensures forall x :: x in Kids(children, nodes[id].parentId) ==> x in nodes
    ensures Indexed(nodes, Linked(nodes, children, nodes[id].parentId, id))
  {
    hide Sorted, SortIds;
    var parent, rest := nodes[id].parentId, nodes - {id};
    KidsExact(rest, children, parent);
    var kids := Kids(children, parent);
    assert forall x :: x in kids + [id] <==> x in kids || x == id;
    SortIdsCorrect(nodes, kids + [id]);
    var after := Linked(nodes, children, parent, id);
    assert id in after[parent];
    forall key | key in after ensures after[key] != [] && Sorted(nodes, after[key]) {
      if key != parent {
        SortedKept(rest, nodes, children[key]);
      }
    }
    forall x | x in nodes ensures nodes[x].parentId in after && x in after[nodes[x].parentId] {
      assert x != id ==> x in rest && x in children[rest[x].parentId];
    }
  }

  /** After the sort order of one child changed, sorting its siblings again restores the index. */
  lemma {:induction false} ResortIndexed(before: Forest, after: Forest, children: Index, id: NodeId)
    requires Indexed(before, children) && id in before && before.Keys == after.Keys
    requires forall x :: x in before ==> after[x].parentId == before[x].parentId
    requires forall x :: x in before && x != id ==> after[x].sortOrder == before[x].sortOrder
    ensures before[id].parentId in children && forall x :: x in children[before[id].parentId] ==> x in after
    ensures Indexed(after, children[before[id].parentId := SortIds(after, children[before[id].parentId])])
  {
    hide Sorted, SortIds;
    var parent := before[id].parentId;
    KidsExact(before, children, parent);
    SortIdsCorrect(after, children[parent]);
    var sorted := children[parent := SortIds(after, children[parent])];
    assert id in sorted[parent];
    forall key | key in sorted && key != parent ensures Sorted(after, sorted[key]) {
      SortedKept(before, after, children[key]);
    }
    forall x | x in after ensures after[x].parentId in sorted && x in sorted[after[x].parentId] {
      assert x in children[before[x].parentId];
    }
  }

  // Building the index from scratch.

  /** Every list holds members of `done`, each under its own parent, nothing twice, nothing missing. */
  ghost predicate Grouped(nodes: Forest, done: set<NodeId>, children: Index) {
    && (forall key :: key in children ==> children[key] != [] && Distinct(children[key]))
    && (forall key, x :: key in children && x in children[key] ==> x in done && x in nodes && nodes[x].parentId == key)
    && (forall x :: x in done && x in nodes ==> nodes[x].parentId in children && x in children[nodes[x].parentId])
  }

  lemma {:induction false} GroupOne(nodes: Forest, done: set<NodeId>, children: Index, id: NodeId)
    requires Grouped(nodes, done, children) && id in nodes && id !in done
    ensures Grouped(nodes, done + {id}, children[nodes[id].parentId := Kids(children, nodes[id].parentId) + [id]])
  {
    var parent := nodes[id].parentId;
    var after := children[parent := Kids(children, parent) + [id]];
    assert id !in Kids(children, parent);
    assert after[parent][|Kids(children, parent)|] == id;
    forall key | key in after ensures after[key] != [] && Distinct(after[key]) {
    }
    forall x | x in done && x in nodes ensures nodes[x].parentId in after && x in after[nodes[x].parentId] {
      assert x in children[nodes[x].parentId];
    }
  }

  /** Sorting one list of a grouped index. */
  lemma {:induction false} SortGroup(nodes: Forest, children: Index, key: Option<NodeId>)
    requires Grouped(nodes, nodes.Keys, children) && key in children
    ensures forall x :: x in children[key] ==> x in nodes
    ensures var after := children[key := SortIds(nodes, children[key])];
            Grouped(nodes, nodes.Keys, after) && Sorted(nodes, after[key])
  {
    SortIdsCorrect(nodes, children[key]);
    var after := children[key := SortIds(nodes, children[key])];
    assert children[key][0] in after[key];
  }

  lemma GroupedSortedIndexed(nodes: Forest, children: Index)
    requires Grouped(nodes, nodes.Keys, children) && forall key :: key in children ==> Sorted(nodes, children[key])
    ensures Indexed(nodes, children)
  {
  }
}
