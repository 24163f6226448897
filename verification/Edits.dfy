/** What an update's patch promises about resolution (crates/remoter-core/src/tree.rs:339-378). */
module Edits {
  import opened Base
  import opened Inheritance
  import opened Nodes
  import opened Validation
  import opened Lineages
  import opened Forests
  import opened Resolution
  import opened Transport

  /** The nodes an update reports as possibly resolving differently. */
  ghost predicate ReportedByUpdate(nodes: Forest, n: Node, x: NodeId)
    requires n.id in nodes
  {
    x == n.id || (InheritanceDiffers(nodes[n.id], n) && Under(Parents(nodes), n.id, x))
  }

  /** What a connection reads through a credential: the account name, and whether it is its own. */
  function AccountOf(n: Node, x: NodeId): (Option<string>, bool) {
    if n.kind.Credential? then (Some(n.kind.props.username), n.kind.props.attachedTo == Some(x)) else (None, false)
  }

  lemma {:induction false} EditedPathMirrors(nodes: Forest, n: Node, x: NodeId)
    requires Keyed(nodes) && Grounded(nodes) && UpdateError(nodes, n).None? && x in nodes
    requires !ReportedByUpdate(nodes, n, x)
    ensures Parents(Updated(nodes, n)) == Parents(nodes)
    ensures forall y :: y in Lineage(Parents(nodes), Some(x)) ==> y in nodes
    ensures Mirrors(PathNodes(nodes, x), PathNodes(Updated(nodes, n), x), Same<NodeId>, Same<NodeRef>)
  {
    hide Lineage, Rooted, Climb, InheritanceDiffers, Edited, MapFields;
    var after := Updated(nodes, n);
    assert after.Keys == nodes.Keys;
    EditedPlace(nodes[n.id], n);
    assert Parents(after) == Parents(nodes);
    DepthStep(nodes, x);
    LineageChain(Parents(nodes), Some(x));
    var a, b := PathNodes(nodes, x), PathNodes(after, x);
    forall i {:trigger a[i]} {:trigger b[i]} | 0 <= i < |a| ensures Mirror(a[i], b[i], Same<NodeId>, Same<NodeRef>) {
      var y := Lineage(Parents(nodes), Some(x))[i];
      assert y in Lineage(Parents(nodes), Some(x));
      FieldsSame(nodes[y]);
      if y == n.id {
        EditedSame(nodes[y], n);
      }
    }
  }

  lemma EditedPlace(existing: Node, n: Node)
    ensures Edited(existing, n).id == n.id && Edited(existing, n).parentId == n.parentId
    ensures Edited(existing, n).kind == n.kind
  {
  }

  lemma EditedSame(existing: Node, n: Node)
    requires existing.id == n.id && !InheritanceDiffers(existing, n)
    ensures Mirror(existing, Edited(existing, n), Same<NodeId>, Same<NodeRef>)
  {
    FieldsSame(existing);
  }

  lemma FieldsSame(n: Node)
    ensures FieldsOf(n).Some? ==> MapFields(FieldsOf(n).value, Same<NodeRef>) == FieldsOf(n).value
  {
    if FieldsOf(n).Some? && FieldsOf(n).value.gateway.Explicit? {
      assert MapHops(FieldsOf(n).value.gateway.value, Same<NodeRef>) == FieldsOf(n).value.gateway.value;
    }
  }

  /** A resolved credential reads the same account afterwards unless it is the edited node and that account changed. */
  lemma AccountAfter(nodes: Forest, n: Node, x: NodeId, credential: Resolved<Option<NodeRef>>)
    requires UpdateError(nodes, n).None?
    ensures Username(Updated(nodes, n), credential) == Username(nodes, credential)
            && Attached(Updated(nodes, n), credential, x) == Attached(nodes, credential, x)
            <==> (credential.value == Some(Live(n.id)) ==> AccountOf(nodes[n.id], x) == AccountOf(n, x))
  {
  }

  /**
   Patch honesty of an update: an unreported connection keeps every walked field, and keeps
   its whole effective form exactly when it does not read a changed account through the
   edited node. The patch does not report the connections for which it does.
   */
  lemma {:induction false} UpdateIsHonest(nodes: Forest, n: Node, x: NodeId)
    requires Sound(nodes) && UpdateError(nodes, n).None?
    requires x in nodes && nodes[x].kind.Connection? && !ReportedByUpdate(nodes, n, x)
    ensures EffectiveConnection(nodes, x).Ok? && EffectiveConnection(Updated(nodes, n), x).Ok?
    ensures var before, after := EffectiveConnection(nodes, x).value, EffectiveConnection(Updated(nodes, n), x).value;
            && after == before.(username := after.username, credentialAttached := after.credentialAttached)
            && (after == before <==>
                before.walked.credential.value == Some(Live(n.id)) ==> AccountOf(nodes[n.id], x) == AccountOf(n, x))
  {
    hide Lineage, Rooted, Climb, WalkedOf, MapWalked, EffectiveConnection, AncestorsOf, Mirror, Edited, AccountOf, CredentialAt, Username, Attached, InheritanceDiffers, Under;
    var after := Updated(nodes, n);
    UpdateExact(nodes, n);
    EditedPlace(nodes[n.id], n);
    EditedPathMirrors(nodes, n, x);
    EffectiveAlongLineage(nodes, x);
    EffectiveAlongLineage(after, x);
    var a, b := PathNodes(nodes, x), PathNodes(after, x);
    WalkedMirrors(nodes[x].kind.protocol, a, b, Same<NodeId>, Same<NodeRef>);
    MapWalkedSame(WalkedOf(nodes[x].kind.protocol, a[0], a[1..]));
    AccountAfter(nodes, n, x, WalkedOf(nodes[x].kind.protocol, a[0], a[1..]).credential);
  }

  /**
   An insertion reports no change of resolution; that is true of a connection exactly when the new node
   is not a credential that the connection was already referring to.
   */
  lemma {:induction false} InsertIsHonest(nodes: Forest, n: Node, x: NodeId)
    requires Sound(nodes) && InsertError(nodes, n).None? && x in nodes && nodes[x].kind.Connection?
    ensures EffectiveConnection(nodes, x).Ok?
    ensures EffectiveConnection(nodes[n.id := n], x) == EffectiveConnection(nodes, x) <==>
            !(EffectiveConnection(nodes, x).value.walked.credential.value == Some(Live(n.id)) && n.kind.Credential?)
  {
    hide Lineage, Rooted, Climb, WalkedOf, AncestorsOf, ValidateNode;
    var after := nodes[n.id := n];
    InsertKeepsSound(nodes, n);
    InsertKeepsLineages(nodes, n);
    EffectiveAlongLineage(nodes, x);
    EffectiveAlongLineage(after, x);
    assert n.id !in nodes && PathNodes(after, x) == PathNodes(nodes, x);
  }
}
