# Remoter: the connection tree and its imports, verified

Remoter keeps a user's connections in a tree of folders, connections, credentials, groups and
separators. Fields such as the port, the credential and the gateway route are inherited down the
tree in three states (inherit, explicit, default), references between nodes survive deletion as
named tombstones, and imports bring foreign nodes into a live tree. This project models that logic
in Dafny and proves what the code relies on.

How the modules build on each other:

- `Lineages`, `Forests`, `SiblingIndex`, `Walks`, `Loops`: parent pointers over an arbitrary finite
  map, the node map as a value and what makes it legal, the parent-to-children index, the walks down,
  and what those walks do where parent links close a loop.
- `Inheritance`, `Nodes`, `Text`, `Validation`, `Resolution`, `Transport`, `ReferenceChecks`: the data
  model, its validators, the three-state resolver and the effective connection, and one lemma that
  carries resolution along any rewriting of ids and references.
- `Moves`, `Deletions`, `Edits`, `Detachment`, `Renaming`, `Runs`: what each operation does to a legal
  tree and to what connections resolve to, and the invariant over whole runs.
- `Trees`: the mutable `Tree` with its two maps; every method is proved against the functions above,
  on every tree that a run of its methods can leave.
- `ParentOrder`, `Grafting`, `GraftTheorems`, `Conflicts`, `ImportPlans`, `Reimport`: putting exported
  nodes into another tree, and the conflict policies.
- `CsvText`, `CsvRows`, `CsvFolders`, `Mapping`, `Previews`, `Interning`, `CredentialPools`, `CsvImport`,
  `CsvParse`, `CsvMeaning`, `CsvAcceptance`, `CsvLimits`, `CsvRoundTrip`: the CSV reader and its two printers, the
  importer with its folder paths and shared credentials, and when the domain model accepts the result.

`Legal(nodes)` is the tree invariant: every node is stored under its own id and valid, every parent
exists and is a folder, and every parent chain reaches the top within 64 levels. `Sound` leaves out
that parents are folders, and `Stored` also that the chains end: it asks for keys, values and parents
that exist. `Indexed(nodes, children)` says that the children index lists exactly the children of each
parent, once each, by sort order and then id, with no empty list. The two maps of a tree are private to
it; every method keeps `Stored` and `Indexed`, whatever came before, and that is all the methods ask
for. Ids are natural numbers ordered like the 128-bit numbers they stand for; clocks, fresh ids, digests
and sealed secrets are parameters.

Some properties one would expect are false of the code. Each has the exact condition under which it
holds and an input on which it fails:

- `update` may take a folder away from its children (`Runs.StepKeepsLegal`), and a move may then close a
  loop (`Moves.MoveKeepsSound`, `Runs.CareIsNeeded`). On a loop, and only there, an `update` that changes
  inheritance reports corruption after it has stored the node (`Trees.Tree.Update`,
  `Runs.UpdateFailsLate`).
- `preview_move` refuses some moves with a legal result (`Moves.MoveExact`, `Runs.MoveIsCautious`).
- Patches do not report every connection that resolves differently: after an `update`, those that read a
  renamed account (`Edits.UpdateIsHonest`, `Runs.UpdateMissesAccounts`); after an `insert`, those that
  already referred to the new credential (`Edits.InsertIsHonest`, `Runs.InsertMissesReaders`); after a
  deletion, those that inherited what was deleted (`Deletions.DeleteIsHonest`, `Runs.DeleteMissesHeirs`);
  after a move in a tree that is not legal, those below a carried credential, which get another path if
  and only if it gets another parent (`Moves.MoveIsHonest`, `Moves.PathKept`, `Runs.MoveMissesPassengers`).
- The credential pool reports too few credentials when digests collide under one account name
  (`Interning.CountExact`, `Interning.CollisionsMiscount`).
- A CSV preview is not always a tree the domain model accepts (`CsvAcceptance.PreviewAccepted`,
  `CsvLimits.DefaultDepthMissesByOne`, `CsvLimits.SuffixOverflows`).
- `resolve` does not recognise every node it has imported before: a credential attached to one of two
  credentials of one owner is inserted again (`Reimport.ImportingTwiceAddsNothing`,
  `Reimport.OwnedComesBack`). Where connections own all credentials it is not (`Reimport.GraftingTwice`).

Where code and comment disagree, the code is followed: the comment at
crates/remoter-import/src/native.rs:275 has an absent parent as an error, while the code makes such a
node top-level (`GraftTheorems.OrderableExact`).

## Model

| member | source | states |
|---|---|---|
| Lineages.WalkExact | crates/remoter-core/src/tree.rs:201-224 | On any finite parent map, corrupt ones included, the N-step walk ends: it returns the path exactly when the pointers reach the top, the missing parent exactly when they dangle, and corruption exactly when they cycle. |
| Lineages.UnrootedIsCyclic | crates/remoter-core/src/tree.rs:201-224 | When every parent is in the map, not reaching the top and running into a cycle are the same thing. |
| Forests.StoredWalk | crates/remoter-core/src/tree.rs:201-224 | Where every parent exists, the walk up fails only with corruption, exactly when it runs into a cycle. |
| Forests.InsertExact | crates/remoter-core/src/tree.rs:295-323 | Inserting into a legal tree is accepted if and only if the id is new and the grown tree is legal. |
| Forests.InsertAllExact | crates/remoter-core/src/tree.rs:295-323 | A batch that goes in leaves a legal tree holding exactly the old nodes and the new ones, all unchanged. |
| Forests.InsertKeepsSound | crates/remoter-core/src/tree.rs:295-323 | Inserting keeps a tree sound even where an update has taken a folder away from its children. |
| Forests.UpdateExact | crates/remoter-core/src/tree.rs:339-378 | In any sound tree an accepted update keeps keys, values, places and depths; it keeps a legal tree legal if and only if the edited node stays a folder or has no children. |
| Forests.UpdateStores | crates/remoter-core/src/tree.rs:356-363 | An update stores the caller's node with the stored creation time, the later of the two update times and the next revision, and changes no other node. |
| Forests.OnlyFoldersHold | crates/remoter-core/src/tree.rs:295-323 | In a legal tree whatever has a strict descendant is a folder. |
| SiblingIndex.SortIdsCorrect | crates/remoter-core/src/tree.rs:1125-1136 | Sorting siblings keeps the same ids, once each, ordered by sort order and then id. |
| SiblingIndex.LinkIndexed | crates/remoter-core/src/tree.rs:1111-1114 | Linking a node restores the index of the map with that node in it. |
| SiblingIndex.UnlinkIndexed | crates/remoter-core/src/tree.rs:1116-1123 | Unlinking a node leaves the index of the map without it, dropping a list that became empty. |
| SiblingIndex.ResortIndexed | crates/remoter-core/src/tree.rs:1125-1136 | After one node's sort order changed, sorting its siblings restores the index. |
| SiblingIndex.IndexUnique | crates/remoter-core/src/tree.rs:64-70 | The node map determines the index, so the redundant map holds nothing of its own. |
| Walks.PreorderExact | crates/remoter-core/src/tree.rs:260-275 | The depth-first listing below a node names each strict descendant once and nothing else, membership being decided by the parent pointers. |
| Walks.PreorderUnfolds | crates/remoter-core/src/tree.rs:260-275 | The listing is recursive pre-order: a child, all below it, then the next child. |
| Walks.HeightFromLevels | crates/remoter-core/src/tree.rs:1088-1109 | If level h is the first empty level below a node, h is the greatest relative depth in its subtree. |
| Loops.WalkFinds | crates/remoter-core/src/tree.rs:260-275 | In any indexed map, corrupt or not, the walk down from a node that is not among its own ancestors lists each node from which going up leads to it, once, and nothing else. |
| Loops.FinishedIsFree | crates/remoter-core/src/tree.rs:260-275 | A depth-first walk that ends without meeting a node twice started from a node that is not among its own ancestors. |
| Loops.SweptIsFree | crates/remoter-core/src/tree.rs:1088-1109 | The same for the level-by-level sweep. |
| Loops.CutHeight | crates/remoter-core/src/tree.rs:1088-1109 | Where every parent chain reaches the top, the height counted below a node is the greatest relative depth in its subtree. |
| Resolution.ResolveNearest | crates/remoter-core/src/inherit.rs:202-223 | A field resolves to the nearest node on the path that does not defer, with that node as its provenance; if all defer, to the default at the root. |
| Resolution.OptionalIsInherited | crates/remoter-core/src/inherit.rs:231-249 | Resolving icon and colour is the three-state walk over fields that are never default. |
| Resolution.MergeSettings | crates/remoter-core/src/tree.rs:1206-1224 | The root-down loop computes the overlay of every ancestor's settings and the node's own. |
| Resolution.MergedNearest | crates/remoter-core/src/tree.rs:1206-1224 | For each key the nearest node that sets it supplies the value and the provenance; a key nobody sets is absent. |
| Resolution.ProvenanceIsHonest | crates/remoter-core/src/tree.rs:691-753 | For every connection of a tree and each of its twelve resolved fields: the named supplier is on its path and itself holds that value or asks for the default, and nothing nearer says anything about the field; with no supplier nobody on the path does. The settings hold exactly the keys that some node of the path sets. |
| Resolution.AccountIsRead | crates/remoter-core/src/tree.rs:691-753 | An effective connection keeps its own name, protocol and host. Its username is that of the credential its live reference leads to, or none, with the credential's provenance, and the credential counts as its own if and only if it is attached to this connection. |
| Resolution.DefaultPortExact | crates/remoter-core/src/node.rs:176-188 | Which protocols fall back to which port, and that no others do. |
| Resolution.EffectiveAlongLineage | crates/remoter-core/src/tree.rs:691-753 | Every connection whose parent chain reaches the top flattens, over exactly the nodes of its path. |
| Resolution.EffectiveFrame | crates/remoter-core/src/tree.rs:691-753 | A connection's effective form depends only on its path and on the credentials of the tree. |
| Transport.WalkedMirrors | crates/remoter-core/src/tree.rs:691-753 | If two paths correspond node by node up to a renaming and a rewriting of references, so do all twelve resolved fields. |
| Nodes.ReferencesMapped | crates/remoter-core/src/node.rs:1173-1240 | Rewriting the references of a node in place reaches exactly the references the node reports, in order. |
| Nodes.MapReferencesFixed | crates/remoter-core/src/node.rs:1199-1240 | The rewrite leaves a node alone if and only if it fixes each reference the node holds. |
| Validation.GatewayAccepted | crates/remoter-core/src/validate.rs:410-428 | A gateway chain passes if and only if it has at most eight hops and visits none twice. |
| Validation.NodeAccepted | crates/remoter-core/src/validate.rs:235-275 | A node passes if and only if it keeps every rule about its columns, its inheritable fields, its secret and its layout, each spelled out. |
| Mapping.OctetExact | crates/remoter-core/src/validate.rs:61-90 | An octet of an address is a number up to 255 without leading zeros. |
| Mapping.Ipv4Exact | crates/remoter-core/src/validate.rs:61-90 | A host is an IPv4 address if and only if it is four such numbers joined by dots. |
| Mapping.DnsExact | crates/remoter-core/src/validate.rs:91-126 | A host is a DNS name if and only if it is labels of letters, digits and inner dashes, joined by dots, at most 253 characters, the last label not a number, with or without a final dot. |
| Validation.MappedNodeValid | crates/remoter-core/src/validate.rs:237-275 | Rewriting references keeps a node valid unless it merges two hops of one route. |
| ReferenceChecks.RouteChecked | crates/remoter-core/src/tree.rs:1063-1084 | A route passes if and only if it is simple and each hop is another connection of the tree, with a credential that hop may use, or a tombstone. |
| ReferenceChecks.ChecksAreExact | crates/remoter-core/src/tree.rs:926-990 | A connection's references pass if and only if the credential and the route it resolves to after inheritance are ones it can use. |
| ReferenceChecks.OtherChecksAreExact | crates/remoter-core/src/tree.rs:926-1013 | A folder passes if and only if its own credential and route are usable, a credential if and only if it has no owner or a connection of the tree as one, a group if and only if its live members exist. |
| ReferenceChecks.FaultsAreNamed | crates/remoter-core/src/tree.rs:926-1084 | Each error of a reference check names what is wrong in the tree. |
| Moves.MoveKeepsLegal | crates/remoter-core/src/tree.rs:467-503 | An accepted move, with the attached credentials it carries along, leaves a legal tree. |
| Moves.MoveAccepted | crates/remoter-core/src/tree.rs:390-446 | A move is accepted if and only if the node exists, the destination is the top or a folder outside the moved subtree, and every member's resulting depth is at most 64. |
| Moves.MoveExact | crates/remoter-core/src/tree.rs:390-503 | A move is accepted if and only if its result is legal and credentials attached to the moved node from inside its subtree would have fitted where they were. |
| Moves.MoveErrorGrounded | crates/remoter-core/src/tree.rs:390-446 | Where every parent chain reaches the top, no walk of the preview fails and the height it adds is the subtree's. |
| Moves.MovedReseats | crates/remoter-core/src/tree.rs:467-503 | A move gives the node and each credential attached to it the requested parent and position and a later revision; nothing else about them changes, and no other node does. |
| Moves.MoveKeepsStored | crates/remoter-core/src/tree.rs:467-503 | An accepted move keeps keys, values and the existence of parents even in a corrupt tree. |
| Moves.MoveKeepsSound | crates/remoter-core/src/tree.rs:390-503 | In a sound tree an accepted move leaves no loop if and only if no carried credential lies at or above the destination, and a sound tree if and only if also everything that goes along with a carried credential has room below the destination. |
| Moves.MovedLineages | crates/remoter-core/src/tree.rs:467-503 | In any tree without loops, if nothing at or above the destination is relocated: each path becomes the old one up to its first relocated node, followed by the destination's. |
| Moves.PathKept | crates/remoter-core/src/tree.rs:467-503 | What goes along with a relocated node keeps its path if and only if that node is put where it was. |
| Moves.MoveIsHonest | crates/remoter-core/src/tree.rs:448-503 | In any sound tree, even if the move closes a loop elsewhere: a connection that is below nothing relocated has the identical effective form; in a legal tree these are exactly the connections outside the reported subtree. |
| Runs.MoveMissesPassengers | crates/remoter-core/src/tree.rs:390-503 | A legal tree, an accepted update and an accepted move after which a connection below a carried credential, which the patch does not name, resolves differently. |
| Runs.MoveIsCautious | crates/remoter-core/src/tree.rs:390-446 | A legal tree and a move whose result is legal that the preview refuses. |
| Deletions.TombstoneChanges | crates/remoter-core/src/node.rs:1199-1215 | Tombstoning changes a node if and only if it held a live reference into the deleted set, and afterwards it holds none. |
| Deletions.DeleteKeepsLegal | crates/remoter-core/src/tree.rs:523-590 | Deleting keeps the tree legal. |
| Deletions.DeleteKeepsSound | crates/remoter-core/src/tree.rs:523-590 | Deleting keeps keys, values, places and depths in any tree. |
| Deletions.DoomedGrounded | crates/remoter-core/src/tree.rs:523-545 | Where every parent chain reaches the top, what is deleted is the subtree by parent links and the credentials attached to it. |
| Deletions.DeletionBuries | crates/remoter-core/src/tree.rs:523-590 | The nodes that go and are not yet deleted get the time and a later revision; each live reference of a survivor to one of them becomes a tombstone with its name, and only such a survivor gets the time and a later revision; all else stays. |
| Trees.DeletionNamed | crates/remoter-core/src/tree.rs:560-590 | The patch names exactly the nodes that were marked and the survivors that changed. |
| Deletions.DeleteIsClosed | crates/remoter-core/src/tree.rs:523-590 | No survivor keeps a live reference to a deleted node, every other reference is untouched, and exactly the reported survivors change. |
| Deletions.DeleteIsIdempotent | crates/remoter-core/src/tree.rs:523-605 | A second deletion at any time changes nothing, finds nothing left to mark and nobody left to update. |
| Deletions.AncestorsSurvive | crates/remoter-core/src/tree.rs:523-545 | In a legal tree nothing above a survivor is deleted; in a sound one, nothing but credentials. |
| Deletions.NoSilentFallback | crates/remoter-core/src/tree.rs:523-590 | In any sound tree every surviving connection resolves each field from the same node as before; a lost credential or hop stays the resolved one, as a tombstone with its name. |
| Deletions.DeleteIsHonest | crates/remoter-core/src/tree.rs:523-590 | In any sound tree a surviving connection keeps its effective form, as the patch claims, if and only if nothing it resolves to is a live reference to a deleted node. |
| Runs.DeleteMissesHeirs | crates/remoter-core/src/tree.rs:523-590 | A legal tree and a deletion after which a connection that the patch does not name, inheriting the lost credential, resolves differently. |
| Edits.AccountAfter | crates/remoter-core/src/tree.rs:339-378 | What is read through a credential reference stays the same unless the reference is to the edited node and its account changed. |
| Edits.UpdateIsHonest | crates/remoter-core/src/tree.rs:339-378 | In any sound tree an unreported connection keeps every walked field, and its whole effective form if and only if it does not read a changed account through the edited node. |
| Runs.UpdateMissesAccounts | crates/remoter-core/src/tree.rs:339-378 | A legal tree and an accepted update after which an unreported connection has another username. |
| Edits.InsertIsHonest | crates/remoter-core/src/tree.rs:295-323 | In any sound tree an insertion leaves a connection's effective form alone, as its patch claims, if and only if the new node is not a credential the connection already referred to. |
| Runs.InsertMissesReaders | crates/remoter-core/src/tree.rs:295-323 | A legal tree and an accepted insertion after which an unreported connection resolves differently. |
| Detachment.MergeAncestorSettings | crates/remoter-core/src/tree.rs:1146-1160 | The insert-if-absent loop fills in ancestors' settings nearest first, or fails on a key that is not valid. |
| Detachment.FillIsOverwrite | crates/remoter-core/src/tree.rs:1146-1160 | Inserting what is absent from the nearest ancestor up equals overwriting from the root down. |
| Detachment.DetachSucceeds | crates/remoter-core/src/tree.rs:772-911 | In a legal tree every node can be detached. |
| Detachment.DetachPreservesMeaning | crates/remoter-core/src/tree.rs:772-911 | With a node replaced by its detached form, every connection below it resolves every field to the same value, and a supplier changes only from an ancestor of the node to the node. |
| Detachment.DetachedKeeps | crates/remoter-core/src/tree.rs:772-911 | The detached form of any node keeps every column but its parent; each open field, the icon and the colour take what the nearest node above sets, and stay open if none does; a set field stays. |
| Detachment.DetachRefused | crates/remoter-core/src/tree.rs:772-911 | Detaching fails if and only if a folder or connection would have to take over a settings key that is not valid. |
| Renaming.Remap | crates/remoter-core/src/tree.rs:1187-1204 | Remapping an array in place renames every id, parent, owner and reference the map knows. |
| Renaming.RenamedLegal | crates/remoter-core/src/tree.rs:1173-1204 | A tree renamed by an injective map to fresh ids is legal. |
| Renaming.RenameCommutes | crates/remoter-core/src/tree.rs:1173-1204 | Resolving in the renamed tree gives the renamed form of what was resolved before. |
| Runs.StepKeepsLegal | crates/remoter-core/src/tree.rs:295-590 | One operation keeps a legal tree legal if and only if it fails or takes no folder away from its children. |
| Runs.RunKeepsLegal | crates/remoter-core/src/tree.rs:295-590 | The invariant holds after every run of operations in which no update takes a folder away from its children. |
| Runs.StepKeepsStored | crates/remoter-core/src/tree.rs:295-590 | Every operation on every tree, corrupt ones included, keeps keys, values and the existence of parents. |
| Runs.StepKeepsSound | crates/remoter-core/src/tree.rs:295-590 | One operation keeps a sound tree sound if and only if it fails or is no move whose destination, or too deep a subtree, goes along with a carried credential; inserting, updating and deleting always do. |
| Runs.LegalKeepsGround | crates/remoter-core/src/tree.rs:467-503 | In a legal tree every accepted move meets that condition. |
| Runs.RunKeeps | crates/remoter-core/src/tree.rs:295-590 | Over every run: keys, values and parents always; acyclic and at most 64 levels after every step if and only if every accepted move meets that condition; legal as long as folders keep their children, and then every move does. |
| Runs.Replay | crates/remoter-core/src/tree.rs:295-590 | The tree object follows the run over its node map step by step, with an exact index after every run, sound and legal under the same conditions. |
| Runs.CareIsNeeded | crates/remoter-core/src/tree.rs:339-503 | A legal tree, an accepted update and an accepted move that together put a node among its own ancestors. |
| Runs.UpdateFailsLate | crates/remoter-core/src/tree.rs:339-378 | After those two, an update of that node with another icon passes every check, is stored and then reports corruption. |
| Trees.LoadFaultRefutes | crates/remoter-core/src/tree.rs:94-140 | Each error loading can report is a fault no legal tree has. |
| Trees.MovePatchUnique | crates/remoter-core/src/tree.rs:448-503 | A tree and a node have one move patch, so preview and move return the same one. |
| Trees.Tree.FromNodes | crates/remoter-core/src/tree.rs:94-140 | Loading succeeds if and only if the ids are distinct and the nodes form a legal tree; it then holds exactly these nodes, and any error names a fault of the input. |
| Trees.Tree.Ancestors | crates/remoter-core/src/tree.rs:201-224 | The loop returns the nodes of the walk, or the error that says how it failed. |
| Trees.Tree.PathToRoot | crates/remoter-core/src/tree.rs:228-235 | On any map of nodes: the node's lineage if the walk up succeeds, and otherwise the error of the walk. |
| Trees.Tree.DepthOf | crates/remoter-core/src/tree.rs:239-243 | On any map of nodes: the length of that lineage, or the error of the walk. |
| Trees.Tree.IsAncestorOf | crates/remoter-core/src/tree.rs:250-256 | On any map of nodes: whether the one is another node on the lineage of the other, or the error of the walk. |
| Trees.Tree.Descendants | crates/remoter-core/src/tree.rs:260-275 | Whatever the parent links are: the explicit-stack loop ends, reports corruption if and only if the node is among its own ancestors, and otherwise returns the pre-order listing below it. |
| Trees.Tree.AttachedCredentials | crates/remoter-core/src/tree.rs:614-628 | The credentials attached to a node, ascending by id, all of them and nothing else. |
| Trees.Tree.SubtreeHeight | crates/remoter-core/src/tree.rs:1088-1109 | Whatever the parent links are: the level-by-level loop ends, reports corruption if and only if the node is among its own ancestors, and otherwise returns the greatest relative depth below it. |
| Trees.Tree.Insert | crates/remoter-core/src/tree.rs:295-323 | In any tree a run can leave: the node is stored and indexed and the patch names it, or the error is reported and nothing changes; a sound tree stays sound and a legal one legal. |
| Trees.Tree.Update | crates/remoter-core/src/tree.rs:339-378 | In any tree a run can leave: the edited form is stored as `Forests.UpdateStores` says, the index is kept in step and the patch names what may resolve differently, or nothing changes; if the node is on a loop and its inheritance changed, corruption is reported although the edit has been stored. In a sound tree an error means that nothing changed. A sound tree stays sound, a legal one legal if and only if no children lose their folder. |
| Trees.Tree.PreviewMove | crates/remoter-core/src/tree.rs:390-465 | In any tree a run can leave, loops included: the move's error or its patch, with nothing changed. |
| Trees.Tree.MoveNode | crates/remoter-core/src/tree.rs:467-503 | In any tree a run can leave: the two loops give the node and its attached credentials the requested parent and position and change nothing else, keep the index in step and return the preview's patch, or nothing changes; a legal tree stays legal, and a sound one sound if and only if no carried credential lies at or above the destination and what is below them has room there. |
| Trees.Tree.SoftDelete | crates/remoter-core/src/tree.rs:523-590 | In any tree a run can leave: what is below the node and what is attached to that is marked, other references into it become tombstones, and the patch names exactly what was marked and what was rewritten; a node on a loop is refused and nothing changes. A sound tree stays sound and a legal one legal. |
| ParentOrder.ParentsFirst | crates/remoter-import/src/native.rs:378-398 | The rounds return a permutation with every parent first; with distinct ids they fail if and only if some node does not reach the top. |
| Grafting.CloseExclusion | crates/remoter-import/src/native.rs:288-309 | The loop returns the least set that holds the unticked ids and is closed under children and attached credentials, within one pass more than there are nodes. |
| Grafting.ClosureIsOrderFree | crates/remoter-import/src/native.rs:288-309 | The closure does not depend on the order of the nodes. |
| Grafting.Graft | crates/remoter-import/src/native.rs:277-375 | The kept nodes come out rewritten, valid and parents first with exact counts, or a rewritten node is invalid, or the links do not reach the top. |
| GraftTheorems.GraftedExactly | crates/remoter-import/src/native.rs:320-375 | Each kept node arrives under its new id, with new dates, below its kept parent or at the destination, everything else as it was: a live reference to a kept node follows it, one to a live node of the destination stays, any other becomes a tombstone with the exported name, and an owner that is not kept is forgotten. |
| GraftTheorems.GraftedPositions | crates/remoter-import/src/native.rs:335-343 | Top-level nodes are numbered on from the base in the order they come, until the counter is full. |
| GraftTheorems.TombstonesCounted | crates/remoter-import/src/native.rs:348-357 | The reported count is the number of tombstones that were not there before. |
| GraftTheorems.GraftIsClosed | crates/remoter-import/src/native.rs:320-375 | Every live reference of a grafted node targets a grafted node or a live node of the destination, and every owner is grafted. |
| GraftTheorems.OrderableExact | crates/remoter-import/src/native.rs:320-398 | The grafted nodes can be ordered if and only if the kept parent links contain no cycle; an absent parent makes a node top-level. |
| GraftTheorems.BatchInserts | crates/remoter-core/src/tree.rs:295-323 | A parents-first batch of valid nodes with new ids goes in if and only if each node then has a folder above it, or nothing, and is at most 64 levels deep; a refusal names one of the two. |
| GraftTheorems.GraftInserts | crates/remoter-import/src/native.rs:277-375 | What a graft returns goes into its destination, in order, if and only if each node then has a folder above it, or nothing, and is at most 64 levels deep; a refusal names one of the two. |
| Conflicts.Matches | crates/remoter-import/src/conflicts.rs:107-137 | The loop matches each candidate with a live node of its kind and name where it would land, or with its owner's credential. |
| Conflicts.ResolveConflicts | crates/remoter-import/src/conflicts.rs:165-228 | In any tree: under "keep both" every node is inserted as it is, in order, and nothing else happens. Otherwise the nodes that meet nothing are inserted in order with what they refer to renamed; the others give their id to what they meet, folders merging, the rest skipped under "skip"; under "replace" each gives its properties to the node it meets, which keeps its id, place, creation time and revision. |
| Conflicts.PlanConserves | crates/remoter-import/src/conflicts.rs:165-228 | Every imported node is inserted, replaces one, is skipped or merges, in exactly one of these ways, and the counts add up. |
| ImportPlans.MatchingIsExact | crates/remoter-import/src/conflicts.rs:107-137 | Once each parent and owner comes first, the matching is a fixed point: each node's match follows from the final matches of its parent and owner. |
| ImportPlans.ConflictsListed | crates/remoter-import/src/conflicts.rs:165-228 | Every match is reported, in the order of the import, with the node's name and label and the vault node it meets. |
| ImportPlans.NothingDangles | crates/remoter-import/src/conflicts.rs:165-228 | No insert or update keeps the id of a merged, skipped or replaced import in any column or reference. |
| ImportPlans.InsertsArePlaced | crates/remoter-import/src/conflicts.rs:165-228 | Each insert's parent is the destination, a folder of the vault or an earlier insert. |
| ImportPlans.UpdatesAreAccepted | crates/remoter-import/src/conflicts.rs:165-228 | Each update keeps its node's place, so the tree can refuse it only for its values. |
| Reimport.ImportingTwiceAddsNothing | crates/remoter-import/src/conflicts.rs:165-237 | After an import committed under "skip", a freshly renamed copy at the same destination leaves nothing to insert if and only if whatever was inserted already marked deleted has a live twin beside it and each credential with an owner in the import finds one where its owner's copy is matched; with no marks the first always holds, with owners that have no owner the second. |
| Reimport.MarkedComesBack | crates/remoter-import/src/conflicts.rs:165-237 | A node handed to `resolve` already marked deleted is inserted again by the second import; grafting and conversion clear the mark. |
| Reimport.OwnedComesBack | crates/remoter-import/src/conflicts.rs:165-237 | With two credentials on one owner and a third attached to the second of them, the second import inserts the third again. |
| Reimport.GraftingTwice | crates/remoter-import/src/native.rs:335-375 | What a graft returns, imported twice, adds nothing if and only if those credentials find their owners' matches, and so whenever connections own them all. |
| Reimport.ConvertingTwice | crates/remoter-import/src/preview.rs:205-266 | Converted previews, imported twice, add nothing the second time. |
| CsvText.Read | crates/remoter-import/src/csv.rs:403-477 | The loop with its look-ahead computes the five-state reader. |
| CsvText.DelimiterIsCommonest | crates/remoter-import/src/csv.rs:480-487 | The delimiter is the one of comma, semicolon and tab that occurs most often in the first line, the last of equals, and a comma when none occurs. |
| CsvText.ReadUndoesPrint | crates/remoter-import/src/csv.rs:403-477 | Rows of arbitrary text, printed as section 2 of RFC 4180 asks with any of the three delimiters under a header that shows it, come back as they are if and only if they are within the limits; otherwise a limit that is exceeded is reported. |
| CsvText.LastBreakOptional | crates/remoter-import/src/csv.rs:403-477 | The last line is read without its line break, too, unless it is empty. |
| CsvText.UnclosedIsTruncated | crates/remoter-import/src/csv.rs:403-477 | A quote that is never closed is reported, whatever was read before it. |
| CsvText.WordHeaderTells | crates/remoter-import/src/csv.rs:480-487 | A table headed by two or more plain words is read with the delimiter it was printed with, whatever its other rows hold; one headed by a single word is read with commas. |
| CsvText.UnguardUndoesGuard | crates/remoter-import/src/csv.rs:323-335 | Taking the guard apostrophe off undoes putting it on formula-like values, for every string. |
| CsvText.UnguardUndoesNeutralised | crates/remoter-ipc/src/audit.rs:392-404 | The audit log's weaker guard is undone if and only if the value is not apostrophes before a formula character. |
| CsvText.RenderCsv | crates/remoter-ipc/src/audit.rs:340-384 | The loop prints the header and the neutralised entries, one line each. |
| CsvText.AuditLogReadsBack | crates/remoter-ipc/src/audit.rs:340-404 | The importer's reader returns the audit log's header and its neutralised entries. |
| CsvText.PushField | crates/remoter-import/src/export/csv.rs:182-200 | The character loop appends the guarded, trimmed value, quoted and doubled where it has to be. |
| CsvText.PushRow | crates/remoter-import/src/export/csv.rs:163-171 | The loop appends the exported fields, separated by commas, and the line ending. |
| CsvText.ExportedValueReturns | crates/remoter-import/src/export/csv.rs:182-200 | What the importer takes from an exported cell is the exported value, trimmed. |
| CsvText.ExportReadsBack | crates/remoter-import/src/export/csv.rs:163-200 | An exported table is read back row by row, and each cell gives its value. |
| CsvRoundTrip.ExportedRowReturns | crates/remoter-import/src/export/csv.rs:47-93 | The row written for any connection of the domain model asks for that connection: name (or host), protocol, host, port, account, description and gateway return trimmed, folders and tags as the trimmed pieces the separators leave, blank ones dropped. |
| CsvRoundTrip.PartsKept | crates/remoter-import/src/export/csv.rs:47-93 | Folder names and tags that are trimmed and free of the separator return as they were. |
| CsvRows.ReadHeader | crates/remoter-import/src/csv.rs:90-108 | Each column is located; the header is refused if and only if it repeats a column or lacks a required one. |
| CsvRows.KeptIsValid | crates/remoter-import/src/csv.rs:226-237 | Every preserved key is one the domain model accepts, and there are no more than the ceiling. |
| CsvRows.WantIsSane | crates/remoter-import/src/csv.rs:143-239 | Whatever a usable row asks for passes each value rule of the domain model, its name falling back to its host. |
| CsvRows.Route | crates/remoter-import/src/csv.rs:299-314 | The whole cell as one name, or every name between `>` signs, and only a route of at most eight distinct hops other than the connection itself. |
| CsvFolders.PrefixInjective | crates/remoter-import/src/csv.rs:347-387 | The string key of a path determines the path. |
| CsvFolders.Folders.Path | crates/remoter-import/src/csv.rs:347-387 | The node returned is at the end of exactly the path's names; only folders on that path are added, each remembered; too deep if and only if the path is longer than the limit. |
| CsvAcceptance.FoldersOnce | crates/remoter-import/src/csv.rs:337-387 | No two folders in one place share a name, the credentials' own folder aside. |
| Mapping.CleanNameValid | crates/remoter-import/src/mapping.rs:32-35 | A cleaned name is acceptable unless nothing is left, and holds only characters of the original. |
| Mapping.HostNamesItself | crates/remoter-import/src/csv.rs:143-147 | A host the domain model accepts leaves a usable name. |
| Mapping.CredentialNameExact | crates/remoter-import/src/mapping.rs:283-302 | A credential's name is acceptable unless it is named after its row and the suffix takes it past 255 characters. |
| Previews.PreviewBuilder.Push | crates/remoter-import/src/preview.rs:460-480 | Any node is appended and counted, or the ceiling is reported; with a new id and a listed parent, ids stay distinct and parents first. |
| Previews.ConversionIsFaithful | crates/remoter-import/src/preview.rs:216-266 | Conversion yields a node if and only if there is a sealed form for its password and the node that says the same as the preview, with the sealed form in the password's place, is valid. |
| Interning.JoinIsInjective | crates/remoter-import/src/mapping.rs:192-196 | The joined protocol key determines the protocol list, because of the characters protocol ids may hold. |
| Interning.HitExact | crates/remoter-import/src/mapping.rs:204-209 | A call finds a credential if and only if the last call with its key asked for the same account. |
| Interning.SameIdSameIdentity | crates/remoter-import/src/mapping.rs:159-245 | Over every sequence of calls and for any digest, calls answered by one id asked for the same account. |
| Interning.CountExact | crates/remoter-import/src/mapping.rs:159-278 | For any digest the reported count is at most the number of credentials made, and equal to it if and only if calls with one key asked with one secret. |
| Interning.SameIdExact | crates/remoter-import/src/mapping.rs:159-245 | For any digest two calls for one account get one id if and only if no call between them took over their key with another secret. |
| Interning.FirstsOpen | crates/remoter-import/src/mapping.rs:159-227 | While calls with one key ask with one secret, the calls that make a credential are the first for each account. |
| Interning.SameIdentitySameId | crates/remoter-import/src/mapping.rs:159-278 | While calls with one key ask with one secret, equal accounts get one id and the reported count is the number of credentials made. |
| Interning.CollisionFreeAgrees | crates/remoter-import/src/mapping.rs:120-128 | A digest without collisions on the secrets at hand makes calls with one key ask with one secret, so all of the above holds. |
| Interning.CollisionsMiscount | crates/remoter-import/src/mapping.rs:120-128 | With a colliding digest three credentials can be made and one reported. |
| CredentialPools.CredentialPool.Intern | crates/remoter-import/src/mapping.rs:159-227 | The call extends the session by one step of the pool, adds the folder and the credential only on a miss, and refuses what the vault would refuse. |
| CredentialPools.CredentialPool.Finish | crates/remoter-import/src/mapping.rs:266-278 | The report counts every reference, never more credentials than the preview holds, and all of them if and only if calls with one key asked with one secret. |
| CsvImport.Credit | crates/remoter-import/src/csv.rs:192-212 | A row's connection gets no credential, or a live reference to a node that holds exactly the row's account. |
| CsvParse.RoutePending | crates/remoter-import/src/csv.rs:247-280 | The second pass gives each connection the route its row names by the final names, or keeps the cell as text, and changes nothing else. |
| CsvParse.Parse | crates/remoter-import/src/csv.rs:81-289 | The parse succeeds if and only if the file has no fault: unreadable text, a bad header, a path too deep, an account the vault refuses, or more nodes than the ceiling by exact count. The preview then holds one connection for each usable row with everything the row says, each folder and account once, and nothing else. |
| CsvMeaning.CellSays | crates/remoter-import/src/csv.rs:129-141 | A documented cell is empty when its column or the cell is missing, and otherwise trimmed and, unless it is the password, without its guard. |
| CsvMeaning.RowSays | crates/remoter-import/src/csv.rs:143-239 | A row is usable if and only if its host is one and it names a protocol or none; it then asks for what its cells say, column by column. |
| CsvMeaning.TagsExact | crates/remoter-import/src/csv.rs:219-224 | The tags are exactly the trimmed pieces that are tags. |
| CsvMeaning.PathExact | crates/remoter-import/src/csv.rs:347-360 | The folders of a path are exactly the cleaned pieces that are not blank. |
| CsvMeaning.PortExact | crates/remoter-import/src/mapping.rs:43-52 | A cell of digits, with or without a plus before them, is a port if and only if its number is from 1 to 65535. |
| CsvMeaning.KeptExact | crates/remoter-import/src/csv.rs:226-237 | Every kept value is that of an undocumented cell under its column's key, and with room for them all each such cell is kept. |
| CsvMeaning.RouteSays | crates/remoter-import/src/csv.rs:247-314 | A connection's gateway is the passable route its cell names, by its whole text or by the names between `>` signs; with no such route there is none, and the cell is kept as text if there is room. |
| CsvMeaning.NamesLast | crates/remoter-import/src/csv.rs:240-244 | A name means the last row that has it. |
| CsvMeaning.PreviewTells | crates/remoter-import/src/csv.rs:81-289 | Each usable row has its own connection, in order, at the end of the row's path, with the row's values and a live credential that holds the row's account, and with nothing the row does not say. |
| CsvMeaning.AccountsTold | crates/remoter-import/src/mapping.rs:211-245 | Each call that makes a credential has it in the pool's folder, called after its account or its row, holding exactly the account that was asked for. |
| CsvAcceptance.AcceptedExactly | fuzz/fuzz_targets/import_csv.rs:16-38 | A faithful preview converts, loads and passes every reference check if and only if no path has 64 folders or more and no credential named after its row overflows. |
| CsvAcceptance.PreviewAccepted | fuzz/fuzz_targets/import_csv.rs:16-38 | What the parse makes of a text is accepted by the domain model if and only if no row has 64 folders or more and no credential named after its row overflows. |
| CsvAcceptance.SizeOf | crates/remoter-import/src/csv.rs:81-289 | The number of nodes a file needs, compared with the ceiling: its distinct folder paths, its rows, its calls that open an account, and one folder if there are any. |
| CsvAcceptance.TightLimitsSuffice | crates/remoter-import/src/limits.rs:22-40 | A depth limit below 64 and no unnamed account on a row with a name over 243 characters suffice. |
| CsvLimits.DefaultDepthMissesByOne | crates/remoter-import/src/limits.rs:47-60 | A file without any fault under the default limits of which every preview is refused by the domain model: its connection is one level too deep. |
| CsvLimits.SuffixOverflows | crates/remoter-import/src/mapping.rs:283-302 | A file without any fault under the default limits, the fuzz target's and all others with room for it, of which every preview is refused: its credential's name is too long, for any digest. |

## Left out

- `settings_provenance`: returns the last contributor in key order, which is not a property worth stating.
- Adjacency of a moved connection and its attached credential in display order: not guaranteed when another sibling shares the sort order.
- The payloads of most validation errors and the order in which invalid custom-field keys are reported.
- Conversion of the input bytes to text, the byte-order mark, and the input size limit: the CSV model starts from characters.
- The findings of import reports other than the deduplication counts, and the counts of folders, connections and secrets.
- Reimport.ImportingTwiceAddsNothing: folders, and owners without an owner, differ in kind or name from their siblings, because copies of equal ones are taken for the same node and what is below the others is then looked for in the wrong place.
- The exporter's scope, notes and gateway cell, and exports in other formats.
- The mRemoteNG, RDCMan, PuTTY, RDP and known-hosts importers, and the parsing of Remoter's own export format.
- SHA-1, sealing, zeroization, serialization, UUID generation and clocks: digests, sealed bytes, ids and times are parameters.
- The vault, the plugins, the session protocols, the inter-process layer around the audit log, and the user interface.
