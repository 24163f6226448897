/** The pool that turns per-connection credentials into shared nodes (crates/remoter-import/src/mapping.rs:120-279). */
module CredentialPools {
  import opened Base
  import opened Inheritance
  import opened Nodes
  import opened Text
  import opened Validation
  import opened Mapping
  import opened Previews
  import opened Interning

  const POOL_FOLDER_ORDER: int := 0x7FFF_FFFF_FFFF_FFFF

  function IdentityOf(c: PreviewCredential): Identity {
    Identity(c.username, c.domain, c.secret, c.allowedProtocols)
  }

  function AccountFor(who: Identity): PreviewKind {
    PreviewAccount(PreviewCredential(who.username, who.domain, who.secret, who.protocols))
  }

  /** The credentials of a preview and the accounts they hold. */
  function AccountsIn(m: Catalogue): map<NodeId, Identity> {
    map id | id in m && m[id].kind.PreviewAccount? :: IdentityOf(m[id].kind.credential)
  }

  /** What the domain model would refuse of an account when the preview is committed. */
  function IdentityFault(who: Identity): Verdict {
    Then(Reject(|who.username| > MAX_USERNAME_LEN, UsernameTooLong),
         Reject(HasControl(who.username) || (who.domain.Some? && HasControl(who.domain.value)), IdentityControlChar))
  }

  function FolderNode(id: NodeId, name: string): PreviewNode {
    Plainly(id, name, PreviewFolder(PLAIN), None, POOL_FOLDER_ORDER)
  }

  ghost predicate IsFolder(m: Catalogue, id: NodeId, name: string) {
    id in m && m[id] == FolderNode(id, name)
  }

  /** The nodes a call that makes a credential adds: the pool's folder if it is the first, then the credential. */
  function Added(folder: Option<NodeId>, folderName: string, source: string, who: Identity, sortOrder: int, nextId: NodeId): seq<PreviewNode> {
    var name := CredentialName(source, who.username, who.domain);
    if folder.Some? then [Plainly(nextId, name, AccountFor(who), folder, sortOrder)]
    else [FolderNode(nextId, folderName), Plainly(nextId + 1, name, AccountFor(who), Some(nextId), sortOrder)]
  }

  lemma AccountsUnchanged(m: Catalogue, id: NodeId, p: PreviewNode)
    requires !p.kind.PreviewAccount? && (id in m ==> !m[id].kind.PreviewAccount?)
    ensures AccountsIn(m[id := p]) == AccountsIn(m)
  {
  }

  lemma AccountsGrow(m: Catalogue, id: NodeId, p: PreviewNode, who: Identity)
    requires p.kind == AccountFor(who)
    ensures AccountsIn(m[id := p]) == AccountsIn(m)[id := who]
  {
  }

  /** The finding that reports the sharing. */
  datatype Deduplicated = Deduplicated(credentials: nat, connections: nat)

  lemma {:induction false} LastIsIndexed(s: Session, digest: Digest)
    requires Ran(s, digest) && Indexes(s.pools[|s.calls|], s.calls, s.got, digest, |s.calls|)
    ensures s.pools[|s.calls|].index == map[] <==> s.calls == []
  {
    hide KeyOf, WellNamed, Hit, Interned, AfterIntern;
    var p := s.pools[|s.calls|];
    if s.calls != [] {
      var key := KeyOf(s.calls[|s.calls| - 1], digest);
      assert Latest(s.calls, digest, key, |s.calls|).Some?;
      assert key in p.index;
    }
  }

  class CredentialPool {
    var folder: Option<NodeId>
    const folderName: string
    var index: map<Key, NodeId>
    var nextSort: nat
    var references: nat
    const digest: Digest
    ghost var session: Session

    /** The pool is where its calls so far have left it, and its credentials are those of the preview. */
    ghost predicate Valid(b: PreviewBuilder)
      reads this, b
    {
      Tracks(b) && references == |session.calls| && (folder.Some? <==> session.calls != [])
    }

    ghost predicate Tracks(b: PreviewBuilder)
      reads this, b
    {
      && b.Valid() && Ran(session, digest)
      && session.pools[|session.calls|] == Pool(index, AccountsIn(ById(b.nodes)))
      && (folder.Some? ==> IsFolder(ById(b.nodes), folder.value, folderName))
    }

    constructor (folderName: string, digest: Digest)
      ensures this.folderName == folderName && this.digest == digest && folder == None && session == NEW_SESSION
      ensures Ran(session, digest) && index == map[] && references == 0
    {
      this.folderName, this.digest := folderName, digest;
      folder, index, nextSort, references, session := None, map[], 0, 0, NEW_SESSION;
    }

    /** `matches`: whether an indexed id names a credential with this account. */
    method Matches(b: PreviewBuilder, id: NodeId, who: Identity) returns (same: bool)
      requires b.Valid()
      ensures var m := AccountsIn(ById(b.nodes));
              same <==> id in m && SameAccount(m[id], who)
    {
      FindExact(b.nodes, id);
      match Find(b.nodes, id) {
        case None => same := false;
        case Some(i) =>
          var kind := b.nodes[i].kind;
          same := kind.PreviewAccount? && SameAccount(IdentityOf(kind.credential), who);
      }
    }

    /** `folder`: the pool's own folder, created the first time it is asked for. */
    method Folder(b: PreviewBuilder) returns (r: Result<NodeId, ImportError>)
      requires Tracks(b)
      modifies this`folder, b
      ensures Tracks(b)
      ensures old(folder).Some? ==>
                r == Ok(old(folder).value) && b.nodes == old(b.nodes) && b.nextId == old(b.nextId) && folder == old(folder)
      ensures old(folder).None? && old(|b.nodes|) < b.maxNodes ==>
                && r == Ok(old(b.nextId)) && folder == Some(old(b.nextId)) && b.nextId == old(b.nextId) + 1
                && b.nodes == old(b.nodes) + [FolderNode(old(b.nextId), folderName)]
                && ById(b.nodes) == old(ById(b.nodes))[r.value := FolderNode(r.value, folderName)]
      ensures old(folder).None? && old(|b.nodes|) >= b.maxNodes ==> r == Err(TooManyNodes)
    {
      hide ById, WellListed, Ran, Accounts;
      if folder.Some? {
        return Ok(folder.value);
      }
      var id := b.NewId();
      AccountsUnchanged(ById(b.nodes), id, FolderNode(id, folderName));
      r := b.Push(FolderNode(id, folderName));
      if r.Ok? {
        folder := Some(id);
      }
    }

    /** `intern`: answers with a credential that holds the account, an existing one if the index leads to it. */
    method Intern(b: PreviewBuilder, name: string, who: Identity) returns (r: Result<NodeRef, ImportError>)
      requires Valid(b) && WellNamed(who.protocols)
      modifies this, b
      ensures b.Valid()
      ensures IdentityFault(who).Some? ==> r == Err(Rejected(IdentityFault(who).value))
      ensures r.Err? && IdentityFault(who).None? ==>
                && r == Err(TooManyNodes)
                && !old(Hit(Pool(index, AccountsIn(ById(b.nodes))), who, digest))
                && old(|b.nodes|) + (if old(folder).None? then 2 else 1) > b.maxNodes
      ensures r.Ok? ==>
                && Valid(b) && r.value.Live?
                && session.got != [] && session == Extended(old(session), who, digest, r.value.id) && session.got[|session.got| - 1] == r.value.id
                && (old(Hit(Pool(index, AccountsIn(ById(b.nodes))), who, digest)) ==>
                      b.nodes == old(b.nodes) && b.nextId == old(b.nextId) && folder == old(folder))
                && (!old(Hit(Pool(index, AccountsIn(ById(b.nodes))), who, digest)) ==>
                      && folder == Some(if old(folder).Some? then old(folder).value else old(b.nextId))
                      && b.nodes == old(b.nodes) + Added(old(folder), folderName, name, who, old(nextSort), old(b.nextId))
                      && b.nodes != [] && r.value.id == b.nodes[|b.nodes| - 1].id)
      ensures r.Ok? ==> b.nextId >= old(b.nextId)
    {
      hide ById, WellListed, Ran, Accounts, WellNamed, AccountsIn, Added, Hit;
      if |who.username| > MAX_USERNAME_LEN {
        return Err(Rejected(UsernameTooLong));
      }
      if HasControl(who.username) || (who.domain.Some? && HasControl(who.domain.value)) {
        return Err(Rejected(IdentityControlChar));
      }
      var key := KeyOf(who, digest);
      references := references + 1;
      if key in index {
        var same := Matches(b, index[key], who);
        if same {
          SessionHits(session, who, digest, key);
          session := Extended(session, who, digest, index[key]);
          return Ok(Live(index[key]));
        }
      }
      SessionMisses(Pool(index, AccountsIn(ById(b.nodes))), who, digest);
      r := Make(b, name, who);
    }

    /** `finish`: how many credentials served how many references, if any did. */
    method Finish(b: PreviewBuilder) returns (r: Option<Deduplicated>)
      requires Valid(b)
      ensures r.None? <==> session.calls == []
      ensures r.Some? ==> r.value.connections == |session.calls|
      ensures r.Some? ==> 0 < r.value.credentials <= |AccountsIn(ById(b.nodes))|
      ensures r.Some? ==> (r.value.credentials == |AccountsIn(ById(b.nodes))| <==> KeysAgree(session.calls, digest, |session.calls|))
    {
      hide AccountsIn, ById, KeyOf, Answers, KeysAgree;
      Remembers(session, digest, |session.calls|);
      CountExact(session, digest, |session.calls|);
      LastIsIndexed(session, digest);
      if index == map[] {
        return None;
      }
      assert index.Keys != {};
      return Some(Deduplicated(|index|, references));
    }

    /** The path of `intern` that creates the credential. */
    method Make(b: PreviewBuilder, name: string, who: Identity) returns (r: Result<NodeRef, ImportError>)
      requires Tracks(b) && WellNamed(who.protocols) && !Hit(Pool(index, AccountsIn(ById(b.nodes))), who, digest)
      modifies this`folder, this`index, this`nextSort, this`session, b
      ensures b.Valid()
      ensures r.Err? ==> r == Err(TooManyNodes) && old(|b.nodes|) + (if old(folder).None? then 2 else 1) > b.maxNodes
      ensures r.Ok? ==>
                && Tracks(b) && r.value.Live? && |session.calls| == old(|session.calls|) + 1
                && session.got != [] && session == Extended(old(session), who, digest, r.value.id) && session.got[|session.got| - 1] == r.value.id
                && folder == Some(if old(folder).Some? then old(folder).value else old(b.nextId))
                && b.nodes == old(b.nodes) + Added(old(folder), folderName, name, who, old(nextSort), old(b.nextId))
                && b.nodes != [] && r.value.id == b.nodes[|b.nodes| - 1].id
                && b.nextId >= old(b.nextId)
    {
      hide ById, WellListed, Ran, Accounts, WellNamed, AccountsIn, Hit, Added, KeyOf, CredentialName, Extended;
      ghost var pool := Pool(index, AccountsIn(ById(b.nodes)));
      var parent := Folder(b);
      if parent.Err? {
        return Err(parent.error);
      }
      assert AccountsIn(ById(b.nodes)) == pool.made;
      AddedIs(old(b.nodes), old(folder), folderName, name, who, old(nextSort), old(b.nextId));
      r := MakeUnder(b, name, who, parent.value);
    }

    /** Creates a credential in the pool's folder. */
    method MakeUnder(b: PreviewBuilder, name: string, who: Identity, parent: NodeId) returns (r: Result<NodeRef, ImportError>)
      requires Tracks(b) && WellNamed(who.protocols) && !Hit(Pool(index, AccountsIn(ById(b.nodes))), who, digest) && folder == Some(parent)
      modifies this`index, this`nextSort, this`session, b
      ensures b.Valid()
      ensures r.Err? ==> r == Err(TooManyNodes) && old(|b.nodes|) + 1 > b.maxNodes
      ensures r.Ok? ==>
                && Tracks(b) && r.value.Live? && |session.calls| == old(|session.calls|) + 1
                && session.got != [] && session == Extended(old(session), who, digest, r.value.id) && session.got[|session.got| - 1] == r.value.id
                && b.nodes == old(b.nodes) + [Plainly(old(b.nextId), CredentialName(name, who.username, who.domain), AccountFor(who), Some(parent), old(nextSort))]
                && r.value.id == old(b.nextId) && b.nextId == old(b.nextId) + 1
    {
      hide ById, WellListed, Ran, Accounts, WellNamed, AccountsIn, Hit, KeyOf, CredentialName, Extended;
      ghost var pool := Pool(index, AccountsIn(ById(b.nodes)));
      var id := b.NewId();
      assert id !in pool.made by {
        AccountsAreNodes(ById(b.nodes), id);
      }
      var node := Plainly(id, CredentialName(name, who.username, who.domain), AccountFor(who), folder, nextSort);
      nextSort := nextSort + 1;
      AccountsGrow(ById(b.nodes), id, node, who);
      var pushed := b.Push(node);
      if pushed.Err? {
        return Err(pushed.error);
      }
      index := index[KeyOf(who, digest) := id];
      SessionMakes(session, who, digest, id);
      session := Extended(session, who, digest, id);
      return Ok(Live(id));
    }
  }

  lemma AddedIs(nodes: seq<PreviewNode>, folder: Option<NodeId>, folderName: string, source: string, who: Identity, sortOrder: int, nextId: NodeId)
    ensures var added := Added(folder, folderName, source, who, sortOrder, nextId);
            var name := CredentialName(source, who.username, who.domain);
            && (folder.Some? ==> nodes + added == nodes + [Plainly(nextId, name, AccountFor(who), folder, sortOrder)])
            && (folder.None? ==> nodes + added == nodes + [FolderNode(nextId, folderName)]
                                                  + [Plainly(nextId + 1, name, AccountFor(who), Some(nextId), sortOrder)])
  {
  }

  lemma AccountsAreNodes(m: Catalogue, id: NodeId)
    requires id !in m
    ensures id !in AccountsIn(m)
  {
  }

  lemma SessionHits(s: Session, who: Identity, digest: Digest, key: Key)
    requires Ran(s, digest) && WellNamed(who.protocols) && key == KeyOf(who, digest)
    requires var p := s.pools[|s.calls|];
             key in p.index && p.index[key] in p.made && SameAccount(p.made[p.index[key]], who)
    ensures s.pools != [] && Hit(s.pools[|s.calls|], who, digest)
    ensures var t := Extended(s, who, digest, s.pools[|s.calls|].index[key]);
            t.got != [] && t.got[|t.got| - 1] == s.pools[|s.calls|].index[key] && Ran(t, digest) && |t.calls| == |s.calls| + 1 && t.pools[|t.calls|] == s.pools[|s.calls|]
  {
    RanExtended(s, who, digest, s.pools[|s.calls|].index[key]);
  }

  lemma SessionMisses(p: Pool, who: Identity, digest: Digest)
    requires KeyOf(who, digest) in p.index ==>
               !(p.index[KeyOf(who, digest)] in p.made && SameAccount(p.made[p.index[KeyOf(who, digest)]], who))
    ensures !Hit(p, who, digest)
  {
  }

  lemma SessionMakes(s: Session, who: Identity, digest: Digest, id: NodeId)
    requires Ran(s, digest) && WellNamed(who.protocols) && !Hit(s.pools[|s.calls|], who, digest)
    requires id !in s.pools[|s.calls|].made
    ensures s.pools != []
    ensures var t, p := Extended(s, who, digest, id), s.pools[|s.calls|];
            && t.got != [] && t.got[|t.got| - 1] == id && Ran(t, digest) && |t.calls| == |s.calls| + 1
            && t.pools[|t.calls|] == Pool(p.index[KeyOf(who, digest) := id], p.made[id := who])
  {
    RanExtended(s, who, digest, id);
  }
}
