/** Sharing credentials between connections (crates/remoter-import/src/mapping.rs:120-227). */
module Interning {
  import opened Base
  import opened Inheritance
  import opened Nodes
  import opened Text
  import opened Validation
  import opened Previews

  /** What makes two credentials the same. */
  datatype Identity = Identity(username: string, domain: Option<string>, secret: PreviewSecret, protocols: seq<string>)

  datatype Key = Key(username: string, domain: Option<string>, protocolKey: string, digest: nat)

  type Digest = PreviewSecret -> nat

  datatype Pool = Pool(index: map<Key, NodeId>, made: map<NodeId, Identity>)

  function KeyOf(who: Identity, digest: Digest): Key {
    Key(who.username, who.domain, Join(who.protocols, ','), digest(who.secret))
  }

  ghost predicate WellNamed(protocols: seq<string>) {
    forall i :: 0 <= i < |protocols| ==> ValidProtocolId(protocols[i])
  }

  // The protocol list is recoverable from its key.

  /** The character set of protocol ids makes the joined key injective. */
  lemma {:induction false} JoinIsInjective(a: seq<string>, b: seq<string>)
    requires WellNamed(a) && WellNamed(b) && Join(a, ',') == Join(b, ',')
    ensures a == b
  {
    JoinedIsNonempty(a);
    JoinedIsNonempty(b);
    if a != [] {
      SplitUndoesJoin(a, ',');
      SplitUndoesJoin(b, ',');
    }
  }

  lemma JoinedIsNonempty(parts: seq<string>)
    requires WellNamed(parts)
    ensures Join(parts, ',') == "" <==> parts == []
    ensures forall i :: 0 <= i < |parts| ==> ',' !in parts[i]
  {
    if parts != [] {
      assert ValidProtocolId(parts[0]);
    }
  }

  // One call.

  /** The comparison behind the index: all of the account but its protocols, which the key determines. */
  predicate SameAccount(a: Identity, b: Identity) {
    a.username == b.username && a.domain == b.domain && a.secret == b.secret
  }

  predicate Hit(p: Pool, who: Identity, digest: Digest) {
    var key := KeyOf(who, digest);
    key in p.index && p.index[key] in p.made && SameAccount(p.made[p.index[key]], who)
  }

  function Interned(p: Pool, who: Identity, digest: Digest, newId: NodeId): NodeId {
    if Hit(p, who, digest) then p.index[KeyOf(who, digest)] else newId
  }

  function AfterIntern(p: Pool, who: Identity, digest: Digest, newId: NodeId): Pool {
    if Hit(p, who, digest) then p
    else Pool(p.index[KeyOf(who, digest) := newId], p.made[newId := who])
  }

  // Every sequence of calls.

  /** A sequence of calls: what was asked, the id ready for a new node, what was returned, and the pool between calls. */
  datatype Session = Session(calls: seq<Identity>, ready: seq<NodeId>, got: seq<NodeId>, pools: seq<Pool>)

  ghost predicate Ran(s: Session, digest: Digest) {
    && |s.pools| == |s.calls| + 1 && |s.got| == |s.ready| == |s.calls|
    && s.pools[0] == Pool(map[], map[])
    && forall k :: 0 <= k < |s.calls| ==> Stepped(s, digest, k)
  }

  /** Call k is one `intern`, and an id it makes a node with is new. */
  ghost predicate Stepped(s: Session, digest: Digest, k: nat)
    requires |s.pools| == |s.calls| + 1 && |s.got| == |s.ready| == |s.calls| && k < |s.calls|
  {
    && WellNamed(s.calls[k].protocols)
    && (!Hit(s.pools[k], s.calls[k], digest) ==> s.ready[k] !in s.pools[k].made)
    && s.got[k] == Interned(s.pools[k], s.calls[k], digest, s.ready[k])
    && s.pools[k + 1] == AfterIntern(s.pools[k], s.calls[k], digest, s.ready[k])
  }

  const NEW_SESSION := Session([], [], [], [Pool(map[], map[])])

  function Extended(s: Session, who: Identity, digest: Digest, newId: NodeId): Session
    requires s.pools != []
  {
    var p := s.pools[|s.pools| - 1];
    Session(s.calls + [who], s.ready + [newId], s.got + [Interned(p, who, digest, newId)],
            s.pools + [AfterIntern(p, who, digest, newId)])
  }

  lemma {:induction false} RanExtended(s: Session, who: Identity, digest: Digest, newId: NodeId)
    requires Ran(s, digest) && WellNamed(who.protocols)
    requires !Hit(s.pools[|s.calls|], who, digest) ==> newId !in s.pools[|s.calls|].made
    ensures Ran(Extended(s, who, digest, newId), digest)
  {
    hide WellNamed, Hit, Interned, AfterIntern;
    var t := Extended(s, who, digest, newId);
    forall k | 0 <= k < |t.calls| ensures Stepped(t, digest, k) {
      assert k < |s.calls| ==> Stepped(s, digest, k);
    }
  }

  /** The last of the first k calls with this key. */
  function Latest(calls: seq<Identity>, digest: Digest, key: Key, k: nat): (r: Option<nat>)
    requires k <= |calls|
    ensures r.Some? ==> r.value < k && KeyOf(calls[r.value], digest) == key
    ensures r.Some? ==> forall i :: r.value < i < k ==> KeyOf(calls[i], digest) != key
    ensures r.None? ==> forall i :: 0 <= i < k ==> KeyOf(calls[i], digest) != key
  {
    if k == 0 then None
    else if KeyOf(calls[k - 1], digest) == key then Some(k - 1)
    else Latest(calls, digest, key, k - 1)
  }

  /** Whether call k is one that makes a credential: the last call with its key, if any, asked for another account. */
  predicate Opens(calls: seq<Identity>, digest: Digest, k: nat)
    requires k < |calls|
  {
    var l := Latest(calls, digest, KeyOf(calls[k], digest), k);
    l.None? || calls[l.value] != calls[k]
  }

  lemma {:induction false} LatestPrefix(calls: seq<Identity>, who: Identity, digest: Digest, key: Key, k: nat)
    requires k <= |calls|
    ensures Latest(calls + [who], digest, key, k) == Latest(calls, digest, key, k)
  {
    if k > 0 {
      LatestPrefix(calls, who, digest, key, k - 1);
    }
  }

  lemma {:induction false} OpensPrefix(calls: seq<Identity>, who: Identity, digest: Digest, j: nat)
    requires j < |calls|
    ensures Opens(calls + [who], digest, j) == Opens(calls, digest, j)
  {
    hide Latest;
    LatestPrefix(calls, who, digest, KeyOf(calls[j], digest), j);
  }

  /** The index points at credentials with that key, each the answer to the last call with it. */
  ghost predicate Indexes(p: Pool, calls: seq<Identity>, got: seq<NodeId>, digest: Digest, k: nat)
    requires k <= |calls| == |got|
  {
    && (forall key :: key in p.index <==> Latest(calls, digest, key, k).Some?)
    && (forall key :: key in p.index ==> p.index[key] == got[Latest(calls, digest, key, k).value])
  }

  /** Every call got a credential that is its own account, and every credential was made for a call. */
  ghost predicate Answers(p: Pool, calls: seq<Identity>, got: seq<NodeId>, digest: Digest, k: nat)
    requires k <= |calls| == |got|
  {
    && (forall i :: 0 <= i < k ==> got[i] in p.made && p.made[got[i]] == calls[i])
    && (forall id :: id in p.made ==> exists i :: 0 <= i < k && got[i] == id && Opens(calls, digest, i))
    && (forall i, j :: 0 <= i < j < k && Opens(calls, digest, j) ==> got[i] != got[j])
  }

  lemma {:induction false} KeyDetermines(a: Identity, b: Identity, digest: Digest)
    requires WellNamed(a.protocols) && WellNamed(b.protocols) && KeyOf(a, digest) == KeyOf(b, digest) && a.secret == b.secret
    ensures a == b
  {
    JoinIsInjective(a.protocols, b.protocols);
  }

  /** A call hits exactly when the last call with its key asked for the same account. */
  lemma {:induction false} HitExact(s: Session, digest: Digest, k: nat)
    requires Ran(s, digest) && k < |s.calls|
    requires Indexes(s.pools[k], s.calls, s.got, digest, k) && Answers(s.pools[k], s.calls, s.got, digest, k)
    ensures Hit(s.pools[k], s.calls[k], digest) <==> !Opens(s.calls, digest, k)
  {
    hide WellNamed, Latest, Interned, AfterIntern;
    var p, who := s.pools[k], s.calls[k];
    var l := Latest(s.calls, digest, KeyOf(who, digest), k);
    assert KeyOf(who, digest) in p.index <==> l.Some?;
    if l.Some? {
      assert Stepped(s, digest, l.value) && Stepped(s, digest, k);
      if s.calls[l.value].secret == who.secret {
        KeyDetermines(s.calls[l.value], who, digest);
      }
    }
  }

  lemma {:induction false} StepIndexes(s: Session, digest: Digest, k: nat)
    requires Ran(s, digest) && k < |s.calls| && Indexes(s.pools[k], s.calls, s.got, digest, k)
    ensures Indexes(s.pools[k + 1], s.calls, s.got, digest, k + 1)
  {
    hide WellNamed, KeyOf;
    assert Stepped(s, digest, k);
    var p, q := s.pools[k], s.pools[k + 1];
    forall key
      ensures key in q.index <==> Latest(s.calls, digest, key, k + 1).Some?
      ensures key in q.index ==> q.index[key] == s.got[Latest(s.calls, digest, key, k + 1).value]
    {
      assert key in p.index <==> Latest(s.calls, digest, key, k).Some?;
    }
  }

  lemma {:induction false} StepAnswers(s: Session, digest: Digest, k: nat)
    requires Ran(s, digest) && k < |s.calls|
    requires Answers(s.pools[k], s.calls, s.got, digest, k)
    requires Hit(s.pools[k], s.calls[k], digest) <==> !Opens(s.calls, digest, k)
    requires Hit(s.pools[k], s.calls[k], digest) ==> s.got[k] in s.pools[k].made && s.pools[k].made[s.got[k]] == s.calls[k]
    ensures Answers(s.pools[k + 1], s.calls, s.got, digest, k + 1)
  {
    hide WellNamed, KeyOf, Opens, Latest, Ran, WellAsked;
    RanSteps(s, digest, k);
    var p, q, id := s.pools[k], s.pools[k + 1], s.got[k];
    if !Hit(p, s.calls[k], digest) {
      assert q.made == p.made[id := s.calls[k]] && id !in p.made;
      assert forall i :: 0 <= i < k ==> s.got[i] != id;
      forall x | x in q.made ensures exists i :: 0 <= i < k + 1 && s.got[i] == x && Opens(s.calls, digest, i) {
        if x == id {
          assert 0 <= k < k + 1 && s.got[k] == x && Opens(s.calls, digest, k);
        } else {
          var i :| 0 <= i < k && s.got[i] == x && Opens(s.calls, digest, i);
        }
      }
    }
  }

  lemma {:induction false} Remembers(s: Session, digest: Digest, k: nat)
    requires Ran(s, digest) && k <= |s.calls|
    ensures Indexes(s.pools[k], s.calls, s.got, digest, k) && Answers(s.pools[k], s.calls, s.got, digest, k)
    decreases k
  {
    hide WellNamed, KeyOf, Opens, Indexes, Answers, Latest;
    if k == 0 {
      RemembersNothing(s, digest);
    } else {
      Remembers(s, digest, k - 1);
      HitExact(s, digest, k - 1);
      if Hit(s.pools[k - 1], s.calls[k - 1], digest) {
        HitIsAnswer(s, digest, k - 1);
      }
      StepIndexes(s, digest, k - 1);
      StepAnswers(s, digest, k - 1);
    }
  }

  lemma RemembersNothing(s: Session, digest: Digest)
    requires Ran(s, digest)
    ensures Indexes(s.pools[0], s.calls, s.got, digest, 0) && Answers(s.pools[0], s.calls, s.got, digest, 0)
  {
    hide KeyOf, Hit, Interned, AfterIntern, WellNamed;
  }

  lemma {:induction false} HitIsAnswer(s: Session, digest: Digest, k: nat)
    requires Ran(s, digest) && k < |s.calls|
    requires Indexes(s.pools[k], s.calls, s.got, digest, k) && Answers(s.pools[k], s.calls, s.got, digest, k)
    requires Hit(s.pools[k], s.calls[k], digest) && !Opens(s.calls, digest, k)
    ensures s.got[k] in s.pools[k].made && s.pools[k].made[s.got[k]] == s.calls[k]
  {
    hide WellNamed, KeyOf;
    assert Stepped(s, digest, k);
  }

  /** The last call of a session: it opened exactly if it missed, and its answer holds its account. */
  lemma {:induction false} LastAnswer(s: Session, digest: Digest)
    requires Ran(s, digest) && s.calls != []
    ensures var last := |s.calls| - 1;
            && (Hit(s.pools[last], s.calls[last], digest) <==> !Opens(s.calls, digest, last))
            && s.got[last] in s.pools[last + 1].made && s.pools[last + 1].made[s.got[last]] == s.calls[last]
  {
    hide Hit, Opens, Indexes;
    Remembers(s, digest, |s.calls| - 1);
    HitExact(s, digest, |s.calls| - 1);
    Remembers(s, digest, |s.calls|);
  }

  /** Whether the next call would find a credential, told from the calls alone. */
  lemma {:induction false} HitForetold(s: Session, who: Identity, digest: Digest)
    requires Ran(s, digest) && WellNamed(who.protocols)
    ensures |s.pools| == |s.calls| + 1
    ensures Hit(s.pools[|s.calls|], who, digest) <==> !Opens(s.calls + [who], digest, |s.calls|)
  {
    hide WellNamed, Latest, Interned, AfterIntern, KeyOf;
    var k, key := |s.calls|, KeyOf(who, digest);
    Remembers(s, digest, k);
    LatestPrefix(s.calls, who, digest, key, k);
    var l := Latest(s.calls, digest, key, k);
    assert key in s.pools[k].index <==> l.Some?;
    if l.Some? {
      RanSteps(s, digest, l.value);
      if s.calls[l.value].secret == who.secret {
        KeyDetermines(s.calls[l.value], who, digest);
      }
      KeyHolds(s.calls[l.value], who, digest);
    }
  }

  lemma KeyHolds(a: Identity, b: Identity, digest: Digest)
    requires KeyOf(a, digest) == KeyOf(b, digest)
    ensures a.username == b.username && a.domain == b.domain
  {
  }

  /** How many of the first k calls make a credential. */
  function Openings(calls: seq<Identity>, digest: Digest, k: nat): nat
    requires k <= |calls|
  {
    if k == 0 then 0 else Openings(calls, digest, k - 1) + if Opens(calls, digest, k - 1) then 1 else 0
  }

  lemma {:induction false} OpeningsPrefix(calls: seq<Identity>, who: Identity, digest: Digest, k: nat)
    requires k <= |calls|
    ensures Openings(calls + [who], digest, k) == Openings(calls, digest, k)
  {
    hide Opens;
    if k > 0 {
      OpeningsPrefix(calls, who, digest, k - 1);
      OpensPrefix(calls, who, digest, k - 1);
    }
  }

  /** Interning is sound for any digest, collisions included: one id, one identity. */
  lemma {:induction false} SameIdSameIdentity(s: Session, digest: Digest, i: nat, j: nat)
    requires Ran(s, digest) && i < |s.calls| && j < |s.calls| && s.got[i] == s.got[j]
    ensures s.calls[i] == s.calls[j]
  {
    Remembers(s, digest, |s.calls|);
  }

  /** No two different secrets among the calls share a digest. */
  ghost predicate CollisionFree(calls: seq<Identity>, digest: Digest) {
    forall i, j :: 0 <= i < |calls| && 0 <= j < |calls| && digest(calls[i].secret) == digest(calls[j].secret)
                   ==> calls[i].secret == calls[j].secret
  }

  ghost predicate WellAsked(calls: seq<Identity>) {
    forall i :: 0 <= i < |calls| ==> WellNamed(calls[i].protocols)
  }

  /** Among the first k calls, those that share a key share their secret. */
  ghost predicate KeysAgree(calls: seq<Identity>, digest: Digest, k: nat)
    requires k <= |calls|
  {
    forall i, j :: 0 <= i < j < k && KeyOf(calls[i], digest) == KeyOf(calls[j], digest) ==> calls[i].secret == calls[j].secret
  }

  /** Every call between the two with the same key has the same secret. */
  ghost predicate Undisturbed(calls: seq<Identity>, digest: Digest, i: nat, j: nat)
    requires i < j < |calls|
  {
    forall l :: i < l < j && KeyOf(calls[l], digest) == KeyOf(calls[i], digest) ==> calls[l].secret == calls[i].secret
  }

  lemma CollisionFreeAgrees(calls: seq<Identity>, digest: Digest)
    requires CollisionFree(calls, digest)
    ensures KeysAgree(calls, digest, |calls|)
  {
    hide Join;
  }

  /** While keys agree, the calls that make a credential are the first for each account. */
  lemma {:induction false} FirstsOpen(calls: seq<Identity>, digest: Digest, k: nat)
    requires WellAsked(calls) && k < |calls| && KeysAgree(calls, digest, k + 1)
    ensures Opens(calls, digest, k) <==> calls[k] !in calls[..k]
  {
    hide WellNamed, Latest, KeyOf;
    var l := Latest(calls, digest, KeyOf(calls[k], digest), k);
    if l.Some? {
      KeyDetermines(calls[l.value], calls[k], digest);
      assert calls[..k][l.value] == calls[k];
    }
  }

  lemma RanSteps(s: Session, digest: Digest, k: nat)
    requires Ran(s, digest) && k < |s.calls|
    ensures |s.pools| == |s.calls| + 1 && |s.got| == |s.ready| == |s.calls| && Stepped(s, digest, k)
    ensures WellAsked(s.calls)
  {
    hide WellNamed;
    forall i | 0 <= i < |s.calls| ensures WellNamed(s.calls[i].protocols) {
      assert Stepped(s, digest, i);
    }
  }

  lemma BothGrow(p: Pool, key: Key, id: NodeId, who: Identity)
    requires key !in p.index && id !in p.made
    ensures |p.index[key := id]| == |p.index| + 1 && |p.made[id := who]| == |p.made| + 1
  {
    assert p.index[key := id].Keys == p.index.Keys + {key};
    assert p.made[id := who].Keys == p.made.Keys + {id};
  }

  /** A call that finds an entry of another account under its key leaves the index behind the credentials. */
  lemma {:induction false} MissGrows(s: Session, digest: Digest, k: nat)
    requires Ran(s, digest) && k < |s.calls| && !Hit(s.pools[k], s.calls[k], digest)
    ensures var p, q, key := s.pools[k], s.pools[k + 1], KeyOf(s.calls[k], digest);
            |q.made| == |p.made| + 1 && |q.index| == |p.index| + if key in p.index then 0 else 1
  {
    hide Ran, WellAsked, WellNamed, KeyOf, Hit;
    RanSteps(s, digest, k);
    var p, key := s.pools[k], KeyOf(s.calls[k], digest);
    if key in p.index {
      assert p.index[key := s.ready[k]].Keys == p.index.Keys;
      assert |p.index[key := s.ready[k]].Keys| == |p.index.Keys|;
      assert p.made[s.ready[k] := s.calls[k]].Keys == p.made.Keys + {s.ready[k]};
    } else {
      BothGrow(p, key, s.ready[k], s.calls[k]);
    }
  }

  /** The keys agree one call further exactly when the last call with the new one's key has its secret. */
  lemma {:induction false} KeysAgreeStep(calls: seq<Identity>, digest: Digest, k: nat)
    requires k < |calls|
    ensures var l := Latest(calls, digest, KeyOf(calls[k], digest), k);
            KeysAgree(calls, digest, k + 1) <==> KeysAgree(calls, digest, k) && (l.Some? ==> calls[l.value].secret == calls[k].secret)
  {
    hide KeyOf, Latest;
    var l := Latest(calls, digest, KeyOf(calls[k], digest), k);
    if KeysAgree(calls, digest, k) && (l.Some? ==> calls[l.value].secret == calls[k].secret) {
      forall i | 0 <= i < k && KeyOf(calls[i], digest) == KeyOf(calls[k], digest) ensures calls[i].secret == calls[k].secret {
        assert i <= l.value;
      }
    }
  }

  /**
   The report never counts more credentials than were made, and counts them all exactly when
   calls with the same key asked with the same secret.
   */
  lemma {:induction false} CountExact(s: Session, digest: Digest, k: nat)
    requires Ran(s, digest) && k <= |s.calls|
    ensures |s.pools[k].index| <= |s.pools[k].made|
    ensures |s.pools[k].index| == |s.pools[k].made| <==> KeysAgree(s.calls, digest, k)
    decreases k
  {
    hide WellNamed, KeyOf, Latest, Hit, KeysAgree, Interned, AfterIntern;
    if k == 0 {
      NoKeys(s.calls, digest);
    } else {
      var j := k - 1;
      CountExact(s, digest, j);
      Remembers(s, digest, j);
      HitExact(s, digest, j);
      KeysAgreeStep(s.calls, digest, j);
      var l := Latest(s.calls, digest, KeyOf(s.calls[j], digest), j);
      if Hit(s.pools[j], s.calls[j], digest) {
        HitKeeps(s, digest, j);
      } else {
        MissGrows(s, digest, j);
        if l.Some? {
          DifferentSecret(s, digest, l.value, j);
        }
      }
    }
  }

  lemma NoKeys(calls: seq<Identity>, digest: Digest)
    ensures KeysAgree(calls, digest, 0)
  {
  }

  lemma HitKeeps(s: Session, digest: Digest, k: nat)
    requires Ran(s, digest) && k < |s.calls| && Hit(s.pools[k], s.calls[k], digest)
    ensures s.pools[k + 1] == s.pools[k]
  {
    hide Ran, WellAsked, Hit;
    RanSteps(s, digest, k);
  }

  /** Two accounts under one key differ in their secret. */
  lemma {:induction false} DifferentSecret(s: Session, digest: Digest, i: nat, j: nat)
    requires Ran(s, digest) && i < |s.calls| && j < |s.calls|
    requires KeyOf(s.calls[i], digest) == KeyOf(s.calls[j], digest) && s.calls[i] != s.calls[j]
    ensures s.calls[i].secret != s.calls[j].secret
  {
    hide Ran, KeyOf, WellNamed;
    RanSteps(s, digest, i);
    if s.calls[i].secret == s.calls[j].secret {
      KeyDetermines(s.calls[i], s.calls[j], digest);
    }
  }

  lemma {:induction false} HitRepeats(s: Session, digest: Digest, k: nat)
    requires Ran(s, digest) && k < |s.calls| && !Opens(s.calls, digest, k)
    ensures var l := Latest(s.calls, digest, KeyOf(s.calls[k], digest), k);
            l.Some? && s.calls[l.value] == s.calls[k] && s.got[k] == s.got[l.value]
  {
    hide WellNamed, KeyOf, Latest, AfterIntern;
    Remembers(s, digest, k);
    HitExact(s, digest, k);
    assert Stepped(s, digest, k);
  }

  /** Two calls for one account get one id exactly when no call between them took over their key. */
  lemma {:induction false} SameIdExact(s: Session, digest: Digest, i: nat, j: nat)
    requires Ran(s, digest) && i < j < |s.calls| && s.calls[i] == s.calls[j]
    ensures s.got[i] == s.got[j] <==> Undisturbed(s.calls, digest, i, j)
    decreases j
  {
    hide Ran, WellNamed, KeyOf, Latest, Answers, Indexes, Opens;
    SessionSizes(s, digest);
    var q := Latest(s.calls, digest, KeyOf(s.calls[j], digest), j).value;
    assert i <= q;
    OpensMeans(s.calls, digest, j);
    if s.calls[q] == s.calls[j] {
      HitRepeats(s, digest, j);
      if i < q {
        SameIdExact(s, digest, i, q);
      }
    } else {
      DifferentSecret(s, digest, q, j);
      OpenIsNew(s, digest, i, j);
    }
  }

  lemma SessionSizes(s: Session, digest: Digest)
    requires Ran(s, digest)
    ensures |s.pools| == |s.calls| + 1 && |s.got| == |s.ready| == |s.calls|
  {
  }

  lemma OpensMeans(calls: seq<Identity>, digest: Digest, k: nat)
    requires k < |calls|
    ensures var l := Latest(calls, digest, KeyOf(calls[k], digest), k);
            Opens(calls, digest, k) <==> l.None? || calls[l.value] != calls[k]
  {
    hide Latest, KeyOf;
  }

  lemma {:induction false} OpenIsNew(s: Session, digest: Digest, i: nat, j: nat)
    requires Ran(s, digest) && i < j < |s.calls| && Opens(s.calls, digest, j)
    ensures s.got[i] != s.got[j]
  {
    hide Opens, Indexes;
    Remembers(s, digest, |s.calls|);
  }

  /** As long as keys agree, collision-free digests included, equal accounts share an id and the report is right. */
  lemma {:induction false} SameIdentitySameId(s: Session, digest: Digest)
    requires Ran(s, digest) && KeysAgree(s.calls, digest, |s.calls|)
    ensures forall i, j :: 0 <= i < |s.calls| && 0 <= j < |s.calls| && s.calls[i] == s.calls[j] ==> s.got[i] == s.got[j]
    ensures |s.pools[|s.calls|].index| == |s.pools[|s.calls|].made|
  {
    hide Ran, KeyOf;
    SessionSizes(s, digest);
    CountExact(s, digest, |s.calls|);
    forall i, j | 0 <= i < j < |s.calls| && s.calls[i] == s.calls[j] ensures s.got[i] == s.got[j] {
      SameIdExact(s, digest, i, j);
    }
  }

  /** With a colliding digest two secrets used in turn are made anew each time, and the report counts one. */
  lemma {:induction false} CollisionsMiscount(username: string, s: Session)
    requires var a, b := Identity(username, None, Plaintext("a"), []), Identity(username, None, Plaintext("b"), []);
             Ran(s, _ => 0) && s.calls == [a, b, a]
    ensures |s.pools[3].index| == 1 && |s.pools[3].made| == 3
  {
    hide WellNamed;
    var digest: Digest := _ => 0;
    var a, b := s.calls[0], s.calls[1];
    assert a.secret != b.secret;
    var key := KeyOf(a, digest);
    assert Stepped(s, digest, 0);
    assert s.pools[1] == Pool(map[key := s.got[0]], map[s.got[0] := a]);
    assert Stepped(s, digest, 1);
    assert s.pools[2] == Pool(map[key := s.got[1]], map[s.got[0] := a, s.got[1] := b]);
    assert Stepped(s, digest, 2);
    assert s.pools[3] == Pool(map[key := s.got[2]], map[s.got[0] := a, s.got[1] := b, s.got[2] := a]);
    assert s.pools[3].made.Keys == {s.got[0], s.got[1], s.got[2]};
    assert s.pools[3].index.Keys == {key};
  }
}
