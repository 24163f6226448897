/** Creating the folders of `/`-separated paths once each (crates/remoter-import/src/csv.rs:337-387). */
module CsvFolders {
  import opened Base
  import opened Inheritance
  import opened Nodes
  import opened Text
  import opened Validation
  import opened Mapping
  import opened Previews
  import opened CsvText
  import opened CsvRows

  // A path and the key it is remembered under.

  function PrefixOf(path: seq<string>): string {
    if path == [] then "" else PrefixOf(path[..|path| - 1]) + "/" + path[|path| - 1]
  }

  lemma {:induction false} LastSlash(a: string, u: string, b: string, v: string)
    requires a + "/" + u == b + "/" + v && '/' !in u && '/' !in v
    ensures a == b && u == v
  {
    var s, t := a + "/" + u, b + "/" + v;
    assert s[|a|] == '/' && t[|b|] == '/';
    assert u == s[|a| + 1..] && v == t[|b| + 1..];
    assert a == s[..|a|] && b == t[..|b|] && u == s[|a| + 1..] && v == t[|b| + 1..];
  }

  /** No segment holds a slash, so the key remembers the whole path. */
  lemma {:induction false} PrefixInjective(a: seq<string>, b: seq<string>)
    requires CleanPath(a) && CleanPath(b) && PrefixOf(a) == PrefixOf(b)
    ensures a == b
    decreases |a|
  {
    hide ValidateName;
    if a != [] && b != [] {
      var x, y := a[..|a| - 1], b[..|b| - 1];
      LastSlash(PrefixOf(x), a[|a| - 1], PrefixOf(y), b[|b| - 1]);
      PrefixInjective(x, y);
      assert a == x + [a[|a| - 1]] && b == y + [b[|b| - 1]];
    }
  }

  /** The keys of a path and of every folder on the way. */
  function PrefixKeys(path: seq<string>): set<string> {
    set n | 0 < n <= |path| :: PrefixOf(path[..n])
  }

  /** How many folders of a path are not there yet. */
  function MissingKeys(path: seq<string>, keys: set<string>): nat {
    |PrefixKeys(path) - keys|
  }

  lemma {:induction false} PrefixKeysSnoc(path: seq<string>, name: string)
    ensures PrefixKeys(path + [name]) == PrefixKeys(path) + {PrefixOf(path + [name])}
  {
    hide PrefixOf;
    var full := path + [name];
    assert forall n :: 0 < n <= |path| ==> full[..n] == path[..n];
    assert full[..|full|] == full;
    forall key | key in PrefixKeys(path) ensures key in PrefixKeys(full) {
      var n :| 0 < n <= |path| && PrefixOf(path[..n]) == key;
      assert PrefixOf(full[..n]) == key;
    }
    forall key | key in PrefixKeys(full) ensures key in PrefixKeys(path) + {PrefixOf(full)} {
      var n :| 0 < n <= |full| && PrefixOf(full[..n]) == key;
      assert n <= |path| ==> PrefixOf(path[..n]) == key;
    }
    assert PrefixOf(full[..|full|]) in PrefixKeys(full);
  }

  lemma {:induction false} PrefixKeysWithin(part: seq<string>, full: seq<string>)
    requires part <= full
    ensures PrefixKeys(part) <= PrefixKeys(full)
  {
    hide PrefixOf;
    forall key | key in PrefixKeys(part) ensures key in PrefixKeys(full) {
      var n :| 0 < n <= |part| && PrefixOf(part[..n]) == key;
      assert full[..n] == part[..n];
    }
  }

  /** The keys of the segments in `done` are there, and every key that was not there before has its node. */
  ghost predicate Counting(was: set<string>, keys: set<string>, done: seq<string>, before: nat, now: nat) {
    keys == was + PrefixKeys(done) && now + |was| == before + |keys|
  }

  lemma CountingStarts(keys: set<string>, count: nat)
    ensures Counting(keys, keys, [], count, count)
  {
    assert PrefixKeys([]) == {};
  }

  lemma CountingExisting(was: set<string>, keys: set<string>, done: seq<string>, name: string, before: nat, now: nat)
    requires Counting(was, keys, done, before, now) && PrefixOf(done + [name]) in keys
    ensures Counting(was, keys, done + [name], before, now)
  {
    hide PrefixOf, PrefixKeys;
    PrefixKeysSnoc(done, name);
  }

  /** A key that is not there yet takes one node, and one that the whole path has to have. */
  lemma CountingCreated(was: set<string>, keys: set<string>, done: seq<string>, name: string, full: seq<string>, before: nat, now: nat)
    requires Counting(was, keys, done, before, now) && PrefixOf(done + [name]) !in keys && done + [name] <= full
    ensures Counting(was, keys + {PrefixOf(done + [name])}, done + [name], before, now + 1)
    ensures now < before + MissingKeys(full, was)
  {
    hide PrefixOf, PrefixKeys;
    PrefixKeysSnoc(done, name);
    PrefixKeysWithin(done + [name], full);
    OneMoreKey(was, keys, PrefixOf(done + [name]), PrefixKeys(full));
  }

  lemma KeysWith(byPath: map<string, NodeId>, key: string, id: NodeId)
    ensures byPath[key := id].Keys == byPath.Keys + {key}
  {
  }

  lemma OneMoreKey(was: set<string>, now: set<string>, key: string, keys: set<string>)
    requires key !in now && now + {key} <= was + keys
    ensures |now + {key}| == |now| + 1 && |now| < |was| + |keys - was|
  {
    var needed := was + (keys - was);
    assert |needed| == |was| + |keys - was|;
    assert now + {key} <= needed;
    SubsetIsNoLarger(now + {key}, needed);
  }

  lemma CountingDone(was: set<string>, keys: set<string>, full: seq<string>, before: nat, now: nat)
    requires Counting(was, keys, full, before, now)
    ensures keys == was + PrefixKeys(full) && now == before + MissingKeys(full, was)
  {
    hide PrefixKeys;
    assert keys == was + (PrefixKeys(full) - was);
  }

  // A path and the node it leads to.

  /** Going up from the node passes folders with these names, last first, and ends at the top. */
  ghost predicate Leads(m: Catalogue, path: seq<string>, at: Option<NodeId>)
    decreases |path|
  {
    if path == [] then at.None?
    else
      && at.Some? && at.value in m && m[at.value].kind.PreviewFolder?
      && m[at.value].name == path[|path| - 1]
      && Leads(m, path[..|path| - 1], m[at.value].parentId)
  }

  /** A catalogue that has grown, and in which no folder has changed. */
  ghost predicate Grown(m: Catalogue, n: Catalogue) {
    forall id :: id in m ==> id in n && (m[id].kind.PreviewFolder? ==> n[id] == m[id])
  }

  lemma {:induction false} LeadsStill(m: Catalogue, n: Catalogue, path: seq<string>, at: Option<NodeId>)
    requires Grown(m, n) && Leads(m, path, at)
    ensures Leads(n, path, at)
    decreases |path|
  {
    if path != [] {
      LeadsStill(m, n, path[..|path| - 1], m[at.value].parentId);
    }
  }

  /** A node is at the end of one path. */
  lemma {:induction false} LeadsUnique(m: Catalogue, a: seq<string>, b: seq<string>, at: Option<NodeId>)
    requires Leads(m, a, at) && Leads(m, b, at)
    ensures a == b
    decreases |a|
  {
    if a != [] && b != [] {
      LeadsUnique(m, a[..|a| - 1], b[..|b| - 1], m[at.value].parentId);
      assert a == a[..|a| - 1] + [a[|a| - 1]] && b == b[..|b| - 1] + [b[|b| - 1]];
    }
  }

  /** Every key leads to the node it is the key of. */
  ghost predicate KeysLead(byPath: map<string, NodeId>, m: Catalogue) {
    forall path :: CleanPath(path) && PrefixOf(path) in byPath ==> path != [] && Leads(m, path, Some(byPath[PrefixOf(path)]))
  }

  lemma {:induction false} KeysStillLead(byPath: map<string, NodeId>, m: Catalogue, n: Catalogue)
    requires KeysLead(byPath, m) && Grown(m, n)
    ensures KeysLead(byPath, n)
  {
    hide PrefixOf, CleanPath, Grown;
    forall path | CleanPath(path) && PrefixOf(path) in byPath
      ensures path != [] && Leads(n, path, Some(byPath[PrefixOf(path)]))
    {
      LeadsStill(m, n, path, Some(byPath[PrefixOf(path)]));
    }
  }

  /** A folder as the path creates it. */
  predicate PlainFolder(p: PreviewNode) {
    ValidateName(p.name).None? && p == Plainly(p.id, p.name, PreviewFolder(PLAIN), p.parentId, p.sortOrder)
  }

  lemma NewFolderIsPlain(id: NodeId, name: string, parent: Option<NodeId>, sortOrder: int)
    requires ValidateName(name).None?
    ensures var p := Plainly(id, name, PreviewFolder(PLAIN), parent, sortOrder);
            PlainFolder(p) && p.id == id && p.name == name && p.parentId == parent
  {
    hide ValidateName;
  }

  /** What was added is plain folders, each remembered as a step of the path. */
  ghost predicate OnlySteps(m: Catalogue, n: Catalogue, path: seq<string>, byPath: map<string, NodeId>) {
    forall id :: id in n && id !in m ==>
      PlainFolder(n[id]) && exists k :: 0 < k <= |path| && PrefixOf(path[..k]) in byPath && byPath[PrefixOf(path[..k])] == id
  }

  ghost predicate Extends(a: map<string, NodeId>, b: map<string, NodeId>) {
    forall key :: key in a ==> key in b && b[key] == a[key]
  }

  ghost predicate Same(m: Catalogue, n: Catalogue) {
    forall id :: id in m ==> id in n && n[id] == m[id]
  }

  /** Where the walk along a path is after the segments in `done`. */
  ghost predicate Along(before: Catalogue, m: Catalogue, was: map<string, NodeId>, byPath: map<string, NodeId>, done: seq<string>, parent: Option<NodeId>) {
    && CleanPath(done) && Same(before, m) && Extends(was, byPath) && KeysLead(byPath, m)
    && Leads(m, done, parent) && OnlySteps(before, m, done, byPath)
  }

  lemma {:induction false} StartAlong(m: Catalogue, byPath: map<string, NodeId>)
    requires KeysLead(byPath, m)
    ensures Along(m, m, byPath, byPath, [], None)
  {
    hide KeysLead;
  }

  lemma CleanSnoc(done: seq<string>, name: string)
    requires CleanPath(done) && ValidateName(name).None? && '/' !in name
    ensures CleanPath(done + [name]) && PrefixOf(done + [name]) == PrefixOf(done) + "/" + name
  {
    hide ValidateName;
    assert (done + [name])[..|done|] == done;
  }

  lemma {:induction false} StepsLonger(before: Catalogue, m: Catalogue, byPath: map<string, NodeId>, done: seq<string>, name: string)
    requires OnlySteps(before, m, done, byPath)
    ensures OnlySteps(before, m, done + [name], byPath)
  {
    hide PrefixOf, PlainFolder;
    forall id | id in m && id !in before
      ensures exists k :: 0 < k <= |done + [name]| && PrefixOf((done + [name])[..k]) in byPath && byPath[PrefixOf((done + [name])[..k])] == id
    {
      var k :| 0 < k <= |done| && PrefixOf(done[..k]) in byPath && byPath[PrefixOf(done[..k])] == id;
      assert (done + [name])[..k] == done[..k];
    }
  }

  /** The next segment is a folder that is already there. */
  lemma {:induction false} AlongExisting(before: Catalogue, m: Catalogue, was: map<string, NodeId>, byPath: map<string, NodeId>, done: seq<string>, parent: Option<NodeId>, name: string)
    requires Along(before, m, was, byPath, done, parent) && ValidateName(name).None? && '/' !in name
    requires PrefixOf(done + [name]) in byPath
    ensures Along(before, m, was, byPath, done + [name], Some(byPath[PrefixOf(done + [name])]))
  {
    hide ValidateName, OnlySteps, Same, Extends, PrefixOf;
    CleanSnoc(done, name);
    StepsLonger(before, m, byPath, done, name);
  }

  lemma SameIsGrown(m: Catalogue, n: Catalogue)
    requires Same(m, n)
    ensures Grown(m, n)
  {
  }

  /** The next segment is a folder created now. */
  lemma {:induction false} AlongCreated(before: Catalogue, m: Catalogue, was: map<string, NodeId>, byPath: map<string, NodeId>, done: seq<string>, parent: Option<NodeId>, p: PreviewNode)
    requires Along(before, m, was, byPath, done, parent) && PlainFolder(p) && '/' !in p.name && p.id !in m && p.parentId == parent
    requires PrefixOf(done + [p.name]) !in byPath
    ensures Along(before, m[p.id := p], was, byPath[PrefixOf(done + [p.name]) := p.id], done + [p.name], Some(p.id))
  {
    hide ValidateName, OnlySteps, KeysLead;
    var n, full := m[p.id := p], done + [p.name];
    CleanSnoc(done, p.name);
    SameIsGrown(m, n);
    LeadsStill(m, n, done, parent);
    assert full[..|done|] == done;
    KeysLeadToo(byPath, m, full, p);
    StepsLonger(before, m, byPath, done, p.name);
    StepsMore(before, m, byPath, full, p);
  }

  lemma {:induction false} KeysLeadToo(byPath: map<string, NodeId>, m: Catalogue, full: seq<string>, p: PreviewNode)
    requires KeysLead(byPath, m) && p.id !in m && CleanPath(full) && full != []
    requires Leads(m[p.id := p], full, Some(p.id))
    ensures KeysLead(byPath[PrefixOf(full) := p.id], m[p.id := p])
  {
    hide PrefixOf, CleanPath, Leads;
    KeysStillLead(byPath, m, m[p.id := p]);
    forall path | CleanPath(path) && PrefixOf(path) == PrefixOf(full) ensures path == full {
      PrefixInjective(path, full);
    }
  }

  lemma {:induction false} StepsMore(before: Catalogue, m: Catalogue, byPath: map<string, NodeId>, full: seq<string>, p: PreviewNode)
    requires OnlySteps(before, m, full, byPath) && PlainFolder(p) && full != [] && PrefixOf(full) !in byPath
    ensures OnlySteps(before, m[p.id := p], full, byPath[PrefixOf(full) := p.id])
  {
    hide PrefixOf, PlainFolder;
    var more, n := byPath[PrefixOf(full) := p.id], m[p.id := p];
    assert full[..|full|] == full;
    forall id | id in n && id !in before
      ensures PlainFolder(n[id]) && exists k :: 0 < k <= |full| && PrefixOf(full[..k]) in more && more[PrefixOf(full[..k])] == id
    {
      if id == p.id {
        assert PrefixOf(full[..|full|]) in more && more[PrefixOf(full[..|full|])] == id;
      } else {
        var k :| 0 < k <= |full| && PrefixOf(full[..k]) in byPath && byPath[PrefixOf(full[..k])] == id;
        assert PrefixOf(full[..k]) in more && more[PrefixOf(full[..k])] == id;
      }
    }
  }

  class Folders {
    var byPath: map<string, NodeId>
    var nextSort: nat

    constructor ()
      ensures byPath == map[]
    {
      byPath, nextSort := map[], 0;
    }

    /** One level of a path: the folder that is there, or a new one. */
    method Enter(b: PreviewBuilder, prefix: string, name: string, parent: Option<NodeId>, ghost before: Catalogue, ghost was: map<string, NodeId>,
                 ghost done: seq<string>, ghost full: seq<string>, ghost count: nat)
      returns (r: Result<NodeId, ImportError>)
      requires b.Valid() && ValidateName(name).None? && '/' !in name && prefix == PrefixOf(done + [name]) && done + [name] <= full
      requires Along(before, ById(b.nodes), was, byPath, done, parent) && Counting(was.Keys, byPath.Keys, done, count, |b.nodes|)
      requires parent.Some? ==> parent.value in ById(b.nodes)
      modifies this, b
      ensures b.Valid()
      ensures r.Ok? ==>
                && Along(before, ById(b.nodes), was, byPath, done + [name], Some(r.value)) && r.value in ById(b.nodes)
                && Counting(was.Keys, byPath.Keys, done + [name], count, |b.nodes|)
      ensures r.Err? ==> r == Err(TooManyNodes) && b.maxNodes < count + MissingKeys(full, was.Keys)
    {
      hide Along, ById, WellListed, Accounts, ValidateName, PrefixOf, PrefixKeys, MissingKeys, Counting, Plainly, PlainFolder;
      if prefix in byPath {
        CountingExisting(was.Keys, byPath.Keys, done, name, count, |b.nodes|);
        AlongExisting(before, ById(b.nodes), was, byPath, done, parent, name);
        AlongEnds(before, ById(b.nodes), was, byPath, done + [name], Some(byPath[prefix]));
        return Ok(byPath[prefix]);
      }
      r := Create(b, prefix, name, parent, before, was, done, full, count);
    }

    /** A level that is not there yet. */
    method Create(b: PreviewBuilder, prefix: string, name: string, parent: Option<NodeId>, ghost before: Catalogue, ghost was: map<string, NodeId>,
                  ghost done: seq<string>, ghost full: seq<string>, ghost count: nat)
      returns (r: Result<NodeId, ImportError>)
      requires b.Valid() && ValidateName(name).None? && '/' !in name && done + [name] <= full
      requires prefix == PrefixOf(done + [name]) && prefix !in byPath
      requires Along(before, ById(b.nodes), was, byPath, done, parent) && Counting(was.Keys, byPath.Keys, done, count, |b.nodes|)
      requires parent.Some? ==> parent.value in ById(b.nodes)
      modifies this, b
      ensures b.Valid()
      ensures r.Ok? ==>
                && Along(before, ById(b.nodes), was, byPath, done + [name], Some(r.value)) && r.value in ById(b.nodes)
                && Counting(was.Keys, byPath.Keys, done + [name], count, |b.nodes|)
      ensures r.Err? ==> r == Err(TooManyNodes) && b.maxNodes < count + MissingKeys(full, was.Keys)
    {
      hide Along, ById, WellListed, Accounts, ValidateName, PrefixOf, PrefixKeys, MissingKeys, Counting, Plainly, PlainFolder;
      var id := b.NewId();
      var node := Plainly(id, name, PreviewFolder(PLAIN), parent, nextSort);
      NewFolderIsPlain(id, name, parent, nextSort);
      nextSort := nextSort + 1;
      CountingCreated(was.Keys, byPath.Keys, done, name, full, count, |b.nodes|);
      AlongCreated(before, ById(b.nodes), was, byPath, done, parent, node);
      var pushed := b.Push(node);
      if pushed.Err? {
        return Err(pushed.error);
      }
      KeysWith(byPath, prefix, id);
      byPath := byPath[prefix := id];
      return Ok(id);
    }

    /** `path`: walks the cleaned segments, entering or creating one folder for each. */
    method Path(b: PreviewBuilder, path: string, maxDepth: nat) returns (r: Result<Option<NodeId>, ImportError>)
      requires b.Valid() && KeysLead(byPath, ById(b.nodes))
      modifies this, b
      ensures b.Valid()
      ensures r.Ok? ==>
                && |Segments(path)| <= maxDepth
                && Along(old(ById(b.nodes)), ById(b.nodes), old(byPath), byPath, Segments(path), r.value)
      ensures r.Err? ==> r.error in {TooDeep, TooManyNodes}
      ensures r == Err(TooDeep) ==> |Segments(path)| > maxDepth
      ensures r.Ok? ==> byPath.Keys == old(byPath).Keys + PrefixKeys(Segments(path))
      ensures r.Ok? ==> |b.nodes| == old(|b.nodes|) + MissingKeys(Segments(path), old(byPath).Keys)
      ensures r == Err(TooManyNodes) ==> b.maxNodes < old(|b.nodes|) + MissingKeys(Segments(path), old(byPath).Keys)
    {
      hide Along, ById, WellListed, Accounts, CleanName, ValidateName, PrefixOf, KeysLead, PrefixKeys, MissingKeys, Counting;
      var pieces := Split(path, '/');
      var parent: Option<NodeId>, prefix, depth := None, "", 0;
      ghost var before, was, count := ById(b.nodes), byPath, |b.nodes|;
      StartAlong(before, byPath);
      CountingStarts(byPath.Keys, count);
      NoPieces();
      assert pieces[..0] == [];
      var i := 0;
      while i < |pieces|
        invariant 0 <= i <= |pieces| && b.Valid()
        invariant Along(before, ById(b.nodes), was, byPath, CleanPieces(pieces[..i]), parent)
        invariant prefix == PrefixOf(CleanPieces(pieces[..i])) && depth == |CleanPieces(pieces[..i])| <= maxDepth
        invariant parent.Some? ==> parent.value in ById(b.nodes)
        invariant Counting(was.Keys, byPath.Keys, CleanPieces(pieces[..i]), count, |b.nodes|)
      {
        ghost var done := CleanPieces(pieces[..i]);
        var name := CleanName(pieces[i]);
        PieceStep(pieces, i);
        i := i + 1;
        if name != "" {
          PieceName(path, i - 1);
          SegmentsSoFar(pieces, i);
          depth := depth + 1;
          if depth > maxDepth {
            return Err(TooDeep);
          }
          AlongClean(before, ById(b.nodes), was, byPath, done, parent);
          CleanSnoc(done, name);
          prefix := prefix + "/" + name;
          var entered := Enter(b, prefix, name, parent, before, was, done, Segments(path), count);
          if entered.Err? {
            return Err(entered.error);
          }
          parent := Some(entered.value);
        }
      }
      assert pieces[..i] == pieces;
      CountingDone(was.Keys, byPath.Keys, Segments(path), count, |b.nodes|);
      return Ok(parent);
    }
  }

  lemma NoPieces()
    ensures CleanPieces([]) == [] && PrefixOf([]) == "" && PrefixKeys([]) == {}
  {
  }

  lemma PieceStep(pieces: seq<string>, i: nat)
    requires i < |pieces|
    ensures CleanName(pieces[i]) == "" ==> CleanPieces(pieces[..i + 1]) == CleanPieces(pieces[..i])
    ensures CleanName(pieces[i]) != "" ==> CleanPieces(pieces[..i + 1]) == CleanPieces(pieces[..i]) + [CleanName(pieces[i])]
  {
    hide CleanName;
    assert pieces[..i + 1][..i] == pieces[..i];
  }

  lemma {:induction false} PieceName(path: string, i: nat)
    requires i < |Split(path, '/')| && CleanName(Split(path, '/')[i]) != ""
    ensures ValidateName(CleanName(Split(path, '/')[i])).None? && '/' !in CleanName(Split(path, '/')[i])
  {
    hide CleanName, ValidateName;
    var piece := Split(path, '/')[i];
    CleanNameValid(piece);
    if '/' in piece {
      SplitPiece(path, '/', i, '/');
    }
  }

  lemma {:induction false} SegmentsSoFar(pieces: seq<string>, i: nat)
    requires i <= |pieces|
    ensures CleanPieces(pieces[..i]) <= CleanPieces(pieces)
    decreases |pieces| - i
  {
    hide CleanName;
    if i < |pieces| {
      PieceStep(pieces, i);
      SegmentsSoFar(pieces, i + 1);
    } else {
      assert pieces[..i] == pieces;
    }
  }

  lemma AlongClean(before: Catalogue, m: Catalogue, was: map<string, NodeId>, byPath: map<string, NodeId>, done: seq<string>, parent: Option<NodeId>)
    requires Along(before, m, was, byPath, done, parent)
    ensures CleanPath(done)
  {
  }

  lemma AlongEnds(before: Catalogue, m: Catalogue, was: map<string, NodeId>, byPath: map<string, NodeId>, done: seq<string>, parent: Option<NodeId>)
    requires Along(before, m, was, byPath, done, parent)
    ensures parent.Some? ==> parent.value in m
  {
  }
}
