/** The fact table as it is stored (`merge_atts`, `commit_with_delta` in src/store/rocks.rs):
    rows keyed by their own hash, two secondary indexes, and the Merkle aggregates folded
    after the commit. */
module Store {
  import opened Common
  import opened Facts
  import opened Merkle

  type HashFn = Attestation -> Hash

  /** The NAR-hash lookup identity. */
  datatype NarKey = NarKey(narHash: Bytes, hashPart: string)

  function Flip(k: PathKey): NarKey { NarKey(k.narHash, k.hashPart) }

  // ---- what a merge stores ----

  /** The row kept for an identity: a merge whose hash equals the stored one is skipped. */
  function Kept(hash: HashFn, was: Attestation, incoming: Attestation): Attestation {
    var merged := Join(was, incoming);
    if hash(merged) == hash(was) then was else merged
  }

  function Stored(hash: HashFn, t: Table, f: Table): Table {
    map k | k in t.Keys + f.Keys :: if k in t && k in f then Kept(hash, t[k], f[k]) else if k in t then t[k] else f[k]
  }

  /** No merge changes a fact without changing its hash. */
  ghost predicate NoCollision(hash: HashFn, t: Table, f: Table) {
    forall k :: k in t && k in f ==> hash(Join(t[k], f[k])) == hash(t[k]) ==> Join(t[k], f[k]) == t[k]
  }

  /** The stored table is the join exactly when no merged fact collides with its predecessor. */
  lemma StoredIsJoin(hash: HashFn, t: Table, f: Table)
    ensures Stored(hash, t, f) == TableJoin(t, f) <==> NoCollision(hash, t, f)
  {
    if NoCollision(hash, t, f) {
      forall k | k in Stored(hash, t, f) ensures Stored(hash, t, f)[k] == TableJoin(t, f)[k] {}
      assert Stored(hash, t, f).Keys == TableJoin(t, f).Keys;
    }
    if Stored(hash, t, f) == TableJoin(t, f) {
      forall k | k in t && k in f && hash(Join(t[k], f[k])) == hash(t[k]) ensures Join(t[k], f[k]) == t[k] {
        assert Stored(hash, t, f)[k] == t[k] && TableJoin(t, f)[k] == Join(t[k], f[k]);
      }
    }
  }

  lemma StoredOk(hash: HashFn, t: Table, f: Table)
    requires TableOk(t) && TableOk(f)
    ensures TableOk(Stored(hash, t, f))
  {
    var now := Stored(hash, t, f);
    forall k | k in now ensures Canonical(now[k]) && KeyOf(now[k]) == k {
      if k in t && k in f { JoinMeaning(t[k], f[k]); }
    }
  }

  /** Merging a batch fact by fact is joining the table of the batch. */
  lemma BatchIsJoin(t: Table, s: seq<Attestation>)
    requires TableOk(t)
    ensures TableOk(MergeAll(map[], s)) && TableJoin(t, MergeAll(map[], s)) == MergeAll(t, s)
  {
    var f := MergeAll(map[], s);
    MergeAllLub(map[], s);
    MergeAllLub(t, s);
    TableJoinLub(t, f);
    var j, m := TableJoin(t, f), MergeAll(t, s);
    forall a | a in s ensures Knows(j, a) { KnowsGrows(f, j, a); }
    assert TableLe(map[], m);
    assert TableLe(f, m);
    TableAntisymmetric(j, m);
  }

  // ---- the rows ----

  /** The key of a body: its hash first, so that storage order is tree order. */
  datatype RowKey = RowKey(hash: Hash, key: PathKey)

  type Rows = map<RowKey, Attestation>

  /** The index row of k names a stored body with that hash and that identity. */
  ghost predicate RowOk(hash: HashFn, att: Rows, k: PathKey, h: Hash) {
    RowKey(h, k) in att && hash(att[RowKey(h, k)]) == h && KeyOf(att[RowKey(h, k)]) == k && Canonical(att[RowKey(h, k)])
  }

  /** One identity-to-fact map seen through three column families; nothing is orphaned. */
  ghost predicate RowsOk(hash: HashFn, att: Rows, path: map<PathKey, Hash>, nar: map<NarKey, Hash>) {
    && (forall k :: k in path ==> RowOk(hash, att, k, path[k]))
    && (forall r :: r in att ==> r.key in path && path[r.key] == r.hash)
    && (forall k :: k in path <==> Flip(k) in nar)
    && (forall k :: k in path ==> nar[Flip(k)] == path[k])
  }

  ghost function TableOf(hash: HashFn, att: Rows, path: map<PathKey, Hash>): Table
    requires forall k :: k in path ==> RowOk(hash, att, k, path[k])
  {
    map k | k in path :: assert RowOk(hash, att, k, path[k]); att[RowKey(path[k], k)]
  }

  /** The row of k moves to its new hash. */
  function Moved(att: Rows, path: map<PathKey, Hash>, k: PathKey, h: Hash, a: Attestation): Rows {
    (if k in path then att - {RowKey(path[k], k)} else att)[RowKey(h, k) := a]
  }

  lemma MoveRow(hash: HashFn, att: Rows, path: map<PathKey, Hash>, k: PathKey, a: Attestation, j: PathKey)
    requires (j != k ==> j in path && RowOk(hash, att, j, path[j])) && KeyOf(a) == k && Canonical(a)
    ensures var h := hash(a); var att' := Moved(att, path, k, h, a);
            RowOk(hash, att', j, path[k := h][j]) && att'[RowKey(path[k := h][j], j)] == if j == k then a
              else att[RowKey(path[j], j)]
  {}

  lemma MoveKeepsRows(hash: HashFn, att: Rows, path: map<PathKey, Hash>, nar: map<NarKey, Hash>, k: PathKey,
                      a: Attestation)
    requires RowsOk(hash, att, path, nar) && KeyOf(a) == k && Canonical(a)
    ensures var h := hash(a);
            && RowsOk(hash, Moved(att, path, k, h, a), path[k := h], nar[Flip(k) := h])
            && TableOf(hash, Moved(att, path, k, h, a), path[k := h]) == TableOf(hash, att, path)[k := a]
  {
    var h := hash(a);
    MoveKeepsEach(hash, att, path, k, a);
    MoveKeepsIndex(att, path, nar, k, h, a);
    TableMoves(hash, att, path, k, a);
  }

  lemma TableMoves(hash: HashFn, att: Rows, path: map<PathKey, Hash>, k: PathKey, a: Attestation)
    requires (forall j :: j in path ==> RowOk(hash, att, j, path[j])) && KeyOf(a) == k && Canonical(a)
    ensures var path' := path[k := hash(a)]; var att' := Moved(att, path, k, hash(a), a);
            (forall j :: j in path' ==> RowOk(hash, att', j, path'[j]))
              && TableOf(hash, att', path') == TableOf(hash, att, path)[k := a]
  {
    MoveKeepsEach(hash, att, path, k, a);
    var path' := path[k := hash(a)];
    var att' := Moved(att, path, k, hash(a), a);
    var t, u := TableOf(hash, att', path'), TableOf(hash, att, path)[k := a];
    assert t.Keys == path'.Keys == u.Keys;
    forall j | j in path' ensures t[j] == u[j] {
      assert t[j] == att'[RowKey(path'[j], j)];
    }
  }

  lemma MoveKeepsEach(hash: HashFn, att: Rows, path: map<PathKey, Hash>, k: PathKey, a: Attestation)
    requires (forall j :: j in path ==> RowOk(hash, att, j, path[j])) && KeyOf(a) == k && Canonical(a)
    ensures var path' := path[k := hash(a)]; var att' := Moved(att, path, k, hash(a), a);
            forall j :: j in path' ==>
                RowOk(hash, att', j, path'[j]) && att'[RowKey(path'[j], j)] == if j == k then a
                else att[RowKey(path[j], j)]
  {
    var path' := path[k := hash(a)];
    var att' := Moved(att, path, k, hash(a), a);
    forall j | j in path'
      ensures RowOk(hash, att', j, path'[j]) && att'[RowKey(path'[j], j)] == if j == k then a
      else att[RowKey(path[j], j)] {
      if j != k { assert RowOk(hash, att, j, path[j]); }
      MoveRow(hash, att, path, k, a, j);
    }
  }

  lemma MoveKeepsIndex(att: Rows, path: map<PathKey, Hash>, nar: map<NarKey, Hash>, k: PathKey, h: Hash, a: Attestation)
    requires forall r :: r in att ==> r.key in path && path[r.key] == r.hash
    requires (forall j :: j in path <==> Flip(j) in nar) && (forall j :: j in path ==> nar[Flip(j)] == path[j])
    ensures var att', path', nar' := Moved(att, path, k, h, a), path[k := h], nar[Flip(k) := h];
            && (forall r :: r in att' ==> r.key in path' && path'[r.key] == r.hash)
            && (forall j :: j in path' <==> Flip(j) in nar') && (forall j :: j in path' ==> nar'[Flip(j)] == path'[j])
  {
    forall j ensures Flip(j) == Flip(k) <==> j == k {}
  }

  // ---- the store ----

  /** A write batch: the rows as they will be, and the hashes that leave or enter the tree. */
  datatype Pending = Pending(att: Rows, path: map<PathKey, Hash>, nar: map<NarKey, Hash>, delta: seq<Hash>)

  function Only(f: Table, ks: set<PathKey>): Table { map k | k in f && k in ks :: f[k] }

  ghost predicate DeltaOk(was: map<PathKey, Hash>, p: Pending) {
    forall n :: Xor(NodeOf(n, was), XorAll(n, p.delta)) == NodeOf(n, p.path)
  }

  /** The hashes that leave and enter when the row of k gets hash h. */
  function Change(path: map<PathKey, Hash>, k: PathKey, h: Hash): seq<Hash> { if k in path then [path[k], h] else [h] }

  lemma ChangeXor(n: Node, path: map<PathKey, Hash>, k: PathKey, h: Hash)
    ensures XorAll(n, Change(path, k, h)) == Xor(Share(n, path, k), Mask(n, h))
  {
    var c := Change(path, k, h);
    var init := c[..|c| - 1];
    assert XorAll(n, c) == Xor(XorAll(n, init), Mask(n, h));
    if k in path {
      assert init == [path[k]] && init[..0] == [];
      assert XorAll(n, init) == Xor(XorAll(n, []), Mask(n, path[k]));
      XorCancels(Mask(n, path[k]));
    }
  }

  /** One more row moved: the delta grows by what it was and what it is. */
  lemma DeltaGrows(n: Node, was: map<PathKey, Hash>, path: map<PathKey, Hash>, delta: seq<Hash>, k: PathKey, h: Hash)
    requires Xor(NodeOf(n, was), XorAll(n, delta)) == NodeOf(n, path)
    ensures Xor(NodeOf(n, was), XorAll(n, delta + Change(path, k, h))) == NodeOf(n, path[k := h])
  {
    XorAllAppend(n, delta, Change(path, k, h));
    ChangeXor(n, path, k, h);
    XorAssociates(NodeOf(n, was), XorAll(n, delta), XorAll(n, Change(path, k, h)));
    NodePut(n, path, k, h);
  }

  /** The batch with the row of k moved to fact a. */
  function Put(p: Pending, k: PathKey, h: Hash, a: Attestation): Pending {
    Pending(Moved(p.att, p.path, k, h, a), p.path[k := h], p.nar[Flip(k) := h], p.delta + Change(p.path, k, h))
  }

  ghost predicate PendingOk(hash: HashFn, was: map<PathKey, Hash>, p: Pending) {
    RowsOk(hash, p.att, p.path, p.nar) && DeltaOk(was, p)
  }

  lemma PutOk(hash: HashFn, was: map<PathKey, Hash>, p: Pending, k: PathKey, a: Attestation)
    requires PendingOk(hash, was, p) && KeyOf(a) == k && Canonical(a)
    ensures PendingOk(hash, was, Put(p, k, hash(a), a))
    ensures var q := Put(p, k, hash(a), a); TableOf(hash, q.att, q.path) == TableOf(hash, p.att, p.path)[k := a]
  {
    MoveKeepsRows(hash, p.att, p.path, p.nar, k, a);
    forall n ensures Xor(NodeOf(n, was), XorAll(n, Put(p, k, hash(a), a).delta)) == NodeOf(n, p.path[k := hash(a)]) {
      DeltaGrows(n, was, p.path, p.delta, k, hash(a));
    }
  }

  /** The fact to write for an identity, if its row changes. */
  function Write(hash: HashFn, existing: Option<(Hash, Attestation)>, incoming: Attestation): Option<Attestation> {
    match existing
    case None => Some(incoming)
    case Some(e) =>
      match MergeInto(Some(e.1), incoming)
      case None => None
      case Some(merged) => if hash(merged) == e.0 then None else Some(merged)
  }

  /** The identities of a table, each once. */
  ghost predicate Listed(order: seq<PathKey>, facts: Table) {
    Elems(order) == facts.Keys && forall i, j :: 0 <= i < j < |order| ==> order[i] != order[j]
  }

  function Noted(order: seq<PathKey>, a: Attestation): seq<PathKey> {
    if Usable(a) && KeyOf(a) !in order then order + [KeyOf(a)] else order
  }

  /** The identities of a batch in order of first appearance. */
  function FirstSeen(s: seq<Attestation>): seq<PathKey>
    decreases |s|
  {
    if s == [] then [] else Noted(FirstSeen(s[..|s| - 1]), s[|s| - 1])
  }

  /** Merging facts f changes the row of k. */
  ghost predicate Changes(hash: HashFn, t: Table, f: Table, k: PathKey) {
    k in f && (k !in t || NewRow(hash, t, k, f[k]) != t[k])
  }

  ghost function Changed(hash: HashFn, t: Table, f: Table, among: set<PathKey>): set<PathKey> {
    set k | k in among && Changes(hash, t, f, k)
  }

  class FactStore {
    const hash: HashFn
    const agg: Aggregates
    var att: Rows
    var attPath: map<PathKey, Hash>
    var attNar: map<NarKey, Hash>

    ghost predicate Valid()
      reads this, agg
    {
      RowsOk(hash, att, attPath, attNar) && forall n :: agg.Cell(n) == NodeOf(n, attPath)
    }

    ghost function Table(): Table
      requires Valid()
      reads this, agg
    {
      TableOf(hash, att, attPath)
    }

    constructor (hash: HashFn)
      ensures Valid() && Table() == map[] && fresh(agg) && this.hash == hash
    {
      this.hash := hash;
      att, attPath, attNar := map[], map[], map[];
      agg := new Aggregates();
      new;
      forall n ensures NodeOf(n, attPath) == ZERO { assert Masked(n, attPath) == map[]; }
    }

    /** One more fact of the batch. */
    static method Absorb(order: seq<PathKey>, facts: Facts.Table, incoming: Attestation)
        returns (order': seq<PathKey>, facts': Facts.Table)
      requires Listed(order, facts)
      ensures Listed(order', facts') && facts' == MergeOne(facts, incoming) && order' == Noted(order, incoming)
    {
      order', facts' := order, facts;
      if Usable(incoming) {
        var k := KeyOf(incoming);
        assert k in facts <==> k in Elems(order);
        if k in facts {
          var merged := MergeInto(Some(facts[k]), incoming);
          facts' := facts[k := if merged.Some? then merged.value else facts[k]];
        } else {
          facts' := facts[k := MergeInto(None, incoming).value];
          order' := order + [k];
          assert Elems(order') == Elems(order) + {k};
        }
      }
    }

    /** Repeated identities inside one batch are merged first, so each row is read once. */
    static method Coalesce(attests: seq<Attestation>) returns (order: seq<PathKey>, facts: Facts.Table)
      ensures facts == MergeAll(map[], attests)
      ensures Listed(order, facts) && order == FirstSeen(attests)
    {
      order, facts := [], map[];
      for i := 0 to |attests|
        invariant facts == MergeAll(map[], attests[..i])
        invariant Listed(order, facts) && order == FirstSeen(attests[..i])
      {
        assert attests[..i + 1][..|attests[..i + 1]| - 1] == attests[..i];
        order, facts := Absorb(order, facts, attests[i]);
      }
      assert attests[..|attests|] == attests;
    }

    method Read(k: PathKey) returns (r: Option<(Hash, Attestation)>)
      requires RowsOk(hash, att, attPath, attNar)
      ensures r.Some? <==> k in TableOf(hash, att, attPath)
      ensures r.Some? ==>
                r.value.1 == TableOf(hash, att, attPath)[k] && r.value.0 == hash(r.value.1) && Canonical(r.value.1)
                && KeyOf(r.value.1) == k
    {
      if k !in attPath {
        return None;
      }
      assert RowOk(hash, att, k, attPath[k]);
      return Some((attPath[k], att[RowKey(attPath[k], k)]));
    }

    /** One identity: read its row, merge, and move it if it changed. */
    method MergeRow(p: Pending, k: PathKey, incoming: Attestation) returns (q: Pending, moved: bool)
      requires RowsOk(hash, att, attPath, attNar) && PendingOk(hash, attPath, p) && KeyOf(incoming) == k
               && Canonical(incoming)
      requires var t, u := TableOf(hash, att, attPath), TableOf(hash, p.att, p.path);
               (k in t <==> k in u) && (k in t ==> t[k] == u[k])
      ensures PendingOk(hash, attPath, q)
      ensures TableOf(hash, q.att, q.path)
              == TableOf(hash, p.att, p.path)[k := NewRow(hash, TableOf(hash, att, attPath), k, incoming)]
      ensures var t := TableOf(hash, att, attPath); moved <==> k !in t || NewRow(hash, t, k, incoming) != t[k]
      ensures !moved ==> q == p
    {
      var existing := Read(k);
      var w := Write(hash, existing, incoming);
      ghost var t, u := TableOf(hash, att, attPath), TableOf(hash, p.att, p.path);
      if existing.Some? { JoinMeaning(existing.value.1, incoming); }
      if w.None? {
        assert u[k := t[k]] == u;
        return p, false;
      }
      PutOk(hash, attPath, p, k, w.value);
      q, moved := Put(p, k, hash(w.value), w.value), true;
      assert k in t ==> t[k] != w.value;
    }

    /** The batch has dealt with the identities in `done`, of which `changed` moved. */
    ghost predicate Progress(p: Pending, changed: nat, facts: Facts.Table, done: set<PathKey>)
      requires RowsOk(hash, att, attPath, attNar)
      reads this
    {
      && PendingOk(hash, attPath, p)
      && TableOf(hash, p.att, p.path) == Stored(hash, TableOf(hash, att, attPath), Only(facts, done))
      && changed == |Changed(hash, TableOf(hash, att, attPath), facts, done)|
      && (changed == 0 ==> p.path == attPath && p.att == att && p.nar == attNar)
    }

    method MergeNext(p: Pending, changed: nat, facts: Facts.Table, ghost done: set<PathKey>, k: PathKey)
        returns (q: Pending, changed': nat)
      requires RowsOk(hash, att, attPath, attNar) && Progress(p, changed, facts, done)
      requires k in facts && k !in done && KeyOf(facts[k]) == k && Canonical(facts[k])
      ensures Progress(q, changed', facts, done + {k})
    {
      ghost var t := TableOf(hash, att, attPath);
      StoredNext(hash, t, facts, done, k);
      ChangedNext(hash, t, facts, done, k);
      var moved;
      q, moved := MergeRow(p, k, facts[k]);
      changed' := if moved then changed + 1 else changed;
      assert TableOf(hash, q.att, q.path) == Stored(hash, t, Only(facts, done + {k}));
    }

    lemma NothingDone(facts: Facts.Table)
      requires RowsOk(hash, att, attPath, attNar)
      ensures Progress(Pending(att, attPath, attNar, []), 0, facts, {})
    {
      var t := TableOf(hash, att, attPath);
      assert Stored(hash, t, Only(facts, {})) == t && Changed(hash, t, facts, {}) == {};
      forall n ensures Xor(NodeOf(n, attPath), XorAll(n, [])) == NodeOf(n, attPath) { XorCancels(NodeOf(n, attPath)); }
    }

    method MergeRows(order: seq<PathKey>, facts: Facts.Table) returns (p: Pending, changed: nat)
      requires RowsOk(hash, att, attPath, attNar) && TableOk(facts) && Listed(order, facts)
      ensures Progress(p, changed, facts, facts.Keys)
    {
      p, changed := Pending(att, attPath, attNar, []), 0;
      NothingDone(facts);
      AllOf(order, facts);
      ghost var done: set<PathKey> := {};
      for i := 0 to |order|
        invariant done == Elems(order[..i]) && Progress(p, changed, facts, done)
      {
        NextOf(order, facts, i);
        p, changed := MergeNext(p, changed, facts, done, order[i]);
        done := done + {order[i]};
      }
      AllOf(order, facts);
    }

    /** `merge_atts`: the batch, without writing it. */
    method Prepare(attests: seq<Attestation>) returns (p: Pending, changed: nat)
      requires RowsOk(hash, att, attPath, attNar)
      ensures PendingOk(hash, attPath, p)
      ensures TableOf(hash, p.att, p.path) == Stored(hash, TableOf(hash, att, attPath), MergeAll(map[], attests))
      ensures changed == |Changed(hash, TableOf(hash, att, attPath), MergeAll(map[], attests),
              MergeAll(map[], attests).Keys)|
      ensures changed == 0 ==> p.path == attPath && p.att == att && p.nar == attNar
    {
      var order, facts := Coalesce(attests);
      MergeAllLub(map[], attests);
      p, changed := MergeRows(order, facts);
      OnlyAll(facts);
    }

    method Commit(p: Pending)
      requires Valid() && PendingOk(hash, attPath, p)
      modifies this`att, this`attPath, this`attNar, agg
      ensures Valid() && att == p.att && attPath == p.path && attNar == p.nar
    {
      ghost var was := attPath;
      att, attPath, attNar := p.att, p.path, p.nar;
      agg.FoldAll(p.delta);
      assert forall n :: agg.Cell(n) == Xor(NodeOf(n, was), XorAll(n, p.delta));
    }

    /** Merge facts: the rows become those of the join (where no hash collides), the indexes
        keep describing one map, and the tree keeps agreeing with the rows. Returns how many rows
        changed. */
    method MergeAttestations(attests: seq<Attestation>) returns (changed: nat)
      requires Valid()
      modifies this`att, this`attPath, this`attNar, agg
      ensures Valid() && Table() == Stored(hash, old(Table()), MergeAll(map[], attests))
      ensures changed == |Changed(hash, old(Table()), MergeAll(map[], attests), MergeAll(map[], attests).Keys)|
    {
      var p;
      p, changed := Prepare(attests);
      if changed > 0 {
        Commit(p);
      }
    }
  }

  lemma AllOf(order: seq<PathKey>, f: Facts.Table)
    requires Listed(order, f)
    ensures Elems(order[..|order|]) == f.Keys && Elems(order[..0]) == {}
  {
    assert order[..|order|] == order;
  }

  lemma OnlyAll(f: Facts.Table)
    ensures Only(f, f.Keys) == f
  {}

  lemma NextOf(order: seq<PathKey>, f: Facts.Table, i: nat)
    requires i < |order| && Listed(order, f) && TableOk(f)
    ensures Elems(order[..i + 1]) == Elems(order[..i]) + {order[i]} && order[i] !in Elems(order[..i])
    ensures order[i] in f && KeyOf(f[order[i]]) == order[i] && Canonical(f[order[i]])
  {
    assert order[i] in Elems(order);
    assert order[..i + 1] == order[..i] + [order[i]];
  }

  lemma ChangedNext(hash: HashFn, t: Facts.Table, f: Facts.Table, done: set<PathKey>, k: PathKey)
    requires k !in done
    ensures |Changed(hash, t, f, done + {k})| == |Changed(hash, t, f, done)| + (if Changes(hash, t, f, k) then 1 else 0)
  {
    var was, now := Changed(hash, t, f, done), Changed(hash, t, f, done + {k});
    assert now == if Changes(hash, t, f, k) then was + {k} else was;
  }

  lemma StoredNext(hash: HashFn, t: Facts.Table, f: Facts.Table, done: set<PathKey>, k: PathKey)
    requires k in f && k !in done
    ensures Stored(hash, t, Only(f, done + {k})) == Stored(hash, t, Only(f, done))[k := NewRow(hash, t, k, f[k])]
    ensures var u := Stored(hash, t, Only(f, done)); (k in t <==> k in u) && (k in t ==> t[k] == u[k])
  {
    var a, b := Stored(hash, t, Only(f, done + {k})), Stored(hash, t, Only(f, done))[k := NewRow(hash, t, k, f[k])];
    assert a.Keys == b.Keys;
  }

  ghost function NewRow(hash: HashFn, t: Facts.Table, k: PathKey, incoming: Attestation): Attestation {
    if k in t then Kept(hash, t[k], incoming) else incoming
  }
}
