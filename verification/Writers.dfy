/** Concurrent merges (src/store/rocks.rs): writers take striped locks in order, read and merge
    row by row, commit their batch, and only then fold their delta into the Merkle tree. A
    state machine over every interleaving of those steps, and restarts. */
module Writers {
  import opened Common
  import opened Facts
  import opened Merkle
  import opened Store

  type Stripe = PathKey -> nat

  datatype Phase = Open | Committed | Folded

  /** `need` is the sorted list of stripes, of which the first `got` are locked. */
  datatype Writer = Writer(batch: seq<Attestation>, facts: Table, need: seq<nat>, got: nat,
                           todo: set<PathKey>, writes: Table, delta: seq<Hash>, phase: Phase)

  /** `log` is the facts of all committed batches in commit order; `clean` says that no merge
      so far changed a fact without changing its hash. */
  datatype World = World(rows: Table, tree: Node -> Hash, writers: map<nat, Writer>, log: seq<Attestation>, clean: bool,
                         saved: seq<Saved>)

  /** The store after a commit. Commits of facts are not synced, so a crash may fall back to any. */
  datatype Saved = Saved(rows: Table, log: seq<Attestation>)

  datatype Step =
    | Begin(w: nat, batch: seq<Attestation>, need: seq<nat>)
    | Acquire(w: nat)
    | Read(w: nat, k: PathKey)
    | Commit(w: nat)
    | Fold(w: nat)
    | Release(w: nat)
    | Abandon(w: nat)
    | Restart(kept: nat)

  // ---- the steps ----

  function HashesOf(hash: HashFn, t: Table): map<PathKey, Hash> { map k | k in t :: hash(t[k]) }

  ghost function StripesOf(stripe: Stripe, batch: seq<Attestation>): set<nat> { set a | a in batch :: stripe(KeyOf(a)) }

  ghost predicate Ascending(s: seq<nat>) { forall i, j :: 0 <= i < j < |s| ==> s[i] < s[j] }

  predicate Holds(wr: Writer, s: nat)
    requires wr.got <= |wr.need|
  {
    s in wr.need[..wr.got]
  }

  ghost predicate Free(world: World, s: nat) {
    forall v :: v in world.writers && world.writers[v].got <= |world.writers[v].need| ==> !Holds(world.writers[v], s)
  }

  function Existing(hash: HashFn, rows: Table, k: PathKey): Option<(Hash, Attestation)> {
    if k in rows then Some((hash(rows[k]), rows[k])) else None
  }

  /** Writer wr deals with identity k. */
  function ReadRow(hash: HashFn, rows: Table, wr: Writer, k: PathKey): Writer
    requires k in wr.facts
  {
    match Write(hash, Existing(hash, rows, k), wr.facts[k])
    case None => wr.(todo := wr.todo - {k})
    case Some(a) =>
      wr.(todo := wr.todo - {k}, writes := wr.writes[k := a], delta := wr.delta
        + Change(HashesOf(hash, rows), k, hash(a)))
  }

  predicate Collides(hash: HashFn, rows: Table, k: PathKey, f: Attestation) {
    k in rows && hash(Join(rows[k], f)) == hash(rows[k]) && Join(rows[k], f) != rows[k]
  }

  ghost predicate Enabled(stripe: Stripe, s: World, step: Step) {
    match step
    case Begin(w, batch, need) => w !in s.writers && Ascending(need) && StripesOf(stripe, batch) <= Elems(need)
    case Acquire(w) => w in s.writers && s.writers[w].got < |s.writers[w].need|
      && Free(s, s.writers[w].need[s.writers[w].got])
    case Read(w, k) => w in s.writers && s.writers[w].got == |s.writers[w].need| && s.writers[w].phase == Open
      && k in s.writers[w].todo && k in s.writers[w].facts
    case Commit(w) => w in s.writers && s.writers[w].got == |s.writers[w].need| && s.writers[w].phase == Open
      && s.writers[w].todo == {}
    case Fold(w) => w in s.writers && s.writers[w].phase == Committed
    case Release(w) => w in s.writers && s.writers[w].phase == Folded
    // A failed clock gate, or nothing changed.
    case Abandon(w) => w in s.writers && s.writers[w].phase == Open && s.writers[w].got == |s.writers[w].need|
    case Restart(kept) => kept < |s.saved|
  }

  ghost function After(hash: HashFn, stripe: Stripe, s: World, step: Step): World
    requires Enabled(stripe, s, step)
  {
    match step
    case Begin(w, batch, need) =>
      var f := MergeAll(map[], batch);
      s.(writers := s.writers[w := Writer(batch, f, need, 0, f.Keys, map[], [], Open)])
    case Acquire(w) => s.(writers := s.writers[w := s.writers[w].(got := s.writers[w].got + 1)])
    case Read(w, k) =>
      s.(writers := s.writers[w := ReadRow(hash, s.rows, s.writers[w], k)],
         clean := s.clean && !Collides(hash, s.rows, k, s.writers[w].facts[k]))
    case Commit(w) =>
      s.(rows := s.rows + s.writers[w].writes, writers := s.writers[w := s.writers[w].(phase := Committed)],
        log := s.log + s.writers[w].batch,
         saved := s.saved + [Saved(s.rows + s.writers[w].writes, s.log + s.writers[w].batch)])
    case Fold(w) =>
      var tree, delta := s.tree, s.writers[w].delta;
      s.(tree := (n: Node) => Xor(tree(n), XorAll(n, delta)), writers := s.writers[w := s.writers[w].(phase := Folded)])
    case Release(w) => s.(writers := s.writers - {w})
    case Abandon(w) => s.(writers := s.writers - {w})
    case Restart(kept) =>
      var back := s.saved[kept];
      s.(rows := back.rows, log := back.log, tree := (n: Node) => NodeOf(n, HashesOf(hash, back.rows)),
        writers := map[],
         saved := s.saved[..kept + 1])
  }

  // ---- the invariant ----

  ghost predicate WriterOk(stripe: Stripe, wr: Writer) {
    && wr.got <= |wr.need| && Ascending(wr.need) && StripesOf(stripe, wr.batch) <= Elems(wr.need)
    && wr.facts == MergeAll(map[], wr.batch) && wr.todo <= wr.facts.Keys && wr.writes.Keys <= wr.facts.Keys - wr.todo
    && (wr.got < |wr.need| ==> wr.phase == Open && wr.todo == wr.facts.Keys)
  }

  /** What an open writer has decided for k is what the merge of the current rows gives. */
  ghost predicate RowDecided(hash: HashFn, rows: Table, wr: Writer, clean: bool, k: PathKey)
    requires k in wr.facts
  {
    && (k in wr.writes ==> wr.writes[k] == NewRow(hash, rows, k, wr.facts[k]))
    && (k !in wr.writes ==> k in rows && rows[k] == NewRow(hash, rows, k, wr.facts[k]))
    && (clean ==> !Collides(hash, rows, k, wr.facts[k]))
  }

  ghost predicate DeltaFits(hash: HashFn, rows: Table, wr: Writer) {
    forall n ::
        XorAll(n, wr.delta) == Xor(NodeOf(n, Picked(HashesOf(hash, rows), wr.writes.Keys)),
        NodeOf(n, HashesOf(hash, wr.writes)))
  }

  ghost predicate OpenOk(hash: HashFn, rows: Table, wr: Writer, clean: bool) {
    wr.phase == Open ==> DeltaFits(hash, rows, wr) && forall k :: k in wr.facts && k !in wr.todo ==>
        RowDecided(hash, rows, wr, clean, k)
  }

  /** Deltas committed but not folded. */
  ghost function Owed(n: Node, writers: map<nat, Writer>): map<nat, Hash> {
    map w | w in writers :: if writers[w].phase == Committed then XorAll(n, writers[w].delta) else ZERO
  }

  ghost predicate TreeOk(hash: HashFn, s: World, n: Node) {
    Xor(s.tree(n), XorSum(Owed(n, s.writers))) == NodeOf(n, HashesOf(hash, s.rows))
  }

  ghost predicate Apart(writers: map<nat, Writer>, v: nat, w: nat)
    requires v in writers && w in writers
  {
    writers[v].got <= |writers[v].need| && writers[w].got <= |writers[w].need| ==>
      forall s: nat :: !(Holds(writers[v], s) && Holds(writers[w], s))
  }

  ghost predicate SavedOk(v: Saved, clean: bool) { TableOk(v.rows) && (clean ==> v.rows == MergeAll(map[], v.log)) }

  ghost predicate Inv(hash: HashFn, stripe: Stripe, s: World) {
    && TableOk(s.rows) && s.saved != [] && (forall i :: 0 <= i < |s.saved| ==> SavedOk(s.saved[i], s.clean))
    && (forall w :: w in s.writers ==> WriterOk(stripe, s.writers[w]) && OpenOk(hash, s.rows, s.writers[w], s.clean))
    && (forall v, w :: v in s.writers && w in s.writers && v != w ==> Apart(s.writers, v, w))
    && (forall n :: TreeOk(hash, s, n))
    && (s.clean ==> s.rows == MergeAll(map[], s.log))
  }

  // ---- deltas ----

  lemma OwedPut(n: Node, writers: map<nat, Writer>, w: nat, wr: Writer)
    ensures var was := if w in writers && writers[w].phase == Committed then XorAll(n, writers[w].delta) else ZERO;
            var now := if wr.phase == Committed then XorAll(n, wr.delta) else ZERO;
            XorSum(Owed(n, writers[w := wr])) == Xor(XorSum(Owed(n, writers)), Xor(was, now))
  {
    var now := if wr.phase == Committed then XorAll(n, wr.delta) else ZERO;
    assert Owed(n, writers[w := wr]) == Owed(n, writers)[w := now];
    XorPut(Owed(n, writers), w, now);
  }

  /** A step that commits nothing and folds nothing leaves the tree's debt alone. */
  lemma OwedSame(hash: HashFn, s: World, w: nat, wr: Writer, clean: bool, n: Node)
    requires TreeOk(hash, s, n) && wr.phase != Committed && (w in s.writers ==> s.writers[w].phase != Committed)
    ensures TreeOk(hash, s.(writers := s.writers[w := wr], clean := clean), n)
  {
    OwedPut(n, s.writers, w, wr);
    XorCancels(ZERO);
    XorCancels(XorSum(Owed(n, s.writers)));
  }

  lemma CommitTree(hash: HashFn, s: World, w: nat, n: Node, log: seq<Attestation>, saved: seq<Saved>)
    requires TreeOk(hash, s, n) && w in s.writers && s.writers[w].phase == Open && DeltaFits(hash, s.rows, s.writers[w])
    ensures TreeOk(hash, s.(rows := s.rows + s.writers[w].writes,
            writers := s.writers[w := s.writers[w].(phase := Committed)], log := log, saved := saved), n)
  {
    var wr := s.writers[w];
    var d := XorAll(n, wr.delta);
    OwedPut(n, s.writers, w, wr.(phase := Committed));
    XorCancels(d);
    var h, m := HashesOf(hash, s.rows), HashesOf(hash, wr.writes);
    assert HashesOf(hash, s.rows + wr.writes) == h + m;
    assert m.Keys == wr.writes.Keys;
    NodeOverlay(n, h, m);
    XorAssociates(s.tree(n), XorSum(Owed(n, s.writers)), d);
  }

  lemma FoldTree(hash: HashFn, s: World, w: nat, n: Node, tree: Node -> Hash)
    requires TreeOk(hash, s, n) && w in s.writers && s.writers[w].phase == Committed
             && tree(n) == Xor(s.tree(n), XorAll(n, s.writers[w].delta))
    ensures TreeOk(hash, s.(tree := tree, writers := s.writers[w := s.writers[w].(phase := Folded)]), n)
  {
    var d, owed := XorAll(n, s.writers[w].delta), XorSum(Owed(n, s.writers));
    OwedPut(n, s.writers, w, s.writers[w].(phase := Folded));
    XorCancels(d);
    XorCommutes(owed, d);
    XorMeets(s.tree(n), d, owed);
  }

  lemma ReleaseTree(hash: HashFn, s: World, w: nat, n: Node)
    requires TreeOk(hash, s, n) && w in s.writers && s.writers[w].phase != Committed
    ensures TreeOk(hash, s.(writers := s.writers - {w}), n)
  {
    assert Owed(n, s.writers - {w}) == Owed(n, s.writers) - {w};
    XorDrop(Owed(n, s.writers), w);
    XorCancels(XorSum(Owed(n, s.writers)));
  }

  /** At quiescence the tree is what a rebuild from the rows would compute. */
  lemma QuietTree(hash: HashFn, s: World, n: Node)
    requires TreeOk(hash, s, n) && forall w :: w in s.writers ==> s.writers[w].phase != Committed
    ensures s.tree(n) == NodeOf(n, HashesOf(hash, s.rows))
  {
    AllZero(Owed(n, s.writers));
    XorCancels(s.tree(n));
  }

  lemma {:induction false} AllZero<K(!new)>(m: map<K, Hash>)
    requires forall k :: k in m ==> m[k] == ZERO
    ensures XorSum(m) == ZERO
    decreases |m.Keys|
  {
    if m.Keys != {} {
      var k :| k in m.Keys;
      XorTake(m, k);
      Smaller(m, k);
      AllZero(m - {k});
      XorCancels(ZERO);
    }
  }

  // ---- reading ----

  lemma {:induction false} FactsNamed(batch: seq<Attestation>, k: PathKey)
    requires k in MergeAll(map[], batch)
    ensures exists a :: a in batch && KeyOf(a) == k
    decreases |batch|
  {
    var init, last := batch[..|batch| - 1], batch[|batch| - 1];
    if Usable(last) && KeyOf(last) == k {
      assert last in batch;
    } else {
      FactsNamed(init, k);
      var a :| a in init && KeyOf(a) == k;
      assert a in batch;
    }
  }

  /** A writer with all its locks holds the stripe of each of its identities. */
  lemma HoldsOwn(stripe: Stripe, wr: Writer, k: PathKey)
    requires WriterOk(stripe, wr) && wr.got == |wr.need| && k in wr.facts
    ensures Holds(wr, stripe(k))
  {
    FactsNamed(wr.batch, k);
    var a :| a in wr.batch && KeyOf(a) == k;
    assert stripe(k) in StripesOf(stripe, wr.batch);
    assert stripe(k) in Elems(wr.need);
    assert wr.need[..wr.got] == wr.need;
  }

  lemma DeltaNext(hash: HashFn, rows: Table, wr: Writer, k: PathKey, a: Attestation, n: Node)
    requires DeltaFits(hash, rows, wr) && k !in wr.writes
    ensures var w' := wr.writes[k := a];
            XorAll(n, wr.delta + Change(HashesOf(hash, rows), k, hash(a)))
            == Xor(NodeOf(n, Picked(HashesOf(hash, rows), w'.Keys)), NodeOf(n, HashesOf(hash, w')))
  {
    var h := HashesOf(hash, rows);
    var p, l, sh, m := NodeOf(n, Picked(h, wr.writes.Keys)), NodeOf(n, HashesOf(hash, wr.writes)), Share(n, h, k),
      Mask(n, hash(a));
    XorAllAppend(n, wr.delta, Change(h, k, hash(a)));
    ChangeXor(n, h, k, hash(a));
    assert wr.writes[k := a].Keys == wr.writes.Keys + {k};
    PickOne(n, h, wr.writes.Keys, k);
    assert NodeOf(n, HashesOf(hash, wr.writes[k := a])) == Xor(l, m) by {
      assert HashesOf(hash, wr.writes[k := a]) == HashesOf(hash, wr.writes)[k := hash(a)];
      NodePut(n, HashesOf(hash, wr.writes), k, hash(a));
      XorCancels(m);
    }
    Pairs(p, l, sh, m);
  }

  /** (p + l) + (s + m) = (p + s) + (l + m). */
  lemma Pairs(p: Hash, l: Hash, s: Hash, m: Hash)
    ensures Xor(Xor(p, l), Xor(s, m)) == Xor(Xor(p, s), Xor(l, m))
  {
    XorAssociates(p, l, Xor(s, m));
    XorSwap(l, s, m);
    XorAssociates(p, s, Xor(l, m));
  }

  lemma ReadKeeps(hash: HashFn, stripe: Stripe, rows: Table, wr: Writer, clean: bool, k: PathKey)
    requires WriterOk(stripe, wr) && OpenOk(hash, rows, wr, clean) && wr.got == |wr.need| && wr.phase == Open
             && k in wr.todo && k in wr.facts
    ensures WriterOk(stripe, ReadRow(hash, rows, wr, k))
    ensures OpenOk(hash, rows, ReadRow(hash, rows, wr, k), clean && !Collides(hash, rows, k, wr.facts[k]))
  {
    var wr' := ReadRow(hash, rows, wr, k);
    var clean' := clean && !Collides(hash, rows, k, wr.facts[k]);
    assert k !in wr.writes;
    var w := Write(hash, Existing(hash, rows, k), wr.facts[k]);
    if w.Some? {
      forall n
        ensures XorAll(n, wr'.delta) == Xor(NodeOf(n, Picked(HashesOf(hash, rows), wr'.writes.Keys)),
        NodeOf(n, HashesOf(hash, wr'.writes))) {
        DeltaNext(hash, rows, wr, k, w.value, n);
      }
    }
    forall j | j in wr'.facts && j !in wr'.todo ensures RowDecided(hash, rows, wr', clean', j) {
      if j != k { assert RowDecided(hash, rows, wr, clean, j); }
    }
  }

  /** Rows that an open writer has not looked at may change under it. */
  lemma OpenSame(hash: HashFn, stripe: Stripe, rows: Table, now: Table, wr: Writer, clean: bool)
    requires WriterOk(stripe, wr) && OpenOk(hash, rows, wr, clean)
    requires forall k :: k in wr.facts && k !in wr.todo ==>
               (k in rows <==> k in now) && (k in rows ==> rows[k] == now[k])
    ensures OpenOk(hash, now, wr, clean)
  {
    if wr.phase == Open {
      assert Picked(HashesOf(hash, rows), wr.writes.Keys) == Picked(HashesOf(hash, now), wr.writes.Keys);
      forall k | k in wr.facts && k !in wr.todo ensures RowDecided(hash, now, wr, clean, k) {
        assert RowDecided(hash, rows, wr, clean, k);
      }
    }
  }

  /** The commit of one writer touches no row another writer has read: the stripes differ. */
  lemma CommitSpares(hash: HashFn, stripe: Stripe, s: World, w: nat, v: nat)
    requires Inv(hash, stripe, s) && w in s.writers && v in s.writers && v != w
             && s.writers[w].got == |s.writers[w].need|
    ensures OpenOk(hash, s.rows + s.writers[w].writes, s.writers[v], s.clean)
  {
    var wr, vr := s.writers[w], s.writers[v];
    assert WriterOk(stripe, wr) && WriterOk(stripe, vr) && OpenOk(hash, s.rows, vr, s.clean) && Apart(s.writers, v, w);
    forall k | k in vr.facts && k !in vr.todo ensures k !in wr.writes {
      HoldsOwn(stripe, vr, k);
      if k in wr.writes { HoldsOwn(stripe, wr, k); }
    }
    OpenSame(hash, stripe, s.rows, s.rows + wr.writes, vr, s.clean);
  }

  /** What a writer commits is the merge of its whole batch into the rows of that moment. */
  lemma CommitRows(hash: HashFn, stripe: Stripe, rows: Table, wr: Writer, clean: bool)
    requires TableOk(rows) && WriterOk(stripe, wr) && OpenOk(hash, rows, wr, clean) && wr.phase == Open && wr.todo == {}
    ensures rows + wr.writes == Stored(hash, rows, wr.facts)
    ensures TableOk(rows + wr.writes)
    ensures clean ==> rows + wr.writes == MergeAll(rows, wr.batch)
  {
    BatchIsJoin(rows, wr.batch);
    StoredOk(hash, rows, wr.facts);
    CommitIsStored(hash, stripe, rows, wr, clean);
    if clean {
      assert NoCollision(hash, rows, wr.facts) by {
        forall k | k in rows && k in wr.facts && hash(Join(rows[k], wr.facts[k])) == hash(rows[k])
          ensures Join(rows[k], wr.facts[k]) == rows[k] {
          assert RowDecided(hash, rows, wr, clean, k);
        }
      }
      StoredIsJoin(hash, rows, wr.facts);
    }
  }

  lemma CommitIsStored(hash: HashFn, stripe: Stripe, rows: Table, wr: Writer, clean: bool)
    requires WriterOk(stripe, wr) && OpenOk(hash, rows, wr, clean) && wr.phase == Open && wr.todo == {}
    ensures rows + wr.writes == Stored(hash, rows, wr.facts)
  {
    var now := Stored(hash, rows, wr.facts);
    forall k | k in now ensures k in rows + wr.writes && (rows + wr.writes)[k] == now[k] {
      if k in wr.facts { assert RowDecided(hash, rows, wr, clean, k); }
    }
    assert (rows + wr.writes).Keys == now.Keys;
  }

  // ---- every step keeps the invariant ----

  lemma CleanWeakens(hash: HashFn, rows: Table, wr: Writer, clean: bool, less: bool)
    requires OpenOk(hash, rows, wr, clean) && (less ==> clean)
    ensures OpenOk(hash, rows, wr, less)
  {
    if wr.phase == Open {
      forall k | k in wr.facts && k !in wr.todo ensures RowDecided(hash, rows, wr, less, k) {
        assert RowDecided(hash, rows, wr, clean, k);
      }
    }
  }

  /** No other writer holds a stripe that wr holds. */
  ghost predicate Alone(writers: map<nat, Writer>, w: nat, wr: Writer) {
    wr.got <= |wr.need| && forall v, s: nat :: v in writers && v != w && writers[v].got <= |writers[v].need| ==>
        !(Holds(writers[v], s) && Holds(wr, s))
  }

  lemma StillApart(writers: map<nat, Writer>, w: nat, wr: Writer)
    requires Alone(writers, w, wr) && forall u, v :: u in writers && v in writers && u != v ==> Apart(writers, u, v)
    ensures var now := writers[w := wr]; forall u, v :: u in now && v in now && u != v ==> Apart(now, u, v)
  {
    var now := writers[w := wr];
    forall u, v | u in now && v in now && u != v ensures Apart(now, u, v) {
      if u != w && v != w { assert Apart(writers, u, v); }
    }
  }

  lemma ReplaceKeeps(hash: HashFn, stripe: Stripe, s: World, w: nat, wr: Writer, clean: bool)
    requires Inv(hash, stripe, s) && WriterOk(stripe, wr) && OpenOk(hash, s.rows, wr, clean) && (clean ==> s.clean)
    requires Alone(s.writers, w, wr) && wr.phase != Committed && (w in s.writers ==> s.writers[w].phase != Committed)
    ensures Inv(hash, stripe, s.(writers := s.writers[w := wr], clean := clean))
  {
    var t := s.(writers := s.writers[w := wr], clean := clean);
    forall v | v in t.writers ensures WriterOk(stripe, t.writers[v]) && OpenOk(hash, t.rows, t.writers[v], t.clean) {
      if v != w { CleanWeakens(hash, s.rows, s.writers[v], s.clean, clean); }
    }
    StillApart(s.writers, w, wr);
    forall n ensures TreeOk(hash, t, n) { assert TreeOk(hash, s, n); OwedSame(hash, s, w, wr, clean, n); }
  }

  lemma AloneSame(hash: HashFn, stripe: Stripe, s: World, w: nat, wr: Writer)
    requires Inv(hash, stripe, s) && w in s.writers && wr.need == s.writers[w].need && wr.got == s.writers[w].got
    ensures Alone(s.writers, w, wr)
  {
    assert WriterOk(stripe, s.writers[w]);
    forall v, x: nat | v in s.writers && v != w && s.writers[v].got <= |s.writers[v].need|
      ensures !(Holds(s.writers[v], x) && Holds(wr, x)) {
      assert Apart(s.writers, v, w);
    }
  }

  lemma AcquireKeeps(hash: HashFn, stripe: Stripe, s: World, w: nat)
    requires Inv(hash, stripe, s) && Enabled(stripe, s, Acquire(w))
    ensures Inv(hash, stripe, After(hash, stripe, s, Acquire(w)))
  {
    var wr := s.writers[w];
    var next := wr.(got := wr.got + 1);
    assert WriterOk(stripe, wr) && OpenOk(hash, s.rows, wr, s.clean);
    assert next.need[..next.got] == wr.need[..wr.got] + [wr.need[wr.got]];
    AloneSame(hash, stripe, s, w, wr);
    assert OpenOk(hash, s.rows, next, s.clean);
    ReplaceKeeps(hash, stripe, s, w, next, s.clean);
  }

  lemma BeginKeeps(hash: HashFn, stripe: Stripe, s: World, w: nat, batch: seq<Attestation>, need: seq<nat>)
    requires Inv(hash, stripe, s) && Enabled(stripe, s, Begin(w, batch, need))
    ensures Inv(hash, stripe, After(hash, stripe, s, Begin(w, batch, need)))
  {
    var f := MergeAll(map[], batch);
    var wr := Writer(batch, f, need, 0, f.Keys, map[], [], Open);
    forall n
      ensures XorAll(n, wr.delta) == Xor(NodeOf(n, Picked(HashesOf(hash, s.rows), wr.writes.Keys)),
      NodeOf(n, HashesOf(hash, wr.writes))) {
      assert Masked(n, Picked(HashesOf(hash, s.rows), wr.writes.Keys)) == map[]
        && Masked(n, HashesOf(hash, wr.writes)) == map[];
      XorCancels(ZERO);
    }
    ReplaceKeeps(hash, stripe, s, w, wr, s.clean);
  }

  lemma ReadStepKeeps(hash: HashFn, stripe: Stripe, s: World, w: nat, k: PathKey)
    requires Inv(hash, stripe, s) && Enabled(stripe, s, Read(w, k))
    ensures Inv(hash, stripe, After(hash, stripe, s, Read(w, k)))
  {
    var wr := s.writers[w];
    ReadKeeps(hash, stripe, s.rows, wr, s.clean, k);
    AloneSame(hash, stripe, s, w, ReadRow(hash, s.rows, wr, k));
    ReplaceKeeps(hash, stripe, s, w, ReadRow(hash, s.rows, wr, k), s.clean && !Collides(hash, s.rows, k, wr.facts[k]));
  }

  lemma CommitKeeps(hash: HashFn, stripe: Stripe, s: World, w: nat)
    requires Inv(hash, stripe, s) && Enabled(stripe, s, Commit(w))
    ensures Inv(hash, stripe, After(hash, stripe, s, Commit(w)))
  {
    var wr := s.writers[w];
    var t := After(hash, stripe, s, Commit(w));
    assert WriterOk(stripe, wr) && OpenOk(hash, s.rows, wr, s.clean);
    CommitRows(hash, stripe, s.rows, wr, s.clean);
    forall v | v in t.writers ensures WriterOk(stripe, t.writers[v]) && OpenOk(hash, t.rows, t.writers[v], t.clean) {
      if v != w { CommitSpares(hash, stripe, s, w, v); }
    }
    AloneSame(hash, stripe, s, w, wr.(phase := Committed));
    StillApart(s.writers, w, wr.(phase := Committed));
    forall n ensures TreeOk(hash, t, n) { assert TreeOk(hash, s, n); CommitTree(hash, s, w, n, t.log, t.saved); }
    if s.clean { MergeAllAppend(map[], s.log, wr.batch); }
  }

  lemma FoldKeeps(hash: HashFn, stripe: Stripe, s: World, w: nat)
    requires Inv(hash, stripe, s) && Enabled(stripe, s, Fold(w))
    ensures Inv(hash, stripe, After(hash, stripe, s, Fold(w)))
  {
    var wr := s.writers[w];
    var t := After(hash, stripe, s, Fold(w));
    assert WriterOk(stripe, wr);
    AloneSame(hash, stripe, s, w, wr.(phase := Folded));
    StillApart(s.writers, w, wr.(phase := Folded));
    forall n ensures TreeOk(hash, t, n) { assert TreeOk(hash, s, n); FoldTree(hash, s, w, n, t.tree); }
  }

  lemma LeaveKeeps(hash: HashFn, stripe: Stripe, s: World, w: nat)
    requires Inv(hash, stripe, s) && w in s.writers && s.writers[w].phase != Committed
    ensures Inv(hash, stripe, s.(writers := s.writers - {w}))
  {
    var t := s.(writers := s.writers - {w});
    forall u, v | u in t.writers && v in t.writers && u != v ensures Apart(t.writers, u, v) {
      assert Apart(s.writers, u, v);
    }
    forall n ensures TreeOk(hash, t, n) { assert TreeOk(hash, s, n); ReleaseTree(hash, s, w, n); }
  }

  lemma RestartKeeps(hash: HashFn, stripe: Stripe, s: World, kept: nat)
    requires Inv(hash, stripe, s) && kept < |s.saved|
    ensures Inv(hash, stripe, After(hash, stripe, s, Restart(kept)))
  {
    var t := After(hash, stripe, s, Restart(kept));
    assert SavedOk(s.saved[kept], s.clean);
    forall n ensures TreeOk(hash, t, n) {
      assert Owed(n, t.writers) == map[];
      XorCancels(t.tree(n));
    }
  }

  lemma StepKeepsInv(hash: HashFn, stripe: Stripe, s: World, step: Step)
    requires Inv(hash, stripe, s) && Enabled(stripe, s, step)
    ensures Inv(hash, stripe, After(hash, stripe, s, step))
  {
    match step
    case Begin(w, batch, need) => BeginKeeps(hash, stripe, s, w, batch, need);
    case Acquire(w) => AcquireKeeps(hash, stripe, s, w);
    case Read(w, k) => ReadStepKeeps(hash, stripe, s, w, k);
    case Commit(w) => CommitKeeps(hash, stripe, s, w);
    case Fold(w) => FoldKeeps(hash, stripe, s, w);
    case Release(w) => LeaveKeeps(hash, stripe, s, w);
    case Abandon(w) => LeaveKeeps(hash, stripe, s, w);
    case Restart(kept) => RestartKeeps(hash, stripe, s, kept);
  }

  // ---- every run ----

  ghost function Fresh(hash: HashFn): World { World(map[], (n: Node) => ZERO, map[], [], true, [Saved(map[], [])]) }

  ghost predicate Run(hash: HashFn, stripe: Stripe, states: seq<World>, steps: seq<Step>) {
    && |states| == |steps| + 1 && states[0] == Fresh(hash)
    && forall i :: 0 <= i < |steps| ==>
         Enabled(stripe, states[i], steps[i]) && states[i + 1] == After(hash, stripe, states[i], steps[i])
  }

  lemma {:induction false} RunKeepsInv(hash: HashFn, stripe: Stripe, states: seq<World>, steps: seq<Step>, i: nat)
    requires Run(hash, stripe, states, steps) && i < |states|
    ensures Inv(hash, stripe, states[i])
    decreases i
  {
    if i == 0 {
      var s := states[0];
      forall n ensures TreeOk(hash, s, n) {
        assert Owed(n, s.writers) == map[] && Masked(n, HashesOf(hash, s.rows)) == map[];
        XorCancels(ZERO);
      }
    } else {
      RunKeepsInv(hash, stripe, states, steps, i - 1);
      StepKeepsInv(hash, stripe, states[i - 1], steps[i - 1]);
    }
  }

  /** In every interleaving, at every node: the tree, XOR the deltas that committed writers
      have yet to fold, is the XOR of the stored hashes under it. When no commit is waiting to
      be folded, the tree is what a rebuild would compute. */
  lemma TreeFollowsRows(hash: HashFn, stripe: Stripe, states: seq<World>, steps: seq<Step>, i: nat, n: Node)
    requires Run(hash, stripe, states, steps) && i < |states|
    ensures Xor(states[i].tree(n), XorSum(Owed(n, states[i].writers))) == NodeOf(n, HashesOf(hash, states[i].rows))
    ensures (forall w :: w in states[i].writers ==> states[i].writers[w].phase != Committed) ==>
              states[i].tree(n) == NodeOf(n, HashesOf(hash, states[i].rows))
  {
    RunKeepsInv(hash, stripe, states, steps, i);
    assert TreeOk(hash, states[i], n);
    if forall w :: w in states[i].writers ==> states[i].writers[w].phase != Committed { QuietTree(hash, states[i], n); }
  }

  /** Every interleaving stores what one writer would have stored by merging all committed
      facts in commit order, as long as no changed fact kept its hash. */
  lemma MergesSerialize(hash: HashFn, stripe: Stripe, states: seq<World>, steps: seq<Step>, i: nat)
    requires Run(hash, stripe, states, steps) && i < |states| && states[i].clean
    ensures TableOk(states[i].rows) && states[i].rows == MergeAll(map[], states[i].log)
  {
    RunKeepsInv(hash, stripe, states, steps, i);
  }

  /** Two stores that committed the same facts, whatever the batches and the interleavings,
      hold the same rows and, once folded, the same tree. */
  lemma SameFactsSameTree(hash: HashFn, stripe: Stripe, a: seq<World>, sa: seq<Step>, i: nat, b: seq<World>,
                          sb: seq<Step>, j: nat, n: Node)
    requires Run(hash, stripe, a, sa) && i < |a| && a[i].clean && Run(hash, stripe, b, sb) && j < |b| && b[j].clean
    requires Elems(a[i].log) == Elems(b[j].log) && a[i].writers == map[] && b[j].writers == map[]
    ensures a[i].rows == b[j].rows && a[i].tree(n) == b[j].tree(n)
  {
    MergesSerialize(hash, stripe, a, sa, i);
    MergesSerialize(hash, stripe, b, sb, j);
    SameFactsSameTable(map[], a[i].log, b[j].log);
    TreeFollowsRows(hash, stripe, a, sa, i, n);
    TreeFollowsRows(hash, stripe, b, sb, j, n);
  }

  // ---- when no hash collides ----

  /** Facts that contain the merge of any two of one identity, and whose hashes are distinct. */
  ghost predicate Sealed(hash: HashFn, u: set<Attestation>) {
    && (forall a :: a in u ==> Canonical(a))
    && (forall a, b :: a in u && b in u && KeyOf(a) == KeyOf(b) ==> Join(a, b) in u)
    && (forall a, b :: a in u && b in u && hash(a) == hash(b) ==> a == b)
  }

  ghost predicate Within(u: set<Attestation>, t: Table) { forall k :: k in t ==> t[k] in u }

  ghost predicate Drawn(u: set<Attestation>, batch: seq<Attestation>) {
    forall a :: a in batch && Usable(a) ==> Canonicalize(a) in u
  }

  ghost predicate AllWithin(u: set<Attestation>, s: World) {
    && s.clean && Within(u, s.rows)
    && (forall w :: w in s.writers ==> Within(u, s.writers[w].facts) && Within(u, s.writers[w].writes))
    && (forall i :: 0 <= i < |s.saved| ==> Within(u, s.saved[i].rows))
  }

  lemma {:induction false} BatchWithin(hash: HashFn, u: set<Attestation>, batch: seq<Attestation>)
    requires Sealed(hash, u) && Drawn(u, batch)
    ensures TableOk(MergeAll(map[], batch)) && Within(u, MergeAll(map[], batch))
    decreases |batch|
  {
    MergeAllLub(map[], batch);
    if batch != [] {
      var init, a := batch[..|batch| - 1], batch[|batch| - 1];
      assert batch == init + [a];
      BatchWithin(hash, u, init);
      var t := MergeAll(map[], init);
      if Usable(a) && KeyOf(a) in t { JoinCanonicalized(t[KeyOf(a)], a); }
    }
  }

  lemma ReadWithin(hash: HashFn, u: set<Attestation>, rows: Table, wr: Writer, k: PathKey)
    requires Sealed(hash, u) && TableOk(rows) && Within(u, rows) && k in wr.facts
    requires Within(u, wr.facts) && Within(u, wr.writes) && KeyOf(wr.facts[k]) == k
    ensures Within(u, ReadRow(hash, rows, wr, k).writes) && !Collides(hash, rows, k, wr.facts[k])
  {
    if k in rows { assert Join(rows[k], wr.facts[k]) in u; }
  }

  lemma ReadStepWithin(hash: HashFn, stripe: Stripe, u: set<Attestation>, s: World, w: nat, k: PathKey)
    requires Inv(hash, stripe, s) && Enabled(stripe, s, Read(w, k)) && Sealed(hash, u) && AllWithin(u, s)
    ensures AllWithin(u, After(hash, stripe, s, Read(w, k)))
  {
    MergeAllLub(map[], s.writers[w].batch);
    assert WriterOk(stripe, s.writers[w]);
    ReadWithin(hash, u, s.rows, s.writers[w], k);
  }

  lemma StepWithin(hash: HashFn, stripe: Stripe, u: set<Attestation>, s: World, step: Step)
    requires Inv(hash, stripe, s) && Enabled(stripe, s, step) && Sealed(hash, u) && AllWithin(u, s)
    requires step.Begin? ==> Drawn(u, step.batch)
    ensures AllWithin(u, After(hash, stripe, s, step))
  {
    if step.Begin? { BatchWithin(hash, u, step.batch); }
    if step.Read? { ReadStepWithin(hash, stripe, u, s, step.w, step.k); }
  }

  /** A hash that is injective on the facts in play, merges included, keeps every run clean. */
  lemma {:induction false} InjectiveHashStaysClean(hash: HashFn, stripe: Stripe, states: seq<World>, steps: seq<Step>,
                                                   i: nat, u: set<Attestation>)
    requires Run(hash, stripe, states, steps) && i < |states| && Sealed(hash, u)
    requires forall j :: 0 <= j < |steps| && steps[j].Begin? ==> Drawn(u, steps[j].batch)
    ensures AllWithin(u, states[i]) && states[i].clean
    decreases i
  {
    if i > 0 {
      InjectiveHashStaysClean(hash, stripe, states, steps, i - 1, u);
      RunKeepsInv(hash, stripe, states, steps, i - 1);
      StepWithin(hash, stripe, u, states[i - 1], steps[i - 1]);
    }
  }

  // ---- no deadlock ----

  /** A step of writer w itself. */
  ghost predicate CanMove(stripe: Stripe, s: World, w: nat) {
    Enabled(stripe, s, Acquire(w)) || Enabled(stripe, s, Commit(w)) || Enabled(stripe, s, Fold(w))
      || Enabled(stripe, s, Release(w))
    || exists k :: Enabled(stripe, s, Read(w, k))
  }

  /** Stripes are taken in ascending order, so whoever waits for the highest stripe is not
      kept waiting: some writer can always move. */
  lemma NoDeadlock(hash: HashFn, stripe: Stripe, s: World) returns (w: nat)
    requires Inv(hash, stripe, s) && s.writers != map[]
    ensures w in s.writers && CanMove(stripe, s, w)
  {
    if v :| v in s.writers && s.writers[v].got == |s.writers[v].need| {
      w := v;
      LockedMoves(hash, stripe, s, w);
    } else {
      w := Highest(s.writers);
      HighestIsFree(hash, stripe, s, w);
    }
  }

  lemma Highest(writers: map<nat, Writer>) returns (w: nat)
    requires writers != map[]
    ensures w in writers && forall v :: v in writers ==> Awaits(writers[v]) <= Awaits(writers[w])
  {
    var waits: set<nat> := set v | v in writers :: Awaits(writers[v]);
    var any: nat :| any in writers;
    assert Awaits(writers[any]) in waits;
    var top: nat := Greatest(waits);
    w :| w in writers && Awaits(writers[w]) == top;
    forall v: nat | v in writers ensures Awaits(writers[v]) <= top {
      var x: nat := Awaits(writers[v]);
      assert x in waits;
    }
  }

  /** The next stripe a writer needs. */
  ghost function Awaits(wr: Writer): nat { if wr.got < |wr.need| then wr.need[wr.got] else 0 }

  lemma LockedMoves(hash: HashFn, stripe: Stripe, s: World, w: nat)
    requires Inv(hash, stripe, s) && w in s.writers && s.writers[w].got == |s.writers[w].need|
    ensures CanMove(stripe, s, w)
  {
    assert WriterOk(stripe, s.writers[w]);
    if s.writers[w].phase == Open && s.writers[w].todo != {} {
      var k :| k in s.writers[w].todo;
      assert Enabled(stripe, s, Read(w, k));
    }
  }

  lemma HighestIsFree(hash: HashFn, stripe: Stripe, s: World, w: nat)
    requires Inv(hash, stripe, s) && w in s.writers && forall v :: v in s.writers ==>
               s.writers[v].got != |s.writers[v].need|
    requires forall v :: v in s.writers ==> Awaits(s.writers[v]) <= Awaits(s.writers[w])
    ensures Enabled(stripe, s, Acquire(w))
  {
    assert WriterOk(stripe, s.writers[w]);
    forall v | v in s.writers ensures !Holds(s.writers[v], Awaits(s.writers[w])) {
      var vr := s.writers[v];
      assert WriterOk(stripe, vr);
      forall x | x in vr.need[..vr.got] ensures x < Awaits(vr) {
        var i :| 0 <= i < vr.got && vr.need[i] == x;
      }
    }
  }
}
