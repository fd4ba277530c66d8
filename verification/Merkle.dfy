/** The Merkle aggregates (`Aggregates` in src/store/rocks.rs): a 256-ary XOR tree of fixed
    depth two over attestation hashes, maintained one hash at a time. */
module Merkle {
  type Bits = seq<bool>

  function Falses(n: nat): (b: Bits)
    ensures |b| == n && forall i :: 0 <= i < n ==> !b[i]
  {
    if n == 0 then [] else Falses(n - 1) + [false]
  }

  /** 128 bits, most significant first. */
  type Hash = h: Bits | |h| == 128 witness Falses(128)

  const ZERO: Hash := Falses(128)

  /** The first byte picks the coarse bucket, the next one the leaf in it. */
  function BlockOf(h: Hash): Bits { h[..8] }
  function SlotOf(h: Hash): Bits { h[8..16] }

  datatype Node = Root | Coarse(block: Bits) | Leaf(block: Bits, slot: Bits)

  predicate Under(n: Node, h: Hash) {
    match n
    case Root => true
    case Coarse(b) => BlockOf(h) == b
    case Leaf(b, s) => BlockOf(h) == b && SlotOf(h) == s
  }

  /** What a hash contributes to a node. */
  /** The leading bits that a node stands for. */
  function Path(n: Node): Bits {
    match n case Root => [] case Coarse(b) => b case Leaf(b, s) => b + s
  }

  /** A node covers the hashes that begin with its bits: one contiguous range of keys. */
  lemma UnderIsPrefix(n: Node, h: Hash)
    requires (n.Coarse? ==> |n.block| == 8) && (n.Leaf? ==> |n.block| == |n.slot| == 8)
    ensures Under(n, h) <==> Path(n) <= h
  {
    if n.Leaf? {
      assert h[..16] == h[..8] + h[8..16];
      if Path(n) <= h { assert h[..16] == n.block + n.slot; }
    }
  }

  function Mask(n: Node, h: Hash): Hash { if Under(n, h) then h else ZERO }

  function Xor(a: Hash, b: Hash): (c: Hash) { seq(128, i requires 0 <= i < 128 => a[i] != b[i]) }

  lemma XorCommutes(a: Hash, b: Hash)
    ensures Xor(a, b) == Xor(b, a)
  {
    forall i | 0 <= i < 128 ensures Xor(a, b)[i] == Xor(b, a)[i] {}
  }

  lemma XorAssociates(a: Hash, b: Hash, c: Hash)
    ensures Xor(Xor(a, b), c) == Xor(a, Xor(b, c))
  {
    forall i | 0 <= i < 128 ensures Xor(Xor(a, b), c)[i] == Xor(a, Xor(b, c))[i] {}
  }

  lemma XorCancels(a: Hash)
    ensures Xor(a, ZERO) == a && Xor(ZERO, a) == a && Xor(a, a) == ZERO
  {
    forall i | 0 <= i < 128 ensures Xor(a, ZERO)[i] == a[i] && Xor(ZERO, a)[i] == a[i] && Xor(a, a)[i] == ZERO[i] {}
  }

  /** (a + b) + (b + c) = a + c. */
  lemma XorMeets(a: Hash, b: Hash, c: Hash)
    ensures Xor(Xor(a, b), Xor(b, c)) == Xor(a, c)
  {
    XorAssociates(a, b, Xor(b, c));
    XorAssociates(b, b, c);
    XorCancels(b);
    XorCancels(c);
  }

  lemma XorSwap(a: Hash, b: Hash, c: Hash)
    ensures Xor(a, Xor(b, c)) == Xor(b, Xor(a, c))
  {
    XorAssociates(a, b, c);
    XorCommutes(a, b);
    XorAssociates(b, a, c);
  }

  // ---- folding lists ----

  function XorAll(n: Node, hs: seq<Hash>): Hash {
    if hs == [] then ZERO else Xor(XorAll(n, hs[..|hs| - 1]), Mask(n, hs[|hs| - 1]))
  }

  lemma {:induction false} XorAllAppend(n: Node, a: seq<Hash>, b: seq<Hash>)
    ensures XorAll(n, a + b) == Xor(XorAll(n, a), XorAll(n, b))
    decreases |b|
  {
    if b == [] {
      assert a + b == a;
      XorCancels(XorAll(n, a));
    } else {
      var init, last := b[..|b| - 1], b[|b| - 1];
      assert (a + b)[..|a + b| - 1] == a + init;
      XorAllAppend(n, a, init);
      XorAssociates(XorAll(n, a), XorAll(n, init), Mask(n, last));
    }
  }

  // ---- summing maps ----

  /** The XOR of a map's values: order does not matter. */
  ghost function XorSum<K(!new)>(m: map<K, Hash>): Hash
    decreases |m.Keys|
  {
    if m.Keys == {} then ZERO else
    var k :| k in m.Keys;
    Smaller(m, k);
    Xor(m[k], XorSum(m - {k}))
  }

  lemma Smaller<K, V>(m: map<K, V>, k: K)
    requires k in m
    ensures |(m - {k}).Keys| < |m.Keys|
  {
    assert (m - {k}).Keys == m.Keys - {k};
  }

  lemma {:induction false} XorTake<K(!new)>(m: map<K, Hash>, k: K)
    requires k in m
    ensures XorSum(m) == Xor(m[k], XorSum(m - {k}))
    decreases |m.Keys|
  {
    var j :| j in m.Keys && XorSum(m) == Xor(m[j], XorSum(m - {j}));
    if j != k {
      Smaller(m, j);
      Smaller(m, k);
      XorTake(m - {j}, k);
      XorTake(m - {k}, j);
      assert (m - {j}) - {k} == (m - {k}) - {j};
      XorSwap(m[j], m[k], XorSum((m - {j}) - {k}));
    }
  }

  function At<K>(m: map<K, Hash>, k: K): Hash { if k in m then m[k] else ZERO }

  lemma XorPut<K(!new)>(m: map<K, Hash>, k: K, v: Hash)
    ensures XorSum(m[k := v]) == Xor(XorSum(m), Xor(At(m, k), v))
  {
    var m' := m[k := v];
    XorTake(m', k);
    assert m' - {k} == m - {k};
    var rest := XorSum(m - {k});
    if k in m {
      XorTake(m, k);
      XorCommutes(m[k], rest);
      XorMeets(rest, m[k], v);
    } else {
      assert m - {k} == m;
      XorCancels(v);
    }
    XorCommutes(v, rest);
  }

  lemma XorDrop<K(!new)>(m: map<K, Hash>, k: K)
    ensures XorSum(m - {k}) == Xor(XorSum(m), At(m, k))
  {
    var rest := XorSum(m - {k});
    if k in m {
      XorTake(m, k);
      XorCommutes(m[k], rest);
      XorAssociates(rest, m[k], m[k]);
      XorCancels(m[k]);
    } else {
      assert m - {k} == m;
    }
    XorCancels(rest);
  }

  // ---- what a tree over rows must say ----

  ghost function Masked<K>(n: Node, rows: map<K, Hash>): map<K, Hash> { map k | k in rows :: Mask(n, rows[k]) }

  /** The value of a node: the XOR of the hashes stored under it. */
  ghost function NodeOf<K(!new)>(n: Node, rows: map<K, Hash>): Hash { XorSum(Masked(n, rows)) }

  /** What row k contributes to a node. */
  ghost function Share<K>(n: Node, rows: map<K, Hash>, k: K): Hash { if k in rows then Mask(n, rows[k]) else ZERO }

  lemma NodePut<K(!new)>(n: Node, rows: map<K, Hash>, k: K, h: Hash)
    ensures NodeOf(n, rows[k := h]) == Xor(NodeOf(n, rows), Xor(Share(n, rows, k), Mask(n, h)))
  {
    assert Masked(n, rows[k := h]) == Masked(n, rows)[k := Mask(n, h)];
    XorPut(Masked(n, rows), k, Mask(n, h));
  }

  /** Replacing several rows at once: what they were leaves, what they become enters. */
  lemma {:induction false} NodeOverlay<K(!new)>(n: Node, rows: map<K, Hash>, more: map<K, Hash>)
    ensures NodeOf(n, rows + more) == Xor(NodeOf(n, rows), Xor(NodeOf(n, Picked(rows, more.Keys)), NodeOf(n, more)))
    decreases |more.Keys|
  {
    if more.Keys == {} {
      assert rows + more == rows && Picked(rows, more.Keys) == map[] && more == map[];
      assert Masked(n, more) == map[];
      XorCancels(ZERO);
      XorCancels(NodeOf(n, rows));
    } else {
      var k :| k in more.Keys;
      var less := more - {k};
      Smaller(more, k);
      NodeOverlay(n, rows, less);
      OverlayStep(n, rows, less, k, more[k]);
      assert more == less[k := more[k]];
    }
  }

  lemma OverlayStep<K(!new)>(n: Node, rows: map<K, Hash>, less: map<K, Hash>, k: K, h: Hash)
    requires k !in less
    requires NodeOf(n, rows + less) == Xor(NodeOf(n, rows), Xor(NodeOf(n, Picked(rows, less.Keys)), NodeOf(n, less)))
    ensures var more := less[k := h];
            NodeOf(n, rows + more) == Xor(NodeOf(n, rows), Xor(NodeOf(n, Picked(rows, more.Keys)), NodeOf(n, more)))
  {
    OverlayParts(n, rows, less, k, h);
    Shuffle(NodeOf(n, rows), NodeOf(n, Picked(rows, less.Keys)), NodeOf(n, less), Share(n, rows, k), Mask(n, h));
  }

  lemma OverlayParts<K(!new)>(n: Node, rows: map<K, Hash>, less: map<K, Hash>, k: K, h: Hash)
    requires k !in less
    ensures NodeOf(n, rows + less[k := h]) == Xor(NodeOf(n, rows + less), Xor(Share(n, rows, k), Mask(n, h)))
    ensures NodeOf(n, less[k := h]) == Xor(NodeOf(n, less), Mask(n, h))
    ensures NodeOf(n, Picked(rows, less[k := h].Keys)) == Xor(NodeOf(n, Picked(rows, less.Keys)), Share(n, rows, k))
  {
    assert rows + less[k := h] == (rows + less)[k := h];
    NodePut(n, rows + less, k, h);
    NodePut(n, less, k, h);
    XorCancels(Mask(n, h));
    assert less[k := h].Keys == less.Keys + {k};
    PickOne(n, rows, less.Keys, k);
  }

  ghost function Picked<K>(rows: map<K, Hash>, ks: set<K>): map<K, Hash> { map k | k in rows && k in ks :: rows[k] }

  lemma PickOne<K(!new)>(n: Node, rows: map<K, Hash>, ks: set<K>, k: K)
    requires k !in ks
    ensures NodeOf(n, Picked(rows, ks + {k})) == Xor(NodeOf(n, Picked(rows, ks)), Share(n, rows, k))
  {
    if k in rows {
      assert Picked(rows, ks + {k}) == Picked(rows, ks)[k := rows[k]];
      NodePut(n, Picked(rows, ks), k, rows[k]);
      XorCancels(Mask(n, rows[k]));
    } else {
      assert Picked(rows, ks + {k}) == Picked(rows, ks);
      XorCancels(NodeOf(n, Picked(rows, ks)));
    }
  }

  /** (r + (p + l)) + (s + m) = r + ((p + s) + (l + m)). */
  lemma Shuffle(r: Hash, p: Hash, l: Hash, s: Hash, m: Hash)
    ensures Xor(Xor(r, Xor(p, l)), Xor(s, m)) == Xor(r, Xor(Xor(p, s), Xor(l, m)))
  {
    XorAssociates(r, Xor(p, l), Xor(s, m));
    XorAssociates(p, l, Xor(s, m));
    XorSwap(l, s, m);
    XorAssociates(p, s, Xor(l, m));
  }

  // ---- the aggregates ----

  class Aggregates {
    var root: Hash
    /** A bucket that is absent reads as zero. */
    var coarse: map<Bits, Hash>
    /** A block materialises with the first hash under it. */
    var blocks: map<Bits, map<Bits, Hash>>

    ghost function Cell(n: Node): Hash
      reads this
    {
      match n
      case Root => root
      case Coarse(b) => At(coarse, b)
      case Leaf(b, s) => if b in blocks then At(blocks[b], s) else ZERO
    }

    constructor ()
      ensures forall n :: Cell(n) == ZERO
    {
      root, coarse, blocks := ZERO, map[], map[];
    }

    /** Fold one hash in or out. */
    method Fold(h: Hash)
      modifies this
      ensures forall n :: Cell(n) == Xor(old(Cell(n)), Mask(n, h))
    {
      var b, s := BlockOf(h), SlotOf(h);
      var cells := if b in blocks then blocks[b] else map[];
      blocks := blocks[b := cells[s := Xor(At(cells, s), h)]];
      coarse := coarse[b := Xor(At(coarse, b), h)];
      root := Xor(root, h);
      forall n ensures Cell(n) == Xor(old(Cell(n)), Mask(n, h)) { XorCancels(old(Cell(n))); }
    }

    method FoldAll(delta: seq<Hash>)
      modifies this
      ensures forall n :: Cell(n) == Xor(old(Cell(n)), XorAll(n, delta))
    {
      forall n ensures Cell(n) == Xor(Cell(n), XorAll(n, [])) { XorCancels(Cell(n)); }
      for i := 0 to |delta|
        invariant forall n :: Cell(n) == Xor(old(Cell(n)), XorAll(n, delta[..i]))
      {
        assert delta[..i + 1][..i] == delta[..i];
        forall n
          ensures Xor(Xor(old(Cell(n)), XorAll(n, delta[..i])), Mask(n, delta[i]))
          == Xor(old(Cell(n)), XorAll(n, delta[..i + 1])) {
          XorAssociates(old(Cell(n)), XorAll(n, delta[..i]), Mask(n, delta[i]));
        }
        Fold(delta[i]);
      }
      assert delta[..|delta|] == delta;
    }

    /** Recompute every aggregate from the stored hashes. */
    method Rebuild<K(!new, ==)>(rows: map<K, Hash>)
      modifies this
      ensures forall n :: Cell(n) == NodeOf(n, rows)
    {
      root, coarse, blocks := ZERO, map[], map[];
      var todo := rows.Keys;
      assert Picked(rows, rows.Keys - todo) == map[];
      forall n ensures Cell(n) == NodeOf(n, Picked(rows, rows.Keys - todo)) {
        assert Masked(n, Picked(rows, rows.Keys - todo)) == map[];
      }
      while todo != {}
        invariant todo <= rows.Keys
        invariant forall n :: Cell(n) == NodeOf(n, Picked(rows, rows.Keys - todo))
        decreases |todo|
      {
        var k :| k in todo;
        ghost var done := rows.Keys - todo;
        assert rows.Keys - (todo - {k}) == done + {k};
        forall n ensures Xor(NodeOf(n, Picked(rows, done)), Mask(n, rows[k])) == NodeOf(n, Picked(rows, done + {k})) {
          PickOne(n, rows, done, k);
        }
        Fold(rows[k]);
        todo := todo - {k};
      }
      assert Picked(rows, rows.Keys - todo) == rows;
    }
  }
}
