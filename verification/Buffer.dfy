/** The reorder buffer of a transfer (`take_prefix`, `take_span` in src/fetch.rs): disjoint
    chunks keyed by their NAR offset, split in place as the emitter consumes them. */
module Buffer {
  import opened Common

  type Buf = map<nat, Bytes>

  /** Entries are nonempty and disjoint. */
  ghost predicate Tidy(b: Buf) {
    && (forall k :: k in b ==> |b[k]| > 0)
    && (forall k, j :: k in b && j in b && k < j ==> k + |b[k]| <= j)
  }

  ghost predicate Covers(b: Buf, k: nat, x: nat) { k in b && k <= x < k + |b[k]| }

  /** The byte at offset x is buffered. */
  ghost predicate Has(b: Buf, x: nat) { exists k :: Covers(b, k, x) }

  /** Every buffered byte is the one the wire delivered for its offset. */
  ghost predicate Agrees(b: Buf, src: nat -> byte) {
    forall k, i :: k in b && 0 <= i < |b[k]| ==> b[k][i] == src(k + i)
  }

  function Below(b: Buf, pos: nat): set<nat> { set k | k in b && k <= pos }

  /** `range(..=pos).next_back()`: the last entry that starts at or before pos. */
  function FloorKey(b: Buf, pos: nat): (k: Option<nat>)
    ensures k.Some? ==> k.value in b && k.value <= pos && forall j :: j in b && j <= pos ==> j <= k.value
    ensures k.None? ==> forall j :: j in b ==> j > pos
  {
    if Below(b, pos) == {} then
      assert forall j :: j in b && j <= pos ==> j in Below(b, pos);
      None
    else
      assert forall j :: j in b && j <= pos ==> j in Below(b, pos);
      Some(Greatest(Below(b, pos)))
  }

  /** Nothing is buffered in [off, off + len). */
  ghost predicate Free(b: Buf, off: nat, len: nat) { forall x: nat :: off <= x < off + len ==> !Has(b, x) }

  /** Inserting bytes where nothing is buffered overwrites nothing and adds exactly them. */
  lemma InsertFree(b: Buf, off: nat, bytes: Bytes)
    requires Tidy(b) && bytes != [] && Free(b, off, |bytes|)
    ensures off !in b && Tidy(b[off := bytes])
    ensures forall x: nat :: Has(b[off := bytes], x) <==> Has(b, x) || off <= x < off + |bytes|
  {
    var b' := b[off := bytes];
    assert !Has(b, off);
    assert off in b ==> Covers(b, off, off);
    forall k: nat, j: nat | k in b' && j in b' && k < j ensures k + |b'[k]| <= j { InsertApart(b, off, bytes, k, j); }
    forall x: nat ensures Has(b', x) <==> Has(b, x) || off <= x < off + |bytes| { InsertHas(b, off, bytes, x); }
  }

  lemma InsertApart(b: Buf, off: nat, bytes: Bytes, k: nat, j: nat)
    requires Tidy(b) && off !in b && Free(b, off, |bytes|)
    requires bytes != [] && k in b[off := bytes] && j in b[off := bytes] && k < j
    ensures k + |b[off := bytes][k]| <= j
  {
    if k == off {
      assert Covers(b, j, j);
      assert Has(b, j);
    } else if j == off {
      assert !Has(b, off);
      assert k + |b[k]| > off ==> Covers(b, k, off);
    }
  }

  lemma InsertHas(b: Buf, off: nat, bytes: Bytes, x: nat)
    requires off !in b
    ensures Has(b[off := bytes], x) <==> Has(b, x) || off <= x < off + |bytes|
  {
    var b' := b[off := bytes];
    if Has(b, x) { var k: nat :| Covers(b, k, x); assert Covers(b', k, x); }
    if off <= x < off + |bytes| { assert Covers(b', off, x); }
    if Has(b', x) { var k: nat :| Covers(b', k, x); assert k != off ==> Covers(b, k, x); }
  }

  lemma InsertAgrees(b: Buf, src: nat -> byte, off: nat, bytes: Bytes)
    requires Agrees(b, src) && bytes == Slice(src, off, |bytes|)
    ensures Agrees(b[off := bytes], src)
  {
    SliceIs(src, off, bytes);
  }

  /** The only entry that can cover pos is the floor entry. */
  lemma FloorCovers(b: Buf, pos: nat)
    requires Tidy(b)
    ensures Has(b, pos) <==> FloorKey(b, pos).Some? && Covers(b, FloorKey(b, pos).value, pos)
  {
    if Has(b, pos) {
      var k: nat :| Covers(b, k, pos);
      assert k <= FloorKey(b, pos).value;
    }
  }

  /** Remove entry k and put back what lies outside [s, e). */
  function Carve(b: Buf, k: nat, s: nat, e: nat): Buf
    requires k in b && k <= s <= e <= k + |b[k]|
  {
    var left := if k < s then (b - {k})[k := b[k][..s - k]] else b - {k};
    if k + |b[k]| > e then left[e := b[k][e - k..]] else left
  }

  lemma CarveKeys(b: Buf, k: nat, s: nat, e: nat, j: nat)
    requires Tidy(b) && k in b && k <= s < e <= k + |b[k]|
    ensures j in Carve(b, k, s, e) <==> (j in b && j != k) || (j == k && k < s) || (j == e && k + |b[k]| > e)
    ensures j in b && j != k ==> Carve(b, k, s, e)[j] == b[j]
    ensures k < s ==> Carve(b, k, s, e)[k] == b[k][..s - k]
    ensures k + |b[k]| > e ==> Carve(b, k, s, e)[e] == b[k][e - k..]
  {
    assert e in b ==> k + |b[k]| <= e;
  }

  lemma CarveTidy(b: Buf, k: nat, s: nat, e: nat)
    requires Tidy(b) && k in b && k <= s < e <= k + |b[k]|
    ensures Tidy(Carve(b, k, s, e))
  {
    var c := Carve(b, k, s, e);
    forall j | j in c ensures |c[j]| > 0 { CarveKeys(b, k, s, e, j); }
    forall i, j | i in c && j in c && i < j ensures i + |c[i]| <= j {
      CarveKeys(b, k, s, e, i);
      CarveKeys(b, k, s, e, j);
    }
  }

  lemma CarveHas(b: Buf, k: nat, s: nat, e: nat, x: nat)
    requires Tidy(b) && k in b && k <= s < e <= k + |b[k]|
    ensures Has(Carve(b, k, s, e), x) <==> Has(b, x) && !(s <= x < e)
  {
    var c := Carve(b, k, s, e);
    if Has(c, x) {
      var j: nat :| Covers(c, j, x);
      CarveKeys(b, k, s, e, j);
      if j in b && j != k {
        assert Covers(b, j, x);
        if j < k { assert j + |b[j]| <= k; } else { assert k + |b[k]| <= j; }
      } else {
        assert Covers(b, k, x);
      }
    }
    if Has(b, x) && !(s <= x < e) {
      var j: nat :| Covers(b, j, x);
      CarveKeys(b, k, s, e, j);
      if j != k {
        assert Covers(c, j, x);
      } else if x < s {
        assert Covers(c, k, x);
      } else {
        CarveKeys(b, k, s, e, e);
        assert Covers(c, e, x);
      }
    }
  }

  lemma CarveAgrees(b: Buf, k: nat, s: nat, e: nat, src: nat -> byte)
    requires Tidy(b) && k in b && k <= s < e <= k + |b[k]| && Agrees(b, src)
    ensures Agrees(Carve(b, k, s, e), src)
    ensures b[k][s - k..e - k] == Slice(src, s, e - s)
  {
    var c := Carve(b, k, s, e);
    forall j, i | j in c && 0 <= i < |c[j]| ensures c[j][i] == src(j + i) { CarveKeys(b, k, s, e, j); }
    SliceIs(src, s, b[k][s - k..e - k]);
  }

  lemma CarveFacts(b: Buf, k: nat, s: nat, e: nat, src: nat -> byte)
    requires Tidy(b) && k in b && k <= s < e <= k + |b[k]| && Agrees(b, src)
    ensures Tidy(Carve(b, k, s, e)) && Agrees(Carve(b, k, s, e), src)
    ensures forall x: nat :: Has(Carve(b, k, s, e), x) <==> Has(b, x) && !(s <= x < e)
    ensures b[k][s - k..e - k] == Slice(src, s, e - s)
  {
    CarveTidy(b, k, s, e);
    CarveAgrees(b, k, s, e, src);
    forall x: nat ensures Has(Carve(b, k, s, e), x) <==> Has(b, x) && !(s <= x < e) { CarveHas(b, k, s, e, x); }
  }

  /** Cut out of the buffer what has arrived from pos on, at most max bytes of it: something comes
      out exactly when the byte at pos is there, and nothing else leaves the buffer. */
  method TakePrefix(b: Buf, pos: nat, max: nat, ghost src: nat -> byte) returns (b': Buf, piece: Option<Bytes>)
    requires Tidy(b) && Agrees(b, src) && max > 0
    ensures piece.Some? <==> Has(b, pos)
    ensures piece.None? ==> b' == b
    ensures piece.Some? ==> 0 < |piece.value| <= max && piece.value == Slice(src, pos, |piece.value|)
    ensures Tidy(b') && Agrees(b', src)
    ensures forall x: nat :: Has(b', x) <==> Has(b, x) && !(piece.Some? && pos <= x < pos + |piece.value|)
  {
    FloorCovers(b, pos);
    var f: Option<nat> := FloorKey(b, pos);
    if f.None? {
      return b, None;
    }
    var k: nat := f.value;
    var end := k + |b[k]|;
    if end <= pos {
      return b, None;
    }
    var take := Min(end - pos, max);
    CarveFacts(b, k, pos, pos + take, src);
    piece := Some(b[k][pos - k..pos - k + take]);
    b' := Carve(b, k, pos, pos + take);
  }

  /** `keys` is a run of touching entries that covers [off, cur). */
  ghost predicate Chain(b: Buf, keys: seq<nat>, off: nat, cur: nat) {
    && (forall i :: 0 <= i < |keys| ==> keys[i] in b)
    && (keys == [] ==> cur == off)
    && (keys != [] ==> keys[0] <= off < keys[0] + |b[keys[0]]| && cur == keys[|keys| - 1] + |b[keys[|keys| - 1]]|)
    && (forall i :: 0 <= i < |keys| - 1 ==> keys[i] + |b[keys[i]]| == keys[i + 1])
  }

  lemma {:induction false} ChainHas(b: Buf, keys: seq<nat>, off: nat, cur: nat, x: nat)
    requires Chain(b, keys, off, cur) && off <= x < cur
    ensures Has(b, x)
    decreases |keys|
  {
    var last: nat := keys[|keys| - 1];
    if x >= last {
      assert Covers(b, last, x);
    } else {
      ChainHas(b, keys[..|keys| - 1], off, last, x);
    }
  }

  /** Entries are disjoint, so what covers the end of one entry starts there. */
  lemma NextStartsThere(b: Buf, last: nat, k: nat, cur: nat)
    requires Tidy(b) && last in b && last + |b[last]| == cur && Covers(b, k, cur)
    ensures k == cur
  {}

  /** Coverage check, without touching the buffer. */
  method Find(b: Buf, off: nat, end: nat) returns (keys: Option<seq<nat>>, cur: nat)
    requires Tidy(b) && off <= end
    ensures keys.Some? <==> forall x: nat :: off <= x < end ==> Has(b, x)
    ensures keys.Some? ==> Chain(b, keys.value, off, cur) && end <= cur
                           && (keys.value != [] ==> off < end && keys.value[|keys.value| - 1] < end)
  {
    cur := off;
    var ks: seq<nat> := [];
    while cur < end
      invariant Chain(b, ks, off, cur) && off <= cur
      invariant ks != [] ==> off < end && ks[|ks| - 1] < end
      decreases end - cur
    {
      FloorCovers(b, cur);
      var f: Option<nat> := FloorKey(b, cur);
      if f.None? || f.value + |b[f.value]| <= cur {
        return None, cur;
      }
      var k: nat := f.value;
      if ks != [] { NextStartsThere(b, ks[|ks| - 1], k, cur); }
      ks := ks + [k];
      cur := k + |b[k]|;
    }
    forall x: nat | off <= x < end ensures Has(b, x) { ChainHas(b, ks, off, cur, x); }
    keys := Some(ks);
  }

  /** Where the carving of the chain has got to after i entries. */
  ghost function Done(b: Buf, keys: seq<nat>, off: nat, end: nat, i: nat): nat
    requires i <= |keys| && forall j :: 0 <= j < |keys| ==> keys[j] in b
  {
    if i == 0 then off else Min(end, keys[i - 1] + |b[keys[i - 1]]|)
  }

  /** Extract exactly [off, end) if and only if it is fully buffered. */
  method TakeSpan(b: Buf, off: nat, end: nat, ghost src: nat -> byte) returns (b': Buf, out: Option<seq<Bytes>>)
    requires Tidy(b) && Agrees(b, src) && off <= end
    ensures out.Some? <==> forall x: nat :: off <= x < end ==> Has(b, x)
    ensures out.None? ==> b' == b
    ensures out.Some? ==> Flat(out.value) == Slice(src, off, end - off) && forall i :: 0 <= i < |out.value| ==>
              |out.value[i]| > 0
    ensures Tidy(b') && Agrees(b', src)
    ensures forall x: nat :: Has(b', x) <==> Has(b, x) && !(out.Some? && off <= x < end)
  {
    b' := b;
    var found, cur := Find(b, off, end);
    if found.None? {
      return b, None;
    }
    var keys: seq<nat> := found.value;
    var pieces: seq<Bytes> := [];
    ghost var at := off;
    for i := 0 to |keys|
      invariant at == Done(b, keys, off, end, i) && off <= at <= end
      invariant Tidy(b') && Agrees(b', src)
      invariant forall j :: i <= j < |keys| ==> keys[j] in b' && b'[keys[j]] == b[keys[j]]
      invariant Flat(pieces) == Slice(src, off, at - off) && forall j :: 0 <= j < |pieces| ==> |pieces[j]| > 0
      invariant forall x: nat :: Has(b', x) <==> Has(b, x) && !(off <= x < at)
    {
      var k: nat := keys[i];
      ChainStep(b, keys, off, end, cur, i);
      var s: nat, e: nat := Max(off, k), Min(end, k + |b'[k]|);
      CarveFacts(b', k, s, e, src);
      CarveRest(b, b', keys, off, cur, i, s, e);
      PieceJoins(pieces, b'[k][s - k..e - k], src, off, s, e);
      pieces := pieces + [b'[k][s - k..e - k]];
      b' := Carve(b', k, s, e);
      at := e;
    }
    out := Some(pieces);
  }

  lemma {:induction false} ChainAscends(b: Buf, keys: seq<nat>, off: nat, cur: nat, i: nat, j: nat)
    requires Tidy(b) && Chain(b, keys, off, cur) && i < j < |keys|
    ensures keys[i] < keys[j]
    decreases j
  {
    assert keys[j - 1] + |b[keys[j - 1]]| == keys[j];
    if i < j - 1 { ChainAscends(b, keys, off, cur, i, j - 1); }
  }

  lemma PieceJoins(pieces: seq<Bytes>, piece: Bytes, src: nat -> byte, off: nat, s: nat, e: nat)
    requires off <= s <= e && Flat(pieces) == Slice(src, off, s - off) && piece == Slice(src, s, e - s)
    ensures Flat(pieces + [piece]) == Slice(src, off, e - off)
  {
    FlatSnoc(pieces, piece);
    SliceJoin(src, off, s - off, e - s);
    assert off + (s - off) == s;
  }

  lemma CarveRest(b: Buf, now: Buf, keys: seq<nat>, off: nat, cur: nat, i: nat, s: nat, e: nat)
    requires Tidy(b) && Tidy(now) && Chain(b, keys, off, cur) && i < |keys|
    requires forall j :: i <= j < |keys| ==> keys[j] in now && now[keys[j]] == b[keys[j]]
    requires keys[i] <= s < e <= keys[i] + |now[keys[i]]|
    ensures forall j :: i < j < |keys| ==>
              keys[j] in Carve(now, keys[i], s, e) && Carve(now, keys[i], s, e)[keys[j]] == b[keys[j]]
  {
    forall j | i < j < |keys|
      ensures keys[j] in Carve(now, keys[i], s, e) && Carve(now, keys[i], s, e)[keys[j]] == b[keys[j]] {
      ChainAscends(b, keys, off, cur, i, j);
      CarveKeys(now, keys[i], s, e, keys[j]);
    }
  }

  /** The next entry of the chain starts where the carving stands and reaches further. */
  lemma ChainStep(b: Buf, keys: seq<nat>, off: nat, end: nat, cur: nat, i: nat)
    requires Tidy(b) && Chain(b, keys, off, cur) && off < end <= cur && i < |keys| && keys[|keys| - 1] < end
    ensures var k: nat := keys[i];
            && Max(off, k) == Done(b, keys, off, end, i)
            && k <= Max(off, k) < Min(end, k + |b[k]|)
  {
    var k: nat := keys[i];
    if i < |keys| - 1 { ChainAscends(b, keys, off, cur, i, |keys| - 1); }
    if i > 0 {
      ChainAscends(b, keys, off, cur, 0, i);
      assert keys[0] + |b[keys[0]]| <= k;
      assert keys[i - 1] + |b[keys[i - 1]]| == k;
    }
  }
}
