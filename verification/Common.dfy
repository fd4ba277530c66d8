/** Small shared vocabulary. */
module Common {
  datatype Option<+T> = None | Some(value: T)

  newtype byte = x: int | 0 <= x < 256
  type Bytes = seq<byte>

  function Max(a: nat, b: nat): nat { if a < b then b else a }
  function Min(a: nat, b: nat): nat { if a < b then a else b }

  /** Rust's `saturating_sub`. */
  function SatSub(a: nat, b: nat): nat { if a < b then 0 else a - b }

  /** The elements of a sequence. */
  function Elems<T>(s: seq<T>): set<T> { set x | x in s }

  lemma {:induction false} SubsetSize<T>(a: set<T>, b: set<T>)
    requires a <= b
    ensures |a| <= |b| && (a != b ==> |a| < |b|)
    decreases |a|
  {
    if a == {} {
      if b != {} { var x :| x in b; assert x in b && |b| > 0; }
    } else {
      var x :| x in a;
      SubsetSize(a - {x}, b - {x});
      if a != b { assert a - {x} != b - {x} by { var y :| y in b && y !in a; assert y in b - {x}; } }
    }
  }

  /** 256 to the k, the numbers that k bytes can carry. */
  function Pow256(k: nat): nat { if k == 0 then 1 else 256 * Pow256(k - 1) }

  /** Bytewise order, a prefix first. */
  predicate Before(a: Bytes, b: Bytes) {
    if b == [] then false
    else if a == [] then true
    else a[0] < b[0] || (a[0] == b[0] && Before(a[1..], b[1..]))
  }

  /** A nonempty finite set of naturals has a least element. */
  lemma LeastExists(s: set<nat>)
    requires s != {}
    ensures exists m :: m in s && forall x :: x in s ==> m <= x
  {
    var x :| x in s;
    var rest := s - {x};
    assert forall y :: y in s ==> y in rest || y == x;
    if rest == {} {
      assert x in s && forall y :: y in s ==> x <= y;
    } else {
      LeastExists(rest);
      var m :| m in rest && forall y :: y in rest ==> m <= y;
      var l := Min(m, x);
      assert l in s && forall y :: y in s ==> l <= y;
    }
  }

  function Least(s: set<nat>): (m: nat)
    requires s != {}
    ensures m in s && forall x :: x in s ==> m <= x
  {
    LeastExists(s);
    var m :| m in s && forall x :: x in s ==> m <= x;
    m
  }

  /** A nonempty finite set of naturals has a greatest element. */
  lemma GreatestExists(s: set<nat>)
    requires s != {}
    ensures exists m :: m in s && forall x :: x in s ==> x <= m
  {
    var x :| x in s;
    if s != {x} {
      GreatestExists(s - {x});
      var m :| m in s - {x} && forall y :: y in s - {x} ==> y <= m;
      var g := Max(m, x);
      forall y | y in s ensures y <= g {
        if y != x { assert y in s - {x}; }
      }
      assert g in s;
    } else {
      assert x in s && forall y :: y in s ==> y <= x;
    }
  }

  function Greatest(s: set<nat>): (m: nat)
    requires s != {}
    ensures m in s && forall x :: x in s ==> x <= m
  {
    GreatestExists(s);
    var m :| m in s && forall x :: x in s ==> x <= m;
    m
  }

  /** The bytes a source has at [off, off + len). */
  function Slice(src: nat -> byte, off: nat, len: nat): (b: Bytes)
    ensures |b| == len
  {
    seq(len, i requires 0 <= i < len => src(off + i))
  }

  lemma SliceIs(src: nat -> byte, off: nat, b: Bytes)
    ensures b == Slice(src, off, |b|) <==> forall i :: 0 <= i < |b| ==> b[i] == src(off + i)
  {
    var s := Slice(src, off, |b|);
    assert forall i :: 0 <= i < |b| ==> s[i] == src(off + i);
  }

  lemma SliceJoin(src: nat -> byte, off: nat, a: nat, b: nat)
    ensures Slice(src, off, a) + Slice(src, off + a, b) == Slice(src, off, a + b)
  {
    var s := Slice(src, off, a) + Slice(src, off + a, b);
    assert forall i :: 0 <= i < a + b ==> s[i] == src(off + i);
    SliceIs(src, off, s);
  }

  lemma PrefixGrows(a: Bytes, b: Bytes, c: Bytes)
    requires a <= b
    ensures a <= b + c
  {}

  /** Concatenation of pieces. */
  function Flat(ps: seq<Bytes>): Bytes
    decreases |ps|
  {
    if ps == [] then [] else Flat(ps[..|ps| - 1]) + ps[|ps| - 1]
  }

  lemma FlatSnoc(ps: seq<Bytes>, p: Bytes)
    ensures Flat(ps + [p]) == Flat(ps) + p
  {
    assert (ps + [p])[..|ps + [p]| - 1] == ps;
  }
}
