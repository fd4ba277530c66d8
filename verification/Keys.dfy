/** Possession as it is stored (key encodings, `apply_holds`, `holdings`, `holders_of`,
    `retain_origins` in src/store/rocks.rs): two sets of byte keys that mirror one relation,
    read back by prefix scans. */
module Keys {
  import opened Common
  import opened Facts

  // ---- key encodings ----

  /** Names a key can carry. */
  predicate NameOk(o: Bytes) { 1 <= |o| <= 255 }

  function OKey(o: Bytes): Bytes
    requires NameOk(o)
  {
    [|o| as byte] + o
  }

  /** n in k big-endian bytes. */
  function Be(n: nat, k: nat): (b: Bytes)
    ensures |b| == k
  {
    if k == 0 then [] else Be(n / 256, k - 1) + [(n % 256) as byte]
  }

  function JKey(o: Bytes, no: nat): Bytes
    requires NameOk(o)
  {
    OKey(o) + Be(no, 8)
  }

  function HoldKey(o: Bytes, h: Bytes): Bytes
    requires NameOk(o)
  {
    OKey(o) + h
  }

  function HoldByKey(h: Bytes, o: Bytes): Bytes { h + o }

  /** The length in front makes names prefix-free: a scan under one origin's key meets no other
      origin's rows. */
  lemma ScanMeetsOneOrigin(o: Bytes, p: Bytes, rest: Bytes)
    requires NameOk(o) && NameOk(p)
    ensures OKey(o) <= OKey(p) + rest <==> o == p
    ensures (OKey(p) + rest)[|OKey(p)|..] == rest
  {
    var k := OKey(p) + rest;
    if OKey(o) <= k {
      assert k[0] == OKey(o)[0] == |o| as byte && k[0] == |p| as byte;
      assert k[1..1 + |o|] == OKey(o)[1..1 + |o|] == o && k[1..1 + |p|] == p;
    }
  }

  lemma {:induction false} BeOrders(a: nat, b: nat, k: nat)
    requires a < Pow256(k) && b < Pow256(k)
    ensures Before(Be(a, k), Be(b, k)) <==> a < b
    ensures Be(a, k) == Be(b, k) <==> a == b
    decreases k
  {
    if k > 0 {
      BeOrders(a / 256, b / 256, k - 1);
      SnocOrder(Be(a / 256, k - 1), (a % 256) as byte, Be(b / 256, k - 1), (b % 256) as byte);
    }
  }

  /** Appending one byte to strings of equal length: it decides when they are equal. */
  lemma {:induction false} SnocOrder(a: Bytes, x: byte, b: Bytes, y: byte)
    requires |a| == |b|
    ensures Before(a + [x], b + [y]) <==> Before(a, b) || (a == b && x < y)
    ensures a + [x] == b + [y] <==> a == b && x == y
    decreases |a|
  {
    if a == [] {
      assert [] + [x] == [x] && [] + [y] == [y];
      assert [x][1..] == [] && [y][1..] == [];
    } else {
      assert (a + [x])[1..] == a[1..] + [x] && (b + [y])[1..] == b[1..] + [y];
      SnocOrder(a[1..], x, b[1..], y);
      assert a == [a[0]] + a[1..] && b == [b[0]] + b[1..];
    }
    if a + [x] == b + [y] {
      assert (a + [x])[..|a|] == a && (b + [y])[..|b|] == b && (a + [x])[|a|] == x && (b + [y])[|b|] == y;
    }
  }

  lemma {:induction false} SamePrefixOrder(p: Bytes, a: Bytes, b: Bytes)
    ensures Before(p + a, p + b) <==> Before(a, b)
    decreases |p|
  {
    if p == [] {
      assert p + a == a && p + b == b;
    } else {
      assert (p + a)[1..] == p[1..] + a && (p + b)[1..] == p[1..] + b;
      SamePrefixOrder(p[1..], a, b);
    }
  }

  /** One origin's journal rows lie in numeric order. */
  lemma JournalInOrder(o: Bytes, a: nat, b: nat)
    requires NameOk(o) && a < Pow256(8) && b < Pow256(8)
    ensures Before(JKey(o, a), JKey(o, b)) <==> a < b
  {
    BeOrders(a, b, 8);
    SamePrefixOrder(OKey(o), Be(a, 8), Be(b, 8));
  }

  // ---- the relation and its two images ----

  datatype Held = Held(origin: Bytes, hash: Bytes)

  predicate HeldOk(x: Held) { NameOk(x.origin) && |x.hash| == 32 }

  ghost predicate Mirrors(rel: set<Held>, hold: set<Bytes>, holdby: set<Bytes>) {
    && (forall x :: x in rel ==> HeldOk(x))
    && hold == (set x | x in rel && HeldOk(x) :: HoldKey(x.origin, x.hash))
    && holdby == (set x | x in rel && HeldOk(x) :: HoldByKey(x.hash, x.origin))
  }

  lemma KeysInjective(x: Held, y: Held)
    requires HeldOk(x) && HeldOk(y)
    ensures HoldKey(x.origin, x.hash) == HoldKey(y.origin, y.hash) <==> x == y
    ensures HoldByKey(x.hash, x.origin) == HoldByKey(y.hash, y.origin) <==> x == y
  {
    ScanMeetsOneOrigin(x.origin, y.origin, y.hash);
    ScanMeetsOneOrigin(x.origin, x.origin, x.hash);
    var a, b := HoldByKey(x.hash, x.origin), HoldByKey(y.hash, y.origin);
    assert a[..32] == x.hash && a[32..] == x.origin && b[..32] == y.hash && b[32..] == y.origin;
  }

  lemma PutMirrors(rel: set<Held>, hold: set<Bytes>, holdby: set<Bytes>, x: Held)
    requires Mirrors(rel, hold, holdby) && HeldOk(x)
    ensures Mirrors(rel + {x}, hold + {HoldKey(x.origin, x.hash)}, holdby + {HoldByKey(x.hash, x.origin)})
  {}

  lemma DeleteMirrors(rel: set<Held>, hold: set<Bytes>, holdby: set<Bytes>, x: Held)
    requires Mirrors(rel, hold, holdby) && HeldOk(x)
    ensures Mirrors(rel - {x}, hold - {HoldKey(x.origin, x.hash)}, holdby - {HoldByKey(x.hash, x.origin)})
  {
    forall y | y in rel ensures (HoldKey(y.origin, y.hash) == HoldKey(x.origin, x.hash) <==> y == x)
                                && (HoldByKey(y.hash, y.origin) == HoldByKey(x.hash, x.origin) <==> y == x) {
      KeysInjective(y, x);
    }
  }

  /** The keys under a prefix, which is what a scan visits. */
  function Scan(keys: set<Bytes>, prefix: Bytes): set<Bytes> { set k | k in keys && prefix <= k }

  /** Some key of the scan under an origin ends in h. */
  ghost predicate InHoldScan(hold: set<Bytes>, o: Bytes, h: Bytes)
    requires NameOk(o)
  {
    exists k :: k in Scan(hold, OKey(o)) && |k| >= 32 && k[|k| - 32..] == h
  }

  lemma HoldKeyEnds(o: Bytes, h: Bytes)
    requires NameOk(o) && |h| == 32
    ensures var k := HoldKey(o, h); |k| >= 32 && k[|k| - 32..] == h && OKey(o) <= k
  {}

  /** Whatever the scan meets is the origin's. */
  lemma HoldScanOnly(rel: set<Held>, hold: set<Bytes>, holdby: set<Bytes>, o: Bytes, h: Bytes)
    requires Mirrors(rel, hold, holdby) && NameOk(o) && InHoldScan(hold, o, h)
    ensures |h| == 32 && Held(o, h) in rel
  {
    var k :| k in Scan(hold, OKey(o)) && |k| >= 32 && k[|k| - 32..] == h;
    var x :| x in rel && HeldOk(x) && k == HoldKey(x.origin, x.hash);
    ScanMeetsOneOrigin(o, x.origin, x.hash);
    HoldKeyEnds(x.origin, x.hash);
  }

  /** Whatever is the origin's, the scan meets. */
  lemma HoldScanAll(rel: set<Held>, hold: set<Bytes>, holdby: set<Bytes>, o: Bytes, h: Bytes)
    requires Mirrors(rel, hold, holdby) && Held(o, h) in rel
    ensures NameOk(o) && InHoldScan(hold, o, h)
  {
    assert HeldOk(Held(o, h));
    var k := HoldKey(o, h);
    HoldKeyEnds(o, h);
    assert k in hold;
    assert k in Scan(hold, OKey(o));
  }

  lemma HoldScan(rel: set<Held>, hold: set<Bytes>, holdby: set<Bytes>, o: Bytes, h: Bytes)
    requires Mirrors(rel, hold, holdby) && NameOk(o)
    ensures InHoldScan(hold, o, h) <==> |h| == 32 && Held(o, h) in rel
  {
    if InHoldScan(hold, o, h) { HoldScanOnly(rel, hold, holdby, o, h); }
    if Held(o, h) in rel { HoldScanAll(rel, hold, holdby, o, h); }
  }

  lemma HolderScan(rel: set<Held>, hold: set<Bytes>, holdby: set<Bytes>, o: Bytes, h: Bytes)
    requires Mirrors(rel, hold, holdby) && |h| == 32
    ensures (exists k :: k in Scan(holdby, h) && |k| >= 32 && k[32..] == o) <==> Held(o, h) in rel
  {
    if k :| k in Scan(holdby, h) && |k| >= 32 && k[32..] == o {
      var x :| x in rel && HeldOk(x) && k == HoldByKey(x.hash, x.origin);
      assert k[..32] == x.hash && k[32..] == x.origin && k[..32] == h;
    }
    if Held(o, h) in rel {
      var k := HoldByKey(h, o);
      assert k in holdby && k[32..] == o && h <= k;
    }
  }

  /** The relation once the operations on the hashes in `done` were written. */
  ghost function Written(rel: set<Held>, origin: Bytes, fin: map<Bytes, bool>, done: set<Bytes>): set<Held> {
    (set x | x in rel && !(x.origin == origin && x.hash in done))
      + (set h | h in done && h in fin && fin[h] :: Held(origin, h))
  }

  lemma WrittenNext(rel: set<Held>, origin: Bytes, fin: map<Bytes, bool>, done: set<Bytes>, h: Bytes)
    requires h in fin && h !in done
    ensures var x, was := Held(origin, h), Written(rel, origin, fin, done);
            Written(rel, origin, fin, done + {h}) == if fin[h] then was + {x} else was - {x}
  {
    var x, was, now := Held(origin, h), Written(rel, origin, fin, done), Written(rel, origin, fin, done + {h});
    forall y ensures y in now <==> if fin[h] then y in was || y == x else y in was && y != x {}
  }

  /** os are exactly the holders of h. */
  ghost predicate AreHolders(rel: set<Held>, h: Bytes, os: set<Bytes>) { forall o :: o in os <==> Held(o, h) in rel }

  lemma HoldersUnique(rel: set<Held>, h: Bytes, a: set<Bytes>, b: set<Bytes>)
    requires AreHolders(rel, h, a) && AreHolders(rel, h, b)
    ensures a == b
  {
    forall o ensures o in a <==> o in b {}
  }

  class Possession {
    var hold: set<Bytes>
    var holdby: set<Bytes>
    /** Who holds what. */
    ghost var rel: set<Held>

    ghost predicate Valid()
      reads this
    {
      Mirrors(rel, hold, holdby)
    }

    constructor ()
      ensures Valid() && rel == {}
    {
      hold, holdby, rel := {}, {}, {};
    }

    /** Write the last operation per hash: both keys together. */
    method ApplyFinal(origin: Bytes, fin: map<Bytes, bool>) returns (ok: bool)
      requires Valid() && forall h :: h in fin ==> |h| == 32
      modifies this
      ensures Valid() && (ok <==> NameOk(origin) || fin == map[])
      ensures rel == if ok then Written(old(rel), origin, fin, fin.Keys) else old(rel)
    {
      ok := NameOk(origin) || fin == map[];
      if !ok {
        return;
      }
      var todo := fin.Keys;
      ghost var done: set<Bytes> := {};
      assert Written(rel, origin, fin, done) == rel;
      while todo != {}
        invariant Valid() && done + todo == fin.Keys && done * todo == {} && (NameOk(origin) || todo == {})
        invariant rel == Written(old(rel), origin, fin, done)
        decreases |todo|
      {
        var h :| h in todo;
        WrittenNext(old(rel), origin, fin, done, h);
        SetHeld(origin, h, fin[h]);
        todo, done := todo - {h}, done + {h};
      }
      assert done == fin.Keys;
    }

    method SetHeld(origin: Bytes, h: Bytes, held: bool)
      requires Valid() && NameOk(origin) && |h| == 32
      modifies this
      ensures Valid() && rel == if held then old(rel) + {Held(origin, h)} else old(rel) - {Held(origin, h)}
    {
      ghost var x := Held(origin, h);
      if held {
        PutMirrors(rel, hold, holdby, x);
        hold, holdby := hold + {HoldKey(origin, h)}, holdby + {HoldByKey(h, origin)};
        rel := rel + {x};
      } else {
        DeleteMirrors(rel, hold, holdby, x);
        hold, holdby := hold - {HoldKey(origin, h)}, holdby - {HoldByKey(h, origin)};
        rel := rel - {x};
      }
    }

    /** One origin's possession, by a prefix scan. */
    method Holdings(origin: Bytes) returns (hs: set<Bytes>)
      requires Valid() && NameOk(origin)
      ensures forall h :: h in hs <==> Held(origin, h) in rel
      ensures forall h :: h in hs ==> |h| == 32
    {
      hs := set k | k in Scan(hold, OKey(origin)) && |k| >= 32 :: k[|k| - 32..];
      forall h ensures h in hs <==> Held(origin, h) in rel {
        HoldScan(rel, hold, holdby, origin, h);
        assert h in hs <==> InHoldScan(hold, origin, h);
        if Held(origin, h) in rel { assert HeldOk(Held(origin, h)); }
      }
    }

    /** Retire a departed origin: every key it has in either set goes, and nobody else's. */
    method RetireOrigin(origin: Bytes)
      requires Valid() && NameOk(origin)
      modifies this
      ensures Valid() && rel == set x | x in old(rel) && x.origin != origin
    {
      var hs := Holdings(origin);
      while hs != {}
        invariant Valid() && forall h :: h in hs ==> |h| == 32
        invariant forall x :: x in rel <==> x in old(rel) && (x.origin == origin ==> x.hash in hs)
        decreases |hs|
      {
        var h :| h in hs;
        SetHeld(origin, h, false);
        hs := hs - {h};
      }
    }

    /** The holders of a hash but one, by a prefix scan of the other key set. */
    method HoldersOf(h: Bytes, exclude: Option<Bytes>) returns (os: set<Bytes>)
      requires Valid() && |h| == 32
      ensures forall o :: o in os <==> Held(o, h) in rel && exclude != Some(o)
    {
      os := set k | k in Scan(holdby, h) && |k| >= 32 && exclude != Some(k[32..]) :: k[32..];
      forall o ensures o in os <==> Held(o, h) in rel && exclude != Some(o) { HolderScan(rel, hold, holdby, o, h); }
    }

    /** Facts joined with their holders; a fact nobody holds is dropped. */
    method LookupAtts(rows: seq<Attestation>) returns (out: seq<(Attestation, set<Bytes>)>)
      requires Valid()
      ensures forall a, os :: (a, os) in out <==> a in rows && Usable(a) && os != {} && AreHolders(rel, a.narHash, os)
    {
      out := [];
      for i := 0 to |rows|
        invariant forall a, os :: (a, os) in out <==>
                    a in rows[..i] && Usable(a) && os != {} && AreHolders(rel, a.narHash, os)
      {
        assert rows[..i + 1] == rows[..i] + [rows[i]];
        if Usable(rows[i]) {
          var holders := HoldersOf(rows[i].narHash, None);
          forall os | AreHolders(rel, rows[i].narHash, os) ensures os == holders {
            HoldersUnique(rel, rows[i].narHash, os, holders);
          }
          if holders != {} {
            out := out + [(rows[i], holders)];
          }
        }
      }
      assert rows[..|rows|] == rows;
    }
  }
}
