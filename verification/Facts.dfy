/** Attestations and their merge (src/store/mod.rs): the fact table is a grow-only map whose
    merge is a join semilattice, so the same facts give the same table whatever the order,
    the duplication and the batching in which they arrive. */
module Facts {
  import opened Common
  import opened Order

  datatype Attestation = Attestation(
    storePath: string,
    narHash: Bytes,
    narSize: nat,
    references: seq<string>,
    ca: string,
    sigs: seq<string>)

  /** The identity merges dedup on; the code concatenates the two parts. */
  datatype PathKey = PathKey(hashPart: string, narHash: Bytes)

  /** The text after the last '/'. */
  function Basename(s: string): string
    decreases |s|
  {
    if s == [] then []
    else if s[|s| - 1] == '/' then []
    else Basename(s[..|s| - 1]) + [s[|s| - 1]]
  }

  function HashPartOf(storePath: string): string {
    var b := Basename(storePath);
    if |b| < 32 then "" else b[..32]
  }

  lemma {:induction false} BasenameIs(dir: string, base: string)
    requires '/' !in base
    ensures Basename(dir + "/" + base) == base && Basename(base) == base
    decreases |base|
  {
    var s := dir + "/" + base;
    if base == [] {
      assert s[|s| - 1] == '/';
    } else {
      var init, last := base[..|base| - 1], base[|base| - 1];
      assert base == init + [last] && last in base && forall c :: c in init ==> c in base;
      assert s[..|s| - 1] == dir + "/" + init && s[|s| - 1] == last;
      BasenameIs(dir, init);
    }
  }

  /** The hash part is the first 32 characters after the last slash, if there are as many. */
  lemma HashPartMeaning(dir: string, hash: string, rest: string)
    requires '/' !in hash && '/' !in rest
    ensures |hash| == 32 ==> HashPartOf(dir + "/" + hash + rest) == hash
    ensures |hash| < 32 ==> HashPartOf(dir + "/" + hash) == ""
  {
    BasenameIs(dir, hash + rest);
    BasenameIs(dir, hash);
    assert dir + "/" + hash + rest == dir + "/" + (hash + rest);
    assert |hash| == 32 ==> (hash + rest)[..32] == hash;
  }

  function KeyOf(a: Attestation): PathKey { PathKey(HashPartOf(a.storePath), a.narHash) }

  function Canonicalize(a: Attestation): Attestation { a.(sigs := Canon(a.sigs)) }

  ghost predicate Canonical(a: Attestation) { StrictlySorted(a.sigs) }

  /** Compare everything but the identity's NAR hash and the signatures. */
  function BodyCmp(a: Attestation, b: Attestation): Cmp {
    Then(CmpString(a.storePath, b.storePath),
         Then(CmpNat(a.narSize, b.narSize),
              Then(CmpStrings(a.references, b.references), CmpString(a.ca, b.ca))))
  }

  /** `merge_into`: None means that nothing changed. */
  function MergeInto(existing: Option<Attestation>, incoming: Attestation): Option<Attestation> {
    match existing
    case None => Some(Canonicalize(incoming))
    case Some(before) =>
      var cur := before.(sigs := Canon(Canon(before.sigs) + incoming.sigs));
      var merged :=
        if BodyCmp(incoming, cur) == Greater then
          cur.(storePath := incoming.storePath, narSize := incoming.narSize,
          references := incoming.references, ca := incoming.ca)
        else cur;
      if merged != before then Some(merged) else None
  }

  /** What the table holds after `merge_into` ran against `a`. */
  function Join(a: Attestation, b: Attestation): Attestation {
    match MergeInto(Some(a), b) case Some(m) => m case None => a
  }

  ghost predicate SameBody(a: Attestation, b: Attestation) {
    a.storePath == b.storePath && a.narSize == b.narSize && a.references == b.references && a.ca == b.ca
  }

  // ---- the body order is total ----

  lemma BodyLaws(a: Attestation, b: Attestation)
    ensures BodyCmp(a, b) == Equal <==> SameBody(a, b)
    ensures BodyCmp(b, a) == Flip(BodyCmp(a, b))
  {
    StringLaws(a.storePath, b.storePath);
    StringsLaws(a.references, b.references);
    StringLaws(a.ca, b.ca);
  }

  lemma BodyTransitive(a: Attestation, b: Attestation, c: Attestation)
    requires BodyCmp(a, b) == Less && BodyCmp(b, c) == Less
    ensures BodyCmp(a, c) == Less
  {
    StringLaws(a.storePath, b.storePath); StringLaws(b.storePath, c.storePath);
    StringsLaws(a.references, b.references); StringsLaws(b.references, c.references);
    StringLaws(a.ca, b.ca); StringLaws(b.ca, c.ca);
    if CmpString(a.storePath, b.storePath) == Less && CmpString(b.storePath, c.storePath) == Less {
      StringTransitive(a.storePath, b.storePath, c.storePath);
    }
    if CmpStrings(a.references, b.references) == Less && CmpStrings(b.references, c.references) == Less {
      StringsTransitive(a.references, b.references, c.references);
    }
    if CmpString(a.ca, b.ca) == Less && CmpString(b.ca, c.ca) == Less {
      StringTransitive(a.ca, b.ca, c.ca);
    }
  }

  /** Which body wins: the later store path, then the greater size, then the later references, then
      the later content address. */
  lemma BodyMeaning(a: Attestation, b: Attestation)
    ensures BodyCmp(a, b) == Less <==>
            if a.storePath != b.storePath then Precedes(a.storePath, b.storePath)
            else if a.narSize != b.narSize then a.narSize < b.narSize
            else if a.references != b.references then ListPrecedes(a.references, b.references)
            else Precedes(a.ca, b.ca)
  {
    StringLaws(a.storePath, b.storePath);
    StringMeaning(a.storePath, b.storePath);
    StringsLaws(a.references, b.references);
    StringsMeaning(a.references, b.references);
    StringLaws(a.ca, b.ca);
    StringMeaning(a.ca, b.ca);
  }

  // ---- the join, characterised ----

  /** The merge is exactly: union of the signature sets, maximum of the bodies, canonical. */
  lemma JoinMeaning(a: Attestation, b: Attestation)
    requires Canonical(a)
    ensures Canonical(Join(a, b))
    ensures Elems(Join(a, b).sigs) == Elems(a.sigs) + Elems(b.sigs)
    ensures SameBody(Join(a, b), if BodyCmp(b, a) == Greater then b else a)
    ensures Join(a, b).narHash == a.narHash
    ensures KeyOf(a) == KeyOf(b) ==> KeyOf(Join(a, b)) == KeyOf(a)
  {
    SortedUnique(Canon(a.sigs), a.sigs);
    assert Elems(a.sigs + b.sigs) == Elems(a.sigs) + Elems(b.sigs);
  }

  lemma Determined(a: Attestation, b: Attestation)
    requires Canonical(a) && Canonical(b) && Elems(a.sigs) == Elems(b.sigs)
    requires SameBody(a, b) && a.narHash == b.narHash
    ensures a == b
  {
    SortedUnique(a.sigs, b.sigs);
  }

  /** The merge reports None exactly when the stored fact already absorbs the incoming one. */
  lemma NoneMeansAbsorbed(a: Attestation, b: Attestation)
    requires Canonical(a)
    ensures MergeInto(Some(a), b) == None <==>
            Elems(b.sigs) <= Elems(a.sigs) && BodyCmp(b, a) != Greater
    ensures MergeInto(Some(a), b) == None <==> Join(a, b) == a
  {
    JoinMeaning(a, b);
    if Elems(b.sigs) <= Elems(a.sigs) && BodyCmp(b, a) != Greater {
      assert Elems(a.sigs) + Elems(b.sigs) == Elems(a.sigs);
      Determined(Join(a, b), a);
    }
    if Join(a, b) == a {
      BodyLaws(b, a);
    }
  }

  lemma JoinCanonicalized(a: Attestation, b: Attestation)
    requires Canonical(a)
    ensures Join(a, b) == Join(a, Canonicalize(b))
  {
    JoinMeaning(a, b);
    JoinMeaning(a, Canonicalize(b));
    Determined(Join(a, b), Join(a, Canonicalize(b)));
  }

  lemma JoinIdempotent(a: Attestation)
    requires Canonical(a)
    ensures Join(a, a) == a
  {
    JoinMeaning(a, a);
    Determined(Join(a, a), a);
  }

  lemma JoinCommutative(a: Attestation, b: Attestation)
    requires Canonical(a) && Canonical(b) && KeyOf(a) == KeyOf(b)
    ensures Join(a, b) == Join(b, a)
  {
    JoinMeaning(a, b);
    JoinMeaning(b, a);
    BodyLaws(a, b);
    Determined(Join(a, b), Join(b, a));
  }

  lemma JoinAssociative(a: Attestation, b: Attestation, c: Attestation)
    requires Canonical(a) && Canonical(b) && Canonical(c)
    requires KeyOf(a) == KeyOf(b) == KeyOf(c)
    ensures Join(Join(a, b), c) == Join(a, Join(b, c))
  {
    JoinMeaning(a, b);
    JoinMeaning(b, c);
    JoinMeaning(Join(a, b), c);
    JoinMeaning(a, Join(b, c));
    BodyLaws(a, b); BodyLaws(b, c); BodyLaws(a, c);
    if BodyCmp(a, b) == Less && BodyCmp(b, c) == Less { BodyTransitive(a, b, c); }
    if BodyCmp(c, b) == Less && BodyCmp(b, a) == Less { BodyTransitive(c, b, a); }
    Determined(Join(Join(a, b), c), Join(a, Join(b, c)));
  }

  // ---- the induced order on facts and on tables ----

  ghost predicate Le(a: Attestation, b: Attestation) { Join(a, b) == b }

  lemma LeLeast(a: Attestation, b: Attestation, c: Attestation)
    requires Canonical(a) && Canonical(b) && Canonical(c)
    requires KeyOf(a) == KeyOf(b) == KeyOf(c)
    ensures Le(a, Join(a, b)) && Le(b, Join(a, b))
    ensures Le(a, c) && Le(b, c) ==> Le(Join(a, b), c)
    ensures Le(a, b) && Le(b, c) ==> Le(a, c)
    ensures Le(a, b) && Le(b, a) ==> a == b
  {
    JoinIdempotent(a); JoinIdempotent(b);
    JoinAssociative(a, a, b);
    JoinAssociative(b, b, a);
    JoinCommutative(a, b);
    JoinMeaning(a, b);
    JoinAssociative(a, b, c);
  }

  type Table = map<PathKey, Attestation>

  ghost predicate TableOk(t: Table) {
    forall k :: k in t ==> Canonical(t[k]) && KeyOf(t[k]) == k
  }

  /** The size check that merge_atts repeats as a backstop. */
  predicate Usable(a: Attestation) { |a.narHash| == 32 }

  function MergeOne(t: Table, a: Attestation): Table {
    if !Usable(a) then t
    else if KeyOf(a) in t then t[KeyOf(a) := Join(t[KeyOf(a)], a)]
    else t[KeyOf(a) := Canonicalize(a)]
  }

  function MergeAll(t: Table, s: seq<Attestation>): Table
    decreases |s|
  {
    if s == [] then t else MergeOne(MergeAll(t, s[..|s| - 1]), s[|s| - 1])
  }

  ghost predicate TableLe(t: Table, u: Table) {
    forall k :: k in t ==> k in u && Le(t[k], u[k])
  }

  /** The table already knows everything fact `a` says. */
  ghost predicate Knows(u: Table, a: Attestation) {
    Usable(a) ==> KeyOf(a) in u && Le(Canonicalize(a), u[KeyOf(a)])
  }

  lemma MergeOneUpper(t: Table, a: Attestation)
    requires TableOk(t)
    ensures TableOk(MergeOne(t, a)) && TableLe(t, MergeOne(t, a)) && Knows(MergeOne(t, a), a)
  {
    var k, c := KeyOf(a), Canonicalize(a);
    forall j | j in t ensures Le(t[j], t[j]) { JoinIdempotent(t[j]); }
    JoinIdempotent(c);
    if Usable(a) && k in t {
      JoinMeaning(t[k], a);
      JoinCanonicalized(t[k], a);
      LeLeast(t[k], c, c);
    }
  }

  lemma MergeOneLeast(t: Table, a: Attestation, u: Table)
    requires TableOk(t) && TableOk(u) && TableLe(t, u) && Knows(u, a)
    ensures TableLe(MergeOne(t, a), u)
  {
    var k, c := KeyOf(a), Canonicalize(a);
    if Usable(a) && k in t {
      JoinCanonicalized(t[k], a);
      LeLeast(t[k], c, u[k]);
    }
  }

  lemma TableLeTransitive(t: Table, u: Table, v: Table)
    requires TableOk(t) && TableOk(u) && TableOk(v) && TableLe(t, u) && TableLe(u, v)
    ensures TableLe(t, v)
  {
    forall k | k in t ensures k in v && Le(t[k], v[k]) { LeLeast(t[k], u[k], v[k]); }
  }

  lemma KnowsGrows(u: Table, v: Table, a: Attestation)
    requires TableOk(u) && TableOk(v) && TableLe(u, v) && Knows(u, a)
    ensures Knows(v, a)
  {
    if Usable(a) { LeLeast(Canonicalize(a), u[KeyOf(a)], v[KeyOf(a)]); }
  }

  /** Merging a batch yields the least table above the old one that knows every fact of it. */
  lemma {:induction false} MergeAllLub(t: Table, s: seq<Attestation>)
    requires TableOk(t)
    ensures TableOk(MergeAll(t, s)) && TableLe(t, MergeAll(t, s))
    ensures forall a :: a in s ==> Knows(MergeAll(t, s), a)
    ensures forall u :: TableOk(u) && TableLe(t, u) && (forall a :: a in s ==> Knows(u, a)) ==>
              TableLe(MergeAll(t, s), u)
    decreases |s|
  {
    if s == [] {
      forall j | j in t ensures Le(t[j], t[j]) { JoinIdempotent(t[j]); }
    } else {
      var init, last := s[..|s| - 1], s[|s| - 1];
      MergeAllLub(t, init);
      var mid := MergeAll(t, init);
      MergeOneUpper(mid, last);
      TableLeTransitive(t, mid, MergeAll(t, s));
      assert s == init + [last];
      forall a | a in s ensures Knows(MergeAll(t, s), a) {
        if a in init { KnowsGrows(mid, MergeAll(t, s), a); }
      }
      forall u | TableOk(u) && TableLe(t, u) && (forall a :: a in s ==> Knows(u, a))
        ensures TableLe(MergeAll(t, s), u)
      {
        assert forall a :: a in init ==> Knows(u, a);
        MergeOneLeast(mid, last, u);
      }
    }
  }

  lemma TableAntisymmetric(t: Table, u: Table)
    requires TableOk(t) && TableOk(u) && TableLe(t, u) && TableLe(u, t)
    ensures t == u
  {
    forall k | k in t ensures t[k] == u[k] { LeLeast(t[k], u[k], u[k]); }
    assert t.Keys == u.Keys;
  }

  /** Convergence: order, duplication and grouping of the same facts cannot be observed. */
  lemma SameFactsSameTable(t: Table, s: seq<Attestation>, r: seq<Attestation>)
    requires TableOk(t) && Elems(s) == Elems(r)
    ensures MergeAll(t, s) == MergeAll(t, r)
  {
    MergeAllLub(t, s);
    MergeAllLub(t, r);
    forall a | a in s ensures a in r { assert a in Elems(r); }
    forall a | a in r ensures a in s { assert a in Elems(s); }
    TableAntisymmetric(MergeAll(t, s), MergeAll(t, r));
  }

  lemma {:induction false} MergeAllAppend(t: Table, s: seq<Attestation>, r: seq<Attestation>)
    ensures MergeAll(t, s + r) == MergeAll(MergeAll(t, s), r)
    decreases |r|
  {
    if r == [] {
      assert s + r == s;
    } else {
      assert (s + r)[..|s + r| - 1] == s + r[..|r| - 1];
      MergeAllAppend(t, s, r[..|r| - 1]);
    }
  }

  // ---- tables joined pointwise ----

  function TableJoin(t: Table, u: Table): Table {
    map k | k in t.Keys + u.Keys ::
      if k in t && k in u then Join(t[k], u[k]) else if k in t then t[k] else u[k]
  }

  lemma TableJoinLub(t: Table, u: Table)
    requires TableOk(t) && TableOk(u)
    ensures TableOk(TableJoin(t, u)) && TableLe(t, TableJoin(t, u)) && TableLe(u, TableJoin(t, u))
    ensures forall v :: TableOk(v) && TableLe(t, v) && TableLe(u, v) ==> TableLe(TableJoin(t, u), v)
  {
    var j := TableJoin(t, u);
    forall k | k in j ensures Canonical(j[k]) && KeyOf(j[k]) == k
                              && (k in t ==> Le(t[k], j[k])) && (k in u ==> Le(u[k], j[k]))
    {
      if k in t { JoinIdempotent(t[k]); }
      if k in u { JoinIdempotent(u[k]); }
      if k in t && k in u { JoinMeaning(t[k], u[k]); LeLeast(t[k], u[k], u[k]); }
    }
    forall v | TableOk(v) && TableLe(t, v) && TableLe(u, v) ensures TableLe(j, v) {
      forall k | k in j ensures k in v && Le(j[k], v[k]) {
        if k in t && k in u { LeLeast(t[k], u[k], v[k]); }
      }
    }
  }

  /** What merging a list does at one identity depends only on that identity's own row. */
  lemma {:induction false} MergeAllLocal(t: Table, u: Table, s: seq<Attestation>, k: PathKey)
    requires k in t <==> k in u
    requires k in t ==> t[k] == u[k]
    ensures k in MergeAll(t, s) <==> k in MergeAll(u, s)
    ensures k in MergeAll(t, s) ==> MergeAll(t, s)[k] == MergeAll(u, s)[k]
    decreases |s|
  {
    if s != [] { MergeAllLocal(t, u, s[..|s| - 1], k); }
  }

  /** An identity that no merged fact names keeps its row. */
  lemma {:induction false} MergeAllUntouched(t: Table, s: seq<Attestation>, k: PathKey)
    requires forall a :: a in s && Usable(a) ==> KeyOf(a) != k
    ensures k in MergeAll(t, s) <==> k in t
    ensures k in t ==> MergeAll(t, s)[k] == t[k]
    decreases |s|
  {
    if s != [] { MergeAllUntouched(t, s[..|s| - 1], k); }
  }
}
