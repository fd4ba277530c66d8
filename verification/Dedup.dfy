/** The static retention planner (src/dedup.rs): decide, before any byte moves, which repeated
    segments are fetched once and replayed from memory under a byte budget. */
module Dedup {
  datatype Step = Fetch(unique: nat, retainFor: nat) | Cached(unique: nat)

  // ---- what executing a plan keeps in memory ----

  /** unique id to the number of replays still owed, after the first `p` steps ran. */
  function Held(steps: seq<Step>, p: nat): map<nat, nat>
    requires p <= |steps|
  {
    if p == 0 then map[] else
    var h := Held(steps, p - 1);
    match steps[p - 1]
    case Fetch(u, r) => if r > 0 then h[u := r] else h
    case Cached(u) => if u !in h then h else if h[u] <= 1 then h - {u} else h[u := h[u] - 1]
  }

  /** The bytes of the retained segments among the first `q` steps that `held` still names. */
  function HeldBytes(steps: seq<Step>, sizes: seq<nat>, held: map<nat, nat>, q: nat): nat
    requires q <= |steps| && q <= |sizes|
  {
    if q == 0 then 0 else
    HeldBytes(steps, sizes, held, q - 1)
    + (if steps[q - 1].Fetch? && steps[q - 1].retainFor > 0 && steps[q - 1].unique in held then sizes[q - 1] else 0)
  }

  function BytesAt(steps: seq<Step>, sizes: seq<nat>, p: nat): nat
    requires p <= |steps| && p <= |sizes|
  {
    HeldBytes(steps, sizes, Held(steps, p), p)
  }

  /** Occurrences of `x` in s[p..]. */
  function Later<T(==)>(s: seq<T>, x: T, p: nat): nat
    requires p <= |s|
    decreases |s| - p
  {
    if p == |s| then 0 else (if s[p] == x then 1 else 0) + Later(s, x, p + 1)
  }

  predicate First<T(==)>(s: seq<T>, p: nat)
    requires p < |s|
  {
    forall q :: 0 <= q < p ==> s[q] != s[p]
  }

  // ---- what a plan must satisfy ----

  /** Ids stand for keys. */
  ghost predicate IdsAreKeys<K>(keys: seq<K>, steps: seq<Step>) {
    && |steps| == |keys|
    && forall p, q :: 0 <= p < |steps| && 0 <= q < |steps| ==>
         (steps[p].unique == steps[q].unique <==> keys[p] == keys[q])
  }

  /** The decision for occurrence `q` of the key first seen at `f`: all or nothing. */
  ghost predicate Follows<K>(keys: seq<K>, steps: seq<Step>, f: nat, q: nat)
    requires f < |steps| == |keys| && q < |steps|
  {
    && steps[f].Fetch?
    && (q == f ==> steps[f].retainFor == 0 || steps[f].retainFor == Later(keys, keys[f], f + 1))
    && (q > f ==> if steps[f].retainFor > 0 then steps[q].Cached? else steps[q].Fetch? && steps[q].retainFor == 0)
  }

  ghost predicate AllOrNothing<K>(keys: seq<K>, steps: seq<Step>) {
    && |steps| == |keys|
    && forall f, q :: 0 <= f <= q < |keys| && First(keys, f) && keys[q] == keys[f] ==> Follows(keys, steps, f, q)
  }

  ghost predicate WithinBudget(steps: seq<Step>, sizes: seq<nat>, budget: nat) {
    |steps| <= |sizes| && forall p :: 0 <= p <= |steps| ==> BytesAt(steps, sizes, p) <= budget
  }

  /** Every replay finds its segment retained: the emitter cannot abort on it. */
  ghost predicate Executable(steps: seq<Step>) {
    forall p :: 0 <= p < |steps| && steps[p].Cached? ==> steps[p].unique in Held(steps, p)
  }

  /** A repeated segment is retained exactly when it fits beside what is resident then. */
  ghost predicate GreedyFirstCome<K>(keys: seq<K>, sizes: seq<nat>, steps: seq<Step>, budget: nat) {
    && |steps| == |keys| <= |sizes|
    && forall f :: 0 <= f < |keys| && First(keys, f) && Later(keys, keys[f], f + 1) > 0 ==>
         (steps[f].Fetch? && steps[f].retainFor > 0 <==> BytesAt(steps, sizes, f) + sizes[f] <= budget)
  }

  // ---- lemmas ----

  lemma {:induction false} HeldPrefix(steps: seq<Step>, s: Step, p: nat)
    requires p <= |steps|
    ensures Held(steps + [s], p) == Held(steps, p)
    decreases p
  {
    if p > 0 { HeldPrefix(steps, s, p - 1); }
  }

  lemma {:induction false} BytesPrefix(steps: seq<Step>, s: Step, sizes: seq<nat>, held: map<nat, nat>, q: nat)
    requires q <= |steps| && q <= |sizes|
    ensures HeldBytes(steps + [s], sizes, held, q) == HeldBytes(steps, sizes, held, q)
    decreases q
  {
    if q > 0 { BytesPrefix(steps, s, sizes, held, q - 1); }
  }

  /** The bytes depend on `held` only through the ids of retaining steps. */
  lemma {:induction false} BytesSameIds(steps: seq<Step>, sizes: seq<nat>, a: map<nat, nat>, b: map<nat, nat>, q: nat)
    requires q <= |steps| && q <= |sizes|
    requires forall i :: 0 <= i < q && steps[i].Fetch? && steps[i].retainFor > 0 ==>
               (steps[i].unique in a <==> steps[i].unique in b)
    ensures HeldBytes(steps, sizes, a, q) == HeldBytes(steps, sizes, b, q)
    decreases q
  {
    if q > 0 { BytesSameIds(steps, sizes, a, b, q - 1); }
  }

  /** Dropping an id that one step retained frees that step's size. */
  lemma {:induction false} BytesDrop(steps: seq<Step>, sizes: seq<nat>, held: map<nat, nat>, u: nat, f: nat, q: nat)
    requires f < q <= |steps| && q <= |sizes| && u in held
    requires steps[f].Fetch? && steps[f].retainFor > 0 && steps[f].unique == u
    requires forall i :: 0 <= i < q && i != f && steps[i].Fetch? && steps[i].retainFor > 0 ==> steps[i].unique != u
    ensures HeldBytes(steps, sizes, held, q) == HeldBytes(steps, sizes, held - {u}, q) + sizes[f]
    decreases q
  {
    if f == q - 1 {
      BytesSameIds(steps, sizes, held, held - {u}, q - 1);
    } else {
      BytesDrop(steps, sizes, held, u, f, q - 1);
    }
  }

  // ---- occurrence counts over dense ids ----

  function LaterId(ids: seq<nat>, u: nat, p: nat): nat
    requires p <= |ids|
    decreases |ids| - p
  {
    if p == |ids| then 0 else (if ids[p] == u then 1 else 0) + LaterId(ids, u, p + 1)
  }

  ghost predicate FirstId(ids: seq<nat>, p: nat)
    requires p < |ids|
  {
    forall q :: 0 <= q < p ==> ids[q] != ids[p]
  }

  ghost predicate SameKeys<K>(keys: seq<K>, ids: seq<nat>) {
    |ids| == |keys| && forall p, q :: 0 <= p < |keys| && 0 <= q < |keys| ==> (ids[p] == ids[q] <==> keys[p] == keys[q])
  }

  lemma {:induction false} LaterIds<K>(keys: seq<K>, ids: seq<nat>, p: nat, q: nat)
    requires SameKeys(keys, ids) && p < |keys| && q <= |keys|
    ensures Later(keys, keys[p], q) == LaterId(ids, ids[p], q)
    decreases |keys| - q
  {
    if q < |keys| { LaterIds(keys, ids, p, q + 1); }
  }

  lemma {:induction false} LaterWitness(ids: seq<nat>, u: nat, p: nat)
    requires p <= |ids|
    ensures LaterId(ids, u, p) > 0 <==> exists q :: p <= q < |ids| && ids[q] == u
    decreases |ids| - p
  {
    if p < |ids| { LaterWitness(ids, u, p + 1); }
  }

  lemma {:induction false} LaterSnoc(ids: seq<nat>, x: nat, u: nat, p: nat)
    requires p <= |ids|
    ensures LaterId(ids + [x], u, p) == LaterId(ids, u, p) + (if x == u then 1 else 0)
    decreases |ids| - p
  {
    if p < |ids| { LaterSnoc(ids, x, u, p + 1); }
  }

  lemma {:induction false} LaterSplit(ids: seq<nat>, u: nat, p: nat, q: nat)
    requires p <= q <= |ids| && forall i :: p <= i < q ==> ids[i] != u
    ensures LaterId(ids, u, p) == LaterId(ids, u, q)
    decreases q - p
  {
    if p < q { LaterSplit(ids, u, p + 1, q); }
  }

  ghost function FirstOf(ids: seq<nat>, p: nat): (f: nat)
    requires p < |ids|
    ensures f <= p && ids[f] == ids[p] && FirstId(ids, f)
  {
    if FirstId(ids, p) then p else
    var q :| 0 <= q < p && ids[q] == ids[p];
    FirstOf(ids, q)
  }

  // ---- pass 1 ----

  ghost predicate CountsOk(ids: seq<nat>, count: seq<nat>) {
    forall u :: 0 <= u < |count| ==> count[u] == LaterId(ids, u, 0)
  }

  ghost predicate LastOk(ids: seq<nat>, last: seq<nat>) {
    forall u :: 0 <= u < |last| ==> last[u] < |ids| && ids[last[u]] == u && forall q :: last[u] < q < |ids| ==>
        ids[q] != u
  }

  ghost predicate SizesOk(ids: seq<nat>, sizes: seq<nat>, size: seq<nat>) {
    |ids| <= |sizes| && forall f :: 0 <= f < |ids| && FirstId(ids, f) ==> ids[f] < |size| && size[ids[f]] == sizes[f]
  }

  ghost predicate Below(ids: seq<nat>, n: nat) { forall p :: 0 <= p < |ids| ==> ids[p] < n }

  lemma FirstIdPrefix(ids: seq<nat>, x: nat, f: nat)
    requires f < |ids|
    ensures FirstId(ids + [x], f) <==> FirstId(ids, f)
  {
    assert forall q :: 0 <= q <= f ==> (ids + [x])[q] == ids[q];
  }

  lemma SizesGrow(ids: seq<nat>, sizes: seq<nat>, size: seq<nat>, x: nat, size': seq<nat>)
    requires SizesOk(ids, sizes, size) && |ids| < |sizes| && size <= size' && x < |size'| && Below(ids, |size|)
    requires x < |size| ==> exists q :: 0 <= q < |ids| && ids[q] == x
    requires x >= |size| ==> size'[x] == sizes[|ids|]
    ensures SizesOk(ids + [x], sizes, size')
  {
    var ids' := ids + [x];
    if x < |size| {
      var q :| 0 <= q < |ids| && ids[q] == x;
      assert ids'[q] == ids'[|ids|];
      assert !FirstId(ids', |ids|);
    }
    forall f | 0 <= f < |ids'| && FirstId(ids', f) ensures ids'[f] < |size'| && size'[ids'[f]] == sizes[f] {
      if f < |ids| { FirstIdPrefix(ids, x, f); }
    }
  }

  lemma CountsGrow(ids: seq<nat>, count: seq<nat>, x: nat)
    requires CountsOk(ids, count) && x <= |count| && Below(ids, |count|)
    ensures CountsOk(ids + [x], if x < |count| then count[x := count[x] + 1] else count + [1])
  {
    var count' := if x < |count| then count[x := count[x] + 1] else count + [1];
    forall u | 0 <= u < |count'| ensures count'[u] == LaterId(ids + [x], u, 0) {
      LaterSnoc(ids, x, u, 0);
      if u == |count| { LaterWitness(ids, u, 0); }
    }
  }

  lemma LastGrow(ids: seq<nat>, last: seq<nat>, x: nat)
    requires LastOk(ids, last) && x <= |last|
    ensures LastOk(ids + [x], if x < |last| then last[x := |ids|] else last + [|ids|])
  {}

  /** The id table after p occurrences: one id per key seen, and no id twice. */
  ghost predicate IdMap<K>(keys: seq<K>, p: nat, ids: seq<nat>, idOf: map<K, nat>, n: nat) {
    && p == |ids| <= |keys|
    && (forall q :: 0 <= q < p ==> keys[q] in idOf && idOf[keys[q]] == ids[q])
    && (forall k :: k in idOf ==> idOf[k] < n && SeenKey(keys, p, k))
    && (forall k, j :: k in idOf && j in idOf && idOf[k] == idOf[j] ==> k == j)
  }

  ghost predicate SeenKey<K>(keys: seq<K>, p: nat, k: K)
    requires p <= |keys|
  {
    exists q :: 0 <= q < p && keys[q] == k
  }

  lemma IdMapGrow<K>(keys: seq<K>, p: nat, ids: seq<nat>, idOf: map<K, nat>, n: nat)
    requires p < |keys| && IdMap(keys, p, ids, idOf, n)
    ensures keys[p] in idOf ==> IdMap(keys, p + 1, ids + [idOf[keys[p]]], idOf, n)
    ensures keys[p] !in idOf ==> IdMap(keys, p + 1, ids + [n], idOf[keys[p] := n], n + 1)
  {
    forall k | k in idOf || k == keys[p] ensures SeenKey(keys, p + 1, k) {
      if k in idOf {
        var q :| 0 <= q < p && keys[q] == k;
        assert keys[q] == k;
      } else {
        assert keys[p] == k;
      }
    }
  }

  lemma IdMapSameKeys<K>(keys: seq<K>, ids: seq<nat>, idOf: map<K, nat>, n: nat)
    requires IdMap(keys, |keys|, ids, idOf, n)
    ensures SameKeys(keys, ids)
  {}

  ghost predicate Tables<K>(keys: seq<K>, sizes: seq<nat>, p: nat, ids: seq<nat>, count: seq<nat>, last: seq<nat>,
                            size: seq<nat>, idOf: map<K, nat>) {
    && |ids| == p && |count| == |last| == |size| && Below(ids, |count|)
    && CountsOk(ids, count) && LastOk(ids, last) && SizesOk(ids, sizes, size)
    && IdMap(keys, p, ids, idOf, |count|)
  }

  lemma TablesAgain<K>(keys: seq<K>, sizes: seq<nat>, p: nat, ids: seq<nat>, count: seq<nat>, last: seq<nat>,
                       size: seq<nat>, idOf: map<K, nat>, u: nat)
    requires p < |keys| == |sizes| && Tables(keys, sizes, p, ids, count, last, size, idOf)
    requires keys[p] in idOf && u == idOf[keys[p]]
    ensures u < |count| && Tables(keys, sizes, p + 1, ids + [u], count[u := count[u] + 1], last[u := p], size, idOf)
  {
    IdMapGrow(keys, p, ids, idOf, |count|);
    CountsGrow(ids, count, u);
    LastGrow(ids, last, u);
    assert SeenKey(keys, p, keys[p]);
    SizesGrow(ids, sizes, size, u, size);
  }

  lemma TablesNew<K>(keys: seq<K>, sizes: seq<nat>, p: nat, ids: seq<nat>, count: seq<nat>, last: seq<nat>,
                     size: seq<nat>, idOf: map<K, nat>, u: nat)
    requires p < |keys| == |sizes| && Tables(keys, sizes, p, ids, count, last, size, idOf)
    requires keys[p] !in idOf && u == |count|
    ensures Tables(keys, sizes, p + 1, ids + [u], count + [1], last + [p], size + [sizes[p]], idOf[keys[p] := u])
  {
    IdMapGrow(keys, p, ids, idOf, |count|);
    CountsGrow(ids, count, u);
    LastGrow(ids, last, u);
    SizesGrow(ids, sizes, size, u, size + [sizes[p]]);
  }

  /** Identity: dense ids in order of first appearance, occurrence counts, last positions. */
  method Identify<K(==)>(keys: seq<K>, sizes: seq<nat>)
      returns (ids: seq<nat>, count: seq<nat>, last: seq<nat>, size: seq<nat>)
    requires |sizes| == |keys|
    ensures SameKeys(keys, ids) && |count| == |last| == |size| && Below(ids, |count|)
    ensures CountsOk(ids, count) && LastOk(ids, last) && SizesOk(ids, sizes, size)
  {
    var idOf: map<K, nat> := map[];
    ids, count, last, size := [], [], [], [];
    for p := 0 to |keys|
      invariant Tables(keys, sizes, p, ids, count, last, size, idOf)
    {
      var k := keys[p];
      if k in idOf {
        var u := idOf[k];
        TablesAgain(keys, sizes, p, ids, count, last, size, idOf, u);
        ids, count, last := ids + [u], count[u := count[u] + 1], last[u := p];
      } else {
        var u: nat := |count|;
        TablesNew(keys, sizes, p, ids, count, last, size, idOf, u);
        idOf := idOf[k := u];
        ids, count, last, size := ids + [u], count + [1], last + [p], size + [sizes[p]];
      }
    }
    IdMapSameKeys(keys, ids, idOf, |count|);
  }

  // ---- pass 2 ----

  ghost predicate Shape(ids: seq<nat>, n: nat, p: nat, resident: seq<bool>, seen: seq<bool>, steps: seq<Step>) {
    && p <= |ids| && |resident| == |seen| == n && |steps| == p && Below(ids, n)
    && forall q :: 0 <= q < p ==> steps[q].unique == ids[q]
  }

  ghost predicate SeenOk(ids: seq<nat>, p: nat, seen: seq<bool>) {
    p <= |ids| && forall u :: 0 <= u < |seen| ==> (seen[u] <==> exists q :: 0 <= q < p && ids[q] == u)
  }

  /** A segment is resident while its first occurrence chose to retain it and more are to come. */
  ghost predicate ResidentOk(ids: seq<nat>, p: nat, resident: seq<bool>, steps: seq<Step>) {
    && p <= |ids| && |steps| == p && Below(ids, |resident|)
    && (forall f :: 0 <= f < p && FirstId(ids, f) ==>
         (resident[ids[f]] <==> Retains(steps[f]) && LaterId(ids, ids[f], p) > 0))
    && (forall u :: 0 <= u < |resident| && resident[u] ==> exists q :: 0 <= q < p && ids[q] == u)
  }

  predicate Retains(s: Step) { s.Fetch? && s.retainFor > 0 }

  ghost predicate Decided(ids: seq<nat>, steps: seq<Step>, f: nat, q: nat)
    requires f < |steps| <= |ids| && q < |steps|
  {
    && steps[f].Fetch?
    && (q == f ==> steps[f].retainFor == 0 || steps[f].retainFor == LaterId(ids, ids[f], f + 1))
    && (q > f ==> if steps[f].retainFor > 0 then steps[q].Cached? else steps[q].Fetch? && steps[q].retainFor == 0)
  }

  ghost predicate DecidedOk(ids: seq<nat>, steps: seq<Step>) {
    |steps| <= |ids| && forall f, q :: 0 <= f <= q < |steps| && FirstId(ids, f) && ids[q] == ids[f] ==>
        Decided(ids, steps, f, q)
  }

  /** The planner's resident set is what executing the plan holds, with the replays it owes. */
  ghost predicate HeldOk(ids: seq<nat>, p: nat, resident: seq<bool>, steps: seq<Step>) {
    && p == |steps| <= |ids|
    && (forall u :: u in Held(steps, p) <==> 0 <= u < |resident| && resident[u])
    && (forall u :: u in Held(steps, p) ==> Held(steps, p)[u] == LaterId(ids, u, p))
  }

  ghost predicate Planned(ids: seq<nat>, sizes: seq<nat>, n: nat, p: nat, resident: seq<bool>, seen: seq<bool>,
                          bytes: nat, steps: seq<Step>) {
    && Shape(ids, n, p, resident, seen, steps) && SeenOk(ids, p, seen) && ResidentOk(ids, p, resident, steps)
    && DecidedOk(ids, steps) && HeldOk(ids, p, resident, steps)
    && |ids| <= |sizes| && bytes == BytesAt(steps, sizes, p)
  }

  /** What the planner may choose at occurrence p. */
  ghost predicate Choice(ids: seq<nat>, p: nat, resident: seq<bool>, seen: seq<bool>, s: Step)
    requires p < |ids| && ids[p] < |resident| == |seen|
  {
    var u := ids[p];
    && s.unique == u
    && (!seen[u] ==> s.Fetch? && (s.retainFor == 0 || s.retainFor == LaterId(ids, u, p + 1)))
    && (seen[u] && resident[u] ==> s.Cached?)
    && (seen[u] && !resident[u] ==> s.Fetch? && s.retainFor == 0)
  }

  /** The resident flags after step `s` at occurrence p. */
  ghost function ResidentAfter(ids: seq<nat>, p: nat, resident: seq<bool>, s: Step): seq<bool>
    requires p < |ids| && ids[p] < |resident|
  {
    if Retains(s) then resident[ids[p] := true]
    else if s.Cached? && LaterId(ids, ids[p], p + 1) == 0 then resident[ids[p] := false]
    else resident
  }

  lemma DecidedGrow(ids: seq<nat>, p: nat, resident: seq<bool>, seen: seq<bool>, steps: seq<Step>, s: Step)
    requires p < |ids| && Shape(ids, |seen|, p, resident, seen, steps) && SeenOk(ids, p, seen)
    requires ResidentOk(ids, p, resident, steps) && DecidedOk(ids, steps) && Choice(ids, p, resident, seen, s)
    ensures DecidedOk(ids, steps + [s])
  {
    var next := steps + [s];
    forall f, q | 0 <= f <= q < p + 1 && FirstId(ids, f) && ids[q] == ids[f] ensures Decided(ids, next, f, q) {
      if q < p {
        assert Decided(ids, steps, f, q);
        assert next[f] == steps[f] && next[q] == steps[q];
      } else {
        DecidedLast(ids, p, resident, seen, steps, s, f);
      }
    }
  }

  /** The newest decision agrees with the first occurrence of its id. */
  lemma DecidedLast(ids: seq<nat>, p: nat, resident: seq<bool>, seen: seq<bool>, steps: seq<Step>, s: Step, f: nat)
    requires p < |ids| && Shape(ids, |seen|, p, resident, seen, steps) && SeenOk(ids, p, seen)
    requires ResidentOk(ids, p, resident, steps) && DecidedOk(ids, steps) && Choice(ids, p, resident, seen, s)
    requires f <= p && FirstId(ids, f) && ids[p] == ids[f]
    ensures Decided(ids, steps + [s], f, p)
  {
    if f < p {
      assert Decided(ids, steps, f, f);
      LaterWitness(ids, ids[f], p);
    } else {
      assert !seen[ids[p]];
    }
  }

  lemma ResidentGrow(ids: seq<nat>, p: nat, resident: seq<bool>, seen: seq<bool>, steps: seq<Step>, s: Step)
    requires p < |ids| && Shape(ids, |seen|, p, resident, seen, steps) && SeenOk(ids, p, seen)
    requires ResidentOk(ids, p, resident, steps) && Choice(ids, p, resident, seen, s)
    ensures ResidentOk(ids, p + 1, ResidentAfter(ids, p, resident, s), steps + [s])
  {
    var next, r := steps + [s], ResidentAfter(ids, p, resident, s);
    forall f | 0 <= f < p + 1 && FirstId(ids, f)
      ensures r[ids[f]] <==> Retains(next[f]) && LaterId(ids, ids[f], p + 1) > 0
    {
      if f < p {
        assert next[f] == steps[f];
        if ids[f] == ids[p] { assert LaterId(ids, ids[f], p) == 1 + LaterId(ids, ids[f], p + 1); }
      } else {
        assert !seen[ids[p]];
        assert !resident[ids[p]];
      }
    }
    forall u | 0 <= u < |r| && r[u] ensures exists q :: 0 <= q < p + 1 && ids[q] == u {
      if u == ids[p] { assert ids[p] == u; }
    }
  }

  lemma HeldGrow(ids: seq<nat>, p: nat, resident: seq<bool>, seen: seq<bool>, steps: seq<Step>, s: Step)
    requires p < |ids| && ids[p] < |resident| == |seen| && HeldOk(ids, p, resident, steps)
    requires Choice(ids, p, resident, seen, s) && (!seen[ids[p]] ==> !resident[ids[p]])
    ensures HeldOk(ids, p + 1, ResidentAfter(ids, p, resident, s), steps + [s])
  {
    HeldPrefix(steps, s, p);
    var h := Held(steps, p);
    if s.Cached? { assert ids[p] in h && h[ids[p]] == 1 + LaterId(ids, ids[p], p + 1); }
  }

  /** The byte counter follows the held set. */
  lemma BytesGrow(ids: seq<nat>, sizes: seq<nat>, p: nat, resident: seq<bool>, seen: seq<bool>, steps: seq<Step>,
                  s: Step, f: nat)
    requires p < |ids| <= |sizes| && Shape(ids, |seen|, p, resident, seen, steps) && HeldOk(ids, p, resident, steps)
             && DecidedOk(ids, steps)
    requires SeenOk(ids, p, seen) && ResidentOk(ids, p, resident, steps) && Choice(ids, p, resident, seen, s)
    requires f <= p && FirstId(ids, f) && ids[f] == ids[p]
    ensures s.Cached? && LaterId(ids, ids[p], p + 1) == 0 ==>
              BytesAt(steps, sizes, p) == BytesAt(steps + [s], sizes, p + 1) + sizes[f]
    ensures Retains(s) ==> BytesAt(steps + [s], sizes, p + 1) == BytesAt(steps, sizes, p) + sizes[p]
    ensures !Retains(s) && !(s.Cached? && LaterId(ids, ids[p], p + 1) == 0) ==>
              BytesAt(steps + [s], sizes, p + 1) == BytesAt(steps, sizes, p)
  {
    var u, h, h' := ids[p], Held(steps, p), Held(steps + [s], p + 1);
    HeldPrefix(steps, s, p);
    BytesPrefix(steps, s, sizes, h', p);
    if s.Cached? && LaterId(ids, u, p + 1) == 0 {
      RetainedOnce(ids, steps, f, u);
      assert u in h && h[u] == 1 && h' == h - {u};
      BytesDrop(steps, sizes, h, u, f, p);
    } else {
      if Retains(s) { assert !seen[u]; }
      BytesSameIds(steps, sizes, h, h', p);
    }
  }

  /** Only the first occurrence of an id ever retains it. */
  lemma RetainedOnce(ids: seq<nat>, steps: seq<Step>, f: nat, u: nat)
    requires DecidedOk(ids, steps) && f < |ids| && FirstId(ids, f) && ids[f] == u
    requires forall q :: 0 <= q < |steps| ==> steps[q].unique == ids[q]
    ensures forall i :: 0 <= i < |steps| && i != f && Retains(steps[i]) ==> steps[i].unique != u
  {
    forall i | f < i < |steps| && ids[i] == u ensures !Retains(steps[i]) { assert Decided(ids, steps, f, i); }
    assert forall i :: 0 <= i < f ==> ids[i] != u;
  }

  lemma StepPlanned(ids: seq<nat>, sizes: seq<nat>, n: nat, p: nat, resident: seq<bool>, seen: seq<bool>, bytes: nat,
                    steps: seq<Step>, s: Step)
    requires Planned(ids, sizes, n, p, resident, seen, bytes, steps) && p < |ids| && Choice(ids, p, resident, seen, s)
    ensures Planned(ids, sizes, n, p + 1, ResidentAfter(ids, p, resident, s), seen[ids[p] := true],
            BytesAt(steps + [s], sizes, p + 1), steps + [s])
    ensures s.Cached? ==> s.unique in Held(steps, p)
  {
    DecidedGrow(ids, p, resident, seen, steps, s);
    ResidentGrow(ids, p, resident, seen, steps, s);
    HeldGrow(ids, p, resident, seen, steps, s);
    SeenGrow(ids, p, seen);
    ShapeGrow(ids, n, p, resident, seen, steps, s);
  }

  lemma ShapeGrow(ids: seq<nat>, n: nat, p: nat, resident: seq<bool>, seen: seq<bool>, steps: seq<Step>, s: Step)
    requires Shape(ids, n, p, resident, seen, steps) && p < |ids| && ids[p] < |resident| == |seen| && s.unique == ids[p]
    ensures Shape(ids, n, p + 1, ResidentAfter(ids, p, resident, s), seen[ids[p] := true], steps + [s])
  {}

  lemma SeenGrow(ids: seq<nat>, p: nat, seen: seq<bool>)
    requires p < |ids| && ids[p] < |seen| && SeenOk(ids, p, seen)
    ensures SeenOk(ids, p + 1, seen[ids[p] := true])
  {
    var seen' := seen[ids[p] := true];
    forall u | 0 <= u < |seen'| ensures seen'[u] <==> exists q :: 0 <= q < p + 1 && ids[q] == u {
      if u == ids[p] { assert ids[p] == u; }
    }
  }

  lemma PrefixStable(steps: seq<Step>, s: Step, sizes: seq<nat>)
    requires |steps| < |sizes|
    ensures Stable(steps, s, sizes)
  {
    forall q | 0 <= q <= |steps|
      ensures Held(steps + [s], q) == Held(steps, q) && BytesAt(steps + [s], sizes, q) == BytesAt(steps, sizes, q)
    {
      HeldPrefix(steps, s, q);
      BytesPrefix(steps, s, sizes, Held(steps, q), q);
    }
  }

  ghost predicate GreedySoFar(ids: seq<nat>, sizes: seq<nat>, steps: seq<Step>, budget: nat) {
    && |steps| <= |ids| <= |sizes|
    && forall f :: 0 <= f < |steps| && FirstId(ids, f) && LaterId(ids, ids[f], f + 1) > 0 ==>
         (Retains(steps[f]) <==> BytesAt(steps, sizes, f) + sizes[f] <= budget)
  }

  /** Everything promised about the finished plan, for the steps so far. */
  ghost predicate Promised(ids: seq<nat>, sizes: seq<nat>, steps: seq<Step>, budget: nat) {
    WithinBudget(steps, sizes, budget) && Executable(steps) && GreedySoFar(ids, sizes, steps, budget)
  }

  lemma PromisedGrow(ids: seq<nat>, sizes: seq<nat>, steps: seq<Step>, budget: nat, s: Step)
    requires Promised(ids, sizes, steps, budget) && |steps| < |ids| <= |sizes|
    requires BytesAt(steps + [s], sizes, |steps| + 1) <= budget
    requires s.Cached? ==> s.unique in Held(steps, |steps|)
    requires FirstId(ids, |steps|) && LaterId(ids, ids[|steps|], |steps| + 1) > 0 ==>
               (Retains(s) <==> BytesAt(steps, sizes, |steps|) + sizes[|steps|] <= budget)
    ensures Promised(ids, sizes, steps + [s], budget)
  {
    PrefixStable(steps, s, sizes);
    BudgetGrow(sizes, steps, budget, s);
    ExecutableGrow(steps, s);
    GreedyGrow(ids, sizes, steps, budget, s);
  }

  ghost predicate Stable(steps: seq<Step>, s: Step, sizes: seq<nat>)
    requires |steps| < |sizes|
  {
    && (forall q :: 0 <= q <= |steps| ==> Held(steps + [s], q) == Held(steps, q))
    && (forall q :: 0 <= q <= |steps| ==> BytesAt(steps + [s], sizes, q) == BytesAt(steps, sizes, q))
  }

  lemma BudgetGrow(sizes: seq<nat>, steps: seq<Step>, budget: nat, s: Step)
    requires |steps| < |sizes| && Stable(steps, s, sizes) && WithinBudget(steps, sizes, budget)
             && BytesAt(steps + [s], sizes, |steps| + 1) <= budget
    ensures WithinBudget(steps + [s], sizes, budget)
  {
    var next := steps + [s];
    forall q | 0 <= q <= |next| ensures BytesAt(next, sizes, q) <= budget {
      if q < |next| { assert BytesAt(next, sizes, q) == BytesAt(steps, sizes, q); }
    }
  }

  lemma ExecutableGrow(steps: seq<Step>, s: Step)
    requires (forall q :: 0 <= q <= |steps| ==> Held(steps + [s], q) == Held(steps, q)) && Executable(steps)
    requires s.Cached? ==> s.unique in Held(steps, |steps|)
    ensures Executable(steps + [s])
  {
    var next := steps + [s];
    forall q | 0 <= q < |next| && next[q].Cached? ensures next[q].unique in Held(next, q) {
      assert Held(next, q) == Held(steps, q);
      if q < |steps| { assert next[q] == steps[q]; } else { assert next[q] == s; }
    }
  }

  lemma GreedyGrow(ids: seq<nat>, sizes: seq<nat>, steps: seq<Step>, budget: nat, s: Step)
    requires |steps| < |ids| <= |sizes| && Stable(steps, s, sizes) && GreedySoFar(ids, sizes, steps, budget)
    requires FirstId(ids, |steps|) && LaterId(ids, ids[|steps|], |steps| + 1) > 0 ==>
               (Retains(s) <==> BytesAt(steps, sizes, |steps|) + sizes[|steps|] <= budget)
    ensures GreedySoFar(ids, sizes, steps + [s], budget)
  {
    var next := steps + [s];
    forall f | 0 <= f < |next| && FirstId(ids, f) && LaterId(ids, ids[f], f + 1) > 0
      ensures Retains(next[f]) <==> BytesAt(next, sizes, f) + sizes[f] <= budget
    {
      assert BytesAt(next, sizes, f) == BytesAt(steps, sizes, f);
    }
  }

  lemma LastMeansDone(ids: seq<nat>, last: seq<nat>, p: nat)
    requires p < |ids| && ids[p] < |last| && LastOk(ids, last)
    ensures p == last[ids[p]] <==> LaterId(ids, ids[p], p + 1) == 0
  {
    LaterWitness(ids, ids[p], p + 1);
    if LaterId(ids, ids[p], p + 1) == 0 { assert !(p < last[ids[p]]); }
  }

  /** The occurrence at p decides as the code does: first come, retain if it fits. */
  method Decide(ids: seq<nat>, sizes: seq<nat>, count: seq<nat>, last: seq<nat>, size: seq<nat>, budget: nat, p: nat,
                resident: seq<bool>, seen: seq<bool>, bytes: nat, ghost steps: seq<Step>)
    returns (s: Step, resident': seq<bool>, bytes': nat)
    requires p < |ids| && |count| == |last| == |size| && CountsOk(ids, count) && LastOk(ids, last)
             && SizesOk(ids, sizes, size)
    requires Planned(ids, sizes, |count|, p, resident, seen, bytes, steps) && bytes <= budget
    ensures Choice(ids, p, resident, seen, s) && resident' == ResidentAfter(ids, p, resident, s)
    ensures bytes' == BytesAt(steps + [s], sizes, p + 1) <= budget
    ensures FirstId(ids, p) && LaterId(ids, ids[p], p + 1) > 0 ==> (Retains(s) <==> bytes + sizes[p] <= budget)
  {
    var u := ids[p];
    resident', bytes' := resident, bytes;
    ghost var f := FirstOf(ids, p);
    if !seen[u] {
      assert FirstId(ids, p) && f == p;
      LaterSplit(ids, u, 0, p);
      var later := count[u] - 1;
      var retainFor := 0;
      if later > 0 && bytes + size[u] <= budget {
        resident' := resident[u := true];
        bytes' := bytes + size[u];
        retainFor := later;
      }
      s := Fetch(u, retainFor);
    } else if resident[u] {
      assert f < p;
      s := Cached(u);
      LastMeansDone(ids, last, p);
      if p == last[u] {
        resident' := resident[u := false];
        BytesGrow(ids, sizes, p, resident, seen, steps, s, f);
        bytes' := bytes - size[u];
      }
    } else {
      assert f < p;
      s := Fetch(u, 0);
    }
    BytesGrow(ids, sizes, p, resident, seen, steps, s, f);
  }

  /** The planner. */
  method Plan<K(==)>(keys: seq<K>, sizes: seq<nat>, budget: nat) returns (steps: seq<Step>)
    requires |sizes| == |keys|
    ensures IdsAreKeys(keys, steps)
    ensures AllOrNothing(keys, steps)
    ensures WithinBudget(steps, sizes, budget)
    ensures Executable(steps)
    ensures GreedyFirstCome(keys, sizes, steps, budget)
    ensures Held(steps, |steps|) == map[]
  {
    var ids, count, last, size := Identify(keys, sizes);
    var resident := seq(|count|, _ => false);
    var seen := seq(|count|, _ => false);
    var bytes: nat := 0;
    steps := [];
    for p := 0 to |ids|
      invariant Planned(ids, sizes, |count|, p, resident, seen, bytes, steps) && bytes <= budget
      invariant Promised(ids, sizes, steps, budget)
    {
      var s, resident', bytes' := Decide(ids, sizes, count, last, size, budget, p, resident, seen, bytes, steps);
      StepPlanned(ids, sizes, |count|, p, resident, seen, bytes, steps, s);
      PromisedGrow(ids, sizes, steps, budget, s);
      steps, resident, seen, bytes := steps + [s], resident', seen[ids[p] := true], bytes';
    }
    Translate(keys, sizes, ids, steps, budget);
    NothingLeft(ids, resident, steps);
  }

  lemma Translate<K>(keys: seq<K>, sizes: seq<nat>, ids: seq<nat>, steps: seq<Step>, budget: nat)
    requires SameKeys(keys, ids) && |ids| == |steps| <= |sizes|
    requires forall q :: 0 <= q < |ids| ==> steps[q].unique == ids[q]
    requires DecidedOk(ids, steps) && GreedySoFar(ids, sizes, steps, budget)
    ensures IdsAreKeys(keys, steps) && AllOrNothing(keys, steps) && GreedyFirstCome(keys, sizes, steps, budget)
  {
    TranslateDecided(keys, ids, steps);
    forall f | 0 <= f < |keys| && First(keys, f) && Later(keys, keys[f], f + 1) > 0
      ensures Retains(steps[f]) <==> BytesAt(steps, sizes, f) + sizes[f] <= budget
    {
      TranslateGreedy(keys, sizes, ids, steps, budget, f);
    }
  }

  lemma TranslateGreedy<K>(keys: seq<K>, sizes: seq<nat>, ids: seq<nat>, steps: seq<Step>, budget: nat, f: nat)
    requires SameKeys(keys, ids) && |ids| == |steps| <= |sizes| && GreedySoFar(ids, sizes, steps, budget)
    requires f < |keys| && First(keys, f) && Later(keys, keys[f], f + 1) > 0
    ensures Retains(steps[f]) <==> BytesAt(steps, sizes, f) + sizes[f] <= budget
  {
    FirstTranslates(keys, ids, f);
    LaterIds(keys, ids, f, f + 1);
  }

  lemma TranslateDecided<K>(keys: seq<K>, ids: seq<nat>, steps: seq<Step>)
    requires SameKeys(keys, ids) && |ids| == |steps| && DecidedOk(ids, steps)
    ensures AllOrNothing(keys, steps)
  {
    forall f, q | 0 <= f <= q < |keys| && First(keys, f) && keys[q] == keys[f] ensures Follows(keys, steps, f, q) {
      FirstTranslates(keys, ids, f);
      LaterIds(keys, ids, f, f + 1);
      assert Decided(ids, steps, f, q);
    }
  }

  lemma FirstTranslates<K>(keys: seq<K>, ids: seq<nat>, f: nat)
    requires SameKeys(keys, ids) && f < |keys|
    ensures First(keys, f) <==> FirstId(ids, f)
  {}

  /** After the last occurrence nothing stays pinned. */
  lemma NothingLeft(ids: seq<nat>, resident: seq<bool>, steps: seq<Step>)
    requires HeldOk(ids, |ids|, resident, steps) && ResidentOk(ids, |ids|, resident, steps)
    ensures Held(steps, |steps|) == map[]
  {
    forall u | 0 <= u < |resident| ensures !resident[u] {
      if exists q :: 0 <= q < |ids| && ids[q] == u {
        var q :| 0 <= q < |ids| && ids[q] == u;
        var f := FirstOf(ids, q);
      }
    }
  }

  /** Replays of id u among the steps from p on. */
  function CachedFrom(steps: seq<Step>, u: nat, p: nat): nat
    requires p <= |steps|
    decreases |steps| - p
  {
    if p == |steps| then 0 else (if steps[p] == Cached(u) then 1 else 0) + CachedFrom(steps, u, p + 1)
  }

  /** A retained segment is kept for exactly as many replays as the plan goes on to make of it,
      and one that is not retained is never replayed. */
  lemma RetainedForItsReplays<K>(keys: seq<K>, steps: seq<Step>, f: nat)
    requires IdsAreKeys(keys, steps) && AllOrNothing(keys, steps) && f < |keys| && First(keys, f)
    ensures steps[f].Fetch? && steps[f].retainFor == CachedFrom(steps, steps[f].unique, f + 1)
  {
    assert Follows(keys, steps, f, f);
    LaterAreReplays(keys, steps, f, f + 1);
  }

  lemma {:induction false} LaterAreReplays<K>(keys: seq<K>, steps: seq<Step>, f: nat, p: nat)
    requires IdsAreKeys(keys, steps) && AllOrNothing(keys, steps) && f < p <= |keys| && First(keys, f)
             && steps[f].Fetch?
    ensures CachedFrom(steps, steps[f].unique, p) == if steps[f].retainFor > 0 then Later(keys, keys[f], p) else 0
    decreases |keys| - p
  {
    if p < |keys| {
      LaterAreReplays(keys, steps, f, p + 1);
      if keys[p] == keys[f] { assert Follows(keys, steps, f, p); }
    }
  }
}
