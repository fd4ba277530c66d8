/** Fact reconciliation (`reconcile_facts`, `fetch_subtree` in src/sync.rs, `attestation_page`
    in src/store/rocks.rs): compare roots, walk the two-level tree to the differing nodes,
    fetch their subtrees page by page and merge them. */
module Reconcile {
  import opened Common
  import opened Facts
  import opened Merkle
  import opened Store
  import opened Writers
  import Order

  const COARSE_MAX: nat := 32
  const FETCH_MAX: nat := 64
  const WHOLESALE: nat := 32
  const PAGES_MAX: nat := 4096

  type Tree = Node -> Hash

  /** The tree over a table's rows. */
  ghost function TreeOf(hash: HashFn, t: Table): Tree { (n: Node) => NodeOf(n, HashesOf(hash, t)) }

  // ---- which nodes to fetch ----

  function Prefixed(bit: bool, bs: seq<Bits>): (r: seq<Bits>)
    ensures |r| == |bs| && forall i :: 0 <= i < |bs| ==> r[i] == [bit] + bs[i]
  {
    seq(|bs|, i requires 0 <= i < |bs| => [bit] + bs[i])
  }

  /** All bit strings of length n, in order. */
  function AllBits(n: nat): seq<Bits> {
    if n == 0 then [[]] else Prefixed(false, AllBits(n - 1)) + Prefixed(true, AllBits(n - 1))
  }

  lemma InPrefixed(b: Bits, rest: seq<Bits>)
    requires b != [] && b[1..] in rest
    ensures b in Prefixed(b[0], rest)
  {
    var i :| 0 <= i < |rest| && rest[i] == b[1..];
    assert Prefixed(b[0], rest)[i] == [b[0]] + b[1..] == b;
  }

  lemma {:induction false} AllBitsAll(b: Bits)
    ensures b in AllBits(|b|)
    decreases |b|
  {
    if b != [] {
      AllBitsAll(b[1..]);
      InPrefixed(b, AllBits(|b| - 1));
    }
  }

  lemma {:induction false} AllBitsOnly(n: nat)
    ensures forall b :: b in AllBits(n) ==> |b| == n
  {
    if n > 0 { AllBitsOnly(n - 1); }
  }

  /** The 256 children of a node, in order. */
  ghost predicate Octets(s: seq<Bits>) { forall b :: b in s <==> |b| == 8 }

  function AllOctets(): (s: seq<Bits>)
    ensures Octets(s) && Distinct(s)
  {
    AllBitsDistinct(8);
    assert forall b: Bits :: |b| == 8 ==> b in AllBits(8) by {
      forall b: Bits | |b| == 8 ensures b in AllBits(8) { AllBitsAll(b); }
    }
    AllBitsOnly(8);
    AllBits(8)
  }

  /** The entries of `bs` at which two trees differ, in order; `at` places an entry in the tree. */
  function DifferingOf(bs: seq<Bits>, at: Bits -> Node, ours: Tree, theirs: Tree): (d: seq<Bits>)
    ensures forall b :: b in d <==> b in bs && ours(at(b)) != theirs(at(b))
    decreases |bs|
  {
    if bs == [] then [] else
    var init, last := bs[..|bs| - 1], bs[|bs| - 1];
    assert bs == init + [last];
    DifferingOf(init, at, ours, theirs) + (if ours(at(last)) != theirs(at(last)) then [last] else [])
  }

  method Differing(bs: seq<Bits>, at: Bits -> Node, ours: Tree, theirs: Tree) returns (d: seq<Bits>)
    ensures d == DifferingOf(bs, at, ours, theirs)
  {
    d := [];
    for i := 0 to |bs|
      invariant d == DifferingOf(bs[..i], at, ours, theirs)
    {
      assert bs[..i + 1][..|bs[..i + 1]| - 1] == bs[..i];
      if ours(at(bs[i])) != theirs(at(bs[i])) {
        d := d + [bs[i]];
      }
    }
    assert bs[..|bs|] == bs;
  }

  /** `truncate`: at most the first n. */
  function Take<T>(s: seq<T>, n: nat): (t: seq<T>)
    ensures t <= s && |t| == Min(|s|, n)
  {
    if |s| <= n then s else s[..n]
  }

  /** A differing bucket c is covered: as a whole, or leaf by differing leaf. */
  ghost predicate Covered(targets: seq<Node>, ours: Tree, theirs: Tree, c: Bits) {
    Coarse(c) in targets || forall j :: |j| == 8 && ours(Leaf(c, j)) != theirs(Leaf(c, j)) ==> Leaf(c, j) in targets
  }

  /** No node on which the trees agree. */
  ghost predicate OnlyDiffering(nodes: seq<Node>, ours: Tree, theirs: Tree) {
    forall n :: n in nodes ==> ours(n) != theirs(n)
  }

  function Buckets(octets: seq<Bits>, ours: Tree, theirs: Tree): seq<Bits> {
    DifferingOf(octets, (c: Bits) => Coarse(c), ours, theirs)
  }

  function LeavesOf(octets: seq<Bits>, c: Bits, ours: Tree, theirs: Tree): seq<Bits> {
    DifferingOf(octets, (j: Bits) => Leaf(c, j), ours, theirs)
  }

  function Placed(c: Bits, leaves: seq<Bits>): (nodes: seq<Node>)
    ensures |nodes| == |leaves| && forall i :: 0 <= i < |leaves| ==> nodes[i] == Leaf(c, leaves[i])
  {
    seq(|leaves|, i requires 0 <= i < |leaves| => Leaf(c, leaves[i]))
  }

  /** The nodes worth fetching under a bucket that we hold something of: its differing leaves,
      or the whole bucket when they are many. */
  function Expanded(octets: seq<Bits>, c: Bits, ours: Tree, theirs: Tree): seq<Node> {
    var leaves := LeavesOf(octets, c, ours, theirs);
    if |leaves| >= WHOLESALE then [Coarse(c)] else Placed(c, leaves)
  }

  /** Buckets that we hold nothing of, taken whole. */
  function Whole(some: seq<Bits>, ours: Tree): seq<Node>
    decreases |some|
  {
    if some == [] then [] else
    var c := some[|some| - 1];
    Whole(some[..|some| - 1], ours) + (if ours(Coarse(c)) == ZERO then [Coarse(c)] else [])
  }

  /** The others, expanded. */
  function Split(octets: seq<Bits>, some: seq<Bits>, ours: Tree, theirs: Tree): seq<Node>
    decreases |some|
  {
    if some == [] then [] else
    var c := some[|some| - 1];
    Split(octets, some[..|some| - 1], ours, theirs)
      + (if ours(Coarse(c)) == ZERO then [] else Expanded(octets, c, ours, theirs))
  }

  /** All nodes that a pass would fetch, were it not for the last cap. */
  function Wanted(octets: seq<Bits>, ours: Tree, theirs: Tree): seq<Node> {
    var some := Take(Buckets(octets, ours, theirs), COARSE_MAX);
    Whole(some, ours) + Split(octets, some, ours, theirs)
  }

  lemma ExpandedCovers(octets: seq<Bits>, c: Bits, ours: Tree, theirs: Tree)
    requires Octets(octets) && ours(Coarse(c)) != theirs(Coarse(c))
    ensures Covered(Expanded(octets, c, ours, theirs), ours, theirs, c)
            && OnlyDiffering(Expanded(octets, c, ours, theirs), ours, theirs)
  {
    var leaves, nodes := LeavesOf(octets, c, ours, theirs), Expanded(octets, c, ours, theirs);
    if |leaves| < WHOLESALE {
      forall j | |j| == 8 && ours(Leaf(c, j)) != theirs(Leaf(c, j)) ensures Leaf(c, j) in nodes {
        assert j in leaves;
        var i :| 0 <= i < |leaves| && leaves[i] == j;
        assert nodes[i] == Leaf(c, j);
      }
      forall n | n in nodes ensures ours(n) != theirs(n) {
        var i :| 0 <= i < |nodes| && nodes[i] == n;
        assert leaves[i] in leaves;
      }
    }
  }

  lemma CoveredMore(targets: seq<Node>, more: seq<Node>, ours: Tree, theirs: Tree, c: Bits)
    requires Covered(targets, ours, theirs, c) || Covered(more, ours, theirs, c)
    ensures Covered(targets + more, ours, theirs, c)
  {}

  lemma {:induction false} SomeCovered(octets: seq<Bits>, some: seq<Bits>, ours: Tree, theirs: Tree, c: Bits)
    requires Octets(octets) && c in some && forall x :: x in some ==> ours(Coarse(x)) != theirs(Coarse(x))
    ensures if ours(Coarse(c)) == ZERO then Coarse(c) in Whole(some, ours)
            else Covered(Split(octets, some, ours, theirs), ours, theirs, c)
    decreases |some|
  {
    var init, last := some[..|some| - 1], some[|some| - 1];
    assert some == init + [last];
    if c in init {
      SomeCovered(octets, init, ours, theirs, c);
      var more := if ours(Coarse(last)) == ZERO then [] else Expanded(octets, last, ours, theirs);
      if ours(Coarse(c)) != ZERO { CoveredMore(Split(octets, init, ours, theirs), more, ours, theirs, c); }
    } else if ours(Coarse(c)) != ZERO {
      ExpandedCovers(octets, c, ours, theirs);
      CoveredMore(Split(octets, init, ours, theirs), Expanded(octets, c, ours, theirs), ours, theirs, c);
    }
  }

  lemma {:induction false} SomeDiffer(octets: seq<Bits>, some: seq<Bits>, ours: Tree, theirs: Tree)
    requires Octets(octets) && forall x :: x in some ==> ours(Coarse(x)) != theirs(Coarse(x))
    ensures OnlyDiffering(Whole(some, ours), ours, theirs)
            && OnlyDiffering(Split(octets, some, ours, theirs), ours, theirs)
    decreases |some|
  {
    if some != [] {
      var init, last := some[..|some| - 1], some[|some| - 1];
      assert some == init + [last];
      SomeDiffer(octets, init, ours, theirs);
      ExpandedCovers(octets, last, ours, theirs);
    }
  }

  /** What a pass would fetch covers every differing bucket within the first cap, those that we
      hold nothing of as a whole, and contains no node on which the trees agree. */
  lemma WantedCovers(octets: seq<Bits>, ours: Tree, theirs: Tree, c: Bits)
    requires Octets(octets)
    ensures OnlyDiffering(Wanted(octets, ours, theirs), ours, theirs)
    ensures c in Take(Buckets(octets, ours, theirs), COARSE_MAX) ==>
              Covered(Wanted(octets, ours, theirs), ours, theirs, c)
    ensures c in Take(Buckets(octets, ours, theirs), COARSE_MAX) && ours(Coarse(c)) == ZERO ==>
              Coarse(c) in Wanted(octets, ours, theirs)
  {
    var some := Take(Buckets(octets, ours, theirs), COARSE_MAX);
    assert forall x :: x in some ==> x in Buckets(octets, ours, theirs);
    SomeDiffer(octets, some, ours, theirs);
    if c in some {
      SomeCovered(octets, some, ours, theirs, c);
      if ours(Coarse(c)) != ZERO { CoveredMore(Whole(some, ours), Split(octets, some, ours, theirs), ours, theirs, c); }
    }
  }

  lemma {:induction false} WholeSize(some: seq<Bits>, ours: Tree)
    ensures |Whole(some, ours)| <= |some|
    decreases |some|
  {
    if some != [] { WholeSize(some[..|some| - 1], ours); }
  }

  /** A bucket that we hold nothing of survives the last cap, whatever the others expand to. */
  lemma EmptyBucketsComeFirst(octets: seq<Bits>, ours: Tree, theirs: Tree, c: Bits)
    requires Octets(octets) && c in Take(Buckets(octets, ours, theirs), COARSE_MAX) && ours(Coarse(c)) == ZERO
    ensures Coarse(c) in Take(Wanted(octets, ours, theirs), FETCH_MAX)
  {
    var some := Take(Buckets(octets, ours, theirs), COARSE_MAX);
    assert forall x :: x in some ==> x in Buckets(octets, ours, theirs);
    SomeCovered(octets, some, ours, theirs, c);
    WholeSize(some, ours);
    var whole, first := Whole(some, ours), Take(Wanted(octets, ours, theirs), FETCH_MAX);
    var i :| 0 <= i < |whole| && whole[i] == Coarse(c);
    assert first[i] == Wanted(octets, ours, theirs)[i] == whole[i];
  }

  ghost predicate Distinct(s: seq<Bits>) { forall i, j :: 0 <= i < j < |s| ==> s[i] != s[j] }

  lemma {:induction false} AllBitsDistinct(n: nat)
    ensures Distinct(AllBits(n))
  {
    if n > 0 {
      AllBitsDistinct(n - 1);
      var rest := AllBits(n - 1);
      var r := AllBits(n);
      forall i, j | 0 <= i < j < |r| ensures r[i] != r[j] {
        assert r[i] == if i < |rest| then [false] + rest[i] else [true] + rest[i - |rest|];
        assert r[j] == if j < |rest| then [false] + rest[j] else [true] + rest[j - |rest|];
        assert r[i][1..] == rest[if i < |rest| then i else i - |rest|];
        assert r[j][1..] == rest[if j < |rest| then j else j - |rest|];
      }
    }
  }

  function DifferingSet(bs: seq<Bits>, at: Bits -> Node, ours: Tree, theirs: Tree): set<Bits> {
    set b | b in bs && ours(at(b)) != theirs(at(b))
  }

  lemma DifferingSetNext(init: seq<Bits>, last: Bits, at: Bits -> Node, ours: Tree, theirs: Tree)
    requires last !in init
    ensures var were, are := DifferingSet(init, at, ours, theirs), DifferingSet(init + [last], at, ours, theirs);
            if ours(at(last)) != theirs(at(last)) then are == were + {last} && last !in were else are == were
  {}

  /** Without repeats, as many entries as members. */
  lemma {:induction false} DifferingCount(bs: seq<Bits>, at: Bits -> Node, ours: Tree, theirs: Tree)
    requires Distinct(bs)
    ensures |DifferingOf(bs, at, ours, theirs)| == |DifferingSet(bs, at, ours, theirs)|
    decreases |bs|
  {
    if bs == [] {
      assert DifferingSet(bs, at, ours, theirs) == {};
    } else {
      var init, last := bs[..|bs| - 1], bs[|bs| - 1];
      assert bs == init + [last];
      DifferingCount(init, at, ours, theirs);
      DifferingSetNext(init, last, at, ours, theirs);
    }
  }

  lemma PlacedMembers(c: Bits, found: seq<Bits>, n: Node)
    ensures n in Placed(c, found) <==> n.Leaf? && n.block == c && n.slot in found
  {
    var nodes := Placed(c, found);
    if n in nodes {
      var i :| 0 <= i < |nodes| && nodes[i] == n;
      assert found[i] in found;
    }
    if n.Leaf? && n.block == c && n.slot in found {
      var i :| 0 <= i < |found| && found[i] == n.slot;
      assert nodes[i] == n;
    }
  }

  lemma LeavesCount(octets: seq<Bits>, c: Bits, ours: Tree, theirs: Tree, leaves: set<Bits>)
    requires Octets(octets) && Distinct(octets)
    requires forall j :: j in leaves <==> |j| == 8 && ours(Leaf(c, j)) != theirs(Leaf(c, j))
    ensures |LeavesOf(octets, c, ours, theirs)| == |leaves|
    ensures forall j :: j in LeavesOf(octets, c, ours, theirs) <==> j in leaves
  {
    var at := (j: Bits) => Leaf(c, j);
    DifferingCount(octets, at, ours, theirs);
    assert DifferingSet(octets, at, ours, theirs) == leaves;
  }

  /** A bucket is taken whole exactly when at least 32 of its leaves differ; fewer are fetched one
      by one, and no leaf that agrees is. */
  lemma WholeIffMany(octets: seq<Bits>, c: Bits, ours: Tree, theirs: Tree, leaves: set<Bits>)
    requires Octets(octets) && Distinct(octets)
    requires forall j :: j in leaves <==> |j| == 8 && ours(Leaf(c, j)) != theirs(Leaf(c, j))
    ensures if |leaves| >= 32 then Expanded(octets, c, ours, theirs) == [Coarse(c)]
            else |Expanded(octets, c, ours, theirs)| == |leaves|
                 && forall n :: n in Expanded(octets, c, ours, theirs) <==> n.Leaf? && n.block == c && n.slot in leaves
  {
    LeavesCount(octets, c, ours, theirs, leaves);
    forall n: Node { PlacedMembers(c, LeavesOf(octets, c, ours, theirs), n); }
  }

  method Expand(octets: seq<Bits>, c: Bits, ours: Tree, theirs: Tree) returns (nodes: seq<Node>)
    ensures nodes == Expanded(octets, c, ours, theirs)
  {
    var leaves := Differing(octets, (j: Bits) => Leaf(c, j), ours, theirs);
    if |leaves| >= WHOLESALE {
      return [Coarse(c)];
    }
    nodes := Placed(c, leaves);
  }

  /** The targets of one pass: the buckets to take whole first, then the expanded ones. */
  method Targets(octets: seq<Bits>, ours: Tree, theirs: Tree) returns (targets: seq<Node>)
    ensures targets == Take(Wanted(octets, ours, theirs), FETCH_MAX)
  {
    var found := Differing(octets, (c: Bits) => Coarse(c), ours, theirs);
    var some := Take(found, COARSE_MAX);
    var whole, rest := [], [];
    for i := 0 to |some|
      invariant whole == Whole(some[..i], ours) && rest == Split(octets, some[..i], ours, theirs)
    {
      assert some[..i + 1][..|some[..i + 1]| - 1] == some[..i];
      if ours(Coarse(some[i])) == ZERO {
        whole := whole + [Coarse(some[i])];
      } else {
        var more := Expand(octets, some[i], ours, theirs);
        rest := rest + more;
      }
    }
    assert some[..|some|] == some;
    targets := Take(whole + rest, FETCH_MAX);
  }

  // ---- paging a subtree ----

  /** Where the page that starts at `from` ends: as many rows as the byte cap allows, at least
      one. */
  function PageEnd(rows: seq<Attestation>, size: Attestation -> nat, max: nat, from: nat, at: nat,
                   used: nat): (end: nat)
    requires from <= at <= |rows|
    ensures at <= end <= |rows| && (from < |rows| && from == at ==> from < end)
    decreases |rows| - at
  {
    if at == |rows| || (used + size(rows[at]) > max && at > from) then at
    else PageEnd(rows, size, max, from, at + 1, used + size(rows[at]))
  }

  function Total(rows: seq<Attestation>, size: Attestation -> nat): nat
    decreases |rows|
  {
    if rows == [] then 0 else Total(rows[..|rows| - 1], size) + size(rows[|rows| - 1])
  }

  lemma TotalNext(rows: seq<Attestation>, size: Attestation -> nat, from: nat, at: nat)
    requires from <= at < |rows|
    ensures Total(rows[from..at + 1], size) == Total(rows[from..at], size) + size(rows[at])
  {
    assert rows[from..at + 1][..|rows[from..at + 1]| - 1] == rows[from..at];
  }

  /** A page fits the byte cap unless it is a single row; one more row would not have fitted. */
  ghost predicate PageFits(rows: seq<Attestation>, size: Attestation -> nat, max: nat, from: nat, end: nat) {
    && from <= end <= |rows| && (end <= from + 1 || Total(rows[from..end], size) <= max)
    && (from < end < |rows| ==> Total(rows[from..end + 1], size) > max)
  }

  lemma {:induction false} PageEndFits(rows: seq<Attestation>, size: Attestation -> nat, max: nat, from: nat, at: nat,
                                       used: nat)
    requires from <= at <= |rows| && used == Total(rows[from..at], size) && (at <= from + 1 || used <= max)
    ensures PageFits(rows, size, max, from, PageEnd(rows, size, max, from, at, used))
    decreases |rows| - at
  {
    if at < |rows| {
      TotalNext(rows, size, from, at);
      if at == from || used + size(rows[at]) <= max {
        PageEndFits(rows, size, max, from, at + 1, used + size(rows[at]));
      }
    }
  }

  /** One page of rows from `from` on, and where to resume if rows are left. */
  method Page(rows: seq<Attestation>, size: Attestation -> nat, max: nat, from: nat)
      returns (page: seq<Attestation>, next: Option<nat>)
    requires from <= |rows|
    ensures page == rows[from..PageEnd(rows, size, max, from, from, 0)]
    ensures next == if PageEnd(rows, size, max, from, from, 0) < |rows|
            then Some(PageEnd(rows, size, max, from, from, 0)) else None
    ensures PageFits(rows, size, max, from, from + |page|)
  {
    PageEndFits(rows, size, max, from, from, 0);
    page := [];
    var used: nat, at: nat := 0, from;
    while at < |rows|
      invariant from <= at <= |rows| && page == rows[from..at]
      invariant PageEnd(rows, size, max, from, at, used) == PageEnd(rows, size, max, from, from, 0)
      decreases |rows| - at
    {
      var len := size(rows[at]);
      if used + len > max && page != [] {
        return page, Some(at);
      }
      used := used + len;
      page := page + [rows[at]];
      at := at + 1;
    }
    next := None;
  }

  function PagesFrom(rows: seq<Attestation>, size: Attestation -> nat, max: nat, from: nat): nat
    requires from <= |rows|
    decreases |rows| - from
  {
    if from == |rows| then 0 else 1 + PagesFrom(rows, size, max, PageEnd(rows, size, max, from, from, 0))
  }

  // ---- one pass ----

  /** The peer's facts under a node. */
  ghost predicate Lists(hash: HashFn, b: Table, n: Node, rows: seq<Attestation>) {
    forall a :: a in rows <==> exists k :: k in b && b[k] == a && Under(n, hash(a))
  }

  ghost predicate Named(b: Table, a: Attestation) { KeyOf(a) in b && b[KeyOf(a)] == a }

  ghost function HashesUnder(hash: HashFn, t: Table, n: Node): set<Hash> {
    set k | k in t && Under(n, hash(t[k])) :: hash(t[k])
  }

  /** Equal aggregates mean equal hash sets, and equal hashes mean equal facts. */
  ghost predicate Faithful(hash: HashFn, a: Table, b: Table) {
    && (forall n :: TreeOf(hash, a)(n) == TreeOf(hash, b)(n) ==> HashesUnder(hash, a, n) == HashesUnder(hash, b, n))
    && (forall k, j :: k in a && j in b && hash(a[k]) == hash(b[j]) ==> a[k] == b[j])
  }

  /** Where the trees agree we already have the peer's facts. */
  lemma AgreeingIsKnown(hash: HashFn, a: Table, b: Table, n: Node, k: PathKey)
    requires Faithful(hash, a, b) && TableOk(a) && TableOk(b) && k in b && Under(n, hash(b[k]))
             && TreeOf(hash, a)(n) == TreeOf(hash, b)(n)
    ensures k in a && a[k] == b[k]
  {
    assert hash(b[k]) in HashesUnder(hash, b, n);
    assert hash(b[k]) in HashesUnder(hash, a, n);
    var j :| j in a && Under(n, hash(a[j])) && hash(a[j]) == hash(b[k]);
    assert a[j] == b[k];
  }

  ghost predicate AnyUnder(targets: seq<Node>, h: Hash) { exists n :: n in targets && Under(n, h) }

  /** A row whose bucket is covered is under a target or already ours. */
  lemma CoveredMissesNothing(hash: HashFn, a: Table, b: Table, all: seq<Node>, k: PathKey)
    requires Faithful(hash, a, b) && TableOk(a) && TableOk(b) && k in b
    requires Covered(all, TreeOf(hash, a), TreeOf(hash, b), BlockOf(hash(b[k])))
    ensures AnyUnder(all, hash(b[k])) || (k in a && a[k] == b[k])
  {
    var h := hash(b[k]);
    var c, j := BlockOf(h), SlotOf(h);
    if Coarse(c) in all {
      assert Under(Coarse(c), h);
    } else if Leaf(c, j) in all {
      assert Under(Leaf(c, j), h);
    } else {
      AgreeingIsKnown(hash, a, b, Leaf(c, j), k);
    }
  }

  /** Under the caps every peer fact is either under a target or already ours. */
  lemma NothingMissed(hash: HashFn, a: Table, b: Table, octets: seq<Bits>, k: PathKey)
    requires Faithful(hash, a, b) && TableOk(a) && TableOk(b) && k in b && Octets(octets)
    requires |Buckets(octets, TreeOf(hash, a), TreeOf(hash, b))| <= COARSE_MAX
    ensures AnyUnder(Wanted(octets, TreeOf(hash, a), TreeOf(hash, b)), hash(b[k])) || (k in a && a[k] == b[k])
  {
    var ours, theirs, c := TreeOf(hash, a), TreeOf(hash, b), BlockOf(hash(b[k]));
    if ours(Coarse(c)) != theirs(Coarse(c)) {
      assert c in Buckets(octets, ours, theirs);
      WantedCovers(octets, ours, theirs, c);
      CoveredMissesNothing(hash, a, b, Wanted(octets, ours, theirs), k);
    } else {
      AgreeingIsKnown(hash, a, b, Coarse(c), k);
    }
  }

  // ---- merging what was fetched ----

  function KeysOf(s: seq<Attestation>): set<PathKey> { set x | x in s :: KeyOf(x) }

  /** Our table once the peer's rows with the identities in `done` were merged. */
  ghost function Merged(hash: HashFn, a: Table, b: Table, done: set<PathKey>): Table { Stored(hash, a, Only(b, done)) }

  lemma CanonicalFixed(x: Attestation)
    requires Canonical(x)
    ensures Canonicalize(x) == x
  {
    Order.SortedUnique(Order.Canon(x.sigs), x.sigs);
  }

  /** Rows of the peer's, repeated or not, coalesce to themselves. */
  lemma {:induction false} PageTable(b: Table, page: seq<Attestation>)
    requires TableOk(b) && AllNamed(b, page)
    ensures MergeAll(map[], page) == Only(b, KeysOf(page))
    decreases |page|
  {
    if page != [] {
      var init, x := page[..|page| - 1], page[|page| - 1];
      assert page == init + [x];
      PageTable(b, init);
      assert x in page && Named(b, x);
      CanonicalFixed(x);
      JoinIdempotent(x);
      assert KeysOf(page) == KeysOf(init) + {KeyOf(x)};
      assert Only(b, KeysOf(page)) == Only(b, KeysOf(init))[KeyOf(x) := x];
    }
  }

  /** Merging the same fact again changes nothing, kept or skipped. */
  lemma KeptAbsorbs(hash: HashFn, was: Attestation, x: Attestation)
    requires Canonical(was) && Canonical(x) && KeyOf(was) == KeyOf(x)
    ensures Kept(hash, Kept(hash, was, x), x) == Kept(hash, was, x)
  {
    JoinAssociative(was, x, x);
    JoinIdempotent(x);
  }

  lemma MergedNext(hash: HashFn, a: Table, b: Table, done: set<PathKey>, page: seq<Attestation>)
    requires TableOk(a) && TableOk(b) && AllNamed(b, page)
    ensures Stored(hash, Merged(hash, a, b, done), MergeAll(map[], page)) == Merged(hash, a, b, done + KeysOf(page))
  {
    PageTable(b, page);
    var more := KeysOf(page);
    var t, u := Stored(hash, Merged(hash, a, b, done), Only(b, more)), Merged(hash, a, b, done + more);
    KeysNext(hash, a, b, done, more);
    forall k | k in u ensures k in t && t[k] == u[k] { RowNext(hash, a, b, done, more, k); }
    SameTables(t, u);
  }

  lemma SameTables(t: Table, u: Table)
    requires t.Keys == u.Keys && forall k :: k in u ==> k in t && t[k] == u[k]
    ensures t == u
  {}

  lemma KeysNext(hash: HashFn, a: Table, b: Table, done: set<PathKey>, more: set<PathKey>)
    ensures Stored(hash, Merged(hash, a, b, done), Only(b, more)).Keys == Merged(hash, a, b, done + more).Keys
  {
    assert Only(b, done + more).Keys == Only(b, done).Keys + Only(b, more).Keys;
    StoredKeys(hash, a, Only(b, done));
    StoredKeys(hash, a, Only(b, done + more));
    StoredKeys(hash, Merged(hash, a, b, done), Only(b, more));
  }

  lemma StoredKeys(hash: HashFn, t: Table, f: Table)
    ensures Stored(hash, t, f).Keys == t.Keys + f.Keys
  {}

  lemma RowNext(hash: HashFn, a: Table, b: Table, done: set<PathKey>, more: set<PathKey>, k: PathKey)
    requires TableOk(a) && TableOk(b) && k in Merged(hash, a, b, done + more)
    ensures var t := Stored(hash, Merged(hash, a, b, done), Only(b, more));
            k in t && t[k] == Merged(hash, a, b, done + more)[k]
  {
    if k in a && k in b { KeptAbsorbs(hash, a[k], b[k]); }
    if k in b { JoinIdempotent(b[k]); }
  }

  /** Whatever part of the peer's rows was merged: our table grew, and not beyond the join. */
  lemma PassIsBounded(hash: HashFn, a: Table, b: Table, done: set<PathKey>)
    requires TableOk(a) && TableOk(b)
    ensures var r := Merged(hash, a, b, done); TableOk(r) && TableLe(a, r) && TableLe(r, TableJoin(a, b))
  {
    var r, j := Merged(hash, a, b, done), TableJoin(a, b);
    StoredOk(hash, a, Only(b, done));
    forall k | k in a ensures k in r && Le(a[k], r[k]) { RowBounded(hash, a, b, done, k); }
    forall k | k in r ensures k in j && Le(r[k], j[k]) { RowBounded(hash, a, b, done, k); }
  }

  lemma RowBounded(hash: HashFn, a: Table, b: Table, done: set<PathKey>, k: PathKey)
    requires TableOk(a) && TableOk(b)
    ensures var r, j := Merged(hash, a, b, done), TableJoin(a, b);
            (k in a ==> k in r && Le(a[k], r[k])) && (k in r ==> k in j && Le(r[k], j[k]))
  {
    if k in a { JoinIdempotent(a[k]); }
    if k in b { JoinIdempotent(b[k]); }
    if k in a && k in b {
      JoinMeaning(a[k], b[k]);
      JoinIdempotent(Join(a[k], b[k]));
      LeLeast(a[k], b[k], Join(a[k], b[k]));
    }
  }

  /** Everything of the peer's that we did not have was merged. */
  ghost predicate NoneLeft(a: Table, b: Table, done: set<PathKey>) {
    forall k :: k in b ==> k in done || (k in a && a[k] == b[k])
  }

  /** Then all of it was, and our table is the join if and only if no merged fact collides with
      its predecessor. */
  lemma PassIsJoin(hash: HashFn, a: Table, b: Table, done: set<PathKey>)
    requires TableOk(a) && TableOk(b) && NoneLeft(a, b, done)
    ensures Merged(hash, a, b, done) == Stored(hash, a, b)
    ensures Merged(hash, a, b, done) == TableJoin(a, b) <==> NoCollision(hash, a, b)
  {
    var r, t := Merged(hash, a, b, done), Stored(hash, a, b);
    assert r.Keys == t.Keys;
    forall k | k in t ensures r[k] == t[k] {
      if k in a { JoinIdempotent(a[k]); }
    }
    StoredIsJoin(hash, a, b);
  }

  /** Merge one page. */
  method MergePage(hash: HashFn, t: Table, page: seq<Attestation>, ghost a: Table, ghost b: Table,
                   ghost done: set<PathKey>, ghost got: seq<Attestation>)
    returns (r: Table)
    requires TableOk(a) && TableOk(b) && AllNamed(b, page) && t == Merged(hash, a, b, done + KeysOf(got))
    ensures r == Merged(hash, a, b, done + KeysOf(got + page))
  {
    MergedNext(hash, a, b, done + KeysOf(got), page);
    KeysOfJoin(done, got, page);
    r := Stored(hash, t, MergeAll(map[], page));
  }

  /** Fetch a subtree page by page and merge each page: all of it is merged exactly when it has no
      more pages than the valve allows. */
  method FetchSubtree(hash: HashFn, t: Table, rows: seq<Attestation>, size: Attestation -> nat, max: nat,
                      ghost a: Table, ghost b: Table, ghost done: set<PathKey>)
                        returns (r: Table, ghost got: seq<Attestation>)
    requires TableOk(a) && TableOk(b) && AllNamed(b, rows) && t == Merged(hash, a, b, done)
    ensures got <= rows && (got == rows <==> PagesFrom(rows, size, max, 0) <= PAGES_MAX)
    ensures r == Merged(hash, a, b, done + KeysOf(got))
  {
    r, got := t, [];
    assert done + KeysOf([]) == done;
    var at: nat, pages: nat := 0, 0;
    while pages < PAGES_MAX
      invariant at <= |rows| && got == rows[..at] && pages <= PAGES_MAX
      invariant PagesFrom(rows, size, max, 0) == pages + PagesFrom(rows, size, max, at)
      invariant r == Merged(hash, a, b, done + KeysOf(got))
      decreases PAGES_MAX - pages
    {
      var page, next := Page(rows, size, max, at);
      if page == [] {
        break;
      }
      PartNamed(b, rows, at, at + |page|);
      r := MergePage(hash, r, page, a, b, done, got);
      got := got + page;
      at := at + |page|;
      pages := pages + 1;
      if next.None? {
        break;
      }
    }
  }

  ghost predicate AllNamed(b: Table, rows: seq<Attestation>) { forall x :: x in rows ==> Named(b, x) && Usable(x) }

  lemma PartNamed(b: Table, rows: seq<Attestation>, lo: nat, hi: nat)
    requires AllNamed(b, rows) && lo <= hi <= |rows|
    ensures AllNamed(b, rows[lo..hi])
  {}

  lemma KeysOfJoin(done: set<PathKey>, s: seq<Attestation>, t: seq<Attestation>)
    ensures done + KeysOf(s) + KeysOf(t) == done + KeysOf(s + t)
  {}

  /** Every row listed under node n was merged. */
  ghost predicate Took(listing: Node -> seq<Attestation>, n: Node, done: set<PathKey>) { KeysOf(listing(n)) <= done }

  /** The subtrees of `targets` fetched and merged one after another. */
  method FetchAll(hash: HashFn, a: Table, targets: seq<Node>, listing: Node -> seq<Attestation>,
                  size: Attestation -> nat, max: nat, ghost b: Table)
    returns (r: Table, ghost done: set<PathKey>)
    requires TableOk(a) && TableOk(b) && forall n :: AllNamed(b, listing(n))
    ensures r == Merged(hash, a, b, done)
    ensures forall n :: n in targets && PagesFrom(listing(n), size, max, 0) <= PAGES_MAX ==> Took(listing, n, done)
  {
    r, done := a, {};
    assert Merged(hash, a, b, {}) == a;
    for i := 0 to |targets|
      invariant r == Merged(hash, a, b, done)
      invariant forall j :: 0 <= j < i && PagesFrom(listing(targets[j]), size, max, 0) <= PAGES_MAX ==>
                  Took(listing, targets[j], done)
    {
      ghost var got;
      r, got := FetchSubtree(hash, r, listing(targets[i]), size, max, a, b, done);
      done := done + KeysOf(got);
    }
  }

  /** What one pass fetches: nothing when the roots agree, everything when we hold nothing,
      else the subtrees of the targets. */
  function Chosen(octets: seq<Bits>, ours: Tree, theirs: Tree): seq<Node> {
    if ours(Root) == theirs(Root) then []
    else if ours(Root) == ZERO then [Root]
    else Take(Wanted(octets, ours, theirs), FETCH_MAX)
  }

  method Choose(octets: seq<Bits>, ours: Tree, theirs: Tree) returns (targets: seq<Node>)
    ensures targets == Chosen(octets, ours, theirs)
  {
    if ours(Root) == theirs(Root) {
      return [];
    }
    if ours(Root) == ZERO {
      return [Root];
    }
    targets := Targets(octets, ours, theirs);
  }

  /** The differing buckets and the targets fit their caps, unless we hold nothing: then there is
      only one target, the whole table. */
  ghost predicate FewTargets(octets: seq<Bits>, ours: Tree, theirs: Tree) {
    ours(Root) == ZERO
    || (|Buckets(octets, ours, theirs)| <= COARSE_MAX && |Wanted(octets, ours, theirs)| <= FETCH_MAX)
  }

  /** Targets and subtrees fit their caps. */
  ghost predicate WithinCaps(octets: seq<Bits>, ours: Tree, theirs: Tree, listing: Node -> seq<Attestation>,
                             size: Attestation -> nat, max: nat) {
    && FewTargets(octets, ours, theirs)
    && forall n :: n in Chosen(octets, ours, theirs) ==> PagesFrom(listing(n), size, max, 0) <= PAGES_MAX
  }

  /** Whatever is listed under the chosen nodes was merged. */
  ghost predicate Fetched(targets: seq<Node>, listing: Node -> seq<Attestation>, done: set<PathKey>) {
    forall n :: n in targets ==> Took(listing, n, done)
  }

  /** The peer's row k was fetched, or we had it. */
  lemma RowDealtWith(hash: HashFn, a: Table, b: Table, octets: seq<Bits>, listing: Node -> seq<Attestation>,
                     done: set<PathKey>, k: PathKey)
    requires Faithful(hash, a, b) && TableOk(a) && TableOk(b) && k in b && Octets(octets)
    requires var ours, theirs := TreeOf(hash, a), TreeOf(hash, b);
             FewTargets(octets, ours, theirs) && Fetched(Chosen(octets, ours, theirs), listing, done)
    requires forall n :: Lists(hash, b, n, listing(n))
    ensures k in done || (k in a && a[k] == b[k])
  {
    var ours, theirs := TreeOf(hash, a), TreeOf(hash, b);
    var targets := Chosen(octets, ours, theirs);
    if ours(Root) == theirs(Root) {
      AgreeingIsKnown(hash, a, b, Root, k);
    } else if ours(Root) == ZERO {
      assert Root in targets;
      ListedIsTaken(hash, b, listing, Root, done, k);
    } else {
      NothingMissed(hash, a, b, octets, k);
      if AnyUnder(targets, hash(b[k])) {
        var n :| n in targets && Under(n, hash(b[k]));
        ListedIsTaken(hash, b, listing, n, done, k);
      }
    }
  }

  lemma ListedIsTaken(hash: HashFn, b: Table, listing: Node -> seq<Attestation>, n: Node, done: set<PathKey>,
                      k: PathKey)
    requires TableOk(b) && k in b && Under(n, hash(b[k])) && Lists(hash, b, n, listing(n)) && Took(listing, n, done)
    ensures k in done
  {
    assert b[k] in listing(n);
    assert KeyOf(b[k]) in KeysOf(listing(n));
  }

  lemma AllDealtWith(hash: HashFn, a: Table, b: Table, octets: seq<Bits>, listing: Node -> seq<Attestation>,
                     done: set<PathKey>)
    requires Faithful(hash, a, b) && TableOk(a) && TableOk(b) && Octets(octets)
    requires var ours, theirs := TreeOf(hash, a), TreeOf(hash, b);
             FewTargets(octets, ours, theirs) && Fetched(Chosen(octets, ours, theirs), listing, done)
    requires forall n :: Lists(hash, b, n, listing(n))
    ensures NoneLeft(a, b, done)
  {
    forall k | k in b ensures k in done || (k in a && a[k] == b[k]) {
      RowDealtWith(hash, a, b, octets, listing, done, k);
    }
  }

  ghost predicate PeerOk(hash: HashFn, b: Table, listing: Node -> seq<Attestation>) {
    TableOk(b) && (forall k :: k in b ==> Usable(b[k])) && forall n :: Lists(hash, b, n, listing(n))
  }

  lemma ListedAreNamed(hash: HashFn, b: Table, listing: Node -> seq<Attestation>)
    requires PeerOk(hash, b, listing)
    ensures forall n :: AllNamed(b, listing(n))
  {
    forall n, x | x in listing(n) ensures Named(b, x) && Usable(x) { assert Lists(hash, b, n, listing(n)); }
  }

  /** One reconciliation pass against a peer whose table does not change meanwhile. Whatever
      the caps cut off, our table only grows and never past the join. When the differing buckets,
      the targets and the pages fit their caps, it is the join if and only if no merged fact has
      the hash of the different fact that it replaces. */
  method Pass(octets: seq<Bits>, hash: HashFn, a: Table, ghost b: Table, ours: Tree, theirs: Tree,
              listing: Node -> seq<Attestation>, size: Attestation -> nat, max: nat) returns (r: Table)
    requires Octets(octets) && TableOk(a) && PeerOk(hash, b, listing)
    requires ours == TreeOf(hash, a) && theirs == TreeOf(hash, b)
    ensures TableOk(r) && TableLe(a, r) && TableLe(r, TableJoin(a, b))
    ensures Faithful(hash, a, b) && WithinCaps(octets, ours, theirs, listing, size, max) ==>
              r == Stored(hash, a, b) && (r == TableJoin(a, b) <==> NoCollision(hash, a, b))
  {
    var targets := Choose(octets, ours, theirs);
    ListedAreNamed(hash, b, listing);
    ghost var done;
    r, done := FetchAll(hash, a, targets, listing, size, max, b);
    PassIsBounded(hash, a, b, done);
    if Faithful(hash, a, b) && WithinCaps(octets, ours, theirs, listing, size, max) {
      AllDealtWith(hash, a, b, octets, listing, done);
      PassIsJoin(hash, a, b, done);
    }
  }

  lemma JoinBothWays(a: Table, b: Table)
    requires TableOk(a) && TableOk(b)
    ensures TableOk(TableJoin(a, b)) && TableJoin(b, TableJoin(a, b)) == TableJoin(a, b)
  {
    var ours := TableJoin(a, b);
    TableJoinLub(a, b);
    var theirs := TableJoin(b, ours);
    TableJoinLub(b, ours);
    forall k | k in ours ensures Le(ours[k], ours[k]) { JoinIdempotent(ours[k]); }
    TableAntisymmetric(ours, theirs);
  }

  /** What a pass of `a` against `b` needs in order to be the join. */
  ghost predicate PassFits(octets: seq<Bits>, hash: HashFn, a: Table, b: Table, listing: Node -> seq<Attestation>,
                           size: Attestation -> nat, max: nat) {
    Faithful(hash, a, b) && NoCollision(hash, a, b)
      && WithinCaps(octets, TreeOf(hash, a), TreeOf(hash, b), listing, size, max)
  }

  /** A pass in each direction: we pull from the peer, then the peer from us. If both fit, both
      sides hold the join, and their trees agree at every node. */
  method BothWaysAgree(octets: seq<Bits>, hash: HashFn, a: Table, b: Table, tree: Table -> Tree,
                       listing: Table -> (Node -> seq<Attestation>), size: Attestation -> nat, max: nat)
                         returns (r: Table, q: Table)
    requires Octets(octets) && PeerOk(hash, a, listing(a)) && PeerOk(hash, b, listing(b))
    requires forall t {:trigger tree(t)} :: TableOk(t) ==> tree(t) == TreeOf(hash, t)
    requires forall t {:trigger listing(t)} :: TableOk(t) && (forall k :: k in t ==> Usable(t[k])) ==>
               PeerOk(hash, t, listing(t))
    ensures TableLe(a, r) && TableLe(b, q) && TableOk(r) && TableOk(q)
    ensures PassFits(octets, hash, a, b, listing(b), size, max)
            && PassFits(octets, hash, b, r, listing(r), size, max) ==>
              r == q == TableJoin(a, b) && forall n :: tree(r)(n) == tree(q)(n)
  {
    r := Pass(octets, hash, a, b, tree(a), tree(b), listing(b), size, max);
    UsableBelow(a, b, r);
    q := Pass(octets, hash, b, r, tree(b), tree(r), listing(r), size, max);
    JoinBothWays(a, b);
  }

  /** Facts between ours and the join are usable. */
  lemma UsableBelow(a: Table, b: Table, r: Table)
    requires TableOk(a) && TableOk(b) && TableOk(r) && TableLe(r, TableJoin(a, b))
    requires (forall k :: k in a ==> Usable(a[k])) && (forall k :: k in b ==> Usable(b[k]))
    ensures forall k :: k in r ==> Usable(r[k])
  {
    forall k | k in r ensures Usable(r[k]) {
      assert k in TableJoin(a, b);
      assert KeyOf(r[k]) == k;
      if k in a { assert KeyOf(a[k]) == k; } else { assert KeyOf(b[k]) == k; }
    }
  }
}
