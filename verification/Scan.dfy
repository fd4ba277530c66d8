/** The journal scan of src/store/rocks.rs: rows of all origins lie in one ordered key space; an
    iterator seeks to the key after the asked number and stops at the first key of another
    origin. It yields exactly the rows that the protocol speaks of, in number order. */
module Scan {
  import opened Common
  import opened Replica
  import opened Keys
  import Pull

  // ---- the key order ----

  lemma {:induction false} NotBeforeItself(a: Bytes, b: Bytes)
    requires Before(a, b)
    ensures !Before(b, a) && a != b
    decreases |a|
  {
    if a != [] && a[0] == b[0] { NotBeforeItself(a[1..], b[1..]); }
  }

  /** Keys under a prefix lie together: from a key under it on, they come before all others. */
  lemma {:induction false} PrefixBlock(prefix: Bytes, start: Bytes, x: Bytes, k: Bytes)
    requires prefix <= start && prefix <= x && !(prefix <= k) && !Before(k, start)
    ensures Before(x, k)
    decreases |prefix|
  {
    assert k != [] && start[0] == prefix[0] == x[0];
    if k[0] == prefix[0] {
      assert prefix == [prefix[0]] + prefix[1..] && k == [k[0]] + k[1..];
      PrefixBlock(prefix[1..], start[1..], x[1..], k[1..]);
    }
  }

  ghost predicate Sorted(keys: seq<Bytes>) { forall i, j :: 0 <= i < j < |keys| ==> Before(keys[i], keys[j]) }

  // ---- the journal's key space ----

  ghost predicate JournalOk(j: map<nat, Event>) { forall i :: i in j ==> i < Pow256(8) && j[i].no == i }

  /** The column family holds the rows of every origin's journal and nothing else. */
  ghost predicate Stores(cf: map<Bytes, Event>, journals: map<Bytes, map<nat, Event>>) {
    && (forall o :: o in journals ==> NameOk(o) && JournalOk(journals[o]))
    && (forall o, i :: o in journals && i in journals[o] ==> JKey(o, i) in cf && cf[JKey(o, i)] == journals[o][i])
    && (forall k :: k in cf ==> exists o, i :: o in journals && i in journals[o] && k == JKey(o, i))
  }

  /** What the iterator visits when it seeks to `start`. */
  ghost predicate Visits(cf: map<Bytes, Event>, start: Bytes, keys: seq<Bytes>) {
    Sorted(keys) && forall k :: k in keys <==> k in cf && !Before(k, start)
  }

  /** `keys` are the rows of one origin above `after`. */
  ghost predicate RowKeys(j: map<nat, Event>, o: Bytes, after: nat, keys: seq<Bytes>)
    requires NameOk(o)
  {
    && (forall k :: k in keys ==> exists i :: i in j && i > after && k == JKey(o, i))
    && (forall i :: i in j && i > after ==> JKey(o, i) in keys)
  }

  lemma JKeyInjective(o: Bytes, i: nat, n: nat)
    requires NameOk(o) && i < Pow256(8) && n < Pow256(8) && JKey(o, i) == JKey(o, n)
    ensures i == n
  {
    BeOrders(i, n, 8);
    assert JKey(o, i)[|OKey(o)|..] == Be(i, 8) && JKey(o, n)[|OKey(o)|..] == Be(n, 8);
  }

  /** The first key of a sorted listing is that of the least number. */
  lemma FirstIsLeast(j: map<nat, Event>, o: Bytes, after: nat, keys: seq<Bytes>) returns (i: nat)
    requires NameOk(o) && JournalOk(j) && Sorted(keys) && RowKeys(j, o, after, keys) && keys != []
    ensures i in j && i > after && keys[0] == JKey(o, i) && forall n :: n in j && n > after ==> i <= n
  {
    assert keys[0] in keys;
    i :| i in j && i > after && keys[0] == JKey(o, i);
    forall n | n in j && n > after ensures i <= n {
      assert JKey(o, n) in keys;
      var m :| 0 <= m < |keys| && keys[m] == JKey(o, n);
      if m > 0 { JournalInOrder(o, i, n); } else { JKeyInjective(o, i, n); }
    }
  }

  lemma RestOfRows(j: map<nat, Event>, o: Bytes, after: nat, keys: seq<Bytes>, i: nat)
    requires NameOk(o) && JournalOk(j) && Sorted(keys) && RowKeys(j, o, after, keys) && keys != []
    requires i in j && i > after && keys[0] == JKey(o, i) && forall n :: n in j && n > after ==> i <= n
    ensures Sorted(keys[1..]) && RowKeys(j, o, i, keys[1..])
  {
    var rest := keys[1..];
    assert keys == [keys[0]] + rest;
    forall k | k in rest ensures exists n :: n in j && n > i && k == JKey(o, n) {
      assert k in keys;
      var n :| n in j && n > after && k == JKey(o, n);
      var m :| 0 <= m < |rest| && rest[m] == k;
      assert Before(keys[0], keys[m + 1]);
      JournalInOrder(o, i, n);
    }
    forall n | n in j && n > i ensures JKey(o, n) in rest {
      assert JKey(o, n) in keys;
      if JKey(o, n) == keys[0] { JKeyInjective(o, i, n); }
    }
  }

  /** The rows are those that the keys stand for, one by one. */
  ghost predicate ReadsAs(j: map<nat, Event>, o: Bytes, keys: seq<Bytes>, rows: seq<Event>)
    requires NameOk(o)
  {
    |rows| == |keys| && forall n :: 0 <= n < |keys| ==>
        rows[n].no in j && rows[n] == j[rows[n].no] && keys[n] == JKey(o, rows[n].no)
  }

  lemma ReadsMore(j: map<nat, Event>, o: Bytes, keys: seq<Bytes>, rows: seq<Event>, i: nat)
    requires NameOk(o) && keys != [] && i in j && j[i].no == i && keys[0] == JKey(o, i)
             && ReadsAs(j, o, keys[1..], rows)
    ensures ReadsAs(j, o, keys, [j[i]] + rows)
  {
    var all := [j[i]] + rows;
    forall n | 0 <= n < |keys| ensures all[n].no in j && all[n] == j[all[n].no] && keys[n] == JKey(o, all[n].no) {
      if n > 0 { assert all[n] == rows[n - 1] && keys[n] == keys[1..][n - 1]; }
    }
  }

  /** A sorted listing of an origin's row keys above `after` reads off the rows above `after`. */
  lemma {:induction false} RowsInOrder(j: map<nat, Event>, o: Bytes, after: nat, keys: seq<Bytes>)
    requires NameOk(o) && JournalOk(j) && Sorted(keys) && RowKeys(j, o, after, keys)
    ensures ReadsAs(j, o, keys, Pull.RowsAfter(j, after))
    decreases |keys|
  {
    if keys == [] {
      NothingAbove(j, o, after, keys);
    } else {
      var i := FirstIsLeast(j, o, after, keys);
      NextAbove(j, after, i);
      RestOfRows(j, o, after, keys, i);
      RowsInOrder(j, o, i, keys[1..]);
      ReadsMore(j, o, keys, Pull.RowsAfter(j, i), i);
    }
  }

  lemma NothingAbove(j: map<nat, Event>, o: Bytes, after: nat, keys: seq<Bytes>)
    requires NameOk(o) && RowKeys(j, o, after, keys) && keys == []
    ensures Pull.RowsAfter(j, after) == []
  {
    assert Pull.Above(j, after) == {};
  }

  lemma NextAbove(j: map<nat, Event>, after: nat, i: nat)
    requires i in j && i > after && forall n :: n in j && n > after ==> i <= n
    ensures Pull.RowsAfter(j, after) == [j[i]] + Pull.RowsAfter(j, i)
  {
    assert i in Pull.Above(j, after);
    assert Least(Pull.Above(j, after)) == i;
    Pull.RowsAfterNext(j, after);
  }

  lemma RowUnderPrefix(o: Bytes, p: Bytes, i: nat, after: nat)
    requires NameOk(o) && NameOk(p) && i < Pow256(8) && after + 1 < Pow256(8)
    ensures OKey(o) <= JKey(p, i) && !Before(JKey(p, i), JKey(o, after + 1)) <==> p == o && i > after
  {
    ScanMeetsOneOrigin(o, p, Be(i, 8));
    if p == o { JournalInOrder(o, i, after + 1); }
  }

  /** A key belongs to the scan of one origin exactly when it is under its prefix. */
  lemma UnderPrefix(cf: map<Bytes, Event>, journals: map<Bytes, map<nat, Event>>, o: Bytes, after: nat, k: Bytes)
    requires Stores(cf, journals) && o in journals && after + 1 < Pow256(8) && k in cf
    requires OKey(o) <= k && !Before(k, JKey(o, after + 1))
    ensures exists i :: i in journals[o] && i > after && k == JKey(o, i)
  {
    var p, i :| p in journals && i in journals[p] && k == JKey(p, i);
    RowUnderPrefix(o, p, i, after);
  }

  /** The visited keys under the prefix: a sorted listing of the origin's rows. */
  lemma Leading(cf: map<Bytes, Event>, journals: map<Bytes, map<nat, Event>>, o: Bytes, after: nat, keys: seq<Bytes>,
                n: nat)
    requires Stores(cf, journals) && o in journals && after + 1 < Pow256(8) && Visits(cf, JKey(o, after + 1), keys)
    requires n <= |keys| && (forall m :: 0 <= m < n ==> OKey(o) <= keys[m]) && (n < |keys| ==> !(OKey(o) <= keys[n]))
    ensures Sorted(keys[..n]) && RowKeys(journals[o], o, after, keys[..n])
  {
    forall k | k in keys[..n] ensures exists i :: i in journals[o] && i > after && k == JKey(o, i) {
      assert k in keys;
      UnderPrefix(cf, journals, o, after, k);
    }
    forall i | i in journals[o] && i > after ensures JKey(o, i) in keys[..n] {
      RowIsLeading(cf, journals, o, after, keys, n, i);
    }
  }

  lemma RowIsLeading(cf: map<Bytes, Event>, journals: map<Bytes, map<nat, Event>>, o: Bytes, after: nat,
                     keys: seq<Bytes>, n: nat, i: nat)
    requires Stores(cf, journals) && o in journals && after + 1 < Pow256(8) && Visits(cf, JKey(o, after + 1), keys)
    requires n <= |keys| && (n < |keys| ==> !(OKey(o) <= keys[n])) && i in journals[o] && i > after
    ensures JKey(o, i) in keys[..n]
  {
    var x, start := JKey(o, i), JKey(o, after + 1);
    assert x in cf;
    RowUnderPrefix(o, o, i, after);
    assert x in keys;
    var m :| 0 <= m < |keys| && keys[m] == x;
    assert OKey(o) <= x && OKey(o) <= start;
    if m > n {
      assert keys[n] in keys && Before(keys[n], x);
      NotBeforeItself(keys[n], x);
      PrefixBlock(OKey(o), start, x, keys[n]);
    }
    assert m != n;
    assert keys[..n][m] == x;
  }

  /** The values of the first keys. */
  ghost predicate ReadOff(cf: map<Bytes, Event>, keys: seq<Bytes>, rows: seq<Event>) {
    |rows| <= |keys| && forall m :: 0 <= m < |rows| ==> keys[m] in cf && rows[m] == cf[keys[m]]
  }

  /** Read until the first key outside the prefix. */
  method TakeRows(cf: map<Bytes, Event>, keys: seq<Bytes>, prefix: Bytes) returns (rows: seq<Event>)
    requires forall k :: k in keys ==> k in cf
    ensures ReadOff(cf, keys, rows) && (|rows| < |keys| ==> !(prefix <= keys[|rows|]))
    ensures forall m :: 0 <= m < |rows| ==> prefix <= keys[m]
  {
    rows := [];
    while |rows| < |keys| && prefix <= keys[|rows|]
      invariant ReadOff(cf, keys, rows) && forall m :: 0 <= m < |rows| ==> prefix <= keys[m]
      decreases |keys| - |rows|
    {
      assert keys[|rows|] in keys;
      rows := rows + [cf[keys[|rows|]]];
    }
  }

  lemma StoredRow(cf: map<Bytes, Event>, journals: map<Bytes, map<nat, Event>>, o: Bytes, i: nat, k: Bytes)
    requires Stores(cf, journals) && o in journals && i in journals[o] && k == JKey(o, i)
    ensures k in cf && cf[k] == journals[o][i]
  {}

  /** The largest 64-bit number. */
  function U64Max(): (m: nat)
    ensures m + 1 == Pow256(8) && m > 0
  {
    Pow256(8) - 1
  }

  /** The number below which the scan for rows above `after` starts: `after`, or one less at the largest
      number, where the next one saturates. */
  function LowFor(after: nat): (low: nat)
    ensures low + 1 == Min(after + 1, U64Max()) && low + 1 < Pow256(8)
  {
    Min(after, U64Max() - 1)
  }

  /** The scan: what it reads is the rows above `after`, in order; at the largest number, which the code
      saturates to, it meets the row of that number itself. */
  method JournalRows(cf: map<Bytes, Event>, ghost journals: map<Bytes, map<nat, Event>>, o: Bytes, after: nat,
                     keys: seq<Bytes>)
    returns (rows: seq<Event>)
    requires Stores(cf, journals) && o in journals && Visits(cf, JKey(o, LowFor(after) + 1), keys)
    ensures rows == Pull.RowsAfter(journals[o], LowFor(after))
  {
    rows := RowsAbove(cf, journals, o, LowFor(after), keys);
  }

  method RowsAbove(cf: map<Bytes, Event>, ghost journals: map<Bytes, map<nat, Event>>, o: Bytes, after: nat,
                   keys: seq<Bytes>)
    returns (rows: seq<Event>)
    requires Stores(cf, journals) && o in journals && after + 1 < Pow256(8) && Visits(cf, JKey(o, after + 1), keys)
    ensures rows == Pull.RowsAfter(journals[o], after)
  {
    rows := TakeRows(cf, keys, OKey(o));
    ghost var n, j := |rows|, journals[o];
    Leading(cf, journals, o, after, keys, n);
    RowsInOrder(j, o, after, keys[..n]);
    ghost var want := Pull.RowsAfter(j, after);
    assert ReadsAs(j, o, keys[..n], want);
    forall m | 0 <= m < n ensures rows[m] == want[m] {
      assert keys[..n][m] == keys[m];
      StoredRow(cf, journals, o, want[m].no, keys[m]);
    }
  }
}
