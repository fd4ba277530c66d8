/** The orders Rust derives for strings, string lists and integers, as used by `sort` and by
    the body comparison of src/store/mod.rs. */
module Order {
  import opened Common

  datatype Cmp = Less | Equal | Greater

  function Flip(c: Cmp): Cmp {
    match c case Less => Greater case Equal => Equal case Greater => Less
  }

  /** `Ordering::then_with`. */
  function Then(c: Cmp, d: Cmp): Cmp { if c == Equal then d else c }

  function CmpNat(a: nat, b: nat): Cmp {
    if a < b then Less else if a == b then Equal else Greater
  }

  function CmpString(a: string, b: string): Cmp {
    if a == [] then (if b == [] then Equal else Less)
    else if b == [] then Greater
    else if a[0] < b[0] then Less
    else if b[0] < a[0] then Greater
    else CmpString(a[1..], b[1..])
  }

  function CmpStrings(a: seq<string>, b: seq<string>): Cmp {
    if a == [] then (if b == [] then Equal else Less)
    else if b == [] then Greater
    else Then(CmpString(a[0], b[0]), CmpStrings(a[1..], b[1..]))
  }

  lemma {:induction false} StringLaws(a: string, b: string)
    ensures CmpString(a, b) == Equal <==> a == b
    ensures CmpString(b, a) == Flip(CmpString(a, b))
    decreases |a|
  {
    if a != [] && b != [] {
      StringLaws(a[1..], b[1..]);
      assert a == [a[0]] + a[1..] && b == [b[0]] + b[1..];
    }
  }

  /** a comes before b: at the first difference its character is smaller, or it ends there. */
  ghost predicate Precedes(a: string, b: string) { exists i: nat :: PrecedesAt(a, b, i) }

  ghost predicate PrecedesAt(a: string, b: string, i: nat) {
    i <= |a| && i < |b| && a[..i] == b[..i] && (i == |a| || a[i] < b[i])
  }

  lemma SameHead<T>(a: seq<T>, b: seq<T>, i: nat)
    requires i <= |a| && i <= |b| && a[..i] == b[..i]
    ensures i > 0 ==> a[0] == b[0]
  {
    if i > 0 { assert a[..i][0] == a[0] && b[..i][0] == b[0]; }
  }

  lemma PrecedesShift(a: string, b: string, i: nat)
    requires a != [] && b != [] && a[0] == b[0]
    ensures PrecedesAt(a, b, i + 1) <==> PrecedesAt(a[1..], b[1..], i)
  {
    if i + 1 <= |a| && i + 1 <= |b| {
      assert a[..i + 1] == [a[0]] + a[1..][..i] && b[..i + 1] == [b[0]] + b[1..][..i];
      assert a[..i + 1] == b[..i + 1] ==> a[..i + 1][1..] == b[..i + 1][1..];
      assert a[..i + 1][1..] == a[1..][..i] && b[..i + 1][1..] == b[1..][..i];
    }
  }

  lemma {:induction false} StringMeaning(a: string, b: string)
    ensures CmpString(a, b) == Less <==> Precedes(a, b)
    decreases |a|
  {
    if a == [] {
      if b != [] { assert PrecedesAt(a, b, 0); }
    } else if b != [] && a[0] == b[0] {
      StringMeaning(a[1..], b[1..]);
      if Precedes(a, b) {
        var i: nat :| PrecedesAt(a, b, i);
        PrecedesShift(a, b, i - 1);
        assert PrecedesAt(a[1..], b[1..], i - 1);
      }
      if Precedes(a[1..], b[1..]) {
        var i: nat :| PrecedesAt(a[1..], b[1..], i);
        PrecedesShift(a, b, i);
        assert PrecedesAt(a, b, i + 1);
      }
    } else if b != [] {
      if a[0] < b[0] { assert PrecedesAt(a, b, 0); }
      if Precedes(a, b) {
        var i: nat :| PrecedesAt(a, b, i);
        SameHead(a, b, i);
      }
    }
  }

  /** The same for lists of strings. */
  ghost predicate ListPrecedes(a: seq<string>, b: seq<string>) { exists i: nat :: ListPrecedesAt(a, b, i) }

  ghost predicate ListPrecedesAt(a: seq<string>, b: seq<string>, i: nat) {
    i <= |a| && i < |b| && a[..i] == b[..i] && (i == |a| || Precedes(a[i], b[i]))
  }

  lemma ListPrecedesShift(a: seq<string>, b: seq<string>, i: nat)
    requires a != [] && b != [] && a[0] == b[0]
    ensures ListPrecedesAt(a, b, i + 1) <==> ListPrecedesAt(a[1..], b[1..], i)
  {
    if i + 1 <= |a| && i + 1 <= |b| {
      assert a[..i + 1] == [a[0]] + a[1..][..i] && b[..i + 1] == [b[0]] + b[1..][..i];
      assert a[..i + 1] == b[..i + 1] ==> a[..i + 1][1..] == b[..i + 1][1..];
      assert a[..i + 1][1..] == a[1..][..i] && b[..i + 1][1..] == b[1..][..i];
    }
  }

  lemma {:induction false} StringsMeaning(a: seq<string>, b: seq<string>)
    ensures CmpStrings(a, b) == Less <==> ListPrecedes(a, b)
    decreases |a|
  {
    if a == [] {
      if b != [] { assert ListPrecedesAt(a, b, 0); }
    } else if b != [] {
      StringLaws(a[0], b[0]);
      StringMeaning(a[0], b[0]);
      if a[0] == b[0] {
        StringsMeaning(a[1..], b[1..]);
        if ListPrecedes(a, b) {
          var i: nat :| ListPrecedesAt(a, b, i);
          ListPrecedesShift(a, b, i - 1);
          assert ListPrecedesAt(a[1..], b[1..], i - 1);
        }
        if ListPrecedes(a[1..], b[1..]) {
          var i: nat :| ListPrecedesAt(a[1..], b[1..], i);
          ListPrecedesShift(a, b, i);
          assert ListPrecedesAt(a, b, i + 1);
        }
      } else {
        if Precedes(a[0], b[0]) { assert ListPrecedesAt(a, b, 0); }
        if ListPrecedes(a, b) {
          var i: nat :| ListPrecedesAt(a, b, i);
          SameHead(a, b, i);
        }
      }
    }
  }

  lemma {:induction false} StringTransitive(a: string, b: string, c: string)
    requires CmpString(a, b) == Less && CmpString(b, c) == Less
    ensures CmpString(a, c) == Less
    decreases |a|
  {
    if a != [] && a[0] == b[0] && b[0] == c[0] {
      StringTransitive(a[1..], b[1..], c[1..]);
    }
  }

  lemma {:induction false} StringsLaws(a: seq<string>, b: seq<string>)
    ensures CmpStrings(a, b) == Equal <==> a == b
    ensures CmpStrings(b, a) == Flip(CmpStrings(a, b))
    decreases |a|
  {
    if a != [] && b != [] {
      StringLaws(a[0], b[0]);
      StringsLaws(a[1..], b[1..]);
      assert a == [a[0]] + a[1..] && b == [b[0]] + b[1..];
    }
  }

  lemma {:induction false} StringsTransitive(a: seq<string>, b: seq<string>, c: seq<string>)
    requires CmpStrings(a, b) == Less && CmpStrings(b, c) == Less
    ensures CmpStrings(a, c) == Less
    decreases |a|
  {
    if a != [] && b != [] && c != [] {
      StringLaws(a[0], b[0]); StringLaws(b[0], c[0]); StringLaws(a[0], c[0]);
      if a[0] == b[0] && b[0] == c[0] {
        StringsTransitive(a[1..], b[1..], c[1..]);
      } else if a[0] != b[0] && b[0] != c[0] {
        StringTransitive(a[0], b[0], c[0]);
      }
    }
  }

  // ---- sort() followed by dedup() ----

  ghost predicate StrictlySorted(s: seq<string>) {
    forall i, j :: 0 <= i < j < |s| ==> CmpString(s[i], s[j]) == Less
  }

  /** Insert into a strictly sorted list, dropping an exact duplicate. */
  function Insert(x: string, s: seq<string>): (r: seq<string>) {
    if s == [] then [x]
    else match CmpString(x, s[0])
      case Equal => s
      case Less => [x] + s
      case Greater => [s[0]] + Insert(x, s[1..])
  }

  lemma {:induction false} InsertElems(x: string, s: seq<string>)
    ensures Elems(Insert(x, s)) == Elems(s) + {x}
    decreases |s|
  {
    if s != [] {
      StringLaws(x, s[0]);
      assert Elems(s) == {s[0]} + Elems(s[1..]);
      InsertElems(x, s[1..]);
      assert Elems([s[0]] + Insert(x, s[1..])) == {s[0]} + Elems(Insert(x, s[1..]));
    }
  }

  lemma PrependSorted(x: string, s: seq<string>)
    requires StrictlySorted(s) && forall y :: y in s ==> CmpString(x, y) == Less
    ensures StrictlySorted([x] + s)
  {}

  lemma {:induction false} InsertSorted(x: string, s: seq<string>)
    requires StrictlySorted(s)
    ensures StrictlySorted(Insert(x, s))
    decreases |s|
  {
    if s != [] {
      StringLaws(x, s[0]);
      if CmpString(x, s[0]) == Less {
        forall y | y in s ensures CmpString(x, y) == Less {
          if y != s[0] { StringTransitive(x, s[0], y); }
        }
        PrependSorted(x, s);
      } else if CmpString(x, s[0]) == Greater {
        var t := Insert(x, s[1..]);
        InsertSorted(x, s[1..]);
        InsertElems(x, s[1..]);
        forall y | y in t ensures CmpString(s[0], y) == Less {
          assert y in Elems(t);
        }
        PrependSorted(s[0], t);
      }
    }
  }

  /** The canonical form of a signature list: sorted and deduped. */
  function Canon(s: seq<string>): (r: seq<string>)
    ensures StrictlySorted(r) && Elems(r) == Elems(s)
  {
    if s == [] then [] else
    assert s == [s[0]] + s[1..];
    InsertElems(s[0], Canon(s[1..]));
    InsertSorted(s[0], Canon(s[1..]));
    Insert(s[0], Canon(s[1..]))
  }

  /** A strictly sorted list is determined by its elements, so arrival order cannot show. */
  lemma {:induction false} SortedUnique(a: seq<string>, b: seq<string>)
    requires StrictlySorted(a) && StrictlySorted(b) && Elems(a) == Elems(b)
    ensures a == b
    decreases |a|
  {
    if a == [] {
      assert forall i :: 0 <= i < |b| ==> b[i] in Elems(b);
    } else {
      assert a[0] in Elems(b);
      assert b != [] && b[0] in Elems(a);
      var i :| 0 <= i < |b| && b[i] == a[0];
      var j :| 0 <= j < |a| && a[j] == b[0];
      StringLaws(a[0], b[0]);
      assert a[0] == b[0];
      forall x | x in a[1..] ensures x in b[1..] {
        assert x in Elems(b);
        var k :| 0 <= k < |a[1..]| && a[1..][k] == x;
        assert CmpString(a[0], a[k + 1]) == Less;
        StringLaws(a[0], a[0]);
        assert b == [b[0]] + b[1..];
      }
      forall x | x in b[1..] ensures x in a[1..] {
        assert x in Elems(a);
        var k :| 0 <= k < |b[1..]| && b[1..][k] == x;
        assert CmpString(b[0], b[k + 1]) == Less;
        StringLaws(b[0], b[0]);
        assert a == [a[0]] + a[1..];
      }
      SortedUnique(a[1..], b[1..]);
      assert a == [a[0]] + a[1..] && b == [b[0]] + b[1..];
    }
  }
}
