/** The NAR format (src/nar.rs, src/manifest.rs): a tree is a list of tokens, each token a
    length, its bytes and zero padding to eight. */
module Nar {
  import opened Common
  import Base32

  datatype Tree =
    | Symlink(target: Bytes)
    | Regular(executable: bool, contents: Bytes)
    | Dir(entries: seq<(Bytes, Tree)>)

  // ---- tokens of a tree ----

  function Ascii(s: string): (b: Bytes)
    ensures |b| == |s|
  {
    seq(|s|, i requires 0 <= i < |s| => (s[i] as int % 256) as byte)
  }

  const MAGIC := Ascii("nix-archive-1")
  const OPEN := Ascii("(")
  const CLOSE := Ascii(")")
  const TYPE := Ascii("type")
  const SYMLINK := Ascii("symlink")
  const TARGET := Ascii("target")
  const REGULAR := Ascii("regular")
  const EXECUTABLE := Ascii("executable")
  const CONTENTS := Ascii("contents")
  const DIRECTORY := Ascii("directory")
  const ENTRY := Ascii("entry")
  const NAME := Ascii("name")
  const NODE := Ascii("node")

  function Tokens(t: Tree): seq<Bytes>
    decreases t
  {
    [OPEN, TYPE] + Body(t) + [CLOSE]
  }

  function Body(t: Tree): seq<Bytes>
    decreases t, 0
  {
    match t
    case Symlink(target) => [SYMLINK, TARGET, target]
    case Regular(executable, contents) =>
      (if executable then [REGULAR, EXECUTABLE, [], CONTENTS] else [REGULAR, CONTENTS]) + [contents]
    case Dir(entries) => [DIRECTORY] + EntryTokens(entries)
  }

  function EntryTokens(es: seq<(Bytes, Tree)>): seq<Bytes>
    decreases es, 0
  {
    if es == [] then [] else EntryToken(es[0]) + EntryTokens(es[1..])
  }

  function EntryToken(e: (Bytes, Tree)): seq<Bytes>
    decreases e, 1
  {
    [ENTRY, OPEN, NAME, e.0, NODE] + Tokens(e.1) + [CLOSE]
  }

  // ---- bytes of a token ----

  /** n in k little-endian bytes. */
  function Le(n: nat, k: nat): (b: Bytes)
    ensures |b| == k
  {
    if k == 0 then [] else [(n % 256) as byte] + Le(n / 256, k - 1)
  }

  function PadLen(n: nat): nat { (8 - n % 8) % 8 }

  function Zeros(n: nat): (b: Bytes)
    ensures |b| == n
  {
    if n == 0 then [] else [0] + Zeros(n - 1)
  }

  function Tok(s: Bytes): Bytes { Le(|s|, 8) + s + Zeros(PadLen(|s|)) }

  function Frame(ts: seq<Bytes>): Bytes {
    if ts == [] then [] else Tok(ts[0]) + Frame(ts[1..])
  }

  /** The archive of a tree. */
  function Archive(t: Tree): Bytes { Frame([MAGIC] + Tokens(t)) }

  // ---- what the bytes of a token say ----

  /** A length that a u64 can carry. */
  predicate Short(s: Bytes) { |s| < Pow256(8) }

  ghost predicate AllShort(ts: seq<Bytes>) { forall t :: t in ts ==> Short(t) }

  /** b is s as a token: whole words of eight bytes and no word too many; the first word is the
      length, its lowest byte first, then come the bytes, and the rest is zero. */
  ghost predicate Framed(b: Bytes, s: Bytes) {
    && |b| % 8 == 0 && 8 + |s| <= |b| < 16 + |s|
    && Base32.Number(b[..8]) == |s|
    && b[8..8 + |s|] == s
    && forall i :: 8 + |s| <= i < |b| ==> b[i] == 0
  }

  lemma {:induction false} LeNumber(n: nat, k: nat)
    requires n < Pow256(k)
    ensures Base32.Number(Le(n, k)) == n
    decreases k
  {
    if k > 0 {
      LeNumber(n / 256, k - 1);
      assert Le(n, k)[1..] == Le(n / 256, k - 1);
    }
  }

  lemma {:induction false} ZerosAt(n: nat, i: nat)
    requires i < n
    ensures Zeros(n)[i] == 0
    decreases n
  {
    if i > 0 { ZerosAt(n - 1, i - 1); }
  }

  lemma PadLenIs(n: nat)
    ensures (8 + n + PadLen(n)) % 8 == 0 && PadLen(n) < 8
  {}

  lemma TokFramed(s: Bytes)
    requires Short(s)
    ensures Framed(Tok(s), s)
  {
    var b, pad := Tok(s), PadLen(|s|);
    PadLenIs(|s|);
    assert b[..8] == Le(|s|, 8) && b[8..8 + |s|] == s;
    LeNumber(|s|, 8);
    forall i | 8 + |s| <= i < |b| ensures b[i] == 0 {
      assert b[i] == Zeros(pad)[i - 8 - |s|];
      ZerosAt(pad, i - 8 - |s|);
    }
  }

  lemma OneLength(a: nat, b: nat, n: nat)
    requires a % 8 == 0 && b % 8 == 0 && n <= a < n + 8 && n <= b < n + 8
    ensures a == b
  {}

  /** The first bytes, the following ones and the tail determine the whole. */
  lemma ThreeParts(a: Bytes, b: Bytes, n: nat)
    requires |a| == |b| && 8 + n <= |a| && a[..8] == b[..8] && a[8..8 + n] == b[8..8 + n]
    requires forall i :: 8 + n <= i < |a| ==> a[i] == b[i]
    ensures a == b
  {
    assert a[8 + n..] == b[8 + n..];
    assert a == a[..8] + a[8..8 + n] + a[8 + n..] && b == b[..8] + b[8..8 + n] + b[8 + n..];
  }

  /** There is one such string of bytes. */
  lemma FramedUnique(a: Bytes, b: Bytes, s: Bytes)
    requires Framed(a, s) && Framed(b, s)
    ensures a == b
  {
    Base32.NumberInjective(a[..8], b[..8]);
    OneLength(|a|, |b|, 8 + |s|);
    ThreeParts(a, b, |s|);
  }

  lemma TokIsFramed(b: Bytes, s: Bytes)
    requires Short(s)
    ensures Framed(b, s) <==> b == Tok(s)
  {
    TokFramed(s);
    if Framed(b, s) { FramedUnique(b, Tok(s), s); }
  }

  /** b is the tokens ts, one after another and nothing else. */
  ghost predicate Reads(b: Bytes, ts: seq<Bytes>)
    decreases |ts|
  {
    if ts == [] then b == []
    else exists n: nat :: n <= |b| && Framed(b[..n], ts[0]) && Reads(b[n..], ts[1..])
  }

  lemma ReadsCons(b: Bytes, c: Bytes, t: Bytes, more: seq<Bytes>)
    requires Framed(b, t) && Reads(c, more)
    ensures Reads(b + c, [t] + more)
  {
    var n := |b|;
    assert (b + c)[..n] == b && (b + c)[n..] == c && ([t] + more)[1..] == more;
  }

  lemma {:induction false} FrameReads(ts: seq<Bytes>)
    requires AllShort(ts)
    ensures Reads(Frame(ts), ts)
    decreases |ts|
  {
    if ts != [] {
      assert ts[0] in ts && ts == [ts[0]] + ts[1..];
      TokFramed(ts[0]);
      FrameReads(ts[1..]);
      ReadsCons(Tok(ts[0]), Frame(ts[1..]), ts[0], ts[1..]);
    }
  }

  lemma Rejoin(b: Bytes, n: nat)
    requires n <= |b|
    ensures b == b[..n] + b[n..]
  {}

  lemma {:induction false} ReadsOnlyFrame(b: Bytes, ts: seq<Bytes>)
    requires AllShort(ts) && Reads(b, ts)
    ensures b == Frame(ts)
    decreases |ts|
  {
    if ts != [] {
      var n: nat :| n <= |b| && Framed(b[..n], ts[0]) && Reads(b[n..], ts[1..]);
      ReadsOnlyFrame(b[n..], ts[1..]);
      TokIsFramed(b[..n], ts[0]);
      Rejoin(b, n);
    }
  }

  /** The archive of a tree, and nothing but it, reads as the tree's tokens. */
  lemma ArchiveReads(b: Bytes, t: Tree)
    requires AllShort([MAGIC] + Tokens(t))
    ensures Reads(b, [MAGIC] + Tokens(t)) <==> b == Archive(t)
  {
    FrameReads([MAGIC] + Tokens(t));
    if Reads(b, [MAGIC] + Tokens(t)) { ReadsOnlyFrame(b, [MAGIC] + Tokens(t)); }
  }

  // ---- distinct trees have distinct archives ----

  lemma {:induction false} LeInjective(n: nat, m: nat, k: nat)
    requires n < Pow256(k) && m < Pow256(k) && Le(n, k) == Le(m, k)
    ensures n == m
    decreases k
  {
    if k > 0 {
      var a, b := Le(n, k), Le(m, k);
      assert a[0] == b[0] && a[1..] == Le(n / 256, k - 1) && b[1..] == Le(m / 256, k - 1);
      LeInjective(n / 256, m / 256, k - 1);
    }
  }

  lemma TokInjective(s: Bytes, t: Bytes, x: Bytes, y: Bytes)
    requires Short(s) && Short(t) && Tok(s) + x == Tok(t) + y
    ensures s == t && x == y
  {
    var a, b := Tok(s) + x, Tok(t) + y;
    assert a[..8] == Le(|s|, 8) && b[..8] == Le(|t|, 8);
    LeInjective(|s|, |t|, 8);
    assert a[8..8 + |s|] == s && b[8..8 + |t|] == t;
    var n := 8 + |s| + PadLen(|s|);
    assert a[n..] == x && b[n..] == y;
  }

  lemma {:induction false} FrameInjective(a: seq<Bytes>, b: seq<Bytes>)
    requires AllShort(a) && AllShort(b) && Frame(a) == Frame(b)
    ensures a == b
    decreases |a|
  {
    if a != [] && b != [] {
      TokInjective(a[0], b[0], Frame(a[1..]), Frame(b[1..]));
      FrameInjective(a[1..], b[1..]);
      assert a == [a[0]] + a[1..] && b == [b[0]] + b[1..];
    }
  }

  lemma {:induction false} FrameAppend(a: seq<Bytes>, b: seq<Bytes>)
    ensures Frame(a + b) == Frame(a) + Frame(b)
    decreases |a|
  {
    if a == [] {
      assert a + b == b;
    } else {
      FrameAppend(a[1..], b);
      assert (a + b)[1..] == a[1..] + b;
      assert (Tok(a[0]) + Frame(a[1..])) + Frame(b) == Tok(a[0]) + (Frame(a[1..]) + Frame(b));
    }
  }

  lemma FrameNext(ts: seq<Bytes>, t: Bytes)
    ensures Frame(ts + [t]) == Frame(ts) + Tok(t)
  {
    FrameAppend(ts, [t]);
    assert Frame([t]) == Tok(t) + [];
  }

  lemma Assoc<T>(a: seq<T>, b: seq<T>, c: seq<T>)
    ensures a + b + c == a + (b + c)
  {}

  lemma Group<T>(a: seq<T>, b: seq<T>, c: seq<T>, d: seq<T>)
    ensures a + b + c + d == a + (b + c + d)
  {}

  lemma {:induction false} EntryTokensNext(es: seq<(Bytes, Tree)>, e: (Bytes, Tree))
    ensures EntryTokens(es + [e]) == EntryTokens(es) + EntryToken(e)
    decreases |es|
  {
    if es == [] {
      assert (es + [e])[1..] == [];
    } else {
      EntryTokensNext(es[1..], e);
      assert (es + [e])[1..] == es[1..] + [e];
      assert (EntryToken(es[0]) + EntryTokens(es[1..])) + EntryToken(e)
        == EntryToken(es[0]) + (EntryTokens(es[1..]) + EntryToken(e));
    }
  }

  lemma KeywordsDiffer()
    ensures SYMLINK != REGULAR && SYMLINK != DIRECTORY && REGULAR != DIRECTORY && EXECUTABLE != CONTENTS
            && ENTRY != CLOSE
  {
    assert SYMLINK[0] == 115 && REGULAR[0] == 114;
  }

  /** The token that tells the kinds apart. */
  function Kind(t: Tree): Bytes { if t.Symlink? then SYMLINK else if t.Regular? then REGULAR else DIRECTORY }

  /** Tokens of a tree followed by anything can be read back in one way only. */
  lemma {:induction false} TokensInjective(a: Tree, b: Tree, x: seq<Bytes>, y: seq<Bytes>)
    requires Tokens(a) + x == Tokens(b) + y
    ensures a == b && x == y
    decreases a
  {
    KeywordsDiffer();
    var l, r := Tokens(a) + x, Tokens(b) + y;
    assert l[2] == Body(a)[0] == Kind(a) && r[2] == Body(b)[0] == Kind(b);
    match a
    case Symlink(_) => SymlinkInjective(a, b, x, y);
    case Regular(_, _) => RegularInjective(a, b, x, y);
    case Dir(es) =>
      DirTail(a, x);
      DirTail(b, y);
      EntriesInjective(es, b.entries, x, y);
  }

  lemma DirTail(a: Tree, x: seq<Bytes>)
    requires a.Dir?
    ensures (Tokens(a) + x)[3..] == EntryTokens(a.entries) + ([CLOSE] + x)
  {}

  lemma SymlinkInjective(a: Tree, b: Tree, x: seq<Bytes>, y: seq<Bytes>)
    requires a.Symlink? && b.Symlink? && Tokens(a) + x == Tokens(b) + y
    ensures a == b && x == y
  {
    var l, r := Tokens(a) + x, Tokens(b) + y;
    assert l[4] == a.target && r[4] == b.target && l[6..] == x && r[6..] == y;
  }

  lemma RegularInjective(a: Tree, b: Tree, x: seq<Bytes>, y: seq<Bytes>)
    requires a.Regular? && b.Regular? && Tokens(a) + x == Tokens(b) + y
    ensures a == b && x == y
  {
    KeywordsDiffer();
    var l, r := Tokens(a) + x, Tokens(b) + y;
    assert l[3] == (if a.executable then EXECUTABLE else CONTENTS)
      && r[3] == (if b.executable then EXECUTABLE else CONTENTS);
    var n := if a.executable then 6 else 4;
    assert l[n] == a.contents && r[n] == b.contents && l[n + 2..] == x && r[n + 2..] == y;
  }

  lemma {:induction false} EntriesInjective(a: seq<(Bytes, Tree)>, b: seq<(Bytes, Tree)>, x: seq<Bytes>, y: seq<Bytes>)
    requires EntryTokens(a) + ([CLOSE] + x) == EntryTokens(b) + ([CLOSE] + y)
    ensures a == b && x == y
    decreases a
  {
    KeywordsDiffer();
    var l, r := EntryTokens(a) + ([CLOSE] + x), EntryTokens(b) + ([CLOSE] + y);
    assert l[0] == (if a == [] then CLOSE else ENTRY) && r[0] == (if b == [] then CLOSE else ENTRY);
    if a == [] {
      assert l[1..] == x && r[1..] == y;
    } else {
      EntrySplit(a, x);
      EntrySplit(b, y);
      assert l[3] == a[0].0 && r[3] == b[0].0;
      var x', y' := EntryTokens(a[1..]) + ([CLOSE] + x), EntryTokens(b[1..]) + ([CLOSE] + y);
      var e: (Bytes, Tree) := a[0];
      assert e in a && e.1 < e;
      TokensInjective(e.1, b[0].1, [CLOSE] + x', [CLOSE] + y');
      assert ([CLOSE] + x')[1..] == x' && ([CLOSE] + y')[1..] == y';
      EntriesInjective(a[1..], b[1..], x, y);
      assert a == [a[0]] + a[1..] && b == [b[0]] + b[1..];
    }
  }

  lemma Regroup<T>(a: seq<T>, b: seq<T>, c: seq<T>, d: seq<T>, e: seq<T>)
    ensures ((a + b + c) + d) + e == a + (b + (c + (d + e)))
  {}

  lemma EntrySplit(a: seq<(Bytes, Tree)>, x: seq<Bytes>)
    requires a != []
    ensures var l := EntryTokens(a) + ([CLOSE] + x);
            |l| > 5 && l[3] == a[0].0 && l[5..] == Tokens(a[0].1) + ([CLOSE] + (EntryTokens(a[1..]) + ([CLOSE] + x)))
  {
    var l, head, node, more := EntryTokens(a) + ([CLOSE] + x), [ENTRY, OPEN, NAME, a[0].0, NODE], Tokens(a[0].1),
      EntryTokens(a[1..]);
    assert EntryTokens(a) == EntryToken(a[0]) + more;
    Regroup(head, node, [CLOSE], more, [CLOSE] + x);
  }

  /** Distinct trees whose tokens have u64 lengths have distinct archives. */
  lemma ArchiveInjective(a: Tree, b: Tree)
    requires AllShort(Tokens(a)) && AllShort(Tokens(b))
    requires Archive(a) == Archive(b)
    ensures a == b
  {
    FrameInjective([MAGIC] + Tokens(a), [MAGIC] + Tokens(b));
    assert ([MAGIC] + Tokens(a))[1..] == Tokens(a) + [] && ([MAGIC] + Tokens(b))[1..] == Tokens(b) + [];
    TokensInjective(a, b, [], []);
  }
}
