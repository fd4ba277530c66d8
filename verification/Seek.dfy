/** Seek tables (src/nar.rs) and the pieces of a range response (src/serve.rs): one walk of a
    tree yields segments whose concatenation is the archive, and any range of the archive is
    resolved from them. */
module Seek {
  import opened Common
  import opened Nar
  import opened Grammar

  /** A file source carries the file's content: files do not change under the table. */
  datatype Src = Lit(litOff: nat) | File(file: Bytes, fileOff: nat)
  datatype Seg = Seg(off: nat, len: nat, src: Src)
  datatype Table = Table(narSize: nat, lits: Bytes, segs: seq<Seg>)

  // ---- what a segment list stands for ----

  ghost predicate InBounds(lits: Bytes, s: Seg) {
    s.len > 0 && match s.src case Lit(o) => o + s.len <= |lits| case File(f, o) => o + s.len <= |f|
  }

  /** The bytes of a segment, nothing where it is out of bounds. */
  function SegBytes(lits: Bytes, s: Seg): (b: Bytes)
    ensures InBounds(lits, s) ==> |b| == s.len
  {
    match s.src
    case Lit(o) => if o + s.len <= |lits| then lits[o..o + s.len] else []
    case File(f, o) => if o + s.len <= |f| then f[o..o + s.len] else []
  }

  function EndOf(segs: seq<Seg>, i: nat): nat
    requires i <= |segs|
  {
    if i == 0 then 0 else segs[i - 1].off + segs[i - 1].len
  }

  /** Segment i starts where the previous one ends and has its bytes. */
  ghost predicate SegOk(lits: Bytes, segs: seq<Seg>, i: nat)
    requires i < |segs|
  {
    segs[i].off == EndOf(segs, i) && InBounds(lits, segs[i])
  }

  ghost predicate SegsOk(lits: Bytes, segs: seq<Seg>) { forall i :: 0 <= i < |segs| ==> SegOk(lits, segs, i) }

  /** The first n segments, concatenated. */
  ghost function Flatten(lits: Bytes, segs: seq<Seg>, n: nat): Bytes
    requires n <= |segs|
  {
    if n == 0 then [] else Flatten(lits, segs, n - 1) + SegBytes(lits, segs[n - 1])
  }

  lemma {:induction false} FlattenLength(lits: Bytes, segs: seq<Seg>, n: nat)
    requires SegsOk(lits, segs) && n <= |segs|
    ensures |Flatten(lits, segs, n)| == EndOf(segs, n)
    decreases n
  {
    if n > 0 {
      FlattenLength(lits, segs, n - 1);
      assert SegOk(lits, segs, n - 1);
    }
  }

  lemma SegBytesGrow(lits: Bytes, lits': Bytes, s: Seg)
    requires InBounds(lits, s) && lits <= lits'
    ensures InBounds(lits', s) && SegBytes(lits', s) == SegBytes(lits, s)
  {}

  lemma {:induction false} FlattenSame(lits: Bytes, segs: seq<Seg>, lits': Bytes, segs': seq<Seg>, n: nat)
    requires n <= |segs| && n <= |segs'|
    requires forall i :: 0 <= i < n ==> SegBytes(lits', segs'[i]) == SegBytes(lits, segs[i])
    ensures Flatten(lits', segs', n) == Flatten(lits, segs, n)
    decreases n
  {
    if n > 0 { FlattenSame(lits, segs, lits', segs', n - 1); }
  }

  lemma FlattenGrows(lits: Bytes, segs: seq<Seg>, lits': Bytes, segs': seq<Seg>, n: nat)
    requires SegsOk(lits, segs) && n <= |segs| && lits <= lits' && segs <= segs'
    ensures Flatten(lits', segs', n) == Flatten(lits, segs, n)
  {
    forall i | 0 <= i < n ensures SegBytes(lits', segs'[i]) == SegBytes(lits, segs[i]) {
      assert SegOk(lits, segs, i) && segs'[i] == segs[i];
      SegBytesGrow(lits, lits', segs[i]);
    }
    FlattenSame(lits, segs, lits', segs', n);
  }

  lemma SegsGrow(lits: Bytes, segs: seq<Seg>, lits': Bytes)
    requires SegsOk(lits, segs) && lits <= lits'
    ensures SegsOk(lits', segs) && Flatten(lits', segs, |segs|) == Flatten(lits, segs, |segs|)
  {
    forall i | 0 <= i < |segs| ensures SegOk(lits', segs, i) { assert SegOk(lits, segs, i); }
    FlattenGrows(lits, segs, lits', segs, |segs|);
  }

  lemma SegsPush(lits: Bytes, segs: seq<Seg>, s: Seg)
    requires SegsOk(lits, segs) && s.off == EndOf(segs, |segs|) && InBounds(lits, s)
    ensures SegsOk(lits, segs + [s])
            && Flatten(lits, segs + [s], |segs| + 1) == Flatten(lits, segs, |segs|) + SegBytes(lits, s)
    ensures EndOf(segs + [s], |segs| + 1) == s.off + s.len
  {
    var segs' := segs + [s];
    forall i | 0 <= i < |segs'| ensures SegOk(lits, segs', i) {
      if i < |segs| { assert SegOk(lits, segs, i); }
    }
    FlattenGrows(lits, segs, lits, segs', |segs|);
    assert segs'[|segs|] == s;
  }

  // ---- the walk ----

  /** The bytes of closed segments and of the literal that is still open. */
  ghost function OutOf(lits: Bytes, segs: seq<Seg>, open: Option<(nat, nat)>): Bytes
    requires open.Some? ==> open.value.1 <= |lits|
  {
    Flatten(lits, segs, |segs|) + (if open.Some? then lits[open.value.1..] else [])
  }

  /** More literal bytes, in the open literal or in one that opens now. */
  lemma OutGrows(lits: Bytes, segs: seq<Seg>, open: Option<(nat, nat)>, bytes: Bytes, next: Option<(nat, nat)>)
    requires SegsOk(lits, segs) && (open.Some? ==> open.value.1 <= |lits|)
    requires next.Some? && next.value.1 == if open.Some? then open.value.1 else |lits|
    ensures SegsOk(lits + bytes, segs) && OutOf(lits + bytes, segs, next) == OutOf(lits, segs, open) + bytes
  {
    var from, base := next.value.1, Flatten(lits, segs, |segs|);
    SegsGrow(lits, segs, lits + bytes);
    assert (lits + bytes)[from..] == lits[from..] + bytes;
    assert base + (lits[from..] + bytes) == (base + lits[from..]) + bytes;
    if open.None? { assert base + lits[from..] == base + []; }
  }

  lemma OutClosed(lits: Bytes, segs: seq<Seg>)
    requires SegsOk(lits, segs)
    ensures OutOf(lits, segs, None) == Flatten(lits, segs, |segs|)
  {
    assert Flatten(lits, segs, |segs|) + [] == Flatten(lits, segs, |segs|);
  }

  /** One more segment while no literal is open. */
  lemma OutPush(lits: Bytes, segs: seq<Seg>, s: Seg)
    requires SegsOk(lits, segs) && s.off == EndOf(segs, |segs|) && InBounds(lits, s)
    ensures SegsOk(lits, segs + [s]) && OutOf(lits, segs + [s], None) == OutOf(lits, segs, None) + SegBytes(lits, s)
    ensures EndOf(segs + [s], |segs| + 1) == s.off + s.len
  {
    SegsPush(lits, segs, s);
    OutClosed(lits, segs);
    OutClosed(lits, segs + [s]);
  }

  class Builder {
    var lits: Bytes
    var segs: seq<Seg>
    var off: nat
    var openLit: Option<(nat, nat)>
    /** The tokens written so far. */
    ghost var toks: seq<Bytes>

    ghost predicate Valid()
      reads this
    {
      Sound() && Out() == Frame(toks)
    }

    ghost predicate Sound()
      reads this
    {
      && SegsOk(lits, segs)
      && match openLit
         case None => off == EndOf(segs, |segs|)
         case Some(o) => o.0 == EndOf(segs, |segs|) && o.1 < |lits| && off == o.0 + (|lits| - o.1)
    }

    /** The bytes produced so far. */
    ghost function Out(): (b: Bytes)
      requires Sound()
      reads this
      ensures |b| == off
    {
      FlattenLength(lits, segs, |segs|);
      OutOf(lits, segs, openLit)
    }

    constructor ()
      ensures Valid() && toks == []
    {
      lits, segs, off, openLit, toks := [], [], 0, None, [];
    }

    method RawLit(bytes: Bytes)
      requires Sound()
      modifies this`lits, this`segs, this`off, this`openLit
      ensures Sound() && Out() == old(Out()) + bytes
    {
      if bytes == [] {
        return;
      }
      var open := if openLit.Some? then openLit else Some((off, |lits|));
      OutGrows(lits, segs, openLit, bytes, open);
      openLit, lits, off := open, lits + bytes, off + |bytes|;
    }

    method CloseLit()
      requires Sound()
      modifies this`lits, this`segs, this`off, this`openLit
      ensures Sound() && Out() == old(Out()) && openLit.None?
    {
      if openLit.Some? {
        var (narOff, litOff) := openLit.value;
        var s := Seg(narOff, off - narOff, Lit(litOff));
        SegsPush(lits, segs, s);
        assert SegBytes(lits, s) == lits[litOff..];
        segs := segs + [s];
        openLit := None;
      }
    }

    method Token(s: Bytes)
      requires Valid()
      modifies this
      ensures Valid() && toks == old(toks) + [s]
      ensures old(Out()) <= Out() && (Short(s) ==> Framed(Out()[|old(Out())|..], s))
    {
      FrameNext(toks, s);
      if Short(s) { TokFramed(s); }
      Group(Out(), Le(|s|, 8), s, Zeros(PadLen(|s|)));
      RawLit(Le(|s|, 8));
      RawLit(s);
      RawLit(Zeros(PadLen(|s|)));
      toks := toks + [s];
    }

    method FileSeg(file: Bytes)
      requires Sound() && file != []
      modifies this`lits, this`segs, this`off, this`openLit
      ensures Sound() && Out() == old(Out()) + file
    {
      CloseLit();
      var s := Seg(off, |file|, File(file, 0));
      OutPush(lits, segs, s);
      assert SegBytes(lits, s) == file;
      segs := segs + [s];
      off := off + |file|;
    }

    method Payload(file: Bytes)
      requires Sound()
      modifies this`lits, this`segs, this`off, this`openLit
      ensures Sound() && Out() == old(Out()) + file
    {
      if file != [] {
        FileSeg(file);
      }
    }

    /** The contents token, framed by hand so that the payload is a file segment. */
    method Contents(file: Bytes)
      requires Valid()
      modifies this
      ensures Valid() && toks == old(toks) + [file]
      ensures old(Out()) <= Out() && (Short(file) ==> Framed(Out()[|old(Out())|..], file))
    {
      FrameNext(toks, file);
      if Short(file) { TokFramed(file); }
      Group(Out(), Le(|file|, 8), file, Zeros(PadLen(|file|)));
      RawLit(Le(|file|, 8));
      Payload(file);
      RawLit(Zeros(PadLen(|file|)));
      toks := toks + [file];
    }

    /** Several tokens in a row. */
    method WriteAll(ts: seq<Bytes>)
      requires Valid()
      modifies this
      ensures Valid() && toks == old(toks) + ts
    {
      for i := 0 to |ts|
        invariant Valid() && toks == old(toks) + ts[..i]
      {
        assert ts[..i + 1] == ts[..i] + [ts[i]];
        Assoc(old(toks), ts[..i], [ts[i]]);
        Token(ts[i]);
      }
      assert ts[..|ts|] == ts;
    }

    method Node(t: Tree)
      requires Valid()
      modifies this
      ensures Valid() && toks == old(toks) + Tokens(t)
      decreases t, 2
    {
      Group(toks, [OPEN, TYPE], Body(t), [CLOSE]);
      WriteAll([OPEN, TYPE]);
      WriteBody(t);
      Token(CLOSE);
    }

    method WriteBody(t: Tree)
      requires Valid()
      modifies this
      ensures Valid() && toks == old(toks) + Body(t)
      decreases t, 1
    {
      match t {
        case Symlink(target) =>
          WriteAll([SYMLINK, TARGET, target]);
        case Regular(executable, contents) =>
          var head := if executable then [REGULAR, EXECUTABLE, [], CONTENTS] else [REGULAR, CONTENTS];
          Assoc(toks, head, [contents]);
          WriteAll(head);
          Contents(contents);
        case Dir(entries) =>
          Assoc(toks, [DIRECTORY], EntryTokens(entries));
          Token(DIRECTORY);
          Entries(entries);
      }
    }

    method Entries(es: seq<(Bytes, Tree)>)
      requires Valid()
      modifies this
      ensures Valid() && toks == old(toks) + EntryTokens(es)
      decreases es, 1
    {
      for i := 0 to |es|
        invariant Valid() && toks == old(toks) + EntryTokens(es[..i])
      {
        EntryTokensNext(es[..i], es[i]);
        assert es[..i + 1] == es[..i] + [es[i]];
        Assoc(old(toks), EntryTokens(es[..i]), EntryToken(es[i]));
        Entry(es[i]);
      }
      assert es[..|es|] == es;
    }

    method Entry(e: (Bytes, Tree))
      requires Valid()
      modifies this
      ensures Valid() && toks == old(toks) + EntryToken(e)
      decreases e, 0
    {
      var head := [ENTRY, OPEN, NAME, e.0, NODE];
      Group(toks, head, Tokens(e.1), [CLOSE]);
      WriteAll(head);
      Node(e.1);
      Token(CLOSE);
    }
  }

  method Build(t: Tree) returns (table: Table)
    ensures SegsOk(table.lits, table.segs)
    ensures Flatten(table.lits, table.segs, |table.segs|) == Archive(t) && table.narSize == |Archive(t)|
    ensures AllShort(Tokens(t)) ==> IsArchive(Flatten(table.lits, table.segs, |table.segs|), t)
  {
    if AllShort(Tokens(t)) { ArchiveIs(Archive(t), t); }
    var b := new Builder();
    b.Token(MAGIC);
    b.Node(t);
    b.CloseLit();
    assert b.Out() == Flatten(b.lits, b.segs, |b.segs|);
    table := Table(b.off, b.lits, b.segs);
  }

  // ---- ranges ----

  datatype Slice = LitSlice(bytes: Bytes) | FileSlice(file: Bytes, off: nat, len: nat)

  ghost predicate TableOk(t: Table) { SegsOk(t.lits, t.segs) && t.narSize == EndOf(t.segs, |t.segs|) }

  ghost function NarOf(t: Table): (b: Bytes)
    requires TableOk(t)
    ensures |b| == t.narSize
  {
    FlattenLength(t.lits, t.segs, |t.segs|);
    Flatten(t.lits, t.segs, |t.segs|)
  }

  /** `partition_point`: how many leading segments end at or before start. */
  function FirstSeg(segs: seq<Seg>, start: nat): (i: nat)
    ensures i <= |segs|
    ensures forall j :: 0 <= j < i ==> segs[j].off + segs[j].len <= start
    ensures i < |segs| ==> segs[i].off + segs[i].len > start
  {
    if segs == [] || segs[0].off + segs[0].len > start then 0 else
    var i := FirstSeg(segs[1..], start);
    assert forall j :: 0 < j < i + 1 ==> segs[j] == segs[1..][j - 1];
    i + 1
  }

  /** The part [lo, hi) of a segment, in archive offsets. */
  function Clamp(lits: Bytes, seg: Seg, lo: nat, hi: nat): (s: Slice)
    requires InBounds(lits, seg) && seg.off <= lo < hi <= seg.off + seg.len
  {
    var skip := lo - seg.off;
    match seg.src
    case Lit(o) => LitSlice(lits[o + skip..o + skip + (hi - lo)])
    case File(f, o) => FileSlice(f, o + skip, hi - lo)
  }

  /** Segment i, if it is before end, reaches past start. */
  ghost predicate Cuttable(t: Table, i: nat, start: nat, end: nat) {
    i < |t.segs| && t.segs[i].off < end ==> start < t.segs[i].off + t.segs[i].len && InBounds(t.lits, t.segs[i])
  }

  /** Segment i clamped to [start, end). */
  function SegSlice(t: Table, i: nat, start: nat, end: nat): (s: Option<Slice>)
    requires Cuttable(t, i, start, end) && start < end
  {
    if i >= |t.segs| || t.segs[i].off >= end then None else
    var seg := t.segs[i];
    Some(Clamp(t.lits, seg, Max(start, seg.off), Min(end, seg.off + seg.len)))
  }

  ghost predicate SliceOk(s: Slice) { s.FileSlice? ==> s.off + s.len <= |s.file| }

  function SliceBytes(s: Slice): Bytes
    requires SliceOk(s)
  {
    match s case LitSlice(b) => b case FileSlice(f, o, n) => f[o..o + n]
  }

  lemma {:induction false} FlattenPrefix(lits: Bytes, segs: seq<Seg>, n: nat, m: nat)
    requires n <= m <= |segs|
    ensures |Flatten(lits, segs, n)| <= |Flatten(lits, segs, m)| && Flatten(lits, segs, n) <= Flatten(lits, segs, m)
    decreases m
  {
    if n < m { FlattenPrefix(lits, segs, n, m - 1); }
  }

  lemma FlattenLast(lits: Bytes, segs: seq<Seg>, i: nat)
    requires SegsOk(lits, segs) && i < |segs| && SegOk(lits, segs, i)
    ensures |Flatten(lits, segs, i + 1)| == segs[i].off + segs[i].len
    ensures Flatten(lits, segs, i + 1)[segs[i].off..segs[i].off + segs[i].len] == SegBytes(lits, segs[i])
  {
    FlattenLength(lits, segs, i);
    PartIsSecond(Flatten(lits, segs, i), SegBytes(lits, segs[i]));
  }

  lemma {:induction false} EndsGrow(lits: Bytes, segs: seq<Seg>, i: nat, n: nat)
    requires SegsOk(lits, segs) && i <= n <= |segs|
    ensures EndOf(segs, i) <= EndOf(segs, n)
    decreases n
  {
    if i < n {
      assert SegOk(lits, segs, n - 1);
      EndsGrow(lits, segs, i, n - 1);
    }
  }

  lemma SegWithin(lits: Bytes, segs: seq<Seg>, i: nat, n: nat)
    requires SegsOk(lits, segs) && i < n <= |segs|
    ensures segs[i].off + segs[i].len <= EndOf(segs, n) == |Flatten(lits, segs, n)|
  {
    EndsGrow(lits, segs, i + 1, n);
    FlattenLength(lits, segs, n);
  }

  /** The bytes of segment i in a longer archive that begins with the first i + 1 segments. */
  lemma SegInPrefix(whole: Bytes, part: Bytes, s: Seg, bytes: Bytes)
    requires part <= whole && |part| == s.off + s.len && part[s.off..s.off + s.len] == bytes
    ensures whole[s.off..s.off + s.len] == bytes
  {
    PartOfPrefix(part, whole, s.off, s.off + s.len);
  }

  lemma SegBytesAt(lits: Bytes, segs: seq<Seg>, i: nat, n: nat, s: Seg)
    requires i < n <= |segs| && s.off + s.len == |Flatten(lits, segs, i + 1)| <= |Flatten(lits, segs, n)|
    requires Flatten(lits, segs, i + 1)[s.off..s.off + s.len] == SegBytes(lits, s)
    ensures Flatten(lits, segs, n)[s.off..s.off + s.len] == SegBytes(lits, s)
  {
    FlattenPrefix(lits, segs, i + 1, n);
    SegInPrefix(Flatten(lits, segs, n), Flatten(lits, segs, i + 1), s, SegBytes(lits, s));
  }

  lemma FlattenAt(lits: Bytes, segs: seq<Seg>, i: nat, n: nat)
    requires SegsOk(lits, segs) && i < n <= |segs| && SegOk(lits, segs, i)
    ensures segs[i].off + segs[i].len <= EndOf(segs, n) == |Flatten(lits, segs, n)|
    ensures Flatten(lits, segs, n)[segs[i].off..segs[i].off + segs[i].len] == SegBytes(lits, segs[i])
  {
    SegWithin(lits, segs, i, n);
    FlattenLast(lits, segs, i);
    SegBytesAt(lits, segs, i, n, segs[i]);
  }

  lemma PartOfPrefix(a: Bytes, b: Bytes, lo: nat, hi: nat)
    requires lo <= hi <= |a| && a <= b
    ensures a[lo..hi] == b[lo..hi]
  {}

  lemma PartIsSecond(a: Bytes, b: Bytes)
    ensures (a + b)[|a|..|a| + |b|] == b
  {}

  /** Where two byte strings agree, so do their parts. */
  lemma PartAgrees(base: Bytes, o: nat, n: nat, nar: Bytes, off: nat, lo: nat, hi: nat)
    requires o + n <= |base| && off <= lo < hi <= off + n <= |nar| && nar[off..off + n] == base[o..o + n]
    ensures base[o + (lo - off)..o + (lo - off) + (hi - lo)] == nar[lo..hi]
  {
    var x, y := base[o + (lo - off)..o + (lo - off) + (hi - lo)], nar[lo..hi];
    forall k | 0 <= k < hi - lo ensures x[k] == y[k] {
      var j := lo - off + k;
      assert nar[off..off + n][j] == base[o..o + n][j];
    }
  }

  lemma ClampIs(lits: Bytes, seg: Seg, lo: nat, hi: nat, nar: Bytes)
    requires InBounds(lits, seg) && seg.off <= lo < hi <= seg.off + seg.len <= |nar|
    requires nar[seg.off..seg.off + seg.len] == SegBytes(lits, seg)
    ensures SliceOk(Clamp(lits, seg, lo, hi)) && SliceBytes(Clamp(lits, seg, lo, hi)) == nar[lo..hi]
  {
    match seg.src
    case Lit(o) => PartAgrees(lits, o, seg.len, nar, seg.off, lo, hi);
    case File(f, o) => PartAgrees(f, o, seg.len, nar, seg.off, lo, hi);
  }

  /** A clamped segment has exactly the archive's bytes at its place. */
  lemma SegSliceIs(t: Table, i: nat, start: nat, end: nat)
    requires TableOk(t) && start < end <= t.narSize && i < |t.segs|
    requires t.segs[i].off < end && start < t.segs[i].off + t.segs[i].len && SegOk(t.lits, t.segs, i)
    ensures var s := SegSlice(t, i, start, end);
            && s.Some? && SliceOk(s.value) && t.segs[i].off + t.segs[i].len <= t.narSize
            && SliceBytes(s.value) == NarOf(t)[Max(start, t.segs[i].off)..Min(end, t.segs[i].off + t.segs[i].len)]
  {
    var seg := t.segs[i];
    FlattenAt(t.lits, t.segs, i, |t.segs|);
    ClampIs(t.lits, seg, Max(start, seg.off), Min(end, seg.off + seg.len), NarOf(t));
  }

  const READ_CHUNK: nat := 256 * 1024

  /** Where the walk stands once the segments before i were cut. */
  ghost function Reached(t: Table, i: nat, start: nat, end: nat): nat
    requires i <= |t.segs|
  {
    Min(end, Max(start, EndOf(t.segs, i)))
  }

  lemma StartsThere(t: Table, start: nat, end: nat)
    requires TableOk(t) && start < end <= t.narSize
    ensures var i := FirstSeg(t.segs, start); i < |t.segs| && Reached(t, i, start, end) == start
  {
    var i := FirstSeg(t.segs, start);
    if i > 0 { assert t.segs[i - 1].off + t.segs[i - 1].len <= start; }
  }

  /** While the range is not exhausted there is a segment to cut, and it yields the next bytes. */
  lemma NextSlice(t: Table, i: nat, start: nat, end: nat)
    requires TableOk(t) && start < end <= t.narSize && FirstSeg(t.segs, start) <= i <= |t.segs|
    ensures Cuttable(t, i, start, end)
    ensures Reached(t, i, start, end) == end <==> i >= |t.segs| || t.segs[i].off >= end
    ensures Reached(t, i, start, end) < end ==>
              var s := SegSlice(t, i, start, end);
              && i < |t.segs| && s.Some? && SliceOk(s.value)
              && Reached(t, i, start, end) < Reached(t, i + 1, start, end) <= end
              && SliceBytes(s.value) == NarOf(t)[Reached(t, i, start, end)..Reached(t, i + 1, start, end)]
  {
    StartsThere(t, start, end);
    if i < |t.segs| {
      assert SegOk(t.lits, t.segs, i);
      EndsAscend(t, FirstSeg(t.segs, start), i);
      if t.segs[i].off < end { SegSliceIs(t, i, start, end); }
    }
  }

  lemma {:induction false} EndsAscend(t: Table, i: nat, j: nat)
    requires TableOk(t) && i <= j < |t.segs|
    ensures t.segs[i].off + t.segs[i].len <= t.segs[j].off + t.segs[j].len
    decreases j
  {
    if i < j {
      assert SegOk(t.lits, t.segs, j);
      EndsAscend(t, i, j - 1);
    }
  }

  lemma Abut(b: Bytes, x: nat, y: nat, z: nat)
    requires x <= y <= z <= |b|
    ensures b[x..y] + b[y..z] == b[x..z]
  {}

  datatype Piece = LitPiece(bytes: Bytes) | Read(file: Bytes, off: nat, len: nat)

  ghost predicate PieceOk(p: Piece) { p.Read? ==> p.off + p.len <= |p.file| && p.len <= READ_CHUNK }

  function PieceBytes(p: Piece): Bytes
    requires PieceOk(p)
  {
    match p case LitPiece(b) => b case Read(f, o, n) => f[o..o + n]
  }

  /** The rest of a file slice stands for the archive's bytes [pos, upto). */
  ghost predicate RestOk(nar: Bytes, rest: (Bytes, nat, nat), pos: nat, upto: nat) {
    rest.2 > 0 && rest.1 + rest.2 <= |rest.0| && pos + rest.2 == upto <= |nar|
      && rest.0[rest.1..rest.1 + rest.2] == nar[pos..upto]
  }

  lemma CutRest(nar: Bytes, rest: (Bytes, nat, nat), pos: nat, upto: nat, n: nat)
    requires RestOk(nar, rest, pos, upto) && 0 < n <= rest.2
    ensures rest.0[rest.1..rest.1 + n] == nar[pos..pos + n]
    ensures n < rest.2 ==> RestOk(nar, (rest.0, rest.1 + n, rest.2 - n), pos + n, upto)
  {
    PartAgrees(rest.0, rest.1, rest.2, nar, pos, pos, pos + n);
    if n < rest.2 { PartAgrees(rest.0, rest.1, rest.2, nar, pos, pos + n, upto); }
  }

  /** Cut a read of at most READ_CHUNK off the rest of a file slice. */
  method Cut(rest: (Bytes, nat, nat), ghost nar: Bytes, ghost pos: nat, ghost upto: nat)
    returns (p: Piece, left: Option<(Bytes, nat, nat)>, ghost n: nat)
    requires RestOk(nar, rest, pos, upto)
    ensures 0 < n && pos + n <= upto && PieceOk(p) && PieceBytes(p) == nar[pos..pos + n]
    ensures left.None? ==> pos + n == upto
    ensures left.Some? ==> RestOk(nar, left.value, pos + n, upto)
  {
    var (f, off, len) := rest;
    var size := Min(len, READ_CHUNK);
    n := size;
    CutRest(nar, rest, pos, upto, size);
    left := if len > size then Some((f, off + size, len - size)) else None;
    p := Read(f, off, size);
  }

  /** The reads and literals that a range response consists of; no read is above READ_CHUNK. */
  class Pieces {
    const table: Table
    const start: nat
    const end: nat
    var i: nat
    var file: Option<(Bytes, nat, nat)>
    /** Everything before `pos` was produced. */
    ghost var pos: nat

    ghost predicate Valid()
      reads this
    {
      && TableOk(table) && start < end <= table.narSize && start <= pos <= end
      && FirstSeg(table.segs, start) <= i <= |table.segs|
      && (file.None? ==> pos == Reached(table, i, start, end))
      && (file.Some? ==> RestOk(NarOf(table), file.value, pos, Reached(table, i, start, end)))
    }

    constructor (table: Table, start: nat, end: nat)
      requires TableOk(table) && start < end <= table.narSize
      ensures Valid() && pos == start && this.table == table && this.start == start && this.end == end
    {
      this.table, this.start, this.end := table, start, end;
      i, file, pos := FirstSeg(table.segs, start), None, start;
      StartsThere(table, start, end);
    }

    /** Cut one piece off the current file slice. */
    method CutFile() returns (p: Piece)
      requires Valid() && file.Some?
      modifies this`file, this`pos
      ensures Valid() && old(pos) < pos
      ensures PieceOk(p) && PieceBytes(p) == NarOf(table)[old(pos)..pos]
    {
      ghost var n;
      p, file, n := Cut(file.value, NarOf(table), pos, Reached(table, i, start, end));
      pos := pos + n;
    }

    /** The first piece of the next segment, if the range reaches it. */
    method NextSegment() returns (p: Option<Piece>)
      requires Valid() && file.None?
      modifies this`i, this`file, this`pos
      ensures Valid() && (p.None? <==> old(pos) == end) && (p.None? ==> pos == end)
      ensures p.Some? ==> old(pos) < pos && PieceOk(p.value) && PieceBytes(p.value) == NarOf(table)[old(pos)..pos]
    {
      NextSlice(table, i, start, end);
      var slice := SegSlice(table, i, start, end);
      if slice.None? {
        return None;
      }
      i := i + 1;
      match slice.value {
        case LitSlice(b) =>
          pos := Reached(table, i, start, end);
          return Some(LitPiece(b));
        case FileSlice(f, off, len) =>
          file := Some((f, off, len));
          var cut := CutFile();
          return Some(cut);
      }
    }

    /** The next piece: exactly the next bytes of the archive, until the range is exhausted. */
    method Next() returns (p: Option<Piece>)
      requires Valid()
      modifies this`i, this`file, this`pos
      ensures Valid() && (p.None? <==> old(pos) == end) && (p.None? ==> pos == end)
      ensures p.Some? ==> old(pos) < pos && PieceOk(p.value) && PieceBytes(p.value) == NarOf(table)[old(pos)..pos]
    {
      if file.Some? {
        var cut := CutFile();
        return Some(cut);
      }
      p := NextSegment();
    }
  }

  /** A range response is exactly the archive's bytes [start, end). */
  method Respond(t: Table, start: nat, end: nat) returns (body: Bytes)
    requires TableOk(t) && start < end <= t.narSize
    ensures body == NarOf(t)[start..end]
  {
    var pieces := new Pieces(t, start, end);
    body := [];
    assert NarOf(t)[start..start] == [];
    while true
      invariant pieces.Valid() && fresh(pieces) && pieces.table == t && pieces.start == start && pieces.end == end
      invariant body == NarOf(t)[start..pieces.pos]
      decreases end - pieces.pos
    {
      ghost var was := pieces.pos;
      var p := pieces.Next();
      if p.None? {
        return;
      }
      Abut(NarOf(t), start, was, pieces.pos);
      body := body + PieceBytes(p.value);
    }
  }
}
