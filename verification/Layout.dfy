/** Layout synthesis from a manifest (src/manifest.rs): a peer-supplied tree description with
    segment hashes becomes the byte layout of its archive, or is refused. */
module Layout {
  import opened Common
  import opened Nar
  import opened Grammar
  import opened Seek

  const MAX_DEPTH: nat := 512

  datatype MNode =
    | MSymlink(target: Bytes)
    | MRegular(executable: bool, len: nat, segments: seq<Bytes>)
    | MDir(entries: seq<(Bytes, MNode)>)

  datatype Manifest = Manifest(narHash: Bytes, narSize: nat, segmentBytes: nat, root: MNode)

  datatype Kind = Framing(litOff: nat) | Segment(hash: Bytes)
  datatype Span = Span(off: nat, len: nat, kind: Kind)
  datatype Layout = Layout(narSize: nat, lits: Bytes, spans: seq<Span>)

  /** Any way to turn a segment hash into content of a given length. */
  type Fill = (Bytes, nat) -> Bytes

  ghost predicate FillOk(fill: Fill) { forall h, n: nat :: |fill(h, n)| == n }

  // ---- which manifests are accepted ----

  function DivCeil(a: nat, b: nat): nat
    requires b > 0
  {
    if a % b == 0 then a / b else a / b + 1
  }

  predicate WellFormed(m: MNode, seg: nat, depth: nat)
    requires seg > 0
    decreases m, 0
  {
    && depth <= MAX_DEPTH
    && match m
       case MSymlink(_) => true
       case MRegular(_, len, segments) => |segments| == DivCeil(len, seg) && forall i :: 0 <= i < |segments| ==>
           |segments[i]| == 32
       case MDir(entries) =>
         && (forall i :: 0 < i < |entries| ==> Before(entries[i - 1].0, entries[i].0))
         && (forall i :: 0 <= i < |entries| ==> EntryFormed(entries[i], seg, depth + 1))
  }

  predicate EntryFormed(e: (Bytes, MNode), seg: nat, depth: nat)
    requires seg > 0
    decreases e, 1
  {
    WellFormed(e.1, seg, depth)
  }

  // ---- the tree a manifest describes, given segment contents ----

  function FillAll(segments: seq<Bytes>, len: nat, seg: nat, fill: Fill): Bytes {
    if segments == [] then [] else
    var n := Min(len, seg);
    fill(segments[0], n) + FillAll(segments[1..], len - n, seg, fill)
  }

  function Resolve(m: MNode, seg: nat, fill: Fill): Tree
    decreases m, 0
  {
    match m
    case MSymlink(target) => Nar.Symlink(target)
    case MRegular(executable, len, segments) => Nar.Regular(executable, FillAll(segments, len, seg, fill))
    case MDir(entries) => Nar.Dir(ResolveAll(entries, seg, fill))
  }

  function ResolveAll(es: seq<(Bytes, MNode)>, seg: nat, fill: Fill): (r: seq<(Bytes, Tree)>)
    ensures |r| == |es|
    decreases es, 0
  {
    if es == [] then [] else [ResolveEntry(es[0], seg, fill)] + ResolveAll(es[1..], seg, fill)
  }

  function ResolveEntry(e: (Bytes, MNode), seg: nat, fill: Fill): (Bytes, Tree)
    decreases e, 1
  {
    (e.0, Resolve(e.1, seg, fill))
  }

  lemma {:induction false} ResolveNext(es: seq<(Bytes, MNode)>, e: (Bytes, MNode), seg: nat, fill: Fill)
    ensures ResolveAll(es + [e], seg, fill) == ResolveAll(es, seg, fill) + [ResolveEntry(e, seg, fill)]
    decreases |es|
  {
    if es == [] {
      assert (es + [e])[1..] == [];
    } else {
      ResolveNext(es[1..], e, seg, fill);
      assert (es + [e])[1..] == es[1..] + [e];
    }
  }

  // ---- segment counts ----

  lemma DivCeilStep(a: nat, b: nat)
    requires b > 0 && a > 0
    ensures DivCeil(a, b) == 1 + DivCeil(a - Min(a, b), b)
  {
    if a >= b {
      var q, r := a / b, a % b;
      assert a == q * b + r;
      assert (a - b) == (q - 1) * b + r;
      DivUnique(a - b, b, q - 1, r);
    }
  }

  lemma DivUnique(a: nat, b: nat, q: int, r: nat)
    requires b > 0 && r < b && a == q * b + r
    ensures a / b == q && a % b == r
  {
    var d := a / b - q;
    assert d * b == r - a % b;
    MulGrows(d, b);
  }

  lemma MulGrows(d: int, b: int)
    requires b > 0
    ensures (d >= 1 ==> d * b >= b) && (d <= -1 ==> d * b <= -b)
  {}

  /** The expected count of segments covers the file exactly. */
  lemma {:induction false} FillLength(segments: seq<Bytes>, len: nat, seg: nat, fill: Fill)
    requires seg > 0 && |segments| == DivCeil(len, seg) && FillOk(fill)
    ensures |FillAll(segments, len, seg, fill)| == len
    decreases |segments|
  {
    if segments != [] {
      if len > 0 { DivCeilStep(len, seg); }
      FillLength(segments[1..], len - Min(len, seg), seg, fill);
    } else if len > 0 {
      DivCeilStep(len, seg);
    }
  }

  // ---- the walk ----

  /** A layout span as a seek-table segment, with its content filled in. */
  ghost function SegOf(s: Span, fill: Fill): Seg {
    Seg(s.off, s.len, match s.kind case Framing(o) => Lit(o) case Segment(h) => File(fill(h, s.len), 0))
  }

  ghost function SegsOf(spans: seq<Span>, fill: Fill): (r: seq<Seg>)
    ensures |r| == |spans|
  {
    if spans == [] then [] else SegsOf(spans[..|spans| - 1], fill) + [SegOf(spans[|spans| - 1], fill)]
  }

  lemma SegsOfNext(spans: seq<Span>, s: Span, fill: Fill)
    ensures SegsOf(spans + [s], fill) == SegsOf(spans, fill) + [SegOf(s, fill)]
  {
    assert (spans + [s])[..|spans + [s]| - 1] == spans;
  }

  lemma {:induction false} SegsOfAt(spans: seq<Span>, fill: Fill, i: nat)
    requires i < |spans|
    ensures SegsOf(spans, fill)[i] == SegOf(spans[i], fill)
    decreases |spans|
  {
    if i < |spans| - 1 { SegsOfAt(spans[..|spans| - 1], fill, i); }
  }

  lemma PushSpan(lits: Bytes, spans: seq<Span>, s: Span, fill: Fill)
    requires var segs := SegsOf(spans, fill);
             SegsOk(lits, segs) && s.off == EndOf(segs, |segs|) && InBounds(lits, SegOf(s, fill))
    ensures var segs, segs' := SegsOf(spans, fill), SegsOf(spans + [s], fill);
            SegsOk(lits, segs') && EndOf(segs', |spans| + 1) == s.off + s.len
            && Flatten(lits, segs', |spans| + 1) == Flatten(lits, segs, |spans|) + SegBytes(lits, SegOf(s, fill))
  {
    SegsOfNext(spans, s, fill);
    SegsPush(lits, SegsOf(spans, fill), SegOf(s, fill));
  }

  lemma SegmentBytes(lits: Bytes, s: Span, fill: Fill)
    requires FillOk(fill) && s.kind.Segment? && s.len > 0
    ensures InBounds(lits, SegOf(s, fill)) && SegBytes(lits, SegOf(s, fill)) == fill(s.kind.hash, s.len)
  {
    var b := fill(s.kind.hash, s.len);
    assert b[0..s.len] == b;
  }

  class Synth {
    ghost const fill: Fill
    var lits: Bytes
    var spans: seq<Span>
    var off: nat
    var openLit: Option<(nat, nat)>
    /** The tokens written so far. */
    ghost var toks: seq<Bytes>

    ghost predicate Valid()
      reads this
    {
      Sound() && Out() == Frame(toks)
    }

    ghost function Segs(): seq<Seg>
      reads this
    {
      SegsOf(spans, fill)
    }

    ghost predicate Sound()
      reads this
    {
      && FillOk(fill) && SegsOk(lits, Segs())
      && match openLit
         case None => off == EndOf(Segs(), |spans|)
         case Some(o) => o.0 == EndOf(Segs(), |spans|) && o.1 < |lits| && off == o.0 + (|lits| - o.1)
    }

    /** The bytes laid out so far. */
    ghost function Out(): (b: Bytes)
      requires Sound()
      reads this
      ensures |b| == off
    {
      FlattenLength(lits, Segs(), |spans|);
      OutOf(lits, Segs(), openLit)
    }

    constructor (ghost fill: Fill)
      requires FillOk(fill)
      ensures Valid() && toks == [] && this.fill == fill
    {
      this.fill := fill;
      lits, spans, off, openLit, toks := [], [], 0, None, [];
    }

    method RawLit(bytes: Bytes)
      requires Sound()
      modifies this`lits, this`off, this`openLit
      ensures Sound() && Out() == old(Out()) + bytes
    {
      if bytes == [] {
        return;
      }
      var open := if openLit.Some? then openLit else Some((off, |lits|));
      OutGrows(lits, Segs(), openLit, bytes, open);
      openLit, lits, off := open, lits + bytes, off + |bytes|;
    }

    method CloseLit()
      requires Sound()
      modifies this`spans, this`openLit
      ensures Sound() && Out() == old(Out()) && openLit.None?
    {
      if openLit.Some? {
        var (narOff, litOff) := openLit.value;
        var s := Span(narOff, off - narOff, Framing(litOff));
        assert SegBytes(lits, SegOf(s, fill)) == lits[litOff..];
        PushSpan(lits, spans, s, fill);
        spans := spans + [s];
        openLit := None;
      }
    }

    method Token(s: Bytes)
      requires Valid()
      modifies this
      ensures Valid() && toks == old(toks) + [s]
    {
      FrameNext(toks, s);
      Group(Out(), Le(|s|, 8), s, Zeros(PadLen(|s|)));
      RawLit(Le(|s|, 8));
      RawLit(s);
      RawLit(Zeros(PadLen(|s|)));
      toks := toks + [s];
    }

    method AddSegment(hash: Bytes, len: nat)
      requires Sound() && len > 0
      modifies this`spans, this`off, this`openLit
      ensures Sound() && Out() == old(Out()) + fill(hash, len)
    {
      CloseLit();
      PushSegment(hash, len);
    }

    method PushSegment(hash: Bytes, len: nat)
      requires Sound() && len > 0 && openLit.None?
      modifies this`spans, this`off
      ensures Sound() && Out() == old(Out()) + fill(hash, len)
    {
      var s := Span(off, len, Segment(hash));
      SegmentBytes(lits, s, fill);
      PushSpan(lits, spans, s, fill);
      spans := spans + [s];
      off := off + len;
    }

    /** The segments of one file. The count was checked, so no segment comes out empty. */
    method Segments(segments: seq<Bytes>, len: nat, seg: nat) returns (ok: bool)
      requires Sound() && seg > 0 && |segments| == DivCeil(len, seg)
      modifies this`spans, this`off, this`openLit
      ensures ok <==> forall i :: 0 <= i < |segments| ==> |segments[i]| == 32
      ensures ok ==> Sound() && Out() == old(Out()) + FillAll(segments, len, seg, fill)
    {
      var remaining: nat := len;
      ghost var all := FillAll(segments, len, seg, fill);
      for i := 0 to |segments|
        invariant Sound() && remaining <= len && |segments| - i == DivCeil(remaining, seg)
        invariant forall j :: 0 <= j < i ==> |segments[j]| == 32
        invariant old(Out()) + all == Out() + FillAll(segments[i..], remaining, seg, fill)
      {
        var slen := Min(remaining, seg);
        if slen == 0 {
          assert false;
          return false;
        }
        DivCeilStep(remaining, seg);
        var hash := segments[i];
        if |hash| != 32 {
          return false;
        }
        assert segments[i..][1..] == segments[i + 1..];
        Assoc(Out(), fill(hash, slen), FillAll(segments[i + 1..], remaining - slen, seg, fill));
        AddSegment(hash, slen);
        remaining := remaining - slen;
      }
      ok := true;
    }

    method WriteAll(ts: seq<Bytes>)
      requires Valid()
      modifies this
      ensures Valid() && toks == old(toks) + ts
    {
      for i := 0 to |ts|
        invariant Valid() && toks == old(toks) + ts[..i]
      {
        assert ts[..i + 1] == ts[..i] + [ts[i]];
        Assoc(old(toks), ts[..i], [ts[i]]);
        Token(ts[i]);
      }
      assert ts[..|ts|] == ts;
    }

    /** The contents token of a file described by segment hashes. */
    method Contents(segments: seq<Bytes>, len: nat, seg: nat) returns (ok: bool)
      requires Valid() && seg > 0 && |segments| == DivCeil(len, seg)
      modifies this
      ensures ok <==> forall i :: 0 <= i < |segments| ==> |segments[i]| == 32
      ensures ok ==> Valid() && toks == old(toks) + [FillAll(segments, len, seg, fill)]
    {
      ghost var file := FillAll(segments, len, seg, fill);
      FillLength(segments, len, seg, fill);
      FrameNext(toks, file);
      Group(Out(), Le(len, 8), file, Zeros(PadLen(len)));
      RawLit(Le(len, 8));
      ok := Segments(segments, len, seg);
      if ok {
        RawLit(Zeros(PadLen(len)));
        toks := toks + [file];
      }
    }

    method Node(m: MNode, seg: nat, depth: nat) returns (ok: bool)
      requires Valid() && seg > 0
      modifies this
      ensures ok <==> WellFormed(m, seg, depth)
      ensures ok ==> Valid() && toks == old(toks) + Tokens(Resolve(m, seg, fill))
      decreases m, 2
    {
      if depth > MAX_DEPTH {
        return false;
      }
      Group(toks, [OPEN, TYPE], Body(Resolve(m, seg, fill)), [CLOSE]);
      WriteAll([OPEN, TYPE]);
      ok := WriteBody(m, seg, depth);
      if ok {
        Token(CLOSE);
      }
    }

    method RegularBody(executable: bool, len: nat, segments: seq<Bytes>, seg: nat) returns (ok: bool)
      requires Valid() && seg > 0
      modifies this
      ensures ok <==> |segments| == DivCeil(len, seg) && forall i :: 0 <= i < |segments| ==> |segments[i]| == 32
      ensures ok ==> Valid() && toks == old(toks) + Body(Nar.Regular(executable, FillAll(segments, len, seg, fill)))
    {
      var head := if executable then [REGULAR, EXECUTABLE, [], CONTENTS] else [REGULAR, CONTENTS];
      Assoc(toks, head, [FillAll(segments, len, seg, fill)]);
      WriteAll(head);
      if |segments| != DivCeil(len, seg) {
        return false;
      }
      ok := Contents(segments, len, seg);
    }

    method WriteBody(m: MNode, seg: nat, depth: nat) returns (ok: bool)
      requires Valid() && seg > 0 && depth <= MAX_DEPTH
      modifies this
      ensures ok <==> WellFormed(m, seg, depth)
      ensures ok ==> Valid() && toks == old(toks) + Body(Resolve(m, seg, fill))
      decreases m, 1
    {
      match m {
        case MSymlink(target) =>
          WriteAll([SYMLINK, TARGET, target]);
          return true;
        case MRegular(executable, len, segments) =>
          ok := RegularBody(executable, len, segments, seg);
        case MDir(entries) =>
          Assoc(toks, [DIRECTORY], EntryTokens(ResolveAll(entries, seg, fill)));
          Token(DIRECTORY);
          ok := Entries(entries, seg, depth);
      }
    }

    method Entries(es: seq<(Bytes, MNode)>, seg: nat, depth: nat) returns (ok: bool)
      requires Valid() && seg > 0
      modifies this
      ensures ok <==>
                (forall i :: 0 < i < |es| ==> Before(es[i - 1].0, es[i].0))
                && (forall i :: 0 <= i < |es| ==> EntryFormed(es[i], seg, depth + 1))
      ensures ok ==> Valid() && toks == old(toks) + EntryTokens(ResolveAll(es, seg, fill))
      decreases es, 1
    {
      for i := 0 to |es|
        invariant Valid() && toks == old(toks) + EntryTokens(ResolveAll(es[..i], seg, fill))
        invariant forall j :: 0 < j < i ==> Before(es[j - 1].0, es[j].0)
        invariant forall j :: 0 <= j < i ==> EntryFormed(es[j], seg, depth + 1)
      {
        if i > 0 && !Before(es[i - 1].0, es[i].0) {
          return false;
        }
        EntryNext(es, i, seg, fill, old(toks));
        ok := Entry(es[i], seg, depth);
        if !ok {
          return;
        }
      }
      assert es[..|es|] == es;
      ok := true;
    }

    static lemma EntryNext(es: seq<(Bytes, MNode)>, i: nat, seg: nat, fill: Fill, base: seq<Bytes>)
      requires i < |es|
      ensures base + EntryTokens(ResolveAll(es[..i], seg, fill)) + EntryToken(ResolveEntry(es[i], seg, fill))
              == base + EntryTokens(ResolveAll(es[..i + 1], seg, fill))
    {
      assert es[..i + 1] == es[..i] + [es[i]];
      ResolveNext(es[..i], es[i], seg, fill);
      EntryTokensNext(ResolveAll(es[..i], seg, fill), ResolveEntry(es[i], seg, fill));
      Assoc(base, EntryTokens(ResolveAll(es[..i], seg, fill)), EntryToken(ResolveEntry(es[i], seg, fill)));
    }

    method Entry(e: (Bytes, MNode), seg: nat, depth: nat) returns (ok: bool)
      requires Valid() && seg > 0
      modifies this
      ensures ok <==> EntryFormed(e, seg, depth + 1)
      ensures ok ==> Valid() && toks == old(toks) + EntryToken(ResolveEntry(e, seg, fill))
      decreases e, 0
    {
      var head := [ENTRY, OPEN, NAME, e.0, NODE];
      Group(toks, head, Tokens(Resolve(e.1, seg, fill)), [CLOSE]);
      WriteAll(head);
      ok := Node(e.1, seg, depth + 1);
      if ok {
        Token(CLOSE);
      }
    }
  }

  /** The layout of a manifest, or a refusal. For whatever contents the segments turn out to
      have, the spans laid end to end are the archive of the tree described. */
  method SynthLayout(m: Manifest, ghost fill: Fill) returns (r: Option<Layout>)
    requires FillOk(fill)
    ensures r.Some? <==> m.segmentBytes > 0 && WellFormed(m.root, m.segmentBytes, 0)
                         && |Archive(Resolve(m.root, m.segmentBytes, fill))| == m.narSize
    ensures r.Some? ==> r.value.narSize == m.narSize && SegsOk(r.value.lits, SegsOf(r.value.spans, fill))
                        && Flatten(r.value.lits, SegsOf(r.value.spans, fill), |r.value.spans|)
                           == Archive(Resolve(m.root, m.segmentBytes, fill))
    ensures r.Some? && AllShort(Tokens(Resolve(m.root, m.segmentBytes, fill)))
            ==> IsArchive(Flatten(r.value.lits, SegsOf(r.value.spans, fill), |r.value.spans|),
                          Resolve(m.root, m.segmentBytes, fill))
  {
    ghost var t := Resolve(m.root, m.segmentBytes, fill);
    if AllShort(Tokens(t)) { ArchiveIs(Archive(t), t); }
    if m.segmentBytes == 0 {
      return None;
    }
    var b := new Synth(fill);
    b.Token(MAGIC);
    var ok := b.Node(m.root, m.segmentBytes, 0);
    if !ok {
      return None;
    }
    assert b.toks == [MAGIC] + Tokens(t);
    ghost var whole := b.Out();
    assert whole == Archive(t);
    b.CloseLit();
    OutClosed(b.lits, b.Segs());
    if b.off != m.narSize {
      return None;
    }
    r := Some(Layout(b.off, b.lits, b.spans));
  }

  // ---- the manifest of a tree ----

  /** Fixed-size splits of a file. */
  function Chop(b: Bytes, seg: nat): seq<Bytes>
    requires seg > 0
    decreases |b|
  {
    if b == [] then [] else
    var n := Min(|b|, seg);
    [b[..n]] + Chop(b[n..], seg)
  }

  function HashAll(parts: seq<Bytes>, hash: Bytes -> Bytes): (r: seq<Bytes>)
    ensures |r| == |parts|
  {
    if parts == [] then [] else [hash(parts[0])] + HashAll(parts[1..], hash)
  }

  function ManifestOf(t: Tree, seg: nat, hash: Bytes -> Bytes): MNode
    requires seg > 0
    decreases t, 0
  {
    match t
    case Symlink(target) => MSymlink(target)
    case Regular(executable, contents) => MRegular(executable, |contents|, HashAll(Chop(contents, seg), hash))
    case Dir(entries) => MDir(ManifestAll(entries, seg, hash))
  }

  function ManifestAll(es: seq<(Bytes, Tree)>, seg: nat, hash: Bytes -> Bytes): (r: seq<(Bytes, MNode)>)
    requires seg > 0
    ensures |r| == |es|
    decreases es, 0
  {
    if es == [] then [] else [ManifestEntry(es[0], seg, hash)] + ManifestAll(es[1..], seg, hash)
  }

  function ManifestEntry(e: (Bytes, Tree), seg: nat, hash: Bytes -> Bytes): (Bytes, MNode)
    requires seg > 0
    decreases e, 1
  {
    (e.0, ManifestOf(e.1, seg, hash))
  }

  ghost predicate RecoversAll(parts: seq<Bytes>, hash: Bytes -> Bytes, fill: Fill) {
    forall i :: 0 <= i < |parts| ==> fill(hash(parts[i]), |parts[i]|) == parts[i]
  }

  /** The contents given to hashes are right for the tree's own segments. */
  ghost predicate Recovers(t: Tree, seg: nat, hash: Bytes -> Bytes, fill: Fill)
    requires seg > 0
    decreases t, 0
  {
    match t
    case Symlink(_) => true
    case Regular(_, contents) => RecoversAll(Chop(contents, seg), hash, fill)
    case Dir(entries) => forall i :: 0 <= i < |entries| ==> RecoversEntry(entries[i], seg, hash, fill)
  }

  ghost predicate RecoversEntry(e: (Bytes, Tree), seg: nat, hash: Bytes -> Bytes, fill: Fill)
    requires seg > 0
    decreases e, 1
  {
    Recovers(e.1, seg, hash, fill)
  }

  lemma {:induction false} FillsBack(b: Bytes, seg: nat, hash: Bytes -> Bytes, fill: Fill)
    requires seg > 0 && RecoversAll(Chop(b, seg), hash, fill)
    ensures FillAll(HashAll(Chop(b, seg), hash), |b|, seg, fill) == b
    decreases |b|
  {
    if b != [] {
      var n := Min(|b|, seg);
      var parts, rest := Chop(b, seg), Chop(b[n..], seg);
      assert forall i :: 0 <= i < |rest| ==> rest[i] == parts[i + 1];
      FillsBack(b[n..], seg, hash, fill);
      assert parts[0] == b[..n];
      FillCons(b[..n], rest, hash, |b|, seg, fill);
      assert b[..n] + b[n..] == b;
    }
  }

  lemma FillCons(part: Bytes, rest: seq<Bytes>, hash: Bytes -> Bytes, len: nat, seg: nat, fill: Fill)
    ensures FillAll(HashAll([part] + rest, hash), len, seg, fill)
            == fill(hash(part), Min(len, seg)) + FillAll(HashAll(rest, hash), len - Min(len, seg), seg, fill)
  {
    var hs := HashAll([part] + rest, hash);
    assert ([part] + rest)[1..] == rest;
    assert hs == [hash(part)] + HashAll(rest, hash) && hs[1..] == HashAll(rest, hash);
  }

  /** The manifest of a tree describes that tree. */
  lemma {:induction false} ManifestDescribes(t: Tree, seg: nat, hash: Bytes -> Bytes, fill: Fill)
    requires seg > 0 && Recovers(t, seg, hash, fill)
    ensures Resolve(ManifestOf(t, seg, hash), seg, fill) == t
    decreases t, 1
  {
    match t
    case Symlink(_) =>
    case Regular(_, contents) => FillsBack(contents, seg, hash, fill);
    case Dir(entries) => ManifestDescribesAll(entries, seg, hash, fill);
  }

  lemma {:induction false} ManifestDescribesAll(es: seq<(Bytes, Tree)>, seg: nat, hash: Bytes -> Bytes, fill: Fill)
    requires seg > 0 && forall i :: 0 <= i < |es| ==> RecoversEntry(es[i], seg, hash, fill)
    ensures ResolveAll(ManifestAll(es, seg, hash), seg, fill) == es
    decreases es, 0
  {
    if es != [] {
      var e: (Bytes, Tree) := es[0];
      assert e in es && e.1 < e && RecoversEntry(e, seg, hash, fill);
      ManifestDescribes(e.1, seg, hash, fill);
      var rest := es[1..];
      assert forall i :: 0 <= i < |rest| ==> rest[i] == es[i + 1];
      ManifestDescribesAll(rest, seg, hash, fill);
      ResolveCons(ManifestEntry(e, seg, hash), ManifestAll(rest, seg, hash), seg, fill);
      assert es == [e] + rest;
    }
  }

  lemma ResolveCons(e: (Bytes, MNode), es: seq<(Bytes, MNode)>, seg: nat, fill: Fill)
    ensures ResolveAll([e] + es, seg, fill) == [ResolveEntry(e, seg, fill)] + ResolveAll(es, seg, fill)
  {
    assert ([e] + es)[1..] == es;
  }

  lemma {:induction false} ChopCount(b: Bytes, seg: nat)
    requires seg > 0
    ensures |Chop(b, seg)| == DivCeil(|b|, seg)
    decreases |b|
  {
    if b != [] {
      DivCeilStep(|b|, seg);
      ChopCount(b[Min(|b|, seg)..], seg);
    }
  }

  /** Trees that have a usable manifest: names strictly sorted, not too deep. */
  predicate Canonical(t: Tree, depth: nat)
    decreases t, 0
  {
    && depth <= MAX_DEPTH
    && (t.Dir? ==> (forall i :: 0 < i < |t.entries| ==> Before(t.entries[i - 1].0, t.entries[i].0))
                   && (forall i :: 0 <= i < |t.entries| ==> CanonicalEntry(t.entries[i], depth + 1)))
  }

  predicate CanonicalEntry(e: (Bytes, Tree), depth: nat)
    decreases e, 1
  {
    Canonical(e.1, depth)
  }

  lemma {:induction false} ManifestAt(es: seq<(Bytes, Tree)>, seg: nat, hash: Bytes -> Bytes, i: nat)
    requires seg > 0 && i < |es|
    ensures ManifestAll(es, seg, hash)[i] == ManifestEntry(es[i], seg, hash)
    decreases |es|
  {
    if i > 0 { ManifestAt(es[1..], seg, hash, i - 1); }
  }

  lemma {:induction false} HashAt(parts: seq<Bytes>, hash: Bytes -> Bytes, i: nat)
    requires i < |parts|
    ensures HashAll(parts, hash)[i] == hash(parts[i])
    decreases |parts|
  {
    if i > 0 { HashAt(parts[1..], hash, i - 1); }
  }

  /** A tree's manifest is accepted exactly when the tree is canonical. */
  lemma {:induction false} AcceptedIffCanonical(t: Tree, seg: nat, hash: Bytes -> Bytes, depth: nat)
    requires seg > 0 && forall b {:trigger hash(b)} :: |hash(b)| == 32
    ensures WellFormed(ManifestOf(t, seg, hash), seg, depth) <==> Canonical(t, depth)
    decreases t, 1
  {
    match t
    case Symlink(_) =>
    case Regular(_, contents) =>
      ChopCount(contents, seg);
      var parts := Chop(contents, seg);
      forall i | 0 <= i < |parts| ensures |HashAll(parts, hash)[i]| == 32 { HashAt(parts, hash, i); }
    case Dir(es) =>
      var ms := ManifestAll(es, seg, hash);
      forall i | 0 <= i < |es| ensures ms[i] == ManifestEntry(es[i], seg, hash) { ManifestAt(es, seg, hash, i); }
      forall i | 0 <= i < |es| ensures EntryFormed(ms[i], seg, depth + 1) <==> CanonicalEntry(es[i], depth + 1) {
        var e: (Bytes, Tree) := es[i];
        assert e in es && e.1 < e;
        AcceptedIffCanonical(e.1, seg, hash, depth + 1);
      }
      assert forall i :: 0 <= i < |es| ==> ms[i].0 == es[i].0;
  }

  /** Two walks, one encoding: the seek table of a tree and the layout synthesised from that
      tree's manifest flatten to the same archive. */
  method TwoWalks(t: Tree, seg: nat, hash: Bytes -> Bytes, narHash: Bytes, ghost fill: Fill)
      returns (table: Table, r: Option<Layout>)
    requires seg > 0 && FillOk(fill) && Recovers(t, seg, hash, fill) && forall b {:trigger hash(b)} :: |hash(b)| == 32
    ensures r.Some? <==> Canonical(t, 0)
    ensures SegsOk(table.lits, table.segs) && Flatten(table.lits, table.segs, |table.segs|) == Archive(t)
            && table.narSize == |Archive(t)|
    ensures r.Some? ==> r.value.narSize == table.narSize && SegsOk(r.value.lits, SegsOf(r.value.spans, fill))
                        && Flatten(r.value.lits, SegsOf(r.value.spans, fill), |r.value.spans|) == Archive(t)
  {
    table := Build(t);
    ManifestDescribes(t, seg, hash, fill);
    AcceptedIffCanonical(t, seg, hash, 0);
    r := SynthLayout(Manifest(narHash, table.narSize, seg, ManifestOf(t, seg, hash)), fill);
  }
}
