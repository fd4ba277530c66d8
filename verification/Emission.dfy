/** Emission of a transfer (`Emitter` in src/fetch.rs): walk the plan in order, consume the
    reorder buffer, synthesise literals, retain and replay duplicates, hash the stream, and
    withhold the last piece of a full transfer until the NAR hash agrees. */
module Emission {
  import opened Common
  import opened Buffer

  datatype Span =
    | Lit(litOff: nat, len: nat)
    | Fetch(len: nat, retain: Option<(nat, nat)>)
    | Replay(unique: nat, len: nat)

  /** A span with its NAR offset. */
  type Placed = (nat, Span)

  // ---- what a plan says, independently of how it is executed ----

  function OffAt(spans: seq<Placed>, start: nat, i: nat): nat
    requires i <= |spans|
  {
    if i == 0 then start else OffAt(spans, start, i - 1) + spans[i - 1].1.len
  }

  /** unique id to (index of the span that retained it, replays still owed). */
  function HeldAt(spans: seq<Placed>, i: nat): map<nat, (nat, nat)>
    requires i <= |spans|
  {
    if i == 0 then map[] else
    var h := HeldAt(spans, i - 1);
    match spans[i - 1].1
    case Lit(_, _) => h
    case Fetch(_, retain) => if retain.Some? then h[retain.value.0 := (i - 1, retain.value.1)] else h
    case Replay(u, _) => Replayed<nat>(h, u)
  }

  /** One replay of u: the last one frees it. */
  function Replayed<V>(h: map<nat, (V, nat)>, u: nat): map<nat, (V, nat)> {
    if u !in h then h else if h[u].1 <= 1 then h - {u} else h[u := (h[u].0, h[u].1 - 1)]
  }

  ghost predicate HeldInBounds(spans: seq<Placed>, i: nat)
    requires i <= |spans|
  {
    forall u :: u in HeldAt(spans, i) ==> HeldAt(spans, i)[u].0 < i
  }

  lemma {:induction false} HeldBounded(spans: seq<Placed>, i: nat)
    requires i <= |spans|
    ensures HeldInBounds(spans, i)
    decreases i
  {
    if i > 0 { HeldBounded(spans, i - 1); }
  }

  /** A replay is owed by a retained span of the same length. */
  ghost predicate ReplayOk(spans: seq<Placed>, i: nat)
    requires i < |spans|
  {
    spans[i].1.Replay? ==>
      var h, u := HeldAt(spans, i), spans[i].1.unique;
      u in h && h[u].0 < |spans| && h[u].1 >= 1 && spans[h[u].0].1.len == spans[i].1.len
  }

  /** Span i lies where the previous one ends, is well formed, and can be executed. */
  ghost predicate PlacedOk(spans: seq<Placed>, lits: Bytes, start: nat, i: nat)
    requires i < |spans|
  {
    spans[i].0 == OffAt(spans, start, i) && SpanOk(lits, spans[i].1) && ReplayOk(spans, i)
  }

  ghost predicate PlanOk(spans: seq<Placed>, lits: Bytes, start: nat, end: nat) {
    && OffAt(spans, start, |spans|) == end
    && (forall i :: 0 <= i < |spans| ==> PlacedOk(spans, lits, start, i))
  }

  ghost predicate SpanOk(lits: Bytes, s: Span) {
    match s
    case Lit(off, len) => off + len <= |lits| && len > 0
    case Fetch(_, retain) => retain.Some? ==> retain.value.1 >= 1
    case Replay(_, len) => len > 0
  }

  /** The bytes span i contributes: literals are local, fetched bytes are the wire's, a replay
      repeats what the retaining span fetched. */
  function SpanBytes(spans: seq<Placed>, lits: Bytes, src: nat -> byte, i: nat): Bytes
    requires i < |spans|
  {
    match spans[i].1
    case Lit(off, len) => if off + len <= |lits| then lits[off..off + len] else []
    case Fetch(len, _) => Slice(src, spans[i].0, len)
    case Replay(u, len) =>
      var h := HeldAt(spans, i);
      if u in h && h[u].0 < |spans| then Slice(src, spans[h[u].0].0, len) else []
  }

  /** The plan as a list of byte pieces. */
  function PlanBytes(spans: seq<Placed>, lits: Bytes, src: nat -> byte): nat -> Bytes {
    (i: nat) => if i < |spans| then SpanBytes(spans, lits, src, i) else []
  }

  /** The concatenation of the first i pieces. */
  function Output(piece: nat -> Bytes, i: nat): Bytes {
    if i == 0 then [] else Output(piece, i - 1) + piece(i - 1)
  }

  lemma {:induction false} OutputLength(spans: seq<Placed>, lits: Bytes, src: nat -> byte, start: nat, end: nat,
                                        piece: nat -> Bytes, i: nat)
    requires PlanOk(spans, lits, start, end) && i <= |spans| && piece == PlanBytes(spans, lits, src)
    ensures start + |Output(piece, i)| == OffAt(spans, start, i)
    decreases i
  {
    if i > 0 {
      OutputLength(spans, lits, src, start, end, piece, i - 1);
      PieceLength(spans, lits, src, start, end, i - 1);
    }
  }

  lemma PieceLength(spans: seq<Placed>, lits: Bytes, src: nat -> byte, start: nat, end: nat, i: nat)
    requires PlanOk(spans, lits, start, end) && i < |spans|
    ensures |PlanBytes(spans, lits, src)(i)| == spans[i].1.len
  {
    assert PlacedOk(spans, lits, start, i);
  }

  lemma {:induction false} OutputPrefix(piece: nat -> Bytes, i: nat, j: nat)
    requires i <= j
    ensures Output(piece, i) <= Output(piece, j)
    decreases j
  {
    if i < j {
      OutputPrefix(piece, i, j - 1);
      PrefixGrows(Output(piece, i), Output(piece, j - 1), piece(j - 1));
    }
  }

  /** Whole pieces and part of the next are a prefix of the whole output. */
  lemma PartPrefix(piece: nat -> Bytes, src: nat -> byte, off: nat, len: nat, part: nat, i: nat, n: nat)
    requires i < n && part <= len && piece(i) == Slice(src, off, len)
    ensures Output(piece, i) + Slice(src, off, part) <= Output(piece, n)
  {
    SliceJoin(src, off, part, len - part);
    var whole := Output(piece, i) + Slice(src, off, part);
    assert Output(piece, i + 1) == whole + Slice(src, off + part, len - part);
    OutputPrefix(piece, i + 1, n);
  }

  lemma {:induction false} OffAscends(spans: seq<Placed>, start: nat, i: nat, j: nat)
    requires i <= j <= |spans|
    ensures OffAt(spans, start, i) <= OffAt(spans, start, j)
    decreases j
  {
    if i < j { OffAscends(spans, start, i, j - 1); }
  }

  /** Span k says what the NAR says: literals are the NAR's bytes, peers delivered the NAR's
      bytes, and a replayed segment equals the one retained under the same key. */
  ghost predicate Honest(spans: seq<Placed>, lits: Bytes, src: nat -> byte, nar: nat -> byte, k: nat)
    requires k < |spans|
  {
    var (off, s) := spans[k];
    match s
    case Lit(litOff, len) => litOff + len <= |lits| && lits[litOff..litOff + len] == Slice(nar, off, len)
    case Fetch(len, _) => Slice(src, off, len) == Slice(nar, off, len)
    case Replay(u, len) =>
      u in HeldAt(spans, k) && HeldAt(spans, k)[u].0 < |spans|
      && var f := HeldAt(spans, k)[u].0;
         Slice(src, spans[f].0, len) == Slice(nar, spans[f].0, len)
           && Slice(nar, spans[f].0, len) == Slice(nar, off, len)
  }

  /** An honest plan's output is the NAR's range, so everything sent is a prefix of it. */
  lemma {:induction false} OutputIsNar(spans: seq<Placed>, lits: Bytes, src: nat -> byte, start: nat, end: nat,
                                       nar: nat -> byte,
                                       piece: nat -> Bytes, i: nat)
    requires PlanOk(spans, lits, start, end) && i <= |spans| && piece == PlanBytes(spans, lits, src)
    requires forall k :: 0 <= k < |spans| ==> Honest(spans, lits, src, nar, k)
    ensures start <= OffAt(spans, start, i)
    ensures Output(piece, i) == Slice(nar, start, OffAt(spans, start, i) - start)
    decreases i
  {
    if i > 0 {
      OutputIsNar(spans, lits, src, start, end, nar, piece, i - 1);
      var off, len := OffAt(spans, start, i - 1), spans[i - 1].1.len;
      HonestPiece(spans, lits, src, start, end, nar, i - 1);
      SliceGrows(nar, start, off, len, Output(piece, i - 1), piece(i - 1));
    }
  }

  lemma SliceGrows(nar: nat -> byte, start: nat, off: nat, len: nat, a: Bytes, b: Bytes)
    requires start <= off && a == Slice(nar, start, off - start) && b == Slice(nar, off, len)
    ensures a + b == Slice(nar, start, off + len - start)
  {
    SliceJoin(nar, start, off - start, len);
    assert start + (off - start) == off && off - start + len == off + len - start;
  }

  lemma HonestPiece(spans: seq<Placed>, lits: Bytes, src: nat -> byte, start: nat, end: nat, nar: nat -> byte, k: nat)
    requires PlanOk(spans, lits, start, end) && k < |spans| && Honest(spans, lits, src, nar, k)
    ensures PlanBytes(spans, lits, src)(k) == Slice(nar, OffAt(spans, start, k), spans[k].1.len)
  {
    assert PlacedOk(spans, lits, start, k);
  }

  /** The buffer gained nothing, and still has every byte at or beyond pos that it had. */
  ghost predicate KeptFrom(before: Buf, after: Buf, pos: nat) {
    forall x: nat :: (Has(after, x) ==> Has(before, x)) && (x >= pos && Has(before, x) ==> Has(after, x))
  }

  // ---- what is retained while executing ----

  ghost predicate HeldMatches(spans: seq<Placed>, src: nat -> byte, held: map<nat, (Bytes, nat)>, i: nat)
    requires i <= |spans|
  {
    && held.Keys == HeldAt(spans, i).Keys
    && forall u :: u in held ==> HeldEntry(spans, src, HeldAt(spans, i)[u], held[u])
  }

  ghost predicate HeldEntry(spans: seq<Placed>, src: nat -> byte, at: (nat, nat), entry: (Bytes, nat)) {
    at.0 < |spans| && entry == (Slice(src, spans[at.0].0, spans[at.0].1.len), at.1)
  }

  lemma HeldSame(spans: seq<Placed>, src: nat -> byte, held: map<nat, (Bytes, nat)>, i: nat)
    requires i < |spans| && HeldMatches(spans, src, held, i)
    requires spans[i].1.Lit? || (spans[i].1.Fetch? && spans[i].1.retain.None?)
    ensures HeldMatches(spans, src, held, i + 1)
  {
    assert HeldAt(spans, i + 1) == HeldAt(spans, i);
  }

  lemma HeldRetained(spans: seq<Placed>, src: nat -> byte, held: map<nat, (Bytes, nat)>, i: nat, b: Bytes)
    requires i < |spans| && HeldMatches(spans, src, held, i) && spans[i].1.Fetch? && spans[i].1.retain.Some?
    requires b == Slice(src, spans[i].0, spans[i].1.len)
    ensures HeldMatches(spans, src, held[spans[i].1.retain.value.0 := (b, spans[i].1.retain.value.1)], i + 1)
  {
    var (u, r) := spans[i].1.retain.value;
    assert HeldAt(spans, i + 1) == HeldAt(spans, i)[u := (i, r)];
  }

  /** A planned replay finds its segment, whole and with a replay owed. */
  lemma HeldForReplay(spans: seq<Placed>, src: nat -> byte, held: map<nat, (Bytes, nat)>, i: nat)
    requires i < |spans| && HeldMatches(spans, src, held, i) && spans[i].1.Replay? && ReplayOk(spans, i)
    ensures var u: nat := spans[i].1.unique;
            && u in held && |held[u].0| == spans[i].1.len && held[u].1 >= 1
            && held[u].0 == Slice(src, spans[HeldAt(spans, i)[u].0].0, spans[i].1.len)
  {
    var u: nat, h: map<nat, (nat, nat)> := spans[i].1.unique, HeldAt(spans, i);
    assert HeldEntry(spans, src, h[u], held[u]);
  }

  lemma HeldReplayed(spans: seq<Placed>, src: nat -> byte, held: map<nat, (Bytes, nat)>, i: nat)
    requires i < |spans| && HeldMatches(spans, src, held, i) && spans[i].1.Replay?
    ensures HeldMatches(spans, src, Replayed<Bytes>(held, spans[i].1.unique), i + 1)
  {
    MatchReplayed(spans, src, HeldAt(spans, i), held, spans[i].1.unique);
  }

  lemma MatchReplayed(spans: seq<Placed>, src: nat -> byte, h: map<nat, (nat, nat)>, held: map<nat, (Bytes, nat)>,
                      u: nat)
    requires held.Keys == h.Keys && forall v :: v in held ==> HeldEntry(spans, src, h[v], held[v])
    ensures var (h', held') := (Replayed<nat>(h, u), Replayed<Bytes>(held, u));
            held'.Keys == h'.Keys && forall v :: v in held' ==> HeldEntry(spans, src, h'[v], held'[v])
  {
    if u in h { assert HeldEntry(spans, src, h[u], held[u]); }
  }

  // ---- the emitter ----

  datatype Sending = Sent | ClientGone | HashMismatch

  datatype Pumped = Go | NeedData | Finished | Abort | Gone | Mismatch

  class Emitter {
    const spans: seq<Placed>
    const lits: Bytes
    const start: nat
    const end: nat
    const full: bool
    const narHash: Bytes
    const sha: Bytes -> Bytes
    /** Whether the client still takes its n-th piece; it may leave between any two. */
    const takes: nat -> bool
    /** The bytes the wire delivers, offset by offset: each offset is delivered at most once. */
    ghost const src: nat -> byte
    /** The plan's byte pieces. */
    ghost const piece: nat -> Bytes
    var spanI: nat
    var spanEmitted: nat
    var emitPos: nat
    /** Everything fed to the running hash. */
    var hasher: Bytes
    var buffered: Buf
    var held: map<nat, (Bytes, nat)>
    /** Pieces accepted by the downstream channel, in order. */
    var sent: seq<Bytes>

    /** The stream so far, the hash state and the gate. */
    ghost predicate StreamOk()
      reads this
    {
      && emitPos == start + |Flat(sent)|
      && (full ==> hasher == Flat(sent))
      && (full && start < end && emitPos == end ==> sha(Flat(sent)) == narHash)
    }

    ghost predicate Valid()
      reads this
    {
      && PlanOk(spans, lits, start, end) && piece == PlanBytes(spans, lits, src)
      && PosOk()
      && StreamOk()
      && Tidy(buffered) && Agrees(buffered, src)
      && HeldMatches(spans, src, held, spanI)
    }

    /** Whatever the outcome, what went downstream is a prefix of the plan's output. */
    ghost predicate SentPrefix()
      reads this
    {
      Flat(sent) <= Output(piece, |spans|)
    }

    constructor (spans: seq<Placed>, lits: Bytes, start: nat, end: nat, full: bool, narHash: Bytes, sha: Bytes -> Bytes,
                 takes: nat -> bool, ghost src: nat -> byte)
      requires PlanOk(spans, lits, start, end)
      ensures Valid() && sent == [] && emitPos == start && buffered == map[] && held == map[]
      ensures this.spans == spans && this.lits == lits && this.start == start && this.end == end && this.full == full
      ensures this.narHash == narHash && this.sha == sha && this.takes == takes && this.src == src
              && this.piece == PlanBytes(spans, lits, src)
    {
      this.spans, this.lits, this.start, this.end, this.full := spans, lits, start, end, full;
      this.narHash, this.sha, this.takes, this.src, this.piece := narHash, sha, takes, src, PlanBytes(spans, lits, src);
      spanI, spanEmitted, emitPos := 0, 0, start;
      hasher, buffered, held, sent := [], map[], map[], [];
    }

    /** Buffer bytes that arrived for a range where nothing is buffered. */
    method Insert(off: nat, bytes: Bytes)
      requires Valid() && bytes != [] && bytes == Slice(src, off, |bytes|) && Free(buffered, off, |bytes|)
      modifies this`buffered
      ensures Valid() && buffered == old(buffered)[off := bytes]
    {
      InsertFree(buffered, off, bytes);
      InsertAgrees(buffered, src, off, bytes);
      buffered := buffered[off := bytes];
    }

    /** Send one piece, hashing; the piece that completes a full transfer is withheld unless
        the whole stream hashes to the NAR hash. */
    method Emit(b: Bytes) returns (r: Sending)
      requires StreamOk() && b != []
      modifies this`hasher, this`emitPos, this`sent
      ensures r == Sent ==>
                StreamOk() && sent == old(sent) + [b] && Flat(sent) == old(Flat(sent)) + b
                && emitPos == old(emitPos) + |b|
      ensures r == HashMismatch ==>
                sent == old(sent) && full && emitPos == old(emitPos) && emitPos + |b| == end
                && sha(Flat(sent) + b) != narHash
      ensures r == ClientGone ==> sent == old(sent)
      ensures r == HashMismatch <==> full && old(emitPos) + |b| == end && sha(old(Flat(sent)) + b) != narHash
      ensures r != HashMismatch ==> (r == Sent <==> old(takes(|sent|)))
      ensures emitPos >= old(emitPos)
    {
      FlatSnoc(sent, b);
      if full {
        hasher := hasher + b;
        if emitPos + |b| == end {
          if sha(hasher) != narHash {
            return HashMismatch;
          }
        }
      }
      emitPos := emitPos + |b|;
      if !takes(|sent|) {
        return ClientGone;
      }
      sent := sent + [b];
      r := Sent;
    }

    /** Bytes at or beyond the position stay buffered. */
    twostate predicate Kept()
      reads this
    {
      KeptFrom(old(buffered), buffered, emitPos)
    }

    /** After a mismatch a nonempty final piece of the full stream was withheld. */
    ghost predicate Stopped(r: Pumped)
      reads this
    {
      && (r == Gone || r == Mismatch)
      && SentPrefix()
      && (r == Mismatch ==> full && start + |Flat(sent)| < end)
    }

    lemma ValidPrefix()
      requires Valid()
      ensures SentPrefix()
      ensures emitPos == OffAt(spans, start, spanI) + spanEmitted
    {
      OutputLength(spans, lits, src, start, end, piece, spanI);
      if spanEmitted > 0 {
        assert PlacedOk(spans, lits, start, spanI);
        assert piece(spanI) == Slice(src, spans[spanI].0, spans[spanI].1.len);
        PartPrefix(piece, src, spans[spanI].0, spans[spanI].1.len, spanEmitted, spanI, |spans|);
      } else {
        assert Slice(src, OffAt(spans, start, spanI), 0) == [];
        OutputPrefix(piece, spanI, |spans|);
      }
    }

    /** Send pieces in order. */
    method SendAll(ps: seq<Bytes>) returns (r: Pumped)
      requires StreamOk() && forall i :: 0 <= i < |ps| ==> |ps[i]| > 0
      requires Flat(sent) + Flat(ps) <= Output(piece, |spans|)
      modifies this`hasher, this`emitPos, this`sent
      ensures r == Go || Stopped(r)
      ensures r == Go ==> StreamOk() && Flat(sent) == old(Flat(sent)) + Flat(ps)
      ensures emitPos >= old(emitPos)
    {
      ghost var base := Flat(sent);
      assert ps[..0] == [];
      for i := 0 to |ps|
        invariant StreamOk() && Flat(sent) == base + Flat(ps[..i]) && emitPos >= old(emitPos)
      {
        FlatPrefix(ps, i);
        assert Flat(sent) <= base + Flat(ps);
        var e := Emit(ps[i]);
        if e == ClientGone {
          return Gone;
        }
        if e == HashMismatch {
          return Mismatch;
        }
        FlatNext(ps, i);
      }
      assert ps[..|ps|] == ps;
      r := Go;
    }

    /** Move on to the next span once the current one was emitted whole. */
    method Advance()
      requires PlanOk(spans, lits, start, end) && piece == PlanBytes(spans, lits, src)
      requires spanI < |spans| && StreamOk() && Flat(sent) == Output(piece, spanI) + piece(spanI)
      requires Tidy(buffered) && Agrees(buffered, src) && HeldMatches(spans, src, held, spanI + 1)
      modifies this`spanI, this`spanEmitted
      ensures Valid() && spanI == old(spanI) + 1 && spanEmitted == 0
    {
      spanEmitted := 0;
      spanI := spanI + 1;
      assert Slice(src, OffAt(spans, start, spanI), 0) == [];
      assert Output(piece, spanI) + [] == Output(piece, spanI);
    }

    /** At a span boundary, with what this span retains or replays already settled. */
    ghost predicate Ready()
      reads this
    {
      && PlanOk(spans, lits, start, end) && piece == PlanBytes(spans, lits, src)
      && spanI < |spans| && spanEmitted == 0 && StreamOk() && Flat(sent) == Output(piece, spanI)
      && Tidy(buffered) && Agrees(buffered, src) && HeldMatches(spans, src, held, spanI + 1)
    }

    /** Send the current span whole and move on. */
    method SendWhole(ps: seq<Bytes>) returns (r: Pumped)
      requires Ready() && Flat(ps) == piece(spanI) && forall i :: 0 <= i < |ps| ==> |ps[i]| > 0
      modifies this`hasher, this`emitPos, this`sent, this`spanI, this`spanEmitted
      ensures r == Go || Stopped(r)
      ensures r == Go ==> Valid() && spanI == old(spanI) + 1 && spanEmitted == 0 && emitPos == old(emitPos) + |Flat(ps)|
      ensures emitPos >= old(emitPos)
    {
      r := SendPiece(ps);
      if r == Go {
        Advance();
      }
    }

    method SendPiece(ps: seq<Bytes>) returns (r: Pumped)
      requires StreamOk() && spanI < |spans| && Flat(sent) == Output(piece, spanI)
      requires Flat(ps) == piece(spanI) && forall i :: 0 <= i < |ps| ==> |ps[i]| > 0
      modifies this`hasher, this`emitPos, this`sent
      ensures r == Go || Stopped(r)
      ensures r == Go ==>
                StreamOk() && Flat(sent) == Output(piece, spanI) + piece(spanI) && emitPos == old(emitPos) + |Flat(ps)|
      ensures emitPos >= old(emitPos)
    {
      OutputPrefix(piece, spanI + 1, |spans|);
      r := SendAll(ps);
    }

    /** At a span boundary the stream is the output so far. */
    lemma AtBoundary()
      requires Valid() && spanI < |spans| && spanEmitted == 0
      ensures Flat(sent) == Output(piece, spanI)
    {
      assert Slice(src, OffAt(spans, start, spanI), 0) == [];
    }

    static lemma FlatOne(b: Bytes)
      ensures Flat([b]) == b
    {
      FlatSnoc([], b);
      assert [] + [b] == [b];
    }

    method StepLit() returns (r: Pumped)
      requires Valid() && spanI < |spans| && spanEmitted == 0 && spans[spanI].1.Lit?
      modifies this`hasher, this`emitPos, this`sent, this`spanI, this`spanEmitted
      ensures r == Go || Stopped(r)
      ensures r == Go ==> Valid() && spanI == old(spanI) + 1 && spanEmitted == 0
      ensures emitPos >= old(emitPos)
    {
      var s := spans[spanI].1;
      assert PlacedOk(spans, lits, start, spanI);
      var b := lits[s.litOff..s.litOff + s.len];
      AtBoundary();
      FlatOne(b);
      HeldSame(spans, src, held, spanI);
      r := SendWhole([b]);
    }

    /** Replaying never aborts: the retained copy is there and has this span's length. */
    method StepReplay() returns (r: Pumped)
      requires Valid() && spanI < |spans| && spanEmitted == 0 && spans[spanI].1.Replay?
      modifies this`hasher, this`emitPos, this`sent, this`spanI, this`spanEmitted, this`held
      ensures r == Go || Stopped(r)
      ensures r == Go ==> Valid() && spanI == old(spanI) + 1 && spanEmitted == 0
      ensures emitPos >= old(emitPos)
    {
      var u: nat, len: nat := spans[spanI].1.unique, spans[spanI].1.len;
      AtBoundary();
      ReplayIsHeld();
      if u !in held {
        return Abort;
      }
      var bytes := held[u].0;
      if |bytes| != len {
        return Abort;
      }
      FlatOne(bytes);
      held := Replayed<Bytes>(held, u);
      r := SendWhole([bytes]);
    }

    lemma ReplayIsHeld()
      requires Valid() && spanI < |spans| && spanEmitted == 0 && spans[spanI].1.Replay?
      ensures var u: nat := spans[spanI].1.unique;
              && u in held && held[u].0 == piece(spanI) && |held[u].0| == spans[spanI].1.len > 0
              && HeldMatches(spans, src, Replayed<Bytes>(held, u), spanI + 1)
    {
      assert PlacedOk(spans, lits, start, spanI);
      HeldForReplay(spans, src, held, spanI);
      HeldReplayed(spans, src, held, spanI);
    }

    /** Where the stream stands: whole spans, then part of a plain one. */
    ghost predicate PosOk()
      reads this
    {
      && spanI <= |spans|
      && (spanEmitted > 0 ==>
           spanI < |spans| && spans[spanI].1.Fetch? && spans[spanI].1.retain.None? && spanEmitted <= spans[spanI].1.len)
      && Flat(sent) == Output(piece, spanI) + Slice(src, OffAt(spans, start, spanI), spanEmitted)
    }

    /** Take the next piece of a plain span out of the buffer, if it has arrived. */
    method TakeNext(len: nat) returns (got: Option<Bytes>)
      requires Tidy(buffered) && Agrees(buffered, src) && len > 0
      modifies this`buffered
      ensures got.Some? <==> Has(old(buffered), emitPos)
      ensures got.None? ==> buffered == old(buffered)
      ensures got.Some? ==> 0 < |got.value| <= len && got.value == Slice(src, emitPos, |got.value|)
                            && KeptFrom(old(buffered), buffered, emitPos + |got.value|)
      ensures Tidy(buffered) && Agrees(buffered, src)
    {
      buffered, got := TakePrefix(buffered, emitPos, len, src);
    }

    /** Send a piece of the current plain span. */
    method SendPart(b: Bytes) returns (r: Pumped)
      requires PosOk() && StreamOk() && spanI < |spans| && spans[spanI].1.Fetch? && spans[spanI].1.retain.None?
               && SentPrefix()
      requires b != [] && spanEmitted + |b| <= spans[spanI].1.len
      requires emitPos == OffAt(spans, start, spanI) + spanEmitted && b == Slice(src, emitPos, |b|)
      modifies this`hasher, this`emitPos, this`sent, this`spanEmitted
      ensures r == Go || Stopped(r)
      ensures r == Go ==>
                PosOk() && StreamOk() && spanEmitted == old(spanEmitted) + |b| && emitPos == old(emitPos) + |b|
      ensures emitPos >= old(emitPos)
    {
      ghost var before, done, off := Flat(sent), spanEmitted, OffAt(spans, start, spanI);
      var e := Emit(b);
      if e == ClientGone {
        return Gone;
      }
      if e == HashMismatch {
        return Mismatch;
      }
      MoreOf(before, Output(piece, spanI), off, done, b);
      spanEmitted := spanEmitted + |b|;
      r := Go;
    }

    /** One piece of a plain span. */
    method StreamOne() returns (r: Pumped)
      requires Valid() && spanI < |spans| && spans[spanI].1.Fetch? && spans[spanI].1.retain.None?
               && spanEmitted < spans[spanI].1.len
      modifies this`hasher, this`emitPos, this`sent, this`spanEmitted, this`buffered
      ensures r == Go || r == NeedData || Stopped(r)
      ensures r == Go ==> Valid() && old(spanEmitted) < spanEmitted <= spans[spanI].1.len && Kept()
      ensures r == NeedData ==>
                Valid() && spanEmitted == old(spanEmitted) && !Has(buffered, emitPos) && buffered == old(buffered)
      ensures emitPos >= old(emitPos)
    {
      ValidPrefix();
      var got := TakeNext(spans[spanI].1.len - spanEmitted);
      if got.None? {
        return NeedData;
      }
      r := SendPart(got.value);
    }

    lemma MoreOf(before: Bytes, base: Bytes, off: nat, done: nat, b: Bytes)
      requires before == base + Slice(src, off, done) && b == Slice(src, off + done, |b|)
      ensures before + b == base + Slice(src, off, done + |b|)
    {
      SliceJoin(src, off, done, |b|);
      assert (base + Slice(src, off, done)) + b == base + (Slice(src, off, done) + b);
    }

    /** A plain span streams whatever contiguous prefix is buffered. */
    method StepPlain() returns (r: Pumped)
      requires Valid() && spanI < |spans| && spans[spanI].1.Fetch? && spans[spanI].1.retain.None?
      modifies this`hasher, this`emitPos, this`sent, this`spanI, this`spanEmitted, this`buffered
      ensures r == Go || r == NeedData || Stopped(r)
      ensures r == Go ==> Valid() && spanI == old(spanI) + 1 && spanEmitted == 0 && Kept()
      ensures r == NeedData ==>
                Valid() && spanI == old(spanI) && spanEmitted < spans[spanI].1.len && !Has(buffered, emitPos) && Kept()
      ensures emitPos >= old(emitPos)
    {
      var len := spans[spanI].1.len;
      while spanEmitted < len
        invariant Valid() && spanI == old(spanI) && spanEmitted <= len && emitPos >= old(emitPos) && Kept()
        decreases len - spanEmitted
      {
        r := StreamOne();
        if r != Go {
          return r;
        }
      }
      assert PlacedOk(spans, lits, start, spanI);
      assert piece(spanI) == Slice(src, OffAt(spans, start, spanI), spanEmitted);
      HeldSame(spans, src, held, spanI);
      Advance();
      r := Go;
    }

    /** Take a whole span out of the buffer, if all of it has arrived. */
    method TakeWhole(off: nat, len: nat) returns (got: Option<seq<Bytes>>)
      requires Tidy(buffered) && Agrees(buffered, src)
      modifies this`buffered
      ensures got.None? ==> buffered == old(buffered) && exists x: nat :: off <= x < off + len && !Has(buffered, x)
      ensures got.Some? ==>
                Flat(got.value) == Slice(src, off, len) && (forall i :: 0 <= i < |got.value| ==> |got.value[i]| > 0)
                            && KeptFrom(old(buffered), buffered, off + len)
      ensures Tidy(buffered) && Agrees(buffered, src)
    {
      buffered, got := TakeSpan(buffered, off, off + len, src);
    }

    /** A retained span waits until it can be assembled whole. */
    method StepRetained() returns (r: Pumped)
      requires Valid() && spanI < |spans| && spanEmitted == 0 && spans[spanI].1.Fetch? && spans[spanI].1.retain.Some?
      modifies this`hasher, this`emitPos, this`sent, this`spanI, this`spanEmitted, this`held, this`buffered
      ensures r == Go || r == NeedData || Stopped(r)
      ensures r == Go ==> Valid() && spanI == old(spanI) + 1 && spanEmitted == 0 && Kept()
      ensures r == NeedData ==> Valid() && spanI == old(spanI) && spanEmitted == 0 && buffered == old(buffered)
                                && exists x: nat :: emitPos <= x < emitPos + spans[spanI].1.len && !Has(buffered, x)
      ensures emitPos >= old(emitPos)
    {
      var (off, span) := spans[spanI];
      ValidPrefix();
      assert PlacedOk(spans, lits, start, spanI);
      var slices := TakeWhole(off, span.len);
      if slices.None? {
        return NeedData;
      }
      r := SendRetained(slices.value);
    }

    /** Keep a copy of the assembled span for its replays, and send it. */
    method SendRetained(ps: seq<Bytes>) returns (r: Pumped)
      requires Valid() && spanI < |spans| && spanEmitted == 0 && spans[spanI].1.Fetch? && spans[spanI].1.retain.Some?
      requires Flat(ps) == Slice(src, spans[spanI].0, spans[spanI].1.len) && forall i :: 0 <= i < |ps| ==> |ps[i]| > 0
      modifies this`hasher, this`emitPos, this`sent, this`spanI, this`spanEmitted, this`held
      ensures r == Go || Stopped(r)
      ensures r == Go ==>
                Valid() && spanI == old(spanI) + 1 && spanEmitted == 0
                && emitPos == old(emitPos) + spans[old(spanI)].1.len
      ensures emitPos >= old(emitPos)
    {
      var (unique, retainFor) := spans[spanI].1.retain.value;
      var owned: Bytes := Flat(ps);
      AtBoundary();
      HeldRetained(spans, src, held, spanI, owned);
      held := held[unique := (owned, retainFor)];
      r := SendWhole(ps);
    }

    static lemma {:induction false} FlatPrefix(ps: seq<Bytes>, i: nat)
      requires i <= |ps|
      ensures Flat(ps[..i]) <= Flat(ps)
      decreases |ps|
    {
      if i == |ps| {
        assert ps[..i] == ps;
      } else {
        FlatPrefix(ps[..|ps| - 1], i);
        assert ps[..|ps| - 1][..i] == ps[..i];
      }
    }

    static lemma FlatNext(ps: seq<Bytes>, i: nat)
      requires i < |ps|
      ensures Flat(ps[..i + 1]) == Flat(ps[..i]) + ps[i]
    {
      assert ps[..i + 1] == ps[..i] + [ps[i]];
      FlatSnoc(ps[..i], ps[i]);
    }

    /** Why the emitter stands still: the byte it needs next, or a byte of the span that it
        must assemble whole, is not buffered. */
    ghost predicate Starved()
      reads this
    {
      && spanI < |spans| && spans[spanI].1.Fetch?
      && if spans[spanI].1.retain.None? then spanEmitted < spans[spanI].1.len && !Has(buffered, emitPos)
         else spanEmitted == 0 && exists x: nat :: emitPos <= x < emitPos + spans[spanI].1.len && !Has(buffered, x)
    }

    /** One span, as far as it goes. */
    method Step() returns (r: Pumped)
      requires Valid() && spanI < |spans|
      modifies this`hasher, this`emitPos, this`sent, this`spanI, this`spanEmitted, this`held, this`buffered
      ensures r == Go || r == NeedData || Stopped(r)
      ensures r == Go ==> Valid() && spanI == old(spanI) + 1 && Kept()
      ensures r == NeedData ==> Valid() && Starved() && Kept()
      ensures emitPos >= old(emitPos)
    {
      match spans[spanI].1 {
        case Lit(_, _) => r := StepLit();
        case Replay(_, _) => r := StepReplay();
        case Fetch(_, retain) =>
          if retain.None? {
            r := StepPlain();
          } else {
            r := StepRetained();
          }
      }
    }

    /** Everything was sent; a full transfer of nonzero size sent NarSize bytes that hash to
        the NAR hash. */
    ghost predicate Completed()
      reads this
    {
      && emitPos == end && Flat(sent) == Output(piece, |spans|)
      && (full && start < end ==> |Flat(sent)| == end - start && sha(Flat(sent)) == narHash)
    }

    lemma AtEnd()
      requires Valid() && spanI == |spans|
      ensures Completed() && SentPrefix()
    {
      ValidPrefix();
      assert Slice(src, OffAt(spans, start, spanI), 0) == [];
    }

    /** Work through the plan until a byte is missing, the plan ends or sending stops. */
    method Pump() returns (r: Pumped)
      requires Valid()
      modifies this`hasher, this`emitPos, this`sent, this`spanI, this`spanEmitted, this`held, this`buffered
      ensures r == NeedData || r == Finished || Stopped(r)
      ensures r == NeedData ==> Valid() && Starved() && Kept()
      ensures r == Finished ==> Valid() && Completed()
      ensures SentPrefix()
      ensures emitPos >= old(emitPos)
    {
      while spanI < |spans|
        invariant Valid() && emitPos >= old(emitPos) && Kept()
        decreases |spans| - spanI
      {
        r := Step();
        if r != Go {
          if r == NeedData { ValidPrefix(); }
          return r;
        }
      }
      AtEnd();
      r := Finished;
    }
  }
}
