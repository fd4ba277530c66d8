/** One origin's copy as a node stores it, and what the store composites and `apply_suffix` /
    `apply_snapshot` do to it (src/index.rs, src/store/rocks.rs). */
module Replica {
  import opened Common
  import opened Facts

  datatype HoldOp = Add(hash: Bytes) | Remove(hash: Bytes)

  /** The payload of a journal event as decoded from the wire; hashes may be malformed. */
  datatype Op = Have(hash: Bytes) | Drop(hash: Bytes) | Attest(fact: Attestation) | Nothing

  datatype Event = Event(no: nat, op: Op)

  datatype Clock = Clock(generation: nat, no: nat, tail: nat)

  datatype Copy = Copy(clock: Clock, journal: map<nat, Event>, held: set<Bytes>)

  const ZERO_COPY: Copy := Copy(Clock(0, 0, 0), map[], {})

  predicate IsDigest(h: Bytes) { |h| == 32 }

  predicate WellFormed(a: Attestation) {
    && |a.narHash| == 32
    && a.storePath != [] && a.storePath[0] == '/'
    && |HashPartOf(a.storePath)| == 32
    && (a.ca != "" || a.sigs != [])
  }

  // ---- possession semantics ----

  function HoldOf(op: Op): seq<HoldOp> {
    match op
    case Have(h) => if IsDigest(h) then [Add(h)] else []
    case Drop(h) => if IsDigest(h) then [Remove(h)] else []
    case Attest(_) => []
    case Nothing => []
  }

  function AttestOf(op: Op): seq<Attestation> {
    if op.Attest? && WellFormed(op.fact) then [op.fact] else []
  }

  function StepHold(held: set<Bytes>, op: HoldOp): set<Bytes> {
    match op case Add(h) => held + {h} case Remove(h) => held - {h}
  }

  function FoldHolds(held: set<Bytes>, ops: seq<HoldOp>): set<Bytes>
    decreases |ops|
  {
    if ops == [] then held else StepHold(FoldHolds(held, ops[..|ops| - 1]), ops[|ops| - 1])
  }

  function StepOp(held: set<Bytes>, op: Op): set<Bytes> {
    match op
    case Have(h) => if IsDigest(h) then held + {h} else held
    case Drop(h) => held - {h}
    case Attest(_) => held
    case Nothing => held
  }

  /** The reference meaning of a journal: replay its events one by one. */
  function Replay(held: set<Bytes>, es: seq<Event>): set<Bytes>
    decreases |es|
  {
    if es == [] then held else StepOp(Replay(held, es[..|es| - 1]), es[|es| - 1].op)
  }

  function HoldsOf(es: seq<Event>): seq<HoldOp>
    decreases |es|
  {
    if es == [] then [] else HoldsOf(es[..|es| - 1]) + HoldOf(es[|es| - 1].op)
  }

  function AttestsOf(es: seq<Event>): seq<Attestation>
    decreases |es|
  {
    if es == [] then [] else AttestsOf(es[..|es| - 1]) + AttestOf(es[|es| - 1].op)
  }

  lemma {:induction false} FoldHoldsAppend(held: set<Bytes>, a: seq<HoldOp>, b: seq<HoldOp>)
    ensures FoldHolds(held, a + b) == FoldHolds(FoldHolds(held, a), b)
    decreases |b|
  {
    if b == [] {
      assert a + b == a;
    } else {
      assert (a + b)[..|a + b| - 1] == a + b[..|b| - 1];
      FoldHoldsAppend(held, a, b[..|b| - 1]);
    }
  }

  lemma HoldOfMeaning(held: set<Bytes>, op: Op)
    requires forall x :: x in held ==> IsDigest(x)
    ensures FoldHolds(held, HoldOf(op)) == StepOp(held, op)
  {
    if HoldOf(op) != [] { assert HoldOf(op)[..0] == []; }
  }

  lemma {:induction false} ReplayDigests(held: set<Bytes>, es: seq<Event>)
    requires forall x :: x in held ==> IsDigest(x)
    ensures forall x :: x in Replay(held, es) ==> IsDigest(x)
    decreases |es|
  {
    if es != [] { ReplayDigests(held, es[..|es| - 1]); }
  }

  lemma {:induction false} HoldsReplay(held: set<Bytes>, es: seq<Event>)
    requires forall x :: x in held ==> IsDigest(x)
    ensures FoldHolds(held, HoldsOf(es)) == Replay(held, es)
    decreases |es|
  {
    if es != [] {
      HoldsReplay(held, es[..|es| - 1]);
      ReplayDigests(held, es[..|es| - 1]);
      HoldOfMeaning(Replay(held, es[..|es| - 1]), es[|es| - 1].op);
      FoldHoldsAppend(held, HoldsOf(es[..|es| - 1]), HoldOf(es[|es| - 1].op));
    }
  }

  lemma {:induction false} ReplayAppend(held: set<Bytes>, a: seq<Event>, b: seq<Event>)
    ensures Replay(held, a + b) == Replay(Replay(held, a), b)
    decreases |b|
  {
    if b == [] {
      assert a + b == a;
    } else {
      assert (a + b)[..|a + b| - 1] == a + b[..|b| - 1];
      ReplayAppend(held, a, b[..|b| - 1]);
    }
  }

  // ---- what a journal says about one hash ----

  function Verdict(op: Op, x: Bytes): Option<bool> {
    match op
    case Have(h) => if h == x && IsDigest(h) then Some(true) else None
    case Drop(h) => if h == x then Some(false) else None
    case Attest(_) => None
    case Nothing => None
  }

  /** The last word of the events on x. */
  function LastVerdict(es: seq<Event>, x: Bytes): Option<bool>
    decreases |es|
  {
    if es == [] then None
    else if Verdict(es[|es| - 1].op, x).Some? then Verdict(es[|es| - 1].op, x)
    else LastVerdict(es[..|es| - 1], x)
  }

  /** Some event adds or drops x. */
  ghost predicate Touched(es: seq<Event>, x: Bytes) {
    exists i :: 0 <= i < |es| && Verdict(es[i].op, x).Some?
  }

  lemma {:induction false} TouchedHasVerdict(es: seq<Event>, x: Bytes)
    ensures Touched(es, x) <==> LastVerdict(es, x).Some?
    decreases |es|
  {
    if es != [] {
      var init := es[..|es| - 1];
      TouchedHasVerdict(init, x);
      if Touched(init, x) {
        var i :| 0 <= i < |init| && Verdict(init[i].op, x).Some?;
        assert Verdict(es[i].op, x).Some?;
      }
      if Touched(es, x) && Verdict(es[|es| - 1].op, x).None? {
        var i :| 0 <= i < |es| && Verdict(es[i].op, x).Some?;
        assert Verdict(init[i].op, x).Some?;
      }
    }
  }

  /** After a replay a hash is held as the last event on it says, or as before. */
  lemma {:induction false} ReplayMembership(held: set<Bytes>, es: seq<Event>, x: Bytes)
    ensures x in Replay(held, es) <==> if LastVerdict(es, x).Some? then LastVerdict(es, x).value else x in held
    decreases |es|
  {
    if es != [] { ReplayMembership(held, es[..|es| - 1], x); }
  }

  lemma MeetAt(a: set<Bytes>, b: set<Bytes>, es: seq<Event>, x: Bytes)
    ensures (x in Replay(a, es) <==> x in Replay(b, es)) <==> (x in Differing(a, b) ==> Touched(es, x))
  {
    TouchedHasVerdict(es, x);
    ReplayMembership(a, es, x);
    ReplayMembership(b, es, x);
  }

  /** Events bring two possession sets together exactly when they touch every hash on which the
      sets differ. */
  lemma MeetIffTouched(a: set<Bytes>, b: set<Bytes>, es: seq<Event>)
    ensures Replay(a, es) == Replay(b, es) <==> forall x :: x in Differing(a, b) ==> Touched(es, x)
  {
    forall x
      ensures (x in Replay(a, es) <==> x in Replay(b, es)) <==> (x in Differing(a, b) ==> Touched(es, x))
    {
      MeetAt(a, b, es, x);
    }
  }

  // ---- the journal suffix, scanned against a clock ----

  /** What `apply_suffix` accumulates while it walks the events. */
  datatype Batch = Batch(rows: seq<Event>, holds: seq<HoldOp>, attests: seq<Attestation>, no: nat)

  function Extend(b: Batch, e: Event): Batch {
    Batch(b.rows + [e], b.holds + HoldOf(e.op), b.attests + AttestOf(e.op), e.no)
  }

  /** None: a gap, the suffix does not connect. */
  function Scan(b: Batch, events: seq<Event>): Option<Batch>
    decreases |events|
  {
    if events == [] then Some(b)
    else if events[0].no <= b.no then Scan(b, events[1..])
    else if events[0].no != b.no + 1 then None
    else Scan(Extend(b, events[0]), events[1..])
  }

  datatype Plan = Stale | Gap | Ready(batch: Batch)

  /** Everything `apply_suffix` decides before it enters the store. */
  function PlanSuffix(generation: nat, no: nat, msgGeneration: nat, events: seq<Event>): Plan {
    if msgGeneration < generation then Stale
    else if msgGeneration > generation && !(generation == 0 && no == 0) then Gap
    else match Scan(Batch([], [], [], no), events)
      case None => Gap
      case Some(b) => Ready(b)
  }

  // ---- the composites ----

  function PutRows(j: map<nat, Event>, es: seq<Event>): map<nat, Event>
    decreases |es|
  {
    if es == [] then j else PutRows(j, es[..|es| - 1])[es[|es| - 1].no := es[|es| - 1]]
  }

  /** `apply_events`: gated on the clock still being (generation, no). */
  function Commit(c: Copy, expectGeneration: nat, expectNo: nat, setGeneration: nat, b: Batch): Copy {
    if c.clock.generation != expectGeneration || c.clock.no != expectNo then c
    else Copy(Clock(setGeneration, b.no, c.clock.tail), PutRows(c.journal, b.rows), FoldHolds(c.held, b.holds))
  }

  /** `apply_suffix` whose clock read happened earlier and returned (readGeneration, readNo). */
  function ApplyRead(c: Copy, readGeneration: nat, readNo: nat, msgGeneration: nat, events: seq<Event>): Copy {
    match PlanSuffix(readGeneration, readNo, msgGeneration, events)
    case Stale => c
    case Gap => c
    case Ready(b) => if b.rows == [] then c else Commit(c, readGeneration, readNo, msgGeneration, b)
  }

  /** What the fact table becomes with it: the facts enter with the rows, or not at all. */
  function FactsRead(c: Copy, known: Table, readGeneration: nat, readNo: nat, msgGeneration: nat,
                     events: seq<Event>): Table {
    match PlanSuffix(readGeneration, readNo, msgGeneration, events)
    case Stale => known
    case Gap => known
    case Ready(b) =>
      if b.rows == [] || c.clock.generation != readGeneration || c.clock.no != readNo then known
      else MergeAll(known, b.attests)
  }

  predicate StaleSnapshot(c: Copy, generation: nat, no: nat) {
    generation < c.clock.generation || (generation == c.clock.generation && no < c.clock.no)
  }

  function Digests(held: set<Bytes>): set<Bytes> { set h | h in held && IsDigest(h) }

  /** `apply_snapshot` + `replace_holdings`, run to completion. */
  function ReplaceWith(c: Copy, generation: nat, no: nat, held: set<Bytes>): Copy {
    if StaleSnapshot(c, generation, no) then c
    else Copy(Clock(generation, no, no), map[], Digests(held))
  }

  /** A snapshot is refused only if the copy is past it; one taken at the copy's own clock replaces
      what is held, which is how a copy left mixed by an interrupted replace is mended. */
  lemma SnapshotTakesHold(c: Copy, generation: nat, no: nat, held: set<Bytes>)
    ensures var k, now := c.clock, ReplaceWith(c, generation, no, held);
            if generation > k.generation || (generation == k.generation && no >= k.no)
            then (forall x :: x in now.held <==> x in held && |x| == 32)
                 && now.journal == map[] && now.clock == Clock(generation, no, no)
            else now == c
  {}

  function CompactTo(c: Copy, floor: nat): Copy {
    if floor <= c.clock.tail then c
    else Copy(c.clock.(tail := floor), map i | i in c.journal && !(c.clock.tail < i <= floor) :: c.journal[i], c.held)
  }

  // ---- bulk passes ----

  /** How many operations a bulk pass puts into one write. */
  const BATCH_OPS: nat := 32_768

  /** The hashes whose membership differs. */
  function Differing(a: set<Bytes>, b: set<Bytes>): set<Bytes> { (a - b) + (b - a) }

  /** The n lowest numbers, which a pass in key order meets first. */
  function Lowest(ks: set<nat>, n: nat): (r: set<nat>)
    ensures r <= ks
    decreases n
  {
    if n == 0 || ks == {} then {} else var k := Least(ks); {k} + Lowest(ks - {k}, n - 1)
  }

  lemma {:induction false} LowestOfRun(ks: set<nat>, lo: nat, hi: nat, n: nat)
    requires lo + n <= hi && forall i :: i in ks <==> lo < i <= hi
    ensures forall i :: i in Lowest(ks, n) <==> lo < i <= lo + n
    decreases n
  {
    if n > 0 {
      assert lo + 1 in ks;
      assert Least(ks) == lo + 1;
      LowestOfRun(ks - {lo + 1}, lo + 1, hi, n - 1);
    }
  }

  lemma {:induction false} RunSize(ks: set<nat>, lo: nat, hi: nat)
    requires lo <= hi && forall i :: i in ks <==> lo < i <= hi
    ensures |ks| == hi - lo
    decreases hi - lo
  {
    if lo < hi {
      assert hi in ks;
      RunSize(ks - {hi}, lo, hi - 1);
    } else {
      assert ks == {};
    }
  }

  /** Number the operations after `no`, as `export_ops` does. */
  function Numbered(no: nat, ops: seq<Op>): seq<Event>
    decreases |ops|
  {
    if ops == [] then [] else Numbered(no, ops[..|ops| - 1]) + [Event(no + |ops|, ops[|ops| - 1])]
  }

  lemma {:induction false} NumberedMeaning(no: nat, ops: seq<Op>)
    ensures |Numbered(no, ops)| == |ops|
    ensures forall i :: 0 <= i < |ops| ==> Numbered(no, ops)[i] == Event(no + 1 + i, ops[i])
    decreases |ops|
  {
    if ops != [] { NumberedMeaning(no, ops[..|ops| - 1]); }
  }

  function ExportTo(c: Copy, es: seq<Event>): Copy {
    Copy(c.clock.(no := c.clock.no + |es|), PutRows(c.journal, es), Replay(c.held, es))
  }

  // ---- facts about scanning events that belong to one history ----

  /** `h` is a numbered history: event i carries number i + 1. */
  ghost predicate History(h: seq<Event>) {
    forall i :: 0 <= i < |h| ==> h[i].no == i + 1
  }

  ghost predicate FromHistory(h: seq<Event>, e: Event) {
    1 <= e.no <= |h| && e == h[e.no - 1]
  }

  /** Whatever own events arrive, in whatever order and with whatever gaps and repeats, a
      successful scan has picked up exactly the history slice after the clock. */
  lemma {:induction false} ScanSlice(h: seq<Event>, s: nat, b: Batch, events: seq<Event>)
    requires History(h) && s <= b.no <= |h|
    requires forall i :: 0 <= i < |events| ==> FromHistory(h, events[i])
    requires b == Batch(h[s..b.no], HoldsOf(h[s..b.no]), AttestsOf(h[s..b.no]), b.no)
    ensures Scan(b, events).Some? ==>
              var r := Scan(b, events).value;
              b.no <= r.no <= |h| && r == Batch(h[s..r.no], HoldsOf(h[s..r.no]), AttestsOf(h[s..r.no]), r.no)
    decreases |events|
  {
    if events != [] {
      var e := events[0];
      assert FromHistory(h, e);
      if e.no <= b.no {
        ScanSlice(h, s, b, events[1..]);
      } else if e.no == b.no + 1 {
        ExtendSlice(h, s, b, b.no);
        ScanSlice(h, s, Extend(b, e), events[1..]);
      }
    }
  }

  lemma ExtendSlice(h: seq<Event>, s: nat, b: Batch, lo: nat)
    requires History(h) && s <= b.no == lo < |h|
    requires b == Batch(h[s..b.no], HoldsOf(h[s..b.no]), AttestsOf(h[s..b.no]), b.no)
    ensures var n := lo + 1; Extend(b, h[lo]) == Batch(h[s..n], HoldsOf(h[s..n]), AttestsOf(h[s..n]), n)
  {
    var n := lo + 1;
    assert h[s..n] == h[s..lo] + [h[lo]];
    assert h[s..n][..|h[s..n]| - 1] == h[s..lo];
  }

  /** A contiguous run of own events that starts at or before the clock always connects, and
      applies exactly what is new. */
  lemma {:induction false} ScanConnects(h: seq<Event>, s: nat, b: Batch, lo: nat, hi: nat)
    requires History(h) && s <= b.no <= |h| && lo <= b.no && lo <= hi <= |h|
    requires b == Batch(h[s..b.no], HoldsOf(h[s..b.no]), AttestsOf(h[s..b.no]), b.no)
    ensures Scan(b, h[lo..hi]).Some?
    ensures Scan(b, h[lo..hi]).value.no == Max(b.no, hi)
    decreases hi - lo
  {
    if lo < hi {
      var e := h[lo];
      assert h[lo..hi][0] == e && h[lo..hi][1..] == h[lo + 1..hi];
      if e.no <= b.no {
        ScanConnects(h, s, b, lo + 1, hi);
      } else {
        ExtendSlice(h, s, b, lo);
        ScanConnects(h, s, Extend(b, e), lo + 1, hi);
      }
    }
  }

  /** A scan that succeeds has passed every number it met. */
  lemma {:induction false} ScanCovers(b: Batch, events: seq<Event>)
    ensures Scan(b, events).Some? ==> var r := Scan(b, events).value;
              b.no <= r.no && (forall e :: e in events ==> e.no <= r.no) && |b.rows| <= |r.rows|
                && (|b.rows| == |r.rows| ==> r == b)
    decreases |events|
  {
    if events != [] {
      assert events == [events[0]] + events[1..];
      if events[0].no <= b.no { ScanCovers(b, events[1..]); } else { ScanCovers(Extend(b, events[0]), events[1..]); }
    }
  }

  lemma {:induction false} PutRowsSlice(j: map<nat, Event>, h: seq<Event>, s: nat, t: nat)
    requires History(h) && s <= t <= |h|
    ensures forall i :: i in PutRows(j, h[s..t]) <==> i in j || s < i <= t
    ensures forall i :: s < i <= t ==> PutRows(j, h[s..t])[i] == h[i - 1]
    ensures forall i :: i in j && !(s < i <= t) ==> PutRows(j, h[s..t])[i] == j[i]
    decreases t - s
  {
    if s < t {
      assert h[s..t][..|h[s..t]| - 1] == h[s..t - 1];
      PutRowsSlice(j, h, s, t - 1);
    } else {
      assert h[s..t] == [];
    }
  }
}
