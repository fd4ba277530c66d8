/** The bookkeeping of `run_transfer` (src/fetch.rs): carving fetch ranges into chunks, hedged
    attempts, failures and requeues, out-of-order delivery, and the bounded window. A state
    machine over the events of the transfer loop: launches, completions (late, failed, losing
    twins included) and emission. Peer choice, hedging, chunk sizes, failures and the order of
    completions are arbitrary. */
module Transfer {
  import opened Common
  import opened Buffer
  import Emission

  type Range = (nat, nat)   // (offset, length)

  /** Who is responsible for a byte; `Outside` the fetch ranges nobody is. */
  datatype Owner = Outside | Uncarved | Queued(off: nat) | Flying(off: nat, len: nat) | Delivered

  type Owners = nat -> Owner

  /** An in-flight range with its live attempts. */
  datatype Flight = Flight(attempts: set<nat>, delivered: bool)

  datatype State = State(
    rangeI: nat, rangePos: nat,           // the carve cursor
    requeue: multiset<Range>,
    inflight: map<nat, Flight>,           // keyed by offset
    workers: map<nat, Range>,             // attempts that will still report, with what they fetch
    nextAttempt: nat,
    buffered: Buf,
    emitPos: nat,
    owner: Owners)                        // history: who owns each byte

  /** `Emit` is one pump with the trimming after it: it may only drop bytes it has passed. */
  datatype Step =
    | Launch(gated: bool, chunk: nat, hedged: bool)
    | Done(attempt: nat, result: Option<Bytes>)
    | Emit(pos: nat, rest: Buf)

  // ---- the carving ground ----

  ghost predicate RangesOk(ranges: seq<Range>) {
    forall i, j :: 0 <= i < j < |ranges| ==> ranges[i].0 + ranges[i].1 <= ranges[j].0
  }

  ghost predicate InRange(ranges: seq<Range>, x: nat) {
    exists j :: 0 <= j < |ranges| && ranges[j].0 <= x < ranges[j].0 + ranges[j].1
  }

  function Top(ranges: seq<Range>): nat {
    if ranges == [] then 0 else ranges[|ranges| - 1].0 + ranges[|ranges| - 1].1
  }

  function Cursor(ranges: seq<Range>, i: nat, pos: nat): nat {
    if i < |ranges| then ranges[i].0 + pos else Top(ranges)
  }

  /** Advance the carve cursor past exhausted ranges. */
  function Skip(ranges: seq<Range>, i: nat, pos: nat): (r: (nat, nat))
    ensures r.0 >= i && (r.0 < |ranges| ==> r.1 < ranges[r.0].1)
    decreases |ranges| - i
  {
    if i < |ranges| && pos >= ranges[i].1 then Skip(ranges, i + 1, 0) else (i, pos)
  }

  ghost predicate CursorOk(ranges: seq<Range>, i: nat, pos: nat) {
    i <= |ranges| && (i < |ranges| ==> pos <= ranges[i].1)
  }

  /** Skipping loses no byte. */
  lemma {:induction false} SkipKeeps(ranges: seq<Range>, i: nat, pos: nat)
    requires RangesOk(ranges) && CursorOk(ranges, i, pos)
    ensures var (j, p) := Skip(ranges, i, pos);
            CursorOk(ranges, j, p) && Cursor(ranges, i, pos) <= Cursor(ranges, j, p)
            && forall x: nat :: InRange(ranges, x) ==> (x >= Cursor(ranges, i, pos) <==> x >= Cursor(ranges, j, p))
    decreases |ranges| - i
  {
    if i < |ranges| && pos >= ranges[i].1 {
      SkipKeeps(ranges, i + 1, 0);
      assert Cursor(ranges, i, pos) <= Cursor(ranges, i + 1, 0);
    }
  }

  // ---- the steps ----

  /** The heap's minimum: lowest offset. */
  ghost function Lowest(q: multiset<Range>): (r: Range)
    requires q != multiset{}
    ensures r in q && forall s :: s in q ==> r.0 <= s.0
  {
    var any :| any in q;
    var offs := set s | s in q :: s.0;
    assert any.0 in offs;
    assert forall s :: s in q ==> s.0 in offs;
    var r :| r in q && r.0 == Least(offs);
    r
  }

  /** What would be launched next: requeued work first unless gated, else a fresh carve. */
  ghost function Candidate(ranges: seq<Range>, s: State, gated: bool): Option<nat> {
    if s.requeue != multiset{} && !gated then Some(Lowest(s.requeue).0) else
    var (i, p) := Skip(ranges, s.rangeI, s.rangePos);
    if i < |ranges| then Some(ranges[i].0 + p) else None
  }

  ghost function Assign(owner: Owners, off: nat, len: nat, who: Owner): Owners {
    (x: nat) => if off <= x < off + len then who else owner(x)
  }

  function Count(hedged: bool): nat { if hedged then 2 else 1 }

  /** One new attempt, or two when hedged. */
  function Ids(last: nat, hedged: bool): set<nat> { if hedged then {last + 1, last + 2} else {last + 1} }

  function Joined(fl: map<nat, Flight>, off: nat, ids: set<nat>): map<nat, Flight> {
    fl[off := if off in fl then Flight(fl[off].attempts + ids, fl[off].delivered) else Flight(ids, false)]
  }

  function Spawned(wk: map<nat, Range>, ids: set<nat>, r: Range): map<nat, Range> {
    wk + map a | a in ids :: r
  }

  /** Put r in flight with new attempts. */
  function Fly(s: State, r: Range, hedged: bool): State {
    var ids := Ids(s.nextAttempt, hedged);
    s.(inflight := Joined(s.inflight, r.0, ids), workers := Spawned(s.workers, ids, r), nextAttempt := s.nextAttempt
      + Count(hedged))
  }

  /** An entry r was popped and its first `part` bytes took off; what is left is queued anew. */
  ghost function Split(own: Owners, r: Range, part: nat): Owners
    requires part <= r.1
  {
    (x: nat) => if r.0 <= x < r.0 + part then Flying(r.0, part) else if r.0 + part <= x < r.0 + r.1
      then Queued(r.0 + part) else own(x)
  }

  ghost function Rest(q: multiset<Range>, r: Range, part: nat): multiset<Range>
    requires part <= r.1
  {
    if part < r.1 then q - multiset{r} + multiset{(r.0 + part, r.1 - part)} else q - multiset{r}
  }

  /** Launch the first l bytes of the queued entry r. */
  ghost function RelaunchTo(s: State, r: Range, l: nat, hedged: bool): State
    requires l <= r.1
  {
    Fly(s, (r.0, l), hedged).(requeue := Rest(s.requeue, r, l), owner := Split(s.owner, r, l))
  }

  /** Carve l bytes at the cursor (i, p) and launch them. */
  ghost function CarveTo(ranges: seq<Range>, s: State, i: nat, p: nat, l: nat, hedged: bool): State
    requires i < |ranges|
  {
    var off := ranges[i].0 + p;
    Fly(s, (off, l), hedged).(rangeI := i, rangePos := p + l, owner := Assign(s.owner, off, l, Flying(off, l)))
  }

  /** The cursor stands at (i, p): carve there if anything is left and the window allows. */
  ghost function FreshTo(ranges: seq<Range>, window: nat, s: State, i: nat, p: nat, chunk: nat, hedged: bool): State
    requires i < |ranges| ==> p < ranges[i].1
  {
    if i >= |ranges| || ranges[i].0 + p >= s.emitPos + window then s.(rangeI := i, rangePos := p)
    else CarveTo(ranges, s, i, p, Min(chunk, ranges[i].1 - p), hedged)
  }

  ghost function LaunchTo(ranges: seq<Range>, window: nat, s: State, gated: bool, chunk: nat, hedged: bool): State {
    if s.requeue != multiset{} && !gated then
      var r := Lowest(s.requeue);
      if r.0 >= s.emitPos + window then s else
      var l := if r.1 > 2 * chunk then chunk else r.1;
      RelaunchTo(s, r, l, hedged)
    else
      var at := Skip(ranges, s.rangeI, s.rangePos);
      FreshTo(ranges, window, s, at.0, at.1, chunk, hedged)
  }

  /** The flights after an attempt at `off` reported. */
  function Retired(fl: map<nat, Flight>, off: nat, attempt: nat, ok: bool): map<nat, Flight> {
    if off !in fl then fl else
    var left := fl[off].attempts - {attempt};
    if left == {} then fl - {off} else fl[off := Flight(left, fl[off].delivered || ok)]
  }

  /** A completion: retire the attempt, learn whether a twin delivered or still flies, then
      buffer, discard or requeue. A completion without a flight counts as covered. */
  ghost function DoneTo(s: State, attempt: nat, result: Option<Bytes>): State
    requires attempt in s.workers
  {
    var (off, len) := s.workers[attempt];
    var wasDelivered := off !in s.inflight || s.inflight[off].delivered;
    var twinsLive := off in s.inflight && s.inflight[off].attempts - {attempt} != {};
    var t := s.(workers := s.workers - {attempt}, inflight := Retired(s.inflight, off, attempt, result.Some?));
    if wasDelivered then t
    else if result.Some? then t.(buffered := s.buffered[off := result.value],
      owner := Assign(s.owner, off, len, Delivered))
    else if !twinsLive then t.(requeue := s.requeue + multiset{(off, len)},
      owner := Assign(s.owner, off, len, Queued(off)))
    else t
  }

  ghost predicate Next(ranges: seq<Range>, window: nat, s: State, step: Step, t: State) {
    match step
    case Launch(gated, chunk, hedged) => chunk > 0 && t == LaunchTo(ranges, window, s, gated, chunk, hedged)
    case Done(a, result) =>
      a in s.workers && (result.Some? ==> |result.value| == s.workers[a].1) && t == DoneTo(s, a, result)
    case Emit(pos, rest) =>
      pos >= s.emitPos && Tidy(rest) && Emission.KeptFrom(s.buffered, rest, pos)
        && t == s.(emitPos := pos, buffered := rest)
  }

  // ---- the invariant ----

  ghost predicate OwnersOk(ranges: seq<Range>, i: nat, p: nat, own: Owners) {
    && CursorOk(ranges, i, p)
    && (forall x: nat :: own(x) == Outside <==> !InRange(ranges, x))
    && (forall x: nat :: own(x) == Uncarved <==> InRange(ranges, x) && x >= Cursor(ranges, i, p))
  }

  /** Every byte of r belongs to `who`. */
  ghost predicate Owns(own: Owners, r: Range, who: Owner) {
    forall x: nat :: r.0 <= x < r.0 + r.1 ==> own(x) == who
  }

  ghost predicate EntryOk(q: multiset<Range>, own: Owners, r: Range) {
    r.1 > 0 && q[r] == 1 && Owns(own, r, Queued(r.0))
  }

  /** The queue entry that a queued byte belongs to. */
  ghost predicate InQueue(q: multiset<Range>, own: Owners, x: nat) {
    own(x).Queued? ==> exists l: nat :: (own(x).off, l) in q && own(x).off <= x < own(x).off + l
  }

  ghost predicate QueueOk(q: multiset<Range>, own: Owners) {
    && (forall r :: r in q ==> EntryOk(q, own, r))
    && (forall x: nat :: InQueue(q, own, x))
    && (forall r, t :: r in q && t in q && r.0 == t.0 ==> r == t)
  }

  /** A live attempt belongs to the flight at its offset; until one of them delivers, the
      flight owns its bytes. */
  ghost predicate WorkerOk(fl: map<nat, Flight>, wk: map<nat, Range>, last: nat, own: Owners, a: nat)
    requires a in wk
  {
    var r := wk[a];
    && a <= last && r.1 > 0 && r.0 in fl && a in fl[r.0].attempts
    && Owns(own, r, if fl[r.0].delivered then Delivered else Flying(r.0, r.1))
  }

  ghost predicate FlightOk(fl: map<nat, Flight>, wk: map<nat, Range>, o: nat)
    requires o in fl
  {
    fl[o].attempts != {} && forall a :: a in fl[o].attempts ==> a in wk && wk[a].0 == o
  }

  ghost predicate AloftOk(fl: map<nat, Flight>, own: Owners, x: nat) {
    own(x).Flying? ==> own(x).off in fl && !fl[own(x).off].delivered && own(x).off <= x < own(x).off + own(x).len
                       && own(own(x).off) == own(x)
  }

  ghost predicate FlightsOk(fl: map<nat, Flight>, wk: map<nat, Range>, last: nat, own: Owners) {
    && (forall a :: a in wk ==> WorkerOk(fl, wk, last, own, a))
    && (forall o :: o in fl ==> FlightOk(fl, wk, o))
    && (forall x: nat :: AloftOk(fl, own, x))
  }

  ghost predicate BufferOk(b: Buf, pos: nat, own: Owners) {
    && Tidy(b)
    && (forall x: nat :: Has(b, x) ==> own(x) == Delivered)
    && (forall x: nat :: own(x) == Delivered && x >= pos ==> Has(b, x))
  }

  ghost predicate Inv(ranges: seq<Range>, s: State) {
    && RangesOk(ranges) && OwnersOk(ranges, s.rangeI, s.rangePos, s.owner)
    && QueueOk(s.requeue, s.owner) && FlightsOk(s.inflight, s.workers, s.nextAttempt, s.owner)
    && BufferOk(s.buffered, s.emitPos, s.owner)
  }

  // ---- launching ----

  ghost predicate Grounded(o: Owner) { o.Queued? || o.Uncarved? }

  /** Bytes of [off, off + len) took off from the ground; elsewhere nothing left or joined the
      air, though queued bytes may have changed queue entry. */
  ghost predicate TookOff(was: Owners, now: Owners, off: nat, len: nat) {
    && (forall x: nat :: off <= x < off + len ==> Grounded(was(x)) && now(x) == Flying(off, len))
    && (forall x: nat :: !(off <= x < off + len) ==> now(x) == was(x) || (was(x).Queued? && now(x).Queued?))
  }

  /** A flight's first byte is not on the ground, so a launch at a grounded byte is a new
      flight: `or_insert` inserts. */
  lemma FlightIsAloft(fl: map<nat, Flight>, wk: map<nat, Range>, last: nat, own: Owners, off: nat)
    requires FlightsOk(fl, wk, last, own) && off in fl
    ensures !Grounded(own(off))
  {
    assert FlightOk(fl, wk, off);
    var a :| a in fl[off].attempts;
    assert WorkerOk(fl, wk, last, own, a);
  }

  lemma FlyKeepsWorkers(fl: map<nat, Flight>, wk: map<nat, Range>, last: nat, was: Owners, now: Owners, off: nat,
                        len: nat, hedged: bool)
    requires FlightsOk(fl, wk, last, was) && off !in fl && TookOff(was, now, off, len) && len > 0
    ensures var ids := Ids(last, hedged); var wk' := Spawned(wk, ids, (off, len));
            forall a :: a in wk' ==> WorkerOk(Joined(fl, off, ids), wk', last + Count(hedged), now, a)
  {
    var ids := Ids(last, hedged);
    var fl', wk' := Joined(fl, off, ids), Spawned(wk, ids, (off, len));
    forall a | a in wk' ensures WorkerOk(fl', wk', last + Count(hedged), now, a) {
      if a !in ids { assert WorkerOk(fl, wk, last, was, a); }
    }
  }

  lemma FlyKeepsFlight(fl: map<nat, Flight>, wk: map<nat, Range>, last: nat, was: Owners, off: nat, len: nat,
                       hedged: bool)
    requires FlightsOk(fl, wk, last, was) && off !in fl
    ensures var ids := Ids(last, hedged); var fl' := Joined(fl, off, ids);
            forall o :: o in fl' ==> FlightOk(fl', Spawned(wk, ids, (off, len)), o)
  {
    var ids := Ids(last, hedged);
    var fl', wk' := Joined(fl, off, ids), Spawned(wk, ids, (off, len));
    forall o | o in fl' ensures FlightOk(fl', wk', o) {
      if o == off {
        assert last + 1 in fl'[o].attempts;
      } else {
        assert FlightOk(fl, wk, o);
        forall a | a in fl[o].attempts ensures a in wk' && wk'[a].0 == o { assert WorkerOk(fl, wk, last, was, a); }
      }
    }
  }

  lemma FlyKeepsFlights(fl: map<nat, Flight>, wk: map<nat, Range>, last: nat, was: Owners, now: Owners, off: nat,
                        len: nat, hedged: bool)
    requires FlightsOk(fl, wk, last, was) && TookOff(was, now, off, len) && len > 0
    ensures FlightsOk(Joined(fl, off, Ids(last, hedged)), Spawned(wk, Ids(last, hedged), (off, len)), last
            + Count(hedged), now)
  {
    if off in fl { FlightIsAloft(fl, wk, last, was, off); }
    assert off !in fl;
    FlyKeepsWorkers(fl, wk, last, was, now, off, len, hedged);
    FlyKeepsFlight(fl, wk, last, was, off, len, hedged);
    FlyKeepsAloft(fl, was, now, off, len, Ids(last, hedged));
  }

  lemma FlyKeepsAloft(fl: map<nat, Flight>, was: Owners, now: Owners, off: nat, len: nat, ids: set<nat>)
    requires (forall x: nat :: AloftOk(fl, was, x)) && off !in fl && TookOff(was, now, off, len)
    ensures forall x: nat :: AloftOk(Joined(fl, off, ids), now, x)
  {
    forall x: nat ensures AloftOk(Joined(fl, off, ids), now, x) { assert AloftOk(fl, was, x); }
  }

  lemma TakeOffKeepsBuffer(b: Buf, pos: nat, was: Owners, now: Owners, off: nat, len: nat)
    requires BufferOk(b, pos, was) && TookOff(was, now, off, len)
    ensures BufferOk(b, pos, now)
  {}

  /** What is left of an entry whose front took off is not queued already. */
  lemma RestIsNew(q: multiset<Range>, own: Owners, r: Range, t: Range)
    requires QueueOk(q, own) && r in q && t in q && r.0 <= t.0 < r.0 + r.1
    ensures t == r
  {
    assert EntryOk(q, own, r) && EntryOk(q, own, t);
    assert own(t.0) == Queued(r.0);
  }

  lemma PopKeepsEntry(q: multiset<Range>, own: Owners, r: Range, part: nat, t: Range)
    requires QueueOk(q, own) && r in q && 0 < part <= r.1 && t in Rest(q, r, part)
    ensures EntryOk(Rest(q, r, part), Split(own, r, part), t)
  {
    assert EntryOk(q, own, r);
    var left := (r.0 + part, r.1 - part);
    if left in q && part < r.1 { RestIsNew(q, own, r, left); }
    if t in q {
      assert EntryOk(q, own, t);
      assert t != r;
      forall x: nat | t.0 <= x < t.0 + t.1 ensures Split(own, r, part)(x) == Queued(t.0) {
        assert own(x) == Queued(t.0);
      }
    }
  }

  lemma PopKeepsQueue(q: multiset<Range>, own: Owners, r: Range, part: nat)
    requires QueueOk(q, own) && r in q && 0 < part <= r.1
    ensures QueueOk(Rest(q, r, part), Split(own, r, part))
  {
    var q', own' := Rest(q, r, part), Split(own, r, part);
    assert EntryOk(q, own, r);
    forall t | t in q' ensures EntryOk(q', own', t) { PopKeepsEntry(q, own, r, part, t); }
    forall x: nat ensures InQueue(q', own', x) {
      if own'(x).Queued? {
        if r.0 + part <= x < r.0 + r.1 {
          assert (r.0 + part, r.1 - part) in q';
        } else {
          assert InQueue(q, own, x);
          var l: nat :| (own(x).off, l) in q && own(x).off <= x < own(x).off + l;
          assert (own(x).off, l) != r;
          assert (own'(x).off, l) in q';
        }
      }
    }
    forall t, u | t in q' && u in q' && t.0 == u.0 ensures t == u {
      if t !in q && u in q { RestIsNew(q, own, r, u); }
      if u !in q && t in q { RestIsNew(q, own, r, t); }
    }
  }

  lemma SplitTakesOff(q: multiset<Range>, own: Owners, r: Range, part: nat)
    requires QueueOk(q, own) && r in q && part <= r.1
    ensures TookOff(own, Split(own, r, part), r.0, part)
    ensures forall x: nat ::
              (Split(own, r, part)(x) == Outside <==> own(x) == Outside)
              && (Split(own, r, part)(x) == Uncarved <==> own(x) == Uncarved)
  {
    assert EntryOk(q, own, r);
  }

  lemma RelaunchKeeps(ranges: seq<Range>, s: State, r: Range, l: nat, hedged: bool)
    requires Inv(ranges, s) && r in s.requeue && 0 < l <= r.1
    ensures Inv(ranges, RelaunchTo(s, r, l, hedged))
  {
    SplitTakesOff(s.requeue, s.owner, r, l);
    PopKeepsQueue(s.requeue, s.owner, r, l);
    FlyKeepsFlights(s.inflight, s.workers, s.nextAttempt, s.owner, Split(s.owner, r, l), r.0, l, hedged);
    TakeOffKeepsBuffer(s.buffered, s.emitPos, s.owner, Split(s.owner, r, l), r.0, l);
  }

  lemma LaunchQueuedKeeps(ranges: seq<Range>, window: nat, s: State, chunk: nat, hedged: bool)
    requires Inv(ranges, s) && s.requeue != multiset{} && chunk > 0
    ensures Inv(ranges, LaunchTo(ranges, window, s, false, chunk, hedged))
  {
    var r := Lowest(s.requeue);
    if r.0 < s.emitPos + window {
      assert EntryOk(s.requeue, s.owner, r);
      RelaunchKeeps(ranges, s, r, if r.1 > 2 * chunk then chunk else r.1, hedged);
    }
  }

  /** A fresh carve moves the cursor over exactly the bytes it takes. */
  lemma CarveMovesCursor(ranges: seq<Range>, i: nat, p: nat, l: nat, own: Owners, now: Owners)
    requires RangesOk(ranges) && OwnersOk(ranges, i, p, own) && i < |ranges| && p + l <= ranges[i].1
    requires now == Assign(own, ranges[i].0 + p, l, Flying(ranges[i].0 + p, l))
    ensures OwnersOk(ranges, i, p + l, now) && TookOff(own, now, ranges[i].0 + p, l)
    ensures forall x: nat :: ranges[i].0 + p <= x < ranges[i].0 + p + l ==> own(x) == Uncarved
  {
    forall x: nat | ranges[i].0 + p <= x < ranges[i].0 + p + l ensures own(x) == Uncarved { assert InRange(ranges, x); }
  }

  /** Taking uncarved bytes leaves the queue alone. */
  lemma CarveKeepsQueue(q: multiset<Range>, own: Owners, now: Owners, off: nat, len: nat)
    requires QueueOk(q, own)
    requires forall x: nat ::
               if off <= x < off + len then own(x) == Uncarved && now(x) == Flying(off, len) else now(x) == own(x)
    ensures QueueOk(q, now)
  {
    forall x: nat ensures InQueue(q, now, x) { assert InQueue(q, own, x); }
    forall r | r in q ensures EntryOk(q, now, r) {
      assert EntryOk(q, own, r);
      forall x: nat | r.0 <= x < r.0 + r.1 ensures now(x) == Queued(r.0) { assert own(x) == Queued(r.0); }
    }
  }

  lemma CarveKeeps(ranges: seq<Range>, s: State, i: nat, p: nat, l: nat, hedged: bool)
    requires Inv(ranges, s) && OwnersOk(ranges, i, p, s.owner) && i < |ranges| && 0 < l && p + l <= ranges[i].1
    ensures Inv(ranges, CarveTo(ranges, s, i, p, l, hedged))
  {
    var off := ranges[i].0 + p;
    var now := Assign(s.owner, off, l, Flying(off, l));
    CarveMovesCursor(ranges, i, p, l, s.owner, now);
    FlyKeepsFlights(s.inflight, s.workers, s.nextAttempt, s.owner, now, off, l, hedged);
    TakeOffKeepsBuffer(s.buffered, s.emitPos, s.owner, now, off, l);
    CarveKeepsQueue(s.requeue, s.owner, now, off, l);
    var t := CarveTo(ranges, s, i, p, l, hedged);
    assert t.owner == now && t.requeue == s.requeue && t.buffered == s.buffered && t.rangeI == i && t.rangePos == p + l;
  }

  lemma SkipKeepsInv(ranges: seq<Range>, s: State, i: nat, p: nat)
    requires Inv(ranges, s) && OwnersOk(ranges, i, p, s.owner)
    ensures Inv(ranges, s.(rangeI := i, rangePos := p))
  {}

  lemma FreshKeeps(ranges: seq<Range>, window: nat, s: State, i: nat, p: nat, chunk: nat, hedged: bool)
    requires Inv(ranges, s) && OwnersOk(ranges, i, p, s.owner) && (i < |ranges| ==> p < ranges[i].1) && chunk > 0
    ensures Inv(ranges, FreshTo(ranges, window, s, i, p, chunk, hedged))
  {
    if i >= |ranges| || ranges[i].0 + p >= s.emitPos + window {
      SkipKeepsInv(ranges, s, i, p);
    } else {
      CarveKeeps(ranges, s, i, p, Min(chunk, ranges[i].1 - p), hedged);
    }
  }

  lemma SkipOwners(ranges: seq<Range>, i: nat, p: nat, own: Owners)
    requires RangesOk(ranges) && OwnersOk(ranges, i, p, own)
    ensures OwnersOk(ranges, Skip(ranges, i, p).0, Skip(ranges, i, p).1, own)
  {
    SkipKeeps(ranges, i, p);
  }

  // ---- completions ----

  /** The bytes of r pass from its flight to `who`. */
  ghost predicate Landed(was: Owners, now: Owners, r: Range, who: Owner) {
    forall x: nat :: now(x) == if r.0 <= x < r.0 + r.1 then who else was(x)
  }

  /** Who owns what after attempt a reported: its bytes land when they were still flying and
      either arrived, or were given up by the last attempt. */
  ghost predicate Settled(fl: map<nat, Flight>, wk: map<nat, Range>, was: Owners, now: Owners, a: nat, ok: bool)
    requires a in wk && wk[a].0 in fl
  {
    var (off, len) := wk[a];
    if fl[off].delivered || (!ok && fl[off].attempts != {a}) then now == was
    else Landed(was, now, wk[a], if ok then Delivered else Queued(off))
  }

  lemma RetireKeepsWorkers(fl: map<nat, Flight>, wk: map<nat, Range>, last: nat, was: Owners, now: Owners, a: nat,
                           ok: bool, b: nat)
    requires a in wk && b in wk && a != b && WorkerOk(fl, wk, last, was, a) && WorkerOk(fl, wk, last, was, b)
    requires Settled(fl, wk, was, now, a, ok)
    ensures WorkerOk(Retired(fl, wk[a].0, a, ok), wk - {a}, last, now, b)
  {
    var r, q := wk[a], wk[b];
    assert b in (wk - {a});
    if !fl[r.0].delivered {
      assert was(r.0) == Flying(r.0, r.1);
      if q.0 == r.0 {
        assert was(q.0) == was(r.0);
        assert b in fl[r.0].attempts - {a};
      } else if now != was {
        assert forall x: nat :: q.0 <= x < q.0 + q.1 ==> now(x) == was(x);
      }
    } else if q.0 == r.0 {
      assert b in fl[r.0].attempts - {a};
    }
  }

  lemma RetireKeepsFlights(fl: map<nat, Flight>, wk: map<nat, Range>, last: nat, was: Owners, now: Owners, a: nat,
                           ok: bool)
    requires FlightsOk(fl, wk, last, was) && a in wk && wk[a].0 in fl && Settled(fl, wk, was, now, a, ok)
    ensures FlightsOk(Retired(fl, wk[a].0, a, ok), wk - {a}, last, now)
  {
    var off := wk[a].0;
    assert WorkerOk(fl, wk, last, was, a);
    var fl', wk' := Retired(fl, off, a, ok), wk - {a};
    forall b | b in wk' ensures WorkerOk(fl', wk', last, now, b) {
      assert WorkerOk(fl, wk, last, was, b);
      RetireKeepsWorkers(fl, wk, last, was, now, a, ok, b);
    }
    forall o | o in fl' ensures FlightOk(fl', wk', o) { assert FlightOk(fl, wk, o); }
    forall x: nat ensures AloftOk(fl', now, x) { RetireKeepsAloft(fl, wk, last, was, now, a, ok, x); }
  }

  lemma RetireKeepsAloft(fl: map<nat, Flight>, wk: map<nat, Range>, last: nat, was: Owners, now: Owners, a: nat,
                         ok: bool, x: nat)
    requires a in wk && WorkerOk(fl, wk, last, was, a) && Settled(fl, wk, was, now, a, ok) && AloftOk(fl, was, x)
    ensures AloftOk(Retired(fl, wk[a].0, a, ok), now, x)
  {
    var (off, len) := wk[a];
    if now(x).Flying? && !fl[off].delivered { assert was(off) == Flying(off, len); }
  }

  /** Delivery buffers a range whose bytes were never buffered before. */
  lemma DeliverKeepsBuffer(b: Buf, pos: nat, was: Owners, now: Owners, r: Range, bytes: Bytes)
    requires BufferOk(b, pos, was) && r.1 > 0 && |bytes| == r.1 && Owns(was, r, Flying(r.0, r.1))
             && Landed(was, now, r, Delivered)
    ensures BufferOk(b[r.0 := bytes], pos, now)
    ensures r.0 !in b && Free(b, r.0, r.1)
  {
    forall x: nat | r.0 <= x < r.0 + |bytes| ensures !Has(b, x) { assert was(x) == Flying(r.0, r.1); }
    InsertFree(b, r.0, bytes);
    var b' := b[r.0 := bytes];
    forall x: nat | now(x) == Delivered && x >= pos ensures Has(b', x) {
      InsertHas(b, r.0, bytes, x);
    }
  }

  /** The queue after a range landed: back in the queue, or delivered. */
  lemma LandKeepsQueue(q: multiset<Range>, was: Owners, now: Owners, r: Range, requeued: bool)
    requires QueueOk(q, was) && r.1 > 0 && Owns(was, r, Flying(r.0, r.1))
    requires Landed(was, now, r, if requeued then Queued(r.0) else Delivered)
    ensures QueueOk(if requeued then q + multiset{r} else q, now)
    ensures forall t :: t in q ==> t.0 != r.0
  {
    var q' := if requeued then q + multiset{r} else q;
    forall t | t in q ensures EntryOk(q, now, t) && t.0 != r.0 {
      assert EntryOk(q, was, t);
      assert was(t.0) == Queued(t.0);
      assert forall x: nat :: t.0 <= x < t.0 + t.1 ==> now(x) == was(x);
    }
    forall t | t in q' ensures EntryOk(q', now, t) { assert t in q ==> EntryOk(q, now, t); }
    forall x: nat ensures InQueue(q', now, x) {
      assert InQueue(q, was, x);
      if now(x).Queued? && r.0 <= x < r.0 + r.1 { assert (r.0, r.1) in q'; }
    }
  }

  lemma LandKeepsOwners(ranges: seq<Range>, i: nat, p: nat, was: Owners, now: Owners, r: Range, who: Owner)
    requires OwnersOk(ranges, i, p, was) && Owns(was, r, Flying(r.0, r.1)) && Landed(was, now, r, who)
             && (who.Queued? || who.Delivered?)
    ensures OwnersOk(ranges, i, p, now)
  {}

  lemma RequeueKeepsBuffer(b: Buf, pos: nat, was: Owners, now: Owners, r: Range)
    requires BufferOk(b, pos, was) && Owns(was, r, Flying(r.0, r.1)) && Landed(was, now, r, Queued(r.0))
    ensures BufferOk(b, pos, now)
  {}

  /** A completion always finds its flight. */
  lemma NoStaleCompletion(ranges: seq<Range>, s: State, a: nat)
    requires Inv(ranges, s) && a in s.workers
    ensures s.workers[a].0 in s.inflight && a in s.inflight[s.workers[a].0].attempts
  {
    assert WorkerOk(s.inflight, s.workers, s.nextAttempt, s.owner, a);
  }

  lemma LandKeeps(ranges: seq<Range>, s: State, a: nat, result: Option<Bytes>, now: Owners)
    requires Inv(ranges, s) && a in s.workers && s.workers[a].0 in s.inflight && !s.inflight[s.workers[a].0].delivered
    requires result.Some? ==> |result.value| == s.workers[a].1
    requires result.None? ==> s.inflight[s.workers[a].0].attempts == {a}
    requires Landed(s.owner, now, s.workers[a], if result.Some? then Delivered else Queued(s.workers[a].0))
    ensures var r := s.workers[a];
            Inv(ranges, s.(workers := s.workers - {a}, inflight := Retired(s.inflight, r.0, a, result.Some?),
              owner := now,
                           buffered := if result.Some? then s.buffered[r.0 := result.value] else s.buffered,
                           requeue := if result.Some? then s.requeue else s.requeue + multiset{r}))
  {
    var r := s.workers[a];
    assert WorkerOk(s.inflight, s.workers, s.nextAttempt, s.owner, a);
    RetireKeepsFlights(s.inflight, s.workers, s.nextAttempt, s.owner, now, a, result.Some?);
    LandKeepsOwners(ranges, s.rangeI, s.rangePos, s.owner, now, r, if result.Some? then Delivered else Queued(r.0));
    LandKeepsQueue(s.requeue, s.owner, now, r, result.None?);
    if result.Some? {
      DeliverKeepsBuffer(s.buffered, s.emitPos, s.owner, now, r, result.value);
    } else {
      RequeueKeepsBuffer(s.buffered, s.emitPos, s.owner, now, r);
    }
  }

  lemma DoneKeeps(ranges: seq<Range>, s: State, a: nat, result: Option<Bytes>)
    requires Inv(ranges, s) && a in s.workers && (result.Some? ==> |result.value| == s.workers[a].1)
    ensures Inv(ranges, DoneTo(s, a, result))
  {
    var r := s.workers[a];
    NoStaleCompletion(ranges, s, a);
    var fl := s.inflight[r.0];
    if !fl.delivered && (result.Some? || fl.attempts == {a}) {
      LandKeeps(ranges, s, a, result, Assign(s.owner, r.0, r.1, if result.Some? then Delivered else Queued(r.0)));
    } else {
      assert fl.attempts - {a} == {} <==> fl.attempts == {a};
      RetireKeepsFlights(s.inflight, s.workers, s.nextAttempt, s.owner, s.owner, a, result.Some?);
    }
  }

  // ---- what every run keeps ----

  lemma NextKeepsInv(ranges: seq<Range>, window: nat, s: State, step: Step, t: State)
    requires Inv(ranges, s) && Next(ranges, window, s, step, t)
    ensures Inv(ranges, t)
  {
    match step
    case Launch(gated, chunk, hedged) =>
      if s.requeue != multiset{} && !gated {
        LaunchQueuedKeeps(ranges, window, s, chunk, hedged);
      } else {
        var at := Skip(ranges, s.rangeI, s.rangePos);
        SkipOwners(ranges, s.rangeI, s.rangePos, s.owner);
        FreshKeeps(ranges, window, s, at.0, at.1, chunk, hedged);
      }
    case Done(a, result) => DoneKeeps(ranges, s, a, result);
    case Emit(pos, rest) =>
  }

  ghost function Start(ranges: seq<Range>, emitPos: nat): State {
    State(0, 0, multiset{}, map[], map[], 0, map[], emitPos, (x: nat) => if InRange(ranges, x) then Uncarved
      else Outside)
  }

  /** A run: its states and the steps between them, from the start of a transfer. */
  ghost predicate Run(ranges: seq<Range>, window: nat, start: nat, states: seq<State>, steps: seq<Step>) {
    && |states| == |steps| + 1 && states[0] == Start(ranges, start)
    && forall i :: 0 <= i < |steps| ==> Next(ranges, window, states[i], steps[i], states[i + 1])
  }

  lemma StartInv(ranges: seq<Range>, start: nat)
    requires RangesOk(ranges)
    ensures Inv(ranges, Start(ranges, start))
  {
    var s := Start(ranges, start);
    forall x: nat ensures s.owner(x) == Uncarved ==> x >= Cursor(ranges, 0, 0) {
      if InRange(ranges, x) { var j :| 0 <= j < |ranges| && ranges[j].0 <= x < ranges[j].0 + ranges[j].1; }
    }
  }

  lemma {:induction false} RunKeepsInv(ranges: seq<Range>, window: nat, start: nat, states: seq<State>,
                                       steps: seq<Step>, n: nat)
    requires RangesOk(ranges) && Run(ranges, window, start, states, steps) && n < |states|
    ensures Inv(ranges, states[n])
    decreases n
  {
    if n == 0 {
      StartInv(ranges, start);
    } else {
      RunKeepsInv(ranges, window, start, states, steps, n - 1);
      NextKeepsInv(ranges, window, states[n - 1], steps[n - 1], states[n]);
    }
  }

  // ---- conservation of the ranges ----

  ghost predicate Within(r: Range, x: nat) { r.0 <= x < r.0 + r.1 }

  /** Attempt a fetches x and no twin of it has delivered. */
  ghost predicate MayDeliver(s: State, a: nat, x: nat) {
    a in s.workers && Within(s.workers[a], x) && s.workers[a].0 in s.inflight && !s.inflight[s.workers[a].0].delivered
  }

  /** This step buffers the byte at x. */
  ghost predicate Delivers(s: State, step: Step, x: nat) {
    step.Done? && step.result.Some? && MayDeliver(s, step.attempt, x)
  }

  ghost predicate Arrived(states: seq<State>, steps: seq<Step>, n: nat, x: nat)
    requires n < |states| == |steps| + 1
  {
    exists i :: 0 <= i < n && Delivers(states[i], steps[i], x)
  }

  ghost predicate StillUncarved(ranges: seq<Range>, s: State, x: nat) {
    InRange(ranges, x) && x >= Cursor(ranges, s.rangeI, s.rangePos)
  }

  ghost predicate Requeued(s: State, x: nat) { exists r :: r in s.requeue && Within(r, x) }

  /** Some attempt that may still deliver x is in flight. */
  ghost predicate Aloft(s: State, x: nat) { exists a :: MayDeliver(s, a, x) }

  lemma DeliveryIsHistory(ranges: seq<Range>, window: nat, s: State, step: Step, t: State, x: nat)
    requires Inv(ranges, s) && Next(ranges, window, s, step, t)
    ensures t.owner(x) == Delivered <==> s.owner(x) == Delivered || Delivers(s, step, x)
    ensures Delivers(s, step, x) ==> s.owner(x) != Delivered
  {
    match step
    case Launch(gated, chunk, hedged) =>
      if s.requeue != multiset{} && !gated {
        var r := Lowest(s.requeue);
        assert EntryOk(s.requeue, s.owner, r);
        SplitTakesOff(s.requeue, s.owner, r, if r.1 > 2 * chunk then chunk else r.1);
      } else {
        FreshIsNotDelivery(ranges, window, s, chunk, hedged, x);
      }
    case Done(a, result) => DoneDelivers(ranges, s, a, result, x);
    case Emit(_, _) =>
  }

  lemma DoneDelivers(ranges: seq<Range>, s: State, a: nat, result: Option<Bytes>, x: nat)
    requires Inv(ranges, s) && a in s.workers
    ensures DoneTo(s, a, result).owner(x) == Delivered <==>
              s.owner(x) == Delivered || (result.Some? && MayDeliver(s, a, x))
    ensures MayDeliver(s, a, x) ==> s.owner(x) != Delivered
  {
    assert WorkerOk(s.inflight, s.workers, s.nextAttempt, s.owner, a);
  }

  lemma FreshIsNotDelivery(ranges: seq<Range>, window: nat, s: State, chunk: nat, hedged: bool, x: nat)
    requires Inv(ranges, s)
    ensures var at := Skip(ranges, s.rangeI, s.rangePos);
            FreshTo(ranges, window, s, at.0, at.1, chunk, hedged).owner(x) == Delivered <==> s.owner(x) == Delivered
  {
    var (i, p) := Skip(ranges, s.rangeI, s.rangePos);
    SkipOwners(ranges, s.rangeI, s.rangePos, s.owner);
    if i < |ranges| {
      var l := Min(chunk, ranges[i].1 - p);
      CarveMovesCursor(ranges, i, p, l, s.owner, Assign(s.owner, ranges[i].0 + p, l, Flying(ranges[i].0 + p, l)));
    }
  }

  lemma {:induction false} ArrivedIsDelivered(ranges: seq<Range>, window: nat, start: nat, states: seq<State>,
                                              steps: seq<Step>, n: nat, x: nat)
    requires RangesOk(ranges) && Run(ranges, window, start, states, steps) && n < |states|
    ensures states[n].owner(x) == Delivered <==> Arrived(states, steps, n, x)
    decreases n
  {
    if n > 0 {
      ArrivedIsDelivered(ranges, window, start, states, steps, n - 1, x);
      RunKeepsInv(ranges, window, start, states, steps, n - 1);
      DeliveryIsHistory(ranges, window, states[n - 1], steps[n - 1], states[n], x);
    }
  }

  /** No byte reaches the buffer twice in a transfer. */
  lemma DeliveredOnce(ranges: seq<Range>, window: nat, start: nat, states: seq<State>, steps: seq<Step>, i: nat, j: nat,
                      x: nat)
    requires RangesOk(ranges) && Run(ranges, window, start, states, steps) && i < j < |steps|
    requires Delivers(states[i], steps[i], x)
    ensures !Delivers(states[j], steps[j], x)
  {
    ArrivedIsDelivered(ranges, window, start, states, steps, j, x);
    RunKeepsInv(ranges, window, start, states, steps, j);
    DeliveryIsHistory(ranges, window, states[j], steps[j], states[j + 1], x);
  }

  /** What the owner of a byte means in the transfer's own tables. */
  lemma OwnerMeaning(ranges: seq<Range>, s: State, x: nat)
    requires Inv(ranges, s)
    ensures StillUncarved(ranges, s, x) <==> s.owner(x) == Uncarved
    ensures Requeued(s, x) <==> s.owner(x).Queued?
    ensures Aloft(s, x) <==> s.owner(x).Flying?
  {
    if Requeued(s, x) {
      var r :| r in s.requeue && Within(r, x);
      assert EntryOk(s.requeue, s.owner, r);
    }
    if s.owner(x).Queued? {
      assert InQueue(s.requeue, s.owner, x);
      var l: nat :| (s.owner(x).off, l) in s.requeue && s.owner(x).off <= x < s.owner(x).off + l;
      assert Within((s.owner(x).off, l), x);
    }
    if Aloft(s, x) {
      var a :| MayDeliver(s, a, x);
      assert WorkerOk(s.inflight, s.workers, s.nextAttempt, s.owner, a);
    }
    if s.owner(x).Flying? { FlyingHasAttempt(ranges, s, x); }
  }

  lemma FlyingHasAttempt(ranges: seq<Range>, s: State, x: nat)
    requires Inv(ranges, s) && s.owner(x).Flying?
    ensures Aloft(s, x)
  {
    var o := s.owner(x).off;
    assert AloftOk(s.inflight, s.owner, x) && FlightOk(s.inflight, s.workers, o);
    var a :| a in s.inflight[o].attempts;
    assert WorkerOk(s.inflight, s.workers, s.nextAttempt, s.owner, a);
    assert s.owner(o) == Flying(o, s.workers[a].1);
    assert MayDeliver(s, a, x);
  }

  /** Conservation: at every moment of every run each byte of the fetch ranges is in exactly
      one place (not yet carved, requeued, in flight undelivered, or delivered), and no byte
      outside them is anywhere. Queue entries never overlap, and overlapping live attempts are
      twins of one range. */
  lemma RangesArePartitioned(ranges: seq<Range>, window: nat, start: nat, states: seq<State>, steps: seq<Step>, n: nat,
                             x: nat)
    requires RangesOk(ranges) && Run(ranges, window, start, states, steps) && n < |states|
    ensures var s := states[n];
            var un, re, al, ar := StillUncarved(ranges, s, x), Requeued(s, x), Aloft(s, x),
              Arrived(states, steps, n, x);
            && (InRange(ranges, x) <==> un || re || al || ar)
            && !(un && re) && !(un && al) && !(un && ar) && !(re && al) && !(re && ar) && !(al && ar)
    ensures forall r, q :: r in states[n].requeue && q in states[n].requeue && Within(r, x) && Within(q, x) ==>
              r == q && states[n].requeue[r] == 1
    ensures forall a, b :: MayDeliver(states[n], a, x) && MayDeliver(states[n], b, x) ==>
              states[n].workers[a] == states[n].workers[b]
  {
    var s := states[n];
    RunKeepsInv(ranges, window, start, states, steps, n);
    OwnerMeaning(ranges, s, x);
    ArrivedIsDelivered(ranges, window, start, states, steps, n, x);
    forall r, q | r in s.requeue && q in s.requeue && Within(r, x) && Within(q, x) ensures r == q && s.requeue[r] == 1 {
      assert EntryOk(s.requeue, s.owner, r) && EntryOk(s.requeue, s.owner, q);
    }
    forall a, b | MayDeliver(s, a, x) && MayDeliver(s, b, x) ensures s.workers[a] == s.workers[b] {
      assert WorkerOk(s.inflight, s.workers, s.nextAttempt, s.owner, a)
        && WorkerOk(s.inflight, s.workers, s.nextAttempt, s.owner, b);
    }
  }

  // ---- the window ----

  /** The window cannot wedge: when a byte the emitter needs is neither buffered nor coming, the
      next candidate is inside the window as soon as the retry gate is open. */
  lemma WindowCannotWedge(ranges: seq<Range>, window: nat, s: State, x: nat)
    requires Inv(ranges, s) && InRange(ranges, x) && s.emitPos <= x < s.emitPos + window
    requires !Has(s.buffered, x) && !Aloft(s, x)
    ensures Candidate(ranges, s, false).Some? && Candidate(ranges, s, false).value <= x < s.emitPos + window
  {
    OwnerMeaning(ranges, s, x);
    SkipOwners(ranges, s.rangeI, s.rangePos, s.owner);
    if s.requeue != multiset{} {
      var low := Lowest(s.requeue);
      assert EntryOk(s.requeue, s.owner, low);
      assert s.owner(low.0) == Queued(low.0);
      if s.owner(x).Queued? {
        assert InQueue(s.requeue, s.owner, x);
      } else {
        assert InRange(ranges, low.0) && low.0 < Cursor(ranges, s.rangeI, s.rangePos);
      }
    } else {
      assert InQueue(s.requeue, s.owner, x);
      assert s.owner(x) == Uncarved;
      var (i, p) := Skip(ranges, s.rangeI, s.rangePos);
      assert x >= Cursor(ranges, i, p);
      if i >= |ranges| { BelowTop(ranges, x); }
    }
  }

  lemma BelowTop(ranges: seq<Range>, x: nat)
    requires RangesOk(ranges) && InRange(ranges, x)
    ensures x < Top(ranges)
  {
    var j :| 0 <= j < |ranges| && ranges[j].0 <= x < ranges[j].0 + ranges[j].1;
    if j < |ranges| - 1 { assert ranges[j].0 + ranges[j].1 <= ranges[|ranges| - 1].0; }
  }

  /** When nothing is queued, nothing undelivered flies and nothing is left to carve, every
      byte of the ranges was delivered and what emission still needs is buffered. */
  lemma NothingOwedMeansComplete(ranges: seq<Range>, window: nat, start: nat, states: seq<State>, steps: seq<Step>,
                                 n: nat, x: nat)
    requires RangesOk(ranges) && Run(ranges, window, start, states, steps) && n < |states| && InRange(ranges, x)
    requires Candidate(ranges, states[n], false).None? && !Aloft(states[n], x)
    ensures Arrived(states, steps, n, x) && (x >= states[n].emitPos ==> Has(states[n].buffered, x))
  {
    var s := states[n];
    RunKeepsInv(ranges, window, start, states, steps, n);
    OwnerMeaning(ranges, s, x);
    ArrivedIsDelivered(ranges, window, start, states, steps, n, x);
    SkipOwners(ranges, s.rangeI, s.rangePos, s.owner);
    BelowTop(ranges, x);
    assert InQueue(s.requeue, s.owner, x);
  }
}
