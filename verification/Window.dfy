/** The window of `run_transfer` (src/fetch.rs): how far fetching may run ahead of emission. */
module Window {
  import opened Common
  import opened Buffer
  import opened Transfer

  // ---- one launch ----

  /** There is something to launch inside the window. */
  ghost predicate Launchable(ranges: seq<Range>, window: nat, s: State, gated: bool) {
    var c := Candidate(ranges, s, gated);
    c.Some? && c.value < s.emitPos + window
  }

  /** Only the carve cursor may have moved. */
  ghost predicate OnlySkipped(s: State, t: State) { t == s.(rangeI := t.rangeI, rangePos := t.rangePos) }

  /** One flight more, at off, with one attempt or two; the other flights are as they were. */
  ghost predicate FlightAdded(fl: map<nat, Flight>, fl': map<nat, Flight>, off: nat, hedged: bool) {
    && off !in fl && off in fl' && fl' - {off} == fl
    && !fl'[off].delivered && |fl'[off].attempts| == if hedged then 2 else 1
  }

  /** The attempts ids are new and fetch r; the others are as they were. */
  ghost predicate AttemptsAdded(wk: map<nat, Range>, wk': map<nat, Range>, ids: set<nat>, r: Range) {
    && ids !! wk.Keys && wk'.Keys == wk.Keys + ids
    && forall a :: a in wk' ==> wk'[a] == if a in wk then wk[a] else r
  }

  ghost predicate NewFlight(fl: map<nat, Flight>, wk: map<nat, Range>, fl': map<nat, Flight>, wk': map<nat, Range>,
                            off: nat, len: nat, hedged: bool) {
    FlightAdded(fl, fl', off, hedged) && AttemptsAdded(wk, wk', fl'[off].attempts, (off, len))
  }

  /** How much a launch takes of the queued entry r: all of it up to two chunks, else a chunk. */
  ghost predicate TakesOf(r: Range, chunk: nat, len: nat) {
    if r.1 <= 2 * chunk then len == r.1 else len == chunk
  }

  /** How much a launch carves at off: a chunk, or less where the range ends. */
  ghost predicate Carves(ranges: seq<Range>, off: nat, chunk: nat, len: nat) {
    && 0 < len <= chunk
    && (forall x: nat :: off <= x < off + len ==> InRange(ranges, x))
    && (len < chunk ==> exists j :: 0 <= j < |ranges| && off + len == ranges[j].0 + ranges[j].1)
  }

  ghost predicate Sized(ranges: seq<Range>, s: State, gated: bool, chunk: nat, off: nat, len: nat) {
    if s.requeue != multiset{} && !gated then exists r :: r in s.requeue && r.0 == off && TakesOf(r, chunk, len)
    else Carves(ranges, off, chunk, len)
  }

  ghost predicate Launched(ranges: seq<Range>, s: State, t: State, gated: bool, chunk: nat, hedged: bool, off: nat) {
    exists len :: Sized(ranges, s, gated, chunk, off, len)
      && NewFlight(s.inflight, s.workers, t.inflight, t.workers, off, len, hedged)
  }

  lemma JoinedAdds(fl: map<nat, Flight>, ids: set<nat>, off: nat, hedged: bool)
    requires off !in fl && |ids| == Count(hedged)
    ensures FlightAdded(fl, Joined(fl, off, ids), off, hedged) && Joined(fl, off, ids)[off].attempts == ids
  {
    assert Joined(fl, off, ids) - {off} == fl;
  }

  lemma SpawnedAdds(wk: map<nat, Range>, ids: set<nat>, r: Range)
    requires ids !! wk.Keys
    ensures AttemptsAdded(wk, Spawned(wk, ids, r), ids, r)
  {}

  lemma FlyIsNewFlight(fl: map<nat, Flight>, wk: map<nat, Range>, last: nat, own: Owners, off: nat, len: nat,
                       hedged: bool)
    requires FlightsOk(fl, wk, last, own) && Grounded(own(off))
    ensures var ids := Ids(last, hedged);
            NewFlight(fl, wk, Joined(fl, off, ids), Spawned(wk, ids, (off, len)), off, len, hedged)
  {
    if off in fl { FlightIsAloft(fl, wk, last, own, off); }
    forall a | a in wk ensures a <= last { assert WorkerOk(fl, wk, last, own, a); }
    JoinedAdds(fl, Ids(last, hedged), off, hedged);
    SpawnedAdds(wk, Ids(last, hedged), (off, len));
  }

  lemma RelaunchIsLaunch(ranges: seq<Range>, s: State, r: Range, l: nat, chunk: nat, hedged: bool)
    requires QueueOk(s.requeue, s.owner) && FlightsOk(s.inflight, s.workers, s.nextAttempt, s.owner)
    requires r in s.requeue && l <= r.1 && TakesOf(r, chunk, l)
    ensures Launched(ranges, s, RelaunchTo(s, r, l, hedged), false, chunk, hedged, r.0)
  {
    assert EntryOk(s.requeue, s.owner, r);
    assert s.owner(r.0) == Queued(r.0);
    FlyIsNewFlight(s.inflight, s.workers, s.nextAttempt, s.owner, r.0, l, hedged);
    assert Sized(ranges, s, false, chunk, r.0, l);
  }

  lemma CarveIsSized(ranges: seq<Range>, i: nat, p: nat, chunk: nat)
    requires i < |ranges| && p < ranges[i].1 && chunk > 0
    ensures Carves(ranges, ranges[i].0 + p, chunk, Min(chunk, ranges[i].1 - p))
  {
    var off, l := ranges[i].0 + p, Min(chunk, ranges[i].1 - p);
    forall x: nat | off <= x < off + l ensures InRange(ranges, x) {
      assert ranges[i].0 <= x < ranges[i].0 + ranges[i].1;
    }
  }

  lemma CarveIsLaunch(ranges: seq<Range>, s: State, i: nat, p: nat, gated: bool, chunk: nat, hedged: bool)
    requires FlightsOk(s.inflight, s.workers, s.nextAttempt, s.owner) && OwnersOk(ranges, i, p, s.owner)
    requires i < |ranges| && p < ranges[i].1 && chunk > 0 && (s.requeue == multiset{} || gated)
    ensures Launched(ranges, s, CarveTo(ranges, s, i, p, Min(chunk, ranges[i].1 - p), hedged), gated, chunk, hedged,
                     ranges[i].0 + p)
  {
    var off, l := ranges[i].0 + p, Min(chunk, ranges[i].1 - p);
    CarveIsSized(ranges, i, p, chunk);
    assert InRange(ranges, off);
    FlyIsNewFlight(s.inflight, s.workers, s.nextAttempt, s.owner, off, l, hedged);
    assert Sized(ranges, s, gated, chunk, off, l);
  }

  /** What a turn of the launch loop comes to: a new flight at the candidate, exactly when the
      candidate is inside the window. */
  ghost predicate TurnOk(ranges: seq<Range>, window: nat, s: State, t: State, gated: bool, chunk: nat, hedged: bool) {
    if Launchable(ranges, window, s, gated)
    then Launched(ranges, s, t, gated, chunk, hedged, Candidate(ranges, s, gated).value)
    else OnlySkipped(s, t)
  }

  lemma QueuedInWindow(ranges: seq<Range>, window: nat, s: State, chunk: nat, hedged: bool)
    requires QueueOk(s.requeue, s.owner) && FlightsOk(s.inflight, s.workers, s.nextAttempt, s.owner)
    requires s.requeue != multiset{} && Lowest(s.requeue).0 < s.emitPos + window
    ensures Launched(ranges, s, LaunchTo(ranges, window, s, false, chunk, hedged), false, chunk, hedged,
                     Lowest(s.requeue).0)
  {
    var r := Lowest(s.requeue);
    RelaunchIsLaunch(ranges, s, r, if r.1 > 2 * chunk then chunk else r.1, chunk, hedged);
  }

  lemma FreshIsCarve(ranges: seq<Range>, window: nat, s: State, i: nat, p: nat, gated: bool, chunk: nat, hedged: bool)
    requires (s.requeue == multiset{} || gated) && (i, p) == Skip(ranges, s.rangeI, s.rangePos)
    requires Launchable(ranges, window, s, gated)
    ensures i < |ranges| && p < ranges[i].1 && Candidate(ranges, s, gated) == Some(ranges[i].0 + p)
    ensures LaunchTo(ranges, window, s, gated, chunk, hedged)
            == CarveTo(ranges, s, i, p, Min(chunk, ranges[i].1 - p), hedged)
  {}

  lemma FreshInWindow(ranges: seq<Range>, window: nat, s: State, i: nat, p: nat, gated: bool, chunk: nat, hedged: bool)
    requires FlightsOk(s.inflight, s.workers, s.nextAttempt, s.owner) && OwnersOk(ranges, i, p, s.owner)
    requires (s.requeue == multiset{} || gated) && (i, p) == Skip(ranges, s.rangeI, s.rangePos) && chunk > 0
    requires Launchable(ranges, window, s, gated)
    ensures Launched(ranges, s, LaunchTo(ranges, window, s, gated, chunk, hedged), gated, chunk, hedged,
                     Candidate(ranges, s, gated).value)
  {
    FreshIsCarve(ranges, window, s, i, p, gated, chunk, hedged);
    CarveIsLaunch(ranges, s, i, p, gated, chunk, hedged);
  }

  lemma OutsideNothing(ranges: seq<Range>, window: nat, s: State, gated: bool, chunk: nat, hedged: bool)
    requires !Launchable(ranges, window, s, gated)
    ensures OnlySkipped(s, LaunchTo(ranges, window, s, gated, chunk, hedged))
  {}

  lemma QueuedLaunches(ranges: seq<Range>, window: nat, s: State, chunk: nat, hedged: bool)
    requires Inv(ranges, s) && s.requeue != multiset{} && Launchable(ranges, window, s, false)
    ensures Launched(ranges, s, LaunchTo(ranges, window, s, false, chunk, hedged), false, chunk, hedged,
                     Candidate(ranges, s, false).value)
  {
    QueuedInWindow(ranges, window, s, chunk, hedged);
  }

  lemma FreshLaunches(ranges: seq<Range>, window: nat, s: State, gated: bool, chunk: nat, hedged: bool)
    requires Inv(ranges, s) && chunk > 0 && (s.requeue == multiset{} || gated) && Launchable(ranges, window, s, gated)
    ensures Launched(ranges, s, LaunchTo(ranges, window, s, gated, chunk, hedged), gated, chunk, hedged,
                     Candidate(ranges, s, gated).value)
  {
    var at := Skip(ranges, s.rangeI, s.rangePos);
    SkipOwners(ranges, s.rangeI, s.rangePos, s.owner);
    FreshInWindow(ranges, window, s, at.0, at.1, gated, chunk, hedged);
  }

  lemma LaunchIffInWindow(ranges: seq<Range>, window: nat, s: State, gated: bool, chunk: nat, hedged: bool)
    requires Inv(ranges, s) && chunk > 0
    ensures TurnOk(ranges, window, s, LaunchTo(ranges, window, s, gated, chunk, hedged), gated, chunk, hedged)
  {
    if !Launchable(ranges, window, s, gated) {
      OutsideNothing(ranges, window, s, gated, chunk, hedged);
    } else if s.requeue != multiset{} && !gated {
      QueuedLaunches(ranges, window, s, chunk, hedged);
    } else {
      FreshLaunches(ranges, window, s, gated, chunk, hedged);
    }
  }

  lemma LaunchCounts(ranges: seq<Range>, window: nat, s: State, gated: bool, chunk: nat, hedged: bool)
    ensures var t := LaunchTo(ranges, window, s, gated, chunk, hedged);
            t.nextAttempt > s.nextAttempt <==> Launchable(ranges, window, s, gated)
  {}

  /** New attempts start below the limit; the others are as they were. */
  ghost predicate StartedBelow(wk: map<nat, Range>, wk': map<nat, Range>, limit: nat) {
    && (forall a :: a in wk ==> a in wk' && wk'[a] == wk[a])
    && (forall a :: a in wk' && a !in wk ==> wk'[a].0 < limit)
  }

  lemma NumbersIssued(ranges: seq<Range>, s: State)
    requires Inv(ranges, s)
    ensures forall a :: a in s.workers ==> a <= s.nextAttempt
  {
    forall a | a in s.workers ensures a <= s.nextAttempt {
      assert WorkerOk(s.inflight, s.workers, s.nextAttempt, s.owner, a);
    }
  }

  lemma SpawnedStartsBelow(wk: map<nat, Range>, last: nat, r: Range, hedged: bool, limit: nat)
    requires (forall a :: a in wk ==> a <= last) && r.0 < limit
    ensures StartedBelow(wk, Spawned(wk, Ids(last, hedged), r), limit)
  {}

  lemma LaunchStartsBelow(ranges: seq<Range>, window: nat, s: State, gated: bool, chunk: nat, hedged: bool)
    requires forall a :: a in s.workers ==> a <= s.nextAttempt
    ensures var t := LaunchTo(ranges, window, s, gated, chunk, hedged);
            t.emitPos == s.emitPos && StartedBelow(s.workers, t.workers, s.emitPos + window)
  {
    forall r: Range | r.0 < s.emitPos + window
      ensures StartedBelow(s.workers, Spawned(s.workers, Ids(s.nextAttempt, hedged), r), s.emitPos + window)
    {
      SpawnedStartsBelow(s.workers, s.nextAttempt, r, hedged, s.emitPos + window);
    }
  }

  lemma StartedBelowJoins(a: map<nat, Range>, b: map<nat, Range>, c: map<nat, Range>, limit: nat)
    requires StartedBelow(a, b, limit) && StartedBelow(b, c, limit)
    ensures StartedBelow(a, c, limit)
  {}

  /** With nothing to launch, a further turn finds nothing either. */
  lemma NothingStaysNothing(ranges: seq<Range>, window: nat, s: State, gated: bool, chunk: nat, hedged: bool)
    requires !Launchable(ranges, window, s, gated)
    ensures !Launchable(ranges, window, LaunchTo(ranges, window, s, gated, chunk, hedged), gated)
  {
    var (i, p) := Skip(ranges, s.rangeI, s.rangePos);
    assert Skip(ranges, i, p) == (i, p);
  }

  // ---- whole runs ----

  /** Taken from the ranges: queued again, flying or delivered. */
  ghost predicate Taken(o: Owner) { o.Queued? || o.Flying? || o.Delivered? }

  ghost predicate Below(own: Owners, limit: nat) { forall x: nat :: Taken(own(x)) ==> x < limit }

  ghost predicate Ahead(s: State, limit: nat) { Below(s.owner, s.emitPos + limit) }

  ghost predicate ChunksWithin(steps: seq<Step>, c: nat) {
    forall i :: 0 <= i < |steps| && steps[i].Launch? ==> steps[i].chunk <= c
  }

  lemma SplitBelow(q: multiset<Range>, own: Owners, r: Range, part: nat, limit: nat)
    requires QueueOk(q, own) && r in q && part <= r.1 && Below(own, limit)
    ensures Below(Split(own, r, part), limit)
  {
    assert EntryOk(q, own, r);
    forall x: nat | Taken(Split(own, r, part)(x)) ensures x < limit { assert Taken(own(x)); }
  }

  lemma FreshBelow(ranges: seq<Range>, window: nat, s: State, i: nat, p: nat, chunk: nat, hedged: bool, limit: nat)
    requires (i < |ranges| ==> p < ranges[i].1) && Below(s.owner, limit) && s.emitPos + window + chunk <= limit
    ensures Below(FreshTo(ranges, window, s, i, p, chunk, hedged).owner, limit)
  {}

  lemma LaunchKeepsAhead(ranges: seq<Range>, window: nat, c: nat, s: State, gated: bool, chunk: nat, hedged: bool)
    requires QueueOk(s.requeue, s.owner) && Ahead(s, window + c) && chunk <= c
    ensures Ahead(LaunchTo(ranges, window, s, gated, chunk, hedged), window + c)
  {
    var limit := s.emitPos + window + c;
    if s.requeue != multiset{} && !gated {
      var r := Lowest(s.requeue);
      SplitBelow(s.requeue, s.owner, r, if r.1 > 2 * chunk then chunk else r.1, limit);
    } else {
      var at := Skip(ranges, s.rangeI, s.rangePos);
      FreshBelow(ranges, window, s, at.0, at.1, chunk, hedged, limit);
    }
  }

  lemma DoneKeepsAhead(ranges: seq<Range>, s: State, a: nat, result: Option<Bytes>, limit: nat)
    requires FlightsOk(s.inflight, s.workers, s.nextAttempt, s.owner) && a in s.workers && Ahead(s, limit)
    ensures Ahead(DoneTo(s, a, result), limit)
  {
    assert WorkerOk(s.inflight, s.workers, s.nextAttempt, s.owner, a);
    forall x: nat | Taken(DoneTo(s, a, result).owner(x)) ensures x < s.emitPos + limit { assert Taken(s.owner(x)); }
  }

  lemma NextKeepsAhead(ranges: seq<Range>, window: nat, c: nat, s: State, step: Step, t: State)
    requires Inv(ranges, s) && Ahead(s, window + c) && Next(ranges, window, s, step, t)
    requires step.Launch? ==> step.chunk <= c
    ensures Ahead(t, window + c)
  {
    match step
    case Launch(gated, chunk, hedged) => LaunchKeepsAhead(ranges, window, c, s, gated, chunk, hedged);
    case Done(a, result) => DoneKeepsAhead(ranges, s, a, result, window + c);
    case Emit(_, _) => assert t.owner == s.owner && t.emitPos >= s.emitPos;
  }

  lemma {:induction false} RunStaysAhead(ranges: seq<Range>, window: nat, c: nat, start: nat, states: seq<State>,
                                         steps: seq<Step>, n: nat)
    requires RangesOk(ranges) && Run(ranges, window, start, states, steps) && ChunksWithin(steps, c) && n < |states|
    ensures Ahead(states[n], window + c)
    decreases n
  {
    if n > 0 {
      RunStaysAhead(ranges, window, c, start, states, steps, n - 1);
      RunKeepsInv(ranges, window, start, states, steps, n - 1);
      NextKeepsAhead(ranges, window, c, states[n - 1], steps[n - 1], states[n]);
    }
  }

  /** Some attempt that has not reported yet fetches x. */
  ghost predicate InFlight(s: State, x: nat) { exists a :: a in s.workers && Within(s.workers[a], x) }

  /** With chunks of at most c bytes, no byte at or beyond emitPos + window + c is in flight,
      queued again, delivered or buffered at any moment of any run. */
  lemma WindowBoundsRun(ranges: seq<Range>, window: nat, c: nat, start: nat, states: seq<State>, steps: seq<Step>,
                        n: nat, x: nat)
    requires RangesOk(ranges) && Run(ranges, window, start, states, steps) && ChunksWithin(steps, c) && n < |states|
    requires InFlight(states[n], x) || Requeued(states[n], x) || Arrived(states, steps, n, x)
             || Has(states[n].buffered, x)
    ensures x < states[n].emitPos + window + c
  {
    var s := states[n];
    RunStaysAhead(ranges, window, c, start, states, steps, n);
    RunKeepsInv(ranges, window, start, states, steps, n);
    OwnerMeaning(ranges, s, x);
    ArrivedIsDelivered(ranges, window, start, states, steps, n, x);
    if InFlight(s, x) {
      var a :| a in s.workers && Within(s.workers[a], x);
      assert WorkerOk(s.inflight, s.workers, s.nextAttempt, s.owner, a);
    }
    assert Taken(s.owner(x));
  }

  lemma {:induction false} SetInInterval(xs: set<nat>, lo: nat, len: nat)
    requires forall x :: x in xs ==> lo <= x < lo + len
    ensures |xs| <= len
    decreases len
  {
    if len == 0 {
      assert xs == {};
    } else {
      var rest := xs - {lo + len - 1};
      SetInInterval(rest, lo, len - 1);
      assert xs <= rest + {lo + len - 1};
      SubsetSize(xs, rest + {lo + len - 1});
    }
  }

  /** So the buffer never holds more than window + c bytes that emission has not passed. */
  lemma BufferIsBounded(ranges: seq<Range>, window: nat, c: nat, start: nat, states: seq<State>, steps: seq<Step>,
                        n: nat, xs: set<nat>)
    requires RangesOk(ranges) && Run(ranges, window, start, states, steps) && ChunksWithin(steps, c) && n < |states|
    requires forall x :: x in xs ==> Has(states[n].buffered, x) && x >= states[n].emitPos
    ensures |xs| <= window + c
  {
    forall x | x in xs ensures x < states[n].emitPos + window + c {
      WindowBoundsRun(ranges, window, c, start, states, steps, n, x);
    }
    SetInInterval(xs, states[n].emitPos, window + c);
  }
}
