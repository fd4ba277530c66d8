/** The transfer loop as the object it is (`run_transfer` in src/fetch.rs): launches,
    completions, pumping and trimming update its tables in place, each exactly as the steps of
    `Transfer` say, with the emitter of `Emission` consuming the buffer. */
module Engine {
  import opened Common
  import opened Buffer
  import opened Emission
  import opened Transfer
  import opened Window

  /** What the plan promises the transfer: fetched spans lie in the ranges, and a span that has
      to be assembled whole fits the window. */
  ghost predicate Fits(spans: seq<Placed>, ranges: seq<Range>, window: nat, i: nat)
    requires i < |spans|
  {
    var (off, s) := spans[i];
    s.Fetch? ==>
        (forall x: nat :: off <= x < off + s.len ==> InRange(ranges, x)) && (s.retain.Some? ==> s.len <= window)
  }

  /** Where the cursor stood before does not matter to a carve at (i, p). */
  lemma FreshFrom(ranges: seq<Range>, window: nat, s: State, i: nat, p: nat, chunk: nat, hedged: bool)
    requires i < |ranges| ==> p < ranges[i].1
    ensures FreshTo(ranges, window, s.(rangeI := i, rangePos := p), i, p, chunk, hedged)
            == FreshTo(ranges, window, s, i, p, chunk, hedged)
  {}

  /** Dropping an entry the emitter has fully passed loses nothing it can still need. */
  lemma TrimKeeps(b: Buf, k: nat, pos: nat)
    requires Tidy(b) && k in b && k + |b[k]| <= pos
    ensures Tidy(b - {k}) && KeptFrom(b, b - {k}, pos)
  {
    forall x: nat ensures (Has(b - {k}, x) ==> Has(b, x)) && (x >= pos && Has(b, x) ==> Has(b - {k}, x)) {
      if Has(b - {k}, x) { var j: nat :| Covers(b - {k}, j, x); assert Covers(b, j, x); }
      if x >= pos && Has(b, x) { var j: nat :| Covers(b, j, x); assert Covers(b - {k}, j, x); }
    }
  }

  lemma SmallerWithout(b: Buf, k: nat)
    requires k in b
    ensures |b - {k}| < |b|
  {
    assert (b - {k}).Keys == b.Keys - {k};
    assert |(b - {k}).Keys| == |b - {k}| && |b.Keys| == |b|;
  }

  lemma KeptStarves(was: Buf, now: Buf)
    requires forall x: nat :: Has(now, x) ==> Has(was, x)
    ensures forall x: nat :: !Has(was, x) ==> !Has(now, x)
  {}

  /** What an attempt may still deliver was never buffered. */
  lemma NeverBuffered(ranges: seq<Range>, s: State, a: nat)
    requires Inv(ranges, s) && a in s.workers && s.workers[a].0 in s.inflight && !s.inflight[s.workers[a].0].delivered
    ensures s.workers[a].1 > 0 && Free(s.buffered, s.workers[a].0, s.workers[a].1)
  {
    assert WorkerOk(s.inflight, s.workers, s.nextAttempt, s.owner, a);
  }

  /** What one turn of the launch loop finds: the retry gate, the lead peer's chunk size, a hedge. */
  datatype Choice = Choice(gated: bool, chunk: nat, hedged: bool)

  ghost function LaunchesTo(ranges: seq<Range>, window: nat, s: State, choices: seq<Choice>): State
    decreases |choices|
  {
    if choices == [] then s else
    var c := choices[|choices| - 1];
    LaunchTo(ranges, window, LaunchesTo(ranges, window, s, choices[..|choices| - 1]), c.gated, c.chunk, c.hedged)
  }

  lemma LaunchesNext(ranges: seq<Range>, window: nat, s: State, choices: seq<Choice>, n: nat)
    requires n < |choices|
    ensures LaunchesTo(ranges, window, s, choices[..n + 1])
            == LaunchTo(ranges, window, LaunchesTo(ranges, window, s, choices[..n]), choices[n].gated, choices[n].chunk,
                        choices[n].hedged)
  {
    assert choices[..n + 1][..n] == choices[..n];
  }

  lemma {:induction false} LaunchesStartBelow(ranges: seq<Range>, window: nat, s: State, choices: seq<Choice>)
    requires Inv(ranges, s) && forall i :: 0 <= i < |choices| ==> choices[i].chunk > 0
    ensures var t := LaunchesTo(ranges, window, s, choices);
            Inv(ranges, t) && t.emitPos == s.emitPos && StartedBelow(s.workers, t.workers, s.emitPos + window)
    decreases |choices|
  {
    if choices != [] {
      var c, less := choices[|choices| - 1], choices[..|choices| - 1];
      LaunchesStartBelow(ranges, window, s, less);
      var u := LaunchesTo(ranges, window, s, less);
      var t := LaunchTo(ranges, window, u, c.gated, c.chunk, c.hedged);
      NextKeepsInv(ranges, window, u, Launch(c.gated, c.chunk, c.hedged), t);
      NumbersIssued(ranges, u);
      LaunchStartsBelow(ranges, window, u, c.gated, c.chunk, c.hedged);
      StartedBelowJoins(s.workers, u.workers, t.workers, s.emitPos + window);
    }
  }

  class Engine {
    const ranges: seq<Range>
    const window: nat
    const em: Emitter
    var rangeI: nat
    var rangePos: nat
    var requeue: multiset<Range>
    var inflight: map<nat, Flight>
    var nextAttempt: nat
    /** Attempts that have not reported yet. */
    ghost var workers: map<nat, Range>
    ghost var owner: Owners

    ghost function View(): State
      reads this, em
    {
      State(rangeI, rangePos, requeue, inflight, workers, nextAttempt, em.buffered, em.emitPos, owner)
    }

    ghost predicate Valid()
      reads this, em
    {
      em.Valid() && Inv(ranges, View())
    }

    constructor (ranges: seq<Range>, window: nat, em: Emitter)
      requires em.Valid() && em.buffered == map[] && RangesOk(ranges)
      ensures Valid() && View() == Start(ranges, em.emitPos)
      ensures this.ranges == ranges && this.window == window && this.em == em
    {
      this.ranges, this.window, this.em := ranges, window, em;
      rangeI, rangePos, requeue, inflight, nextAttempt := 0, 0, multiset{}, map[], 0;
      workers, owner := map[], Start(ranges, 0).owner;
      new;
      StartInv(ranges, em.emitPos);
      assert View() == Start(ranges, em.emitPos);
    }

    /** The heap's minimum; offsets in it are distinct, so it is the only one. */
    method Peek() returns (low: Range)
      requires requeue != multiset{} && QueueOk(requeue, owner)
      ensures low == Lowest(requeue)
    {
      ghost var there := Lowest(requeue);
      low :| low in requeue && forall r :: r in requeue ==> low.0 <= r.0;
    }

    /** Advance the carve cursor past exhausted ranges. */
    method AdvanceCursor()
      modifies this`rangeI, this`rangePos
      ensures (rangeI, rangePos) == Skip(ranges, old(rangeI), old(rangePos))
    {
      ghost var target := Skip(ranges, rangeI, rangePos);
      while rangeI < |ranges| && rangePos >= ranges[rangeI].1
        invariant Skip(ranges, rangeI, rangePos) == target
        decreases |ranges| - rangeI
      {
        rangeI, rangePos := rangeI + 1, 0;
      }
    }

    /** Put r in flight. */
    method Spawn(r: Range, hedged: bool)
      modifies this`inflight, this`nextAttempt, this`workers
      ensures inflight == Joined(old(inflight), r.0, Ids(old(nextAttempt), hedged))
      ensures workers == Spawned(old(workers), Ids(old(nextAttempt), hedged), r)
      ensures nextAttempt == old(nextAttempt) + Count(hedged)
    {
      var fl := if r.0 in inflight then inflight[r.0] else Flight({}, false);
      ghost var ids := Ids(nextAttempt, hedged);
      nextAttempt := nextAttempt + 1;
      fl := Flight(fl.attempts + {nextAttempt}, fl.delivered);
      if hedged {
        nextAttempt := nextAttempt + 1;
        fl := Flight(fl.attempts + {nextAttempt}, fl.delivered);
      }
      assert fl.attempts == if r.0 in inflight then inflight[r.0].attempts + ids else ids;
      inflight := inflight[r.0 := fl];
      workers := Spawned(workers, ids, r);
    }

    /** Pop the entry r, pushing back all but a chunk when it is oversized. */
    method TakeQueued(r: Range, chunk: nat) returns (len: nat)
      requires r in requeue && r.1 > 0 && chunk > 0
      modifies this`requeue, this`owner
      ensures len == if r.1 > 2 * chunk then chunk else r.1
      ensures len <= r.1 && requeue == Rest(old(requeue), r, len) && owner == Split(old(owner), r, len)
    {
      len := r.1;
      requeue := requeue - multiset{r};
      if r.1 > 2 * chunk {
        requeue := requeue + multiset{(r.0 + chunk, r.1 - chunk)};
        len := chunk;
      }
      owner := Split(owner, r, len);
    }

    /** Advance the cursor over the bytes taken. */
    method TakeFresh(off: nat, chunk: nat) returns (len: nat)
      requires rangeI < |ranges| && rangePos <= ranges[rangeI].1
      modifies this`rangePos, this`owner
      ensures len == Min(chunk, ranges[rangeI].1 - old(rangePos)) && rangePos == old(rangePos) + len
      ensures owner == Assign(old(owner), off, len, Flying(off, len))
    {
      len := Min(chunk, ranges[rangeI].1 - rangePos);
      rangePos := rangePos + len;
      owner := Assign(owner, off, len, Flying(off, len));
    }

    method LaunchQueued(r: Range, chunk: nat, hedged: bool)
      requires r in requeue && r.1 > 0 && chunk > 0
      modifies this`requeue, this`owner, this`inflight, this`nextAttempt, this`workers
      ensures View() == RelaunchTo(old(View()), r, if r.1 > 2 * chunk then chunk else r.1, hedged)
    {
      var len := TakeQueued(r, chunk);
      Spawn((r.0, len), hedged);
    }

    method LaunchFresh(chunk: nat, hedged: bool) returns (len: nat)
      requires rangeI < |ranges| && rangePos <= ranges[rangeI].1
      modifies this`rangePos, this`owner, this`inflight, this`nextAttempt, this`workers
      ensures len == Min(chunk, ranges[rangeI].1 - old(rangePos))
      ensures View() == CarveTo(ranges, old(View()), rangeI, old(rangePos), len, hedged)
    {
      var off := ranges[rangeI].0 + rangePos;
      len := TakeFresh(off, chunk);
      Spawn((off, len), hedged);
    }

    /** Carve at the cursor if anything is left there and the window allows. */
    method CarveHere(chunk: nat, hedged: bool) returns (launched: bool)
      requires rangeI < |ranges| ==> rangePos < ranges[rangeI].1
      modifies this
      ensures View() == FreshTo(ranges, window, old(View()), old(rangeI), old(rangePos), chunk, hedged)
      ensures launched <==> old(rangeI) < |ranges| && ranges[old(rangeI)].0 + old(rangePos) < em.emitPos + window
    {
      launched := rangeI < |ranges| && ranges[rangeI].0 + rangePos < em.emitPos + window;
      if launched {
        var len := LaunchFresh(chunk, hedged);
      }
    }

    method TryFresh(chunk: nat, hedged: bool) returns (launched: bool)
      modifies this
      ensures var at := Skip(ranges, old(rangeI), old(rangePos));
              && View() == FreshTo(ranges, window, old(View()), at.0, at.1, chunk, hedged)
              && (launched <==> at.0 < |ranges| && ranges[at.0].0 + at.1 < em.emitPos + window)
    {
      ghost var s := View();
      AdvanceCursor();
      ghost var i, p := rangeI, rangePos;
      assert View() == s.(rangeI := i, rangePos := p);
      FreshFrom(ranges, window, s, i, p, chunk, hedged);
      launched := CarveHere(chunk, hedged);
    }

    /** One turn of the launch loop: exactly `Transfer.LaunchTo`. */
    method LaunchOne(gated: bool, chunk: nat, hedged: bool) returns (launched: bool)
      requires QueueOk(requeue, owner) && chunk > 0
      modifies this
      ensures View() == LaunchTo(ranges, window, old(View()), gated, chunk, hedged)
      ensures launched <==> Launchable(ranges, window, old(View()), gated)
      ensures launched <==> nextAttempt > old(nextAttempt)
      ensures !launched ==> OnlySkipped(old(View()), View())
    {
      LaunchCounts(ranges, window, View(), gated, chunk, hedged);
      if !Launchable(ranges, window, View(), gated) {
        OutsideNothing(ranges, window, View(), gated, chunk, hedged);
      }
      if requeue != multiset{} && !gated {
        var low := Peek();
        launched := low.0 < em.emitPos + window;
        if launched {
          assert EntryOk(requeue, owner, low);
          LaunchQueued(low, chunk, hedged);
        }
      } else {
        launched := TryFresh(chunk, hedged);
      }
    }

    method Launch(gated: bool, chunk: nat, hedged: bool) returns (launched: bool)
      requires Valid() && chunk > 0
      modifies this
      ensures Valid() && View() == LaunchTo(ranges, window, old(View()), gated, chunk, hedged)
      ensures launched <==> Launchable(ranges, window, old(View()), gated)
      ensures TurnOk(ranges, window, old(View()), View(), gated, chunk, hedged)
    {
      ghost var s := View();
      LaunchIffInWindow(ranges, window, s, gated, chunk, hedged);
      launched := LaunchOne(gated, chunk, hedged);
      NextKeepsInv(ranges, window, s, Transfer.Launch(gated, chunk, hedged), View());
    }

    /** A turn with this choice finds nothing to launch. */
    ghost predicate Idle(c: Choice)
      reads this, em
    {
      !Launchable(ranges, window, View(), c.gated)
    }

    /** Turn n of the launch loop, with what it finds; without a launch there is none to make. */
    method Turn(choices: seq<Choice>, n: nat, ghost s: State) returns (more: bool)
      requires Valid() && n < |choices| && choices[n].chunk > 0
      requires View() == LaunchesTo(ranges, window, s, choices[..n])
      modifies this
      ensures Valid() && View() == LaunchesTo(ranges, window, s, choices[..n + 1])
      ensures !more ==> Idle(choices[n])
    {
      var c := choices[n];
      ghost var t := View();
      LaunchesNext(ranges, window, s, choices, n);
      more := Launch(c.gated, c.chunk, c.hedged);
      if !more { NothingStaysNothing(ranges, window, t, c.gated, c.chunk, c.hedged); }
    }

    /** The launch loop: turn after turn, with whatever gate, chunk size and hedge each finds, until
        one has nothing to launch or no peer is left (`choices` runs out). */
    method LaunchLoop(choices: seq<Choice>) returns (n: nat)
      requires Valid() && forall i :: 0 <= i < |choices| ==> choices[i].chunk > 0
      modifies this
      ensures n <= |choices| && Valid() && View() == LaunchesTo(ranges, window, old(View()), choices[..n])
      ensures n < |choices| ==> n > 0 && Idle(choices[n - 1])
    {
      ghost var s := View();
      n := 0;
      var more := true;
      while more && n < |choices|
        invariant n <= |choices| && Valid() && View() == LaunchesTo(ranges, window, s, choices[..n])
        invariant !more ==> n > 0 && Idle(choices[n - 1])
        decreases |choices| - n
      {
        more := Turn(choices, n, s);
        n := n + 1;
      }
    }

    /** The launch loop as a whole: all that it launches starts inside the window, and it stops
        short of its choices only when nothing is left to launch there. */
    method LaunchAll(choices: seq<Choice>) returns (n: nat)
      requires Valid() && forall i :: 0 <= i < |choices| ==> choices[i].chunk > 0
      modifies this
      ensures n <= |choices| && Valid() && View() == LaunchesTo(ranges, window, old(View()), choices[..n])
      ensures n < |choices| ==> n > 0 && Idle(choices[n - 1])
      ensures StartedBelow(old(workers), workers, em.emitPos + window)
    {
      ghost var s := View();
      n := LaunchLoop(choices);
      LaunchesStartBelow(ranges, window, s, choices[..n]);
    }

    /** Retire an attempt and learn whether a twin delivered its range or still flies; a flight
        goes with its last attempt. */
    method Retire(off: nat, attempt: nat, ok: bool) returns (wasDelivered: bool, twinsLive: bool)
      modifies this`inflight, this`workers
      ensures wasDelivered <==> off !in old(inflight) || old(inflight)[off].delivered
      ensures twinsLive <==> off in old(inflight) && old(inflight)[off].attempts - {attempt} != {}
      ensures inflight == Retired(old(inflight), off, attempt, ok) && workers == old(workers) - {attempt}
    {
      workers := workers - {attempt};
      if off !in inflight {
        return true, false;
      }
      var fl := inflight[off];
      wasDelivered := fl.delivered;
      fl := Flight(fl.attempts - {attempt}, fl.delivered);
      twinsLive := fl.attempts != {};
      if ok && !wasDelivered {
        fl := Flight(fl.attempts, true);
      }
      inflight := if twinsLive then inflight[off := fl] else inflight - {off};
    }

    /** A completion: exactly `Transfer.DoneTo`. Says whether the bytes were buffered. */
    method Complete(off: nat, len: nat, attempt: nat, result: Option<Bytes>) returns (stored: bool)
      requires attempt in workers && workers[attempt] == (off, len) && em.Valid()
      requires result.Some? && off in inflight && !inflight[off].delivered ==>
                 result.value != [] && result.value == Slice(em.src, off, |result.value|)
                   && Free(em.buffered, off, |result.value|)
      modifies this`inflight, this`workers, this`requeue, this`owner, em`buffered
      ensures em.Valid() && View() == DoneTo(old(View()), attempt, result)
      ensures stored <==> result.Some? && off in old(inflight) && !old(inflight)[off].delivered
    {
      var wasDelivered, twinsLive := Retire(off, attempt, result.Some?);
      stored := result.Some? && !wasDelivered;
      if stored {
        em.Insert(off, result.value);
        owner := Assign(owner, off, len, Delivered);
      } else if result.None? && !wasDelivered && !twinsLive {
        requeue := requeue + multiset{(off, len)};
        owner := Assign(owner, off, len, Queued(off));
      }
    }

    /** Drop whatever the emitter has fully passed (bytes of merged gaps are never consumed). */
    method Trim()
      requires Tidy(em.buffered) && Agrees(em.buffered, em.src)
      modifies em`buffered
      ensures Tidy(em.buffered) && Agrees(em.buffered, em.src) && KeptFrom(old(em.buffered), em.buffered, em.emitPos)
      ensures forall k :: k in em.buffered ==> k + |em.buffered[k]| > em.emitPos
    {
      while em.buffered != map[]
        invariant Tidy(em.buffered) && Agrees(em.buffered, em.src)
                  && KeptFrom(old(em.buffered), em.buffered, em.emitPos)
        decreases |em.buffered|
      {
        var k: nat := Least(em.buffered.Keys);
        if k + |em.buffered[k]| > em.emitPos {
          return;
        }
        TrimKeeps(em.buffered, k, em.emitPos);
        SmallerWithout(em.buffered, k);
        em.buffered := em.buffered - {k};
      }
    }

    /** Emission between launches: pump what is buffered, then trim. */
    method Drain() returns (r: Pumped)
      requires em.Valid()
      modifies em
      ensures r == NeedData || r == Finished || em.Stopped(r)
      ensures r == NeedData ==> em.Valid() && em.Starved() && KeptFrom(old(em.buffered), em.buffered, em.emitPos)
      ensures r == Finished ==> em.Completed()
      ensures em.SentPrefix() && em.emitPos >= old(em.emitPos)
    {
      r := em.Pump();
      if r == NeedData {
        ghost var starved := em.buffered;
        Trim();
        KeptStarves(starved, em.buffered);
      }
    }

    method Deliver(off: nat, len: nat, attempt: nat, result: Option<Bytes>) returns (stored: bool)
      requires Valid() && attempt in workers && workers[attempt] == (off, len)
      requires result.Some? ==> |result.value| == len
      requires result.Some? && off in inflight && !inflight[off].delivered ==> result.value == Slice(em.src, off, len)
      modifies this`inflight, this`workers, this`requeue, this`owner, em`buffered
      ensures Valid() && View() == DoneTo(old(View()), attempt, result)
    {
      ghost var s := View();
      if result.Some? && off in inflight && !inflight[off].delivered { NeverBuffered(ranges, s, attempt); }
      stored := Complete(off, len, attempt, result);
      NextKeepsInv(ranges, window, s, Transfer.Done(attempt, result), View());
    }

    method PumpAll() returns (r: Pumped)
      requires Valid()
      modifies em
      ensures r == NeedData || r == Finished || em.Stopped(r)
      ensures r == NeedData ==> Valid() && em.Starved() && em.emitPos >= old(em.emitPos)
      ensures r == Finished ==> em.Completed()
      ensures em.SentPrefix()
    {
      ghost var s := View();
      r := Drain();
      if r == NeedData { NextKeepsInv(ranges, window, s, Transfer.Emit(em.emitPos, em.buffered), View()); }
    }

    /** One completion through to emission. `Go`: nothing new was buffered. When the loop goes
        on, the tables are sound again and only a missing byte holds emission up; when it ends
        well, everything was sent and a full transfer hashed to the NAR hash. */
    method OnDone(off: nat, len: nat, attempt: nat, result: Option<Bytes>) returns (r: Pumped)
      requires Valid() && attempt in workers && workers[attempt] == (off, len)
      requires result.Some? ==> |result.value| == len
      requires result.Some? && off in inflight && !inflight[off].delivered ==> result.value == Slice(em.src, off, len)
      modifies this, em
      ensures r == Go || r == NeedData || r == Finished || em.Stopped(r)
      ensures r == Go || r == NeedData ==> Valid()
      ensures r == Go ==> View() == DoneTo(old(View()), attempt, result)
      ensures r == NeedData ==> em.Starved() && em.emitPos >= old(em.emitPos)
      ensures r == Finished ==> em.Completed()
      ensures em.SentPrefix()
    {
      var stored := Deliver(off, len, attempt, result);
      if stored {
        r := PumpAll();
      } else {
        em.ValidPrefix();
        r := Go;
      }
    }

    /** A byte the emitter waits for: the next one, or any of a span it must assemble whole. */
    ghost predicate Misses(x: nat)
      reads em
    {
      && em.spanI < |em.spans| && em.spans[em.spanI].1.Fetch? && !Has(em.buffered, x)
      && if em.spans[em.spanI].1.retain.None? then em.spanEmitted < em.spans[em.spanI].1.len && x == em.emitPos
         else em.spanEmitted == 0 && em.emitPos <= x < em.emitPos + em.spans[em.spanI].1.len
    }

    lemma StarvedMisses()
      requires em.Starved()
      ensures exists x: nat :: Misses(x)
    {
      if em.spans[em.spanI].1.retain.None? {
        assert Misses(em.emitPos);
      } else {
        var x: nat :| em.emitPos <= x < em.emitPos + em.spans[em.spanI].1.len && !Has(em.buffered, x);
        assert Misses(x);
      }
    }

    /** A starved emitter never waits on the window: a missing byte that no live attempt can
        still deliver lies at or above the next launch, which is inside the window. */
    lemma NeverWedged(x: nat)
      requires Valid() && window > 0 && Misses(x) && !Aloft(View(), x)
      requires forall i :: 0 <= i < |em.spans| ==> Fits(em.spans, ranges, window, i)
      ensures Candidate(ranges, View(), false).Some?
              && Candidate(ranges, View(), false).value <= x < em.emitPos + window
    {
      MissingInRange(x);
      WindowCannotWedge(ranges, window, View(), x);
    }

    lemma MissingInRange(x: nat)
      requires em.Valid() && window > 0 && Misses(x)
      requires forall i :: 0 <= i < |em.spans| ==> Fits(em.spans, ranges, window, i)
      ensures em.emitPos <= x < em.emitPos + window && InRange(ranges, x)
    {
      em.ValidPrefix();
      assert Fits(em.spans, ranges, window, em.spanI) && PlacedOk(em.spans, em.lits, em.start, em.spanI);
    }
  }
}
