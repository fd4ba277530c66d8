/** What a replica learns from the journals it follows (`apply_suffix` in src/index.rs): the facts
    that the events carry enter the table with the rows. */
module Feed {
  import opened Common
  import opened Order
  import opened Facts
  import opened Replica

  // ---- one suffix ----

  /** u knows the well formed facts of the journal rows in (lo, hi], and there is a row for every
      number in between. */
  ghost predicate KnowsRow(j: map<nat, Event>, k: nat, u: Table) {
    k in j && (j[k].op.Attest? && WellFormed(j[k].op.fact) ==> Knows(u, j[k].op.fact))
  }

  ghost predicate KnowsRows(j: map<nat, Event>, lo: nat, hi: nat, u: Table) {
    forall k :: lo < k <= hi ==> KnowsRow(j, k, u)
  }

  /** now is the least table that contains was and knows the facts of the rows in (lo, hi]. */
  ghost predicate Learned(was: Table, now: Table, j: map<nat, Event>, lo: nat, hi: nat) {
    && TableOk(now) && TableLe(was, now) && KnowsRows(j, lo, hi, now)
    && forall u :: TableOk(u) && TableLe(was, u) && KnowsRows(j, lo, hi, u) ==> TableLe(now, u)
  }

  /** The facts of `attests` are those that the rows say. */
  ghost predicate SaidBy(rows: seq<Event>, attests: seq<Attestation>) {
    && (forall i :: 0 <= i < |rows| && rows[i].op.Attest? && WellFormed(rows[i].op.fact) ==> rows[i].op.fact in attests)
    && (forall a :: a in attests ==> Says(rows, a))
  }

  ghost predicate Says(rows: seq<Event>, a: Attestation) {
    exists i :: 0 <= i < |rows| && rows[i].op == Attest(a) && WellFormed(a)
  }

  /** The rows continue the number `lo` one by one. */
  ghost predicate Run(rows: seq<Event>, lo: nat) { forall i :: 0 <= i < |rows| ==> rows[i].no == lo + 1 + i }

  lemma SaidByMore(rows: seq<Event>, attests: seq<Attestation>, e: Event)
    requires SaidBy(rows, attests)
    ensures SaidBy(rows + [e], attests + AttestOf(e.op))
  {
    var rows' := rows + [e];
    forall a | a in attests + AttestOf(e.op) ensures Says(rows', a) {
      if a in attests {
        assert Says(rows, a);
        var i :| 0 <= i < |rows| && rows[i].op == Attest(a) && WellFormed(a);
        assert rows'[i].op == Attest(a);
      } else {
        assert rows'[|rows|].op == Attest(a);
      }
    }
  }

  /** What a scan that succeeds has gathered: rows that continue the clock, all of them sent, and
      exactly the facts that they say. */
  lemma {:induction false} ScanGathers(lo: nat, b: Batch, events: seq<Event>)
    requires Run(b.rows, lo) && b.no == lo + |b.rows| && SaidBy(b.rows, b.attests)
    ensures Scan(b, events).Some? ==>
              var r := Scan(b, events).value;
              && Run(r.rows, lo) && r.no == lo + |r.rows| && SaidBy(r.rows, r.attests)
              && forall e :: e in r.rows ==> e in b.rows || e in events
    decreases |events|
  {
    if events != [] {
      var e := events[0];
      assert events == [e] + events[1..];
      if e.no == b.no + 1 {
        SaidByMore(b.rows, b.attests, e);
        ScanGathers(lo, Extend(b, e), events[1..]);
      } else if e.no <= b.no {
        ScanGathers(lo, b, events[1..]);
      }
    }
  }

  lemma {:induction false} PutRun(j: map<nat, Event>, rows: seq<Event>, lo: nat)
    requires Run(rows, lo)
    ensures forall k :: lo < k <= lo + |rows| ==> k in PutRows(j, rows) && PutRows(j, rows)[k] == rows[k - lo - 1]
    decreases |rows|
  {
    if rows != [] { PutRun(j, rows[..|rows| - 1], lo); }
  }

  /** Knowing what was gathered is knowing the rows that were put. */
  lemma KnowsGathered(j: map<nat, Event>, rows: seq<Event>, attests: seq<Attestation>, lo: nat, u: Table)
    requires Run(rows, lo) && SaidBy(rows, attests)
    ensures KnowsRows(PutRows(j, rows), lo, lo + |rows|, u) <==> forall a :: a in attests ==> Knows(u, a)
  {
    PutRun(j, rows, lo);
    var j' := PutRows(j, rows);
    if KnowsRows(j', lo, lo + |rows|, u) {
      forall a | a in attests ensures Knows(u, a) {
        assert Says(rows, a);
        var i :| 0 <= i < |rows| && rows[i].op == Attest(a) && WellFormed(a);
        assert KnowsRow(j', lo + 1 + i, u) && j'[lo + 1 + i] == rows[i];
      }
    }
    if forall a :: a in attests ==> Knows(u, a) {
      forall k | lo < k <= lo + |rows| ensures KnowsRow(j', k, u) { assert j'[k] == rows[k - lo - 1]; }
    }
  }

  lemma SameLearned(t: Table, j: map<nat, Event>, no: nat)
    requires TableOk(t)
    ensures Learned(t, t, j, no, no)
  {
    MergeAllLub(t, []);
  }

  lemma MergeLearns(t: Table, j: map<nat, Event>, rows: seq<Event>, attests: seq<Attestation>, lo: nat)
    requires TableOk(t) && Run(rows, lo) && SaidBy(rows, attests)
    ensures Learned(t, MergeAll(t, attests), PutRows(j, rows), lo, lo + |rows|)
  {
    var now := MergeAll(t, attests);
    MergeAllLub(t, attests);
    KnowsGathered(j, rows, attests, lo, now);
    forall u | TableOk(u) && TableLe(t, u) && KnowsRows(PutRows(j, rows), lo, lo + |rows|, u) ensures TableLe(now, u) {
      KnowsGathered(j, rows, attests, lo, u);
    }
  }

  /** A suffix that moves the clock from lo to hi adds to the table what the new rows say, and
      nothing else; one that does not move it adds nothing. */
  lemma SuffixLearns(c: Copy, known: Table, generation: nat, events: seq<Event>)
    requires TableOk(known)
    ensures var next := ApplyRead(c, c.clock.generation, c.clock.no, generation, events);
            Learned(known, FactsRead(c, known, c.clock.generation, c.clock.no, generation, events), next.journal,
                    c.clock.no, next.clock.no)
  {
    var plan := PlanSuffix(c.clock.generation, c.clock.no, generation, events);
    SameLearned(known, c.journal, c.clock.no);
    if plan.Ready? {
      ScanGathers(c.clock.no, Batch([], [], [], c.clock.no), events);
      MergeLearns(known, c.journal, plan.batch.rows, plan.batch.attests, c.clock.no);
    }
  }

  /** Among the events themselves: whatever lies between the old number and the new one, and is the
      only event of its number, is among the new rows. */
  lemma SentIsRow(c: Copy, generation: nat, events: seq<Event>, e: Event)
    requires var next := ApplyRead(c, c.clock.generation, c.clock.no, generation, events);
             e in events && c.clock.no < e.no <= next.clock.no
    requires forall x :: x in events && x.no == e.no ==> x == e
    ensures var next := ApplyRead(c, c.clock.generation, c.clock.no, generation, events);
            e.no in next.journal && next.journal[e.no] == e
  {
    var rows := PlanSuffix(c.clock.generation, c.clock.no, generation, events).batch.rows;
    ScanGathers(c.clock.no, Batch([], [], [], c.clock.no), events);
    PutRun(c.journal, rows, c.clock.no);
    assert rows[e.no - c.clock.no - 1] in rows;
  }

  /** So its fact is known, if it carries a well formed one. */
  lemma SentIsKnown(c: Copy, known: Table, generation: nat, events: seq<Event>, e: Event)
    requires TableOk(known)
    requires var next := ApplyRead(c, c.clock.generation, c.clock.no, generation, events);
             e in events && c.clock.no < e.no <= next.clock.no
    requires forall x :: x in events && x.no == e.no ==> x == e
    requires e.op.Attest? && WellFormed(e.op.fact)
    ensures Knows(FactsRead(c, known, c.clock.generation, c.clock.no, generation, events), e.op.fact)
  {
    var next := ApplyRead(c, c.clock.generation, c.clock.no, generation, events);
    SuffixLearns(c, known, generation, events);
    SentIsRow(c, generation, events, e);
    assert KnowsRow(next.journal, e.no, FactsRead(c, known, c.clock.generation, c.clock.no, generation, events));
  }

  /** A well formed fact that a table knows has a row there that absorbs it. */
  lemma KnownMeans(u: Table, a: Attestation)
    requires TableOk(u) && WellFormed(a) && Knows(u, a)
    ensures KeyOf(a) in u && Elems(a.sigs) <= Elems(u[KeyOf(a)].sigs) && BodyCmp(a, u[KeyOf(a)]) != Greater
  {
    var c, r := Canonicalize(a), u[KeyOf(a)];
    JoinMeaning(c, r);
    BodyLaws(c, r);
  }

  // ---- what is reported ----

  /** The highest number up to which a reader that starts at `no` can have got. */
  function Reach(no: nat, events: seq<Event>): nat
    decreases |events|
  {
    if events == [] then no else Max(Reach(no, events[..|events| - 1]), events[|events| - 1].no)
  }

  /** Some event leaves out a number: it lies more than one above all that was there before it. */
  ghost predicate LeavesOut(no: nat, events: seq<Event>) {
    exists i: nat :: LeavesOutAt(no, events, i)
  }

  ghost predicate LeavesOutAt(no: nat, events: seq<Event>, i: nat) {
    i < |events| && events[i].no > Reach(no, events[..i]) + 1
  }

  lemma {:induction false} ReachNext(no: nat, e: Event, rest: seq<Event>)
    ensures Reach(no, [e] + rest) == Reach(Max(no, e.no), rest)
    decreases |rest|
  {
    var es := [e] + rest;
    if rest == [] {
      assert es[..0] == [];
    } else {
      assert es[..|es| - 1] == [e] + rest[..|rest| - 1];
      ReachNext(no, e, rest[..|rest| - 1]);
    }
  }

  lemma LeavesOutShift(no: nat, e: Event, rest: seq<Event>, i: nat)
    ensures LeavesOutAt(no, [e] + rest, i + 1) <==> LeavesOutAt(Max(no, e.no), rest, i)
  {
    if i < |rest| {
      assert ([e] + rest)[..i + 1] == [e] + rest[..i];
      ReachNext(no, e, rest[..i]);
    }
  }

  lemma LeavesOutNext(no: nat, e: Event, rest: seq<Event>)
    ensures LeavesOut(no, [e] + rest) <==> e.no > no + 1 || LeavesOut(Max(no, e.no), rest)
  {
    assert ([e] + rest)[..0] == [];
    assert LeavesOutAt(no, [e] + rest, 0) <==> e.no > no + 1;
    if LeavesOut(no, [e] + rest) {
      var i: nat :| LeavesOutAt(no, [e] + rest, i);
      if i > 0 { LeavesOutShift(no, e, rest, i - 1); }
    }
    if LeavesOut(Max(no, e.no), rest) {
      var i: nat :| LeavesOutAt(Max(no, e.no), rest, i);
      LeavesOutShift(no, e, rest, i);
    }
  }

  /** A scan finds a gap exactly when an event leaves out a number; otherwise it gets as far as the
      events go. */
  lemma {:induction false} ScanFailsIffLeftOut(b: Batch, events: seq<Event>)
    ensures Scan(b, events).None? <==> LeavesOut(b.no, events)
    ensures Scan(b, events).Some? ==> Scan(b, events).value.no == Reach(b.no, events)
    decreases |events|
  {
    if events != [] {
      var e, rest := events[0], events[1..];
      assert events == [e] + rest;
      LeavesOutNext(b.no, e, rest);
      ReachNext(b.no, e, rest);
      if e.no <= b.no {
        ScanFailsIffLeftOut(b, rest);
      } else if e.no == b.no + 1 {
        ScanFailsIffLeftOut(Extend(b, e), rest);
      }
    }
  }

  /** A suffix that cannot be connected: of a newer generation than a clock that is not zero, or with
      a number left out. */
  ghost predicate Disconnected(c: Clock, generation: nat, events: seq<Event>) {
    && generation >= c.generation
    && ((generation > c.generation && (c.generation != 0 || c.no != 0)) || LeavesOut(c.no, events))
  }

  /** What a suffix comes to: nothing when it is stale or cannot be connected, and else the clock
      stands where its events go, a newer generation being adopted with the first row. */
  lemma SuffixOutcome(c: Copy, generation: nat, events: seq<Event>)
    ensures var k := c.clock; var plan := PlanSuffix(k.generation, k.no, generation, events);
            var next := ApplyRead(c, k.generation, k.no, generation, events);
            && (plan == Stale <==> generation < k.generation)
            && (plan == Gap <==> Disconnected(k, generation, events))
            && (!plan.Ready? ==> next == c)
            && (plan.Ready? ==>
                  && next.clock.no == Reach(k.no, events) == k.no + |plan.batch.rows|
                  && next.clock.generation == (if next.clock.no > k.no then generation else k.generation))
  {
    ScanFailsIffLeftOut(Batch([], [], [], c.clock.no), events);
    ScanGathers(c.clock.no, Batch([], [], [], c.clock.no), events);
  }

  /** From a zero clock, adopting a generation through a suffix is the same as taking an empty
      snapshot of it first. */
  lemma AdoptionIsEmptySnapshot(generation: nat, events: seq<Event>)
    requires generation > 0
    ensures var viaSuffix := ApplyRead(ZERO_COPY, 0, 0, generation, events);
            var empty := ReplaceWith(ZERO_COPY, generation, 0, {});
            var viaSnapshot := ApplyRead(empty, generation, 0, generation, events);
            if viaSuffix.clock.no > 0 then viaSuffix == viaSnapshot else viaSnapshot == empty
  {
    ScanGathers(0, Batch([], [], [], 0), events);
    assert Digests({}) == {};
  }

  // ---- whole runs ----

  /** A replica of one origin: its copy, the node's fact table, and the number at which the last
      snapshot left the copy. */
  datatype Fed = Fed(c: Copy, facts: Table, base: nat)

  /** `Suffix` is `apply_suffix` with a clock read at any earlier time. `Learn`: facts from
      elsewhere. `Rewrite`: anything that leaves the clock alone, such as compaction or an interrupted
      replace. `Rollback`: a crash that loses the last writes, back to an earlier state. */
  datatype Step =
    | Suffix(readGeneration: nat, readNo: nat, generation: nat, events: seq<Event>)
    | Snapshot(generation: nat, no: nat, held: set<Bytes>)
    | Learn(facts: Table)
    | Rewrite(c: Copy)
    | Rollback(to: nat)

  /** The origin's histories, by generation. */
  type Histories = map<nat, seq<Event>>

  ghost predicate HistoriesOk(hist: Histories) {
    (forall g :: g in hist ==> History(hist[g])) && 0 in hist && hist[0] == []
  }

  ghost predicate Own(hist: Histories, generation: nat, events: seq<Event>) {
    generation in hist && forall i :: 0 <= i < |events| ==> FromHistory(hist[generation], events[i])
  }

  function Fresh(s: Fed, g: nat, no: nat, held: set<Bytes>): Fed {
    s.(c := ReplaceWith(s.c, g, no, held), base := if StaleSnapshot(s.c, g, no) then s.base else no)
  }

  ghost predicate Next(hist: Histories, states: seq<Fed>, i: nat, step: Step, t: Fed)
    requires i < |states|
  {
    var s := states[i];
    match step
    case Suffix(rg, rn, g, events) =>
      Own(hist, g, events)
      && t == Fed(ApplyRead(s.c, rg, rn, g, events), FactsRead(s.c, s.facts, rg, rn, g, events), s.base)
    case Snapshot(g, no, held) => g in hist && no <= |hist[g]| && t == Fresh(s, g, no, held)
    case Learn(facts) => TableOk(facts) && TableLe(s.facts, facts) && t == s.(facts := facts)
    case Rewrite(c) => c.clock.generation == s.c.clock.generation && c.clock.no == s.c.clock.no && t == s.(c := c)
    case Rollback(to) => to <= i && t == states[to]
  }

  ghost predicate FedRun(hist: Histories, known: Table, states: seq<Fed>, steps: seq<Step>) {
    && |states| == |steps| + 1 && states[0] == Fed(ZERO_COPY, known, 0)
    && forall i :: 0 <= i < |steps| ==> Next(hist, states, i, steps[i], states[i + 1])
  }

  /** u knows the well formed facts of the history's events lo + 1 to hi. */
  ghost predicate KnowsEvents(h: seq<Event>, lo: nat, hi: nat, u: Table)
    requires hi <= |h|
  {
    forall i :: lo <= i < hi && h[i].op.Attest? && WellFormed(h[i].op.fact) ==> Knows(u, h[i].op.fact)
  }

  ghost predicate Inv(hist: Histories, s: Fed) {
    && s.c.clock.generation in hist && s.base <= s.c.clock.no <= |hist[s.c.clock.generation]| && TableOk(s.facts)
    && KnowsEvents(hist[s.c.clock.generation], s.base, s.c.clock.no, s.facts)
  }

  lemma KnowsMore(h: seq<Event>, lo: nat, hi: nat, u: Table, v: Table)
    requires hi <= |h| && TableOk(u) && TableOk(v) && TableLe(u, v) && KnowsEvents(h, lo, hi, u)
    ensures KnowsEvents(h, lo, hi, v)
  {
    forall i | lo <= i < hi && h[i].op.Attest? && WellFormed(h[i].op.fact) ensures Knows(v, h[i].op.fact) {
      KnowsGrows(u, v, h[i].op.fact);
    }
  }

  /** A row that a suffix adds is one of the events sent, under its own number. */
  lemma NewRow(c: Copy, generation: nat, events: seq<Event>, k: nat)
    requires c.clock.no < k <= ApplyRead(c, c.clock.generation, c.clock.no, generation, events).clock.no
    ensures var j := ApplyRead(c, c.clock.generation, c.clock.no, generation, events).journal;
            k in j && j[k] in events && j[k].no == k
  {
    var rows := PlanSuffix(c.clock.generation, c.clock.no, generation, events).batch.rows;
    ScanGathers(c.clock.no, Batch([], [], [], c.clock.no), events);
    PutRun(c.journal, rows, c.clock.no);
    assert rows[k - c.clock.no - 1] in rows;
  }

  lemma OwnEvent(h: seq<Event>, events: seq<Event>, e: Event)
    requires e in events && forall i :: 0 <= i < |events| ==> FromHistory(h, events[i])
    ensures FromHistory(h, e)
  {}

  /** The rows that a suffix of own events adds are the history's. */
  lemma RowsAreHistory(c: Copy, generation: nat, events: seq<Event>, h: seq<Event>, k: nat)
    requires forall i :: 0 <= i < |events| ==> FromHistory(h, events[i])
    requires c.clock.no < k <= ApplyRead(c, c.clock.generation, c.clock.no, generation, events).clock.no
    ensures var j := ApplyRead(c, c.clock.generation, c.clock.no, generation, events).journal;
            k <= |h| && k in j && j[k] == h[k - 1]
  {
    NewRow(c, generation, events, k);
    OwnEvent(h, events, ApplyRead(c, c.clock.generation, c.clock.no, generation, events).journal[k]);
  }

  lemma SuffixKeeps(hist: Histories, s: Fed, generation: nat, events: seq<Event>)
    requires HistoriesOk(hist) && Inv(hist, s) && Own(hist, generation, events)
    ensures Inv(hist, Fed(ApplyRead(s.c, s.c.clock.generation, s.c.clock.no, generation, events),
                          FactsRead(s.c, s.facts, s.c.clock.generation, s.c.clock.no, generation, events), s.base))
  {
    var c, h := s.c, hist[generation];
    var next := ApplyRead(c, c.clock.generation, c.clock.no, generation, events);
    var facts := FactsRead(c, s.facts, c.clock.generation, c.clock.no, generation, events);
    SuffixLearns(c, s.facts, generation, events);
    KnowsMore(hist[c.clock.generation], s.base, c.clock.no, s.facts, facts);
    SuffixClock(c, generation, events);
    if next.clock.no > c.clock.no {
      RowsAreHistory(c, generation, events, h, next.clock.no);
      forall i | s.base <= i < next.clock.no && h[i].op.Attest? && WellFormed(h[i].op.fact)
        ensures Knows(facts, h[i].op.fact)
      {
        if i >= c.clock.no {
          RowsAreHistory(c, generation, events, h, i + 1);
          assert KnowsRow(next.journal, i + 1, facts);
        }
      }
    }
  }

  /** A suffix leaves the clock, or moves it forward within its generation, which is adopted from a
      zero clock. */
  lemma SuffixClock(c: Copy, generation: nat, events: seq<Event>)
    ensures var next := ApplyRead(c, c.clock.generation, c.clock.no, generation, events);
            next == c
            || (next.clock.no > c.clock.no && next.clock.generation == generation
                && (generation == c.clock.generation || (c.clock.generation == 0 && c.clock.no == 0)))
  {
    ScanGathers(c.clock.no, Batch([], [], [], c.clock.no), events);
  }

  lemma NextKeeps(hist: Histories, states: seq<Fed>, i: nat, step: Step, t: Fed)
    requires HistoriesOk(hist) && i < |states| && Next(hist, states, i, step, t)
    requires forall j :: 0 <= j <= i ==> Inv(hist, states[j])
    ensures Inv(hist, t)
  {
    var s := states[i];
    match step
    case Suffix(rg, rn, g, events) =>
      if (rg, rn) == (s.c.clock.generation, s.c.clock.no) { SuffixKeeps(hist, s, g, events); }
    case Snapshot(_, _, _) =>
    case Learn(facts) => KnowsMore(hist[s.c.clock.generation], s.base, s.c.clock.no, s.facts, facts);
    case Rewrite(_) =>
    case Rollback(to) => assert Inv(hist, states[to]);
  }

  lemma {:induction false} RunKeeps(hist: Histories, known: Table, states: seq<Fed>, steps: seq<Step>, n: nat)
    requires HistoriesOk(hist) && TableOk(known) && FedRun(hist, known, states, steps) && n < |states|
    ensures forall j :: 0 <= j <= n ==> Inv(hist, states[j])
    decreases n
  {
    if n > 0 {
      RunKeeps(hist, known, states, steps, n - 1);
      NextKeeps(hist, states, n - 1, steps[n - 1], states[n]);
    }
  }

  lemma {:induction false} WithoutSnapshots(hist: Histories, known: Table, states: seq<Fed>, steps: seq<Step>, n: nat)
    requires FedRun(hist, known, states, steps) && n < |states|
    requires forall i :: 0 <= i < n ==> !steps[i].Snapshot?
    ensures forall j :: 0 <= j <= n ==> states[j].base == 0
    decreases n
  {
    if n > 0 {
      WithoutSnapshots(hist, known, states, steps, n - 1);
      assert Next(hist, states, n - 1, steps[n - 1], states[n]);
    }
  }

  /** At every moment of every run the node knows each well formed fact among the origin's events
      that came after the copy's last snapshot: all of the first s events where there was none. */
  lemma FedKnows(hist: Histories, known: Table, states: seq<Fed>, steps: seq<Step>, n: nat, i: nat)
    requires HistoriesOk(hist) && TableOk(known) && FedRun(hist, known, states, steps) && n < |states|
    requires i < states[n].c.clock.no
    requires states[n].base <= i || forall k :: 0 <= k < n ==> !steps[k].Snapshot?
    ensures var s := states[n]; var h := if s.c.clock.generation in hist then hist[s.c.clock.generation] else [];
            i < |h| && (h[i].op.Attest? && WellFormed(h[i].op.fact) ==> Knows(s.facts, h[i].op.fact))
  {
    RunKeeps(hist, known, states, steps, n);
    if forall k :: 0 <= k < n ==> !steps[k].Snapshot? { WithoutSnapshots(hist, known, states, steps, n); }
  }
}
