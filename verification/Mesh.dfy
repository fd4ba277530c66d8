/** The possession protocol over a whole mesh, as a state machine. Messages are never removed
    from the pool, so every delivery may be delayed, duplicated, reordered or lost; copies may
    roll back; origins may be restored and must then remint their generation.

    History variables (`hist`, `hi`, `clean`, `past`) record what happened and guard nothing
    except the two stated assumptions: an origin exports only while it owns its latest number,
    and a reminted generation is one that this origin never used. */
module Mesh {
  import opened Common
  import opened Replica

  /** A copy with its history variables: `hi` bounds how late any part of `held` was read,
      `clean` says that `held` was never mixed across generations. */
  datatype Tracked = Tracked(c: Copy, hi: nat, clean: bool)

  datatype Msg =
    | Rows(origin: string, generation: nat, events: seq<Event>)
    | Snapshot(origin: string, generation: nat, no: nat, held: set<Bytes>, hi: nat, clean: bool)

  type Place = (string, string)    // (node, origin)
  type Era = (string, nat)         // (origin, generation)

  datatype World = World(
    copies: map<Place, Tracked>,
    past: map<Place, set<Tracked>>,
    hist: map<Era, seq<Event>>,
    msgs: set<Msg>)

  datatype Step =
    | Export(o: string, ops: seq<Op>)
    | SendRows(n: string, o: string, events: seq<Event>)
    | SendSnapshot(n: string, o: string, no: nat)
    | DeliverRows(n: string, o: string, m: Msg, readGeneration: nat, readNo: nat)
    | DeliverSnapshot(n: string, o: string, m: Msg)
    | PartialReplace(n: string, o: string, m: Msg, adopted: set<Bytes>, batches: nat)
    | Compact(n: string, o: string, floor: nat)
    | Rollback(n: string, o: string, back: Tracked)
    | Restore(o: string, back: Tracked)
    | Remint(o: string, generation: nat)

  function PlaceOf(s: Step): Place {
    if s.Export? || s.Restore? || s.Remint? then (s.o, s.o) else (s.n, s.o)
  }

  ghost predicate Enabled(w: World, s: Step) {
    && PlaceOf(s) in w.copies && PlaceOf(s) in w.past
    && var t := w.copies[PlaceOf(s)];
       var clock := t.c.clock;
       match s
       case Export(o, ops) =>
         // Not regressed: the origin still owns its latest number (self commits are durable).
         clock.generation > 0 && (o, clock.generation) in w.hist && clock.no == |w.hist[(o, clock.generation)]|
       case SendRows(n, o, events) =>
         // Any journal rows: suffixes, byte-capped suffixes and range replies alike.
         clock.generation > 0 && forall e :: e in events ==> e.no in t.c.journal && t.c.journal[e.no] == e
       case SendSnapshot(n, o, no) =>
         // The clock was read at `no`, the holdings now; the generation did not change between.
         clock.generation > 0 && no <= clock.no
       case DeliverRows(n, o, m, _, _) => n != o && m in w.msgs && m.Rows? && m.origin == o
       case DeliverSnapshot(n, o, m) => n != o && m in w.msgs && m.Snapshot? && m.origin == o
       case PartialReplace(n, o, m, adopted, batches) =>
         && n != o && m in w.msgs && m.Snapshot? && m.origin == o && !StaleSnapshot(t.c, m.generation, m.no)
         && Interrupted(t.c, m, adopted, batches)
       case Compact(n, o, floor) => true
       case Rollback(n, o, back) => n != o && back in w.past[(n, o)]
       case Restore(o, back) => back in w.past[(o, o)]
       case Remint(o, generation) =>
         clock.generation < generation && (o, generation) !in w.hist && (o, clock.generation) in w.hist
         && clock.no <= |w.hist[(o, clock.generation)]|
  }

  /** The copy after a batch was committed under generation `g`. */
  function AfterCommit(t: Tracked, g: nat, b: Batch): Tracked {
    Tracked(Commit(t.c, t.c.clock.generation, t.c.clock.no, g, b),
            if g == t.c.clock.generation then Max(t.hi, b.no) else b.no, t.clean)
  }

  function AfterRows(t: Tracked, readGeneration: nat, readNo: nat, m: Msg): Tracked
    requires m.Rows?
  {
    var plan := PlanSuffix(readGeneration, readNo, m.generation, m.events);
    if plan.Ready? && plan.batch.rows != [] && t.c.clock.generation == readGeneration && t.c.clock.no == readNo
    then AfterCommit(t, m.generation, plan.batch)
    else t
  }

  /** On the stored copy this is what `apply_suffix` does with a clock read at any earlier time. */
  lemma AfterRowsIsApplyRead(t: Tracked, readGeneration: nat, readNo: nat, m: Msg)
    requires m.Rows?
    ensures AfterRows(t, readGeneration, readNo, m).c == ApplyRead(t.c, readGeneration, readNo, m.generation, m.events)
  {}

  function AfterSnapshot(t: Tracked, m: Msg): Tracked
    requires m.Snapshot?
  {
    if StaleSnapshot(t.c, m.generation, m.no) then t
    else Tracked(ReplaceWith(t.c, m.generation, m.no, m.held), m.hi, m.clean)
  }

  /** The points at which a replace can stop before its clock write: possession is written in
      full batches, each hash in one of them; then the journal goes, lowest number first, and
      only full batches of it are written ahead of the clock. */
  ghost predicate Interrupted(c: Copy, m: Msg, adopted: set<Bytes>, batches: nat)
    requires m.Snapshot?
  {
    var differ := Differing(c.held, Digests(m.held));
    && adopted <= differ && (adopted == differ || |adopted| % BATCH_OPS == 0)
    && batches * BATCH_OPS <= |c.journal| && (batches > 0 ==> adopted == differ)
  }

  /** The rows that went with the first batches of deletes. */
  function Lost(c: Copy, batches: nat): set<nat> { Lowest(c.journal.Keys, batches * BATCH_OPS) }

  /** Some writes of a replace landed, the clock write did not. */
  function AfterPartial(t: Tracked, m: Msg, adopted: set<Bytes>, lost: set<nat>): Tracked
    requires m.Snapshot?
  {
    var held := (t.c.held - adopted) + Digests(m.held) * adopted;
    var c := t.c.(held := held, journal := map i | i in t.c.journal && i !in lost :: t.c.journal[i]);
    if m.generation == t.c.clock.generation then Tracked(c, Max(t.hi, m.hi), t.clean && m.clean)
    else Tracked(c, t.hi, false)
  }

  ghost function NewCopy(w: World, s: Step): Tracked
    requires Enabled(w, s)
  {
    var t := w.copies[PlaceOf(s)];
    var clock := t.c.clock;
    match s
    case Export(o, ops) =>
      Tracked(ExportTo(t.c, Numbered(clock.no, ops)), clock.no + |ops|, t.clean)
    case SendRows(_, _, _) => t
    case SendSnapshot(_, _, _) => t
    case DeliverRows(_, _, m, rg, rn) => AfterRows(t, rg, rn, m)
    case DeliverSnapshot(_, _, m) => AfterSnapshot(t, m)
    case PartialReplace(_, _, m, adopted, batches) => AfterPartial(t, m, adopted, Lost(t.c, batches))
    case Compact(_, _, floor) => t.(c := CompactTo(t.c, floor))
    case Rollback(_, _, back) => back
    case Restore(_, back) => back
    case Remint(_, generation) => t.(c := t.c.(clock := clock.(generation := generation)))
  }

  /** The origin's history: grown by an export, started from the kept prefix by a remint. */
  ghost function NewHist(w: World, s: Step): map<Era, seq<Event>>
    requires Enabled(w, s)
  {
    var clock := w.copies[PlaceOf(s)].c.clock;
    var k := (s.o, clock.generation);
    if s.Export? then w.hist[k := w.hist[k] + Numbered(clock.no, s.ops)]
    else if s.Remint? then w.hist[(s.o, s.generation) := w.hist[k][..clock.no]]
    else w.hist
  }

  ghost function NewMsgs(w: World, s: Step): set<Msg>
    requires Enabled(w, s)
  {
    var t := w.copies[PlaceOf(s)];
    if s.SendRows? then w.msgs + {Rows(s.o, t.c.clock.generation, s.events)}
    else if s.SendSnapshot? then w.msgs + {Snapshot(s.o, t.c.clock.generation, s.no, t.c.held, t.hi, t.clean)}
    else w.msgs
  }

  ghost function Next(w: World, s: Step): World
    requires Enabled(w, s)
  {
    var p := PlaceOf(s);
    World(w.copies[p := NewCopy(w, s)], w.past[p := w.past[p] + {w.copies[p]}], NewHist(w, s), NewMsgs(w, s))
  }

  const START: Tracked := Tracked(ZERO_COPY, 0, true)

  ghost predicate Init(w: World) {
    && (forall p :: p in w.copies ==> w.copies[p] == START)
    && w.past.Keys == w.copies.Keys && (forall p :: p in w.past ==> w.past[p] == {})
    && w.msgs == {}
    && (forall p :: p in w.copies ==> (p.1, 0) in w.hist)
    && (forall k :: k in w.hist ==> k.1 == 0 && w.hist[k] == [])
  }

  /** Every finite run: a start state and steps, each enabled where it is taken. */
  ghost predicate Run(w: World, steps: seq<Step>, final: World)
    decreases |steps|
  {
    if steps == [] then final == w
    else Enabled(w, steps[0]) && Run(Next(w, steps[0]), steps[1..], final)
  }

  // ---- what every reachable state satisfies ----

  ghost predicate AgreeAt(h: seq<Event>, u: nat, held: set<Bytes>, x: Bytes) {
    u <= |h| && (x in held <==> x in Replay({}, h[..u]))
  }

  ghost predicate SometimeAgrees(h: seq<Event>, lo: nat, hi: nat, held: set<Bytes>, x: Bytes) {
    exists u :: lo <= u <= hi && AgreeAt(h, u, held, x)
  }

  /** Each hash's membership is the one it had at some moment between `lo` and `hi`. */
  ghost predicate Fuzzy(h: seq<Event>, lo: nat, hi: nat, held: set<Bytes>) {
    forall x :: SometimeAgrees(h, lo, hi, held, x)
  }

  ghost predicate RowsOk(h: seq<Event>, c: Copy) {
    forall i :: i in c.journal ==> 1 <= i <= c.clock.no && i <= |h| && c.journal[i] == h[i - 1]
  }

  ghost predicate TrackedOk(hist: map<Era, seq<Event>>, o: string, t: Tracked) {
    var k := (o, t.c.clock.generation);
    && k in hist
    && t.c.clock.no <= t.hi <= |hist[k]|
    && RowsOk(hist[k], t.c)
    && (forall x :: x in t.c.held ==> IsDigest(x))
    && (t.clean ==> Fuzzy(hist[k], t.c.clock.no, t.hi, t.c.held))
  }

  /** An origin's own copy is never fed by messages. */
  ghost predicate SelfOk(t: Tracked) { t.clean && t.hi == t.c.clock.no }

  ghost predicate MsgOk(hist: map<Era, seq<Event>>, m: Msg) {
    var k := (m.origin, m.generation);
    && k in hist && m.generation > 0
    && match m
       case Rows(_, _, events) => forall e :: e in events ==> FromHistory(hist[k], e)
       case Snapshot(_, _, no, held, hi, clean) =>
         && no <= hi <= |hist[k]|
         && (forall x :: x in held ==> IsDigest(x))
         && (clean ==> Fuzzy(hist[k], no, hi, held))
  }

  ghost predicate HistOk(hist: map<Era, seq<Event>>) {
    && (forall k :: k in hist ==> History(hist[k]))
    && (forall k :: k in hist && k.1 == 0 ==> hist[k] == [])
  }

  ghost predicate PlaceOk(hist: map<Era, seq<Event>>, p: Place, t: Tracked) {
    TrackedOk(hist, p.1, t) && (p.0 == p.1 ==> SelfOk(t))
  }

  ghost predicate Inv(w: World) {
    && HistOk(w.hist)
    && w.past.Keys == w.copies.Keys
    && (forall p :: p in w.copies ==> (p.1, 0) in w.hist)
    && (forall p :: p in w.copies ==> PlaceOk(w.hist, p, w.copies[p]))
    && (forall p, t :: p in w.past && t in w.past[p] ==> PlaceOk(w.hist, p, t))
    && (forall m :: m in w.msgs ==> MsgOk(w.hist, m))
  }

  ghost predicate Grows(hist: map<Era, seq<Event>>, hist': map<Era, seq<Event>>) {
    forall k :: k in hist ==> k in hist' && hist[k] <= hist'[k]
  }

  // ---- fuzziness ----

  lemma FuzzyExact(h: seq<Event>, u: nat, held: set<Bytes>)
    requires u <= |h|
    ensures Fuzzy(h, u, u, held) <==> held == Replay({}, h[..u])
  {
    if held == Replay({}, h[..u]) {
      forall x ensures SometimeAgrees(h, u, u, held, x) { assert AgreeAt(h, u, held, x); }
    }
    if Fuzzy(h, u, u, held) {
      forall x ensures x in held <==> x in Replay({}, h[..u]) {
        assert SometimeAgrees(h, u, u, held, x);
      }
    }
  }

  lemma FuzzyWiden(h: seq<Event>, h': seq<Event>, lo: nat, hi: nat, held: set<Bytes>, lo': nat, hi': nat)
    requires Fuzzy(h, lo, hi, held) && lo' <= lo && hi <= hi' && hi <= |h'|
    requires forall u :: lo <= u <= hi && u <= |h| ==> h[..u] == h'[..u]
    ensures Fuzzy(h', lo', hi', held)
  {
    forall x ensures SometimeAgrees(h', lo', hi', held, x) {
      assert SometimeAgrees(h, lo, hi, held, x);
      var u :| lo <= u <= hi && AgreeAt(h, u, held, x);
      assert AgreeAt(h', u, held, x);
    }
  }

  /** One more event of the same generation narrows the uncertainty from below. */
  lemma FuzzyStep(h: seq<Event>, lo: nat, hi: nat, held: set<Bytes>)
    requires lo < |h| && lo <= hi && Fuzzy(h, lo, hi, held)
    requires forall x :: x in held ==> IsDigest(x)
    ensures Fuzzy(h, lo + 1, Max(hi, lo + 1), StepOp(held, h[lo].op))
  {
    var held', next, top := StepOp(held, h[lo].op), lo + 1, Max(hi, lo + 1);
    assert h[..lo + 1][..lo] == h[..lo];
    ReplayDigests({}, h[..lo]);
    assert Replay({}, h[..lo + 1]) == StepOp(Replay({}, h[..lo]), h[lo].op);
    forall x ensures SometimeAgrees(h, next, top, held', x) {
      assert SometimeAgrees(h, lo, hi, held, x);
      var u :| lo <= u <= hi && AgreeAt(h, u, held, x);
      if (h[lo].op.Have? || h[lo].op.Drop?) && h[lo].op.hash == x {
        assert AgreeAt(h, lo + 1, held', x);
      } else if u == lo {
        assert AgreeAt(h, lo + 1, held', x);
      } else {
        assert AgreeAt(h, u, held', x);
      }
    }
  }

  lemma {:induction false} FuzzyReplay(h: seq<Event>, lo: nat, hi: nat, held: set<Bytes>, t: nat)
    requires lo <= t <= |h| && lo <= hi && Fuzzy(h, lo, hi, held)
    requires forall x :: x in held ==> IsDigest(x)
    ensures Fuzzy(h, t, Max(hi, t), Replay(held, h[lo..t]))
    decreases t - lo
  {
    if lo == t {
      assert h[lo..t] == [];
    } else {
      FuzzyReplay(h, lo, hi, held, t - 1);
      assert h[lo..t][..|h[lo..t]| - 1] == h[lo..t - 1];
      ReplayDigests(held, h[lo..t - 1]);
      FuzzyStep(h, t - 1, Max(hi, t - 1), Replay(held, h[lo..t - 1]));
    }
  }

  /** Fuzzy snapshots heal: a possession set read torn or late between `s` and `hi` is exact
      again once the events of its generation are applied through any `u >= hi`. */
  lemma FuzzyHeals(h: seq<Event>, s: nat, hi: nat, held: set<Bytes>, u: nat)
    requires s <= hi <= u <= |h| && Fuzzy(h, s, hi, held)
    requires forall x :: x in held ==> IsDigest(x)
    ensures Replay(held, h[s..u]) == Replay({}, h[..u])
  {
    FuzzyReplay(h, s, hi, held, u);
    FuzzyExact(h, u, Replay(held, h[s..u]));
  }

  lemma FuzzyMix(h: seq<Event>, s: nat, hi: nat, held: set<Bytes>, s2: nat, hi2: nat, held2: set<Bytes>,
                 adopted: set<Bytes>)
    requires s <= hi && s <= s2 <= hi2 && Fuzzy(h, s, hi, held) && Fuzzy(h, s2, hi2, held2)
    ensures Fuzzy(h, s, Max(hi, hi2), (held - adopted) + held2 * adopted)
  {
    var mixed := (held - adopted) + held2 * adopted;
    forall x ensures SometimeAgrees(h, s, Max(hi, hi2), mixed, x) {
      assert SometimeAgrees(h, s, hi, held, x) && SometimeAgrees(h, s2, hi2, held2, x);
      var u :| s <= u <= hi && AgreeAt(h, u, held, x);
      var v :| s2 <= v <= hi2 && AgreeAt(h, v, held2, x);
      if x in adopted { assert AgreeAt(h, v, mixed, x); } else { assert AgreeAt(h, u, mixed, x); }
    }
  }

  // ---- stability under growing histories ----

  lemma PrefixAgrees(h: seq<Event>, h': seq<Event>)
    requires h <= h'
    ensures forall u :: 0 <= u <= |h| ==> h[..u] == h'[..u]
  {}

  lemma TrackedStable(hist: map<Era, seq<Event>>, hist': map<Era, seq<Event>>, o: string, t: Tracked)
    requires Grows(hist, hist') && TrackedOk(hist, o, t)
    ensures TrackedOk(hist', o, t)
  {
    var k := (o, t.c.clock.generation);
    PrefixAgrees(hist[k], hist'[k]);
    if t.clean {
      FuzzyWiden(hist[k], hist'[k], t.c.clock.no, t.hi, t.c.held, t.c.clock.no, t.hi);
    }
  }

  lemma MsgStable(hist: map<Era, seq<Event>>, hist': map<Era, seq<Event>>, m: Msg)
    requires Grows(hist, hist') && MsgOk(hist, m)
    ensures MsgOk(hist', m)
  {
    var k := (m.origin, m.generation);
    PrefixAgrees(hist[k], hist'[k]);
    if m.Snapshot? && m.clean {
      FuzzyWiden(hist[k], hist'[k], m.no, m.hi, m.held, m.no, m.hi);
    }
  }

  // ---- each kind of step on one copy ----

  /** A committed batch of history rows leaves a sound copy at the batch's number. */
  lemma CommitKeeps(h: seq<Event>, c: Copy, hi: nat, g: nat, b: Batch)
    requires History(h) && c.clock.no <= b.no <= |h| && c.clock.no <= hi <= |h| && RowsOk(h, c)
    requires b.rows == h[c.clock.no..b.no] && b.holds == HoldsOf(h[c.clock.no..b.no])
    requires forall x :: x in c.held ==> IsDigest(x)
    ensures var c' := Commit(c, c.clock.generation, c.clock.no, g, b);
            && RowsOk(h, c') && (forall x :: x in c'.held ==> IsDigest(x))
            && (Fuzzy(h, c.clock.no, hi, c.held) ==> Fuzzy(h, b.no, Max(hi, b.no), c'.held))
  {
    PutRowsSlice(c.journal, h, c.clock.no, b.no);
    HoldsReplay(c.held, h[c.clock.no..b.no]);
    ReplayDigests(c.held, h[c.clock.no..b.no]);
    if Fuzzy(h, c.clock.no, hi, c.held) { FuzzyReplay(h, c.clock.no, hi, c.held, b.no); }
  }

  /** A successful scan from a clean slate is the history slice after the read number. */
  lemma ScanFresh(h: seq<Event>, no: nat, events: seq<Event>)
    requires History(h) && no <= |h| && FromHistoryAll(h, events)
    ensures Scan(Batch([], [], [], no), events).Some? ==>
              var r := Scan(Batch([], [], [], no), events).value;
              no <= r.no <= |h| && r.rows == h[no..r.no] && r.holds == HoldsOf(h[no..r.no])
  {
    assert h[no..no] == [];
    ScanSlice(h, no, Batch([], [], [], no), events);
  }

  lemma CommitTracked(hist: map<Era, seq<Event>>, o: string, t: Tracked, g: nat, b: Batch)
    requires HistOk(hist) && TrackedOk(hist, o, t) && (o, 0) in hist && (o, g) in hist
    requires g == t.c.clock.generation || (t.c.clock.generation == 0 && t.c.clock.no == 0)
    requires t.c.clock.no <= b.no <= |hist[(o, g)]|
    requires b.rows == hist[(o, g)][t.c.clock.no..b.no] && b.holds == HoldsOf(hist[(o, g)][t.c.clock.no..b.no])
    ensures TrackedOk(hist, o, AfterCommit(t, g, b))
  {
    var h := hist[(o, g)];
    if g == t.c.clock.generation {
      CommitKeeps(h, t.c, t.hi, g, b);
    } else {
      if t.clean { FuzzyWiden(hist[(o, 0)], h, 0, 0, t.c.held, 0, 0); }
      CommitKeeps(h, t.c, 0, g, b);
    }
  }

  lemma RowsKeep(hist: map<Era, seq<Event>>, o: string, t: Tracked, rg: nat, rn: nat, m: Msg)
    requires HistOk(hist) && TrackedOk(hist, o, t) && MsgOk(hist, m) && m.Rows? && m.origin == o
    requires (o, 0) in hist
    ensures TrackedOk(hist, o, AfterRows(t, rg, rn, m))
  {
    var plan := PlanSuffix(rg, rn, m.generation, m.events);
    if plan.Ready? && plan.batch.rows != [] && t.c.clock.generation == rg && t.c.clock.no == rn {
      ScanFresh(hist[(o, m.generation)], rn, m.events);
      CommitTracked(hist, o, t, m.generation, plan.batch);
    }
  }

  ghost predicate FromHistoryAll(h: seq<Event>, events: seq<Event>) {
    forall i :: 0 <= i < |events| ==> FromHistory(h, events[i])
  }

  lemma SnapshotKeep(hist: map<Era, seq<Event>>, o: string, t: Tracked, m: Msg)
    requires TrackedOk(hist, o, t) && MsgOk(hist, m) && m.Snapshot? && m.origin == o
    ensures TrackedOk(hist, o, AfterSnapshot(t, m))
  {
    assert Digests(m.held) == m.held;
  }

  lemma PartialKeep(hist: map<Era, seq<Event>>, o: string, t: Tracked, m: Msg, adopted: set<Bytes>, lost: set<nat>)
    requires TrackedOk(hist, o, t) && MsgOk(hist, m) && m.Snapshot? && m.origin == o
    requires !StaleSnapshot(t.c, m.generation, m.no)
    ensures TrackedOk(hist, o, AfterPartial(t, m, adopted, lost))
  {
    assert Digests(m.held) == m.held;
    if m.generation == t.c.clock.generation && t.clean && m.clean {
      FuzzyMix(hist[(o, m.generation)], t.c.clock.no, t.hi, t.c.held, m.no, m.hi, m.held, adopted);
    }
  }

  lemma ExportRows(h: seq<Event>, c: Copy, es: seq<Event>)
    requires History(h + es) && c.clock.no == |h| && RowsOk(h, c) && c.held == Replay({}, h)
    ensures RowsOk(h + es, ExportTo(c, es))
    ensures Replay(c.held, es) == Replay({}, h + es)
    ensures forall x :: x in Replay(c.held, es) ==> IsDigest(x)
  {
    var h' := h + es;
    assert h'[|h|..|h'|] == es;
    PutRowsSlice(c.journal, h', |h|, |h'|);
    ReplayAppend({}, h, es);
    ReplayDigests({}, h');
  }

  lemma ExportKeep(hist: map<Era, seq<Event>>, o: string, t: Tracked, ops: seq<Op>)
    requires HistOk(hist) && TrackedOk(hist, o, t) && SelfOk(t)
    requires t.c.clock.no == |hist[(o, t.c.clock.generation)]|
    ensures var es := Numbered(t.c.clock.no, ops);
            var k := (o, t.c.clock.generation);
            var t' := Tracked(ExportTo(t.c, es), t.c.clock.no + |es|, t.clean);
            History(hist[k] + es) && TrackedOk(hist[k := hist[k] + es], o, t') && SelfOk(t')
  {
    var es := Numbered(t.c.clock.no, ops);
    var h := hist[(o, t.c.clock.generation)];
    var h' := h + es;
    NumberedMeaning(t.c.clock.no, ops);
    assert h[..|h|] == h && h'[..|h'|] == h';
    FuzzyExact(h, |h|, t.c.held);
    ExportRows(h, t.c, es);
    FuzzyExact(h', |h'|, Replay(t.c.held, es));
  }

  lemma RemintKeep(hist: map<Era, seq<Event>>, o: string, t: Tracked, g: nat)
    requires HistOk(hist) && TrackedOk(hist, o, t) && SelfOk(t) && (o, g) !in hist && g > 0
    ensures var h := hist[(o, t.c.clock.generation)];
            var hist' := hist[(o, g) := h[..t.c.clock.no]];
            var t' := t.(c := t.c.(clock := t.c.clock.(generation := g)));
            HistOk(hist') && TrackedOk(hist', o, t') && SelfOk(t')
  {
    var no := t.c.clock.no;
    var h := hist[(o, t.c.clock.generation)];
    FuzzyWiden(h, h[..no], no, no, t.c.held, no, no);
  }

  lemma CompactKeep(hist: map<Era, seq<Event>>, o: string, t: Tracked, floor: nat)
    requires TrackedOk(hist, o, t)
    ensures TrackedOk(hist, o, t.(c := CompactTo(t.c, floor)))
  {}

  /** Histories are only ever extended, or started for a generation never used before. */
  lemma StepHist(w: World, s: Step)
    requires Inv(w) && Enabled(w, s)
    ensures HistOk(NewHist(w, s)) && Grows(w.hist, NewHist(w, s))
  {
    var t := w.copies[PlaceOf(s)];
    assert PlaceOk(w.hist, PlaceOf(s), t);
    if s.Export? { ExportKeep(w.hist, s.o, t, s.ops); }
    if s.Remint? { RemintKeep(w.hist, s.o, t, s.generation); }
  }

  /** The new copy at the step's place is sound. */
  lemma StepPlace(w: World, s: Step)
    requires Inv(w) && Enabled(w, s)
    ensures PlaceOk(NewHist(w, s), PlaceOf(s), NewCopy(w, s))
  {
    var p := PlaceOf(s);
    var t := w.copies[p];
    assert PlaceOk(w.hist, p, t);
    match s
    case Export(o, ops) => ExportKeep(w.hist, o, t, ops); NumberedMeaning(t.c.clock.no, ops);
    case SendRows(_, _, _) =>
    case SendSnapshot(_, _, _) =>
    case DeliverRows(_, o, m, rg, rn) => RowsKeep(w.hist, o, t, rg, rn, m);
    case DeliverSnapshot(_, o, m) => SnapshotKeep(w.hist, o, t, m);
    case PartialReplace(_, o, m, adopted, batches) => PartialKeep(w.hist, o, t, m, adopted, Lost(t.c, batches));
    case Compact(_, o, floor) => CompactKeep(w.hist, o, t, floor);
    case Rollback(_, _, _) =>
    case Restore(_, _) =>
    case Remint(o, g) => RemintKeep(w.hist, o, t, g);
  }

  /** A message sent from a sound copy is sound. */
  lemma StepMsgs(w: World, s: Step, m: Msg)
    requires Inv(w) && Enabled(w, s) && m in NewMsgs(w, s) && m !in w.msgs
    ensures MsgOk(w.hist, m)
  {
    var t := w.copies[PlaceOf(s)];
    assert PlaceOk(w.hist, PlaceOf(s), t);
    var h := w.hist[(s.o, t.c.clock.generation)];
    if s.SendSnapshot? {
      if t.clean { FuzzyWiden(h, h, t.c.clock.no, t.hi, t.c.held, s.no, t.hi); }
    } else {
      forall e | e in m.events ensures FromHistory(h, e) { assert e.no in t.c.journal; }
    }
  }

  lemma PlaceStable(hist: map<Era, seq<Event>>, hist': map<Era, seq<Event>>, p: Place, t: Tracked)
    requires Grows(hist, hist') && PlaceOk(hist, p, t)
    ensures PlaceOk(hist', p, t)
  {
    TrackedStable(hist, hist', p.1, t);
  }

  /** Everything sound stays sound while the histories grow. */
  lemma AllStable(w: World, hist': map<Era, seq<Event>>)
    requires Inv(w) && Grows(w.hist, hist')
    ensures forall p :: p in w.copies ==> PlaceOk(hist', p, w.copies[p])
    ensures forall p, t :: p in w.past && t in w.past[p] ==> PlaceOk(hist', p, t)
    ensures forall m :: m in w.msgs ==> MsgOk(hist', m)
  {
    forall p | p in w.copies ensures PlaceOk(hist', p, w.copies[p]) { PlaceStable(w.hist, hist', p, w.copies[p]); }
    forall p, t | p in w.past && t in w.past[p] ensures PlaceOk(hist', p, t) { PlaceStable(w.hist, hist', p, t); }
    forall m | m in w.msgs ensures MsgOk(hist', m) { MsgStable(w.hist, hist', m); }
  }

  /** The invariant, rebuilt from the one copy and the messages that a step changed. */
  lemma Assemble(w: World, p: Place, t: Tracked, hist': map<Era, seq<Event>>, msgs': set<Msg>)
    requires Inv(w) && p in w.copies && Grows(w.hist, hist') && HistOk(hist') && PlaceOk(hist', p, t)
    requires forall m :: m in msgs' && m !in w.msgs ==> MsgOk(hist', m)
    ensures Inv(World(w.copies[p := t], w.past[p := w.past[p] + {w.copies[p]}], hist', msgs'))
  {
    AllStable(w, hist');
  }

  lemma StepKeepsInv(w: World, s: Step)
    requires Inv(w) && Enabled(w, s)
    ensures Inv(Next(w, s))
  {
    StepHist(w, s);
    StepPlace(w, s);
    forall m | m in NewMsgs(w, s) && m !in w.msgs ensures MsgOk(NewHist(w, s), m) {
      StepMsgs(w, s, m);
      MsgStable(w.hist, NewHist(w, s), m);
    }
    Assemble(w, PlaceOf(s), NewCopy(w, s), NewHist(w, s), NewMsgs(w, s));
  }

  lemma InitInv(w: World)
    requires Init(w)
    ensures Inv(w)
  {
    FuzzyExact([], 0, {});
  }

  lemma {:induction false} RunKeepsInv(w: World, steps: seq<Step>, final: World)
    requires Inv(w) && Run(w, steps, final)
    ensures Inv(final)
    decreases |steps|
  {
    if steps != [] {
      StepKeepsInv(w, steps[0]);
      RunKeepsInv(Next(w, steps[0]), steps[1..], final);
    }
  }

  // ---- the main results ----

  /** A copy whose uncertainty is closed holds exactly the fold of its origin's first events. */
  ghost predicate Exact(t: Tracked) { t.clean && t.hi == t.c.clock.no }

  ghost predicate HoldsFold(w: World, p: Place)
    requires p in w.copies
  {
    var c := w.copies[p].c;
    var k := (p.1, c.clock.generation);
    k in w.hist && c.clock.no <= |w.hist[k]| && c.held == Replay({}, w.hist[k][..c.clock.no])
  }

  ghost predicate JournalIsOriginsOwn(w: World, p: Place)
    requires p in w.copies
  {
    var c := w.copies[p].c;
    var k := (p.1, c.clock.generation);
    k in w.hist && forall i :: i in c.journal ==> FromHistory(w.hist[k], c.journal[i]) && c.journal[i].no == i
  }

  lemma InvMeaning(w: World, p: Place)
    requires Inv(w) && p in w.copies
    ensures JournalIsOriginsOwn(w, p)
    ensures Exact(w.copies[p]) ==> HoldsFold(w, p)
    ensures p.0 == p.1 ==> HoldsFold(w, p)
  {
    var t := w.copies[p];
    assert PlaceOk(w.hist, p, t);
    FuzzyExact(w.hist[(p.1, t.c.clock.generation)], t.c.clock.no, t.c.held);
  }

  /** Mesh-wide replica correctness over every run, torn snapshot reads and interrupted
      replaces included: journals hold the origin's own events, and every exact copy, the
      origin's own among them, holds the fold of the origin's first `no` events of its
      generation. */
  lemma EveryRunIsCorrect(w: World, steps: seq<Step>, final: World)
    requires Init(w) && Run(w, steps, final)
    ensures forall p :: p in final.copies ==> JournalIsOriginsOwn(final, p)
    ensures forall p :: p in final.copies && (p.0 == p.1 || Exact(final.copies[p])) ==> HoldsFold(final, p)
  {
    InitInv(w);
    RunKeepsInv(w, steps, final);
    forall p | p in final.copies
      ensures JournalIsOriginsOwn(final, p)
      ensures p.0 == p.1 || Exact(final.copies[p]) ==> HoldsFold(final, p)
    {
      InvMeaning(final, p);
    }
  }

  /** The steps of a mesh whose snapshots are read in one piece and applied in one piece. */
  ghost predicate Atomic(w: World, s: Step)
    requires Enabled(w, s)
  {
    && !s.PartialReplace?
    && (s.SendSnapshot? ==> s.no == w.copies[PlaceOf(s)].c.clock.no)
  }

  ghost predicate AtomicRun(w: World, steps: seq<Step>, final: World)
    decreases |steps|
  {
    if steps == [] then final == w
    else Enabled(w, steps[0]) && Atomic(w, steps[0]) && AtomicRun(Next(w, steps[0]), steps[1..], final)
  }

  ghost predicate AllExact(w: World) {
    && (forall p :: p in w.copies ==> Exact(w.copies[p]))
    && (forall p, t :: p in w.past && t in w.past[p] ==> Exact(t))
    && (forall m :: m in w.msgs && m.Snapshot? ==> m.clean && m.hi == m.no)
  }

  lemma NewCopyExact(w: World, s: Step)
    requires Inv(w) && AllExact(w) && Enabled(w, s) && Atomic(w, s)
    ensures Exact(NewCopy(w, s))
  {
    var t := w.copies[PlaceOf(s)];
    assert Exact(t);
    if s.Export? { NumberedMeaning(t.c.clock.no, s.ops); }
    if s.DeliverRows? {
      ScanAdvances(Batch([], [], [], s.readNo), s.m.events);
    }
  }

  lemma StepKeepsExact(w: World, s: Step)
    requires Inv(w) && AllExact(w) && Enabled(w, s) && Atomic(w, s)
    ensures AllExact(Next(w, s))
  {
    NewCopyExact(w, s);
    assert Exact(w.copies[PlaceOf(s)]);
  }

  lemma {:induction false} ScanAdvances(b: Batch, events: seq<Event>)
    ensures Scan(b, events).Some? ==> b.no <= Scan(b, events).value.no
    decreases |events|
  {
    if events != [] {
      if events[0].no <= b.no { ScanAdvances(b, events[1..]); }
      else { ScanAdvances(Extend(b, events[0]), events[1..]); }
    }
  }

  /** With atomic snapshots every copy of every run is exact: at clock (g, s) it holds the
      fold of its origin's first s events of generation g. No lease is assumed; late or
      repeated deliveries are stopped by the clock gate of `Commit` alone. */
  lemma {:induction false} AtomicRunsAreExact(w: World, steps: seq<Step>, final: World)
    requires Inv(w) && AllExact(w) && AtomicRun(w, steps, final)
    ensures forall p :: p in final.copies ==> HoldsFold(final, p)
    decreases |steps|
  {
    if steps != [] {
      StepKeepsExact(w, steps[0]);
      StepKeepsInv(w, steps[0]);
      AtomicRunsAreExact(Next(w, steps[0]), steps[1..], final);
    } else {
      forall p | p in w.copies ensures HoldsFold(w, p) { InvMeaning(w, p); }
    }
  }

  /** So it is in every such run from the start. */
  lemma AtomicRunsFromStart(w: World, steps: seq<Step>, final: World)
    requires Init(w) && AtomicRun(w, steps, final)
    ensures forall p :: p in final.copies ==> HoldsFold(final, p)
  {
    InitInv(w);
    AtomicRunsAreExact(w, steps, final);
  }

  /** Two nodes anywhere in the mesh that show the same clock for an origin hold the same set. */
  lemma SameClockSameHoldings(w: World, p: Place, q: Place)
    requires Inv(w) && p in w.copies && q in w.copies && p.1 == q.1
    requires Exact(w.copies[p]) && Exact(w.copies[q])
    requires w.copies[p].c.clock.generation == w.copies[q].c.clock.generation
    requires w.copies[p].c.clock.no == w.copies[q].c.clock.no
    ensures w.copies[p].c.held == w.copies[q].c.held
  {
    InvMeaning(w, p);
    InvMeaning(w, q);
  }

  /** In the mesh: a clean copy that was read fuzzily up to `hi` is exact after any delivery
      that brings it, within its generation, to `hi` or beyond. */
  lemma DeliveryHeals(w: World, s: Step)
    requires Inv(w) && Enabled(w, s) && s.DeliverRows? && w.copies[PlaceOf(s)].clean
    requires Next(w, s).copies[PlaceOf(s)].c.clock.generation == w.copies[PlaceOf(s)].c.clock.generation
    requires Next(w, s).copies[PlaceOf(s)].c.clock.no >= w.copies[PlaceOf(s)].hi
    ensures HoldsFold(Next(w, s), PlaceOf(s))
  {
    StepKeepsInv(w, s);
    assert PlaceOk(w.hist, PlaceOf(s), w.copies[PlaceOf(s)]);
    InvMeaning(Next(w, s), PlaceOf(s));
  }

  ghost predicate ClockLe(a: Clock, b: Clock) {
    a.generation < b.generation || (a.generation == b.generation && a.no <= b.no)
  }

  /** Clocks move only upward, in lexicographic order, except when a store is rolled back. */
  lemma ClocksOnlyRise(w: World, s: Step, p: Place)
    requires Enabled(w, s) && p in w.copies && !s.Rollback? && !s.Restore?
    ensures ClockLe(w.copies[p].c.clock, Next(w, s).copies[p].c.clock)
  {
    if s.DeliverRows? { ScanAdvances(Batch([], [], [], s.readNo), s.m.events); }
    if s.Export? { NumberedMeaning(w.copies[p].c.clock.no, s.ops); }
  }

  lemma {:induction false} HistoriesGrow(w: World, steps: seq<Step>, final: World)
    requires Inv(w) && Run(w, steps, final)
    ensures Grows(w.hist, final.hist)
    decreases |steps|
  {
    if steps != [] {
      var w' := Next(w, steps[0]);
      StepHist(w, steps[0]);
      StepKeepsInv(w, steps[0]);
      HistoriesGrow(w', steps[1..], final);
    }
  }

  /** Where both copies are of one origin and generation, their journals carry the same events. */
  ghost predicate RowsAgree(c: Copy, d: Copy) {
    c.clock.generation == d.clock.generation ==> forall i :: i in c.journal && i in d.journal ==>
        c.journal[i] == d.journal[i]
  }

  /** No number is ever issued twice: any copy of an origin now, and any copy of it on any node
      at any later time, carry the same event under the same generation and number, through
      rollbacks, restores and remints. */
  lemma NumbersAreNeverReissued(w: World, steps: seq<Step>, final: World)
    requires Inv(w) && Run(w, steps, final)
    ensures forall p, q :: p in w.copies && q in final.copies && p.1 == q.1 ==>
              RowsAgree(w.copies[p].c, final.copies[q].c)
  {
    HistoriesGrow(w, steps, final);
    RunKeepsInv(w, steps, final);
    forall p, q | p in w.copies && q in final.copies && p.1 == q.1 ensures RowsAgree(w.copies[p].c, final.copies[q].c) {
      assert PlaceOk(w.hist, p, w.copies[p]) && PlaceOk(final.hist, q, final.copies[q]);
    }
  }

  // ---- journals without gaps ----

  /** The journal is exactly the rows in (tail, no]. */
  ghost predicate Dense(c: Copy) {
    && c.clock.tail <= c.clock.no
    && (forall i :: i in c.journal <==> c.clock.tail < i <= c.clock.no)
  }

  /** A replace is interrupted only where the journal is shorter than one batch of deletes, or
      before those begin; and no compaction floor outlives its clock read. */
  ghost predicate Orderly(w: World, s: Step)
    requires Enabled(w, s)
  {
    var clock := w.copies[PlaceOf(s)].c.clock;
    && (s.PartialReplace? ==> clock.no < clock.tail + BATCH_OPS || s.batches == 0)
    && (s.Compact? ==> s.floor <= clock.no)
  }

  ghost predicate OrderlyRun(w: World, steps: seq<Step>, final: World)
    decreases |steps|
  {
    if steps == [] then final == w
    else Enabled(w, steps[0]) && Orderly(w, steps[0]) && OrderlyRun(Next(w, steps[0]), steps[1..], final)
  }

  ghost predicate AllDense(w: World) {
    && (forall p :: p in w.copies ==> Dense(w.copies[p].c))
    && (forall p, t :: p in w.past && t in w.past[p] ==> Dense(t.c))
  }

  lemma RowsKeepDense(hist: map<Era, seq<Event>>, o: string, t: Tracked, rg: nat, rn: nat, m: Msg)
    requires HistOk(hist) && TrackedOk(hist, o, t) && MsgOk(hist, m) && m.Rows? && m.origin == o
    requires Dense(t.c)
    ensures Dense(AfterRows(t, rg, rn, m).c)
  {
    var plan := PlanSuffix(rg, rn, m.generation, m.events);
    if plan.Ready? && plan.batch.rows != [] && t.c.clock.generation == rg && t.c.clock.no == rn {
      var h := hist[(o, m.generation)];
      ScanFresh(h, rn, m.events);
      PutRowsSlice(t.c.journal, h, rn, plan.batch.no);
    }
  }

  lemma NewCopyDense(w: World, s: Step)
    requires Inv(w) && AllDense(w) && Enabled(w, s) && Orderly(w, s)
    ensures Dense(NewCopy(w, s).c)
  {
    var t := w.copies[PlaceOf(s)];
    assert Dense(t.c) && PlaceOk(w.hist, PlaceOf(s), t);
    if s.DeliverRows? {
      RowsKeepDense(w.hist, s.o, t, s.readGeneration, s.readNo, s.m);
    } else if s.Export? {
      var es := Numbered(t.c.clock.no, s.ops);
      NumberedMeaning(t.c.clock.no, s.ops);
      var h := w.hist[(s.o, t.c.clock.generation)];
      assert (h + es)[|h|..|h + es|] == es;
      PutRowsSlice(t.c.journal, h + es, |h|, |h + es|);
    } else if s.PartialReplace? {
      PartialKeepsDense(t, s.m, s.adopted, s.batches);
      RunSize(t.c.journal.Keys, t.c.clock.tail, t.c.clock.no);
    }
  }

  lemma StepKeepsDense(w: World, s: Step)
    requires Inv(w) && AllDense(w) && Enabled(w, s) && Orderly(w, s)
    ensures AllDense(Next(w, s))
  {
    NewCopyDense(w, s);
    assert Dense(w.copies[PlaceOf(s)].c);
  }

  /** Every orderly run keeps every journal equal to the rows in (tail, no]. */
  lemma {:induction false} OrderlyRunsStayDense(w: World, steps: seq<Step>, final: World)
    requires Inv(w) && AllDense(w) && OrderlyRun(w, steps, final)
    ensures AllDense(final)
    decreases |steps|
  {
    if steps != [] {
      StepKeepsDense(w, steps[0]);
      StepKeepsInv(w, steps[0]);
      OrderlyRunsStayDense(Next(w, steps[0]), steps[1..], final);
    }
  }

  // ---- where the guarantees stop ----

  /** What the rows of a gapless copy are after an interrupted replace: those above the deleted
      batches. So the journal stays gapless exactly when no full batch of deletes was written. */
  lemma PartialKeepsDense(t: Tracked, m: Msg, adopted: set<Bytes>, batches: nat)
    requires m.Snapshot? && Dense(t.c) && Interrupted(t.c, m, adopted, batches)
    ensures var c := AfterPartial(t, m, adopted, Lost(t.c, batches)).c;
            && c.clock == t.c.clock && c.clock.tail + batches * BATCH_OPS <= c.clock.no
            && (forall i :: i in c.journal <==> c.clock.tail + batches * BATCH_OPS < i <= c.clock.no)
            && (Dense(c) <==> batches == 0)
  {
    var c, low := AfterPartial(t, m, adopted, Lost(t.c, batches)).c, t.c.clock.tail + batches * BATCH_OPS;
    RunSize(t.c.journal.Keys, t.c.clock.tail, t.c.clock.no);
    LowestOfRun(t.c.journal.Keys, t.c.clock.tail, t.c.clock.no, batches * BATCH_OPS);
    assert forall i :: i in c.journal <==> low < i <= c.clock.no;
    if batches > 0 { assert c.clock.tail + 1 !in c.journal; }
  }

  /** A gapless copy survives every interruption of a replace if and only if its journal is
      shorter than one batch of deletes, which its clock tells beforehand. */
  lemma ShortJournalsSurvive(t: Tracked, m: Msg)
    requires m.Snapshot? && Dense(t.c)
    ensures (forall adopted, batches :: Interrupted(t.c, m, adopted, batches) ==>
               Dense(AfterPartial(t, m, adopted, Lost(t.c, batches)).c))
            <==> t.c.clock.no < t.c.clock.tail + BATCH_OPS
  {
    RunSize(t.c.journal.Keys, t.c.clock.tail, t.c.clock.no);
    forall adopted, batches | Interrupted(t.c, m, adopted, batches)
      ensures Dense(AfterPartial(t, m, adopted, Lost(t.c, batches)).c) <==> batches == 0
    {
      PartialKeepsDense(t, m, adopted, batches);
    }
    assert t.c.clock.no >= t.c.clock.tail + BATCH_OPS ==>
           Interrupted(t.c, m, Differing(t.c.held, Digests(m.held)), 1);
  }

  /** The failing family: from a full batch of rows on, a replace can stop with its first batch
      of deletes written. The lowest rows are gone, and the clock still claims them. */
  lemma InterruptedReplaceLosesRows(t: Tracked, m: Msg)
    requires m.Snapshot? && Dense(t.c) && t.c.clock.tail + BATCH_OPS <= t.c.clock.no
    ensures var all := Differing(t.c.held, Digests(m.held));
            var c := AfterPartial(t, m, all, Lost(t.c, 1)).c;
            && Interrupted(t.c, m, all, 1) && !Dense(c) && c.clock == t.c.clock
            && (forall i :: c.clock.tail < i <= c.clock.tail + BATCH_OPS ==> i in t.c.journal && i !in c.journal)
  {
    var all := Differing(t.c.held, Digests(m.held));
    RunSize(t.c.journal.Keys, t.c.clock.tail, t.c.clock.no);
    PartialKeepsDense(t, m, all, 1);
  }

  /** A compaction floor computed before a newer, shorter generation landed overshoots it. */
  lemma StaleFloorOvershoots(c: Copy, generation: nat, no: nat, held: set<Bytes>, floor: nat)
    requires !StaleSnapshot(c, generation, no)
    ensures Dense(CompactTo(ReplaceWith(c, generation, no, held), floor)) <==> floor <= no
  {}

  /** A mixed copy is repaired by later events of the copy's own generation if and only if they
      touch every adopted hash whose membership the snapshot changed. */
  lemma MixedHealsIffTouched(t: Tracked, m: Msg, adopted: set<Bytes>, later: seq<Event>)
    requires m.Snapshot?
    ensures Replay(AfterPartial(t, m, adopted, {}).c.held, later) == Replay(t.c.held, later) <==>
            forall x :: x in adopted && x in Differing(t.c.held, Digests(m.held)) ==> Touched(later, x)
  {
    var held := AfterPartial(t, m, adopted, {}).c.held;
    MeetIffTouched(held, t.c.held, later);
    assert forall x :: x in Differing(held, t.c.held) <==> x in adopted && x in Differing(t.c.held, Digests(m.held));
  }

  /** The same against the origin's history: an exact copy at number s that was mixed with a
      snapshot is exact again at u if and only if the events between touch those hashes. */
  lemma MixedIsExactIffTouched(h: seq<Event>, t: Tracked, m: Msg, adopted: set<Bytes>, u: nat)
    requires m.Snapshot? && t.c.clock.no <= u <= |h| && t.c.held == Replay({}, h[..t.c.clock.no])
    ensures Replay(AfterPartial(t, m, adopted, {}).c.held, h[t.c.clock.no..u]) == Replay({}, h[..u]) <==>
            forall x :: x in adopted && x in Differing(t.c.held, Digests(m.held)) ==>
              Touched(h[t.c.clock.no..u], x)
  {
    var s := t.c.clock.no;
    MixedHealsIffTouched(t, m, adopted, h[s..u]);
    ReplayAppend({}, h[..s], h[s..u]);
    assert h[..s] + h[s..u] == h[..u];
  }

  /** The snapshot offered again leaves what an uninterrupted replace would have left, wherever
      the first attempt stopped. */
  lemma ReofferRepairs(t: Tracked, m: Msg, adopted: set<Bytes>, lost: set<nat>)
    requires m.Snapshot? && !StaleSnapshot(t.c, m.generation, m.no)
    ensures AfterSnapshot(AfterPartial(t, m, adopted, lost), m) == AfterSnapshot(t, m)
  {}

  /** An instance: events that leave the two hashes alone keep one that the clock's generation
      never had, and miss one that it has. */
  lemma MixedGenerationsStayWrong(a: Bytes, b: Bytes, later: seq<Event>)
    requires IsDigest(a) && IsDigest(b) && a != b && !Touched(later, a) && !Touched(later, b)
    ensures var t := Tracked(Copy(Clock(1, 1, 1), map[], {a}), 1, true);
            var m := Snapshot("o", 2, 1, {b}, 1, true);
            var held := AfterPartial(t, m, {a, b}, {}).c.held;
            && Interrupted(t.c, m, {a, b}, 0) && t.c.held == Replay({}, [Event(1, Have(a))])
            && b in Replay(held, later) && a !in Replay(held, later)
            && a in Replay(t.c.held, later) && b !in Replay(t.c.held, later)
  {
    var t := Tracked(Copy(Clock(1, 1, 1), map[], {a}), 1, true);
    var m := Snapshot("o", 2, 1, {b}, 1, true);
    var held := AfterPartial(t, m, {a, b}, {}).c.held;
    assert [Event(1, Have(a))][..0] == [];
    assert Differing(t.c.held, Digests(m.held)) == {a, b};
    forall x | x == a || x == b
      ensures x in Replay(held, later) <==> x in held
      ensures x in Replay(t.c.held, later) <==> x in t.c.held
    {
      TouchedHasVerdict(later, x);
      ReplayMembership(held, later, x);
      ReplayMembership(t.c.held, later, x);
    }
  }
}
