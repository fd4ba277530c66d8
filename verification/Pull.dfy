/** Answering a sync request under a byte budget (`respond_budgeted`, `journal_suffix`) and
    what the puller's rounds achieve: a suffix always connects, and rounds converge. */
module Pull {
  import opened Common
  import opened Replica
  import Mesh

  const SUFFIX_BYTES_CAP: nat := 8 * 1024 * 1024
  const RESPONSE_BYTES_CAP: nat := 24 * 1024 * 1024
  /** What one snapshot hash is charged against the response budget. */
  const HASH_BYTES: nat := 34

  datatype Body = UpToDate | Suffix(events: seq<Event>) | Snapshot(held: set<Bytes>) | ClockOnly

  datatype Update = Update(origin: string, generation: nat, no: nat, truncated: bool, body: Body)

  // ---- journal_suffix ----

  function Above(j: map<nat, Event>, after: nat): set<nat> { set k | k in j && k > after }

  /** The rows above `after` in number order. */
  function RowsAfter(j: map<nat, Event>, after: nat): seq<Event>
    decreases |Above(j, after)|
  {
    if Above(j, after) == {} then [] else
    var k := Least(Above(j, after));
    assert Above(j, k) < Above(j, after) by { assert k in Above(j, after) && k !in Above(j, k); }
    SubsetSize(Above(j, k), Above(j, after));
    [j[k]] + RowsAfter(j, k)
  }

  lemma RowsAfterNext(j: map<nat, Event>, after: nat)
    requires Above(j, after) != {}
    ensures var k := Least(Above(j, after));
            k in j && RowsAfter(j, after) == [j[k]] + RowsAfter(j, k) && |Above(j, k)| < |Above(j, after)|
  {
    var k := Least(Above(j, after));
    assert Above(j, k) < Above(j, after) by { assert k in Above(j, after) && k !in Above(j, k); }
    SubsetSize(Above(j, k), Above(j, after));
  }

  /** How many of `rows` fit: stop before the row that would pass the cap, but never at zero. */
  function CutLen(rows: seq<Event>, i: nat, bytes: nat, cap: nat, size: Event -> nat): (n: nat)
    requires i <= |rows|
    ensures i <= n <= |rows|
    ensures i == 0 && rows != [] ==> n > 0
    decreases |rows| - i
  {
    if i == |rows| || (i > 0 && bytes + size(rows[i]) > cap) then i
    else CutLen(rows, i + 1, bytes + size(rows[i]), cap, size)
  }

  function Cut(c: Copy, after: nat, cap: nat, size: Event -> nat): seq<Event> {
    var rows := RowsAfter(c.journal, after);
    rows[..CutLen(rows, 0, 0, cap, size)]
  }

  function Bytesize(es: seq<Event>, size: Event -> nat): nat
    decreases |es|
  {
    if es == [] then 0 else Bytesize(es[..|es| - 1], size) + size(es[|es| - 1])
  }

  lemma BytesizeNext(rows: seq<Event>, i: nat, size: Event -> nat)
    requires i < |rows|
    ensures Bytesize(rows[..i + 1], size) == Bytesize(rows[..i], size) + size(rows[i])
  {
    assert rows[..i + 1][..|rows[..i + 1]| - 1] == rows[..i];
  }

  /** The rows kept fit the cap unless only one is kept; one more would not have fitted. */
  ghost predicate CutFits(rows: seq<Event>, n: nat, cap: nat, size: Event -> nat) {
    && n <= |rows| && (n <= 1 || Bytesize(rows[..n], size) <= cap)
    && (n < |rows| ==> Bytesize(rows[..n + 1], size) > cap)
  }

  lemma {:induction false} CutLenFits(rows: seq<Event>, i: nat, bytes: nat, cap: nat, size: Event -> nat)
    requires i <= |rows| && bytes == Bytesize(rows[..i], size) && (i <= 1 || bytes <= cap)
    ensures CutFits(rows, CutLen(rows, i, bytes, cap, size), cap, size)
    decreases |rows| - i
  {
    if i < |rows| {
      BytesizeNext(rows, i, size);
      if i == 0 || bytes + size(rows[i]) <= cap { CutLenFits(rows, i + 1, bytes + size(rows[i]), cap, size); }
    }
  }

  // ---- respond_ranges ----

  const RANGE_BYTES_CAP: nat := 2 * 1024 * 1024
  const RANGE_ASKS_MAX: nat := 16

  datatype RangeAsk = RangeAsk(origin: string, generation: nat, after: nat, until: nat)
  datatype RangeReply = RangeReply(origin: string, generation: nat, after: nat, events: seq<Event>, reachable: bool)

  /** The leading rows numbered at most `until`. */
  function UpTo(es: seq<Event>, until: nat): seq<Event>
    decreases |es|
  {
    if es == [] || es[0].no > until then [] else [es[0]] + UpTo(es[1..], until)
  }

  predicate Reachable(c: Clock, a: RangeAsk) { c.generation == a.generation && c.tail <= a.after < a.until }

  function AnswerRange(c: Copy, a: RangeAsk, size: Event -> nat): RangeReply {
    RangeReply(a.origin, c.clock.generation, a.after,
               if Reachable(c.clock, a) then UpTo(Cut(c, a.after, RANGE_BYTES_CAP, size), a.until)
                 else [], Reachable(c.clock, a))
  }

  lemma {:induction false} UpToConsecutive(es: seq<Event>, after: nat, until: nat)
    requires after <= until && forall i :: 0 <= i < |es| ==> es[i].no == after + 1 + i
    ensures UpTo(es, until) == es[..Min(|es|, until - after)]
    decreases |es|
  {
    if es != [] && after < until {
      var rest := es[1..];
      assert forall i :: 0 <= i < |rest| ==> rest[i] == es[i + 1];
      UpToConsecutive(rest, after + 1, until);
      assert es[..Min(|es|, until - after)] == [es[0]] + rest[..Min(|rest|, until - after - 1)];
    }
  }

  // ---- respond_budgeted ----

  predicate Behind(generation: nat, no: nat, c: Clock) {
    c.generation > 0 && (generation < c.generation || (generation == c.generation && no < c.no))
  }

  /** The answer for one origin, None when we have nothing useful; and what it costs. */
  function Answer(o: string, c: Copy, g: nat, n: nat, skipped: bool, full: bool, size: Event -> nat): (Option<Update>,
                  nat) {
    var k := c.clock;
    if k.generation == 0 || g > k.generation then (None, 0)
    else if g == k.generation && n >= k.no then (Some(Update(o, k.generation, k.no, false, UpToDate)), 0)
    else if skipped then (Some(Update(o, k.generation, k.no, false, ClockOnly)), 0)
    else if full then (Some(Update(o, k.generation, k.no, true, Suffix([]))), 0)
    else if g == k.generation && n >= k.tail then
      var es := Cut(c, n, SUFFIX_BYTES_CAP, size);
      (Some(Update(o, k.generation, k.no, |es| < |RowsAfter(c.journal, n)|, Suffix(es))), Bytesize(es, size))
    else (Some(Update(o, k.generation, k.no, false, Snapshot(c.held))), |c.held| * HASH_BYTES)
  }

  function HaveOf(have: map<string, (nat, nat)>, o: string): (nat, nat) {
    if o in have then have[o] else (0, 0)
  }

  function Stored(copies: map<string, Copy>, o: string): Copy {
    if o in copies then copies[o] else ZERO_COPY
  }

  /** The answer for an origin, given whether the response is already at its budget. */
  type Answers = (string, bool) -> (Option<Update>, nat)

  function AnswersOf(copies: map<string, Copy>, have: map<string, (nat, nat)>, skip: set<string>,
                     size: Event -> nat): Answers {
    (o: string, full: bool) => Answer(o, Stored(copies, o), HaveOf(have, o).0, HaveOf(have, o).1, o in skip, full, size)
  }

  /** The updates for `names`, in order, when `used` bytes are already spent. */
  function RespondFrom(names: seq<string>, answers: Answers, used: nat, budget: nat): seq<Update>
    decreases |names|
  {
    if names == [] then [] else
    var (u, cost) := answers(names[0], used >= budget);
    (if u.Some? then [u.value] else []) + RespondFrom(names[1..], answers, used + cost, budget)
  }

  lemma RespondNext(names: seq<string>, answers: Answers, i: nat, used: nat, budget: nat)
    requires i < |names|
    ensures var (u, cost) := answers(names[i], used >= budget);
            RespondFrom(names[i..], answers, used, budget)
            == (if u.Some? then [u.value] else []) + RespondFrom(names[i + 1..], answers, used + cost, budget)
  {
    assert names[i..][0] == names[i] && names[i..][1..] == names[i + 1..];
  }

  // ---- the puller ----

  function Receive(c: Copy, u: Update): Copy {
    match u.body
    case UpToDate => c
    case ClockOnly => c
    case Suffix(events) => ApplyRead(c, c.clock.generation, c.clock.no, u.generation, events)
    case Snapshot(held) => ReplaceWith(c, u.generation, u.no, held)
  }

  /** The puller's copies of other origins; its own origin is not among them. */
  function ReceiveAll(mine: map<string, Copy>, us: seq<Update>): map<string, Copy>
    decreases |us|
  {
    if us == [] then mine
    else ReceiveAll(if us[0].origin in mine then mine[us[0].origin := Receive(mine[us[0].origin], us[0])]
      else mine, us[1..])
  }

  function Clocks(mine: map<string, Copy>, own: map<string, (nat, nat)>): map<string, (nat, nat)> {
    own + map o | o in mine :: (mine[o].clock.generation, mine[o].clock.no)
  }

  // ---- a dense journal's suffix connects ----

  ghost predicate Numbered(j: map<nat, Event>) { forall i :: i in j ==> j[i].no == i }

  lemma {:induction false} DenseRows(c: Copy, after: nat)
    requires Mesh.Dense(c) && Numbered(c.journal) && c.clock.tail <= after <= c.clock.no
    ensures var rows := RowsAfter(c.journal, after);
            |rows| == c.clock.no - after &&
            forall i :: 0 <= i < |rows| ==> after + 1 + i in c.journal && rows[i] == c.journal[after + 1 + i]
    decreases c.clock.no - after
  {
    if after < c.clock.no {
      var s := Above(c.journal, after);
      assert after + 1 in s;
      assert Least(s) == after + 1;
      DenseRows(c, after + 1);
      assert RowsAfter(c.journal, after) == [c.journal[after + 1]] + RowsAfter(c.journal, after + 1);
    } else {
      assert Above(c.journal, after) == {};
    }
  }

  /** Ascending new rows connect if and only if they continue the clock without a gap. */
  lemma {:induction false} ConnectsIffContiguous(b: Batch, events: seq<Event>)
    requires forall i :: 0 <= i < |events| ==> events[i].no > b.no
    requires forall i, j :: 0 <= i < j < |events| ==> events[i].no < events[j].no
    ensures Scan(b, events).Some? <==> forall i :: 0 <= i < |events| ==> events[i].no == b.no + 1 + i
    ensures Scan(b, events).Some? ==> Scan(b, events).value.no == b.no + |events|
                                      && |Scan(b, events).value.rows| == |b.rows| + |events|
    decreases |events|
  {
    if events != [] {
      var rest := events[1..];
      if events[0].no == b.no + 1 {
        var b' := Extend(b, events[0]);
        assert forall i :: 0 <= i < |rest| ==> rest[i] == events[i + 1];
        ConnectsIffContiguous(b', rest);
        if Scan(b', rest).Some? {
          forall i | 0 <= i < |events| ensures events[i].no == b.no + 1 + i {
            if i > 0 { assert events[i] == rest[i - 1]; }
          }
        }
      }
    }
  }

  /** A suffix cut from a dense journal for a requester at or above its tail is applied
      whole: the requester's clock moves by exactly the number of rows sent. */
  lemma SuffixConnects(mine: Copy, theirs: Copy, cap: nat, size: Event -> nat)
    requires Mesh.Dense(theirs) && Numbered(theirs.journal)
    requires mine.clock.generation == theirs.clock.generation
    requires theirs.clock.tail <= mine.clock.no <= theirs.clock.no
    ensures var es := Cut(theirs, mine.clock.no, cap, size);
            var got := ApplyRead(mine, mine.clock.generation, mine.clock.no, theirs.clock.generation, es);
            && PlanSuffix(mine.clock.generation, mine.clock.no, theirs.clock.generation, es) != Gap
            && got.clock.generation == mine.clock.generation && got.clock.no == mine.clock.no + |es|
            && (mine.clock.no < theirs.clock.no ==> |es| > 0) && |es| <= theirs.clock.no - mine.clock.no
  {
    var rows := RowsAfter(theirs.journal, mine.clock.no);
    DenseRows(theirs, mine.clock.no);
    var es := Cut(theirs, mine.clock.no, cap, size);
    assert forall i :: 0 <= i < |es| ==> es[i] == rows[i];
    assert forall i :: 0 <= i < |es| ==> es[i].no == mine.clock.no + 1 + i;
    ConnectsIffContiguous(Batch([], [], [], mine.clock.no), es);
  }

  /** Rows of an interrupted replace: exactly those above `low`, while the tail stayed below. */
  ghost predicate CutBelow(c: Copy, low: nat) {
    c.clock.tail <= low <= c.clock.no && Numbered(c.journal) && forall i :: i in c.journal <==> low < i <= c.clock.no
  }

  lemma RowsAboveLow(c: Copy, low: nat, after: nat)
    requires CutBelow(c, low) && after <= low
    ensures RowsAfter(c.journal, after) == RowsAfter(c.journal, low)
  {
    assert Above(c.journal, after) == Above(c.journal, low);
    if low < c.clock.no {
      assert low + 1 in Above(c.journal, low);
      RowsAfterNext(c.journal, after);
      RowsAfterNext(c.journal, low);
    }
  }

  /** For whom such a copy still works: a requester whom it answers with a suffix moves forward
      if and only if it is at or above the lost rows. Below them it meets a gap, and nothing at
      all when every row was lost. */
  lemma InterruptedSuffix(mine: Copy, theirs: Copy, low: nat, cap: nat, size: Event -> nat)
    requires CutBelow(theirs, low) && mine.clock.generation == theirs.clock.generation
    requires theirs.clock.tail <= mine.clock.no < theirs.clock.no
    ensures var es := Cut(theirs, mine.clock.no, cap, size);
            var plan := PlanSuffix(mine.clock.generation, mine.clock.no, theirs.clock.generation, es);
            var got := ApplyRead(mine, mine.clock.generation, mine.clock.no, theirs.clock.generation, es);
            && (plan == Gap <==> mine.clock.no < low < theirs.clock.no)
            && (got.clock.no > mine.clock.no <==> low <= mine.clock.no)
            && (low == theirs.clock.no ==> es == [])
  {
    var above := theirs.(clock := theirs.clock.(tail := low));
    var es := Cut(theirs, mine.clock.no, cap, size);
    assert Mesh.Dense(above);
    if low <= mine.clock.no {
      SuffixConnects(mine, above, cap, size);
    } else {
      RowsAboveLow(theirs, low, mine.clock.no);
      DenseRows(above, low);
      var rows := RowsAfter(theirs.journal, mine.clock.no);
      if rows != [] { assert es[0] == rows[0] == theirs.journal[low + 1]; }
    }
  }

  /** In the mesh: after a replace of a gapless copy stopped with `batches` of deletes written,
      exactly the requesters at or above the deleted rows can still follow its journal. */
  lemma WhoStillConnects(t: Mesh.Tracked, m: Mesh.Msg, adopted: set<Bytes>, batches: nat, mine: Copy, cap: nat,
                         size: Event -> nat)
    requires m.Snapshot? && Mesh.Dense(t.c) && Numbered(t.c.journal) && Mesh.Interrupted(t.c, m, adopted, batches)
    requires mine.clock.generation == t.c.clock.generation && t.c.clock.tail <= mine.clock.no < t.c.clock.no
    ensures var theirs := Mesh.AfterPartial(t, m, adopted, Mesh.Lost(t.c, batches)).c;
            var es := Cut(theirs, mine.clock.no, cap, size);
            var got := ApplyRead(mine, mine.clock.generation, mine.clock.no, theirs.clock.generation, es);
            got.clock.no > mine.clock.no <==> t.c.clock.tail + batches * BATCH_OPS <= mine.clock.no
  {
    Mesh.PartialKeepsDense(t, m, adopted, batches);
    var theirs := Mesh.AfterPartial(t, m, adopted, Mesh.Lost(t.c, batches)).c;
    InterruptedSuffix(mine, theirs, t.c.clock.tail + batches * BATCH_OPS, cap, size);
  }

  /** A reachable range of a dense journal is answered with the numbers that follow `after` one
      by one, never past `until`, and with at least one of them when the responder has any. */
  lemma RangeReplyFits(c: Copy, a: RangeAsk, size: Event -> nat)
    requires Mesh.Dense(c) && Numbered(c.journal)
    ensures var r := AnswerRange(c, a, size);
            && (forall i :: 0 <= i < |r.events| ==>
                 r.events[i].no == a.after + 1 + i && a.after + 1 + i in c.journal
                 && r.events[i] == c.journal[a.after + 1 + i])
            && (r.events != [] ==> a.after + |r.events| <= Min(a.until, c.clock.no))
            && (r.events != [] <==> r.generation == a.generation && c.clock.tail <= a.after < Min(a.until, c.clock.no))
  {
    var es := Cut(c, a.after, RANGE_BYTES_CAP, size);
    if Reachable(c.clock, a) {
      if a.after < c.clock.no {
        DenseRows(c, a.after);
        assert forall i :: 0 <= i < |es| ==> es[i] == c.journal[a.after + 1 + i];
        UpToConsecutive(es, a.after, a.until);
      } else {
        assert Above(c.journal, a.after) == {};
        assert es == [];
      }
    }
  }

  // ---- convergence ----

  /** How far a copy is behind, in events; a stale generation costs one snapshot. */
  function Lag(mine: Clock, theirs: Clock): nat {
    if !Behind(mine.generation, mine.no, theirs) then 0
    else if mine.generation == theirs.generation then theirs.no - mine.no
    else theirs.no + 1
  }

  ghost predicate NotAhead(mine: Clock, theirs: Clock) {
    mine.generation < theirs.generation || (mine.generation == theirs.generation && mine.no <= theirs.no)
  }

  ghost predicate Servable(c: Copy) { Mesh.Dense(c) && Numbered(c.journal) }

  /** Both sides of the pull hold exact folds of one history of the origin. */
  ghost predicate Sound(hist: map<Mesh.Era, seq<Event>>, o: string, c: Copy) {
    Mesh.TrackedOk(hist, o, Mesh.Tracked(c, c.clock.no, true))
  }

  lemma AnswerHelps(o: string, mine: Copy, theirs: Copy, skipped: bool, full: bool, size: Event -> nat)
    requires Servable(theirs)
    ensures var (u, cost) := Answer(o, theirs, mine.clock.generation, mine.clock.no, skipped, full, size);
            var got := if u.Some? then Receive(mine, u.value) else mine;
            && (u.Some? ==> u.value.origin == o)
            && Lag(got.clock, theirs.clock) <= Lag(mine.clock, theirs.clock)
            && (!full && !skipped && Behind(mine.clock.generation, mine.clock.no, theirs.clock) ==>
                  Lag(got.clock, theirs.clock) < Lag(mine.clock, theirs.clock))
            && (cost > 0 ==> Lag(got.clock, theirs.clock) < Lag(mine.clock, theirs.clock))
            && (!Behind(mine.clock.generation, mine.clock.no, theirs.clock) ==> cost == 0 && got == mine)
            && (NotAhead(mine.clock, theirs.clock) ==> NotAhead(got.clock, theirs.clock))
  {
    if mine.clock.generation == theirs.clock.generation && theirs.clock.tail <= mine.clock.no <= theirs.clock.no {
      SuffixConnects(mine, theirs, SUFFIX_BYTES_CAP, size);
    }
  }

  /** What a line's flag says. Unless the origin is skipped, the requester lags after applying the
      line exactly when the line is flagged; a flagged line that carries rows brings it nearer. A
      skipped origin's line is never flagged and changes nothing. */
  lemma FlagMeansLeft(o: string, mine: Copy, theirs: Copy, skipped: bool, full: bool, size: Event -> nat)
    requires Servable(theirs)
    ensures var u := Answer(o, theirs, mine.clock.generation, mine.clock.no, skipped, full, size).0;
            var got := if u.Some? then Receive(mine, u.value) else mine;
            && (skipped ==> got == mine && (u.Some? ==> !u.value.truncated))
            && (!skipped ==>
                  (Behind(got.clock.generation, got.clock.no, theirs.clock) <==> u.Some? && u.value.truncated))
            && (u.Some? && u.value.truncated ==>
                  u.value.body.Suffix?
                  && (u.value.body.events != [] ==> Lag(got.clock, theirs.clock) < Lag(mine.clock, theirs.clock))
                  && (u.value.body.events == [] ==> full))
  {
    var k := theirs.clock;
    if mine.clock.generation == k.generation && k.tail <= mine.clock.no <= k.no {
      SuffixConnects(mine, theirs, SUFFIX_BYTES_CAP, size);
      DenseRows(theirs, mine.clock.no);
    }
  }

  lemma AnswerSound(hist: map<Mesh.Era, seq<Event>>, o: string, mine: Copy, theirs: Copy, skipped: bool, full: bool,
                    size: Event -> nat)
    requires Mesh.HistOk(hist) && (o, 0) in hist && Sound(hist, o, mine) && Sound(hist, o, theirs) && Servable(theirs)
    ensures var u := Answer(o, theirs, mine.clock.generation, mine.clock.no, skipped, full, size).0;
            Sound(hist, o, if u.Some? then Receive(mine, u.value) else mine)
  {
    var u := Answer(o, theirs, mine.clock.generation, mine.clock.no, skipped, full, size).0;
    if u.Some? && u.value.body.Suffix? {
      var es := u.value.body.events;
      forall e | e in es ensures FromHistory(hist[(o, u.value.generation)], e) {
        if theirs.clock.tail <= mine.clock.no <= theirs.clock.no { DenseRows(theirs, mine.clock.no); }
      }
      SuffixSound(hist, o, mine, u.value.generation, es);
    } else if u.Some? && u.value.body.Snapshot? {
      SnapshotSound(hist, o, mine, theirs);
    }
  }

  lemma SuffixSound(hist: map<Mesh.Era, seq<Event>>, o: string, mine: Copy, generation: nat, es: seq<Event>)
    requires Mesh.HistOk(hist) && (o, 0) in hist && Sound(hist, o, mine)
    requires generation > 0 && (o, generation) in hist && forall e :: e in es ==> FromHistory(hist[(o, generation)], e)
    ensures Sound(hist, o, ApplyRead(mine, mine.clock.generation, mine.clock.no, generation, es))
  {
    var t, m := Mesh.Tracked(mine, mine.clock.no, true), Mesh.Rows(o, generation, es);
    Mesh.RowsKeep(hist, o, t, mine.clock.generation, mine.clock.no, m);
    Mesh.AfterRowsIsApplyRead(t, mine.clock.generation, mine.clock.no, m);
    Mesh.ScanAdvances(Batch([], [], [], mine.clock.no), es);
  }

  lemma SnapshotSound(hist: map<Mesh.Era, seq<Event>>, o: string, mine: Copy, theirs: Copy)
    requires Sound(hist, o, mine) && Sound(hist, o, theirs) && theirs.clock.generation > 0
    ensures Sound(hist, o, ReplaceWith(mine, theirs.clock.generation, theirs.clock.no, theirs.held))
  {
    var k := theirs.clock;
    Mesh.SnapshotKeep(hist, o, Mesh.Tracked(mine, mine.clock.no, true),
                      Mesh.Snapshot(o, k.generation, k.no, theirs.held, k.no, true));
  }

  function LagOf(mine: map<string, Copy>, theirs: map<string, Copy>, o: string): nat {
    if o in mine then Lag(mine[o].clock, Stored(theirs, o).clock) else 0
  }

  ghost function TotalLag(names: seq<string>, mine: map<string, Copy>, theirs: map<string, Copy>): nat
    decreases |names|
  {
    if names == [] then 0
    else LagOf(mine, theirs, names[0]) + TotalLag(names[1..], mine, theirs)
  }

  ghost predicate Distinct(names: seq<string>) {
    forall i, j :: 0 <= i < j < |names| ==> names[i] != names[j]
  }

  ghost predicate SomeBehind(names: seq<string>, mine: map<string, Copy>, theirs: map<string, Copy>) {
    exists o :: o in names && o in mine && Behind(mine[o].clock.generation, mine[o].clock.no, Stored(theirs, o).clock)
  }

  /** What one origin's copy becomes in a round, and what serving it cost. */
  type Service = (string, bool) -> (Copy, nat)

  ghost function ServiceOf(mine: map<string, Copy>, answers: Answers): Service {
    (o: string, full: bool) =>
      var (u, cost) := answers(o, full);
      (if u.Some? then Receive(Stored(mine, o), u.value) else Stored(mine, o), cost)
  }

  ghost predicate Addressed(answers: Answers) {
    forall o, full :: answers(o, full).0.Some? ==> answers(o, full).0.value.origin == o
  }

  ghost function Serve(names: seq<string>, mine: map<string, Copy>, sv: Service, used: nat, budget: nat): map<string,
                       Copy>
    decreases |names|
  {
    if names == [] then mine else
    var (c, cost) := sv(names[0], used >= budget);
    Serve(names[1..], if names[0] in mine then mine[names[0] := c] else mine, sv, used + cost, budget)
  }

  ghost predicate Agrees(names: seq<string>, now: map<string, Copy>, mine: map<string, Copy>) {
    now.Keys == mine.Keys && forall o :: o in names && o in mine ==> now[o] == mine[o]
  }

  lemma ReceiveCons(now: map<string, Copy>, u: Option<Update>, us: seq<Update>)
    ensures ReceiveAll(now, (if u.Some? then [u.value] else []) + us) ==
            ReceiveAll(if u.Some? && u.value.origin in now
              then now[u.value.origin := Receive(now[u.value.origin], u.value)] else now, us)
  {
    if u.Some? {
      assert ([u.value] + us)[1..] == us;
    } else {
      assert [] + us == us;
    }
  }

  lemma ServiceMeaning(now: map<string, Copy>, mine: map<string, Copy>, answers: Answers, o: string, full: bool)
    requires Addressed(answers) && now.Keys == mine.Keys && (o in mine ==> now[o] == mine[o])
    ensures var u := answers(o, full).0;
            (if o in now then now[o := ServiceOf(mine, answers)(o, full).0] else now) ==
            (if u.Some? && u.value.origin in now then now[u.value.origin := Receive(now[u.value.origin], u.value)]
              else now)
  {
    if o in now { assert now[o := now[o]] == now; }
  }

  lemma AgreesTail(names: seq<string>, now: map<string, Copy>, mine: map<string, Copy>, c: Copy)
    requires names != [] && Distinct(names) && Agrees(names, now, mine)
    ensures Distinct(names[1..]) && names[0] !in names[1..]
    ensures Agrees(names[1..], if names[0] in now then now[names[0] := c] else now, mine)
  {}

  ghost predicate DeliveredAs(names: seq<string>, now: map<string, Copy>, us: seq<Update>, sv: Service, used: nat,
                              budget: nat) {
    ReceiveAll(now, us) == Serve(names, now, sv, used, budget)
  }

  /** Sending the updates and applying them in order serves the origins one after the other. */
  lemma {:induction false} RespondIsServe(names: seq<string>, now: map<string, Copy>, mine: map<string, Copy>,
                                          answers: Answers, used: nat, budget: nat)
    requires Distinct(names) && Agrees(names, now, mine) && Addressed(answers)
    ensures DeliveredAs(names, now, RespondFrom(names, answers, used, budget), ServiceOf(mine, answers), used, budget)
    decreases |names|
  {
    if names != [] {
      var o, full := names[0], used >= budget;
      var c, cost := ServiceOf(mine, answers)(o, full).0, answers(o, full).1;
      var next := if o in now then now[o := c] else now;
      assert now.Keys == mine.Keys && (o in mine ==> now[o] == mine[o]) by { assert o in names; }
      AgreesTail(names, now, mine, c);
      RespondIsServe(names[1..], next, mine, answers, used + cost, budget);
      DeliverFirst(names, now, mine, answers, used, budget);
    }
  }

  lemma DeliverFirst(names: seq<string>, now: map<string, Copy>, mine: map<string, Copy>, answers: Answers, used: nat,
                     budget: nat)
    requires names != [] && Addressed(answers) && now.Keys == mine.Keys
             && (names[0] in mine ==> now[names[0]] == mine[names[0]])
    requires var c, cost := ServiceOf(mine, answers)(names[0], used >= budget).0, answers(names[0], used >= budget).1;
             DeliveredAs(names[1..], if names[0] in now then now[names[0] := c] else now,
                         RespondFrom(names[1..], answers, used + cost, budget), ServiceOf(mine, answers), used + cost,
                           budget)
    ensures DeliveredAs(names, now, RespondFrom(names, answers, used, budget), ServiceOf(mine, answers), used, budget)
  {
    var o, full := names[0], used >= budget;
    var (u, cost) := answers(o, full);
    ServiceMeaning(now, mine, answers, o, full);
    ReceiveCons(now, u, RespondFrom(names[1..], answers, used + cost, budget));
  }

  ghost predicate Helps(names: seq<string>, mine: map<string, Copy>, theirs: map<string, Copy>, skip: set<string>,
                        sv: Service) {
    && (forall o, full :: o in names && o in mine ==>
         Lag(sv(o, full).0.clock, Stored(theirs, o).clock) <= Lag(mine[o].clock, Stored(theirs, o).clock))
    && (forall o :: o in names && o in mine && o !in skip && Lag(mine[o].clock, Stored(theirs, o).clock) > 0 ==>
          Lag(sv(o, false).0.clock, Stored(theirs, o).clock) < Lag(mine[o].clock, Stored(theirs, o).clock))
    && (forall o, full :: o in names && sv(o, full).1 > 0 ==>
         o in mine && Lag(sv(o, full).0.clock, Stored(theirs, o).clock) < Lag(mine[o].clock, Stored(theirs, o).clock))
  }

  lemma {:induction false} LagUnchanged(names: seq<string>, now: map<string, Copy>, mine: map<string, Copy>,
                                        theirs: map<string, Copy>)
    requires Agrees(names, now, mine)
    ensures TotalLag(names, mine, theirs) == TotalLag(names, now, theirs)
    decreases |names|
  {
    if names != [] { LagUnchanged(names[1..], now, mine, theirs); }
  }

  lemma {:induction false} ServeOther(names: seq<string>, now: map<string, Copy>, sv: Service, used: nat, budget: nat,
                                      o: string)
    requires Distinct(names) && o in now
    ensures Serve(names, now, sv, used, budget).Keys == now.Keys
    ensures o !in names ==> Serve(names, now, sv, used, budget)[o] == now[o]
    ensures o in names ==> exists full :: Serve(names, now, sv, used, budget)[o] == sv(o, full).0
    decreases |names|
  {
    if names != [] {
      var x := names[0];
      var (c, cost) := sv(x, used >= budget);
      var next := if x in now then now[x := c] else now;
      assert forall y :: y in names[1..] ==> y in names && y != x;
      ServeOther(names[1..], next, sv, used + cost, budget, o);
    }
  }

  /** Origin x comes first: what a service of the whole list gains. */
  lemma ServeFirst(names: seq<string>, mine: map<string, Copy>, theirs: map<string, Copy>, skip: set<string>,
                   sv: Service, used: nat, budget: nat)
    requires names != [] && Distinct(names) && Helps(names, mine, theirs, skip, sv)
    ensures var o, rest := names[0], names[1..];
            var (c, cost) := sv(o, used >= budget);
            var next := if o in mine then mine[o := c] else mine;
            && Distinct(rest) && o !in rest && Helps(rest, next, theirs, skip, sv)
            && next.Keys == mine.Keys && (forall x :: x in rest && x in mine ==> next[x] == mine[x])
            && TotalLag(names, Serve(names, mine, sv, used, budget), theirs)
               == LagOf(next, theirs, o) + TotalLag(rest, Serve(rest, next, sv, used + cost, budget), theirs)
            && TotalLag(names, mine, theirs) == LagOf(mine, theirs, o) + TotalLag(rest, next, theirs)
            && LagOf(next, theirs, o) <= LagOf(mine, theirs, o)
            && (cost > 0 ==> LagOf(next, theirs, o) < LagOf(mine, theirs, o))
  {
    var o, rest := names[0], names[1..];
    var (c, cost) := sv(o, used >= budget);
    var next := if o in mine then mine[o := c] else mine;
    assert o in names && forall x :: x in rest ==> x in names && x != o;
    LagUnchanged(rest, next, mine, theirs);
    ServeKeys(rest, next, sv, used + cost, budget);
    if o in mine { ServeOther(rest, next, sv, used + cost, budget, o); }
  }

  /** No origin loses ground in a round. */
  lemma {:induction false} RoundLosesNothing(names: seq<string>, mine: map<string, Copy>, theirs: map<string, Copy>,
                                             skip: set<string>, sv: Service, used: nat, budget: nat)
    requires Distinct(names) && Helps(names, mine, theirs, skip, sv)
    ensures TotalLag(names, Serve(names, mine, sv, used, budget), theirs) <= TotalLag(names, mine, theirs)
    decreases |names|
  {
    if names != [] {
      var (c, cost) := sv(names[0], used >= budget);
      ServeFirst(names, mine, theirs, skip, sv, used, budget);
      RoundLosesNothing(names[1..], if names[0] in mine then mine[names[0] := c] else mine, theirs, skip, sv,
                        used + cost, budget);
    }
  }

  /** With budget left, and origin x behind and not skipped, a round gains: x is served unless
      something before it cost bytes, and that was no waste. */
  lemma {:induction false} RoundProgress(names: seq<string>, mine: map<string, Copy>, theirs: map<string, Copy>,
                                         skip: set<string>, sv: Service, used: nat, budget: nat, x: string)
    requires Distinct(names) && Helps(names, mine, theirs, skip, sv)
    requires used < budget && x in names && x !in skip && LagOf(mine, theirs, x) > 0
    ensures TotalLag(names, Serve(names, mine, sv, used, budget), theirs) < TotalLag(names, mine, theirs)
    decreases |names|
  {
    var o := names[0];
    var (c, cost) := sv(o, used >= budget);
    var next := if o in mine then mine[o := c] else mine;
    ServeFirst(names, mine, theirs, skip, sv, used, budget);
    if o != x && used + cost < budget {
      RoundProgress(names[1..], next, theirs, skip, sv, used + cost, budget, x);
    } else {
      RoundLosesNothing(names[1..], next, theirs, skip, sv, used + cost, budget);
    }
  }

  /** The response to a request in which the origins of `skip` are to be left out. */
  function Response(names: seq<string>, mine: map<string, Copy>, own: map<string, (nat, nat)>,
                    theirs: map<string, Copy>, skip: set<string>, budget: nat, size: Event -> nat): seq<Update> {
    RespondFrom(names, AnswersOf(theirs, Clocks(mine, own), skip, size), 0, budget)
  }

  function Round(names: seq<string>, mine: map<string, Copy>, own: map<string, (nat, nat)>, theirs: map<string, Copy>,
                 skip: set<string>, budget: nat, size: Event -> nat): map<string, Copy> {
    ReceiveAll(mine, Response(names, mine, own, theirs, skip, budget, size))
  }

  function Rounds(names: seq<string>, mine: map<string, Copy>, own: map<string, (nat, nat)>, theirs: map<string, Copy>,
                  budget: nat, size: Event -> nat, k: nat): map<string, Copy>
    decreases k
  {
    if k == 0 then mine
    else Round(names, Rounds(names, mine, own, theirs, budget, size, k - 1), own, theirs, {}, budget, size)
  }

  /** What a pull needs of both sides: a quiescent responder with servable journals, a shared set of
      names, and sound copies. Either side may be ahead on any origin. */
  ghost predicate Ready(names: seq<string>, mine: map<string, Copy>, own: map<string, (nat, nat)>,
                        theirs: map<string, Copy>, hist: map<Mesh.Era, seq<Event>>) {
    && Distinct(names) && Mesh.HistOk(hist) && mine.Keys !! own.Keys
    && (forall o :: o in names ==> Servable(Stored(theirs, o)) && (o in mine || o in own))
    && (forall o :: o in mine ==> o in names && (o, 0) in hist && Sound(hist, o, mine[o])
                                  && Sound(hist, o, Stored(theirs, o)))
  }

  /** The responder knows no future of the puller's own origin. */
  ghost predicate OwnKept(own: map<string, (nat, nat)>, theirs: map<string, Copy>) {
    forall o :: o in own ==> !Behind(own[o].0, own[o].1, Stored(theirs, o).clock)
  }

  /** What a round, or several, may do to a copy: bring it nearer to the responder's clock k, not past
      it, and leave it alone when it is not behind. */
  ghost predicate Kept(was: Copy, now: Copy, k: Clock) {
    && (NotAhead(was.clock, k) ==> NotAhead(now.clock, k))
    && (!Behind(was.clock.generation, was.clock.no, k) ==> now == was)
    && Lag(now.clock, k) <= Lag(was.clock, k)
  }

  ghost predicate AllKept(was: map<string, Copy>, now: map<string, Copy>, theirs: map<string, Copy>) {
    was.Keys == now.Keys && forall o :: o in was ==> Kept(was[o], now[o], Stored(theirs, o).clock)
  }

  lemma KeptTransitive(a: Copy, b: Copy, c: Copy, k: Clock)
    requires Kept(a, b, k) && Kept(b, c, k)
    ensures Kept(a, c, k)
  {}

  lemma AllKeptTransitive(a: map<string, Copy>, b: map<string, Copy>, c: map<string, Copy>, theirs: map<string, Copy>)
    requires AllKept(a, b, theirs) && AllKept(b, c, theirs)
    ensures AllKept(a, c, theirs)
  {
    forall o | o in a ensures Kept(a[o], c[o], Stored(theirs, o).clock) {
      KeptTransitive(a[o], b[o], c[o], Stored(theirs, o).clock);
    }
  }

  lemma {:induction false} KeptLags(names: seq<string>, was: map<string, Copy>, now: map<string, Copy>,
                                    theirs: map<string, Copy>)
    requires AllKept(was, now, theirs)
    ensures TotalLag(names, now, theirs) <= TotalLag(names, was, theirs)
    decreases |names|
  {
    if names != [] { KeptLags(names[1..], was, now, theirs); }
  }

  lemma ServiceIsAnswer(mine: map<string, Copy>, own: map<string, (nat, nat)>, theirs: map<string, Copy>,
                        skip: set<string>, size: Event -> nat, o: string, full: bool)
    requires o in mine || o in own
    ensures var have := if o in mine then (mine[o].clock.generation, mine[o].clock.no) else own[o];
            var (u, cost) := Answer(o, Stored(theirs, o), have.0, have.1, o in skip, full, size);
            AnswersOf(theirs, Clocks(mine, own), skip, size)(o, full) == (u, cost) &&
            ServiceOf(mine, AnswersOf(theirs, Clocks(mine, own), skip, size))(o, full)
            == (if u.Some? then Receive(Stored(mine, o), u.value) else Stored(mine, o), cost)
  {
    var have := if o in mine then (mine[o].clock.generation, mine[o].clock.no) else own[o];
    assert HaveOf(Clocks(mine, own), o) == have;
    assert AnswersOf(theirs, Clocks(mine, own), skip, size)(o, full)
      == Answer(o, Stored(theirs, o), have.0, have.1, o in skip, full, size);
  }

  lemma ServiceHelpsOne(names: seq<string>, mine: map<string, Copy>, own: map<string, (nat, nat)>,
                        theirs: map<string, Copy>, skip: set<string>,
                        size: Event -> nat, hist: map<Mesh.Era, seq<Event>>, o: string, full: bool, sv: (Copy, nat))
    requires Ready(names, mine, own, theirs, hist) && o in mine
    requires sv == ServiceOf(mine, AnswersOf(theirs, Clocks(mine, own), skip, size))(o, full)
    ensures var (c, cost, k) := (sv.0, sv.1, Stored(theirs, o).clock);
            && Lag(c.clock, k) <= Lag(mine[o].clock, k)
            && (!full && o !in skip && Lag(mine[o].clock, k) > 0 ==> Lag(c.clock, k) < Lag(mine[o].clock, k))
            && (cost > 0 ==> Lag(c.clock, k) < Lag(mine[o].clock, k))
            && Kept(mine[o], c, k) && Sound(hist, o, c)
  {
    ServiceIsAnswer(mine, own, theirs, skip, size, o, full);
    AnswerHelps(o, mine[o], Stored(theirs, o), o in skip, full, size);
    AnswerSound(hist, o, mine[o], Stored(theirs, o), o in skip, full, size);
  }

  lemma OwnCostsNothing(names: seq<string>, mine: map<string, Copy>, own: map<string, (nat, nat)>,
                        theirs: map<string, Copy>, skip: set<string>,
                        size: Event -> nat, hist: map<Mesh.Era, seq<Event>>, o: string, full: bool)
    requires Ready(names, mine, own, theirs, hist) && OwnKept(own, theirs) && o in names && o !in mine
    ensures ServiceOf(mine, AnswersOf(theirs, Clocks(mine, own), skip, size))(o, full).1 == 0
  {
    ServiceIsAnswer(mine, own, theirs, skip, size, o, full);
  }

  /** What any service may do to a copy. */
  ghost predicate Careful(mine: map<string, Copy>, theirs: map<string, Copy>, hist: map<Mesh.Era, seq<Event>>,
                          sv: Service) {
    forall o, full :: o in mine ==>
      Kept(mine[o], sv(o, full).0, Stored(theirs, o).clock) && Sound(hist, o, sv(o, full).0)
  }

  lemma ServiceIsCareful(names: seq<string>, mine: map<string, Copy>, own: map<string, (nat, nat)>,
                         theirs: map<string, Copy>, skip: set<string>, size: Event -> nat,
                         hist: map<Mesh.Era, seq<Event>>, sv: Service)
    requires Ready(names, mine, own, theirs, hist)
    requires sv == ServiceOf(mine, AnswersOf(theirs, Clocks(mine, own), skip, size))
    ensures Careful(mine, theirs, hist, sv)
  {
    forall o, full | o in mine
      ensures Kept(mine[o], sv(o, full).0, Stored(theirs, o).clock) && Sound(hist, o, sv(o, full).0)
    {
      ServiceHelpsOne(names, mine, own, theirs, skip, size, hist, o, full, sv(o, full));
    }
  }

  lemma ServiceHelps(names: seq<string>, mine: map<string, Copy>, own: map<string, (nat, nat)>,
                     theirs: map<string, Copy>, skip: set<string>, size: Event -> nat,
                     hist: map<Mesh.Era, seq<Event>>, sv: Service)
    requires Ready(names, mine, own, theirs, hist) && OwnKept(own, theirs)
    requires sv == ServiceOf(mine, AnswersOf(theirs, Clocks(mine, own), skip, size))
    ensures Helps(names, mine, theirs, skip, sv)
  {
    forall o, full | o in names
      ensures o in mine ==>
                Lag(sv(o, full).0.clock, Stored(theirs, o).clock) <= Lag(mine[o].clock, Stored(theirs, o).clock)
      ensures o in mine && o !in skip && !full && Lag(mine[o].clock, Stored(theirs, o).clock) > 0 ==>
                Lag(sv(o, full).0.clock, Stored(theirs, o).clock) < Lag(mine[o].clock, Stored(theirs, o).clock)
      ensures sv(o, full).1 > 0 ==>
                o in mine
                && Lag(sv(o, full).0.clock, Stored(theirs, o).clock) < Lag(mine[o].clock, Stored(theirs, o).clock)
    {
      if o in mine {
        ServiceHelpsOne(names, mine, own, theirs, skip, size, hist, o, full, sv(o, full));
      } else {
        OwnCostsNothing(names, mine, own, theirs, skip, size, hist, o, full);
      }
    }
  }

  /** The round seen through any careful service. */
  lemma ServeKeeps(names: seq<string>, mine: map<string, Copy>, own: map<string, (nat, nat)>, theirs: map<string, Copy>,
                   budget: nat, hist: map<Mesh.Era, seq<Event>>, sv: Service)
    requires Ready(names, mine, own, theirs, hist) && Careful(mine, theirs, hist, sv)
    ensures var next := Serve(names, mine, sv, 0, budget);
            Ready(names, next, own, theirs, hist) && AllKept(mine, next, theirs)
  {
    var next := Serve(names, mine, sv, 0, budget);
    ServeKeys(names, mine, sv, 0, budget);
    forall o | o in mine ensures Kept(mine[o], next[o], Stored(theirs, o).clock) && Sound(hist, o, next[o]) {
      ServeOther(names, mine, sv, 0, budget, o);
    }
  }

  /** A round is a service. */
  lemma RoundIsServe(names: seq<string>, mine: map<string, Copy>, own: map<string, (nat, nat)>,
                     theirs: map<string, Copy>, skip: set<string>, budget: nat, size: Event -> nat)
    requires Distinct(names)
    ensures Round(names, mine, own, theirs, skip, budget, size)
            == Serve(names, mine, ServiceOf(mine, AnswersOf(theirs, Clocks(mine, own), skip, size)), 0, budget)
  {
    AddressedAnswers(theirs, Clocks(mine, own), skip, size);
    RespondIsServe(names, mine, mine, AnswersOf(theirs, Clocks(mine, own), skip, size), 0, budget);
  }

  /** Whatever the budget, whatever is skipped, and whoever is ahead: a round loses no ground on
      any origin. */
  lemma RoundKeeps(names: seq<string>, mine: map<string, Copy>, own: map<string, (nat, nat)>, theirs: map<string, Copy>,
                   skip: set<string>, budget: nat, size: Event -> nat, hist: map<Mesh.Era, seq<Event>>)
    requires Ready(names, mine, own, theirs, hist)
    ensures var next := Round(names, mine, own, theirs, skip, budget, size);
            Ready(names, next, own, theirs, hist) && AllKept(mine, next, theirs)
  {
    var sv := ServiceOf(mine, AnswersOf(theirs, Clocks(mine, own), skip, size));
    ServiceIsCareful(names, mine, own, theirs, skip, size, hist, sv);
    ServeKeeps(names, mine, own, theirs, budget, hist, sv);
    RoundIsServe(names, mine, own, theirs, skip, budget, size);
  }

  /** With any budget, and no future of the puller's own origin at the responder, it gains
      something when an origin that is not skipped lags. */
  lemma RoundGainsFor(names: seq<string>, mine: map<string, Copy>, own: map<string, (nat, nat)>,
                      theirs: map<string, Copy>, skip: set<string>, budget: nat, size: Event -> nat,
                      hist: map<Mesh.Era, seq<Event>>, x: string)
    requires Ready(names, mine, own, theirs, hist) && OwnKept(own, theirs) && budget > 0
    requires x in mine && x !in skip && LagOf(mine, theirs, x) > 0
    ensures TotalLag(names, Round(names, mine, own, theirs, skip, budget, size), theirs) < TotalLag(names, mine, theirs)
  {
    var sv := ServiceOf(mine, AnswersOf(theirs, Clocks(mine, own), skip, size));
    ServiceHelps(names, mine, own, theirs, skip, size, hist, sv);
    RoundProgress(names, mine, theirs, skip, sv, 0, budget, x);
    RoundIsServe(names, mine, own, theirs, skip, budget, size);
  }

  lemma RoundGains(names: seq<string>, mine: map<string, Copy>, own: map<string, (nat, nat)>, theirs: map<string, Copy>,
                   budget: nat, size: Event -> nat, hist: map<Mesh.Era, seq<Event>>)
    requires Ready(names, mine, own, theirs, hist) && OwnKept(own, theirs) && budget > 0
    ensures var next := Round(names, mine, own, theirs, {}, budget, size);
            TotalLag(names, next, theirs) <= SatSub(TotalLag(names, mine, theirs), 1)
  {
    LagMeansBehind(names, mine, theirs);
    if TotalLag(names, mine, theirs) > 0 {
      var x :| x in names && x in mine && Behind(mine[x].clock.generation, mine[x].clock.no, Stored(theirs, x).clock);
      RoundGainsFor(names, mine, own, theirs, {}, budget, size, hist, x);
    } else {
      RoundKeeps(names, mine, own, theirs, {}, budget, size, hist);
      KeptLags(names, mine, Round(names, mine, own, theirs, {}, budget, size), theirs);
    }
  }

  lemma AddressedAnswers(copies: map<string, Copy>, have: map<string, (nat, nat)>, skip: set<string>,
                         size: Event -> nat)
    ensures Addressed(AnswersOf(copies, have, skip, size))
  {}

  lemma {:induction false} ServeKeys(names: seq<string>, mine: map<string, Copy>, sv: Service, used: nat, budget: nat)
    ensures Serve(names, mine, sv, used, budget).Keys == mine.Keys
    decreases |names|
  {
    if names != [] {
      var (c, cost) := sv(names[0], used >= budget);
      ServeKeys(names[1..], if names[0] in mine then mine[names[0] := c] else mine, sv, used + cost, budget);
    }
  }

  lemma {:induction false} LagMeansBehind(names: seq<string>, mine: map<string, Copy>, theirs: map<string, Copy>)
    ensures TotalLag(names, mine, theirs) > 0 <==> SomeBehind(names, mine, theirs)
    decreases |names|
  {
    if names != [] {
      LagMeansBehind(names[1..], mine, theirs);
      var o := names[0];
      assert names == [o] + names[1..];
      if o in mine && Behind(mine[o].clock.generation, mine[o].clock.no, Stored(theirs, o).clock) {
        assert SomeBehind(names, mine, theirs);
      } else if SomeBehind(names, mine, theirs) {
        var x :| x in names && x in mine && Behind(mine[x].clock.generation, mine[x].clock.no, Stored(theirs, x).clock);
        assert x in names[1..];
      }
    }
  }

  /** The copy stands at the responder's clock and holds what the responder holds. */
  ghost predicate AtTheirs(mine: Copy, theirs: Copy) {
    && mine.clock.generation == theirs.clock.generation && mine.clock.no == theirs.clock.no
    && mine.held == theirs.held
  }

  /** Nothing left behind: a copy that is not ahead has the same clock and the same holdings. */
  lemma CaughtUp(names: seq<string>, mine: map<string, Copy>, own: map<string, (nat, nat)>, theirs: map<string, Copy>,
                 hist: map<Mesh.Era, seq<Event>>, o: string)
    requires Ready(names, mine, own, theirs, hist) && TotalLag(names, mine, theirs) == 0
    requires o in mine && Stored(theirs, o).clock.generation > 0 && NotAhead(mine[o].clock, Stored(theirs, o).clock)
    ensures AtTheirs(mine[o], Stored(theirs, o))
  {
    LagMeansBehind(names, mine, theirs);
    assert !Behind(mine[o].clock.generation, mine[o].clock.no, Stored(theirs, o).clock);
    var h := hist[(o, mine[o].clock.generation)];
    Mesh.FuzzyExact(h, mine[o].clock.no, mine[o].held);
    Mesh.FuzzyExact(h, mine[o].clock.no, Stored(theirs, o).held);
  }

  /** Every copy that was not ahead of a responder who knows its origin is where the responder is; every
      copy that was not behind is untouched. */
  ghost predicate Converged(was: map<string, Copy>, now: map<string, Copy>, theirs: map<string, Copy>) {
    && was.Keys == now.Keys
    && (forall o ::
          o in was && Stored(theirs, o).clock.generation > 0 && NotAhead(was[o].clock, Stored(theirs, o).clock) ==>
            AtTheirs(now[o], Stored(theirs, o)))
    && (forall o :: o in was && !Behind(was[o].clock.generation, was[o].clock.no, Stored(theirs, o).clock) ==>
          now[o] == was[o])
  }

  lemma NoLagConverged(names: seq<string>, was: map<string, Copy>, now: map<string, Copy>,
                       own: map<string, (nat, nat)>, theirs: map<string, Copy>, hist: map<Mesh.Era, seq<Event>>)
    requires Ready(names, now, own, theirs, hist) && AllKept(was, now, theirs) && TotalLag(names, now, theirs) == 0
    ensures Converged(was, now, theirs)
  {
    forall o | o in was && Stored(theirs, o).clock.generation > 0 && NotAhead(was[o].clock, Stored(theirs, o).clock)
      ensures AtTheirs(now[o], Stored(theirs, o))
    {
      assert Kept(was[o], now[o], Stored(theirs, o).clock);
      CaughtUp(names, now, own, theirs, hist, o);
    }
  }

  /** Rounds leave the pull ready for the next and lose no ground. */
  lemma {:induction false} RoundsKeep(names: seq<string>, mine: map<string, Copy>, own: map<string, (nat, nat)>,
                                      theirs: map<string, Copy>, budget: nat, size: Event -> nat,
                                      hist: map<Mesh.Era, seq<Event>>, k: nat)
    requires Ready(names, mine, own, theirs, hist)
    ensures var after := Rounds(names, mine, own, theirs, budget, size, k);
            Ready(names, after, own, theirs, hist) && AllKept(mine, after, theirs)
    decreases k
  {
    if k > 0 {
      RoundsKeep(names, mine, own, theirs, budget, size, hist, k - 1);
      var before := Rounds(names, mine, own, theirs, budget, size, k - 1);
      RoundKeeps(names, before, own, theirs, {}, budget, size, hist);
      AllKeptTransitive(mine, before, Round(names, before, own, theirs, {}, budget, size), theirs);
    }
  }

  /** While anything lags, each round makes it lag less. */
  lemma {:induction false} RoundsGain(names: seq<string>, mine: map<string, Copy>, own: map<string, (nat, nat)>,
                                      theirs: map<string, Copy>, budget: nat, size: Event -> nat,
                                      hist: map<Mesh.Era, seq<Event>>, k: nat)
    requires Ready(names, mine, own, theirs, hist) && OwnKept(own, theirs) && budget > 0
    ensures TotalLag(names, Rounds(names, mine, own, theirs, budget, size, k), theirs)
            <= SatSub(TotalLag(names, mine, theirs), k)
    decreases k
  {
    if k > 0 {
      RoundsGain(names, mine, own, theirs, budget, size, hist, k - 1);
      RoundsKeep(names, mine, own, theirs, budget, size, hist, k - 1);
      RoundGains(names, Rounds(names, mine, own, theirs, budget, size, k - 1), own, theirs, budget, size, hist);
    }
  }

  lemma RoundsReady(names: seq<string>, mine: map<string, Copy>, own: map<string, (nat, nat)>,
                    theirs: map<string, Copy>, budget: nat, size: Event -> nat,
                    hist: map<Mesh.Era, seq<Event>>, k: nat)
    requires Ready(names, mine, own, theirs, hist) && OwnKept(own, theirs) && budget > 0
    ensures var after := Rounds(names, mine, own, theirs, budget, size, k);
            Ready(names, after, own, theirs, hist) && AllKept(mine, after, theirs)
            && TotalLag(names, after, theirs) <= SatSub(TotalLag(names, mine, theirs), k)
  {
    RoundsKeep(names, mine, own, theirs, budget, size, hist, k);
    RoundsGain(names, mine, own, theirs, budget, size, hist, k);
  }

  /** Pull rounds converge: whatever the positive byte budget and the event sizes, at most
      one round per missing event (one per stale generation more) brings every copy that was not ahead
      to the responder's clock and holdings, and leaves the others alone. */
  lemma PullConverges(names: seq<string>, mine: map<string, Copy>, own: map<string, (nat, nat)>,
                      theirs: map<string, Copy>, budget: nat, size: Event -> nat,
                      hist: map<Mesh.Era, seq<Event>>, k: nat)
    requires Ready(names, mine, own, theirs, hist) && OwnKept(own, theirs) && budget > 0
    requires k >= TotalLag(names, mine, theirs)
    ensures Converged(mine, Rounds(names, mine, own, theirs, budget, size, k), theirs)
  {
    RoundsReady(names, mine, own, theirs, budget, size, hist, k);
    NoLagConverged(names, mine, Rounds(names, mine, own, theirs, budget, size, k), own, theirs, hist);
  }

  /** What the puller's own clocks are after a round in which it saw a future of its own origin: a
      generation minted above the responder's. */
  ghost predicate OwnMinted(own: map<string, (nat, nat)>, next: map<string, (nat, nat)>, theirs: map<string, Copy>) {
    && own.Keys == next.Keys
    && forall o :: o in own ==>
         if Behind(own[o].0, own[o].1, Stored(theirs, o).clock)
         then next[o].0 > Stored(theirs, o).clock.generation && next[o].1 == own[o].1
         else next[o] == own[o]
  }

  /** The same when the responder knows a future of the puller's own origin. Answering that origin may
      use up the budget, so the first round promises nothing but to lose no ground; in it the puller
      remints, and from then on the rounds converge. */
  lemma PullConvergesAfterRemint(names: seq<string>, mine: map<string, Copy>, own: map<string, (nat, nat)>,
                                 next: map<string, (nat, nat)>, theirs: map<string, Copy>, budget: nat,
                                 size: Event -> nat, hist: map<Mesh.Era, seq<Event>>, k: nat)
    requires Ready(names, mine, own, theirs, hist) && OwnMinted(own, next, theirs) && budget > 0
    requires k >= TotalLag(names, mine, theirs)
    ensures var first := Round(names, mine, own, theirs, {}, budget, size);
            Converged(mine, Rounds(names, first, next, theirs, budget, size, k), theirs)
  {
    var first := Round(names, mine, own, theirs, {}, budget, size);
    RoundKeeps(names, mine, own, theirs, {}, budget, size, hist);
    KeptLags(names, mine, first, theirs);
    assert Ready(names, first, next, theirs, hist);
    RoundsReady(names, first, next, theirs, budget, size, hist, k);
    var final := Rounds(names, first, next, theirs, budget, size, k);
    AllKeptTransitive(mine, first, final, theirs);
    NoLagConverged(names, mine, final, next, theirs, hist);
  }
}
