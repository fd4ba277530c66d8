/** The loop of a pull (`pull_from_inner` in src/sync.rs): when it goes on, when it ends, and what
    its ending tells. */
module PullLoop {
  import opened Common
  import R = Replica
  import Mesh
  import opened Pull

  // ---- the line of one origin ----

  /** Whether the budget is spent when o's turn comes. */
  ghost function FullAt(names: seq<string>, answers: Answers, used: nat, budget: nat, o: string): bool
    requires o in names
    decreases |names|
  {
    if names[0] == o then used >= budget
    else FullAt(names[1..], answers, used + answers(names[0], used >= budget).1, budget, o)
  }

  lemma {:induction false} NoLine(names: seq<string>, answers: Answers, used: nat, budget: nat, o: string)
    requires Addressed(answers) && o !in names
    ensures forall u :: u in RespondFrom(names, answers, used, budget) ==> u.origin != o
    decreases |names|
  {
    if names != [] {
      assert names[0] in names && forall x :: x in names[1..] ==> x in names;
      NoLine(names[1..], answers, used + answers(names[0], used >= budget).1, budget, o);
    }
  }

  /** The response has at most one line for an origin: the answer to it. */
  lemma {:induction false} LineOf(names: seq<string>, answers: Answers, used: nat, budget: nat, o: string, u: Update)
    requires Distinct(names) && Addressed(answers) && o in names
    ensures u in RespondFrom(names, answers, used, budget) && u.origin == o
            <==> answers(o, FullAt(names, answers, used, budget, o)).0 == Some(u)
    decreases |names|
  {
    var x, rest := names[0], names[1..];
    var (a, cost) := answers(x, used >= budget);
    if x == o {
      NoLine(rest, answers, used + cost, budget, o);
    } else {
      LineOf(rest, answers, used + cost, budget, o, u);
    }
  }

  lemma {:induction false} ServeAt(names: seq<string>, now: map<string, R.Copy>, mine: map<string, R.Copy>,
                                   answers: Answers, used: nat, budget: nat, o: string)
    requires Distinct(names) && o in names && o in now
    ensures Serve(names, now, ServiceOf(mine, answers), used, budget).Keys == now.Keys
    ensures Serve(names, now, ServiceOf(mine, answers), used, budget)[o]
            == ServiceOf(mine, answers)(o, FullAt(names, answers, used, budget, o)).0
    decreases |names|
  {
    var x, sv := names[0], ServiceOf(mine, answers);
    var (c, cost) := sv(x, used >= budget);
    var next := if x in now then now[x := c] else now;
    if x == o {
      ServeOther(names[1..], next, sv, used + cost, budget, o);
    } else {
      ServeAt(names[1..], next, mine, answers, used + cost, budget, o);
    }
  }

  /** The line of o and what becomes of o's copy. */
  lemma RoundAt(names: seq<string>, mine: map<string, R.Copy>, own: map<string, (nat, nat)>,
                theirs: map<string, R.Copy>, skip: set<string>, budget: nat, size: R.Event -> nat,
                hist: map<Mesh.Era, seq<R.Event>>, o: string)
    returns (a: Option<Update>, full: bool)
    requires Ready(names, mine, own, theirs, hist) && o in mine
    ensures a == Answer(o, Stored(theirs, o), mine[o].clock.generation, mine[o].clock.no, o in skip, full, size).0
    ensures forall u :: u in Response(names, mine, own, theirs, skip, budget, size) && u.origin == o <==> a == Some(u)
    ensures Round(names, mine, own, theirs, skip, budget, size).Keys == mine.Keys
    ensures Round(names, mine, own, theirs, skip, budget, size)[o]
            == if a.Some? then Receive(mine[o], a.value) else mine[o]
  {
    var answers := AnswersOf(theirs, Clocks(mine, own), skip, size);
    full := FullAt(names, answers, 0, budget, o);
    a := answers(o, full).0;
    AddressedAnswers(theirs, Clocks(mine, own), skip, size);
    ServiceIsAnswer(mine, own, theirs, skip, size, o, full);
    RoundIsServe(names, mine, own, theirs, skip, budget, size);
    ServeAt(names, mine, mine, answers, 0, budget, o);
    forall u
      ensures u in Response(names, mine, own, theirs, skip, budget, size) && u.origin == o <==> a == Some(u)
    {
      LineOf(names, answers, 0, budget, o, u);
    }
  }

  // ---- what a flag tells ----

  /** Line u of the response is about origin o and flagged. */
  predicate FlaggedFor(us: seq<Update>, o: string) { exists u :: u in us && u.origin == o && u.truncated }

  /** The lines about other nodes' origins are the ones that count. */
  predicate Flagged(us: seq<Update>, mine: map<string, R.Copy>) { exists o :: o in mine && FlaggedFor(us, o) }

  /** After a round an origin lags exactly when its line was flagged, unless it was skipped; then it
      is where it was and its line is not flagged. */
  lemma FlagTellsLag(names: seq<string>, mine: map<string, R.Copy>, own: map<string, (nat, nat)>,
                     theirs: map<string, R.Copy>, skip: set<string>, budget: nat, size: R.Event -> nat,
                     hist: map<Mesh.Era, seq<R.Event>>, o: string)
    requires Ready(names, mine, own, theirs, hist) && o in mine
    ensures var us := Response(names, mine, own, theirs, skip, budget, size);
            var next := Round(names, mine, own, theirs, skip, budget, size);
            && next.Keys == mine.Keys
            && (o !in skip ==> (LagOf(next, theirs, o) > 0 <==> FlaggedFor(us, o)))
            && (o in skip ==> next[o] == mine[o] && !FlaggedFor(us, o))
  {
    var a, full := RoundAt(names, mine, own, theirs, skip, budget, size, hist, o);
    FlagMeansLeft(o, mine[o], Stored(theirs, o), o in skip, full, size);
    var us := Response(names, mine, own, theirs, skip, budget, size);
    if a.Some? && a.value.truncated {
      assert a.value in us && a.value.origin == o;
    }
  }

  /** A flag means that the round gained. */
  lemma FlagMeansGain(names: seq<string>, mine: map<string, R.Copy>, own: map<string, (nat, nat)>,
                      theirs: map<string, R.Copy>, skip: set<string>, budget: nat, size: R.Event -> nat,
                      hist: map<Mesh.Era, seq<R.Event>>)
    requires Ready(names, mine, own, theirs, hist) && OwnKept(own, theirs) && budget > 0
    requires Flagged(Response(names, mine, own, theirs, skip, budget, size), mine)
    ensures TotalLag(names, Round(names, mine, own, theirs, skip, budget, size), theirs) < TotalLag(names, mine, theirs)
  {
    var us := Response(names, mine, own, theirs, skip, budget, size);
    var o :| o in mine && FlaggedFor(us, o);
    FlagTellsLag(names, mine, own, theirs, skip, budget, size, hist, o);
    RoundKeeps(names, mine, own, theirs, skip, budget, size, hist);
    assert Kept(mine[o], Round(names, mine, own, theirs, skip, budget, size)[o], Stored(theirs, o).clock);
    RoundGainsFor(names, mine, own, theirs, skip, budget, size, hist, o);
  }

  lemma {:induction false} NoLagAnywhere(names: seq<string>, mine: map<string, R.Copy>, theirs: map<string, R.Copy>)
    requires forall o :: o in names ==> LagOf(mine, theirs, o) == 0
    ensures TotalLag(names, mine, theirs) == 0
    decreases |names|
  {
    if names != [] {
      assert names[0] in names && forall o :: o in names[1..] ==> o in names;
      NoLagAnywhere(names[1..], mine, theirs);
    }
  }

  /** A response without a flagged line is the last one that is needed. */
  lemma UnflaggedConverges(names: seq<string>, mine: map<string, R.Copy>, own: map<string, (nat, nat)>,
                           theirs: map<string, R.Copy>, budget: nat, size: R.Event -> nat,
                           hist: map<Mesh.Era, seq<R.Event>>)
    requires Ready(names, mine, own, theirs, hist)
    requires !Flagged(Response(names, mine, own, theirs, {}, budget, size), mine)
    ensures Converged(mine, Round(names, mine, own, theirs, {}, budget, size), theirs)
  {
    var next := Round(names, mine, own, theirs, {}, budget, size);
    RoundKeeps(names, mine, own, theirs, {}, budget, size, hist);
    forall o | o in names ensures LagOf(next, theirs, o) == 0 {
      if o in mine { FlagTellsLag(names, mine, own, theirs, {}, budget, size, hist, o); }
    }
    NoLagAnywhere(names, next, theirs);
    NoLagConverged(names, mine, next, own, theirs, hist);
  }

  /** Where a pull ends that is repeated exactly while a line is flagged: it does end, and then
      nothing is left to pull. */
  ghost function PullToEnd(names: seq<string>, mine: map<string, R.Copy>, own: map<string, (nat, nat)>,
                           theirs: map<string, R.Copy>, budget: nat, size: R.Event -> nat,
                           hist: map<Mesh.Era, seq<R.Event>>): (end: map<string, R.Copy>)
    requires Ready(names, mine, own, theirs, hist) && OwnKept(own, theirs) && budget > 0
    ensures Converged(mine, end, theirs)
    decreases TotalLag(names, mine, theirs)
  {
    var next := Round(names, mine, own, theirs, {}, budget, size);
    RoundKeeps(names, mine, own, theirs, {}, budget, size, hist);
    if Flagged(Response(names, mine, own, theirs, {}, budget, size), mine) then
      FlagMeansGain(names, mine, own, theirs, {}, budget, size, hist);
      var end := PullToEnd(names, next, own, theirs, budget, size, hist);
      KeptConverges(mine, next, end, theirs);
      end
    else
      UnflaggedConverges(names, mine, own, theirs, budget, size, hist);
      next
  }

  /** Rounds that lose no ground may come before. */
  lemma KeptConverges(was: map<string, R.Copy>, next: map<string, R.Copy>, end: map<string, R.Copy>,
                      theirs: map<string, R.Copy>)
    requires AllKept(was, next, theirs) && Converged(next, end, theirs)
    ensures Converged(was, end, theirs)
  {
    forall o | o in was && Stored(theirs, o).clock.generation > 0 && NotAhead(was[o].clock, Stored(theirs, o).clock)
      ensures AtTheirs(end[o], Stored(theirs, o))
    {
      assert Kept(was[o], next[o], Stored(theirs, o).clock);
    }
    forall o | o in was && !Behind(was[o].clock.generation, was[o].clock.no, Stored(theirs, o).clock)
      ensures end[o] == was[o]
    {
      assert Kept(was[o], next[o], Stored(theirs, o).clock);
    }
  }

  // ---- what a response weighs ----

  /** The bytes a line is charged: its rows, or 34 for each hash of a snapshot. */
  function Weight(u: Update, size: R.Event -> nat): nat {
    match u.body
    case Suffix(events) => Bytesize(events, size)
    case Snapshot(held) => 34 * |held|
    case UpToDate => 0
    case ClockOnly => 0
  }

  function TotalWeight(us: seq<Update>, size: R.Event -> nat): nat
    decreases |us|
  {
    if us == [] then 0 else Weight(us[0], size) + TotalWeight(us[1..], size)
  }

  /** No line has a body when the lines before it have used the budget up, and rows stay within the cap
      of one line unless there is only one. */
  ghost predicate WithinBudget(us: seq<Update>, used: nat, budget: nat, size: R.Event -> nat) {
    forall i :: 0 <= i < |us| ==> LineFits(us, i, used, budget, size)
  }

  ghost predicate LineFits(us: seq<Update>, i: nat, used: nat, budget: nat, size: R.Event -> nat)
    requires i < |us|
  {
    (Weight(us[i], size) > 0 ==> used + TotalWeight(us[..i], size) < budget) && RowsFit(us[i], size)
  }

  ghost predicate RowsFit(u: Update, size: R.Event -> nat) {
    u.body.Suffix? ==> |u.body.events| <= 1 || Bytesize(u.body.events, size) <= SUFFIX_BYTES_CAP
  }

  lemma WithinBudgetCons(u: Update, rest: seq<Update>, used: nat, budget: nat, size: R.Event -> nat)
    requires (Weight(u, size) > 0 ==> used < budget) && RowsFit(u, size)
    requires WithinBudget(rest, used + Weight(u, size), budget, size)
    ensures WithinBudget([u] + rest, used, budget, size)
  {
    var us := [u] + rest;
    forall i | 0 <= i < |us| ensures LineFits(us, i, used, budget, size) {
      if i == 0 {
        assert us[..0] == [];
      } else {
        assert LineFits(rest, i - 1, used + Weight(u, size), budget, size);
        assert us[i] == rest[i - 1] && us[..i][0] == u && us[..i][1..] == rest[..i - 1];
      }
    }
  }

  /** What an answer costs is what its line weighs, and nothing when the budget is used up. */
  lemma AnswerWeighs(o: string, c: R.Copy, g: nat, n: nat, skipped: bool, full: bool, size: R.Event -> nat)
    ensures Weighs(Answer(o, c, g, n, skipped, full, size), full, size)
  {
    var rows := RowsAfter(c.journal, n);
    assert rows[..0] == [];
    CutLenFits(rows, 0, 0, SUFFIX_BYTES_CAP, size);
    assert Bytesize([], size) == 0;
  }

  ghost predicate Weighs(a: (Option<Update>, nat), full: bool, size: R.Event -> nat) {
    && a.1 == (if a.0.Some? then Weight(a.0.value, size) else 0) && (full ==> a.1 == 0)
    && (a.0.Some? ==> RowsFit(a.0.value, size))
  }

  lemma {:induction false} WeighedWithinBudget(names: seq<string>, answers: Answers, size: R.Event -> nat, used: nat,
                                               budget: nat)
    requires forall o, full :: Weighs(answers(o, full), full, size)
    ensures WithinBudget(RespondFrom(names, answers, used, budget), used, budget, size)
    decreases |names|
  {
    if names != [] {
      var (u, cost) := answers(names[0], used >= budget);
      assert Weighs(answers(names[0], used >= budget), used >= budget, size);
      WeighedWithinBudget(names[1..], answers, size, used + cost, budget);
      var rest := RespondFrom(names[1..], answers, used + cost, budget);
      if u.Some? {
        WithinBudgetCons(u.value, rest, used, budget, size);
      } else {
        assert [] + rest == rest;
      }
    }
  }

  /** A response keeps its budget, whatever is asked of it. */
  lemma ResponseWithinBudget(names: seq<string>, copies: map<string, R.Copy>, have: map<string, (nat, nat)>,
                             skip: set<string>, size: R.Event -> nat, budget: nat)
    ensures WithinBudget(RespondFrom(names, AnswersOf(copies, have, skip, size), 0, budget), 0, budget, size)
  {
    var answers := AnswersOf(copies, have, skip, size);
    forall o, full ensures Weighs(answers(o, full), full, size) {
      AnswerWeighs(o, Stored(copies, o), HaveOf(have, o).0, HaveOf(have, o).1, o in skip, full, size);
    }
    WeighedWithinBudget(names, answers, size, 0, budget);
  }

  // ---- the loop ----

  /** This line keeps the round loop going: flagged, and without rows or with rows that did not connect. A
      flagged line whose rows were applied is left to the catch-up planner instead. */
  predicate Spins(c: R.Copy, u: Update) {
    && u.truncated && u.body.Suffix?
    && (u.body.events == [] || R.PlanSuffix(c.clock.generation, c.clock.no, u.generation, u.body.events) == R.Gap)
  }

  predicate SpinsFor(us: seq<Update>, mine: map<string, R.Copy>, o: string)
    requires o in mine
  {
    exists u :: u in us && u.origin == o && Spins(mine[o], u)
  }

  predicate GoesOn(us: seq<Update>, mine: map<string, R.Copy>) { exists o :: o in mine && SpinsFor(us, mine, o) }

  /** A backlog for the catch-up planner: a flagged line that brought rows. */
  predicate Backlog(us: seq<Update>, o: string) {
    exists u :: u in us && u.origin == o && u.truncated && u.body.Suffix? && u.body.events != []
  }

  /** When the loop stops after a response, whatever still lags was skipped or is a backlog. */
  lemma StopLeavesBacklogs(names: seq<string>, mine: map<string, R.Copy>, own: map<string, (nat, nat)>,
                           theirs: map<string, R.Copy>, skip: set<string>, budget: nat, size: R.Event -> nat,
                           hist: map<Mesh.Era, seq<R.Event>>, o: string)
    requires Ready(names, mine, own, theirs, hist) && o in mine
    requires !GoesOn(Response(names, mine, own, theirs, skip, budget, size), mine)
    ensures var us := Response(names, mine, own, theirs, skip, budget, size);
            LagOf(Round(names, mine, own, theirs, skip, budget, size), theirs, o) > 0 && o !in skip
            <==> Backlog(us, o)
  {
    var us := Response(names, mine, own, theirs, skip, budget, size);
    FlagTellsLag(names, mine, own, theirs, skip, budget, size, hist, o);
    var a, full := RoundAt(names, mine, own, theirs, skip, budget, size, hist, o);
    FlagMeansLeft(o, mine[o], Stored(theirs, o), o in skip, full, size);
    assert !SpinsFor(us, mine, o);
    if a.Some? { assert a.value in us && a.value.origin == o; }
  }

  /** Every copy that lags was skipped in the last round or is a backlog of its response. */
  ghost predicate Settled(mine: map<string, R.Copy>, theirs: map<string, R.Copy>, skip: set<string>,
                          last: seq<Update>) {
    forall o :: o in mine && LagOf(mine, theirs, o) > 0 ==> o in skip || Backlog(last, o)
  }

  lemma StopSettles(names: seq<string>, mine: map<string, R.Copy>, own: map<string, (nat, nat)>,
                    theirs: map<string, R.Copy>, skip: set<string>, budget: nat, size: R.Event -> nat,
                    hist: map<Mesh.Era, seq<R.Event>>)
    requires Ready(names, mine, own, theirs, hist)
    requires !GoesOn(Response(names, mine, own, theirs, skip, budget, size), mine)
    ensures Settled(Round(names, mine, own, theirs, skip, budget, size), theirs, skip,
                    Response(names, mine, own, theirs, skip, budget, size))
  {
    RoundKeeps(names, mine, own, theirs, skip, budget, size, hist);
    forall o | o in mine && LagOf(Round(names, mine, own, theirs, skip, budget, size), theirs, o) > 0
      ensures o in skip || Backlog(Response(names, mine, own, theirs, skip, budget, size), o)
    {
      StopLeavesBacklogs(names, mine, own, theirs, skip, budget, size, hist, o);
    }
  }

  lemma GoingOnIsFlagged(us: seq<Update>, mine: map<string, R.Copy>)
    requires GoesOn(us, mine)
    ensures Flagged(us, mine)
  {
    var o :| o in mine && SpinsFor(us, mine, o);
    assert FlaggedFor(us, o);
  }

  /** The pull: rounds, each with its own set of skipped origins, while a line keeps it going and at
      most `max` of them. It loses no ground, it stops by itself after at most one round more than
      events were missing, and then all that lags was skipped or is a backlog. */
  method PullFrom(names: seq<string>, start: map<string, R.Copy>, own: map<string, (nat, nat)>,
                  theirs: map<string, R.Copy>, budget: nat, size: R.Event -> nat, skips: nat -> set<string>, max: nat,
                  ghost hist: map<Mesh.Era, seq<R.Event>>)
    returns (mine: map<string, R.Copy>, last: seq<Update>, rounds: nat, more: bool)
    requires Ready(names, start, own, theirs, hist) && OwnKept(own, theirs) && budget > 0
    ensures Ready(names, mine, own, theirs, hist) && AllKept(start, mine, theirs)
    ensures rounds <= max && (more ==> rounds == max && rounds <= TotalLag(names, start, theirs))
    ensures !more ==> rounds > 0 && Settled(mine, theirs, skips(rounds - 1), last)
  {
    mine, last, rounds, more := start, [], 0, true;
    while more && rounds < max
      invariant Ready(names, mine, own, theirs, hist) && AllKept(start, mine, theirs) && rounds <= max
      invariant more ==> rounds + TotalLag(names, mine, theirs) <= TotalLag(names, start, theirs)
      invariant !more ==> rounds > 0 && Settled(mine, theirs, skips(rounds - 1), last)
      decreases max - rounds
    {
      var skip := skips(rounds);
      last := Response(names, mine, own, theirs, skip, budget, size);
      more := GoesOn(last, mine);
      ghost var next := Round(names, mine, own, theirs, skip, budget, size);
      RoundKeeps(names, mine, own, theirs, skip, budget, size, hist);
      AllKeptTransitive(start, mine, next, theirs);
      if more {
        GoingOnIsFlagged(last, mine);
        FlagMeansGain(names, mine, own, theirs, skip, budget, size, hist);
      } else {
        StopSettles(names, mine, own, theirs, skip, budget, size, hist);
      }
      mine, rounds := ReceiveAll(mine, last), rounds + 1;
    }
  }
}
