/** Answering a pull reads the clock first and the rows or the holdings later, without a lock
    between (src/index.rs). If the copy moves to another generation in between, what is read is
    sent under the old label. This module adds such reads to the mesh and says exactly when what
    they send is sound. */
module Labels {
  import opened Common
  import opened Replica
  import opened Mesh

  /** Rows, or the possession set, read now under a clock read earlier. */
  datatype Late =
    | RowsAs(n: string, o: string, tag: nat, events: seq<Event>)
    | HoldingsAs(n: string, o: string, tag: nat, no: nat)

  datatype Move = Plain(step: Step) | Read(late: Late)

  /** The copy showed this clock at some time up to now. */
  ghost predicate Showed(w: World, p: Place, tag: nat, no: nat)
    requires p in w.copies && p in w.past
  {
    exists t :: (t == w.copies[p] || t in w.past[p]) && t.c.clock.generation == tag && t.c.clock.no == no
  }

  ghost predicate Readable(w: World, l: Late) {
    var p := (l.n, l.o);
    && p in w.copies && p in w.past && l.tag > 0 && (l.o, l.tag) in w.hist
    && match l
       case RowsAs(_, _, tag, events) =>
         && (exists no: nat :: Showed(w, p, tag, no))
         && forall e :: e in events ==> e.no in w.copies[p].c.journal && w.copies[p].c.journal[e.no] == e
       case HoldingsAs(_, _, tag, no) => Showed(w, p, tag, no)
  }

  /** Each hash is in the set, or not, as it was at some moment of the labelled generation from
      the labelled number on. */
  ghost predicate HoldingsFit(w: World, l: Late)
    requires Readable(w, l) && l.HoldingsAs?
  {
    var h := w.hist[(l.o, l.tag)];
    Fuzzy(h, l.no, |h|, w.copies[(l.n, l.o)].c.held)
  }

  /** What goes out. A possession set counts as clean exactly when it fits its label. */
  ghost function MsgOf(w: World, l: Late): Msg
    requires Readable(w, l)
  {
    match l
    case RowsAs(_, o, tag, events) => Rows(o, tag, events)
    case HoldingsAs(n, o, tag, no) =>
      Snapshot(o, tag, no, w.copies[(n, o)].c.held, |w.hist[(o, tag)]|, HoldingsFit(w, l))
  }

  ghost predicate CanMove(w: World, mv: Move) {
    match mv case Plain(s) => Enabled(w, s) case Read(l) => Readable(w, l)
  }

  ghost function Moved(w: World, mv: Move): World
    requires CanMove(w, mv)
  {
    match mv case Plain(s) => Next(w, s) case Read(l) => w.(msgs := w.msgs + {MsgOf(w, l)})
  }

  ghost predicate Moves(w: World, mvs: seq<Move>, final: World)
    decreases |mvs|
  {
    if mvs == [] then final == w else CanMove(w, mvs[0]) && Moves(Moved(w, mvs[0]), mvs[1..], final)
  }

  // ---- when a late read of rows is sound ----

  /** Both histories carry the same event under number i. */
  ghost predicate SameAt(h: seq<Event>, h': seq<Event>, i: nat) { 1 <= i <= |h| && i <= |h'| && h[i - 1] == h'[i - 1] }

  /** The labelled history and that of the copy's present generation agree at the sent numbers. */
  ghost predicate AgreeAtSent(w: World, l: Late)
    requires Readable(w, l) && l.RowsAs?
  {
    var k := (l.o, w.copies[(l.n, l.o)].c.clock.generation);
    k in w.hist && forall e :: e in l.events ==> SameAt(w.hist[(l.o, l.tag)], w.hist[k], e.no)
  }

  lemma RowsSoundIffAgree(w: World, l: Late)
    requires Inv(w) && Readable(w, l) && l.RowsAs?
    ensures MsgOk(w.hist, MsgOf(w, l)) <==> AgreeAtSent(w, l)
  {
    var t := w.copies[(l.n, l.o)];
    assert PlaceOk(w.hist, (l.n, l.o), t);
    var h, h' := w.hist[(l.o, l.tag)], w.hist[(l.o, t.c.clock.generation)];
    forall e | e in l.events ensures FromHistory(h, e) <==> SameAt(h, h', e.no) {
      assert e.no in t.c.journal;
    }
  }

  /** Generation g' was reminted from g at number k: both begin with the same k events. */
  ghost predicate Reminted(hist: map<Era, seq<Event>>, o: string, g: nat, g': nat, k: nat) {
    && (o, g) in hist && (o, g') in hist
    && k <= |hist[(o, g)]| && k <= |hist[(o, g')]| && hist[(o, g)][..k] == hist[(o, g')][..k]
  }

  lemma RemintedAtOnce(w: World, o: string, g': nat)
    requires Inv(w) && Enabled(w, Remint(o, g'))
    ensures var clock := w.copies[(o, o)].c.clock;
            Reminted(Next(w, Remint(o, g')).hist, o, clock.generation, g', clock.no)
  {
    var s := Remint(o, g');
    assert PlaceOf(s) == (o, o);
    var clock := w.copies[(o, o)].c.clock;
    var h := w.hist[(o, clock.generation)];
    assert NewHist(w, s) == w.hist[(o, g') := h[..clock.no]];
    assert h[..clock.no][..clock.no] == h[..clock.no];
  }

  lemma RemintedStays(hist: map<Era, seq<Event>>, hist': map<Era, seq<Event>>, o: string, g: nat, g': nat, k: nat)
    requires Reminted(hist, o, g, g', k) && Grows(hist, hist')
    ensures Reminted(hist', o, g, g', k)
  {
    PrefixAgrees(hist[(o, g)], hist'[(o, g)]);
    PrefixAgrees(hist[(o, g')], hist'[(o, g')]);
  }

  /** After a remint the two generations are so related for ever. */
  lemma RemintedForEver(w: World, o: string, g': nat, steps: seq<Step>, final: World)
    requires Inv(w) && Enabled(w, Remint(o, g')) && Run(Next(w, Remint(o, g')), steps, final)
    ensures var clock := w.copies[(o, o)].c.clock; Reminted(final.hist, o, clock.generation, g', clock.no)
  {
    var s := Remint(o, g');
    var clock := w.copies[(o, o)].c.clock;
    RemintedAtOnce(w, o, g');
    StepKeepsInv(w, s);
    HistoriesGrow(Next(w, s), steps, final);
    RemintedStays(Next(w, s).hist, final.hist, o, clock.generation, g', clock.no);
  }

  lemma SameUpTo(h: seq<Event>, h': seq<Event>, k: nat, e: Event)
    requires k <= |h| && k <= |h'| && h[..k] == h'[..k] && FromHistory(h', e) && e.no <= k
    ensures FromHistory(h, e)
  {
    assert h[..k][e.no - 1] == h'[..k][e.no - 1];
  }

  /** Rows of a generation reminted at number k, sent under the old generation's label, are sound
      if and only if each of them is among the first k or the old generation carries the very
      same event there. When the old generation ended at k: if and only if none is above k. */
  lemma RemintedRows(w: World, l: Late, g': nat, k: nat)
    requires Inv(w) && Readable(w, l) && l.RowsAs?
    requires w.copies[(l.n, l.o)].c.clock.generation == g' && Reminted(w.hist, l.o, l.tag, g', k)
    ensures var h := w.hist[(l.o, l.tag)];
            && (MsgOk(w.hist, MsgOf(w, l)) <==> forall e :: e in l.events ==> e.no <= k || FromHistory(h, e))
            && (|h| == k ==> (MsgOk(w.hist, MsgOf(w, l)) <==> forall e :: e in l.events ==> e.no <= k))
  {
    var t, h, h' := w.copies[(l.n, l.o)], w.hist[(l.o, l.tag)], w.hist[(l.o, g')];
    assert PlaceOk(w.hist, (l.n, l.o), t);
    forall e | e in l.events && e.no <= k ensures FromHistory(h, e) {
      assert e.no in t.c.journal;
      SameUpTo(h, h', k, e);
    }
  }

  // ---- when a late read of holdings is sound ----

  /** Some event adds x (b) or drops it (!b). */
  ghost predicate Says(es: seq<Event>, x: Bytes, b: bool) {
    exists i :: 0 <= i < |es| && Verdict(es[i].op, x) == Some(b)
  }

  /** The set has x as history h had it at number no, or as some later event of h leaves it. */
  ghost predicate FitsAt(h: seq<Event>, no: nat, held: set<Bytes>, x: Bytes)
    requires no <= |h|
  {
    (x in held <==> x in Replay({}, h[..no])) || Says(h[no..], x, x in held)
  }

  lemma {:induction false} LastIsSaid(es: seq<Event>, x: Bytes)
    requires LastVerdict(es, x).Some?
    ensures Says(es, x, LastVerdict(es, x).value)
    decreases |es|
  {
    var last := |es| - 1;
    if Verdict(es[last].op, x).None? {
      LastIsSaid(es[..last], x);
      var i :| 0 <= i < last && Verdict(es[..last][i].op, x) == LastVerdict(es, x);
      assert Verdict(es[i].op, x) == LastVerdict(es, x);
    }
  }

  lemma SaidInPart(h: seq<Event>, no: nat, u: nat, x: Bytes, b: bool)
    requires no <= u <= |h| && Says(h[no..u], x, b)
    ensures Says(h[no..], x, b)
  {
    var i :| 0 <= i < |h[no..u]| && Verdict(h[no..u][i].op, x) == Some(b);
    assert h[no..][i] == h[no..u][i];
  }

  /** Membership at u, seen from no. */
  lemma MembershipFrom(h: seq<Event>, no: nat, u: nat, x: Bytes)
    requires no <= u <= |h|
    ensures x in Replay({}, h[..u]) <==>
            if LastVerdict(h[no..u], x).Some? then LastVerdict(h[no..u], x).value else x in Replay({}, h[..no])
  {
    ReplayAppend({}, h[..no], h[no..u]);
    assert h[..no] + h[no..u] == h[..u];
    ReplayMembership(Replay({}, h[..no]), h[no..u], x);
  }

  lemma FitsIffSometime(h: seq<Event>, no: nat, held: set<Bytes>, x: Bytes)
    requires no <= |h|
    ensures SometimeAgrees(h, no, |h|, held, x) <==> FitsAt(h, no, held, x)
  {
    if SometimeAgrees(h, no, |h|, held, x) {
      var u :| no <= u <= |h| && AgreeAt(h, u, held, x);
      MembershipFrom(h, no, u, x);
      if LastVerdict(h[no..u], x).Some? {
        LastIsSaid(h[no..u], x);
        SaidInPart(h, no, u, x, x in held);
      }
    }
    if x in held <==> x in Replay({}, h[..no]) {
      assert AgreeAt(h, no, held, x);
    } else if Says(h[no..], x, x in held) {
      var i :| 0 <= i < |h[no..]| && Verdict(h[no..][i].op, x) == Some(x in held);
      var u := no + i + 1;
      assert h[no..u][|h[no..u]| - 1] == h[no..][i];
      MembershipFrom(h, no, u, x);
      assert AgreeAt(h, u, held, x);
    }
  }

  /** A set is a sound possession set from number no on if and only if each hash is in it as it was at
      no, or as some later event of the same history leaves it. */
  lemma FuzzyIffFits(h: seq<Event>, no: nat, held: set<Bytes>)
    requires no <= |h|
    ensures Fuzzy(h, no, |h|, held) <==> forall x :: FitsAt(h, no, held, x)
  {
    forall x ensures SometimeAgrees(h, no, |h|, held, x) <==> FitsAt(h, no, held, x) {
      FitsIffSometime(h, no, held, x);
    }
  }

  lemma LabelInHistory(w: World, l: Late)
    requires Inv(w) && Readable(w, l) && l.HoldingsAs?
    ensures l.no <= |w.hist[(l.o, l.tag)]|
  {
    var p := (l.n, l.o);
    var t :| (t == w.copies[p] || t in w.past[p]) && t.c.clock.generation == l.tag && t.c.clock.no == l.no;
    assert PlaceOk(w.hist, p, t);
  }

  /** Holdings read late are a sound snapshot of their label if and only if each hash is in them as the
      labelled generation had it at the labelled number, or as one of its later events leaves it. */
  lemma HoldingsSoundIffFit(w: World, l: Late)
    requires Inv(w) && Readable(w, l) && l.HoldingsAs?
    ensures MsgOk(w.hist, MsgOf(w, l)) && l.no <= |w.hist[(l.o, l.tag)]|
    ensures (exists hi: nat :: MsgOk(w.hist, MsgOf(w, l).(hi := hi, clean := true))) <==>
            forall x :: FitsAt(w.hist[(l.o, l.tag)], l.no, w.copies[(l.n, l.o)].c.held, x)
    ensures HoldingsFit(w, l) <==> forall x :: FitsAt(w.hist[(l.o, l.tag)], l.no, w.copies[(l.n, l.o)].c.held, x)
  {
    var p, h := (l.n, l.o), w.hist[(l.o, l.tag)];
    var held := w.copies[p].c.held;
    assert PlaceOk(w.hist, p, w.copies[p]);
    LabelInHistory(w, l);
    FuzzyIffFits(h, l.no, held);
    if hi: nat :| MsgOk(w.hist, MsgOf(w, l).(hi := hi, clean := true)) {
      FuzzyWiden(h, h, l.no, hi, held, l.no, |h|);
    }
    if HoldingsFit(w, l) {
      assert MsgOk(w.hist, MsgOf(w, l).(hi := |h|, clean := true));
    }
  }

  /** What generation h', reminted from h at number k, holds of x at number u. */
  lemma HeldSince(h: seq<Event>, h': seq<Event>, k: nat, u: nat, x: Bytes)
    requires k <= |h| && k <= u <= |h'| && h[..k] == h'[..k]
    ensures x in Replay({}, h'[..u]) <==>
            if Touched(h'[k..u], x) then LastVerdict(h'[k..u], x) == Some(true) else x in Replay({}, h[..k])
  {
    MembershipFrom(h', k, u, x);
    TouchedHasVerdict(h'[k..u], x);
  }

  /** The old generation h has what the events since the remint last said of x: at the labelled number,
      or by an event after it. */
  ghost predicate SaidBefore(h: seq<Event>, no: nat, since: seq<Event>, x: Bytes)
    requires no <= |h|
  {
    && LastVerdict(since, x).Some?
    && (LastVerdict(since, x) == Some(x in Replay({}, h[..no])) || Says(h[no..], x, LastVerdict(since, x).value))
  }

  /** The holdings of a generation reminted at number k, read at number u of it and sent under (g, no) of
      the old generation, which may have gone on past k: sound if and only if of every hash touched
      since the remint the last word is what it was at the labelled number, or is said by some event of
      the old generation after it. */
  lemma RemintedHoldings(h: seq<Event>, h': seq<Event>, no: nat, k: nat, u: nat, held: set<Bytes>)
    requires no <= k <= |h| && k <= u <= |h'| && h[..k] == h'[..k] && held == Replay({}, h'[..u])
    ensures Fuzzy(h, no, |h|, held) <==> forall x :: Touched(h'[k..u], x) ==> SaidBefore(h, no, h'[k..u], x)
  {
    var since := h'[k..u];
    FuzzyIffFits(h, no, held);
    forall x ensures FitsAt(h, no, held, x) <==> (Touched(since, x) ==> SaidBefore(h, no, since, x)) {
      HeldSince(h, h', k, u, x);
      TouchedHasVerdict(since, x);
      if !Touched(since, x) {
        assert AgreeAt(h, k, held, x);
        FitsIffSometime(h, no, held, x);
      }
    }
  }

  /** The same for a label beyond the remint number, as a relay can show that had followed the old
      generation further: then untouched hashes count too. */
  lemma RemintedHoldingsBeyond(h: seq<Event>, h': seq<Event>, no: nat, k: nat, u: nat, held: set<Bytes>)
    requires k <= no <= |h| && k <= u <= |h'| && h[..k] == h'[..k] && held == Replay({}, h'[..u])
    ensures Fuzzy(h, no, |h|, held) <==>
            forall x :: if Touched(h'[k..u], x) then SaidBefore(h, no, h'[k..u], x)
                        else !Touched(h[k..no], x) || LastVerdict(h[k..no], x) == Some(x in Replay({}, h[..k]))
                             || Says(h[no..], x, x in Replay({}, h[..k]))
  {
    var since := h'[k..u];
    FuzzyIffFits(h, no, held);
    forall x
      ensures FitsAt(h, no, held, x) <==>
              if Touched(since, x) then SaidBefore(h, no, since, x)
              else !Touched(h[k..no], x) || LastVerdict(h[k..no], x) == Some(x in Replay({}, h[..k]))
                   || Says(h[no..], x, x in Replay({}, h[..k]))
    {
      HeldSince(h, h', k, u, x);
      TouchedHasVerdict(since, x);
      TouchedHasVerdict(h[k..no], x);
      MembershipFrom(h, k, no, x);
    }
  }

  /** In the mesh, for any node whose copy of the new generation is exact. */
  lemma RemintedHoldingsInMesh(w: World, l: Late, g': nat, k: nat, u: nat)
    requires Inv(w) && Readable(w, l) && l.HoldingsAs? && Reminted(w.hist, l.o, l.tag, g', k) && l.no <= k
    requires var t := w.copies[(l.n, l.o)];
             Exact(t) && t.c.clock.generation == g' && t.c.clock.no == u && k <= u <= |w.hist[(l.o, g')]|
    ensures var h, since := w.hist[(l.o, l.tag)], w.hist[(l.o, g')][k..u];
            HoldingsFit(w, l) <==> forall x :: Touched(since, x) ==> SaidBefore(h, l.no, since, x)
  {
    InvMeaning(w, (l.n, l.o));
    RemintedHoldings(w.hist[(l.o, l.tag)], w.hist[(l.o, g')], l.no, k, u, w.copies[(l.n, l.o)].c.held);
  }

  // ---- a guard that the responder can check itself ----

  /** If the copy's generation at the read is still the label's, rows are sound, and so are the holdings
      of a clean copy that has not fallen below the labelled number. */
  lemma SameGenerationIsSound(w: World, l: Late)
    requires Inv(w) && Readable(w, l) && w.copies[(l.n, l.o)].c.clock.generation == l.tag
    ensures l.RowsAs? ==> AgreeAtSent(w, l)
    ensures l.HoldingsAs? && w.copies[(l.n, l.o)].clean && l.no <= w.copies[(l.n, l.o)].c.clock.no ==> HoldingsFit(w, l)
  {
    var t, h := w.copies[(l.n, l.o)], w.hist[(l.o, l.tag)];
    assert PlaceOk(w.hist, (l.n, l.o), t);
    if l.RowsAs? {
      forall e | e in l.events ensures SameAt(h, h, e.no) { assert e.no in t.c.journal; }
    } else if t.clean && l.no <= t.c.clock.no {
      FuzzyWiden(h, h, t.c.clock.no, t.hi, t.c.held, l.no, |h|);
    }
  }

  // ---- whole runs ----

  /** A move keeps the mesh's invariant if and only if it is not a read of rows at whose numbers
      the two generations disagree. */
  lemma MoveKeepsInv(w: World, mv: Move)
    requires Inv(w) && CanMove(w, mv)
    ensures Inv(Moved(w, mv)) <==> (mv.Read? && mv.late.RowsAs? ==> AgreeAtSent(w, mv.late))
  {
    match mv
    case Plain(s) => StepKeepsInv(w, s);
    case Read(l) =>
      if l.RowsAs? { RowsSoundIffAgree(w, l); } else { HoldingsSoundIffFit(w, l); }
      assert MsgOf(w, l) in Moved(w, mv).msgs;
  }

  /** Every late read of rows in the run agrees at the sent numbers. */
  ghost predicate AgreeingRun(w: World, mvs: seq<Move>, final: World)
    decreases |mvs|
  {
    if mvs == [] then final == w
    else
      && CanMove(w, mvs[0]) && (mvs[0].Read? && mvs[0].late.RowsAs? ==> AgreeAtSent(w, mvs[0].late))
      && AgreeingRun(Moved(w, mvs[0]), mvs[1..], final)
  }

  lemma {:induction false} AgreeingRunKeepsInv(w: World, mvs: seq<Move>, final: World)
    requires Inv(w) && AgreeingRun(w, mvs, final)
    ensures Inv(final)
    decreases |mvs|
  {
    if mvs != [] {
      MoveKeepsInv(w, mvs[0]);
      AgreeingRunKeepsInv(Moved(w, mvs[0]), mvs[1..], final);
    }
  }

  /** So the mesh stays correct with clocks and contents read apart, as long as rows agree. */
  lemma AgreeingRunsAreCorrect(w: World, mvs: seq<Move>, final: World)
    requires Init(w) && AgreeingRun(w, mvs, final)
    ensures forall p :: p in final.copies ==> JournalIsOriginsOwn(final, p)
    ensures forall p :: p in final.copies && (p.0 == p.1 || Exact(final.copies[p])) ==> HoldsFold(final, p)
  {
    InitInv(w);
    AgreeingRunKeepsInv(w, mvs, final);
    forall p | p in final.copies
      ensures JournalIsOriginsOwn(final, p)
      ensures p.0 == p.1 || Exact(final.copies[p]) ==> HoldsFold(final, p)
    {
      InvMeaning(final, p);
    }
  }

  // ---- the failure ----

  /** In any sound mesh: a row read late at whose number the generations disagree, delivered to a
      node that stands right below it, puts an event into that node's journal that the origin
      never exported under this generation and number. */
  lemma MislabelledRowCorrupts(w: World, l: Late, e: Event, q: string)
    requires Inv(w) && Readable(w, l) && l.RowsAs? && l.events == [e] && !AgreeAtSent(w, l)
    requires q != l.o && (q, l.o) in w.copies && e.no > 0
    requires w.copies[(q, l.o)].c.clock.generation == l.tag && w.copies[(q, l.o)].c.clock.no == e.no - 1
    ensures var sent := Moved(w, Read(l));
            var s := DeliverRows(q, l.o, MsgOf(w, l), l.tag, e.no - 1);
            && Enabled(sent, s) && !JournalIsOriginsOwn(Next(sent, s), (q, l.o)) && Next(sent, s).hist == w.hist
            && Next(sent, s).copies[(q, l.o)].c.clock == Clock(l.tag, e.no, w.copies[(q, l.o)].c.clock.tail)
            && Next(sent, s).copies[(q, l.o)].c.held == FoldHolds(w.copies[(q, l.o)].c.held, HoldOf(e.op))
  {
    var sent := Moved(w, Read(l));
    var s := DeliverRows(q, l.o, MsgOf(w, l), l.tag, e.no - 1);
    RowsSoundIffAgree(w, l);
    OneRow(w.copies[(q, l.o)], MsgOf(w, l), e);
    assert Next(sent, s).copies[(q, l.o)].c.journal[e.no] == e;
  }

  /** A single row right after the clock is committed. */
  lemma OneRow(t: Tracked, m: Msg, e: Event)
    requires m.Rows? && m.events == [e] && t.c.clock.generation == m.generation && t.c.clock.no + 1 == e.no
    ensures var c := AfterRows(t, m.generation, t.c.clock.no, m).c;
            && c.clock == Clock(m.generation, e.no, t.c.clock.tail) && c.journal == t.c.journal[e.no := e]
            && c.held == FoldHolds(t.c.held, HoldOf(e.op))
  {
    var empty := Batch([], [], [], t.c.clock.no);
    assert m.events[1..] == [] && [e][..0] == [];
    assert Scan(empty, m.events) == Scan(Extend(empty, e), m.events[1..]) == Some(Extend(empty, e));
    assert PutRows(t.c.journal, [e]) == PutRows(t.c.journal, [e][..0])[e.no := e];
  }

  /** A set installed at number no is exact at u if and only if the events between touch every hash on
      which it differs from the fold at no. */
  lemma InstalledHealsIffTouched(h: seq<Event>, no: nat, u: nat, held: set<Bytes>)
    requires no <= u <= |h|
    ensures Replay(held, h[no..u]) == Replay({}, h[..u]) <==>
            forall x :: x in Differing(held, Replay({}, h[..no])) ==> Touched(h[no..u], x)
  {
    MeetIffTouched(held, Replay({}, h[..no]), h[no..u]);
    ReplayAppend({}, h[..no], h[no..u]);
    assert h[..no] + h[no..u] == h[..u];
  }

  /** A possession set sent under a label is installed as it is. The receiver then holds the fold of its
      clock if and only if the set is that fold, and events of the labelled generation through u make
      it exact if and only if they touch every hash on which the two differ. */
  lemma MislabelledHoldings(w: World, l: Late, q: string, u: nat)
    requires Inv(w) && Readable(w, l) && l.HoldingsAs? && q != l.o && (q, l.o) in w.copies
    requires !StaleSnapshot(w.copies[(q, l.o)].c, l.tag, l.no) && l.no <= u <= |w.hist[(l.o, l.tag)]|
    ensures var sent := Moved(w, Read(l));
            var s := DeliverSnapshot(q, l.o, MsgOf(w, l));
            var h, held := w.hist[(l.o, l.tag)], w.copies[(l.n, l.o)].c.held;
            && Enabled(sent, s) && Next(sent, s).hist == w.hist
            && Next(sent, s).copies[(q, l.o)].c == Copy(Clock(l.tag, l.no, l.no), map[], held)
            && (HoldsFold(Next(sent, s), (q, l.o)) <==> held == Replay({}, h[..l.no]))
            && (Replay(held, h[l.no..u]) == Replay({}, h[..u]) <==>
                forall x :: x in Differing(held, Replay({}, h[..l.no])) ==> Touched(h[l.no..u], x))
  {
    var held := w.copies[(l.n, l.o)].c.held;
    assert PlaceOk(w.hist, (l.n, l.o), w.copies[(l.n, l.o)]);
    assert Digests(held) == held;
    InstalledHealsIffTouched(w.hist[(l.o, l.tag)], l.no, u, held);
  }

  /** If the set fits its label, events through the end of the labelled history make it exact. */
  lemma FittingHoldingsHeal(w: World, l: Late)
    requires Inv(w) && Readable(w, l) && l.HoldingsAs? && HoldingsFit(w, l)
    ensures var h := w.hist[(l.o, l.tag)];
            l.no <= |h| && Replay(w.copies[(l.n, l.o)].c.held, h[l.no..]) == Replay({}, h)
  {
    var h := w.hist[(l.o, l.tag)];
    LabelInHistory(w, l);
    assert PlaceOk(w.hist, (l.n, l.o), w.copies[(l.n, l.o)]);
    assert h[l.no..|h|] == h[l.no..] && h[..|h|] == h;
    FuzzyHeals(h, l.no, |h|, w.copies[(l.n, l.o)].c.held, |h|);
  }

  // ---- the failure inside a run ----

  /** An origin "o" and a replica "r" of it. */
  ghost function Two(o: Tracked, r: Tracked, po: set<Tracked>, pr: set<Tracked>, hist: map<Era, seq<Event>>,
                     msgs: set<Msg>): World {
    World(map[("o", "o") := o, ("r", "o") := r], map[("o", "o") := po, ("r", "o") := pr], hist, msgs)
  }

  lemma PutEither<T>(x: T, y: T, z: T)
    ensures map[("o", "o") := x, ("r", "o") := y][("o", "o") := z] == map[("o", "o") := z, ("r", "o") := y]
    ensures map[("o", "o") := x, ("r", "o") := y][("r", "o") := z] == map[("o", "o") := x, ("r", "o") := z]
  {}

  lemma StepOfO(o: Tracked, r: Tracked, po: set<Tracked>, pr: set<Tracked>, hist: map<Era, seq<Event>>, msgs: set<Msg>,
                s: Step)
    requires var w := Two(o, r, po, pr, hist, msgs); Enabled(w, s) && PlaceOf(s) == ("o", "o")
    ensures var w := Two(o, r, po, pr, hist, msgs);
            Next(w, s) == Two(NewCopy(w, s), r, po + {o}, pr, NewHist(w, s), NewMsgs(w, s))
  {
    var w := Two(o, r, po, pr, hist, msgs);
    PutEither(o, r, NewCopy(w, s));
    PutEither(po, pr, po + {o});
  }

  lemma StepOfR(o: Tracked, r: Tracked, po: set<Tracked>, pr: set<Tracked>, hist: map<Era, seq<Event>>, msgs: set<Msg>,
                s: Step)
    requires var w := Two(o, r, po, pr, hist, msgs); Enabled(w, s) && PlaceOf(s) == ("r", "o")
    ensures var w := Two(o, r, po, pr, hist, msgs);
            Next(w, s) == Two(o, NewCopy(w, s), po, pr + {r}, NewHist(w, s), NewMsgs(w, s))
  {
    var w := Two(o, r, po, pr, hist, msgs);
    PutEither(o, r, NewCopy(w, s));
    PutEither(po, pr, pr + {r});
  }

  lemma {:induction false} RunSnoc(w: World, steps: seq<Step>, mid: World, s: Step)
    requires Run(w, steps, mid) && Enabled(mid, s)
    ensures Run(w, steps + [s], Next(mid, s))
    decreases |steps|
  {
    if steps != [] {
      assert (steps + [s])[1..] == steps[1..] + [s];
      RunSnoc(Next(w, steps[0]), steps[1..], mid, s);
    }
  }

  /** Generation g with nothing in it. */
  function Fresh(g: nat): Tracked { Tracked(Copy(Clock(g, 0, 0), map[], {}), 0, true) }

  /** Generation g with one hash exported. */
  function Single(g: nat, x: Bytes): Tracked {
    Tracked(Copy(Clock(g, 1, 0), map[1 := Event(1, Have(x))], {x}), 1, true)
  }

  lemma ExportOne(g: nat, x: Bytes)
    requires IsDigest(x)
    ensures Numbered(0, [Have(x)]) == [Event(1, Have(x))] && ExportTo(Fresh(g).c, [Event(1, Have(x))]) == Single(g, x).c
    ensures Replay({}, [Event(1, Have(x))]) == {x}
  {
    var es := [Event(1, Have(x))];
    assert [Have(x)][..0] == [] && es[..0] == [];
    assert Numbered(0, [Have(x)]) == Numbered(0, []) + es == es;
    assert PutRows(map[], es) == PutRows(map[], es[..0])[1 := es[0]] == map[1 := es[0]];
    assert Replay({}, es) == StepOp(Replay({}, es[..0]), Have(x)) == {x};
  }

  /** Some run leads from one world to the other. */
  ghost predicate Reaches(start: World, w: World) { exists steps :: Run(start, steps, w) }

  lemma ReachesNext(start: World, w: World, s: Step)
    requires Reaches(start, w) && Enabled(w, s)
    ensures Reaches(start, Next(w, s))
  {
    var steps :| Run(start, steps, w);
    RunSnoc(start, steps, w, s);
  }

  /** The origin remints an empty generation g to g'. */
  lemma ThenRemint(start: World, g: nat, g': nat, r: Tracked, po: set<Tracked>, pr: set<Tracked>,
                   hist: map<Era, seq<Event>>, msgs: set<Msg>)
    requires ("o", g) in hist && ("o", g') !in hist && g < g' && Reaches(start, Two(Fresh(g), r, po, pr, hist, msgs))
    ensures Reaches(start, Two(Fresh(g'), r, po + {Fresh(g)}, pr, hist[("o", g') := []], msgs))
  {
    var w, s := Two(Fresh(g), r, po, pr, hist, msgs), Remint("o", g');
    StepOfO(Fresh(g), r, po, pr, hist, msgs, s);
    assert hist[("o", g)][..0] == [];
    ReachesNext(start, w, s);
  }

  /** The origin sends its empty snapshot. */
  lemma ThenSend(start: World, g: nat, r: Tracked, po: set<Tracked>, pr: set<Tracked>, hist: map<Era, seq<Event>>,
                 msgs: set<Msg>)
    requires g > 0 && Reaches(start, Two(Fresh(g), r, po, pr, hist, msgs))
    ensures Reaches(start, Two(Fresh(g), r, po + {Fresh(g)}, pr, hist, msgs + {Snapshot("o", g, 0, {}, 0, true)}))
  {
    var w, s := Two(Fresh(g), r, po, pr, hist, msgs), SendSnapshot("o", "o", 0);
    StepOfO(Fresh(g), r, po, pr, hist, msgs, s);
    ReachesNext(start, w, s);
  }

  /** The replica takes it. */
  lemma ThenTake(start: World, g: nat, o: Tracked, po: set<Tracked>, pr: set<Tracked>, hist: map<Era, seq<Event>>,
                 msgs: set<Msg>)
    requires Snapshot("o", g, 0, {}, 0, true) in msgs && Reaches(start, Two(o, START, po, pr, hist, msgs))
    ensures Reaches(start, Two(o, Fresh(g), po, pr + {START}, hist, msgs))
  {
    var m := Snapshot("o", g, 0, {}, 0, true);
    var w, s := Two(o, START, po, pr, hist, msgs), DeliverSnapshot("r", "o", m);
    StepOfR(o, START, po, pr, hist, msgs, s);
    assert Digests({}) == {};
    ReachesNext(start, w, s);
  }

  /** The origin exports x. */
  lemma ThenExport(start: World, g: nat, x: Bytes, r: Tracked, po: set<Tracked>, pr: set<Tracked>,
                   hist: map<Era, seq<Event>>, msgs: set<Msg>)
    requires IsDigest(x) && g > 0 && ("o", g) in hist && hist[("o", g)] == []
             && Reaches(start, Two(Fresh(g), r, po, pr, hist, msgs))
    ensures Reaches(start, Two(Single(g, x), r, po + {Fresh(g)}, pr, hist[("o", g) := [Event(1, Have(x))]], msgs))
  {
    var w, s := Two(Fresh(g), r, po, pr, hist, msgs), Export("o", [Have(x)]);
    ExportOne(g, x);
    StepOfO(Fresh(g), r, po, pr, hist, msgs, s);
    ReachesNext(start, w, s);
  }

  /** The origin's store is restored to before its export. */
  lemma ThenRestore(start: World, g: nat, o: Tracked, r: Tracked, po: set<Tracked>, pr: set<Tracked>,
                    hist: map<Era, seq<Event>>, msgs: set<Msg>)
    requires Fresh(g) in po && Reaches(start, Two(o, r, po, pr, hist, msgs))
    ensures Reaches(start, Two(Fresh(g), r, po + {o}, pr, hist, msgs))
  {
    var w, s := Two(o, r, po, pr, hist, msgs), Restore("o", Fresh(g));
    StepOfO(o, r, po, pr, hist, msgs, s);
    ReachesNext(start, w, s);
  }

  const NONE: map<Era, seq<Event>> := map[("o", 0) := []]

  /** Generation 1 holds a and generation 2 holds b under the same number; the replica's copy is r. */
  ghost predicate Forked(w: World, a: Bytes, b: Bytes, r: Tracked) {
    exists po, pr, msgs :: Fresh(1) in po && w == Two(Single(2, b), r, po, pr, ForkedHist(a, b), msgs)
  }

  function ForkedHist(a: Bytes, b: Bytes): map<Era, seq<Event>> {
    map[("o", 0) := [], ("o", 1) := [Event(1, Have(a))], ("o", 2) := [Event(1, Have(b))]]
  }

  const BEGIN: World := World(map[("o", "o") := START, ("r", "o") := START], map[("o", "o") := {}, ("r", "o") := {}],
    NONE, {})

  /** The origin starts generation 1. */
  lemma FirstGeneration() returns (po: set<Tracked>)
    ensures Reaches(BEGIN, Two(Fresh(1), START, po, {}, NONE[("o", 1) := []], {}))
  {
    assert BEGIN == Two(Fresh(0), START, {}, {}, NONE, {}) && Run(BEGIN, [], BEGIN);
    ThenRemint(BEGIN, 0, 1, START, {}, {}, NONE, {});
    po := {} + {Fresh(0)};
  }

  /** The replica takes its empty snapshot. */
  lemma FirstSnapshot(po: set<Tracked>, hist: map<Era, seq<Event>>)
      returns (p: set<Tracked>, pr: set<Tracked>, ms: set<Msg>)
    requires Reaches(BEGIN, Two(Fresh(1), START, po, {}, hist, {}))
    ensures Reaches(BEGIN, Two(Fresh(1), Fresh(1), p, pr, hist, ms))
  {
    ThenSend(BEGIN, 1, START, po, {}, hist, {});
    p, pr, ms := po + {Fresh(1)}, {} + {START}, {} + {Snapshot("o", 1, 0, {}, 0, true)};
    ThenTake(BEGIN, 1, Fresh(1), p, {}, hist, ms);
  }

  /** The origin exports a, and is restored to before that. */
  lemma LostExport(a: Bytes, r: Tracked, po: set<Tracked>, pr: set<Tracked>, hist: map<Era, seq<Event>>, ms: set<Msg>)
      returns (p: set<Tracked>)
    requires IsDigest(a) && ("o", 1) in hist && hist[("o", 1)] == []
             && Reaches(BEGIN, Two(Fresh(1), r, po, pr, hist, ms))
    ensures Reaches(BEGIN, Two(Fresh(1), r, p, pr, hist[("o", 1) := [Event(1, Have(a))]], ms))
  {
    ThenExport(BEGIN, 1, a, r, po, pr, hist, ms);
    var p4, h4 := po + {Fresh(1)}, hist[("o", 1) := [Event(1, Have(a))]];
    ThenRestore(BEGIN, 1, Single(1, a), r, p4, pr, h4, ms);
    p := p4 + {Single(1, a)};
  }

  /** It remints, and exports b. */
  lemma NewExport(b: Bytes, r: Tracked, po: set<Tracked>, pr: set<Tracked>, hist: map<Era, seq<Event>>, ms: set<Msg>)
      returns (p: set<Tracked>)
    requires IsDigest(b) && ("o", 1) in hist && ("o", 2) !in hist
             && Reaches(BEGIN, Two(Fresh(1), r, po, pr, hist, ms))
    ensures Fresh(1) in p
    ensures Reaches(BEGIN, Two(Single(2, b), r, p, pr, hist[("o", 2) := [Event(1, Have(b))]], ms))
  {
    ThenRemint(BEGIN, 1, 2, r, po, pr, hist, ms);
    var p6, h6 := po + {Fresh(1)}, hist[("o", 2) := []];
    ThenExport(BEGIN, 2, b, r, p6, pr, h6, ms);
    assert h6[("o", 2) := [Event(1, Have(b))]] == hist[("o", 2) := [Event(1, Have(b))]];
    p := p6 + {Fresh(2)};
  }

  lemma HistForks(a: Bytes, b: Bytes)
    ensures var h4 := NONE[("o", 1) := []][("o", 1) := [Event(1, Have(a))]];
            ("o", 1) in h4 && ("o", 2) !in h4 && h4[("o", 2) := [Event(1, Have(b))]] == ForkedHist(a, b)
  {}

  lemma ThenFork(a: Bytes, b: Bytes, r: Tracked, po: set<Tracked>, pr: set<Tracked>, ms: set<Msg>) returns (w: World)
    requires IsDigest(a) && IsDigest(b) && Reaches(BEGIN, Two(Fresh(1), r, po, pr, NONE[("o", 1) := []], ms))
    ensures Reaches(BEGIN, w) && Forked(w, a, b, r)
  {
    var h1 := NONE[("o", 1) := []];
    var p5 := LostExport(a, r, po, pr, h1, ms);
    HistForks(a, b);
    var p7 := NewExport(b, r, p5, pr, h1[("o", 1) := [Event(1, Have(a))]], ms);
    w := Two(Single(2, b), r, p7, pr, ForkedHist(a, b), ms);
  }

  /** Both forks are reached: with a replica that knows generation 1, and with one that knows none. */
  lemma ForkIsReached(a: Bytes, b: Bytes, known: bool) returns (w: World)
    requires IsDigest(a) && IsDigest(b)
    ensures Init(BEGIN) && Inv(w) && Reaches(BEGIN, w) && Forked(w, a, b, if known then Fresh(1) else START)
  {
    var po := FirstGeneration();
    if known {
      var p, pr, ms := FirstSnapshot(po, NONE[("o", 1) := []]);
      w := ThenFork(a, b, Fresh(1), p, pr, ms);
    } else {
      w := ThenFork(a, b, START, po, {}, {});
    }
    BeginIsInit();
    ReachedIsSound(BEGIN, w);
  }

  lemma ReachedIsSound(start: World, w: World)
    requires Init(start) && Reaches(start, w)
    ensures Inv(w)
  {
    InitInv(start);
    var steps :| Run(start, steps, w);
    RunKeepsInv(start, steps, w);
  }

  lemma BeginIsInit()
    ensures Init(BEGIN)
  {}

  /** What the fork looks like from outside. */
  lemma ForkLooks(w: World, a: Bytes, b: Bytes, r: Tracked)
    requires Forked(w, a, b, r)
    ensures ("o", "o") in w.copies && ("o", "o") in w.past && w.copies[("o", "o")] == Single(2, b)
    ensures Showed(w, ("o", "o"), 1, 0) && ("r", "o") in w.copies && w.copies[("r", "o")] == r
    ensures w.hist == ForkedHist(a, b)
  {
    assert Fresh(1) in w.past[("o", "o")];
  }

  /** The origin's clock was read in generation 1, its row after the remint. */
  lemma ForkMisleads(w: World, a: Bytes, b: Bytes)
    requires Forked(w, a, b, Fresh(1)) && IsDigest(a) && IsDigest(b) && a != b && Inv(w)
    ensures var l := RowsAs("o", "o", 1, [Event(1, Have(b))]); Readable(w, l) && !AgreeAtSent(w, l)
    ensures ("r", "o") in w.copies && w.copies[("r", "o")] == Fresh(1)
    ensures ("o", 1) in w.hist && w.hist[("o", 1)] == [Event(1, Have(a))]
  {
    var e := Event(1, Have(b));
    var l := RowsAs("o", "o", 1, [e]);
    ForkLooks(w, a, b, Fresh(1));
    assert w.hist[("o", 2)] == [e];
    assert e in l.events && !SameAt(w.hist[("o", 1)], w.hist[("o", 2)], 1);
  }

  lemma ReplicaIsMisled(w: World, a: Bytes, b: Bytes)
    requires Forked(w, a, b, Fresh(1)) && IsDigest(a) && IsDigest(b) && a != b && Inv(w)
    ensures Misled(w, a, b)
  {
    var e := Event(1, Have(b));
    var l := RowsAs("o", "o", 1, [e]);
    ForkMisleads(w, a, b);
    MislabelledRowCorrupts(w, l, e, "r");
    ExportOne(1, a);
    HoldOfMeaning({}, e.op);
  }

  /** One late read of a row and its delivery, and the replica is at the clock (1, 1) with b and a
      row that is not the origin's, where generation 1 holds a. */
  ghost predicate Misled(w: World, a: Bytes, b: Bytes) {
    var l := RowsAs("o", "o", 1, [Event(1, Have(b))]);
    && Readable(w, l)
    && var s := DeliverRows("r", "o", MsgOf(w, l), 1, 0);
       && Enabled(Moved(w, Read(l)), s)
       && var final := Next(Moved(w, Read(l)), s);
          && ("r", "o") in final.copies && ("o", 1) in final.hist && !JournalIsOriginsOwn(final, ("r", "o"))
          && final.copies[("r", "o")].c.clock == Clock(1, 1, 0) && final.copies[("r", "o")].c.held == {b}
          && Replay({}, final.hist[("o", 1)]) == {a}
  }

  /** A run in which it happens. */
  lemma RowsReadAcrossGenerations(a: Bytes, b: Bytes) returns (start: World, w: World)
    requires IsDigest(a) && IsDigest(b) && a != b
    ensures Init(start) && Reaches(start, w) && Misled(w, a, b)
  {
    start := BEGIN;
    w := ForkIsReached(a, b, true);
    ReplicaIsMisled(w, a, b);
  }

  /** One late read of holdings and its delivery to a replica that knows no generation yet: it is at the
      clock (1, 0) with b, which generation 1 never holds, and all events of that generation together do
      not take b away. */
  ghost predicate MisledByHoldings(w: World, a: Bytes, b: Bytes) {
    var l := HoldingsAs("o", "o", 1, 0);
    && Readable(w, l) && !HoldingsFit(w, l)
    && var s := DeliverSnapshot("r", "o", MsgOf(w, l));
       && Enabled(Moved(w, Read(l)), s)
       && var final := Next(Moved(w, Read(l)), s);
          && ("r", "o") in final.copies && ("o", 1) in final.hist && !HoldsFold(final, ("r", "o"))
          && final.copies[("r", "o")].c == Copy(Clock(1, 0, 0), map[], {b})
          && Replay({b}, final.hist[("o", 1)]) != Replay({}, final.hist[("o", 1)]) == {a}
  }

  /** b is not in generation 1, now or later. */
  lemma BDoesNotFit(a: Bytes, b: Bytes)
    requires IsDigest(a) && IsDigest(b) && a != b
    ensures var h := [Event(1, Have(a))];
            !FitsAt(h, 0, {b}, b) && !Touched(h[0..1], b) && Replay({}, h[..0]) == {} && h[0..1] == h == h[..1]
  {
    var h := [Event(1, Have(a))];
    assert h[..0] == [] && h[0..] == h;
  }

  lemma ReplicaIsMisledByHoldings(w: World, a: Bytes, b: Bytes)
    requires Forked(w, a, b, START) && IsDigest(a) && IsDigest(b) && a != b && Inv(w)
    ensures MisledByHoldings(w, a, b)
  {
    var l := HoldingsAs("o", "o", 1, 0);
    ForkLooks(w, a, b, START);
    BDoesNotFit(a, b);
    HoldingsSoundIffFit(w, l);
    assert !FitsAt(w.hist[("o", 1)], 0, w.copies[("o", "o")].c.held, b);
    MislabelledHoldings(w, l, "r", 1);
    assert b in Differing({b}, Replay({}, w.hist[("o", 1)][..0]));
    ExportOne(1, a);
  }

  /** A run in which that happens. */
  lemma HoldingsReadAcrossGenerations(a: Bytes, b: Bytes) returns (start: World, w: World)
    requires IsDigest(a) && IsDigest(b) && a != b
    ensures Init(start) && Reaches(start, w) && MisledByHoldings(w, a, b)
  {
    start := BEGIN;
    w := ForkIsReached(a, b, false);
    ReplicaIsMisledByHoldings(w, a, b);
  }
}
