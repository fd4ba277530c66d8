/** The index object itself (src/index.rs over the composites of src/store/rocks.rs): fields
    that its methods reassign, each method tied to the functions of `Replica`, `Pull` and
    `Retention` that the mesh theorems are about. */
module Index {
  import opened Common
  import opened Facts
  import opened Replica
  import Feed
  import Mesh
  import Pull
  import PullLoop
  import Retention

  const EXPORT_CHUNK: nat := 10_000

  datatype Apply = Applied(count: nat) | NeedSnapshot | Refused

  /** What `apply_suffix` reports for a plan. */
  function Report(p: Plan): Apply {
    match p
    case Stale => Applied(0)
    case Gap => NeedSnapshot
    case Ready(b) => Applied(|b.rows|)
  }

  function OpOf(h: HoldOp): Op { match h case Add(x) => Have(x) case Remove(x) => Drop(x) }

  /** The operations `export_ops` journals: attestations first, then possession. */
  function ExportOps(attests: seq<Attestation>, holds: seq<HoldOp>): (ops: seq<Op>)
    ensures |ops| == |attests| + |holds|
    ensures forall i :: 0 <= i < |attests| ==> ops[i] == Attest(attests[i])
    ensures forall i :: 0 <= i < |holds| ==> ops[|attests| + i] == OpOf(holds[i])
  {
    seq(|attests|, i requires 0 <= i < |attests| => Attest(attests[i]))
    + seq(|holds|, i requires 0 <= i < |holds| => OpOf(holds[i]))
  }

  // ---- lemmas the methods lean on ----

  ghost predicate ElseSame(a: map<string, Copy>, b: map<string, Copy>, o: string) {
    forall x :: x != o ==> (x in a <==> x in b) && (x in a ==> a[x] == b[x])
  }

  ghost predicate DigestsOnly(held: set<Bytes>) { forall x :: x in held ==> IsDigest(x) }

  /** Possession after a batch when only the last operation per hash is applied. */
  function Settle(held: set<Bytes>, fin: map<Bytes, bool>): set<Bytes> {
    (set h | h in held && !(h in fin && !fin[h])) + (set h | h in fin && fin[h])
  }

  /** The possession set when `adopted` hashes already have their new membership: the state
      that `Mesh.AfterPartial` describes. */
  function Adopt<T(==)>(was: set<T>, target: set<T>, adopted: set<T>): set<T> {
    (was - adopted) + target * adopted
  }

  lemma AdoptMore<T>(was: set<T>, target: set<T>, adopted: set<T>, chunk: set<T>)
    ensures Adopt(was, target, adopted + chunk) == (Adopt(was, target, adopted) - chunk) + target * chunk
  {}

  lemma AdoptAll<T>(was: set<T>, target: set<T>, adopted: set<T>)
    requires adopted == (was - target) + (target - was)
    ensures Adopt(was, target, adopted) == target
  {}

  lemma ChunkDone<T>(all: set<T>, todo: set<T>, chunk: set<T>)
    requires todo <= all && chunk <= todo
    ensures all - (todo - chunk) == (all - todo) + chunk && |todo - chunk| == |todo| - |chunk|
    ensures |all - todo| == |all| - |todo| && |(all - todo) + chunk| == |all - todo| + |chunk|
  {}

  /** The snapshot that a replace is given, as a message of the mesh. */
  function Offer(origin: string, generation: nat, no: nat, held: set<Bytes>): Mesh.Msg {
    Mesh.Snapshot(origin, generation, no, held, 0, false)
  }

  /** c is what a replace of `was` can leave behind when it stops. */
  ghost predicate Stage(was: Copy, m: Mesh.Msg, c: Copy)
    requires m.Snapshot?
  {
    exists adopted, batches :: Mesh.Interrupted(was, m, adopted, batches)
      && c == Mesh.AfterPartial(Mesh.Tracked(was, 0, false), m, adopted, Mesh.Lost(was, batches)).c
  }

  lemma HoldStage(was: Copy, m: Mesh.Msg, adopted: set<Bytes>, c: Copy)
    requires m.Snapshot? && Mesh.Interrupted(was, m, adopted, 0)
    requires c == was.(held := Adopt(was.held, Digests(m.held), adopted))
    ensures Stage(was, m, c)
  {
    assert Mesh.Lost(was, 0) == {};
    assert (map i | i in was.journal && i !in Mesh.Lost(was, 0) :: was.journal[i]) == was.journal;
    assert Mesh.AfterPartial(Mesh.Tracked(was, 0, false), m, adopted, Mesh.Lost(was, 0)).c == c;
  }

  /** How far the possession batches of a replace have come. */
  ghost predicate Chunked(was: Copy, m: Mesh.Msg, todo: set<Bytes>, now: set<Bytes>)
    requires m.Snapshot?
  {
    var differ := Differing(was.held, Digests(m.held));
    && todo <= differ && (todo == {} || |differ - todo| % BATCH_OPS == 0)
    && now == Adopt(was.held, Digests(m.held), differ - todo)
  }

  lemma WholeBatches(a: nat)
    requires a % BATCH_OPS == 0
    ensures (a + BATCH_OPS) % BATCH_OPS == 0
  {}

  lemma NextChunked(was: Copy, m: Mesh.Msg, todo: set<Bytes>, now: set<Bytes>, chunk: set<Bytes>)
    requires m.Snapshot? && Chunked(was, m, todo, now) && todo != {} && chunk <= todo
             && |chunk| == Min(|todo|, BATCH_OPS)
    ensures Chunked(was, m, todo - chunk, (now - chunk) + Digests(m.held) * chunk) && |todo - chunk| < |todo|
  {
    var differ := Differing(was.held, Digests(m.held));
    ChunkDone(differ, todo, chunk);
    AdoptMore(was.held, Digests(m.held), differ - todo, chunk);
    if |todo| <= BATCH_OPS {
      SubsetSize(chunk, todo);
    } else {
      WholeBatches(|differ - todo|);
    }
  }

  lemma ChunkedIsStage(was: Copy, m: Mesh.Msg, todo: set<Bytes>, now: set<Bytes>)
    requires m.Snapshot? && Chunked(was, m, todo, now)
    ensures Stage(was, m, was.(held := now))
  {
    var differ := Differing(was.held, Digests(m.held));
    if todo == {} { assert differ - todo == differ; }
    assert Mesh.Interrupted(was, m, differ - todo, 0);
    HoldStage(was, m, differ - todo, was.(held := now));
  }

  lemma RowStage(was: Copy, m: Mesh.Msg, batches: nat, c: Copy)
    requires m.Snapshot? && batches * BATCH_OPS <= |was.journal|
    requires c == was.(held := Digests(m.held), journal := map i | i in was.journal && i !in Mesh.Lost(was, batches) ::
               was.journal[i])
    ensures Stage(was, m, c)
  {
    var all := Differing(was.held, Digests(m.held));
    AdoptAll(was.held, Digests(m.held), all);
    assert Mesh.Interrupted(was, m, all, batches);
    assert Mesh.AfterPartial(Mesh.Tracked(was, 0, false), m, all, Mesh.Lost(was, batches)).c == c;
  }

  /** The facts among exported operations. */
  function FactsOf(ops: seq<Op>): seq<Attestation>
    decreases |ops|
  {
    if ops == [] then [] else FactsOf(ops[..|ops| - 1]) + (if ops[|ops| - 1].Attest? then [ops[|ops| - 1].fact] else [])
  }

  lemma {:induction false} FactsOfAppend(a: seq<Op>, b: seq<Op>)
    ensures FactsOf(a + b) == FactsOf(a) + FactsOf(b)
    decreases |b|
  {
    if b == [] {
      assert a + b == a;
    } else {
      assert (a + b)[..|a + b| - 1] == a + b[..|b| - 1];
      FactsOfAppend(a, b[..|b| - 1]);
    }
  }

  lemma {:induction false} FactsOfExport(attests: seq<Attestation>, holds: seq<HoldOp>)
    ensures FactsOf(ExportOps(attests, holds)) == attests
    decreases |attests| + |holds|
  {
    var ops := ExportOps(attests, holds);
    if holds != [] {
      var fewer := holds[..|holds| - 1];
      assert ops[..|ops| - 1] == ExportOps(attests, fewer);
      FactsOfExport(attests, fewer);
      assert ops[|ops| - 1] == OpOf(holds[|holds| - 1]);
    } else if attests != [] {
      var fewer := attests[..|attests| - 1];
      assert ops[..|ops| - 1] == ExportOps(fewer, holds);
      FactsOfExport(fewer, holds);
    }
  }

  /** A chunk of operations as the batch that exports it. */
  function ChunkOf(no: nat, ops: seq<Op>): Batch {
    Batch(Numbered(no, ops), HoldsOf(Numbered(no, ops)), FactsOf(ops), no + |ops|)
  }

  lemma ChunkStep(no: nat, ops: seq<Op>, i: nat)
    requires i < |ops|
    ensures var b, e := ChunkOf(no, ops[..i]), Event(no + i + 1, ops[i]);
            ChunkOf(no, ops[..i + 1]) == Batch(b.rows + [e], b.holds + HoldOf(e.op), b.attests
              + (if e.op.Attest? then [e.op.fact] else []), e.no)
  {
    assert ops[..i + 1] == ops[..i] + [ops[i]] && ops[..i + 1][..i] == ops[..i];
    HoldsOfNext(Numbered(no, ops[..i]), Event(no + i + 1, ops[i]));
  }

  lemma NumberedPieces(no: nat, ops: seq<Op>, i: nat, j: nat)
    requires i <= j <= |ops|
    ensures |Numbered(no, ops)| == |ops| && |Numbered(no + i, ops[i..j])| == j - i
    ensures Numbered(no, ops)[..i] + Numbered(no + i, ops[i..j]) == Numbered(no, ops)[..j]
  {
    NumberedMeaning(no, ops);
    NumberedMeaning(no + i, ops[i..j]);
  }

  lemma {:induction false} PutRowsAppend(j: map<nat, Event>, a: seq<Event>, b: seq<Event>)
    ensures PutRows(j, a + b) == PutRows(PutRows(j, a), b)
    decreases |b|
  {
    if b == [] {
      assert a + b == a;
    } else {
      assert (a + b)[..|a + b| - 1] == a + b[..|b| - 1];
      PutRowsAppend(j, a, b[..|b| - 1]);
    }
  }

  /** Exporting in two pieces is exporting once. */
  lemma ExportInPieces(c: Copy, es: seq<Event>, more: seq<Event>, attests: seq<Attestation>)
    requires forall x :: x in c.held ==> IsDigest(x)
    ensures var mid := ExportTo(c, es);
            var b := Batch(more, HoldsOf(more), attests, mid.clock.no + |more|);
            Commit(mid, mid.clock.generation, mid.clock.no, mid.clock.generation, b) == ExportTo(c, es + more)
  {
    PutRowsAppend(c.journal, es, more);
    ReplayAppend(c.held, es, more);
    ReplayDigests(c.held, es);
    HoldsReplay(Replay(c.held, es), more);
  }

  lemma ExportPiece(cur: Copy, ops: seq<Op>, i: nat, end: nat, b: Batch)
    requires DigestsOnly(cur.held) && i <= end <= |ops|
    requires b.rows == Numbered(cur.clock.no + i, ops[i..end]) && b.no == cur.clock.no + end
             && b.holds == HoldsOf(b.rows)
    ensures var es := Numbered(cur.clock.no, ops);
            |es| == |ops| && ExportTo(cur, es[..i]).clock.no == cur.clock.no + i
            && Commit(ExportTo(cur, es[..i]), cur.clock.generation, cur.clock.no + i, cur.clock.generation, b)
               == ExportTo(cur, es[..end])
  {
    var es := Numbered(cur.clock.no, ops);
    NumberedPieces(cur.clock.no, ops, i, end);
    ExportInPieces(cur, es[..i], b.rows, b.attests);
    assert b == Batch(b.rows, HoldsOf(b.rows), b.attests, ExportTo(cur, es[..i]).clock.no + |b.rows|);
  }

  lemma FactsPiece(t: Table, ops: seq<Op>, i: nat, end: nat)
    requires i <= end <= |ops|
    ensures MergeAll(MergeAll(t, FactsOf(ops[..i])), FactsOf(ops[i..end])) == MergeAll(t, FactsOf(ops[..end]))
  {
    FactsOfAppend(ops[..i], ops[i..end]);
    assert ops[..i] + ops[i..end] == ops[..end];
    MergeAllAppend(t, FactsOf(ops[..i]), FactsOf(ops[i..end]));
  }

  /** The copy and the facts once the first i operations of an export were committed. */
  ghost predicate Exported(c: Copy, facts: Table, cur: Copy, known: Table, ops: seq<Op>, i: nat) {
    && i <= |ops| && |Numbered(cur.clock.no, ops)| == |ops|
    && c == ExportTo(cur, Numbered(cur.clock.no, ops)[..i]) && facts == MergeAll(known, FactsOf(ops[..i]))
  }

  lemma ExportedNothing(cur: Copy, known: Table, ops: seq<Op>)
    ensures Exported(cur, known, cur, known, ops, 0)
  {
    NumberedMeaning(cur.clock.no, ops);
    assert Numbered(cur.clock.no, ops)[..0] == [] && ops[..0] == [];
  }

  lemma ExportedAt(c: Copy, facts: Table, cur: Copy, known: Table, ops: seq<Op>, i: nat)
    requires Exported(c, facts, cur, known, ops, i)
    ensures c.clock.no == cur.clock.no + i && c.clock.generation == cur.clock.generation
  {}

  lemma ExportedAll(c: Copy, facts: Table, cur: Copy, known: Table, ops: seq<Op>)
    requires Exported(c, facts, cur, known, ops, |ops|)
    ensures c == ExportTo(cur, Numbered(cur.clock.no, ops)) && facts == MergeAll(known, FactsOf(ops))
  {
    var es := Numbered(cur.clock.no, ops);
    assert es[..|ops|] == es && ops[..|ops|] == ops;
  }

  /** The loop body's bookkeeping for one exported operation. */
  lemma HoldsOfNext(es: seq<Event>, e: Event)
    ensures HoldsOf(es + [e]) == HoldsOf(es) + HoldOf(e.op)
  {
    assert (es + [e])[..|es + [e]| - 1] == es;
  }

  /** The marks of all peers for one origin. */
  function MarksIn(marks: map<(string, string), nat>, origin: string): map<string, nat> {
    map k | k in marks && k.1 == origin :: k.0 := marks[k]
  }

  lemma MarksInAt(marks: map<(string, string), nat>, o: string, p: string)
    ensures p in MarksIn(marks, o) <==> (p, o) in marks
    ensures (p, o) in marks ==> MarksIn(marks, o)[p] == marks[(p, o)]
  {
    if (p, o) in marks { assert (p, o).1 == o && (p, o).0 == p; }
  }

  lemma MarksPut(marks: map<(string, string), nat>, peer: string, o: string, no: nat)
    ensures MarksIn(marks[(peer, o) := no], o) == MarksIn(marks, o)[peer := no]
    ensures Retention.Mark(MarksIn(marks, o), peer) == if (peer, o) in marks then marks[(peer, o)] else 0
  {
    var a, b := MarksIn(marks[(peer, o) := no], o), MarksIn(marks, o)[peer := no];
    forall p ensures p in a <==> p in b {
      MarksInAt(marks[(peer, o) := no], o, p);
      MarksInAt(marks, o, p);
    }
    forall p | p in a ensures a[p] == b[p] {
      MarksInAt(marks[(peer, o) := no], o, p);
      MarksInAt(marks, o, p);
    }
    MarksInAt(marks, o, peer);
  }

  lemma MarksElse(marks: map<(string, string), nat>, peer: string, o: string, no: nat, x: string)
    ensures x != o ==> MarksIn(marks[(peer, o) := no], x) == MarksIn(marks, x)
  {
    if x != o {
      var a, b := MarksIn(marks[(peer, o) := no], x), MarksIn(marks, x);
      forall p ensures p in a <==> p in b {
        MarksInAt(marks[(peer, o) := no], x, p);
        MarksInAt(marks, x, p);
      }
      forall p | p in a ensures a[p] == b[p] {
        MarksInAt(marks[(peer, o) := no], x, p);
        MarksInAt(marks, x, p);
      }
    }
  }

  lemma CompactKeeper(c: Copy, marks: map<string, nat>, peers: seq<string>)
    ensures var d := CompactTo(c, Retention.Floor(c.clock.no, marks, peers));
            Retention.Keeper(d.clock.no, d.clock.tail, marks)
            == Retention.Next(Retention.Keeper(c.clock.no, c.clock.tail, marks), peers, Retention.Compact)
  {}

  /** What a reported clock means for the retention of origin x at generation g. */
  function AckOf(peer: string, x: string, g: nat, clock: (string, nat, nat)): seq<Retention.Step> {
    if clock.0 == x && clock.1 == g then [Retention.Ack(peer, clock.2)] else []
  }

  function AcksOf(peer: string, x: string, g: nat, clocks: seq<(string, nat, nat)>): seq<Retention.Step>
    decreases |clocks|
  {
    if clocks == [] then [] else AcksOf(peer, x, g, clocks[..|clocks| - 1]) + AckOf(peer, x, g, clocks[|clocks| - 1])
  }

  function MarkIn(marks: map<(string, string), nat>, peer: string, o: string): nat {
    if (peer, o) in marks then marks[(peer, o)] else 0
  }

  /** The marks after one reported clock: raised if it is of the generation that we have. */
  function Marked(marks: map<(string, string), nat>, gens: map<string, nat>, peer: string,
                  clock: (string, nat, nat)): map<(string, string), nat> {
    if clock.0 in gens && gens[clock.0] == clock.1 && clock.2 > MarkIn(marks, peer, clock.0)
      then marks[(peer, clock.0) := clock.2] else marks
  }

  function Recorded(marks: map<(string, string), nat>, gens: map<string, nat>, peer: string,
                    clocks: seq<(string, nat, nat)>): map<(string, string), nat>
    decreases |clocks|
  {
    if clocks == [] then marks else Marked(Recorded(marks, gens, peer, clocks[..|clocks| - 1]), gens, peer,
      clocks[|clocks| - 1])
  }

  lemma {:induction false} RecordedElse(marks: map<(string, string), nat>, gens: map<string, nat>, peer: string,
                                        clocks: seq<(string, nat, nat)>)
    ensures forall p, o :: p != peer || o !in gens ==>
              MarkIn(Recorded(marks, gens, peer, clocks), p, o) == MarkIn(marks, p, o)
    decreases |clocks|
  {
    if clocks != [] { RecordedElse(marks, gens, peer, clocks[..|clocks| - 1]); }
  }

  lemma {:induction false} RecordedRises(marks: map<(string, string), nat>, gens: map<string, nat>, peer: string,
                                         clocks: seq<(string, nat, nat)>)
    ensures forall o :: MarkIn(Recorded(marks, gens, peer, clocks), peer, o) >= MarkIn(marks, peer, o)
    ensures forall i :: 0 <= i < |clocks| && clocks[i].0 in gens && gens[clocks[i].0] == clocks[i].1 ==>
              MarkIn(Recorded(marks, gens, peer, clocks), peer, clocks[i].0) >= clocks[i].2
    decreases |clocks|
  {
    if clocks != [] {
      var init := clocks[..|clocks| - 1];
      RecordedRises(marks, gens, peer, init);
      assert forall i :: 0 <= i < |init| ==> clocks[i] == init[i];
    }
  }

  lemma {:induction false} RecordedIsReported(marks: map<(string, string), nat>, gens: map<string, nat>, peer: string,
                                              clocks: seq<(string, nat, nat)>)
    ensures var r := Recorded(marks, gens, peer, clocks);
            forall o :: MarkIn(r, peer, o) == MarkIn(marks, peer, o) ||
              (o in gens && exists i :: 0 <= i < |clocks| && clocks[i] == (o, gens[o], MarkIn(r, peer, o)))
    decreases |clocks|
  {
    if clocks != [] {
      var n := |clocks| - 1;
      var init, r := clocks[..n], Recorded(marks, gens, peer, clocks);
      RecordedIsReported(marks, gens, peer, init);
      var before := Recorded(marks, gens, peer, init);
      forall o | MarkIn(r, peer, o) != MarkIn(marks, peer, o)
        ensures o in gens && exists i :: 0 <= i < |clocks| && clocks[i] == (o, gens[o], MarkIn(r, peer, o))
      {
        if MarkIn(r, peer, o) == MarkIn(before, peer, o) {
          var i :| 0 <= i < |init| && init[i] == (o, gens[o], MarkIn(r, peer, o));
          assert clocks[i] == init[i];
        } else {
          assert clocks[n] == (o, gens[o], MarkIn(r, peer, o));
        }
      }
    }
  }

  /** Recording clocks is a run of acknowledgements for every origin's retention. */
  lemma {:induction false} RecordedKeeper(marks: map<(string, string), nat>, gens: map<string, nat>, peer: string,
                                          clocks: seq<(string, nat, nat)>,
                                          o: string, no: nat, tail: nat, peers: seq<string>)
    requires o in gens
    ensures Retention.Keeper(no, tail, MarksIn(Recorded(marks, gens, peer, clocks), o))
            == Retention.RunAll(Retention.Keeper(no, tail, MarksIn(marks, o)), peers, AcksOf(peer, o, gens[o], clocks))
    decreases |clocks|
  {
    if clocks != [] {
      var n := |clocks| - 1;
      var init, start := clocks[..n], Retention.Keeper(no, tail, MarksIn(marks, o));
      RecordedKeeper(marks, gens, peer, init, o, no, tail, peers);
      Retention.RunAllAppend(start, peers, AcksOf(peer, o, gens[o], init), AckOf(peer, o, gens[o], clocks[n]));
      MarkedKeeper(Recorded(marks, gens, peer, init), gens, peer, clocks[n], o, no, tail, peers);
    }
  }

  lemma MarkedKeeper(marks: map<(string, string), nat>, gens: map<string, nat>, peer: string, clock: (string, nat, nat),
                     o: string, no: nat, tail: nat, peers: seq<string>)
    requires o in gens
    ensures Retention.Keeper(no, tail, MarksIn(Marked(marks, gens, peer, clock), o))
            == Retention.RunAll(Retention.Keeper(no, tail, MarksIn(marks, o)), peers, AckOf(peer, o, gens[o], clock))
  {
    if clock.0 == o && clock.1 == gens[o] {
      Retention.OneStep(Retention.Keeper(no, tail, MarksIn(marks, o)), peers, Retention.Ack(peer, clock.2));
      MarksPut(marks, peer, o, clock.2);
    } else {
      MarksElse(marks, peer, clock.0, clock.2, o);
    }
  }

  /** The generation we have of each origin. */
  function Generations(copies: map<string, Copy>, origins: set<string>): map<string, nat> {
    map o | o in origins :: Pull.Stored(copies, o).clock.generation
  }

  /** What retention sees of one origin. */
  function KeeperIn(copies: map<string, Copy>, marks: map<(string, string), nat>, o: string): Retention.Keeper {
    var clock := Pull.Stored(copies, o).clock;
    Retention.Keeper(clock.no, clock.tail, MarksIn(marks, o))
  }

  /** Every origin's retention has made the steps that the clocks acknowledge. */
  ghost predicate AllAcked(copies: map<string, Copy>, was: map<(string, string), nat>, now: map<(string, string), nat>,
                           origins: set<string>,
                           peer: string, clocks: seq<(string, nat, nat)>, peers: seq<string>)
  {
    forall o :: o in origins ==>
      KeeperIn(copies, now, o)
      == Retention.RunAll(KeeperIn(copies, was, o), peers,
        AcksOf(peer, o, Pull.Stored(copies, o).clock.generation, clocks))
  }

  lemma RecordedKeepers(copies: map<string, Copy>, marks: map<(string, string), nat>, origins: set<string>,
                        peer: string, clocks: seq<(string, nat, nat)>, peers: seq<string>)
    ensures AllAcked(copies, marks, Recorded(marks, Generations(copies, origins), peer, clocks), origins, peer, clocks,
            peers)
  {
    forall o | o in origins
      ensures KeeperIn(copies, Recorded(marks, Generations(copies, origins), peer, clocks), o)
              == Retention.RunAll(KeeperIn(copies, marks, o), peers,
                AcksOf(peer, o, Pull.Stored(copies, o).clock.generation, clocks))
    {
      var clock := Pull.Stored(copies, o).clock;
      RecordedKeeper(marks, Generations(copies, origins), peer, clocks, o, clock.no, clock.tail, peers);
    }
  }

  /** A copy cut at its origin's floor. */
  function CutCopy(c: Copy, marks: map<(string, string), nat>, o: string, peers: seq<string>): Copy {
    CompactTo(c, Retention.Floor(c.clock.no, MarksIn(marks, o), peers))
  }

  /** The copies of the origins in `done` were cut, the others are as they were. */
  ghost predicate CutSome(was: map<string, Copy>, now: map<string, Copy>, done: set<string>,
                          marks: map<(string, string), nat>, peers: seq<string>) {
    forall o ::
        Pull.Stored(now, o) == if o in done then CutCopy(Pull.Stored(was, o), marks, o, peers) else Pull.Stored(was, o)
  }

  lemma CutNext(was: map<string, Copy>, now: map<string, Copy>, next: map<string, Copy>, done: set<string>, o: string,
                marks: map<(string, string), nat>, peers: seq<string>)
    requires CutSome(was, now, done, marks, peers) && o !in done && ElseSame(now, next, o)
    requires Pull.Stored(next, o) == CutCopy(Pull.Stored(now, o), marks, o, peers)
    ensures CutSome(was, next, done + {o}, marks, peers)
  {
    forall x
      ensures Pull.Stored(next, x) == if x in done + {o} then CutCopy(Pull.Stored(was, x), marks, x, peers)
      else Pull.Stored(was, x) {
      assert Pull.Stored(now, x) == if x in done then CutCopy(Pull.Stored(was, x), marks, x, peers)
        else Pull.Stored(was, x);
    }
  }

  /** Every origin's retention made a compaction step. */
  ghost predicate AllCut(was: map<string, Copy>, now: map<string, Copy>, origins: set<string>,
                         marks: map<(string, string), nat>, peers: seq<string>) {
    forall o :: o in origins ==>
        KeeperIn(now, marks, o) == Retention.Next(KeeperIn(was, marks, o), peers, Retention.Compact)
  }

  lemma CutKeepers(was: map<string, Copy>, now: map<string, Copy>, origins: set<string>,
                   marks: map<(string, string), nat>, peers: seq<string>)
    requires CutSome(was, now, origins, marks, peers)
    ensures AllCut(was, now, origins, marks, peers)
  {
    forall o | o in origins
      ensures KeeperIn(now, marks, o) == Retention.Next(KeeperIn(was, marks, o), peers, Retention.Compact) {
      assert Pull.Stored(now, o) == CutCopy(Pull.Stored(was, o), marks, o, peers);
      CompactKeeper(Pull.Stored(was, o), MarksIn(marks, o), peers);
    }
  }

  /** Over every run of exports, acknowledgements and compactions at the origin: a configured peer
      that still has what it acknowledged, and is within the backstop, is answered with a suffix
      of its missing events. */
  lemma PeerIsAnsweredWithSuffix(k: Retention.Keeper, peers: seq<string>, steps: seq<Retention.Step>, peer: string,
                                 o: string, c: Copy, n: nat, size: Event -> nat)
    requires Retention.Retained(k, peers) && peer in peers && c.clock.generation > 0 && Pull.Servable(c)
    requires var now := Retention.RunAll(k, peers, steps);
             now.no == c.clock.no && now.tail == c.clock.tail
               && Retention.Mark(now.marks, peer) <= n < c.clock.no <= n + Retention.JOURNAL_BACKSTOP
    ensures var u := Pull.Answer(o, c, c.clock.generation, n, false, false, size).0;
            u.Some? && u.value.body.Suffix? && u.value.body.events != [] && u.value.body.events[0].no == n + 1
  {
    Retention.PeerWithinBackstopGetsSuffix(k, peers, steps, peer, n);
    Pull.DenseRows(c, n);
  }

  class MeshIndex {
    const selfName: string
    const origins: set<string>
    /** The configured origins in name order. */
    const names: seq<string>
    const peers: seq<string>
    var copies: map<string, Copy>
    var facts: Table
    /** (peer, origin) to the number that peer proved it has seen. */
    var marks: map<(string, string), nat>

    ghost predicate Valid()
      reads this
    {
      && Elems(names) == origins
      && TableOk(facts)
      && forall o :: o in copies ==> DigestsOnly(copies[o].held)
    }

    constructor (selfName: string, names: seq<string>, peers: seq<string>)
      ensures Valid()
      ensures this.selfName == selfName && this.names == names && this.peers == peers
      ensures copies == map[] && facts == map[] && marks == map[]
    {
      this.selfName, this.names, this.peers := selfName, names, peers;
      this.origins := Elems(names);
      copies, facts, marks := map[], map[], map[];
    }

    function CopyOf(o: string): Copy
      reads this
    {
      Pull.Stored(copies, o)
    }

    // ---- composites ----

    /** Only the last operation per hash reaches the store; the effect is that of all of them. */
    static method ApplyHolds(held: set<Bytes>, ops: seq<HoldOp>) returns (r: set<Bytes>)
      ensures r == FoldHolds(held, ops)
    {
      var fin: map<Bytes, bool> := map[];
      for i := 0 to |ops|
        invariant Settle(held, fin) == FoldHolds(held, ops[..i])
      {
        assert ops[..i + 1][..|ops[..i + 1]| - 1] == ops[..i];
        match ops[i] {
          case Add(h) => fin := fin[h := true];
          case Remove(h) => fin := fin[h := false];
        }
      }
      assert ops[..|ops|] == ops;
      r := Settle(held, fin);
    }

    method ApplyEvents(origin: string, expectGeneration: nat, expectNo: nat, setGeneration: nat, b: Batch)
        returns (ok: bool)
      requires Valid() && forall i :: 0 <= i < |b.holds| ==> IsDigest(b.holds[i].hash)
      modifies this
      ensures Valid()
      ensures ok <==>
                old(CopyOf(origin)).clock.generation == expectGeneration && old(CopyOf(origin)).clock.no == expectNo
      ensures CopyOf(origin) == Commit(old(CopyOf(origin)), expectGeneration, expectNo, setGeneration, b)
      ensures forall o :: o != origin ==> CopyOf(o) == old(CopyOf(o))
      ensures ElseSame(old(copies), copies, origin)
      ensures facts == if ok then MergeAll(old(facts), b.attests) else old(facts)
      ensures marks == old(marks)
    {
      var cur := CopyOf(origin);
      if cur.clock.generation != expectGeneration || cur.clock.no != expectNo {
        return false;
      }
      var journal := cur.journal;
      for i := 0 to |b.rows|
        invariant journal == PutRows(cur.journal, b.rows[..i])
      {
        assert b.rows[..i + 1][..|b.rows[..i + 1]| - 1] == b.rows[..i];
        journal := journal[b.rows[i].no := b.rows[i]];
      }
      assert b.rows[..|b.rows|] == b.rows;
      var held := ApplyHolds(cur.held, b.holds);
      FoldDigests(cur.held, b.holds);
      MergeAllLub(facts, b.attests);
      facts := MergeAll(facts, b.attests);
      copies := copies[origin := Copy(Clock(setGeneration, b.no, cur.clock.tail), journal, held)];
      ok := true;
    }

    static lemma {:induction false} FoldDigests(held: set<Bytes>, ops: seq<HoldOp>)
      requires forall x :: x in held ==> IsDigest(x)
      requires forall i :: 0 <= i < |ops| ==> IsDigest(ops[i].hash)
      ensures forall x :: x in FoldHolds(held, ops) ==> IsDigest(x)
      decreases |ops|
    {
      if ops != [] { FoldDigests(held, ops[..|ops| - 1]); }
    }

    static lemma {:induction false} HoldsAreDigests(es: seq<Event>)
      ensures forall i :: 0 <= i < |HoldsOf(es)| ==> IsDigest(HoldsOf(es)[i].hash)
      decreases |es|
    {
      if es != [] { HoldsAreDigests(es[..|es| - 1]); }
    }

    // ---- replicas ----

    /** Apply one origin's journal suffix. */
    method ApplySuffix(origin: string, generation: nat, events: seq<Event>) returns (r: Apply)
      requires Valid()
      modifies this
      ensures Valid()
      ensures origin == selfName || origin !in origins ==> r == Refused && copies == old(copies) && facts == old(facts)
      ensures origin != selfName && origin in origins ==>
                var cur := old(CopyOf(origin));
                var plan := PlanSuffix(cur.clock.generation, cur.clock.no, generation, events);
                && r == Report(plan)
                && CopyOf(origin) == ApplyRead(cur, cur.clock.generation, cur.clock.no, generation, events)
                && facts == FactsRead(cur, old(facts), cur.clock.generation, cur.clock.no, generation, events)
                && (r == NeedSnapshot <==> Feed.Disconnected(cur.clock, generation, events))
                && (r.Applied? ==> r.count == CopyOf(origin).clock.no - cur.clock.no)
                && Feed.Learned(old(facts), facts, CopyOf(origin).journal, cur.clock.no, CopyOf(origin).clock.no)
      ensures forall o :: o != origin ==> CopyOf(o) == old(CopyOf(o))
      ensures marks == old(marks)
    {
      if origin == selfName || origin !in origins {
        return Refused;
      }
      Feed.SuffixLearns(CopyOf(origin), facts, generation, events);
      Feed.SuffixOutcome(CopyOf(origin), generation, events);
      var cur := CopyOf(origin).clock;
      if generation < cur.generation {
        return Applied(0);
      }
      if generation > cur.generation && !(cur.generation == 0 && cur.no == 0) {
        return NeedSnapshot;
      }
      var b := Batch([], [], [], cur.no);
      ghost var start := b;
      for i := 0 to |events|
        invariant Scan(start, events) == Scan(b, events[i..])
        invariant forall k :: 0 <= k < |b.holds| ==> IsDigest(b.holds[k].hash)
      {
        var e := events[i];
        assert events[i..][0] == e && events[i..][1..] == events[i + 1..];
        if e.no > b.no {
          if e.no != b.no + 1 {
            return NeedSnapshot;
          }
          b := Batch(b.rows + [e], b.holds + HoldOf(e.op), b.attests + AttestOf(e.op), e.no);
        }
      }
      assert events[|events|..] == [];
      if b.rows == [] {
        return Applied(0);
      }
      var ok := ApplyEvents(origin, cur.generation, cur.no, generation, b);
      r := Applied(|b.rows|);
    }

    /** One committed write of a replace. */
    method WriteCopy(origin: string, c: Copy)
      modifies this`copies
      ensures CopyOf(origin) == c && ElseSame(old(copies), copies, origin)
    {
      copies := copies[origin := c];
    }

    /** At most BATCH_OPS of the operations that are left. */
    static method TakeChunk(todo: set<Bytes>) returns (chunk: set<Bytes>)
      ensures chunk <= todo && |chunk| == Min(|todo|, BATCH_OPS)
    {
      chunk := {};
      while |chunk| < BATCH_OPS && chunk != todo
        invariant chunk <= todo && |chunk| <= BATCH_OPS
        decreases BATCH_OPS - |chunk|
      {
        var h :| h in todo && h !in chunk;
        chunk := chunk + {h};
      }
      SubsetSize(chunk, todo);
    }

    /** Bring the possession set to `hashes`, batch by batch. Whatever was committed on the way is
        a stage of an interrupted replace. */
    method ReplaceChunks(origin: string, hashes: set<Bytes>, ghost m: Mesh.Msg) returns (ghost trace: seq<Copy>)
      requires m.Snapshot? && hashes == Digests(m.held)
      modifies this`copies
      ensures CopyOf(origin) == old(CopyOf(origin)).(held := hashes)
      ensures ElseSame(old(copies), copies, origin)
      ensures forall c :: c in trace ==> Stage(old(CopyOf(origin)), m, c)
    {
      var was := CopyOf(origin);
      var todo, now := (was.held - hashes) + (hashes - was.held), was.held;
      trace := [];
      assert was.(held := was.held) == was && Differing(was.held, hashes) - todo == {};
      while todo != {}
        invariant Chunked(was, m, todo, now) && CopyOf(origin) == was.(held := now)
        invariant ElseSame(old(copies), copies, origin) && forall c :: c in trace ==> Stage(was, m, c)
        decreases |todo|
      {
        var chunk := TakeChunk(todo);
        NextChunked(was, m, todo, now, chunk);
        todo, now := todo - chunk, (now - chunk) + hashes * chunk;
        ChunkedIsStage(was, m, todo, now);
        WriteCopy(origin, was.(held := now));
        trace := trace + [was.(held := now)];
      }
      assert Differing(was.held, hashes) - todo == Differing(was.held, hashes);
      AdoptAll(was.held, hashes, Differing(was.held, hashes));
    }

    /** Delete the journal, lowest number first; full batches are written as they fill up, what is
        left goes with the clock. */
    method DropRows(origin: string, ghost was: Copy, ghost m: Mesh.Msg) returns (ghost trace: seq<Copy>)
      requires m.Snapshot? && CopyOf(origin) == was.(held := Digests(m.held))
      modifies this`copies
      ensures CopyOf(origin).held == Digests(m.held) && CopyOf(origin).clock == was.clock
              && ElseSame(old(copies), copies, origin)
      ensures forall c :: c in trace ==> Stage(was, m, c)
    {
      var full := CopyOf(origin);
      var batches := 0;
      trace := [];
      while (batches + 1) * BATCH_OPS <= |full.journal|
        invariant batches * BATCH_OPS <= |full.journal| && full == was.(held := Digests(m.held))
        invariant CopyOf(origin).held == Digests(m.held) && CopyOf(origin).clock == was.clock
                  && ElseSame(old(copies), copies, origin)
        invariant forall c :: c in trace ==> Stage(was, m, c)
        decreases |full.journal| - batches * BATCH_OPS
      {
        batches := batches + 1;
        var lost := Lowest(full.journal.Keys, batches * BATCH_OPS);
        var c := full.(journal := map i | i in full.journal && i !in lost :: full.journal[i]);
        RowStage(was, m, batches, c);
        WriteCopy(origin, c);
        trace := trace + [c];
      }
    }

    /** Replace the possession set of an origin wholesale, unless it is our own or unknown (None);
        the clock moves last. Every write before that leaves a stage of an interrupted replace. */
    method ApplySnapshot(origin: string, generation: nat, no: nat, held: set<Bytes>)
        returns (r: Option<nat>, ghost trace: seq<Copy>)
      requires Valid()
      modifies this`copies
      ensures Valid()
      ensures r.None? <==> origin == selfName || origin !in origins
      ensures r.None? ==> copies == old(copies)
      ensures r.Some? ==> CopyOf(origin) == ReplaceWith(old(CopyOf(origin)), generation, no, held)
                          && r.value == if StaleSnapshot(old(CopyOf(origin)), generation, no) then 0
                             else |Digests(held)|
      ensures forall o :: o != origin ==> CopyOf(o) == old(CopyOf(o))
      ensures forall c :: c in trace ==> Stage(old(CopyOf(origin)), Offer(origin, generation, no, held), c)
    {
      trace := [];
      if origin == selfName || origin !in origins {
        return None, trace;
      }
      var cur := CopyOf(origin).clock;
      if generation < cur.generation || (generation == cur.generation && no < cur.no) {
        return Some(0), trace;
      }
      ghost var was, m := CopyOf(origin), Offer(origin, generation, no, held);
      var hashes := set h | h in held && IsDigest(h);
      ghost var first := ReplaceChunks(origin, hashes, m);
      ghost var second := DropRows(origin, was, m);
      trace := first + second;
      copies := copies[origin := Copy(Clock(generation, no, no), map[], CopyOf(origin).held)];
      r := Some(|hashes|);
    }

    // ---- the origin's own half ----

    /** One chunk: events numbered after `no`, with what they materialise. */
    static method BuildChunk(ops: seq<Op>, no: nat) returns (b: Batch)
      ensures b.rows == Numbered(no, ops) && b.no == no + |ops|
      ensures b.holds == HoldsOf(b.rows) && b.attests == FactsOf(ops)
    {
      b := Batch([], [], [], no);
      assert ops[..0] == [];
      for i := 0 to |ops|
        invariant b == ChunkOf(no, ops[..i])
      {
        var e := Event(b.no + 1, ops[i]);
        ChunkStep(no, ops, i);
        b := Batch(b.rows + [e], b.holds + HoldOf(e.op), b.attests + (if e.op.Attest? then [e.op.fact] else []), e.no);
      }
      assert ops[..|ops|] == ops;
    }

    /** Journal and materialise self operations in atomic chunks; the chunking leaves no trace. */
    method Export(attests: seq<Attestation>, holds: seq<HoldOp>) returns (emitted: nat)
      requires Valid() && forall i :: 0 <= i < |holds| ==> IsDigest(holds[i].hash)
      modifies this
      ensures Valid()
      ensures emitted == |attests| + |holds|
      ensures CopyOf(selfName) == ExportTo(old(CopyOf(selfName)),
              Numbered(old(CopyOf(selfName)).clock.no, ExportOps(attests, holds)))
      ensures forall o :: o != selfName ==> CopyOf(o) == old(CopyOf(o))
      ensures facts == MergeAll(old(facts), attests)
      ensures marks == old(marks)
      ensures KeeperOf(selfName) == Retention.Next(old(KeeperOf(selfName)), peers, Retention.Grow(emitted))
    {
      var ops := ExportOps(attests, holds);
      FactsOfExport(attests, holds);
      NumberedMeaning(CopyOf(selfName).clock.no, ops);
      emitted := ExportAll(ops);
    }

    /** One chunk: operations i to end of an export that found the copy `cur`. */
    method ExportChunk(ops: seq<Op>, i: nat, end: nat, ghost cur: Copy, ghost known: Table)
      requires Valid() && i <= end <= |ops| && DigestsOnly(cur.held)
      requires Exported(CopyOf(selfName), facts, cur, known, ops, i)
      modifies this
      ensures Valid() && Exported(CopyOf(selfName), facts, cur, known, ops, end)
      ensures ElseSame(old(copies), copies, selfName) && marks == old(marks)
    {
      var clock := CopyOf(selfName).clock;
      ExportedAt(CopyOf(selfName), facts, cur, known, ops, i);
      var b := BuildChunk(ops[i..end], clock.no);
      ExportPiece(cur, ops, i, end, b);
      FactsPiece(known, ops, i, end);
      HoldsAreDigests(b.rows);
      var ok := ApplyEvents(selfName, clock.generation, clock.no, clock.generation, b);
    }

    method ExportAll(ops: seq<Op>) returns (emitted: nat)
      requires Valid()
      modifies this
      ensures Valid() && emitted == |ops|
      ensures CopyOf(selfName) == ExportTo(old(CopyOf(selfName)), Numbered(old(CopyOf(selfName)).clock.no, ops))
      ensures forall o :: o != selfName ==> CopyOf(o) == old(CopyOf(o))
      ensures facts == MergeAll(old(facts), FactsOf(ops))
      ensures marks == old(marks)
    {
      ghost var cur, known := CopyOf(selfName), facts;
      emitted := |ops|;
      ExportedNothing(cur, known, ops);
      var i := 0;
      while i < |ops|
        invariant 0 <= i <= |ops| && Valid() && Exported(CopyOf(selfName), facts, cur, known, ops, i)
        invariant ElseSame(old(copies), copies, selfName) && marks == old(marks)
      {
        var end := Min(i + EXPORT_CHUNK, |ops|);
        ExportChunk(ops, i, end, cur, known);
        i := end;
      }
      ExportedAll(CopyOf(selfName), facts, cur, known, ops);
    }

    /** A reminted generation lies above whatever the mesh reported; the journal, the number
        and the holdings stay. */
    method BumpSelfGeneration(nanos: nat, floor: nat) returns (g: nat)
      requires Valid()
      modifies this
      ensures Valid() && g > floor && g >= nanos
      ensures CopyOf(selfName) == old(CopyOf(selfName)).(clock := old(CopyOf(selfName)).clock.(generation := g))
      ensures forall o :: o != selfName ==> CopyOf(o) == old(CopyOf(o))
      ensures facts == old(facts) && marks == old(marks)
    {
      g := Max(nanos, floor + 1);
      var c := CopyOf(selfName);
      copies := copies[selfName := c.(clock := c.clock.(generation := g))];
    }

    // ---- watermarks and compaction ----

    function MarkOf(peer: string, origin: string): nat
      reads this
    {
      MarkIn(marks, peer, origin)
    }

    /** The marks of all peers for one origin. */
    function MarksFor(origin: string): map<string, nat>
      reads this
    {
      MarksIn(marks, origin)
    }

    /** What retention sees of one origin. */
    function KeeperOf(o: string): Retention.Keeper
      reads this
    {
      KeeperIn(copies, marks, o)
    }

    method RecordAll(peer: string, clocks: seq<(string, nat, nat)>)
      modifies this`marks
      ensures marks == Recorded(old(marks), Generations(copies, origins), peer, clocks)
    {
      ghost var was, gens := marks, Generations(copies, origins);
      for i := 0 to |clocks|
        invariant marks == Recorded(was, gens, peer, clocks[..i])
      {
        assert clocks[..i + 1][..|clocks[..i + 1]| - 1] == clocks[..i];
        var (o, g, no) := clocks[i];
        if o in origins && CopyOf(o).clock.generation == g && no > MarkOf(peer, o) {
          marks := marks[(peer, o) := no];
        }
      }
      assert clocks[..|clocks|] == clocks;
    }

    method RecordWatermarks(peer: string, clocks: seq<(string, nat, nat)>)
      requires Valid()
      modifies this`marks
      ensures Valid()
      ensures forall p, o :: p != peer || o !in origins ==> MarkOf(p, o) == old(MarkOf(p, o))
      ensures forall o :: MarkOf(peer, o) >= old(MarkOf(peer, o))
      ensures forall i ::
                0 <= i < |clocks| && clocks[i].0 in origins && clocks[i].1 == CopyOf(clocks[i].0).clock.generation ==>
                MarkOf(peer, clocks[i].0) >= clocks[i].2
      ensures forall o :: MarkOf(peer, o) == old(MarkOf(peer, o)) ||
                exists i :: 0 <= i < |clocks| && clocks[i] == (o, CopyOf(o).clock.generation, MarkOf(peer, o))
      ensures AllAcked(copies, old(marks), marks, origins, peer, clocks, peers)
    {
      ghost var was, gens := marks, Generations(copies, origins);
      RecordAll(peer, clocks);
      RecordedElse(was, gens, peer, clocks);
      RecordedRises(was, gens, peer, clocks);
      RecordedIsReported(was, gens, peer, clocks);
      RecordedKeepers(copies, was, origins, peer, clocks, peers);
    }

    /** The floor of one origin: the least watermark, or the backstop. */
    method FloorFor(o: string, no: nat) returns (floor: nat)
      ensures floor == Retention.Floor(no, MarksFor(o), peers)
    {
      floor := no;
      for i := 0 to |peers|
        invariant floor == Retention.MinMark(no, MarksFor(o), peers[..i])
      {
        assert peers[..i + 1][..|peers[..i + 1]| - 1] == peers[..i];
        MarksForMark(o, peers[i]);
        floor := Min(floor, MarkOf(peers[i], o));
      }
      assert peers[..|peers|] == peers;
      floor := Max(floor, SatSub(no, Retention.JOURNAL_BACKSTOP));
    }

    method CompactOne(o: string)
      requires Valid()
      modifies this`copies
      ensures Valid() && ElseSame(old(copies), copies, o)
      ensures CopyOf(o) == CutCopy(old(CopyOf(o)), marks, o, peers)
    {
      var c := CopyOf(o);
      var floor := FloorFor(o, c.clock.no);
      if floor > c.clock.tail {
        copies := copies[o := CompactTo(c, floor)];
      }
    }

    /** Cut every configured origin's journal at the least watermark, or at the backstop: one
        compaction step of each origin's retention. */
    method Compact()
      requires Valid()
      modifies this`copies
      ensures Valid() && CutSome(old(copies), copies, origins, marks, peers)
      ensures AllCut(old(copies), copies, origins, marks, peers)
    {
      var todo := origins;
      ghost var done: set<string> := {};
      while todo != {}
        invariant Valid() && done !! todo && done + todo == origins && CutSome(old(copies), copies, done, marks, peers)
        decreases |todo|
      {
        var o :| o in todo;
        ghost var now := copies;
        CompactOne(o);
        CutNext(old(copies), now, copies, done, o, marks, peers);
        todo, done := todo - {o}, done + {o};
      }
      assert done == origins;
      CutKeepers(old(copies), copies, origins, marks, peers);
    }

    lemma MarksForMark(o: string, p: string)
      ensures Retention.Mark(MarksFor(o), p) == MarkOf(p, o)
    {
      MarksInAt(marks, o, p);
    }

    // ---- answering a pull ----

    /** The rows above `after`, in the order the scan meets them. */
    static method ScanRows(j: map<nat, Event>, after: nat) returns (rows: seq<Event>)
      ensures rows == Pull.RowsAfter(j, after)
    {
      rows := [];
      var last: nat := after;
      ghost var rest := Pull.RowsAfter(j, after);
      while Pull.Above(j, last) != {}
        invariant rest == Pull.RowsAfter(j, last)
        invariant Pull.RowsAfter(j, after) == rows + rest
        decreases |Pull.Above(j, last)|
      {
        Pull.RowsAfterNext(j, last);
        var k := Least(Pull.Above(j, last));
        rest := Pull.RowsAfter(j, k);
        AppendAssoc(rows, [j[k]], rest);
        rows := rows + [j[k]];
        last := k;
      }
      assert rest == [];
    }

    /** Journal rows above `after`, byte-capped but never cut to nothing. */
    method JournalSuffix(origin: string, after: nat, cap: nat, size: Event -> nat)
        returns (events: seq<Event>, truncated: bool)
      ensures events == Pull.Cut(CopyOf(origin), after, cap, size)
      ensures truncated <==> |events| < |Pull.RowsAfter(CopyOf(origin).journal, after)|
      ensures Pull.CutFits(Pull.RowsAfter(CopyOf(origin).journal, after), |events|, cap, size)
    {
      var rows := ScanRows(CopyOf(origin).journal, after);
      var n := CutRows(rows, cap, size);
      events, truncated := rows[..n], n < |rows|;
    }

    /** Stop before the row that would pass the cap, unless it is the first. */
    static method CutRows(rows: seq<Event>, cap: nat, size: Event -> nat) returns (n: nat)
      ensures n == Pull.CutLen(rows, 0, 0, cap, size) && Pull.CutFits(rows, n, cap, size)
    {
      assert Pull.Bytesize(rows[..0], size) == 0;
      Pull.CutLenFits(rows, 0, 0, cap, size);
      var bytes: nat := 0;
      n := 0;
      while n < |rows|
        invariant n <= |rows| && Pull.CutLen(rows, 0, 0, cap, size) == Pull.CutLen(rows, n, bytes, cap, size)
      {
        if bytes + size(rows[n]) > cap && n > 0 {
          return;
        }
        bytes := bytes + size(rows[n]);
        n := n + 1;
      }
    }

    /** The leading rows numbered at most `until`. */
    static method TakeUpTo(rows: seq<Event>, until: nat) returns (events: seq<Event>)
      ensures events == Pull.UpTo(rows, until)
    {
      events := [];
      var i := 0;
      assert rows[0..] == rows;
      while i < |rows| && rows[i].no <= until
        invariant 0 <= i <= |rows|
        invariant Pull.UpTo(rows, until) == events + Pull.UpTo(rows[i..], until)
      {
        assert rows[i..][1..] == rows[i + 1..];
        events := events + [rows[i]];
        i := i + 1;
      }
      assert Pull.UpTo(rows[i..], until) == [];
    }

    /** The reply to one range ask. */
    method RespondRange(ask: Pull.RangeAsk, size: Event -> nat) returns (reply: Pull.RangeReply)
      ensures reply == Pull.AnswerRange(CopyOf(ask.origin), ask, size)
    {
      var c := CopyOf(ask.origin).clock;
      var events: seq<Event> := [];
      var reachable := c.generation == ask.generation && ask.after >= c.tail && ask.after < ask.until;
      if reachable {
        var rows, _ := JournalSuffix(ask.origin, ask.after, Pull.RANGE_BYTES_CAP, size);
        events := TakeUpTo(rows, ask.until);
      }
      reply := Pull.RangeReply(ask.origin, c.generation, ask.after, events, reachable);
    }

    ghost function Replies(asks: seq<Pull.RangeAsk>, size: Event -> nat): seq<Pull.RangeReply>
      reads this
      decreases |asks|
    {
      if asks == [] then [] else
      var last := asks[|asks| - 1];
      Replies(asks[..|asks| - 1], size)
        + (if last.origin in origins then [Pull.AnswerRange(CopyOf(last.origin), last, size)] else [])
    }

    /** The leading asks, those for configured origins, are answered in order. */
    method RespondRanges(asks: seq<Pull.RangeAsk>, size: Event -> nat) returns (out: seq<Pull.RangeReply>)
      ensures out == Replies(asks[..Min(|asks|, Pull.RANGE_ASKS_MAX)], size)
    {
      out := [];
      var n := Min(|asks|, Pull.RANGE_ASKS_MAX);
      for i := 0 to n
        invariant out == Replies(asks[..i], size)
      {
        assert asks[..i + 1][..|asks[..i + 1]| - 1] == asks[..i];
        if asks[i].origin in origins {
          var reply := RespondRange(asks[i], size);
          out := out + [reply];
        }
      }
    }

    /** The answer for one origin, and what it costs. */
    method AnswerOne(o: string, g: nat, n: nat, skipped: bool, full: bool, size: Event -> nat)
        returns (u: Option<Pull.Update>, cost: nat)
      ensures (u, cost) == Pull.Answer(o, CopyOf(o), g, n, skipped, full, size)
    {
      var c := CopyOf(o).clock;
      u, cost := None, 0;
      if c.generation == 0 || g > c.generation {
      } else if g == c.generation && n >= c.no {
        u := Some(Pull.Update(o, c.generation, c.no, false, Pull.UpToDate));
      } else if skipped {
        u := Some(Pull.Update(o, c.generation, c.no, false, Pull.ClockOnly));
      } else if full {
        u := Some(Pull.Update(o, c.generation, c.no, true, Pull.Suffix([])));
      } else if g == c.generation && n >= c.tail {
        var events, truncated := JournalSuffix(o, n, Pull.SUFFIX_BYTES_CAP, size);
        u := Some(Pull.Update(o, c.generation, c.no, truncated, Pull.Suffix(events)));
        cost := Pull.Bytesize(events, size);
      } else {
        var held := CopyOf(o).held;
        u := Some(Pull.Update(o, c.generation, c.no, false, Pull.Snapshot(held)));
        cost := |held| * Pull.HASH_BYTES;
      }
    }

    /** One origin's line of the response, and what it costs. */
    method RespondOne(i: nat, have: map<string, (nat, nat)>, skip: set<string>, used: nat, budget: nat,
                      size: Event -> nat)
      returns (line: seq<Pull.Update>, cost: nat)
      requires i < |names|
      ensures var answers := Pull.AnswersOf(copies, have, skip, size);
              Pull.RespondFrom(names[i..], answers, used, budget)
                == line + Pull.RespondFrom(names[i + 1..], answers, used + cost, budget)
    {
      var o := names[i];
      var (g, n) := Pull.HaveOf(have, o);
      var u;
      u, cost := AnswerOne(o, g, n, o in skip, used >= budget, size);
      line := if u.Some? then [u.value] else [];
      assert Pull.AnswersOf(copies, have, skip, size)(o, used >= budget) == (u, cost);
      Pull.RespondNext(names, Pull.AnswersOf(copies, have, skip, size), i, used, budget);
    }

    /** A request from a peer: the budget is that of one response. */
    method Respond(have: map<string, (nat, nat)>, skip: set<string>, size: Event -> nat)
        returns (updates: seq<Pull.Update>)
      ensures updates == Pull.RespondFrom(names, Pull.AnswersOf(copies, have, skip, size), 0, Pull.RESPONSE_BYTES_CAP)
      ensures PullLoop.WithinBudget(updates, 0, Pull.RESPONSE_BYTES_CAP, size)
    {
      updates := RespondBudgeted(have, skip, Pull.RESPONSE_BYTES_CAP, size);
    }

    /** The response to a sync request, origin by origin, under the whole-response budget. */
    method RespondBudgeted(have: map<string, (nat, nat)>, skip: set<string>, budget: nat, size: Event -> nat)
        returns (updates: seq<Pull.Update>)
      ensures updates == Pull.RespondFrom(names, Pull.AnswersOf(copies, have, skip, size), 0, budget)
      ensures PullLoop.WithinBudget(updates, 0, budget, size)
    {
      PullLoop.ResponseWithinBudget(names, copies, have, skip, size, budget);
      updates := [];
      var used: nat := 0;
      ghost var answers := Pull.AnswersOf(copies, have, skip, size);
      assert names[0..] == names;
      ghost var rest := Pull.RespondFrom(names[0..], answers, used, budget);
      for i := 0 to |names|
        invariant rest == Pull.RespondFrom(names[i..], answers, used, budget)
        invariant Pull.RespondFrom(names, answers, 0, budget) == updates + rest
      {
        var line, cost := RespondOne(i, have, skip, used, budget, size);
        used := used + cost;
        ghost var more := Pull.RespondFrom(names[i + 1..], answers, used, budget);
        AppendAssoc(updates, line, more);
        updates := updates + line;
        rest := more;
      }
      assert names[|names|..] == [];
    }
  }

  lemma AppendAssoc<T>(a: seq<T>, b: seq<T>, c: seq<T>)
    ensures a + (b + c) == (a + b) + c
  {}
}
