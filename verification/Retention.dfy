/** Journal compaction by acknowledged watermarks with a size backstop (`record_watermarks`,
    `compact` in src/index.rs), as one node sees one origin within one generation. */
module Retention {
  import opened Common

  const JOURNAL_BACKSTOP: nat := 50_000

  datatype Keeper = Keeper(no: nat, tail: nat, marks: map<string, nat>)

  function Mark(marks: map<string, nat>, peer: string): nat { if peer in marks then marks[peer] else 0 }

  /** The minimum of our own number and every configured peer's watermark. */
  function MinMark(no: nat, marks: map<string, nat>, peers: seq<string>): (m: nat)
    ensures m <= no && forall p :: p in peers ==> m <= Mark(marks, p)
    ensures m == no || exists p :: p in peers && m == Mark(marks, p)
  {
    if peers == [] then no
    else
      var init, last := peers[..|peers| - 1], peers[|peers| - 1];
      assert peers == init + [last];
      Min(MinMark(no, marks, init), Mark(marks, last))
  }

  function Floor(no: nat, marks: map<string, nat>, peers: seq<string>): nat {
    Max(MinMark(no, marks, peers), SatSub(no, JOURNAL_BACKSTOP))
  }

  datatype Step = Grow(events: nat) | Ack(peer: string, no: nat) | Compact

  function Next(k: Keeper, peers: seq<string>, s: Step): Keeper {
    match s
    case Grow(n) => k.(no := k.no + n)
    case Ack(p, n) => if n > Mark(k.marks, p) then k.(marks := k.marks[p := n]) else k
    case Compact =>
      var floor := Floor(k.no, k.marks, peers);
      if floor > k.tail then k.(tail := floor) else k
  }

  function RunAll(k: Keeper, peers: seq<string>, steps: seq<Step>): Keeper
    decreases |steps|
  {
    if steps == [] then k else RunAll(Next(k, peers, steps[0]), peers, steps[1..])
  }

  ghost predicate Retained(k: Keeper, peers: seq<string>) {
    && k.tail <= k.no
    && forall p :: p in peers ==> k.tail <= Max(Mark(k.marks, p), SatSub(k.no, JOURNAL_BACKSTOP))
  }

  /** Over every run of exports, acknowledgements and compactions: the tail never passes a
      configured peer's watermark, unless that peer fell behind the backstop. */
  lemma {:induction false} EveryRunRetains(k: Keeper, peers: seq<string>, steps: seq<Step>)
    requires Retained(k, peers)
    ensures Retained(RunAll(k, peers, steps), peers)
    decreases |steps|
  {
    if steps != [] {
      EveryRunRetains(Next(k, peers, steps[0]), peers, steps[1..]);
    }
  }

  /** For whom a compaction keeps the rows: a copy at number n can still be served a suffix if and
      only if it could before, is within the backstop, and either is up to date or some
      configured peer has acknowledged no more than n. */
  lemma CompactionKeeps(k: Keeper, peers: seq<string>, n: nat)
    ensures n >= Next(k, peers, Compact).tail <==>
            && n >= k.tail && n + JOURNAL_BACKSTOP >= k.no
            && (n >= k.no || exists p :: p in peers && Mark(k.marks, p) <= n)
  {
    var m := MinMark(k.no, k.marks, peers);
    if p :| p in peers && Mark(k.marks, p) <= n {
      assert m <= Mark(k.marks, p);
    }
    if m <= n && m != k.no {
      var p :| p in peers && m == Mark(k.marks, p);
      assert Mark(k.marks, p) <= n;
    }
  }

  lemma OneStep(k: Keeper, peers: seq<string>, s: Step)
    ensures RunAll(k, peers, [s]) == Next(k, peers, s)
  {
    assert [s][1..] == [];
  }

  lemma {:induction false} RunAllAppend(k: Keeper, peers: seq<string>, a: seq<Step>, b: seq<Step>)
    ensures RunAll(k, peers, a + b) == RunAll(RunAll(k, peers, a), peers, b)
    decreases |a|
  {
    if a == [] {
      assert a + b == b;
    } else {
      assert (a + b)[1..] == a[1..] + b;
      RunAllAppend(Next(k, peers, a[0]), peers, a[1..], b);
    }
  }

  /** Marks only rise and numbers only grow along a run. */
  lemma {:induction false} RunsRise(k: Keeper, peers: seq<string>, steps: seq<Step>, peer: string)
    ensures Mark(k.marks, peer) <= Mark(RunAll(k, peers, steps).marks, peer) && k.no <= RunAll(k, peers, steps).no
    decreases |steps|
  {
    if steps != [] { RunsRise(Next(k, peers, steps[0]), peers, steps[1..], peer); }
  }

  /** So a configured peer that still has what it acknowledged, and is within the backstop, keeps
      its suffix through every compaction of every run. */
  lemma {:induction false} PeerWithinBackstopGetsSuffix(k: Keeper, peers: seq<string>, steps: seq<Step>, peer: string,
                                                        theirs: nat)
    requires Retained(k, peers) && peer in peers
    requires theirs >= Mark(RunAll(k, peers, steps).marks, peer)
    requires theirs + JOURNAL_BACKSTOP >= RunAll(k, peers, steps).no
    ensures theirs >= RunAll(k, peers, steps).tail
    decreases |steps|
  {
    if steps != [] {
      var init, last := steps[..|steps| - 1], steps[|steps| - 1];
      assert steps == init + [last];
      RunAllAppend(k, peers, init, [last]);
      var mid := RunAll(k, peers, init);
      OneStep(mid, peers, last);
      RunsRise(mid, peers, [last], peer);
      PeerWithinBackstopGetsSuffix(k, peers, init, peer, theirs);
      if last.Compact? { CompactionKeeps(mid, peers, theirs); }
    }
  }

  /** A relay that took a new generation's snapshot at number s and then d events of it, with
      watermarks that carry no generation. */
  function Relay(marks: map<string, nat>, s: nat, d: nat): Keeper { Keeper(s + d, s, marks) }

  /** Exactly when its compaction cuts rows that a peer at number n of the new generation still
      needs, though the backstop would keep them: when every configured peer's mark, most of them
      left over from the old generation, is above n. */
  lemma StaleMarkCutsNewGeneration(marks: map<string, nat>, peers: seq<string>, s: nat, d: nat, n: nat)
    requires s <= n < s + d <= n + JOURNAL_BACKSTOP
    ensures n < Next(Relay(marks, s, d), peers, Compact).tail <==> forall p :: p in peers ==> Mark(marks, p) > n
  {
    CompactionKeeps(Relay(marks, s, d), peers, n);
  }
}
