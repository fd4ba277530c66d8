/** The catch-up planner (`Catchup` in src/sync.rs): windowed multi-peer fetching of an origin's
    journal. Per origin a cursor, a reorder buffer and a retry queue; one shared window. */
module Catchup {
  import opened Common
  import opened Replica
  import Mesh
  import Pull
  import Retention

  const CHUNK_EVENTS: nat := 4096
  const ENGINE_WINDOW: nat := 6
  const ENGINE_STRIKES: nat := 3

  /** The numbers after `after`, through `until`. */
  datatype Interval = Span(after: nat, until: nat)

  datatype Plan = Plan(generation: nat, cursor: nat, next: nat, target: nat,
                       buffered: map<nat, seq<Event>>, retry: seq<Interval>, strikes: nat)

  /** What is sent to a peer. */
  datatype RangeAsk = RangeAsk(origin: string, generation: nat, span: Interval)

  /** An ask in flight, for the history: `life` tells the enrolments of an origin apart. */
  datatype Ask = Ask(origin: string, life: nat, span: Interval)

  /** Where a number still to be applied is. */
  datatype Owner = Nobody | Asked(span: Interval) | Queued(span: Interval) | Held(after: nat)

  type Owners = nat -> Owner

  // ---- what a plan keeps ----

  predicate In(r: Interval, x: nat) { r.after < x <= r.until }

  /** The number that a chunk reaches. */
  function Last(es: seq<Event>): nat { if es == [] then 0 else es[|es| - 1].no }

  /** The events numbered after `after`, one by one. */
  ghost predicate Consecutive(after: nat, es: seq<Event>) { forall i :: 0 <= i < |es| ==> es[i].no == after + 1 + i }

  ghost predicate Owns(own: Owners, r: Interval, who: Owner) {
    r.after < r.until && forall x: nat :: In(r, x) ==> own(x) == who
  }

  ghost predicate BoundsOk(p: Plan) { p.cursor <= p.next <= p.target <= p.cursor + Retention.JOURNAL_BACKSTOP }

  ghost predicate AsksOk(asks: set<Interval>, own: Owners) {
    && (forall r :: r in asks ==> Owns(own, r, Asked(r)))
    && (forall x: nat :: own(x).Asked? ==> own(x).span in asks && In(own(x).span, x))
  }

  ghost predicate RetryOk(retry: seq<Interval>, own: Owners) {
    && (forall i :: 0 <= i < |retry| ==> Owns(own, retry[i], Queued(retry[i])))
    && (forall i, j :: 0 <= i < j < |retry| ==> retry[i] != retry[j])
    && (forall x: nat :: own(x).Queued? ==> own(x).span in retry && In(own(x).span, x))
  }

  ghost predicate ChunkOk(buffered: map<nat, seq<Event>>, own: Owners, a: nat)
    requires a in buffered
  {
    buffered[a] != [] && Owns(own, Span(a, Last(buffered[a])), Held(a))
  }

  ghost predicate BufferedOk(buffered: map<nat, seq<Event>>, own: Owners) {
    && (forall a :: a in buffered ==> ChunkOk(buffered, own, a))
    && (forall x: nat :: own(x).Held? ==> own(x).after in buffered && own(x).after < x <= Last(buffered[own(x).after]))
  }

  /** The numbers in (cursor, next], and no others, are owned: each by one outstanding ask, one
      retry or one buffered chunk. */
  ghost predicate PlanOk(p: Plan, asks: set<Interval>, own: Owners) {
    && BoundsOk(p)
    && (forall x: nat :: own(x) != Nobody <==> p.cursor < x <= p.next)
    && AsksOk(asks, own) && RetryOk(p.retry, own) && BufferedOk(p.buffered, own)
  }

  ghost function Give(own: Owners, r: Interval, who: Owner): Owners { (x: nat) => if In(r, x) then who else own(x) }

  // ---- asking ----

  /** What to ask for next: a retry first, else a fresh chunk. */
  function NextSpan(p: Plan): Option<Interval> {
    if p.retry != [] then Some(p.retry[0])
    else if p.next < p.target then Some(Span(p.next, Min(p.next + CHUNK_EVENTS, p.target)))
    else None
  }

  function Asking(p: Plan): Plan
    requires NextSpan(p).Some?
  {
    if p.retry != [] then p.(retry := p.retry[1..]) else p.(next := NextSpan(p).value.until)
  }

  /** The longest waiting retry goes out before anything fresh; a fresh ask starts where the last
      one ended and is as long as a chunk, unless the target comes first. */
  ghost predicate RetriesFirst(p: Plan, q: Plan, r: Interval) {
    if p.retry != [] then p.retry == [r] + q.retry && q.next == p.next
    else q.retry == [] && q.next == r.until && r.after == p.next < r.until <= p.target
         && (r.until < p.target ==> r.until == r.after + CHUNK_EVENTS)
  }

  lemma RetriesGoFirst(p: Plan)
    requires BoundsOk(p) && NextSpan(p).Some?
    ensures RetriesFirst(p, Asking(p), NextSpan(p).value)
  {
    if p.retry != [] { assert p.retry == [p.retry[0]] + p.retry[1..]; }
  }

  // Numbers that change hands leave every structure alone that owned none of them.

  lemma GiveKeepsHeld(buffered: map<nat, seq<Event>>, own: Owners, r: Interval, who: Owner)
    requires BufferedOk(buffered, own) && !who.Held? && forall x: nat :: In(r, x) ==> !own(x).Held?
    ensures BufferedOk(buffered, Give(own, r, who))
  {
    var own' := Give(own, r, who);
    forall a | a in buffered ensures ChunkOk(buffered, own', a) {
      assert ChunkOk(buffered, own, a);
      forall x: nat | In(Span(a, Last(buffered[a])), x) ensures own'(x) == Held(a) { assert own(x) == Held(a); }
    }
  }

  lemma GiveKeepsAsks(asks: set<Interval>, own: Owners, r: Interval, who: Owner)
    requires AsksOk(asks, own) && !who.Asked? && forall x: nat :: In(r, x) ==> !own(x).Asked?
    ensures AsksOk(asks, Give(own, r, who))
  {
    var own' := Give(own, r, who);
    forall q | q in asks ensures Owns(own', q, Asked(q)) {
      assert Owns(own, q, Asked(q));
      forall x: nat | In(q, x) ensures own'(x) == Asked(q) { assert own(x) == Asked(q); }
    }
  }

  lemma GiveKeepsRetry(retry: seq<Interval>, own: Owners, r: Interval, who: Owner)
    requires RetryOk(retry, own) && !who.Queued? && forall x: nat :: In(r, x) ==> !own(x).Queued?
    ensures RetryOk(retry, Give(own, r, who))
  {
    var own' := Give(own, r, who);
    forall i | 0 <= i < |retry| ensures Owns(own', retry[i], Queued(retry[i])) {
      assert Owns(own, retry[i], Queued(retry[i]));
      forall x: nat | In(retry[i], x) ensures own'(x) == Queued(retry[i]) { assert own(x) == Queued(retry[i]); }
    }
  }

  // Numbers that join or leave one structure.

  lemma JoinAsks(asks: set<Interval>, own: Owners, r: Interval)
    requires AsksOk(asks, own) && r.after < r.until && forall x: nat :: In(r, x) ==> !own(x).Asked?
    ensures AsksOk(asks + {r}, Give(own, r, Asked(r))) && r !in asks
  {
    var own' := Give(own, r, Asked(r));
    var last: nat := r.until;
    assert In(r, last);
    assert r in asks ==> Owns(own, r, Asked(r));
    forall q | q in asks + {r} ensures Owns(own', q, Asked(q)) {
      if q in asks {
        assert Owns(own, q, Asked(q));
        forall x: nat | In(q, x) ensures own'(x) == Asked(q) { assert own(x) == Asked(q); }
      }
    }
  }

  lemma LeaveAsks(asks: set<Interval>, own: Owners, r: Interval, who: Owner)
    requires AsksOk(asks, own) && r in asks && !who.Asked?
    ensures AsksOk(asks - {r}, Give(own, r, who))
  {
    var own' := Give(own, r, who);
    assert Owns(own, r, Asked(r));
    forall q | q in asks - {r} ensures Owns(own', q, Asked(q)) {
      assert Owns(own, q, Asked(q));
      forall x: nat | In(q, x) ensures own'(x) == Asked(q) { assert own(x) == Asked(q); }
    }
  }

  lemma LeaveRetry(retry: seq<Interval>, own: Owners, who: Owner)
    requires RetryOk(retry, own) && retry != [] && !who.Queued?
    ensures RetryOk(retry[1..], Give(own, retry[0], who)) && Owns(own, retry[0], Queued(retry[0]))
  {
    var r, rest := retry[0], retry[1..];
    var own' := Give(own, r, who);
    forall i | 0 <= i < |rest| ensures Owns(own', rest[i], Queued(rest[i])) {
      assert rest[i] == retry[i + 1] && Owns(own, retry[i + 1], Queued(retry[i + 1]));
      forall x: nat | In(rest[i], x) ensures own'(x) == Queued(rest[i]) { assert own(x) == Queued(rest[i]); }
    }
    forall x: nat | own'(x).Queued? ensures own'(x).span in rest && In(own'(x).span, x) {
      assert own(x).span in retry && own(x).span != r;
    }
  }

  /** A span enters the retry queue at either end. */
  lemma JoinRetry(retry: seq<Interval>, own: Owners, r: Interval, front: bool)
    requires RetryOk(retry, own) && r.after < r.until && forall x: nat :: In(r, x) ==> !own(x).Queued?
    ensures RetryOk(if front then [r] + retry else retry + [r], Give(own, r, Queued(r)))
  {
    var own' := Give(own, r, Queued(r));
    var q := if front then [r] + retry else retry + [r];
    var last: nat := r.until;
    assert In(r, last);
    forall i | 0 <= i < |retry| ensures Owns(own', retry[i], Queued(retry[i])) && retry[i] != r {
      assert Owns(own, retry[i], Queued(retry[i]));
      forall x: nat | In(retry[i], x) ensures own'(x) == Queued(retry[i]) { assert own(x) == Queued(retry[i]); }
    }
    assert forall i :: 0 <= i < |q| ==> q[i] == r || q[i] in retry;
    assert r in q && forall t :: t in retry ==> t in q;
  }

  lemma AskKeeps(p: Plan, asks: set<Interval>, own: Owners)
    requires PlanOk(p, asks, own) && NextSpan(p).Some?
    ensures var r := NextSpan(p).value; PlanOk(Asking(p), asks + {r}, Give(own, r, Asked(r))) && r !in asks
  {
    var r := NextSpan(p).value;
    if p.retry != [] {
      LeaveRetry(p.retry, own, Asked(r));
    } else {
      assert forall x: nat :: In(r, x) ==> own(x) == Nobody;
      GiveKeepsRetry(p.retry, own, r, Asked(r));
    }
    JoinAsks(asks, own, r);
    GiveKeepsHeld(p.buffered, own, r, Asked(r));
  }

  // ---- replies ----

  /** Put an outstanding span back. */
  lemma RequeueKeeps(p: Plan, asks: set<Interval>, own: Owners, r: Interval, front: bool, strikes: nat)
    requires PlanOk(p, asks, own) && r in asks
    ensures PlanOk(p.(retry := if front then [r] + p.retry else p.retry + [r], strikes := strikes), asks - {r},
            Give(own, r, Queued(r)))
  {
    assert Owns(own, r, Asked(r));
    LeaveAsks(asks, own, r, Queued(r));
    JoinRetry(p.retry, own, r, front);
    GiveKeepsHeld(p.buffered, own, r, Queued(r));
  }

  /** A reply: what it reaches is buffered as one chunk, a shortfall goes to the retries. */
  function Completed(p: Plan, r: Interval, es: seq<Event>): Plan {
    var covered := Last(es);
    p.(strikes := 0, retry := if covered < r.until then p.retry + [Span(covered, r.until)] else p.retry,
       buffered := if es != [] then p.buffered[r.after := es] else p.buffered)
  }

  /** The reply reaches into the span it was asked for. */
  predicate Good(r: Interval, es: seq<Event>) { es != [] && r.after < Last(es) <= r.until }

  ghost function Landed(own: Owners, r: Interval, covered: nat): Owners {
    var held := Give(own, Span(r.after, covered), Held(r.after));
    if covered < r.until then Give(held, Span(covered, r.until), Queued(Span(covered, r.until))) else held
  }

  lemma JoinHeld(buffered: map<nat, seq<Event>>, own: Owners, a: nat, es: seq<Event>)
    requires BufferedOk(buffered, own) && es != [] && a < Last(es) && forall x: nat :: In(Span(a, Last(es)), x) ==>
               !own(x).Held?
    ensures BufferedOk(buffered[a := es], Give(own, Span(a, Last(es)), Held(a))) && a !in buffered
  {
    var own', b' := Give(own, Span(a, Last(es)), Held(a)), buffered[a := es];
    assert a in buffered ==> ChunkOk(buffered, own, a);
    var first: nat := a + 1;
    assert In(Span(a, Last(es)), first) && (a in buffered ==> In(Span(a, Last(buffered[a])), first));
    forall k | k in b' ensures ChunkOk(b', own', k) {
      if k != a {
        assert ChunkOk(buffered, own, k);
        forall x: nat | In(Span(k, Last(buffered[k])), x) ensures own'(x) == Held(k) { assert own(x) == Held(k); }
      }
    }
  }

  lemma CompleteKeeps(p: Plan, asks: set<Interval>, own: Owners, r: Interval, es: seq<Event>)
    requires PlanOk(p, asks, own) && r in asks && Good(r, es)
    ensures PlanOk(Completed(p, r, es), asks - {r}, Landed(own, r, Last(es)))
    ensures r.after !in p.buffered
  {
    var covered := Last(es);
    assert Owns(own, r, Asked(r));
    JoinHeld(p.buffered, own, r.after, es);
    LandAsks(asks, own, r, covered);
    LandRest(p, own, r, es);
    forall x: nat ensures Landed(own, r, covered)(x) != Nobody <==> own(x) != Nobody { LandedAt(own, r, covered, x); }
  }

  lemma LandRest(p: Plan, own: Owners, r: Interval, es: seq<Event>)
    requires RetryOk(p.retry, own) && BufferedOk(p.buffered, own) && Owns(own, r, Asked(r))
    requires Good(r, es)
    ensures var q := Completed(p, r, es);
            RetryOk(q.retry, Landed(own, r, Last(es))) && BufferedOk(q.buffered, Landed(own, r, Last(es)))
  {
    var covered := Last(es);
    var head, tail := Span(r.after, covered), Span(covered, r.until);
    var held := Give(own, head, Held(r.after));
    JoinHeld(p.buffered, own, r.after, es);
    GiveKeepsRetry(p.retry, own, head, Held(r.after));
    if covered < r.until {
      JoinRetry(p.retry, held, tail, false);
      GiveKeepsHeld(p.buffered[r.after := es], held, tail, Queued(tail));
    }
  }

  lemma LandedAt(own: Owners, r: Interval, covered: nat, x: nat)
    requires r.after < covered <= r.until
    ensures Landed(own, r, covered)(x) == if r.after < x <= covered then Held(r.after) else if covered < x <= r.until
            then Queued(Span(covered, r.until)) else own(x)
  {
    var held := Give(own, Span(r.after, covered), Held(r.after));
    assert held(x) == if In(Span(r.after, covered), x) then Held(r.after) else own(x);
    if covered < r.until {
      assert Landed(own, r, covered) == Give(held, Span(covered, r.until), Queued(Span(covered, r.until)));
    } else {
      assert Landed(own, r, covered) == held;
    }
  }

  lemma LandAsks(asks: set<Interval>, own: Owners, r: Interval, covered: nat)
    requires AsksOk(asks, own) && r in asks && r.after < covered <= r.until
    ensures AsksOk(asks - {r}, Landed(own, r, covered))
  {
    var own' := Landed(own, r, covered);
    assert Owns(own, r, Asked(r));
    forall x: nat ensures own'(x) == own(x) || (In(r, x) && !own'(x).Asked?) { LandedAt(own, r, covered, x); }
    forall x: nat ensures In(r, x) ==> !own'(x).Asked? { LandedAt(own, r, covered, x); }
    forall q | q in asks - {r} ensures Owns(own', q, Asked(q)) {
      assert Owns(own, q, Asked(q));
      forall x: nat | In(q, x) ensures own'(x) == Asked(q) { assert own(x) == Asked(q); }
    }
  }

  // ---- releasing ----

  /** The first buffered chunk, once it starts at the cursor. */
  ghost predicate ReadyAt(p: Plan, a: nat) {
    a in p.buffered && a <= p.cursor && forall k :: k in p.buffered ==> a <= k
  }

  function Released(p: Plan, a: nat): Plan
    requires a in p.buffered
  {
    var cursor := Max(p.cursor, Last(p.buffered[a]));
    p.(buffered := p.buffered - {a}, cursor := cursor, next := Max(p.next, cursor))
  }

  /** Chunks are released at the cursor only, in order, and the cursor then stands at their end. */
  lemma ReleaseKeeps(p: Plan, asks: set<Interval>, own: Owners, a: nat)
    requires PlanOk(p, asks, own) && ReadyAt(p, a)
    ensures a == p.cursor && p.buffered[a] != [] && p.cursor < Last(p.buffered[a])
    ensures Released(p, a).cursor == Last(p.buffered[a]) && Released(p, a).next == p.next
    ensures PlanOk(Released(p, a), asks, Give(own, Span(a, Last(p.buffered[a])), Nobody))
  {
    var r := Span(a, Last(p.buffered[a]));
    assert ChunkOk(p.buffered, own, a);
    var first: nat, last: nat := a + 1, r.until;
    assert own(first) == Held(a) && own(last) == Held(a);
    GiveKeepsAsks(asks, own, r, Nobody);
    GiveKeepsRetry(p.retry, own, r, Nobody);
    LeaveHeld(p.buffered, own, a);
  }

  lemma LeaveHeld(buffered: map<nat, seq<Event>>, own: Owners, a: nat)
    requires BufferedOk(buffered, own) && a in buffered
    ensures BufferedOk(buffered - {a}, Give(own, Span(a, Last(buffered[a])), Nobody))
  {
    var r := Span(a, Last(buffered[a]));
    var own', b' := Give(own, r, Nobody), buffered - {a};
    assert ChunkOk(buffered, own, a);
    forall k | k in b' ensures ChunkOk(b', own', k) {
      assert ChunkOk(buffered, own, k);
      forall x: nat | In(Span(k, Last(buffered[k])), x) ensures own'(x) == Held(k) { assert own(x) == Held(k); }
    }
  }

  // ---- what the invariant says ----

  ghost predicate AskedFor(asks: set<Interval>, x: nat) { exists r :: r in asks && In(r, x) }
  ghost predicate ToRetry(p: Plan, x: nat) { exists r :: r in p.retry && In(r, x) }
  ghost predicate Waiting(p: Plan, x: nat) { exists a :: a in p.buffered && a < x <= Last(p.buffered[a]) }

  /** The interval (cursor, next] is split exactly once among outstanding asks, retries and
      buffered chunks. */
  lemma Partition(p: Plan, asks: set<Interval>, own: Owners, x: nat)
    requires PlanOk(p, asks, own)
    ensures p.cursor < x <= p.next <==> AskedFor(asks, x) || ToRetry(p, x) || Waiting(p, x)
    ensures !(AskedFor(asks, x) && ToRetry(p, x)) && !(AskedFor(asks, x) && Waiting(p, x))
            && !(ToRetry(p, x) && Waiting(p, x))
    ensures forall r, q :: r in asks && q in asks && In(r, x) && In(q, x) ==> r == q
    ensures forall i, j :: 0 <= i < |p.retry| && 0 <= j < |p.retry| && In(p.retry[i], x) && In(p.retry[j], x) ==> i == j
    ensures forall a, b ::
              a in p.buffered && b in p.buffered && a < x <= Last(p.buffered[a]) && b < x <= Last(p.buffered[b]) ==>
                a == b
  {
    if AskedFor(asks, x) { var r :| r in asks && In(r, x); assert Owns(own, r, Asked(r)); }
    if ToRetry(p, x) { var r :| r in p.retry && In(r, x); assert Owns(own, r, Queued(r)); }
    if Waiting(p, x) {
      var a :| a in p.buffered && a < x <= Last(p.buffered[a]);
      assert ChunkOk(p.buffered, own, a) && In(Span(a, Last(p.buffered[a])), x);
    }
    match own(x) {
      case Nobody =>
      case Asked(r) => assert r in asks && In(r, x);
      case Queued(r) => assert r in p.retry && In(r, x);
      case Held(a) => assert a in p.buffered;
    }
    forall r, q | r in asks && q in asks && In(r, x) && In(q, x) ensures r == q {
      assert Owns(own, r, Asked(r)) && Owns(own, q, Asked(q));
    }
    forall i, j | 0 <= i < |p.retry| && 0 <= j < |p.retry| && In(p.retry[i], x) && In(p.retry[j], x) ensures i == j {
      assert Owns(own, p.retry[i], Queued(p.retry[i])) && Owns(own, p.retry[j], Queued(p.retry[j]));
    }
    forall a, b | a in p.buffered && b in p.buffered && a < x <= Last(p.buffered[a]) && b < x <= Last(p.buffered[b])
      ensures a == b {
      assert ChunkOk(p.buffered, own, a) && ChunkOk(p.buffered, own, b);
      assert In(Span(a, Last(p.buffered[a])), x) && In(Span(b, Last(p.buffered[b])), x);
    }
  }

  /** A chunk that ends past its span takes a number that is still owed elsewhere, or not at all. */
  lemma OverreachDoubles(p: Plan, asks: set<Interval>, own: Owners, r: Interval, es: seq<Event>, x: nat)
    requires PlanOk(p, asks, own) && r in asks && es != [] && x == r.until + 1 <= Last(es)
    ensures var q := Completed(p, r, es);
            && Waiting(q, x) && r.after in q.buffered && r.after < x <= Last(q.buffered[r.after])
            && (x > q.next || AskedFor(asks - {r}, x) || ToRetry(q, x)
                || exists k :: k in q.buffered && k != r.after && k < x <= Last(q.buffered[k]))
  {
    var q := Completed(p, r, es);
    var first: nat := r.after + 1;
    assert Owns(own, r, Asked(r)) && own(first) == Asked(r);
    assert r.after in q.buffered && q.buffered[r.after] == es;
    match own(x) {
      case Nobody =>
      case Asked(t) => assert t in asks - {r} && In(t, x);
      case Queued(t) => assert t in q.retry && In(t, x);
      case Held(k) =>
        assert ChunkOk(p.buffered, own, k);
        assert k != r.after && k in q.buffered && q.buffered[k] == p.buffered[k];
    }
  }

  /** A nonempty reply leaves a plan whose numbers are split exactly once if and only if it reaches
      into the span that it answers. */
  lemma CompleteKeepsIff(p: Plan, asks: set<Interval>, own: Owners, r: Interval, es: seq<Event>)
    requires PlanOk(p, asks, own) && r in asks && es != []
    ensures (exists now :: PlanOk(Completed(p, r, es), asks - {r}, now)) <==> Good(r, es)
  {
    if Good(r, es) {
      CompleteKeeps(p, asks, own, r, es);
    } else {
      forall now ensures !PlanOk(Completed(p, r, es), asks - {r}, now) { BadReplySpoils(p, asks, own, r, es, now); }
    }
  }

  lemma BadReplySpoils(p: Plan, asks: set<Interval>, own: Owners, r: Interval, es: seq<Event>, now: Owners)
    requires PlanOk(p, asks, own) && r in asks && es != [] && !Good(r, es)
    ensures !PlanOk(Completed(p, r, es), asks - {r}, now)
  {
    var q := Completed(p, r, es);
    assert r.after in q.buffered && q.buffered[r.after] == es;
    if Last(es) > r.until {
      var x := r.until + 1;
      OverreachDoubles(p, asks, own, r, es, x);
      if PlanOk(q, asks - {r}, now) { Partition(q, asks - {r}, now, x); }
    } else {
      assert !ChunkOk(q.buffered, now, r.after);
    }
  }

  // ---- progress ----

  /** Numbers up to the target that have not arrived. */
  ghost function Missing(p: Plan, own: Owners): set<nat> { set x: nat | p.cursor < x <= p.target && !own(x).Held? }

  /** A good reply strictly reduces what is missing; releasing, asking and requeueing change
      nothing about it. */
  lemma RepliesMakeProgress(p: Plan, asks: set<Interval>, own: Owners, r: Interval, es: seq<Event>)
    requires PlanOk(p, asks, own) && r in asks && Good(r, es)
    ensures |Missing(Completed(p, r, es), Landed(own, r, Last(es)))| < |Missing(p, own)|
  {
    var covered := Last(es);
    var a, b := Missing(Completed(p, r, es), Landed(own, r, covered)), Missing(p, own);
    assert Owns(own, r, Asked(r));
    var first: nat, last: nat := r.after + 1, r.until;
    assert own(first) == Asked(r) && own(last) == Asked(r);
    forall x: nat ensures x in a ==> x in b { LandedAt(own, r, covered, x); }
    LandedAt(own, r, covered, first);
    assert first in b && first !in a;
    SubsetSize(a, b);
  }

  lemma OthersKeepMissing(p: Plan, asks: set<Interval>, own: Owners, r: Interval, a: nat)
    requires PlanOk(p, asks, own)
    ensures NextSpan(p).Some? ==>
              Missing(Asking(p), Give(own, NextSpan(p).value, Asked(NextSpan(p).value))) == Missing(p, own)
    ensures r in asks ==> Missing(p, Give(own, r, Queued(r))) == Missing(p, own)
    ensures ReadyAt(p, a) ==>
              Missing(Released(p, a), Give(own, Span(a, Last(p.buffered[a])), Nobody)) == Missing(p, own)
  {
    if NextSpan(p).Some? {
      var q := NextSpan(p).value;
      if p.retry != [] { assert Owns(own, p.retry[0], Queued(p.retry[0])); }
      forall x: nat ensures x in Missing(Asking(p), Give(own, q, Asked(q))) <==> x in Missing(p, own) {}
    }
    if r in asks {
      assert Owns(own, r, Asked(r));
      forall x: nat ensures x in Missing(p, Give(own, r, Queued(r))) <==> x in Missing(p, own) {}
    }
    if ReadyAt(p, a) {
      ReleaseKeeps(p, asks, own, a);
      assert ChunkOk(p.buffered, own, a);
      var r := Span(a, Last(p.buffered[a]));
      forall x: nat ensures x in Missing(Released(p, a), Give(own, r, Nobody)) <==> x in Missing(p, own) {}
    }
  }

  predicate Finished(p: Plan) { p.cursor >= p.target && p.buffered == map[] && p.retry == [] }

  lemma HeldNextIsReady(p: Plan, asks: set<Interval>, own: Owners)
    requires PlanOk(p, asks, own) && own(p.cursor + 1).Held?
    ensures exists a: nat :: ReadyAt(p, a)
  {
    var x: nat := p.cursor + 1;
    var ks: set<nat> := p.buffered.Keys;
    assert own(x).after in ks;
    var a: nat := Least(ks);
    assert ReadyAt(p, a);
  }

  /** A plan with anything outstanding owns a number. */
  lemma SomethingOwned(p: Plan, asks: set<Interval>, own: Owners)
    requires PlanOk(p, asks, own)
    ensures p.buffered != map[] || p.retry != [] || asks != {} ==> p.cursor < p.next
  {
    if p.buffered != map[] {
      var a: nat :| a in p.buffered;
      assert ChunkOk(p.buffered, own, a);
      var last: nat := Last(p.buffered[a]);
      assert own(last) == Held(a);
    } else if p.retry != [] {
      assert Owns(own, p.retry[0], Queued(p.retry[0]));
      var last: nat := p.retry[0].until;
      assert own(last) == Queued(p.retry[0]);
    } else if asks != {} {
      var r :| r in asks;
      assert Owns(own, r, Asked(r));
      var last: nat := r.until;
      assert own(last) == Asked(r);
    }
  }

  /** Nothing missing and nothing ready to release: the origin is caught up. */
  lemma NothingMissingFinishes(p: Plan, asks: set<Interval>, own: Owners)
    requires PlanOk(p, asks, own) && Missing(p, own) == {} && forall a: nat :: !ReadyAt(p, a)
    ensures Finished(p) && asks == {}
  {
    var x: nat := p.cursor + 1;
    assert x !in Missing(p, own);
    if p.cursor < p.target { HeldNextIsReady(p, asks, own); }
    SomethingOwned(p, asks, own);
  }

  // ---- the planner ----

  /** The outstanding asks of one enrolment. */
  ghost function AsksOf(out: set<Ask>, origin: string, life: nat): set<Interval> {
    set a | a in out && a.origin == origin && a.life == life :: a.span
  }

  lemma AskLeaves(out: set<Ask>, a: Ask)
    ensures AsksOf(out - {a}, a.origin, a.life) == AsksOf(out, a.origin, a.life) - {a.span}
  {}

  lemma AskJoins(out: set<Ask>, a: Ask)
    ensures AsksOf(out + {a}, a.origin, a.life) == AsksOf(out, a.origin, a.life) + {a.span}
    ensures a in out ==> a.span in AsksOf(out, a.origin, a.life)
  {}

  /** The history kept beside a plan: its enrolment and who owns its numbers. */
  datatype Side = Side(life: nat, own: Owners)

  ghost predicate AllOk(origins: map<string, Plan>, side: map<string, Side>, out: set<Ask>, lives: nat) {
    && origins.Keys == side.Keys
    && (forall o :: o in origins ==>
         side[o].life < lives && PlanOk(origins[o], AsksOf(out, o, side[o].life), side[o].own))
    && (forall a :: a in out ==> a.life < lives)
  }

  /** Changing one origin's plan and its asks leaves the others alone. */
  lemma OneChanged(origins: map<string, Plan>, side: map<string, Side>, out: set<Ask>, lives: nat, o: string, p: Plan,
                   own: Owners, now: set<Ask>)
    requires AllOk(origins, side, out, lives) && o in origins
    requires forall a: Ask :: a.origin != o || a.life != side[o].life ==> (a in now <==> a in out)
    requires lives > side[o].life
    requires PlanOk(p, AsksOf(now, o, side[o].life), own)
    ensures AllOk(origins[o := p], side[o := Side(side[o].life, own)], now, lives)
  {
    var origins', side' := origins[o := p], side[o := Side(side[o].life, own)];
    forall q | q in origins'
      ensures side'[q].life < lives && PlanOk(origins'[q], AsksOf(now, q, side'[q].life), side'[q].own) {
      if q != o { assert AsksOf(now, q, side[q].life) == AsksOf(out, q, side[q].life); }
    }
    forall a | a in now ensures a.life < lives { if a.origin != o || a.life != side[o].life { assert a in out; } }
  }

  lemma OneDropped(origins: map<string, Plan>, side: map<string, Side>, out: set<Ask>, lives: nat, o: string)
    requires AllOk(origins, side, out, lives)
    ensures AllOk(origins - {o}, side - {o}, out, lives)
  {}

  /** The head chunk left the plan of one origin, and its cursor stands at the chunk's end. */
  ghost predicate ReleasedAs(was: map<string, Plan>, now: map<string, Plan>, o: string, es: seq<Event>) {
    && o in was && was[o].cursor in was[o].buffered && es == was[o].buffered[was[o].cursor]
    && now == was[o := was[o].(buffered := was[o].buffered - {was[o].cursor}, cursor := Last(es))]
    && was[o].cursor < Last(es) <= was[o].next
  }

  /** Plans of all origins but one stay as they are. */
  ghost predicate OthersSame(was: map<string, Plan>, now: map<string, Plan>, o: string) {
    forall x :: x != o ==> (x in was <==> x in now) && (x in was ==> was[x] == now[x])
  }

  lemma PutSame(was: map<string, Plan>, o: string, p: Plan)
    ensures OthersSame(was, was[o := p], o) && OthersSame(was, was[o := p] - {o}, o)
  {}

  lemma SameSame(a: map<string, Plan>, b: map<string, Plan>, c: map<string, Plan>, o: string)
    requires OthersSame(a, b, o) && OthersSame(b, c, o)
    ensures OthersSame(a, c, o)
  {}

  /** The copy of an origin that is being caught up is not behind the plan's cursor. */
  ghost predicate InStep(c: Copy, p: Plan) { c.clock.generation == p.generation ==> p.cursor <= c.clock.no }

  ghost predicate HonestChunks(p: Plan) { forall a :: a in p.buffered ==> Consecutive(a, p.buffered[a]) }

  /** What applying a chunk does to the copy, or None when it does not connect. */
  function Applied(c: Copy, generation: nat, es: seq<Event>): Option<Copy> {
    if PlanSuffix(c.clock.generation, c.clock.no, generation, es) == Gap then None
    else Some(ApplyRead(c, c.clock.generation, c.clock.no, generation, es))
  }

  /** A chunk that connects leaves the copy at the chunk's end or beyond. */
  lemma AppliedReaches(c: Copy, generation: nat, es: seq<Event>)
    requires es != [] && Applied(c, generation, es).Some?
    ensures var c' := Applied(c, generation, es).value; c'.clock.generation == generation ==> Last(es) <= c'.clock.no
  {
    ScanCovers(Batch([], [], [], c.clock.no), es);
    assert es[|es| - 1] in es;
  }

  /** An honest chunk at or below the clock connects. */
  lemma HonestConnects(c: Copy, generation: nat, a: nat, es: seq<Event>)
    requires es != [] && Consecutive(a, es) && c.clock.generation == generation && a <= c.clock.no
    ensures Applied(c, generation, es).Some?
    ensures var c' := Applied(c, generation, es).value;
            c'.clock.generation == generation && c'.clock.no == Max(c.clock.no, Last(es))
  {
    ConsecutiveConnects(Batch([], [], [], c.clock.no), a, es);
  }

  /** The plan `now` of an origin that is being drained, and the copy that it feeds. */
  ghost predicate Going(was: Plan, now: Plan, c: Copy, honest: bool) {
    && now.generation == was.generation && now.target == was.target && InStep(c, now)
    && (honest ==> HonestChunks(now) && c.clock.generation == now.generation)
  }

  /** One chunk at the cursor of plan p: the copy stays in step, and an honest chunk connects. */
  lemma ChunkApplies(c: Copy, p: Plan, es: seq<Event>, honest: bool)
    requires es != [] && InStep(c, p) && p.cursor in p.buffered && es == p.buffered[p.cursor]
    requires honest ==> HonestChunks(p) && c.clock.generation == p.generation
    ensures var q := p.(buffered := p.buffered - {p.cursor}, cursor := Last(es));
            && (honest ==> HonestChunks(q) && Applied(c, p.generation, es).Some?)
            && (Applied(c, p.generation, es).Some? ==> var d := Applied(c, p.generation, es).value;
                  InStep(d, q) && (honest ==> d.clock.generation == p.generation))
  {
    if honest { HonestConnects(c, p.generation, p.cursor, es); }
    if Applied(c, p.generation, es).Some? { AppliedReaches(c, p.generation, es); }
  }

  lemma {:induction false} ConsecutiveConnects(b: Batch, a: nat, es: seq<Event>)
    requires Consecutive(a, es) && a <= b.no
    ensures Scan(b, es).Some? && Scan(b, es).value.no == Max(b.no, Last(es))
    ensures Scan(b, es).value.rows == b.rows ==> Scan(b, es).value.no == b.no
    ensures |Scan(b, es).value.rows| >= |b.rows|
    decreases |es|
  {
    if es != [] {
      var rest := es[1..];
      assert forall i :: 0 <= i < |rest| ==> rest[i] == es[i + 1];
      assert Last(es) == if rest == [] then es[0].no else Last(rest);
      if es[0].no <= b.no { ConsecutiveConnects(b, a + 1, rest); } else {
        ConsecutiveConnects(Extend(b, es[0]), a + 1, rest);
      }
    }
  }

  class Catchup {
    var origins: map<string, Plan>
    var inflight: nat
    /** Asks sent and not answered, those of dropped enrolments included. */
    ghost var out: set<Ask>
    ghost var side: map<string, Side>
    ghost var lives: nat

    /** The window counts exactly the outstanding asks. */
    ghost predicate Valid()
      reads this
    {
      inflight == |out| <= ENGINE_WINDOW && AllOk(origins, side, out, lives)
    }

    constructor ()
      ensures Valid() && origins == map[] && out == {}
    {
      origins, inflight, out, side, lives := map[], 0, {}, map[], 0;
    }

    method DropOrigin(origin: string)
      requires Valid()
      modifies this`origins, this`side
      ensures Valid() && origins == old(origins) - {origin}
    {
      OneDropped(origins, side, out, lives, origin);
      origins, side := origins - {origin}, side - {origin};
    }

    /** Register an origin or raise its target; refuse when it regenerated, or when the target
        lies beyond what the mesh is sure to retain. */
    method Enroll(origin: string, generation: nat, cursor: nat, target: nat) returns (ok: bool)
      requires Valid()
      modifies this`origins, this`side, this`lives
      ensures Valid()
      ensures var was := if origin in old(origins) then old(origins)[origin]
              else Plan(generation, cursor, cursor, cursor, map[], [], 0);
              && (ok <==>
                   was.generation == generation && Max(was.target, target) <= was.cursor + Retention.JOURNAL_BACKSTOP)
              && origins == if ok then old(origins)[origin := was.(target := Max(was.target, target))]
                 else old(origins) - {origin}
    {
      var p: Plan;
      if origin in origins {
        p := origins[origin];
        if p.generation != generation {
          DropOrigin(origin);
          return false;
        }
      } else {
        p := Plan(generation, cursor, cursor, cursor, map[], [], 0);
      }
      p := p.(target := Max(p.target, target));
      if p.target > p.cursor + Retention.JOURNAL_BACKSTOP {
        DropOrigin(origin);
        return false;
      }
      if origin in origins {
        OneChanged(origins, side, out, lives, origin, p, side[origin].own, out);
        side := side[origin := Side(side[origin].life, side[origin].own)];
      } else {
        NewPlan(p, out, origin, lives);
        AddOne(origins, side, out, lives, origin, p);
        side := side[origin := Side(lives, (x: nat) => Nobody)];
        lives := lives + 1;
      }
      origins := origins[origin := p];
      ok := true;
    }

    /** Pick an origin that has something to ask for, while the window has room. */
    method NextAsk() returns (ask: Option<RangeAsk>, ghost sent: Ask)
      requires Valid()
      modifies this`origins, this`inflight, this`out, this`side
      ensures Valid()
      ensures ask.None? ==> origins == old(origins) && out == old(out)
      ensures ask.None? <==> old(inflight) == ENGINE_WINDOW || forall o :: o in old(origins) ==>
                NextSpan(old(origins)[o]).None?
      ensures ask.Some? ==>
                ask.value.origin in old(origins) && ask.value.generation == old(origins)[ask.value.origin].generation
                            && NextSpan(old(origins)[ask.value.origin]) == Some(ask.value.span)
                            && origins == old(origins)[ask.value.origin := Asking(old(origins)[ask.value.origin])]
      ensures ask.Some? ==>
                sent == Ask(ask.value.origin, side[ask.value.origin].life, ask.value.span) && sent !in old(out)
                && out == old(out) + {sent}
    {
      sent := Ask("", 0, Span(0, 0));
      if inflight >= ENGINE_WINDOW {
        return None, sent;
      }
      if o :| o in origins && NextSpan(origins[o]).Some? {
        var r;
        r, sent := AskFor(o);
        return Some(RangeAsk(o, origins[o].generation, r)), sent;
      }
      ask := None;
    }

    /** Ask for the next span of one origin. */
    method AskFor(o: string) returns (r: Interval, ghost sent: Ask)
      requires Valid() && o in origins && NextSpan(origins[o]).Some? && inflight < ENGINE_WINDOW
      modifies this`origins, this`inflight, this`out, this`side
      ensures Valid() && r == NextSpan(old(origins)[o]).value && origins == old(origins)[o := Asking(old(origins)[o])]
      ensures o in side && sent == Ask(o, side[o].life, r) && sent !in old(out) && out == old(out) + {sent}
    {
      var p := origins[o];
      r := NextSpan(p).value;
      ghost var s := side[o];
      AskKeeps(p, AsksOf(out, o, s.life), s.own);
      sent := Ask(o, s.life, r);
      AskJoins(out, sent);
      assert sent !in out;
      OneChanged(origins, side, out, lives, o, Asking(p), Give(s.own, r, Asked(r)), out + {sent});
      side, out := side[o := Side(s.life, Give(s.own, r, Asked(r)))], out + {sent};
      origins, inflight := origins[o := Asking(p)], inflight + 1;
    }

    /** The ask is outstanding, and belongs to the origin's present enrolment if it has one. */
    ghost predicate Current(origin: string, r: Interval, sent: Ask)
      reads this
    {
      sent in out && sent.origin == origin && sent.span == r && (origin in side ==> sent.life == side[origin].life)
    }

    /** One ask less in flight; the origin's plan becomes p. */
    method SettlePlan(origin: string, r: Interval, p: Plan, ghost own: Owners, ghost sent: Ask)
      requires Valid() && Current(origin, r, sent) && origin in origins
      requires PlanOk(p, AsksOf(out, origin, side[origin].life) - {r}, own)
      modifies this`origins, this`inflight, this`out, this`side
      ensures Valid() && out == old(out) - {sent} && origins == old(origins)[origin := p]
      ensures origin in side && side[origin].own == own
    {
      ghost var life := side[origin].life;
      AskLeaves(out, sent);
      OneChanged(origins, side, out, lives, origin, p, own, out - {sent});
      side, out := side[origin := Side(life, own)], out - {sent};
      origins, inflight := origins[origin := p], SatSub(inflight, 1);
    }

    /** One ask less in flight; the origin's plan, if it is still enrolled, becomes p. */
    method Settle(origin: string, r: Interval, p: Plan, ghost own: Owners, ghost sent: Ask)
      requires Valid() && Current(origin, r, sent)
      requires origin in origins ==> PlanOk(p, AsksOf(out, origin, side[origin].life) - {r}, own)
      modifies this`origins, this`inflight, this`out, this`side
      ensures Valid() && out == old(out) - {sent}
      ensures origins == if origin in old(origins) then old(origins)[origin := p] else old(origins)
      ensures origin in old(origins) ==> origin in side && side[origin].own == own
    {
      if origin in origins {
        SettlePlan(origin, r, p, own, sent);
      } else {
        Forget(origins, side, out, lives, sent);
        inflight, out := SatSub(inflight, 1), out - {sent};
      }
    }

    /** Undo a dispatch that found no peer: the span goes back to the front. */
    method Unpick(origin: string, r: Interval, ghost sent: Ask)
      requires Valid() && Current(origin, r, sent)
      modifies this`origins, this`inflight, this`out, this`side
      ensures Valid() && out == old(out) - {sent}
      ensures origins == if origin in old(origins)
              then old(origins)[origin := old(origins)[origin].(retry := [r] + old(origins)[origin].retry)]
                         else old(origins)
    {
      var p := if origin in origins then origins[origin] else Plan(0, 0, 0, 0, map[], [], 0);
      ghost var own := if origin in side then side[origin].own else (x: nat) => Nobody;
      if origin in origins {
        assert r in AsksOf(out, origin, side[origin].life);
        RequeueKeeps(p, AsksOf(out, origin, side[origin].life), own, r, true, p.strikes);
      }
      Settle(origin, r, p.(retry := [r] + p.retry), Give(own, r, Queued(r)), sent);
    }

    /** A fetch failed: requeue at the back and count a strike. */
    method Strike(origin: string, r: Interval, ghost sent: Ask) returns (keep: bool)
      requires Valid() && Current(origin, r, sent)
      modifies this`origins, this`inflight, this`out, this`side
      ensures Valid() && out == old(out) - {sent}
      ensures origin in old(origins) ==>
                var p := old(origins)[origin];
                origins == old(origins)[origin := p.(retry := p.retry + [r], strikes := p.strikes + 1)]
                  && (keep <==> p.strikes + 1 < ENGINE_STRIKES)
      ensures origin !in old(origins) ==> origins == old(origins) && keep
    {
      var p := if origin in origins then origins[origin] else Plan(0, 0, 0, 0, map[], [], 0);
      ghost var own := if origin in side then side[origin].own else (x: nat) => Nobody;
      keep := origin !in origins || p.strikes + 1 < ENGINE_STRIKES;
      if origin in origins {
        assert r in AsksOf(out, origin, side[origin].life);
        RequeueKeeps(p, AsksOf(out, origin, side[origin].life), own, r, false, p.strikes + 1);
      }
      Settle(origin, r, p.(retry := p.retry + [r], strikes := p.strikes + 1), Give(own, r, Queued(r)), sent);
    }

    /** The plan after a reply. */
    static method Land(p: Plan, r: Interval, es: seq<Event>) returns (q: Plan)
      requires es != []
      ensures q == Completed(p, r, es)
    {
      q := p.(strikes := 0);
      var covered := es[|es| - 1].no;
      if covered < r.until {
        q := q.(retry := q.retry + [Span(covered, r.until)]);
      }
      q := q.(buffered := q.buffered[r.after := es]);
    }

    /** What is missing of an origin, or nothing when it is not enrolled. */
    ghost function Left(origin: string): set<nat>
      reads this
    {
      if origin in origins && origin in side then Missing(origins[origin], side[origin].own) else {}
    }

    /** A nonempty reply, with or without gaps. One that reaches into its span brings an enrolled
        origin strictly closer to its target; any other breaks the split (`CompleteKeepsIff`). */
    method Complete(origin: string, r: Interval, es: seq<Event>, ghost sent: Ask)
      requires Valid() && Current(origin, r, sent) && es != []
      modifies this`origins, this`inflight, this`out, this`side
      ensures out == old(out) - {sent} && inflight == |out|
      ensures origins == if origin in old(origins) then old(origins)[origin := Completed(old(origins)[origin], r, es)]
              else old(origins)
      ensures origin in origins ==> origins[origin].strikes == 0
      ensures Good(r, es) || origin !in old(origins) ==> Valid()
      ensures Good(r, es) && origin in old(origins) ==> |Left(origin)| < old(|Left(origin)|)
    {
      if origin !in origins {
        Settle(origin, r, Plan(0, 0, 0, 0, map[], [], 0), (x: nat) => Nobody, sent);
        return;
      }
      ghost var own, asks := side[origin].own, AsksOf(out, origin, side[origin].life);
      assert r in asks;
      var q := Land(origins[origin], r, es);
      if !Good(r, es) {
        origins, inflight, out := origins[origin := q], SatSub(inflight, 1), out - {sent};
        return;
      }
      CompleteKeeps(origins[origin], asks, own, r, es);
      RepliesMakeProgress(origins[origin], asks, own, r, es);
      Settle(origin, r, q, Landed(own, r, Last(es)), sent);
    }

    /** Release the head chunk once it touches the cursor, and move the cursor over it. */
    method Release(origin: string) returns (es: seq<Event>)
      requires Valid()
      modifies this`origins, this`side
      ensures Valid()
      ensures es == [] <==> origin !in old(origins) || forall a: nat :: !ReadyAt(old(origins)[origin], a)
      ensures es == [] ==> origins == old(origins)
      ensures es != [] ==> ReleasedAs(old(origins), origins, origin, es)
    {
      if origin !in origins {
        return [];
      }
      var p := origins[origin];
      if p.buffered == map[] {
        return [];
      }
      var keys: set<nat> := p.buffered.Keys;
      var a: nat := Least(keys);
      if a > p.cursor {
        return [];
      }
      assert ReadyAt(p, a);
      ghost var s := side[origin];
      ReleaseKeeps(p, AsksOf(out, origin, s.life), s.own, a);
      es := p.buffered[a];
      SetPlan(origin, Released(p, a), Give(s.own, Span(a, Last(es)), Nobody));
      assert Released(p, a) == p.(buffered := p.buffered - {p.cursor}, cursor := Last(es));
    }

    /** The origin's plan becomes q; the asks stay as they are. */
    method SetPlan(origin: string, q: Plan, ghost own: Owners)
      requires Valid() && origin in origins && PlanOk(q, AsksOf(out, origin, side[origin].life), own)
      modifies this`origins, this`side
      ensures Valid() && origins == old(origins)[origin := q]
    {
      OneChanged(origins, side, out, lives, origin, q, own, out);
      side := side[origin := Side(side[origin].life, own)];
      origins := origins[origin := q];
    }

    /** Apply the head chunk if it touches the cursor; one that does not connect drops the origin. */
    method ApplyHead(origin: string, c: Copy, ghost was: Plan, ghost honest: bool) returns (more: bool, r: Copy)
      requires Valid() && origin in origins && Going(was, origins[origin], c, honest)
      modifies this`origins, this`side
      ensures Valid() && OthersSame(old(origins), origins, origin)
      ensures more ==> origin in origins && Going(was, origins[origin], r, honest)
                       && old(origins)[origin].cursor < origins[origin].cursor <= origins[origin].next
                          == old(origins)[origin].next
      ensures !more ==> r == c && (honest ==> origin in origins)
      ensures !more && origin in origins ==> origins == old(origins) && forall a: nat :: !ReadyAt(origins[origin], a)
    {
      ghost var p := origins[origin];
      var generation := origins[origin].generation;
      var es := Release(origin);
      if es == [] {
        return false, c;
      }
      ChunkApplies(c, p, es, honest);
      PutSame(old(origins), origin, origins[origin]);
      var next := Applied(c, generation, es);
      if next.None? {
        DropOrigin(origin);
        return false, c;
      }
      return true, next.value;
    }

    /** Apply every chunk that touches the cursor, in order, to the copy c. The first one that does
        not connect drops the origin; so does finishing. The copy never falls behind the cursor,
        and if the chunks are honest the origin is dropped only once the copy has reached the
        target. */
    method Drain(origin: string, c: Copy) returns (r: Copy)
      requires Valid() && origin in origins && InStep(c, origins[origin])
      modifies this`origins, this`side
      ensures Valid() && OthersSame(old(origins), origins, origin)
      ensures origin in origins ==>
                InStep(r, origins[origin]) && (forall a: nat :: !ReadyAt(origins[origin], a)) && Left(origin) != {}
      ensures HonestChunks(old(origins)[origin]) && c.clock.generation == old(origins)[origin].generation ==>
                r.clock.generation == c.clock.generation
                  && (origin in origins || old(origins)[origin].target <= r.clock.no)
    {
      r := c;
      ghost var was := origins[origin];
      ghost var honest := HonestChunks(was) && c.clock.generation == was.generation;
      var more := true;
      while more
        invariant Valid() && OthersSame(old(origins), origins, origin) && (more || honest ==> origin in origins)
        invariant origin in origins ==> Going(was, origins[origin], r, honest)
        invariant !more && origin in origins ==> forall a: nat :: !ReadyAt(origins[origin], a)
        decreases more, if origin in origins then origins[origin].next - origins[origin].cursor else 0
      {
        ghost var before := origins;
        more, r := ApplyHead(origin, r, was, honest);
        SameSame(old(origins), before, origins, origin);
      }
      if origin in origins {
        DoneIfNothingMissing(origin);
        PutSame(origins, origin, origins[origin]);
        if Finished(origins[origin]) {
          DropOrigin(origin);
        }
      }
    }

    lemma DoneIfNothingMissing(origin: string)
      requires Valid() && origin in origins && forall a: nat :: !ReadyAt(origins[origin], a)
      ensures Left(origin) == {} ==> Finished(origins[origin])
    {
      if Left(origin) == {} {
        NothingMissingFinishes(origins[origin], AsksOf(out, origin, side[origin].life), side[origin].own);
      }
    }
  }

  /** What a responder with a gapless journal answers and the planner's guard lets through is a
      good reply of consecutive events. */
  lemma HonestReplyIsGood(c: Copy, a: RangeAsk, size: Event -> nat)
    requires Mesh.Dense(c) && Pull.Numbered(c.journal)
    ensures var r := Pull.AnswerRange(c, Pull.RangeAsk(a.origin, a.generation, a.span.after, a.span.until), size);
            r.reachable && r.generation == a.generation && r.events != [] ==>
              Consecutive(a.span.after, r.events) && Good(a.span, r.events)
  {
    Pull.RangeReplyFits(c, Pull.RangeAsk(a.origin, a.generation, a.span.after, a.span.until), size);
  }

  lemma Forget(origins: map<string, Plan>, side: map<string, Side>, out: set<Ask>, lives: nat, sent: Ask)
    requires AllOk(origins, side, out, lives) && sent.origin !in origins
    ensures AllOk(origins, side, out - {sent}, lives)
  {
    forall o | o in origins ensures AsksOf(out - {sent}, o, side[o].life) == AsksOf(out, o, side[o].life) {}
  }

  lemma NewPlan(p: Plan, out: set<Ask>, origin: string, life: nat)
    requires p.cursor == p.next <= p.target <= p.cursor + Retention.JOURNAL_BACKSTOP && p.buffered == map[]
             && p.retry == []
    requires forall a :: a in out ==> a.life < life
    ensures PlanOk(p, AsksOf(out, origin, life), (x: nat) => Nobody)
  {
    assert AsksOf(out, origin, life) == {};
  }

  lemma AddOne(origins: map<string, Plan>, side: map<string, Side>, out: set<Ask>, lives: nat, o: string, p: Plan)
    requires AllOk(origins, side, out, lives) && PlanOk(p, AsksOf(out, o, lives), (x: nat) => Nobody)
    ensures AllOk(origins[o := p], side[o := Side(lives, (x: nat) => Nobody)], out, lives + 1)
  {}
}
