/** Planning a transfer (`manifest_plan`, `fallback_plan` in src/fetch.rs): the layout of a
    manifest and the retention decisions become the spans the emitter executes and the ranges
    the transfer carves. */
module Plan {
  import opened Common
  import opened Nar
  import opened Seek
  import L = Layout
  import Dedup
  import opened Emission
  import T = Transfer
  import Engine

  const RANGE_MERGE_GAP: nat := 64 * 1024

  datatype Plan = Plan(spans: seq<Placed>, lits: Bytes, ranges: seq<T.Range>)

  // ---- segment occurrences in archive order ----

  function Occurs(s: L.Span): nat { if s.kind.Segment? then 1 else 0 }

  /** How many of the first i spans are segments. */
  function SegsBefore(spans: seq<L.Span>, i: nat): (n: nat)
    requires i <= |spans|
    ensures n <= i
  {
    if i == 0 then 0 else SegsBefore(spans, i - 1) + Occurs(spans[i - 1])
  }

  /** keys and sizes list the segments of the first i spans. */
  ghost predicate Listed(spans: seq<L.Span>, i: nat, keys: seq<Bytes>, sizes: seq<nat>)
    requires i <= |spans|
  {
    && |keys| == |sizes| == SegsBefore(spans, i)
    && forall j :: 0 <= j < i ==> ListedAt(spans, j, keys, sizes)
  }

  ghost predicate ListedAt(spans: seq<L.Span>, j: nat, keys: seq<Bytes>, sizes: seq<nat>)
    requires j < |spans| && |keys| == |sizes|
  {
    spans[j].kind.Segment? ==>
      var p := SegsBefore(spans, j);
      p < |keys| && keys[p] == spans[j].kind.hash && sizes[p] == spans[j].len
  }

  /** The two guards on a peer-supplied layout. */
  ghost predicate FitsWindow(spans: seq<L.Span>, window: nat) {
    forall j :: 0 <= j < |spans| && spans[j].kind.Segment? ==> spans[j].len <= window
  }

  ghost predicate OneLength(spans: seq<L.Span>) {
    forall i, j :: 0 <= i < |spans| && 0 <= j < |spans| && spans[i].kind.Segment? && spans[j].kind == spans[i].kind ==>
        spans[i].len == spans[j].len
  }

  ghost predicate Seen(spans: seq<L.Span>, h: Bytes) { exists j :: 0 <= j < |spans| && spans[j].kind == L.Segment(h) }

  /** The lengths seen so far, by hash. */
  ghost predicate LengthsOk(spans: seq<L.Span>, lenOf: map<Bytes, nat>) {
    && (forall j :: 0 <= j < |spans| && spans[j].kind.Segment? ==>
         spans[j].kind.hash in lenOf && lenOf[spans[j].kind.hash] == spans[j].len)
    && (forall h :: h in lenOf ==> Seen(spans, h))
  }

  method Occurrences(spans: seq<L.Span>, window: nat) returns (r: Option<(seq<Bytes>, seq<nat>)>)
    ensures r.Some? <==> FitsWindow(spans, window) && OneLength(spans)
    ensures r.Some? ==> Listed(spans, |spans|, r.value.0, r.value.1)
  {
    var keys: seq<Bytes>, sizes: seq<nat>, lenOf: map<Bytes, nat> := [], [], map[];
    for i := 0 to |spans|
      invariant Listed(spans, i, keys, sizes) && LengthsOk(spans[..i], lenOf) && FitsWindow(spans[..i], window)
    {
      var s := spans[i];
      if s.kind.Segment? {
        if s.len > window {
          return None;
        }
        if s.kind.hash in lenOf && lenOf[s.kind.hash] != s.len {
          assert Seen(spans[..i], s.kind.hash);
          ghost var j :| 0 <= j < i && spans[..i][j].kind == L.Segment(s.kind.hash);
          assert spans[j].kind == spans[i].kind && spans[j].len != spans[i].len;
          return None;
        }
        LengthsGrow(spans, i, lenOf);
        ListedGrow(spans, i, keys, sizes);
        lenOf := lenOf[s.kind.hash := s.len];
        keys, sizes := keys + [s.kind.hash], sizes + [s.len];
      } else {
        ListedGrow(spans, i, keys, sizes);
        LengthsSame(spans, i, lenOf);
      }
    }
    assert spans[..|spans|] == spans;
    r := Some((keys, sizes));
  }

  lemma ListedGrow(spans: seq<L.Span>, i: nat, keys: seq<Bytes>, sizes: seq<nat>)
    requires i < |spans| && Listed(spans, i, keys, sizes)
    ensures spans[i].kind.Framing? ==> Listed(spans, i + 1, keys, sizes)
    ensures spans[i].kind.Segment? ==> Listed(spans, i + 1, keys + [spans[i].kind.hash], sizes + [spans[i].len])
  {
    var keys', sizes' := keys, sizes;
    if spans[i].kind.Segment? { keys', sizes' := keys + [spans[i].kind.hash], sizes + [spans[i].len]; }
    forall j | 0 <= j < i + 1 ensures ListedAt(spans, j, keys', sizes') {
      if j < i { assert ListedAt(spans, j, keys, sizes); }
    }
  }

  lemma LengthsGrow(spans: seq<L.Span>, i: nat, lenOf: map<Bytes, nat>)
    requires i < |spans| && LengthsOk(spans[..i], lenOf) && spans[i].kind.Segment?
    requires spans[i].kind.hash in lenOf ==> lenOf[spans[i].kind.hash] == spans[i].len
    ensures LengthsOk(spans[..i + 1], lenOf[spans[i].kind.hash := spans[i].len])
  {
    var lenOf' := lenOf[spans[i].kind.hash := spans[i].len];
    assert spans[..i + 1] == spans[..i] + [spans[i]];
    forall h | h in lenOf' ensures Seen(spans[..i + 1], h) {
      if h == spans[i].kind.hash {
        assert spans[..i + 1][i].kind == L.Segment(h);
      } else {
        assert Seen(spans[..i], h);
        var j :| 0 <= j < i && spans[..i][j].kind == L.Segment(h);
        assert spans[..i + 1][j].kind == L.Segment(h);
      }
    }
  }

  lemma LengthsSame(spans: seq<L.Span>, i: nat, lenOf: map<Bytes, nat>)
    requires i < |spans| && LengthsOk(spans[..i], lenOf) && spans[i].kind.Framing?
    ensures LengthsOk(spans[..i + 1], lenOf)
  {
    assert spans[..i + 1] == spans[..i] + [spans[i]];
    forall h | h in lenOf ensures Seen(spans[..i + 1], h) {
      assert Seen(spans[..i], h);
      var j :| 0 <= j < i && spans[..i][j].kind == L.Segment(h);
      assert spans[..i + 1][j].kind == L.Segment(h);
    }
  }

  // ---- from decisions to spans and ranges ----

  /** What the emitter does with span i, given the decision for its occurrence. */
  function Exec(span: L.Span, step: Dedup.Step): Placed {
    (span.off,
     match span.kind
     case Framing(o) => Emission.Lit(o, span.len)
     case Segment(_) =>
       match step
       case Fetch(u, r) => Fetch(span.len, if r > 0 then Some((u, r)) else None)
       case Cached(u) => Replay(u, span.len))
  }

  function StepAt(spans: seq<L.Span>, steps: seq<Dedup.Step>, i: nat): Dedup.Step
    requires i < |spans|
  {
    var p := SegsBefore(spans, i);
    if p < |steps| then steps[p] else Dedup.Fetch(0, 0)
  }

  /** The executed spans follow layout and decisions. */
  ghost predicate Follows(spans: seq<L.Span>, steps: seq<Dedup.Step>, out: seq<Placed>, n: nat)
    requires n <= |spans| && n <= |out|
  {
    forall i :: 0 <= i < n ==> FollowsAt(spans, steps, out, i)
  }

  ghost predicate FollowsAt(spans: seq<L.Span>, steps: seq<Dedup.Step>, out: seq<Placed>, i: nat)
    requires i < |spans| && i < |out|
  {
    out[i] == Exec(spans[i], StepAt(spans, steps, i))
  }

  ghost predicate CoversSpan(ranges: seq<T.Range>, s: Placed) {
    s.1.Fetch? ==> forall x: nat :: s.0 <= x < s.0 + s.1.len ==> T.InRange(ranges, x)
  }

  /** Coalesce with the last range when the gap is small. */
  function Coalesce(ranges: seq<T.Range>, off: nat, len: nat): seq<T.Range> {
    if ranges != [] && off >= T.Top(ranges) && off - T.Top(ranges) <= RANGE_MERGE_GAP
    then var o := ranges[|ranges| - 1].0; ranges[..|ranges| - 1] + [(o, off + len - o)]
    else ranges + [(off, len)]
  }

  /** A small gap, one that is fetched rather than cut out. */
  predicate Small(from: nat, to: nat) { from <= to <= from + RANGE_MERGE_GAP }

  /** Ranges that lie apart: between two neighbours there is more than a small gap. */
  ghost predicate Spaced(ranges: seq<T.Range>) {
    forall i :: 0 < i < |ranges| ==> ranges[i - 1].0 + ranges[i - 1].1 + RANGE_MERGE_GAP < ranges[i].0
  }

  /** Coalescing adds the part and, if it is small, the gap before it, and nothing else. */
  lemma CoalesceOk(ranges: seq<T.Range>, off: nat, len: nat)
    requires T.RangesOk(ranges) && T.Top(ranges) <= off
    ensures var more := Coalesce(ranges, off, len);
            T.RangesOk(more) && more != [] && T.Top(more) == off + len && (Spaced(ranges) ==> Spaced(more))
    ensures forall x: nat :: T.InRange(Coalesce(ranges, off, len), x) <==>
                             T.InRange(ranges, x) || off <= x < off + len
                             || (ranges != [] && Small(T.Top(ranges), off) && T.Top(ranges) <= x < off)
  {
    forall x: nat {
      CoalesceAt(ranges, off, len, x);
    }
  }

  lemma CoalesceAt(ranges: seq<T.Range>, off: nat, len: nat, x: nat)
    requires T.RangesOk(ranges) && T.Top(ranges) <= off
    ensures T.InRange(Coalesce(ranges, off, len), x) <==>
            T.InRange(ranges, x) || off <= x < off + len
            || (ranges != [] && Small(T.Top(ranges), off) && T.Top(ranges) <= x < off)
  {
    var r := Coalesce(ranges, off, len);
    if T.InRange(r, x) {
      var j :| 0 <= j < |r| && r[j].0 <= x < r[j].0 + r[j].1;
      assert j < |ranges| ==> ranges[j].0 == r[j].0;
    }
    if T.InRange(ranges, x) {
      var j :| 0 <= j < |ranges| && ranges[j].0 <= x < ranges[j].0 + ranges[j].1;
      assert r[j].0 <= x < r[j].0 + r[j].1;
    } else if off <= x < off + len || (ranges != [] && Small(T.Top(ranges), off) && T.Top(ranges) <= x < off) {
      assert r[|r| - 1].0 <= x < r[|r| - 1].0 + r[|r| - 1].1;
    }
  }

  // ---- which bytes are fetched ----

  /** Byte x is in span i, and span i is fetched. */
  ghost predicate FetchedAt(out: seq<Placed>, i: nat, x: nat) {
    i < |out| && out[i].1.Fetch? && out[i].0 <= x < out[i].0 + out[i].1.len
  }

  /** Byte x is in a small gap between i and j, consecutive fetched spans. */
  ghost predicate BridgedAt(out: seq<Placed>, i: nat, j: nat, x: nat) {
    && i < j < |out| && out[i].1.Fetch? && out[j].1.Fetch?
    && (forall k :: i < k < j ==> !out[k].1.Fetch?)
    && out[i].0 + out[i].1.len <= x < out[j].0 && Small(out[i].0 + out[i].1.len, out[j].0)
  }

  ghost predicate Wanted(out: seq<Placed>, x: nat) {
    (exists i :: FetchedAt(out, i, x)) || exists i, j :: BridgedAt(out, i, j, x)
  }

  /** The ranges hold the bytes of the fetched spans and of the small gaps between consecutive
      ones, and no other byte; what is farther apart stays in separate ranges. */
  ghost predicate Thrifty(ranges: seq<T.Range>, out: seq<Placed>) {
    Spaced(ranges) && forall x: nat :: T.InRange(ranges, x) <==> Wanted(out, x)
  }

  /** last is the last fetched span, or -1; the ranges end where it ends. */
  ghost predicate LastFetch(ranges: seq<T.Range>, out: seq<Placed>, last: int) {
    && -1 <= last < |out| && (forall k :: last < k < |out| ==> !out[k].1.Fetch?)
    && if last < 0 then ranges == []
       else ranges != [] && out[last].1.Fetch? && T.Top(ranges) == out[last].0 + out[last].1.len
  }

  lemma WantedMore(ranges: seq<T.Range>, out: seq<Placed>, last: int, placed: Placed, x: nat)
    requires LastFetch(ranges, out, last)
    ensures Wanted(out + [placed], x) <==>
            Wanted(out, x)
            || (placed.1.Fetch? && placed.0 <= x < placed.0 + placed.1.len)
            || (placed.1.Fetch? && ranges != [] && Small(T.Top(ranges), placed.0) && T.Top(ranges) <= x < placed.0)
  {
    var n, out' := |out|, out + [placed];
    forall i: nat ensures FetchedAt(out', i, x) <==> FetchedAt(out, i, x) || (i == n && FetchedAt(out', n, x)) {}
    forall i: nat, j: nat
      ensures BridgedAt(out', i, j, x) <==> BridgedAt(out, i, j, x) || (j == n && i == last && BridgedAt(out', i, n, x))
    {
      BridgedMore(ranges, out, last, placed, x, i, j);
    }
    if last >= 0 { assert forall k :: last < k < n ==> out'[k] == out[k]; }
    if placed.1.Fetch? && ranges != [] && Small(T.Top(ranges), placed.0) && T.Top(ranges) <= x < placed.0 {
      assert BridgedAt(out', last, n, x);
    }
    if placed.1.Fetch? && placed.0 <= x < placed.0 + placed.1.len { assert FetchedAt(out', n, x); }
  }

  lemma BridgedMore(ranges: seq<T.Range>, out: seq<Placed>, last: int, placed: Placed, x: nat, i: nat, j: nat)
    requires LastFetch(ranges, out, last)
    ensures BridgedAt(out + [placed], i, j, x) <==>
            BridgedAt(out, i, j, x) || (j == |out| && i == last && BridgedAt(out + [placed], i, |out|, x))
  {
    var out' := out + [placed];
    if last >= 0 { assert out'[last] == out[last]; }
    if j < |out| { assert forall k :: i < k < j ==> out'[k] == out[k]; }
  }

  /** What a span adds to the ranges: if it is fetched its bytes, and a small gap before it. */
  ghost predicate Grown(ranges: seq<T.Range>, placed: Placed, x: nat) {
    || T.InRange(ranges, x)
    || (placed.1.Fetch? && placed.0 <= x < placed.0 + placed.1.len)
    || (placed.1.Fetch? && ranges != [] && Small(T.Top(ranges), placed.0) && T.Top(ranges) <= x < placed.0)
  }

  /** The ranges that span p makes of the ranges so far. */
  ghost predicate RangesMore(ranges: seq<T.Range>, p: Placed, more: seq<T.Range>) {
    && T.RangesOk(more) && Spaced(more)
    && (if p.1.Fetch? then more != [] && T.Top(more) == p.0 + p.1.len else more == ranges)
    && forall x: nat :: T.InRange(more, x) <==> Grown(ranges, p, x)
  }

  lemma ThriftyMore(ranges: seq<T.Range>, out: seq<Placed>, last: int, placed: Placed, more: seq<T.Range>)
    requires LastFetch(ranges, out, last) && Thrifty(ranges, out) && RangesMore(ranges, placed, more)
    ensures Thrifty(more, out + [placed])
    ensures LastFetch(more, out + [placed], if placed.1.Fetch? then |out| else last)
  {
    forall x: nat ensures T.InRange(more, x) <==> Wanted(out + [placed], x) {
      WantedMore(ranges, out, last, placed, x);
    }
  }

  lemma ThriftyCovers(ranges: seq<T.Range>, out: seq<Placed>, i: nat)
    requires Thrifty(ranges, out) && i < |out|
    ensures CoversSpan(ranges, out[i])
  {
    if out[i].1.Fetch? {
      forall x: nat | out[i].0 <= x < out[i].0 + out[i].1.len ensures T.InRange(ranges, x) {
        assert FetchedAt(out, i, x);
      }
    }
  }

  /** Layout spans lie end to end and are not empty. */
  ghost predicate Contiguous(spans: seq<L.Span>) { forall i :: 0 <= i < |spans| ==> SpanStarts(spans, i) }

  ghost predicate SpanStarts(spans: seq<L.Span>, i: nat)
    requires i < |spans|
  {
    spans[i].len > 0 && spans[i].off == SpanEnd(spans, i)
  }

  /** Where the span before i ends. */
  function SpanEnd(spans: seq<L.Span>, i: nat): nat
    requires i <= |spans|
  {
    if i == 0 then 0 else spans[i - 1].off + spans[i - 1].len
  }

  /** One segment occurrence: executed as decided, its range coalesced if it is fetched. */
  method PlanSegment(span: L.Span, step: Dedup.Step, ranges: seq<T.Range>) returns (placed: Placed, more: seq<T.Range>)
    requires span.kind.Segment? && T.RangesOk(ranges) && Spaced(ranges) && T.Top(ranges) <= span.off
    ensures placed == Exec(span, step) && RangesMore(ranges, placed, more)
  {
    match step {
      case Fetch(u, r) =>
        placed := (span.off, Fetch(span.len, if r > 0 then Some((u, r)) else None));
        CoalesceOk(ranges, span.off, span.len);
        more := Coalesce(ranges, span.off, span.len);
      case Cached(u) =>
        placed, more := (span.off, Replay(u, span.len)), ranges;
    }
  }

  method BuildSpans(spans: seq<L.Span>, steps: seq<Dedup.Step>) returns (out: seq<Placed>, ranges: seq<T.Range>)
    requires Contiguous(spans) && |steps| == SegsBefore(spans, |spans|)
    ensures |out| == |spans| && Follows(spans, steps, out, |spans|)
    ensures T.RangesOk(ranges) && Thrifty(ranges, out)
  {
    out, ranges := [], [];
    var segI := 0;
    ghost var last := -1;
    for i := 0 to |spans|
      invariant |out| == i && Follows(spans, steps, out, i) && segI == SegsBefore(spans, i)
      invariant T.RangesOk(ranges) && T.Top(ranges) <= SpanEnd(spans, i)
      invariant Thrifty(ranges, out) && LastFetch(ranges, out, last)
    {
      var placed: Placed;
      ghost var had := ranges;
      assert SpanStarts(spans, i);
      if spans[i].kind.Segment? {
        BeforeLess(spans, i);
        placed, ranges := PlanSegment(spans[i], steps[segI], ranges);
        segI := segI + 1;
      } else {
        placed := (spans[i].off, Emission.Lit(spans[i].kind.litOff, spans[i].len));
      }
      ThriftyMore(had, out, last, placed, ranges);
      FollowsMore(spans, steps, out, placed);
      out := out + [placed];
      last := if placed.1.Fetch? then i else last;
    }
  }

  lemma {:induction false} FollowsMore(spans: seq<L.Span>, steps: seq<Dedup.Step>, out: seq<Placed>, placed: Placed)
    requires |out| < |spans| && Follows(spans, steps, out, |out|)
             && placed == Exec(spans[|out|], StepAt(spans, steps, |out|))
    ensures Follows(spans, steps, out + [placed], |out| + 1)
  {
    forall i | 0 <= i < |out| + 1 ensures FollowsAt(spans, steps, out + [placed], i) {
      if i < |out| { assert FollowsAt(spans, steps, out, i); }
    }
  }

  lemma {:induction false} BeforeGrows(spans: seq<L.Span>, i: nat, j: nat)
    requires i <= j <= |spans|
    ensures SegsBefore(spans, i) <= SegsBefore(spans, j)
    decreases j
  {
    if i < j { BeforeGrows(spans, i, j - 1); }
  }

  lemma BeforeLess(spans: seq<L.Span>, i: nat)
    requires i < |spans| && spans[i].kind.Segment?
    ensures SegsBefore(spans, i) < SegsBefore(spans, |spans|)
  {
    BeforeGrows(spans, i + 1, |spans|);
  }

  // ---- planner and emitter agree ----

  /** An entry the emitter holds for u is one the planner counts as resident, with the same
      replays owed, retained by an occurrence of the same key. */
  ghost predicate EntryAgrees(spans: seq<L.Span>, steps: seq<Dedup.Step>, i: nat, u: nat, at: (nat, nat), owed: nat) {
    && at.1 == owed >= 1 && at.0 < i <= |spans| && spans[at.0].kind.Segment?
    && SegsBefore(spans, at.0) < |steps| && steps[SegsBefore(spans, at.0)].unique == u
  }

  ghost predicate HeldAgrees(spans: seq<L.Span>, steps: seq<Dedup.Step>, out: seq<Placed>, i: nat)
    requires i <= |spans| == |out| && |steps| == SegsBefore(spans, |spans|)
  {
    BeforeGrows(spans, i, |spans|);
    var h, d := HeldAt(out, i), Dedup.Held(steps, SegsBefore(spans, i));
    h.Keys == d.Keys && forall u :: u in h ==> EntryAgrees(spans, steps, i, u, h[u], d[u])
  }

  /** Executing the plan keeps the emitter's retained segments equal to the planner's resident
      set, span by span. */
  lemma {:induction false} PlannerAndEmitterAgree(spans: seq<L.Span>, steps: seq<Dedup.Step>, out: seq<Placed>, i: nat)
    requires i <= |spans| == |out| && |steps| == SegsBefore(spans, |spans|) && Follows(spans, steps, out, |spans|)
    ensures HeldAgrees(spans, steps, out, i)
    decreases i
  {
    BeforeGrows(spans, i, |spans|);
    if i > 0 {
      var j := i - 1;
      PlannerAndEmitterAgree(spans, steps, out, j);
      BeforeGrows(spans, j, |spans|);
      assert FollowsAt(spans, steps, out, j);
      if spans[j].kind.Segment? {
        BeforeLess(spans, j);
        AgreeStep(spans, steps, out, i, HeldAt(out, j), Dedup.Held(steps, SegsBefore(spans, j)), SegsBefore(spans, j));
      } else {
        AgreeSame(spans, steps, out, i);
      }
    }
  }

  lemma {:induction false} AgreeSame(spans: seq<L.Span>, steps: seq<Dedup.Step>, out: seq<Placed>, i: nat)
    requires 0 < i <= |spans| == |out| && |steps| == SegsBefore(spans, |spans|) && out[i - 1].1.Lit?
             && !spans[i - 1].kind.Segment?
    requires HeldAgrees(spans, steps, out, i - 1)
    ensures HeldAgrees(spans, steps, out, i)
  {
    BeforeGrows(spans, i, |spans|);
    assert HeldAt(out, i) == HeldAt(out, i - 1) && SegsBefore(spans, i) == SegsBefore(spans, i - 1);
  }

  lemma {:induction false} AgreeStep(spans: seq<L.Span>, steps: seq<Dedup.Step>, out: seq<Placed>, i: nat,
                                     h: map<nat, (nat, nat)>, d: map<nat, nat>, p: nat)
    requires 0 < i <= |spans| == |out| && spans[i - 1].kind.Segment? && p == SegsBefore(spans, i - 1) < |steps|
    requires out[i - 1] == Exec(spans[i - 1], steps[p]) && h == HeldAt(out, i - 1) && d == Dedup.Held(steps, p)
    requires h.Keys == d.Keys && forall u :: u in h ==> EntryAgrees(spans, steps, i - 1, u, h[u], d[u])
    ensures var h', d' := HeldAt(out, i), Dedup.Held(steps, p + 1);
            h'.Keys == d'.Keys && forall u :: u in h' ==> EntryAgrees(spans, steps, i, u, h'[u], d'[u])
  {
    match steps[p]
    case Fetch(u, r) =>
      if r > 0 {
        assert HeldAt(out, i) == h[u := (i - 1, r)];
        assert Dedup.Held(steps, p + 1) == d[u := r];
      }
    case Cached(u) =>
      assert HeldAt(out, i) == Replayed<nat>(h, u);
  }

  lemma {:induction false} OffsAgree(spans: seq<L.Span>, steps: seq<Dedup.Step>, out: seq<Placed>, i: nat)
    requires Contiguous(spans) && i <= |spans| == |out| && Follows(spans, steps, out, |spans|)
    ensures OffAt(out, 0, i) == SpanEnd(spans, i)
    decreases i
  {
    if i > 0 {
      var j := i - 1;
      OffsAgree(spans, steps, out, j);
      assert FollowsAt(spans, steps, out, j);
      assert SpanStarts(spans, j);
    }
  }

  /** Replays find their segment retained and of their own length. */
  lemma {:induction false} ReplaysWork(spans: seq<L.Span>, keys: seq<Bytes>, sizes: seq<nat>, steps: seq<Dedup.Step>,
                                       out: seq<Placed>, i: nat)
    requires i < |spans| == |out| && |steps| == SegsBefore(spans, |spans|) && Follows(spans, steps, out, |spans|)
    requires Listed(spans, |spans|, keys, sizes) && OneLength(spans) && Dedup.IdsAreKeys(keys, steps)
             && Dedup.Executable(steps)
    ensures ReplayOk(out, i)
  {
    assert FollowsAt(spans, steps, out, i);
    if out[i].1.Replay? {
      PlannerAndEmitterAgree(spans, steps, out, i);
      BeforeLess(spans, i);
      var p, u := SegsBefore(spans, i), out[i].1.unique;
      assert steps[p] == Dedup.Cached(u) && u in Dedup.Held(steps, p);
      assert u in HeldAt(out, i);
      var f := HeldAt(out, i)[u].0;
      assert EntryAgrees(spans, steps, i, u, HeldAt(out, i)[u], Dedup.Held(steps, p)[u]);
      assert ListedAt(spans, i, keys, sizes) && ListedAt(spans, f, keys, sizes);
      assert keys[SegsBefore(spans, f)] == keys[p];
      assert FollowsAt(spans, steps, out, f);
    }
  }

  // ---- the plan ----

  /** A layout's spans lie end to end and its framing is inside the literals. */
  lemma {:induction false} LayoutShape(lay: L.Layout, fill: L.Fill)
    requires SegsOk(lay.lits, L.SegsOf(lay.spans, fill))
    ensures Contiguous(lay.spans) && SpanEnd(lay.spans, |lay.spans|) == EndOf(L.SegsOf(lay.spans, fill), |lay.spans|)
    ensures forall i :: 0 <= i < |lay.spans| && lay.spans[i].kind.Framing? ==>
              lay.spans[i].kind.litOff + lay.spans[i].len <= |lay.lits|
  {
    var segs := L.SegsOf(lay.spans, fill);
    forall i | 0 <= i < |lay.spans|
      ensures segs[i] == L.SegOf(lay.spans[i], fill) && SegOk(lay.lits, segs, i)
    {
      L.SegsOfAt(lay.spans, fill, i);
    }
  }

  /** Everything the emitter and the transfer need of a plan. */
  ghost predicate Usable(p: Plan, start: nat, end: nat, window: nat) {
    && PlanOk(p.spans, p.lits, start, end) && T.RangesOk(p.ranges)
    && forall i :: 0 <= i < |p.spans| ==> Engine.Fits(p.spans, p.ranges, window, i)
  }

  /** The guards of `manifest_plan` on a synthesised layout. */
  ghost predicate Accepted(lay: Option<L.Layout>, narSize: nat, window: nat) {
    lay.Some? && lay.value.narSize == narSize && FitsWindow(lay.value.spans, window) && OneLength(lay.value.spans)
  }

  /** The plan executes the layout under decisions that respect the budget. */
  ghost predicate Executes(p: Plan, lay: L.Layout, keys: seq<Bytes>, sizes: seq<nat>, steps: seq<Dedup.Step>,
                           budget: nat) {
    && p.lits == lay.lits && |p.spans| == |lay.spans| && |steps| == SegsBefore(lay.spans, |lay.spans|)
    && Listed(lay.spans, |lay.spans|, keys, sizes) && Follows(lay.spans, steps, p.spans, |lay.spans|)
    && Dedup.IdsAreKeys(keys, steps) && Dedup.AllOrNothing(keys, steps) && Dedup.WithinBudget(steps, sizes, budget)
       && Dedup.Executable(steps)
  }

  lemma {:induction false} PlanIsUsable(p: Plan, lay: L.Layout, fill: L.Fill, keys: seq<Bytes>, sizes: seq<nat>,
                                        steps: seq<Dedup.Step>, budget: nat, window: nat)
    requires SegsOk(lay.lits, L.SegsOf(lay.spans, fill)) && lay.narSize == EndOf(L.SegsOf(lay.spans, fill), |lay.spans|)
    requires Executes(p, lay, keys, sizes, steps, budget) && FitsWindow(lay.spans, window) && OneLength(lay.spans)
    requires T.RangesOk(p.ranges) && Thrifty(p.ranges, p.spans)
    ensures Usable(p, 0, lay.narSize, window)
  {
    LayoutShape(lay, fill);
    OffsAgree(lay.spans, steps, p.spans, |lay.spans|);
    forall i | 0 <= i < |p.spans| ensures PlacedOk(p.spans, p.lits, 0, i) && Engine.Fits(p.spans, p.ranges, window, i) {
      assert FollowsAt(lay.spans, steps, p.spans, i);
      ThriftyCovers(p.ranges, p.spans, i);
      OffsAgree(lay.spans, steps, p.spans, i);
      ReplaysWork(lay.spans, keys, sizes, steps, p.spans, i);
      assert SpanStarts(lay.spans, i);
    }
  }

  method ManifestPlan(m: L.Manifest, narHash: Bytes, narSize: nat, budget: nat, window: nat, ghost fill: L.Fill)
    returns (r: Option<Plan>, ghost lay: Option<L.Layout>, ghost keys: seq<Bytes>, ghost sizes: seq<nat>,
      ghost steps: seq<Dedup.Step>)
    requires L.FillOk(fill)
    ensures r.Some? <==> m.narHash == narHash && Accepted(lay, narSize, window)
    ensures r.Some? ==> Usable(r.value, 0, narSize, window) && Executes(r.value, lay.value, keys, sizes, steps, budget)
                        && Thrifty(r.value.ranges, r.value.spans)
    ensures lay.Some? <==> m.segmentBytes > 0 && L.WellFormed(m.root, m.segmentBytes, 0)
                           && |Archive(L.Resolve(m.root, m.segmentBytes, fill))| == m.narSize
    ensures lay.Some? ==> LayoutOf(lay.value, m, fill)
  {
    keys, sizes, steps := [], [], [];
    var layout := L.SynthLayout(m, fill);
    lay := layout;
    if m.narHash != narHash || layout.None? || layout.value.narSize != narSize {
      return None, lay, keys, sizes, steps;
    }
    LayoutShape(layout.value, fill);
    FlattenLength(layout.value.lits, L.SegsOf(layout.value.spans, fill), |layout.value.spans|);
    var occ := Occurrences(layout.value.spans, window);
    if occ.None? {
      return None, lay, keys, sizes, steps;
    }
    var decided := Dedup.Plan(occ.value.0, occ.value.1, budget);
    keys, sizes, steps := occ.value.0, occ.value.1, decided;
    var spans, ranges := BuildSpans(layout.value.spans, decided);
    var p := Plan(spans, layout.value.lits, ranges);
    PlanIsUsable(p, layout.value, fill, keys, sizes, steps, budget, window);
    r := Some(p);
  }

  /** The layout flattens to the archive the manifest describes. */
  ghost predicate LayoutOf(lay: L.Layout, m: L.Manifest, fill: L.Fill) {
    && SegsOk(lay.lits, L.SegsOf(lay.spans, fill))
    && Flatten(lay.lits, L.SegsOf(lay.spans, fill), |lay.spans|) == Archive(L.Resolve(m.root, m.segmentBytes, fill))
  }

  /** Without a manifest: one plain span, one range. */
  function FallbackPlan(start: nat, end: nat): (p: Plan)
    requires start <= end
    ensures forall window: nat :: Usable(p, start, end, window)
    ensures Thrifty(p.ranges, p.spans)
    ensures forall x: nat :: T.InRange(p.ranges, x) <==> start <= x < end
  {
    var spans: seq<Placed> := [(start, Fetch(end - start, None))];
    var ranges: seq<T.Range> := [(start, end - start)];
    assert OffAt(spans, start, 1) == OffAt(spans, start, 0) + (end - start);
    assert PlacedOk(spans, [], start, 0);
    assert ranges[0] == (start, end - start);
    assert forall x: nat :: T.InRange(ranges, x) <==> FetchedAt(spans, 0, x);
    Plan(spans, [], ranges)
  }

  lemma {:induction false} OffGrows(spans: seq<Placed>, start: nat, i: nat, j: nat)
    requires i <= j <= |spans|
    ensures OffAt(spans, start, i) <= OffAt(spans, start, j)
    decreases j
  {
    if i < j { OffGrows(spans, start, i, j - 1); }
  }

  /** A span lies behind all earlier ones. */
  lemma InOrder(p: Plan, start: nat, end: nat, i: nat, j: nat)
    requires PlanOk(p.spans, p.lits, start, end) && i < j < |p.spans|
    ensures p.spans[i].0 + p.spans[i].1.len <= p.spans[j].0
  {
    OffGrows(p.spans, start, i + 1, j);
    assert PlacedOk(p.spans, p.lits, start, i) && PlacedOk(p.spans, p.lits, start, j);
  }

  /** What is replayed, or local, and longer than a small gap is not fetched. */
  lemma NotFetchedTwice(p: Plan, start: nat, end: nat, k: nat, x: nat)
    requires PlanOk(p.spans, p.lits, start, end) && Thrifty(p.ranges, p.spans)
    requires k < |p.spans| && !p.spans[k].1.Fetch? && p.spans[k].1.len > RANGE_MERGE_GAP
    requires p.spans[k].0 <= x < p.spans[k].0 + p.spans[k].1.len
    ensures !T.InRange(p.ranges, x)
  {
    forall i: nat ensures !FetchedAt(p.spans, i, x) {
      if i < k { InOrder(p, start, end, i, k); }
      if k < i < |p.spans| { InOrder(p, start, end, k, i); }
    }
    forall i: nat, j: nat ensures !BridgedAt(p.spans, i, j, x) {
      if i < k { InOrder(p, start, end, i, k); }
      if k < i < |p.spans| { InOrder(p, start, end, k, i); }
      if j < k { InOrder(p, start, end, j, k); }
      if k < j < |p.spans| { InOrder(p, start, end, k, j); }
    }
    assert !Wanted(p.spans, x);
  }

  // ---- what a planned transfer sends ----

  /** The archive as a source of bytes. */
  function AsSource(b: Bytes): nat -> byte { (x: nat) => if x < |b| then b[x] else 0 }

  lemma SourceSlice(b: Bytes, off: nat, len: nat)
    requires off + len <= |b|
    ensures Common.Slice(AsSource(b), off, len) == b[off..off + len]
  {
    SliceIs(AsSource(b), off, b[off..off + len]);
  }

  /** Every fetched span received the content its hash stands for. */
  ghost predicate Delivered(lay: L.Layout, spans: seq<Placed>, src: nat -> byte, fill: L.Fill)
    requires |lay.spans| == |spans|
  {
    forall k :: 0 <= k < |spans| && spans[k].1.Fetch? && lay.spans[k].kind.Segment? ==>
      Common.Slice(src, spans[k].0, spans[k].1.len) == fill(lay.spans[k].kind.hash, spans[k].1.len)
  }

  /** Span k of the layout, as bytes of the archive. */
  lemma SpanInArchive(lay: L.Layout, fill: L.Fill, nar: Bytes, k: nat)
    requires L.FillOk(fill) && SegsOk(lay.lits, L.SegsOf(lay.spans, fill)) && k < |lay.spans|
    requires nar == Flatten(lay.lits, L.SegsOf(lay.spans, fill), |lay.spans|)
    ensures var s := lay.spans[k];
            && s.off + s.len <= |nar|
            && (s.kind.Framing? ==>
                 s.kind.litOff + s.len <= |lay.lits|
                 && lay.lits[s.kind.litOff..s.kind.litOff + s.len] == Common.Slice(AsSource(nar), s.off, s.len))
            && (s.kind.Segment? ==> fill(s.kind.hash, s.len) == Common.Slice(AsSource(nar), s.off, s.len))
  {
    var segs := L.SegsOf(lay.spans, fill);
    L.SegsOfAt(lay.spans, fill, k);
    assert SegOk(lay.lits, segs, k);
    FlattenAt(lay.lits, segs, k, |segs|);
    SourceSlice(nar, lay.spans[k].off, lay.spans[k].len);
    if lay.spans[k].kind.Segment? { L.SegmentBytes(lay.lits, lay.spans[k], fill); }
  }

  /** Equal keys stand for equal bytes, so each executed span says what the archive says. */
  lemma {:induction false} SpanIsHonest(p: Plan, lay: L.Layout, fill: L.Fill, keys: seq<Bytes>, sizes: seq<nat>,
                                        steps: seq<Dedup.Step>, budget: nat,
                                        src: nat -> byte, nar: Bytes, k: nat)
    requires L.FillOk(fill) && SegsOk(lay.lits, L.SegsOf(lay.spans, fill))
             && nar == Flatten(lay.lits, L.SegsOf(lay.spans, fill), |lay.spans|)
    requires Executes(p, lay, keys, sizes, steps, budget) && OneLength(lay.spans) && Delivered(lay, p.spans, src, fill)
             && k < |p.spans|
    ensures Honest(p.spans, p.lits, src, AsSource(nar), k)
  {
    assert FollowsAt(lay.spans, steps, p.spans, k);
    SpanInArchive(lay, fill, nar, k);
    if p.spans[k].1.Replay? {
      ReplaysWork(lay.spans, keys, sizes, steps, p.spans, k);
      var f := RetainedBy(lay.spans, keys, sizes, steps, p.spans, k);
      SpanInArchive(lay, fill, nar, f);
    }
  }

  /** The span a replay repeats: fetched earlier under the same hash and length. */
  lemma {:induction false} RetainedBy(spans: seq<L.Span>, keys: seq<Bytes>, sizes: seq<nat>, steps: seq<Dedup.Step>,
                                      out: seq<Placed>, k: nat) returns (f: nat)
    requires k < |spans| == |out| && |steps| == SegsBefore(spans, |spans|) && Follows(spans, steps, out, |spans|)
             && out[k].1.Replay?
    requires Listed(spans, |spans|, keys, sizes) && OneLength(spans) && Dedup.IdsAreKeys(keys, steps)
             && Dedup.Executable(steps)
    ensures out[k].1.unique in HeldAt(out, k) && f == HeldAt(out, k)[out[k].1.unique].0 && f < k
    ensures spans[f].kind == spans[k].kind && spans[f].len == spans[k].len && out[f].0 == spans[f].off
            && out[f].1.Fetch? && out[f].1.len == spans[k].len
    ensures spans[k].kind.Segment? && out[k].0 == spans[k].off && out[k].1.len == spans[k].len
  {
    assert FollowsAt(spans, steps, out, k);
    PlannerAndEmitterAgree(spans, steps, out, k);
    BeforeLess(spans, k);
    var p, u := SegsBefore(spans, k), out[k].1.unique;
    assert steps[p] == Dedup.Cached(u) && u in Dedup.Held(steps, p);
    f := HeldAt(out, k)[u].0;
    assert EntryAgrees(spans, steps, k, u, HeldAt(out, k)[u], Dedup.Held(steps, p)[u]);
    assert ListedAt(spans, k, keys, sizes) && ListedAt(spans, f, keys, sizes);
    assert keys[SegsBefore(spans, f)] == keys[p];
    assert FollowsAt(spans, steps, out, f);
    HeldIsFetched(out, k, u);
  }

  lemma {:induction false} HeldIsFetched(out: seq<Placed>, i: nat, u: nat)
    requires i <= |out| && u in HeldAt(out, i)
    ensures HeldAt(out, i)[u].0 < i && out[HeldAt(out, i)[u].0].1.Fetch?
    decreases i
  {
    if u in HeldAt(out, i - 1) { HeldIsFetched(out, i - 1, u); }
  }

  /** Honest spans that fill [0, |nar|) emit nar. */
  lemma {:induction false} HonestOutput(spans: seq<Placed>, lits: Bytes, src: nat -> byte, nar: Bytes)
    requires PlanOk(spans, lits, 0, |nar|) && forall k :: 0 <= k < |spans| ==>
               Honest(spans, lits, src, AsSource(nar), k)
    ensures Output(PlanBytes(spans, lits, src), |spans|) == nar
  {
    OutputIsNar(spans, lits, src, 0, |nar|, AsSource(nar), PlanBytes(spans, lits, src), |spans|);
    SourceSlice(nar, 0, |nar|);
    assert nar[0..0 + |nar|] == nar;
  }

  /** If every fetched span received the content its hash stands for, the transfer's output is
      exactly the archive that the manifest describes, fetched once and replayed as planned. */
  lemma PlannedTransferIsTheArchive(p: Plan, m: L.Manifest, lay: L.Layout, fill: L.Fill, keys: seq<Bytes>,
                                    sizes: seq<nat>, steps: seq<Dedup.Step>,
                                    budget: nat, window: nat, src: nat -> byte)
    requires L.FillOk(fill) && LayoutOf(lay, m, fill) && OneLength(lay.spans)
             && Executes(p, lay, keys, sizes, steps, budget)
    requires Usable(p, 0, lay.narSize, window) && Delivered(lay, p.spans, src, fill)
    ensures Output(PlanBytes(p.spans, p.lits, src), |p.spans|) == Archive(L.Resolve(m.root, m.segmentBytes, fill))
  {
    var nar := Flatten(lay.lits, L.SegsOf(lay.spans, fill), |lay.spans|);
    forall k | 0 <= k < |p.spans| ensures Honest(p.spans, p.lits, src, AsSource(nar), k) {
      SpanIsHonest(p, lay, fill, keys, sizes, steps, budget, src, nar, k);
    }
    assert lay.narSize == |nar| by {
      LayoutShape(lay, fill);
      FlattenLength(lay.lits, L.SegsOf(lay.spans, fill), |lay.spans|);
      OffsAgree(lay.spans, steps, p.spans, |lay.spans|);
    }
    HonestOutput(p.spans, p.lits, src, nar);
  }
}
