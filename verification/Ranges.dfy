/** Single-range request headers (`parse_range` in src/serve.rs, the `Range` header written in
    src/peers.rs; section 14.1.2 of RFC 9110). */
module Ranges {
  import opened Common
  import Seek

  const U64_MAX: nat := 0xffff_ffff_ffff_ffff

  datatype RangeSpec = Full | Partial(start: nat, end: nat) | Unsatisfiable

  // ---- text ----

  predicate IsDigit(c: char) { '0' <= c <= '9' }

  predicate AllDigits(s: string) { forall i :: 0 <= i < |s| ==> IsDigit(s[i]) }

  function Value(s: string): nat
    requires AllDigits(s)
  {
    if s == "" then 0 else Value(s[..|s| - 1]) * 10 + (s[|s| - 1] as int - '0' as int)
  }

  /** `str::parse::<u64>`: digits with an optional plus sign, no overflow. */
  function ParseU64(s: string): Option<nat> {
    var d := if s != "" && s[0] == '+' then s[1..] else s;
    if d == "" || !AllDigits(d) || Value(d) > U64_MAX then None else Some(Value(d))
  }

  predicate IsSpace(c: char) { c == ' ' || '\t' <= c <= '\r' }

  function TrimStart(s: string): string { if s != "" && IsSpace(s[0]) then TrimStart(s[1..]) else s }
  function TrimEnd(s: string): string { if s != "" && IsSpace(s[|s| - 1]) then TrimEnd(s[..|s| - 1]) else s }

  /** Where c first occurs. */
  function Find(s: string, c: char): (i: Option<nat>)
    ensures i.Some? ==> i.value < |s| && s[i.value] == c
  {
    if s == "" then None
    else if s[0] == c then Some(0)
    else match Find(s[1..], c) case None => None case Some(i) => Some(i + 1)
  }

  function ParseRange(header: Option<string>, size: nat): (r: RangeSpec)
    ensures r.Partial? ==> r.start < r.end <= size
  {
    match header
    case None => Full
    case Some(h) =>
      if !("bytes=" <= h) then Full else
      var spec := h[6..];
      if ',' in spec then Full else
      var s := TrimEnd(TrimStart(spec));
      match Find(s, '-')
      case None => Full
      case Some(dash) =>
        var a, b := s[..dash], s[dash + 1..];
        ParseEnds(a, b, size)
  }

  function ParseEnds(a: string, b: string, size: nat): (r: RangeSpec)
    ensures r.Partial? ==> r.start < r.end <= size
  {
    if a == "" then ParseSuffix(b, size) else if b == "" then ParseOpen(a, size) else ParseBoth(a, b, size)
  }

  /** -n: the last n bytes. */
  function ParseSuffix(b: string, size: nat): (r: RangeSpec)
    ensures r.Partial? ==> r.start < r.end <= size
  {
    match ParseU64(b)
    case None => Full
    case Some(n) => if n == 0 || size == 0 then Unsatisfiable else Partial(SatSub(size, n), size)
  }

  /** first-, to the end. */
  function ParseOpen(a: string, size: nat): (r: RangeSpec)
    ensures r.Partial? ==> r.start < r.end <= size
  {
    match ParseU64(a)
    case None => Full
    case Some(x) => if x >= size then Unsatisfiable else Partial(x, size)
  }

  /** first-last, both ends given. */
  function ParseBoth(a: string, b: string, size: nat): (r: RangeSpec)
    ensures r.Partial? ==> r.start < r.end <= size
  {
    match (ParseU64(a), ParseU64(b))
    case (Some(x), Some(y)) =>
      var end := Min(if y == U64_MAX then U64_MAX else y + 1, size);
      if x > y || x >= size || end <= x then Unsatisfiable else Partial(x, end)
    case (_, _) => Full
  }

  // ---- what our own requests mean ----

  function Dec(n: nat): string {
    if n < 10 then ["0123456789"[n]] else Dec(n / 10) + ["0123456789"[n % 10]]
  }

  lemma DecSplits(n: nat)
    requires n >= 10
    ensures Dec(n) != "" && Dec(n)[..|Dec(n)| - 1] == Dec(n / 10) && Dec(n)[|Dec(n)| - 1] == '0' + (n % 10) as char
  {}

  lemma {:induction false} DecParses(n: nat)
    ensures AllDigits(Dec(n)) && Dec(n) != "" && Value(Dec(n)) == n
    decreases n
  {
    if n < 10 {
      assert Dec(n)[..0] == "";
    } else {
      DecParses(n / 10);
      DecSplits(n);
    }
  }

  lemma ParseDec(n: nat)
    requires n <= U64_MAX
    ensures ParseU64(Dec(n)) == Some(n)
  {
    DecParses(n);
    assert Dec(n)[0] != '+' by { assert IsDigit(Dec(n)[0]); }
  }

  lemma {:induction false} FindAfterDigits(a: string, b: string)
    requires AllDigits(a)
    ensures Find(a + "-" + b, '-') == Some(|a|)
    decreases |a|
  {
    if a == "" {
      assert a + "-" + b == "-" + b;
    } else {
      assert (a + "-" + b)[1..] == a[1..] + "-" + b;
      FindAfterDigits(a[1..], b);
    }
  }

  /** A spec of digits around one dash is neither trimmed nor a list. */
  lemma PlainSpec(a: string, b: string)
    requires AllDigits(a) && AllDigits(b)
    ensures var s := a + "-" + b; TrimEnd(TrimStart(s)) == s && ',' !in s && Find(s, '-') == Some(|a|)
    ensures var s := a + "-" + b; s[..|a|] == a && s[|a| + 1..] == b
    ensures "bytes=" <= "bytes=" + a + "-" + b && ("bytes=" + a + "-" + b)[6..] == a + "-" + b
  {
    var s := a + "-" + b;
    assert forall i :: 0 <= i < |s| ==> IsDigit(s[i]) || s[i] == '-';
    assert !IsSpace(s[0]) && !IsSpace(s[|s| - 1]);
    FindAfterDigits(a, b);
  }

  predicate AllSpaces(s: string) { forall i :: 0 <= i < |s| ==> IsSpace(s[i]) }

  lemma {:induction false} TrimsStart(ws: string, s: string)
    requires AllSpaces(ws) && (s == "" || !IsSpace(s[0]))
    ensures TrimStart(ws + s) == s
    decreases |ws|
  {
    if ws == "" {
      assert ws + s == s;
    } else {
      assert (ws + s)[1..] == ws[1..] + s;
      TrimsStart(ws[1..], s);
    }
  }

  lemma {:induction false} TrimsEnd(s: string, ws: string)
    requires AllSpaces(ws) && (s == "" || !IsSpace(s[|s| - 1]))
    ensures TrimEnd(s + ws) == s
    decreases |ws|
  {
    if ws == "" {
      assert s + ws == s;
    } else {
      var init := ws[..|ws| - 1];
      assert (s + ws)[..|s + ws| - 1] == s + init;
      TrimsEnd(s, init);
    }
  }

  /** Trimming takes white space off both ends of a spec of digits around a dash. */
  lemma TrimsSpec(before: string, s: string, after: string)
    requires AllSpaces(before) && AllSpaces(after) && s != "" && !IsSpace(s[0]) && !IsSpace(s[|s| - 1])
    ensures TrimEnd(TrimStart(before + (s + after))) == s
  {
    assert (s + after)[0] == s[0];
    TrimsStart(before, s + after);
    TrimsEnd(s, after);
  }

  lemma Unlisted(before: string, s: string, after: string)
    requires AllSpaces(before) && AllSpaces(after) && forall i :: 0 <= i < |s| ==> IsDigit(s[i]) || s[i] == '-'
    ensures ',' !in before + (s + after)
  {
    var spec := before + (s + after);
    assert forall i :: 0 <= i < |spec| ==> IsSpace(spec[i]) || IsDigit(spec[i]) || spec[i] == '-';
  }

  lemma HeaderSpec(spec: string)
    ensures "bytes=" <= "bytes=" + spec && ("bytes=" + spec)[6..] == spec
  {}

  /** White space around a range means nothing. */
  lemma SpacesIgnored(before: string, a: string, b: string, after: string, size: nat)
    requires AllSpaces(before) && AllSpaces(after) && AllDigits(a) && AllDigits(b)
    ensures ParseRange(Some("bytes=" + (before + (a + "-" + b + after))), size)
            == ParseRange(Some("bytes=" + a + "-" + b), size)
  {
    var s := a + "-" + b;
    PlainParse(a, b, size);
    PlainSpec(a, b);
    assert forall i :: 0 <= i < |s| ==> IsDigit(s[i]) || s[i] == '-';
    HeaderSpec(before + (s + after));
    Unlisted(before, s, after);
    TrimsSpec(before, s, after);
  }

  /** The request for [start, end) that a client writes is served as exactly [start, end),
      clipped to the archive. */
  lemma RequestMeansRange(start: nat, end: nat, size: nat)
    requires start < end <= U64_MAX
    ensures ParseRange(Some("bytes=" + Dec(start) + "-" + Dec(end - 1)), size)
            == if start < size then Partial(start, Min(end, size)) else Unsatisfiable
  {
    DecParses(start);
    DecParses(end - 1);
    PlainParse(Dec(start), Dec(end - 1), size);
    BothDec(start, end, size);
  }

  lemma BothDec(start: nat, end: nat, size: nat)
    requires start < end <= U64_MAX
    ensures ParseBoth(Dec(start), Dec(end - 1), size) == if start < size then Partial(start, Min(end, size))
            else Unsatisfiable
  {
    ParseDec(start);
    ParseDec(end - 1);
  }

  /** Digits around a dash are read as the two ends. */
  lemma PlainParse(a: string, b: string, size: nat)
    requires AllDigits(a) && AllDigits(b)
    ensures ParseRange(Some("bytes=" + a + "-" + b), size) == ParseEnds(a, b, size)
  {
    PlainSpec(a, b);
  }

  lemma OneEnd(n: nat, size: nat)
    requires n <= U64_MAX
    ensures AllDigits(Dec(n)) && Dec(n) != ""
    ensures ParseOpen(Dec(n), size) == if n < size then Partial(n, size) else Unsatisfiable
    ensures ParseSuffix(Dec(n), size) == if n == 0 || size == 0 then Unsatisfiable else Partial(SatSub(size, n), size)
  {
    DecParses(n);
    ParseDec(n);
  }

  /** Open-ended requests. */
  lemma OpenMeansTail(n: nat, size: nat)
    requires n <= U64_MAX
    ensures ParseRange(Some("bytes=" + Dec(n) + "-"), size) == if n < size then Partial(n, size) else Unsatisfiable
  {
    OneEnd(n, size);
    PlainParse(Dec(n), "", size);
    NoEnd("bytes=" + Dec(n) + "-");
  }

  lemma NoEnd(s: string)
    ensures s + "" == s
  {}

  lemma NoStart(s: string)
    ensures "bytes=" + "" + "-" + s == "bytes=-" + s
  {}

  /** Suffix requests: the last n bytes. */
  lemma SuffixMeansEnd(n: nat, size: nat)
    requires n <= U64_MAX
    ensures ParseRange(Some("bytes=-" + Dec(n)), size) == if n == 0 || size == 0 then Unsatisfiable
            else Partial(SatSub(size, n), size)
  {
    OneEnd(n, size);
    PlainParse("", Dec(n), size);
    NoStart(Dec(n));
  }

  /** One request, from its header to its body. */
  method Request(t: Seek.Table, start: nat, end: nat) returns (body: Bytes)
    requires Seek.TableOk(t) && start < end <= t.narSize <= U64_MAX
    ensures body == Seek.NarOf(t)[start..end]
  {
    RequestMeansRange(start, end, t.narSize);
    var range := ParseRange(Some("bytes=" + Dec(start) + "-" + Dec(end - 1)), t.narSize);
    body := Seek.Respond(t, range.start, range.end);
  }

  /** The requests for consecutive ranges, however the archive's range is cut, reassemble it. */
  method Reassemble(t: Seek.Table, cuts: seq<nat>) returns (body: Bytes)
    requires Seek.TableOk(t) && t.narSize <= U64_MAX && cuts != [] && cuts[|cuts| - 1] <= t.narSize
    requires forall i, j :: 0 <= i < j < |cuts| ==> cuts[i] < cuts[j]
    ensures body == Seek.NarOf(t)[cuts[0]..cuts[|cuts| - 1]]
  {
    body := [];
    for i := 1 to |cuts|
      invariant body == Seek.NarOf(t)[cuts[0]..cuts[i - 1]]
    {
      var part := Request(t, cuts[i - 1], cuts[i]);
      Seek.Abut(Seek.NarOf(t), cuts[0], cuts[i - 1], cuts[i]);
      body := body + part;
    }
  }
}
