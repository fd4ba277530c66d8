/** Nix's base32 (src/nixbase32.rs): the string's first character carries the highest bits, the
    byte string's first byte the lowest. */
module Base32 {
  import opened Common

  const ALPHABET: string := "0123456789abcdfghijklmnpqrsvwxyz"

  function EncodedLen(n: nat): nat { if n == 0 then 0 else (n * 8 - 1) / 5 + 1 }

  /** Just enough characters of five bits each. */
  lemma EncodedLenMeaning(n: nat)
    ensures 8 * n <= 5 * EncodedLen(n) < 8 * n + 5
  {}

  /** The 32 digits and lower case letters that are left without e, o, t and u, in ascending order. */
  lemma AlphabetMeaning(i: nat)
    requires i < 32
    ensures |ALPHABET| == 32 && ('0' <= ALPHABET[i] <= '9' || 'a' <= ALPHABET[i] <= 'z')
    ensures ALPHABET[i] != 'e' && ALPHABET[i] != 'o' && ALPHABET[i] != 't' && ALPHABET[i] != 'u'
    ensures i > 0 ==> ALPHABET[i - 1] < ALPHABET[i]
  {}

  // ---- numbers ----

  function Pow2(k: nat): (p: nat)
    ensures p > 0
  {
    if k == 0 then 1 else 2 * Pow2(k - 1)
  }

  lemma {:induction false} PowSum(a: nat, b: nat)
    ensures Pow2(a + b) == Pow2(a) * Pow2(b)
    decreases a
  {
    if a > 0 {
      PowSum(a - 1, b);
      assert Pow2(a + b) == 2 * (Pow2(a - 1) * Pow2(b));
    }
  }

  lemma {:induction false} PowGrows(a: nat, b: nat)
    requires a <= b
    ensures Pow2(a) <= Pow2(b)
    decreases b
  {
    if a < b { PowGrows(a, b - 1); }
  }

  /** The powers that shifts within two bytes need. */
  lemma SmallPowers()
    ensures Pow2(0) == 1 && Pow2(1) == 2 && Pow2(2) == 4 && Pow2(3) == 8 && Pow2(4) == 16
    ensures Pow2(5) == 32 && Pow2(6) == 64 && Pow2(7) == 128 && Pow2(8) == 256
  {
    assert Pow2(2) == 2 * Pow2(1) && Pow2(3) == 2 * Pow2(2) && Pow2(4) == 2 * Pow2(3) && Pow2(5) == 2 * Pow2(4);
    assert Pow2(6) == 2 * Pow2(5) && Pow2(7) == 2 * Pow2(6) && Pow2(8) == 2 * Pow2(7);
  }

  /** The number a byte string denotes, first byte lowest. */
  function Number(b: Bytes): nat { if b == [] then 0 else b[0] as int + 256 * Number(b[1..]) }

  /** The number a digit string denotes, first digit highest. */
  function Digits(d: seq<nat>): nat { if d == [] then 0 else Digits(d[..|d| - 1]) * 32 + d[|d| - 1] }

  lemma {:induction false} NumberBound(b: Bytes)
    ensures Number(b) < Pow2(8 * |b|)
    decreases |b|
  {
    if b != [] {
      NumberBound(b[1..]);
      SmallPowers();
      PowSum(8, 8 * |b[1..]|);
      assert 8 + 8 * |b[1..]| == 8 * |b|;
    }
  }

  lemma {:induction false} NumberInjective(a: Bytes, b: Bytes)
    requires |a| == |b| && Number(a) == Number(b)
    ensures a == b
    decreases |a|
  {
    if a != [] {
      NumberInjective(a[1..], b[1..]);
      assert a == [a[0]] + a[1..] && b == [b[0]] + b[1..];
    }
  }

  lemma {:induction false} DigitsInjective(a: seq<nat>, b: seq<nat>)
    requires |a| == |b| && Digits(a) == Digits(b)
    requires (forall i :: 0 <= i < |a| ==> a[i] < 32) && (forall i :: 0 <= i < |b| ==> b[i] < 32)
    ensures a == b
    decreases |a|
  {
    if a != [] {
      var n := |a| - 1;
      DigitsInjective(a[..n], b[..n]);
      assert a == a[..n] + [a[n]] && b == b[..n] + [b[n]];
    }
  }

  // ---- bits ----

  /** Bitwise or. */
  function Or(a: nat, b: nat): nat
    decreases a + b
  {
    if a == 0 then b else if b == 0 then a
    else (if a % 2 == 1 || b % 2 == 1 then 1 else 0) + 2 * Or(a / 2, b / 2)
  }

  /** Operands without a common bit add up. */
  lemma {:induction false} OrAdds(a: nat, q: nat, k: nat)
    requires a < Pow2(k)
    ensures Or(a, q * Pow2(k)) == a + q * Pow2(k)
    decreases k
  {
    if k > 0 && a != 0 && q != 0 {
      var b := q * Pow2(k);
      assert b == 2 * (q * Pow2(k - 1));
      OrAdds(a / 2, q, k - 1);
    }
  }

  lemma {:induction false} OrCommutes(a: nat, b: nat)
    ensures Or(a, b) == Or(b, a)
    decreases a + b
  {
    if a != 0 && b != 0 { OrCommutes(a / 2, b / 2); }
  }


  // ---- encoding ----

  lemma Distribute(x: int, y: int, z: int)
    ensures (x + y) * z == x * z + y * z && z * (x + y) == z * x + z * y
  {}

  lemma Regroup(x: int, y: int, z: int)
    ensures x * y * z == x * (z * y) && x * y * z == x * (y * z)
  {}

  lemma Monotone(x: nat, y: nat, z: nat)
    requires x <= y
    ensures x * z <= y * z
  {}

  lemma DivDiv(a: nat, b: nat, c: nat)
    requires b > 0 && c > 0
    ensures b * c > 0 && a / b / c == a / (b * c)
  {
    var q, r := a / b, a % b;
    var t, u := q / c, q % c;
    Distribute(t * c, u, b);
    Regroup(t, c, b);
    Monotone(u, c - 1, b);
    Distribute(c, -1, b);
    Product(b, c);
    DivIs(a, b * c, t, u * b + r);
  }

  lemma Product(b: nat, c: nat)
    requires b > 0 && c > 0
    ensures b * c > 0 && b * c == c * b
  {}

  lemma DivIs(a: nat, d: nat, q: nat, r: nat)
    requires d > 0 && a == q * d + r && r < d
    ensures a / d == q && a % d == r
  {
    var e := a / d - q;
    assert e * d == r - a % d;
    Multiples(e, d);
  }

  lemma Multiples(e: int, d: nat)
    requires d > 0
    ensures (e >= 1 ==> e * d >= d) && (e <= -1 ==> e * d <= 0 - d)
  {}

  lemma {:induction false} TailNumber(b: Bytes, i: nat)
    requires i <= |b|
    ensures Number(b) / Pow2(8 * i) == Number(b[i..])
    decreases i
  {
    if i > 0 {
      TailNumber(b[1..], i - 1);
      assert b[1..][i - 1..] == b[i..];
      SmallPowers();
      PowSum(8, 8 * (i - 1));
      assert 8 + 8 * (i - 1) == 8 * i;
      DivIs(Number(b), 256, Number(b[1..]), b[0] as int);
      DivDiv(Number(b), 256, Pow2(8 * (i - 1)));
    } else {
      assert b[0..] == b;
    }
  }

  /** Five bits that start j bits into two bytes; p is 2^j and c is 2^(8 - j). */
  function Pick(x: nat, y: nat, p: nat, c: nat): nat
    requires p > 0
  {
    Or(x / p, y * c) % 32
  }

  lemma ShrBound(x: nat, j: nat)
    requires x < 256 && j < 8
    ensures x / Pow2(j) < Pow2(8 - j)
  {
    SmallPowers();
    match j { case 0 => case 1 => case 2 => case 3 => case 4 => case 5 => case 6 => case _ => assert j == 7; }
  }

  lemma PowerPair(j: nat)
    requires j < 8
    ensures Pow2(j) * Pow2(8 - j) == 256
  {
    SmallPowers();
    PowSum(j, 8 - j);
  }

  lemma Thrice(w: nat, c: nat, p: nat)
    requires c * p == 256
    ensures w * c * p == w * 256 && w * c * 32 * p == w * 8192
  {
    assert w * c * p == w * (c * p);
    assert w * c * 32 * p == 32 * (w * c * p);
  }

  /** The two bytes and the rest, split at p. */
  lemma PickSplit(x: nat, y: nat, rest: nat, p: nat, c: nat)
    requires p > 0 && c * p == 256
    ensures (x / p + y * c + (rest * 8 * c) * 32) * p + x % p == x + 256 * y + 65536 * rest
  {
    Thrice(y, c, p);
    Thrice(rest * 8, c, p);
    Distribute(x / p + y * c, (rest * 8 * c) * 32, p);
    Distribute(x / p, y * c, p);
  }

  lemma PickSum(x: nat, y: nat, rest: nat, p: nat, c: nat)
    requires p > 0 && c * p == 256
    ensures (x / p + y * c) % 32 == ((x + 256 * y + 65536 * rest) / p) % 32
  {
    PickSplit(x, y, rest, p, c);
    ModOfSplit(x + 256 * y + 65536 * rest, p, x / p + y * c, rest * 8 * c, x % p);
  }

  lemma ModOfSplit(v: nat, p: nat, z: nat, m: nat, r: nat)
    requires r < p && v == (z + m * 32) * p + r
    ensures v / p % 32 == z % 32
  {
    DivIs(v, p, z + m * 32, r);
    ModDrop(z, m);
  }

  /** They are those bits of any number that begins with the two bytes. */
  lemma PickIs(x: nat, y: nat, rest: nat, p: nat, c: nat, k: nat)
    requires p > 0 && p * c == 256 && c == Pow2(k) && x / p < c
    ensures Pick(x, y, p, c) == ((x + 256 * y + 65536 * rest) / p) % 32
  {
    Product(p, c);
    OrAdds(x / p, y, k);
    PickSum(x, y, rest, p, c);
  }

  lemma ModDrop(z: nat, m: nat)
    ensures (z + m * 32) % 32 == z % 32
  {
    DivIs(z + m * 32, 32, z / 32 + m, z % 32);
  }

  function DigitOf(b: Bytes, n: nat): nat
    requires n < EncodedLen(|b|)
  {
    var i, j := n * 5 / 8, n * 5 % 8;
    Pick(b[i] as int, NextByte(b, i), Pow2(j), Pow2(8 - j))
  }

  /** Digit n of the encoding is digit n of the number. */
  lemma DigitIs(b: Bytes, n: nat)
    requires n < EncodedLen(|b|)
    ensures DigitOf(b, n) == (Number(b) / Pow2(5 * n)) % 32
  {
    var i, j := n * 5 / 8, n * 5 % 8;
    var y, rest := NextByte(b, i), Beyond(b, i);
    TailIs(b, i);
    ShiftedTail(b, n, i, j);
    PickAt(b[i] as int, y, rest, j);
  }

  lemma ShiftedTail(b: Bytes, n: nat, i: nat, j: nat)
    requires i <= |b| && 8 * i + j == 5 * n
    ensures Number(b) / Pow2(5 * n) == Number(b[i..]) / Pow2(j)
  {
    TailNumber(b, i);
    PowSum(8 * i, j);
    DivDiv(Number(b), Pow2(8 * i), Pow2(j));
  }

  lemma PickAt(x: nat, y: nat, rest: nat, j: nat)
    requires x < 256 && j < 8
    ensures Pick(x, y, Pow2(j), Pow2(8 - j)) == ((x + 256 * y + 65536 * rest) / Pow2(j)) % 32
  {
    ShrBound(x, j);
    PowerPair(j);
    PickIs(x, y, rest, Pow2(j), Pow2(8 - j), 8 - j);
  }

  function NextByte(b: Bytes, i: nat): nat { if i + 1 < |b| then b[i + 1] as int else 0 }

  ghost function Beyond(b: Bytes, i: nat): nat { if i + 1 < |b| then Number(b[i + 2..]) else 0 }

  lemma TailIs(b: Bytes, i: nat)
    requires i < |b|
    ensures Number(b[i..]) == b[i] as int + 256 * NextByte(b, i) + 65536 * Beyond(b, i)
  {
    var tail := b[i..];
    assert tail[0] == b[i] && tail[1..] == b[i + 1..];
    if i + 1 < |b| { assert b[i + 1..][0] == b[i + 1] && b[i + 1..][1..] == b[i + 2..]; }
  }

  // ---- characters ----

  /** `position` in the alphabet, from k on. */
  function IndexFrom(c: char, k: nat): Option<nat>
    requires k <= 32
    decreases 32 - k
  {
    if k == 32 then None else if ALPHABET[k] == c then Some(k) else IndexFrom(c, k + 1)
  }

  function Index(c: char): Option<nat> { IndexFrom(c, 0) }

  lemma AlphabetAscends(k: nat)
    requires k < 31
    ensures ALPHABET[k] < ALPHABET[k + 1]
  {}

  lemma {:induction false} AlphabetOrdered(i: nat, k: nat)
    requires i < k < 32
    ensures ALPHABET[i] < ALPHABET[k]
    decreases k
  {
    AlphabetAscends(k - 1);
    if i < k - 1 { AlphabetOrdered(i, k - 1); }
  }

  lemma {:induction false} IndexFinds(d: nat, k: nat)
    requires k <= d < 32
    ensures IndexFrom(ALPHABET[d], k) == Some(d)
    decreases d - k
  {
    if k < d {
      AlphabetOrdered(k, d);
      IndexFinds(d, k + 1);
    }
  }

  lemma {:induction false} IndexIs(c: char, k: nat)
    requires k <= 32
    ensures IndexFrom(c, k).Some? ==> k <= IndexFrom(c, k).value < 32 && ALPHABET[IndexFrom(c, k).value] == c
    decreases 32 - k
  {
    if k < 32 { IndexIs(c, k + 1); }
  }

  ghost predicate InAlphabet(s: string) { forall i :: 0 <= i < |s| ==> Index(s[i]).Some? }

  /** The digits of a string, first character highest. */
  ghost function DigitsOf(s: string): (d: seq<nat>)
    requires InAlphabet(s)
    ensures |d| == |s| && forall i :: 0 <= i < |s| ==> d[i] == Index(s[i]).value && d[i] < 32
  {
    var d := seq(|s|, i requires 0 <= i < |s| => Index(s[i]).value);
    assert forall i :: 0 <= i < |s| ==> d[i] < 32 by { forall i | 0 <= i < |s| ensures d[i] < 32 { IndexIs(s[i], 0); } }
    d
  }

  /** The number a string denotes. */
  ghost function Denotes(s: string): nat
    requires InAlphabet(s)
  {
    Digits(DigitsOf(s))
  }

  lemma DenotesNext(s: string, d: nat)
    requires InAlphabet(s) && d < 32
    ensures InAlphabet(s + [ALPHABET[d]]) && Denotes(s + [ALPHABET[d]]) == Denotes(s) * 32 + d
  {
    IndexFinds(d, 0);
    var t := s + [ALPHABET[d]];
    assert DigitsOf(t)[..|s|] == DigitsOf(s);
  }

  method Encode(bytes: Bytes) returns (s: string)
    ensures |s| == EncodedLen(|bytes|) && InAlphabet(s) && Denotes(s) == Number(bytes)
  {
    var len := EncodedLen(|bytes|);
    s := "";
    NothingAbove(bytes);
    for n := len downto 0
      invariant |s| == len - n && InAlphabet(s) && Denotes(s) == Number(bytes) / Pow2(5 * n)
    {
      var digit := DigitOf(bytes, n);
      EncodeStep(bytes, s, n, digit);
      s := s + [ALPHABET[digit]];
    }
    assert Pow2(5 * 0) == 1;
  }

  lemma EncodeStep(bytes: Bytes, s: string, n: nat, digit: nat)
    requires n < EncodedLen(|bytes|) && InAlphabet(s) && Denotes(s) == Number(bytes) / Pow2(5 * (n + 1))
             && digit == DigitOf(bytes, n)
    ensures digit < 32 && InAlphabet(s + [ALPHABET[digit]])
            && Denotes(s + [ALPHABET[digit]]) == Number(bytes) / Pow2(5 * n)
  {
    DigitIs(bytes, n);
    NextDigit(Number(bytes), n);
    DenotesNext(s, digit);
  }

  lemma NextDigit(v: nat, n: nat)
    ensures v / Pow2(5 * n) == v / Pow2(5 * (n + 1)) * 32 + (v / Pow2(5 * n)) % 32
  {
    PowSum(5 * n, 5);
    SmallPowers();
    assert 5 * n + 5 == 5 * (n + 1);
    DivDiv(v, Pow2(5 * n), 32);
  }

  /** Enough characters for every bit. */
  lemma NothingAbove(b: Bytes)
    ensures Number(b) / Pow2(5 * EncodedLen(|b|)) == 0
  {
    NumberBound(b);
    PowGrows(8 * |b|, 5 * EncodedLen(|b|));
    DivIs(Number(b), Pow2(5 * EncodedLen(|b|)), 0, Number(b));
  }

  // ---- decoding ----

  lemma {:induction false} NumberSet(b: Bytes, i: nat, v: byte)
    requires i < |b|
    ensures Number(b[i := v]) + b[i] as int * Pow2(8 * i) == Number(b) + v as int * Pow2(8 * i)
    decreases i
  {
    var b' := b[i := v];
    if i == 0 {
      assert b'[1..] == b[1..];
      assert Pow2(8 * 0) == 1;
    } else {
      NumberSet(b[1..], i - 1, v);
      assert b'[1..] == b[1..][i - 1 := v];
      var p := Pow2(8 * (i - 1));
      assert Pow2(8 * i) == 256 * p by {
        SmallPowers();
        PowSum(8, 8 * (i - 1));
        assert 8 + 8 * (i - 1) == 8 * i;
      }
      Scale(b[i] as int, p, Pow2(8 * i));
      Scale(v as int, p, Pow2(8 * i));
    }
  }

  lemma Scale(x: nat, p: nat, q: nat)
    requires q == 256 * p
    ensures x * q == 256 * (x * p)
  {}

  lemma TailExact(b: Bytes, i: nat, t: nat)
    requires i <= |b| && Number(b) == t * Pow2(8 * i)
    ensures Number(b[i..]) == t
  {
    TailNumber(b, i);
    DivIs(Number(b), Pow2(8 * i), t, 0);
  }

  lemma ModMultiple(k: nat, p: nat, c: nat)
    requires p > 0 && c > 0 && p * c == 256
    ensures (k * p) % 256 == (k % c) * p && k % c * p + p <= 256
  {
    var q, r := k / c, k % c;
    Distribute(q * c, r, p);
    Product(p, c);
    Regroup(q, c, p);
    Monotone(r, c - 1, p);
    Distribute(c, -1, p);
    DivIs(k * p, 256, q, r * p);
  }

  /** Or-ing x into a byte whose low bits, those below Pow2(e), are clear. */
  lemma OrInto(k: nat, e: nat, x: nat)
    requires e <= 8 && x < Pow2(e)
    ensures var y := (k * Pow2(e)) % 256; Or(y, x) == y + x < 256
  {
    SmallPowers();
    PowSum(e, 8 - e);
    ModMultiple(k, Pow2(e), Pow2(8 - e));
    OrAdds(x, k % Pow2(8 - e), e);
    OrCommutes((k * Pow2(e)) % 256, x);
  }

  /** The byte i and the one after it when the number is t * 256^i. */
  lemma TwoBytes(b: Bytes, i: nat, t: nat)
    requires i < |b| && Number(b) == t * Pow2(8 * i)
    ensures b[i] as int == t % 256 && (i + 1 < |b| ==> b[i + 1] as int == t / 256 % 256)
  {
    TailExact(b, i, t);
    assert b[i..][0] == b[i] && b[i..][1..] == b[i + 1..];
    DivIs(t, 256, Number(b[i + 1..]), b[i] as int);
    if i + 1 < |b| {
      assert b[i + 1..][0] == b[i + 1];
      DivIs(Number(b[i + 1..]), 256, Number(b[i + 1..][1..]), b[i + 1] as int);
    }
  }

  /** A digit that does not leave its byte. */
  lemma LowDigit(k: nat, j: nat, d: nat)
    requires j <= 3 && d < 32
    ensures var full, t := d * Pow2(j), k * Pow2(j + 5);
            full < 256 && Or(t % 256, full) == t % 256 + full < 256
  {
    PowSum(j, 5);
    SmallPowers();
    DigitBound(d, Pow2(j));
    PowGrows(j + 5, 8);
    OrInto(k, j + 5, d * Pow2(j));
  }

  lemma DigitBound(d: nat, p: nat)
    requires d < 32 && p > 0
    ensures d * p < p * 32 && d * p < 32 * p
  {
    Monotone(d, 31, p);
  }

  /** A digit that reaches into the next byte: its own byte was still zero. */
  lemma HighDigit(k: nat, j: nat, d: nat)
    requires 3 < j < 8 && d < 32
    ensures var full, t := d * Pow2(j), k * Pow2(j + 5);
            && t % 256 == 0 && Or(t % 256, full % 256) == full % 256
            && Or(t / 256 % 256, full / 256) == t / 256 % 256 + full / 256 < 256
  {
    var e := j - 3;
    PowSum(j, 5);
    PowSum(e, 8);
    SmallPowers();
    DigitBound(d, Pow2(j));
    var full := d * Pow2(j);
    assert Pow2(j + 5) == Pow2(e) * 256;
    Regroup(k, Pow2(e), 256);
    DivIs(k * Pow2(j + 5), 256, k * Pow2(e), 0);
    OrInto(k, e, full / 256);
  }

  /** The two bytes after or-ing in digit d at bit 8i + j, and the number they then make. */
  lemma OrDigitSum(b: Bytes, i: nat, j: nat, d: nat, k: nat)
    requires i < |b| && j < 8 && d < 32 && Number(b) == k * Pow2(j + 5) * Pow2(8 * i)
    ensures var full := d * Pow2(j);
            && Or(b[i] as int, full % 256) == b[i] as int + full % 256 < 256
            && (i + 1 < |b| ==> Or(b[i + 1] as int, full / 256) == b[i + 1] as int + full / 256 < 256)
  {
    TwoBytes(b, i, k * Pow2(j + 5));
    if j <= 3 {
      LowDigit(k, j, d);
      DivIs(d * Pow2(j), 256, 0, d * Pow2(j));
    } else {
      HighDigit(k, j, d);
    }
  }

  /** A value split over two bytes. */
  lemma SplitSum(full: nat, p: nat, q: nat)
    requires q == 256 * p
    ensures full % 256 * p + full / 256 * q == full * p
    ensures full / 256 > 0 ==> full * p >= q
  {
    Scale(full / 256, p, q);
    Distribute(full / 256 * 256, full % 256, p);
    Regroup(full / 256, 256, p);
    if full / 256 > 0 { Monotone(256, full, p); }
  }

  lemma AddByte(b: Bytes, i: nat, x: nat)
    requires i < |b| && b[i] as int + x < 256
    ensures Number(b[i := (b[i] as int + x) as byte]) == Number(b) + x * Pow2(8 * i)
  {
    NumberSet(b, i, (b[i] as int + x) as byte);
    Distribute(b[i] as int, x, Pow2(8 * i));
  }

  /** The bytes after or-ing in a digit whose low part is x and whose high part is hi. */
  function Ored(b: Bytes, i: nat, x: nat, hi: nat): Bytes
    requires i < |b| && Or(b[i] as int, x) < 256 && (i + 1 < |b| ==> Or(b[i + 1] as int, hi) < 256)
  {
    var b1 := b[i := Or(b[i] as int, x) as byte];
    if i + 1 < |b| then b1[i + 1 := Or(b[i + 1] as int, hi) as byte] else b1
  }

  /** Or-ing `full` into bytes i and i + 1 meets no bit that is set. */
  ghost predicate Clear(b: Bytes, i: nat, full: nat)
    requires i < |b|
  {
    && Or(b[i] as int, full % 256) == b[i] as int + full % 256 < 256
    && (i + 1 < |b| ==> Or(b[i + 1] as int, full / 256) == b[i + 1] as int + full / 256 < 256)
  }

  lemma OredAdds(b: Bytes, i: nat, full: nat)
    requires i < |b| && Clear(b, i, full) && (i + 1 < |b| || full / 256 == 0)
    ensures Number(Ored(b, i, full % 256, full / 256)) == Number(b) + full * Pow2(8 * i)
  {
    OredParts(b, i, full % 256, full / 256);
    NextPower(i);
    SplitSum(full, Pow2(8 * i), Pow2(8 * (i + 1)));
  }

  lemma OredParts(b: Bytes, i: nat, x: nat, hi: nat)
    requires i < |b| && Or(b[i] as int, x) == b[i] as int + x < 256 && (i + 1 < |b| || hi == 0)
    requires i + 1 < |b| ==> Or(b[i + 1] as int, hi) == b[i + 1] as int + hi < 256
    ensures Number(Ored(b, i, x, hi)) == Number(b) + x * Pow2(8 * i) + hi * Pow2(8 * (i + 1))
  {
    AddByte(b, i, x);
    if i + 1 < |b| { AddByte(b[i := (b[i] as int + x) as byte], i + 1, hi); }
  }

  lemma SpillTooBig(b: Bytes, i: nat, full: nat)
    requires i + 1 == |b| && full / 256 != 0
    ensures full * Pow2(8 * i) >= Pow2(8 * |b|)
  {
    NextPower(i);
    SplitSum(full, Pow2(8 * i), Pow2(8 * (i + 1)));
  }

  lemma NextPower(i: nat)
    ensures Pow2(8 * (i + 1)) == 256 * Pow2(8 * i)
  {
    PowSum(8, 8 * i);
    SmallPowers();
    assert 8 + 8 * i == 8 * (i + 1);
  }

  /** Or `full` into the bytes from byte i on; what does not fit the last byte spills. */
  method OrBytes(out: array<byte>, i: nat, full: nat) returns (spill: bool)
    requires i < out.Length && Clear(out[..], i, full)
    modifies out
    ensures !spill ==> Number(out[..]) == old(Number(out[..])) + full * Pow2(8 * i)
    ensures spill ==> full * Pow2(8 * i) >= Pow2(8 * out.Length)
  {
    ghost var b := out[..];
    var hi := full / 256;
    out[i] := Or(out[i] as int, full % 256) as byte;
    if i + 1 < out.Length {
      out[i + 1] := Or(out[i + 1] as int, hi) as byte;
    }
    assert out[..] == Ored(b, i, full % 256, hi);
    spill := i + 1 == out.Length && hi != 0;
    if spill {
      SpillTooBig(b, i, full);
    } else {
      OredAdds(b, i, full);
    }
  }

  /** Or digit d into the bytes at bit 5n, all bits below 5n + 5 being clear. */
  method OrDigit(out: array<byte>, n: nat, d: nat, ghost k: nat) returns (spill: bool)
    requires n * 5 / 8 < out.Length && d < 32 && Number(out[..]) == k * Pow2(5 * n + 5)
    modifies out
    ensures !spill ==> Number(out[..]) == old(Number(out[..])) + d * Pow2(5 * n)
    ensures spill ==> d * Pow2(5 * n) >= Pow2(8 * out.Length)
  {
    var i, j := n * 5 / 8, n * 5 % 8;
    var full := d * Pow2(j);
    DigitIsClear(out[..], n, d, k, i, j, full);
    spill := OrBytes(out, i, full);
  }

  lemma DigitIsClear(b: Bytes, n: nat, d: nat, k: nat, i: nat, j: nat, full: nat)
    requires i == n * 5 / 8 < |b| && j == n * 5 % 8 && full == d * Pow2(j)
    requires d < 32 && Number(b) == k * Pow2(5 * n + 5)
    ensures Clear(b, i, full) && full * Pow2(8 * i) == d * Pow2(5 * n)
  {
    Place(i, j, n, d, k);
    OrDigitSum(b, i, j, d, k);
  }

  /** Bit 5n is bit j of byte i. */
  lemma Place(i: nat, j: nat, n: nat, d: nat, k: nat)
    requires i == n * 5 / 8 && j == n * 5 % 8
    ensures k * Pow2(5 * n + 5) == k * Pow2(j + 5) * Pow2(8 * i)
    ensures d * Pow2(5 * n) == d * Pow2(j) * Pow2(8 * i)
  {
    assert 8 * i + j == 5 * n;
    PowSum(j + 5, 8 * i);
    PowSum(j, 8 * i);
    PowSum(8, 8 * i);
    SmallPowers();
    assert j + 5 + 8 * i == 5 * n + 5 && j + 8 * i == 5 * n && 8 + 8 * i == 8 * (i + 1);
    Regroup(k, Pow2(j + 5), Pow2(8 * i));
    Regroup(d, Pow2(j), Pow2(8 * i));
  }

  lemma {:induction false} ZeroNumber(b: Bytes)
    requires forall i :: 0 <= i < |b| ==> b[i] == 0
    ensures Number(b) == 0
    decreases |b|
  {
    if b != [] { ZeroNumber(b[1..]); }
  }

  /** One more character: 32 times the number before, plus its digit. */
  lemma PrefixNext(s: string, pos: nat)
    requires pos < |s| && InAlphabet(s[..pos]) && Index(s[pos]).Some?
    ensures InAlphabet(s[..pos + 1]) && Index(s[pos]).value < 32
    ensures Denotes(s[..pos + 1]) == Denotes(s[..pos]) * 32 + Index(s[pos]).value
  {
    IndexIs(s[pos], 0);
    var t := s[..pos + 1];
    assert DigitsOf(t)[..pos] == DigitsOf(s[..pos]);
  }

  /** A prefix already denotes at least its share of the whole. */
  lemma {:induction false} PrefixShare(s: string, pos: nat)
    requires pos <= |s| && InAlphabet(s)
    ensures InAlphabet(s[..pos]) && Denotes(s) >= Denotes(s[..pos]) * Pow2(5 * (|s| - pos))
    decreases |s| - pos
  {
    if pos == |s| {
      assert s[..pos] == s;
      assert Pow2(5 * 0) == 1;
    } else {
      PrefixShare(s, pos + 1);
      PrefixNext(s, pos);
      ShiftDigit(Denotes(s[..pos]), Index(s[pos]).value, |s| - pos - 1);
    }
  }

  lemma ShiftDigit(v: nat, d: nat, n: nat)
    ensures (v * 32 + d) * Pow2(5 * n) == v * Pow2(5 * (n + 1)) + d * Pow2(5 * n)
  {
    PowSum(5, 5 * n);
    SmallPowers();
    assert 5 + 5 * n == 5 * (n + 1);
    Distribute(v * 32, d, Pow2(5 * n));
    Regroup(v, 32, Pow2(5 * n));
  }

  /** One character: or its digit in, or find that the string denotes nothing that fits. */
  method DecodeOne(out: array<byte>, s: string, pos: nat) returns (stop: bool)
    requires pos < |s| == EncodedLen(out.Length) && InAlphabet(s[..pos])
    requires Number(out[..]) == Denotes(s[..pos]) * Pow2(5 * (|s| - pos))
    modifies out
    ensures stop ==> !(InAlphabet(s) && Denotes(s) < Pow2(8 * out.Length))
    ensures !stop ==> InAlphabet(s[..pos + 1]) && Number(out[..]) == Denotes(s[..pos + 1]) * Pow2(5 * (|s| - (pos + 1)))
  {
    var n := |s| - 1 - pos;
    var digit := Index(s[pos]);
    if digit.None? {
      return true;
    }
    PrefixNext(s, pos);
    ghost var v := Denotes(s[..pos]);
    ShiftDigit(v, digit.value, n);
    assert 5 * n + 5 == 5 * (|s| - pos) && 5 * (n + 1) == 5 * (|s| - pos);
    stop := OrDigit(out, n, digit.value, v);
    if stop { SpillMeansTooBig(s, pos, v, digit.value, Pow2(5 * n), Pow2(8 * out.Length)); }
  }

  lemma SpillMeansTooBig(s: string, pos: nat, v: nat, d: nat, p: nat, bound: nat)
    requires pos < |s| && InAlphabet(s[..pos + 1]) && Denotes(s[..pos + 1]) == v * 32 + d
    requires p == Pow2(5 * (|s| - (pos + 1))) && d * p >= bound
    ensures InAlphabet(s) ==> Denotes(s) >= bound
  {
    AtLeastDigit(v, d, p);
    if InAlphabet(s) { PrefixShare(s, pos + 1); }
  }

  lemma AtLeastDigit(v: nat, d: nat, p: nat)
    ensures (v * 32 + d) * p >= d * p
  {
    Monotone(d, v * 32 + d, p);
  }

  /** Decode into exactly outLen bytes. It succeeds exactly on strings of the right length over
      the alphabet that denote a number below 256^outLen, and then yields that number. */
  method Decode(s: string, outLen: nat) returns (r: Option<Bytes>)
    ensures r.Some? <==> |s| == EncodedLen(outLen) && InAlphabet(s) && Denotes(s) < Pow2(8 * outLen)
    ensures r.Some? ==> |r.value| == outLen && Number(r.value) == Denotes(s)
  {
    if |s| != EncodedLen(outLen) {
      return None;
    }
    var out := new byte[outLen](_ => 0);
    ZeroNumber(out[..]);
    for pos := 0 to |s|
      invariant InAlphabet(s[..pos]) && Number(out[..]) == Denotes(s[..pos]) * Pow2(5 * (|s| - pos))
    {
      var stop := DecodeOne(out, s, pos);
      if stop {
        return None;
      }
    }
    assert s[..|s|] == s;
    assert Pow2(5 * 0) == 1;
    NumberBound(out[..]);
    r := Some(out[..]);
  }

  // ---- the bijection ----

  lemma DenotesInjective(s: string, t: string)
    requires |s| == |t| && InAlphabet(s) && InAlphabet(t) && Denotes(s) == Denotes(t)
    ensures s == t
  {
    DigitsInjective(DigitsOf(s), DigitsOf(t));
    forall i | 0 <= i < |s| ensures s[i] == t[i] {
      IndexIs(s[i], 0);
      IndexIs(t[i], 0);
      assert DigitsOf(s)[i] == DigitsOf(t)[i];
    }
  }

  /** Decoding what was encoded gives the bytes back. */
  method EncodeThenDecode(b: Bytes) returns (s: string, r: Option<Bytes>)
    ensures r == Some(b) && |s| == EncodedLen(|b|)
  {
    s := Encode(b);
    NumberBound(b);
    r := Decode(s, |b|);
    NumberInjective(r.value, b);
  }

  /** Encoding what was decoded gives the string back. */
  method DecodeThenEncode(s: string, n: nat) returns (r: Option<Bytes>, t: string)
    ensures r.Some? ==> t == s
    ensures r.Some? <==> |s| == EncodedLen(n) && InAlphabet(s) && Denotes(s) < Pow2(8 * n)
  {
    r := Decode(s, n);
    if r.None? {
      return r, "";
    }
    t := Encode(r.value);
    DenotesInjective(t, s);
  }
}
