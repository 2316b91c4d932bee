/**
 Message IDs. The fetcher compares them as strings (shorter first, then byte by byte), the
 consolidation buffer as parsed numbers; both rest on the order proved here.
 */
module Snowflake {
  import opened Wrappers

  // ---- Numerals in any base ----

  predicate Digits(s: seq<nat>, base: nat) {
    forall i :: 0 <= i < |s| ==> s[i] < base
  }

  function Val(s: seq<nat>, base: nat): nat {
    if s == [] then 0 else Val(s[..|s| - 1], base) * base + s[|s| - 1]
  }

  function Pow(base: nat, n: nat): nat {
    if n == 0 then 1 else Pow(base, n - 1) * base
  }

  /** The first difference decides. */
  predicate LexLess(a: seq<nat>, b: seq<nat>)
    requires |a| == |b|
  {
    exists i :: 0 <= i < |a| && a[..i] == b[..i] && a[i] < b[i]
  }

  lemma LexByLast(a: seq<nat>, b: seq<nat>)
    requires |a| == |b| > 0
    ensures var n := |a| - 1; LexLess(a, b) <==> LexLess(a[..n], b[..n]) || (a[..n] == b[..n] && a[n] < b[n])
  {
    var n := |a| - 1;
    if LexLess(a, b) {
      var i :| 0 <= i < |a| && a[..i] == b[..i] && a[i] < b[i];
      if i < n {
        assert a[..n][..i] == a[..i] && b[..n][..i] == b[..i];
      }
    }
    if LexLess(a[..n], b[..n]) {
      var i :| 0 <= i < n && a[..n][..i] == b[..n][..i] && a[..n][i] < b[..n][i];
      assert a[..i] == a[..n][..i] && b[..i] == b[..n][..i];
    }
  }

  lemma NextMultiple(p: nat, q: nat, base: nat)
    requires p < q
    ensures p * base + base <= q * base
  {
    var d := q - p - 1;
    assert q == p + (1 + d) && (1 + d) * base == base + d * base;
    assert (p + (1 + d)) * base == p * base + (1 + d) * base;
  }

  lemma CompareStep(p: nat, q: nat, x: nat, y: nat, base: nat)
    requires x < base && y < base
    ensures p * base + x < q * base + y <==> p < q || (p == q && x < y)
    ensures p * base + x == q * base + y <==> p == q && x == y
  {
    if p < q {
      NextMultiple(p, q, base);
    } else if q < p {
      NextMultiple(q, p, base);
    }
  }

  lemma SameByLast(a: seq<nat>, b: seq<nat>)
    requires |a| == |b| > 0
    ensures var n := |a| - 1; a == b <==> a[..n] == b[..n] && a[n] == b[n]
  {
    var n := |a| - 1;
    assert a == a[..n] + [a[n]] && b == b[..n] + [b[n]];
  }

  /** Among numerals of one length, the lexical order is the numeric one. */
  lemma {:induction false} LexIsNumeric(a: seq<nat>, b: seq<nat>, base: nat)
    requires |a| == |b| && Digits(a, base) && Digits(b, base)
    ensures LexLess(a, b) <==> Val(a, base) < Val(b, base)
    ensures a == b <==> Val(a, base) == Val(b, base)
  {
    if a != [] {
      var n := |a| - 1;
      var x, y := a[..n], b[..n];
      LexIsNumeric(x, y, base);
      LexByLast(a, b);
      SameByLast(a, b);
      CompareStep(Val(x, base), Val(y, base), a[n], b[n], base);
    }
  }

  lemma {:induction false} ValBound(s: seq<nat>, base: nat)
    requires Digits(s, base)
    ensures Val(s, base) < Pow(base, |s|)
  {
    if s != [] {
      var n := |s| - 1;
      ValBound(s[..n], base);
      NextMultiple(Val(s[..n], base), Pow(base, n), base);
    }
  }

  lemma {:induction false} PowMonotone(base: nat, m: nat, n: nat)
    requires base > 1 && m <= n
    ensures 0 < Pow(base, m) <= Pow(base, n) && (m < n ==> 2 * Pow(base, m) <= Pow(base, n))
  {
    if m < n {
      PowMonotone(base, m, n - 1);
      NextMultiple(1, base, Pow(base, n - 1));
    } else if n > 0 {
      PowMonotone(base, n - 1, n - 1);
      NextMultiple(0, Pow(base, n - 1), base);
    }
  }

  /** A numeral without a leading zero is at least the power of its length. */
  lemma {:induction false} ValLeading(s: seq<nat>, base: nat)
    requires |s| > 0 && s[0] > 0 && base > 0
    ensures Val(s, base) >= Pow(base, |s| - 1)
  {
    if |s| == 1 {
      assert s[..0] == [];
    } else {
      var n := |s| - 1;
      ValLeading(s[..n], base);
      var v, p := Val(s[..n], base), Pow(base, n - 1);
      if p < v {
        NextMultiple(p, v, base);
      }
    }
  }

  // ---- IDs as strings ----

  const CHARS: nat := 0x11_0000

  function Codes(s: string): (d: seq<nat>)
    ensures |d| == |s| && forall i :: 0 <= i < |s| ==> d[i] == s[i] as nat
  {
    seq(|s|, i requires 0 <= i < |s| => s[i] as nat)
  }

  /** snowflakeLess. */
  predicate SnowflakeLess(a: string, b: string) {
    if |a| != |b| then |a| < |b|
    else exists i :: 0 <= i < |a| && a[..i] == b[..i] && a[i] < b[i]
  }

  /** A position of every string in the order of SnowflakeLess. */
  function Rank(s: string): nat {
    Pow(CHARS, |s|) + Val(Codes(s), CHARS)
  }

  // Strings compare as their digits do, however the digits are offset.
  lemma ImageLex(a: string, b: string, x: seq<nat>, y: seq<nat>, offset: nat)
    requires |a| == |b| == |x| == |y|
    requires forall i :: 0 <= i < |a| ==> a[i] as nat == x[i] + offset && b[i] as nat == y[i] + offset
    ensures SnowflakeLess(a, b) <==> LexLess(x, y)
    ensures a == b <==> x == y
  {
    forall i | 0 <= i <= |a|
      ensures a[..i] == b[..i] <==> x[..i] == y[..i]
    {
      if x[..i] == y[..i] {
        assert forall j :: 0 <= j < i ==> x[..i][j] == y[..i][j];
        assert forall j :: 0 <= j < i ==> a[j] as nat == b[j] as nat;
      }
      if a[..i] == b[..i] {
        assert forall j :: 0 <= j < i ==> a[..i][j] == b[..i][j];
        assert forall j :: 0 <= j < i ==> x[j] == y[j];
      }
    }
    assert a[..|a|] == a && b[..|b|] == b && x[..|x|] == x && y[..|y|] == y;
    if SnowflakeLess(a, b) {
      var i :| 0 <= i < |a| && a[..i] == b[..i] && a[i] < b[i];
      assert x[..i] == y[..i] && x[i] < y[i];
    }
    if LexLess(x, y) {
      var i :| 0 <= i < |x| && x[..i] == y[..i] && x[i] < y[i];
      assert a[..i] == b[..i] && a[i] < b[i];
    }
  }

  /**
   The order on arbitrary strings is the order of their ranks: it is a strict total order
   without infinite descending chains, whatever a server sends as an ID.
   */
  lemma LessIsRankOrder(a: string, b: string)
    ensures SnowflakeLess(a, b) <==> Rank(a) < Rank(b)
    ensures a == b <==> Rank(a) == Rank(b)
  {
    ValBound(Codes(a), CHARS);
    ValBound(Codes(b), CHARS);
    if |a| == |b| {
      ImageLex(a, b, Codes(a), Codes(b), 0);
      LexIsNumeric(Codes(a), Codes(b), CHARS);
    } else if |a| < |b| {
      PowMonotone(CHARS, |a|, |b|);
    } else {
      PowMonotone(CHARS, |b|, |a|);
    }
  }

  // ---- IDs as numbers ----

  predicate IsDigit(c: char) {
    '0' <= c <= '9'
  }

  predicate AllDigits(s: string) {
    forall i :: 0 <= i < |s| ==> IsDigit(s[i])
  }

  function Decimals(s: string): (d: seq<nat>)
    requires AllDigits(s)
    ensures |d| == |s| && forall i :: 0 <= i < |s| ==> d[i] == (s[i] as nat) - ('0' as nat)
  {
    seq(|s|, i requires 0 <= i < |s| => (s[i] as nat) - ('0' as nat))
  }

  function Number(s: string): nat
    requires AllDigits(s)
  {
    Val(Decimals(s), 10)
  }

  /** strconv.ParseUint(s, 10, 64). */
  function ParseUint(s: string): Option<nat> {
    if s != "" && AllDigits(s) && Number(s) < 0x1_0000_0000_0000_0000 then Some(Number(s)) else None
  }

  /** A number in decimal. */
  function Decimal(n: nat): (s: string)
    ensures s != ""
  {
    var digit := ('0' as nat + n % 10) as char;
    if n < 10 then [digit] else Decimal(n / 10) + [digit]
  }

  lemma NumberMore(s: string, c: char)
    requires AllDigits(s) && IsDigit(c)
    ensures AllDigits(s + [c]) && Number(s + [c]) == Number(s) * 10 + (c as nat - '0' as nat)
  {
    assert Decimals(s + [c]) == Decimals(s) + [c as nat - '0' as nat];
    assert Decimals(s + [c])[..|s|] == Decimals(s);
  }

  lemma {:induction false} DecimalIsCanonical(n: nat)
    ensures Canonical(Decimal(n)) && Number(Decimal(n)) == n && (n > 0 ==> Decimal(n)[0] != '0')
  {
    var digit := ('0' as nat + n % 10) as char;
    if n < 10 {
      NumberMore("", digit);
      assert "" + [digit] == [digit];
    } else {
      DecimalIsCanonical(n / 10);
      NumberMore(Decimal(n / 10), digit);
    }
  }

  /**
   Every number of 64 bits is parsed from its decimal, a larger one's decimal is not, and neither is
   what has another character than digits or none at all.
   */
  lemma ParsesDecimals(n: nat, s: string)
    ensures ParseUint(Decimal(n)) == if n < 0x1_0000_0000_0000_0000 then Some(n) else None
    ensures s == "" || (exists i :: 0 <= i < |s| && !('0' <= s[i] <= '9')) ==> ParseUint(s) == None
    ensures Canonical(s) && ParseUint(s) == Some(n) ==> s == Decimal(n)
  {
    DecimalIsCanonical(n);
    if exists i :: 0 <= i < |s| && !('0' <= s[i] <= '9') {
      var i :| 0 <= i < |s| && !('0' <= s[i] <= '9');
      assert !IsDigit(s[i]);
    }
    if Canonical(s) {
      LessIsNumericOrder(s, Decimal(n));
    }
  }

  /** snowflakeAfter: IDs that do not parse are never treated as older. */
  predicate SnowflakeAfter(a: string, b: string) {
    var x, y := ParseUint(a), ParseUint(b);
    if x.None? || y.None? then true else x.value > y.value
  }

  /** A decimal without superfluous leading zeros, as Discord writes IDs. */
  predicate Canonical(s: string) {
    s != "" && AllDigits(s) && (|s| > 1 ==> s[0] != '0')
  }

  predicate IsSnowflake(s: string) {
    Canonical(s) && ParseUint(s).Some?
  }

  lemma ShorterIsSmaller(a: string, b: string)
    requires Canonical(a) && Canonical(b) && |a| < |b|
    ensures Number(a) < Number(b)
  {
    ValBound(Decimals(a), 10);
    ValLeading(Decimals(b), 10);
    PowMonotone(10, |a|, |b| - 1);
  }

  /** On canonical decimals the string order is the numeric order. */
  lemma LessIsNumericOrder(a: string, b: string)
    requires Canonical(a) && Canonical(b)
    ensures SnowflakeLess(a, b) <==> Number(a) < Number(b)
    ensures a == b <==> Number(a) == Number(b)
  {
    if |a| == |b| {
      ImageLex(a, b, Decimals(a), Decimals(b), '0' as nat);
      LexIsNumeric(Decimals(a), Decimals(b), 10);
    } else if |a| < |b| {
      ShorterIsSmaller(a, b);
    } else {
      ShorterIsSmaller(b, a);
    }
  }

  /** On real snowflakes both comparisons of the program agree. */
  lemma AfterIsNotLess(a: string, b: string)
    requires IsSnowflake(a) && IsSnowflake(b)
    ensures SnowflakeAfter(a, b) <==> SnowflakeLess(b, a)
    ensures SnowflakeAfter(a, b) || SnowflakeAfter(b, a) || a == b
  {
    LessIsNumericOrder(a, b);
    LessIsNumericOrder(b, a);
  }
}
