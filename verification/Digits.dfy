/** Positional numbers in an arbitrary base, most significant digit first. */
module Digits {
  import opened Bytes

  ghost predicate Proper(s: seq<int>, base: int) {
    forall i :: 0 <= i < |s| ==> 0 <= s[i] < base
  }

  function Value(s: seq<int>, base: int): int
  {
    if s == [] then 0 else Value(s[..|s| - 1], base) * base + s[|s| - 1]
  }

  /** The digits of n without leading zeros; none for zero. */
  function ToDigits(n: nat, base: int): (s: seq<int>)
    requires base >= 2
    decreases n
  {
    if n == 0 then [] else (QuotientShrinks(n, base); ToDigits(n / base, base) + [n % base])
  }

  lemma MulMonotonic(a: int, b: int, c: int)
    requires a <= b && 0 <= c
    ensures a * c <= b * c
  {
    assert (b - a) * c >= 0;
  }

  lemma QuotientShrinks(n: nat, base: int)
    requires base >= 2
    ensures 0 <= n / base
    ensures n > 0 ==> n / base < n
  {
    var q := n / base;
    DivisionIdentity(n, base);
    if q < 0 {
      MulMonotonic(q, -1, base);
    } else if n > 0 && q >= n {
      MulMonotonic(2, base, q);
    }
  }

  lemma DivisionIdentity(n: int, base: int)
    requires base > 0
    ensures n == n / base * base + n % base
    ensures 0 <= n % base < base
  {
  }

  lemma QuotientUnique(q: int, r: int, p: int, t: int, base: int)
    requires 0 <= r < base && 0 <= t < base
    requires q * base + r == p * base + t
    ensures q == p && r == t
  {
    if q > p {
      MulMonotonic(p + 1, q, base);
    } else if q < p {
      MulMonotonic(q + 1, p, base);
    }
  }

  lemma DivMod(q: int, r: int, base: int)
    requires 0 <= r < base
    ensures (q * base + r) / base == q && (q * base + r) % base == r
  {
    var n := q * base + r;
    DivisionIdentity(n, base);
    QuotientUnique(n / base, n % base, q, r, base);
  }

  lemma {:induction false} ToDigitsProper(n: nat, base: int)
    requires base >= 2
    ensures Proper(ToDigits(n, base), base)
    ensures Value(ToDigits(n, base), base) == n
    ensures n > 0 ==> |ToDigits(n, base)| > 0 && ToDigits(n, base)[0] != 0
    decreases n
  {
    if n > 0 {
      QuotientShrinks(n, base);
      ToDigitsProper(n / base, base);
      var s := ToDigits(n, base);
      DivisionIdentity(n, base);
      assert s[..|s| - 1] == ToDigits(n / base, base);
      if n / base == 0 {
        assert 0 * base == 0;
        assert s == [n % base];
      }
    }
  }

  /** A numeral without leading zeros is the only one of its value. */
  lemma {:induction false} ToDigitsOfValue(s: seq<int>, base: int)
    requires base >= 2 && Proper(s, base)
    requires s == [] || s[0] != 0
    ensures Value(s, base) >= 0
    ensures s != [] ==> Value(s, base) > 0
    ensures ToDigits(Value(s, base), base) == s
  {
    if s != [] {
      var pre, last := s[..|s| - 1], s[|s| - 1];
      ToDigitsOfValue(pre, base);
      var v := Value(pre, base);
      if pre == [] {
        assert s == [last] && v == 0;
        assert v * base == 0;
      } else {
        MulMonotonic(1, v, base);
      }
      DivMod(v, last, base);
      assert s == pre + [last];
    }
  }

  lemma {:induction false} ValueAppend(s: seq<int>, t: seq<int>, base: nat)
    ensures Value(s + t, base) == Value(s, base) * Pow(base, |t|) + Value(t, base)
  {
    if t == [] {
      assert s + t == s;
    } else {
      var pre, last := t[..|t| - 1], t[|t| - 1];
      assert (s + t)[..|s + t| - 1] == s + pre;
      ValueAppend(s, pre, base);
      PowStep(base, |t|);
      ShiftedDigits(Value(s, base), Pow(base, |pre|), Value(pre, base), last, base);
    }
  }

  lemma ShiftedDigits(a: int, p: int, b: int, last: int, base: int)
    ensures (a * p + b) * base + last == a * (base * p) + (b * base + last)
  {
    assert a * p * base == a * (base * p);
  }

  lemma {:induction false} ValueOfZeros(n: nat, base: nat)
    ensures Value(Zeros(n), base) == 0
  {
    if n > 0 {
      assert Zeros(n)[..n - 1] == Zeros(n - 1);
      ValueOfZeros(n - 1, base);
    }
  }

  lemma {:induction false} ValueBound(s: seq<int>, base: nat)
    requires base >= 1 && Proper(s, base)
    ensures 0 <= Value(s, base) < Pow(base, |s|)
  {
    hide Value, Proper, Pow;
    NoDigits(base);
    PowStep(base, |s|);
    if s != [] {
      var pre := s[..|s| - 1];
      DigitsBefore(s, base);
      ValueBound(pre, base);
      DigitBelow(Value(pre, base), s[|s| - 1], Pow(base, |pre|), base);
    }
  }

  lemma DigitsBefore(s: seq<int>, base: int)
    requires s != [] && Proper(s, base)
    ensures Proper(s[..|s| - 1], base) && 0 <= s[|s| - 1] < base
    ensures Value(s, base) == Value(s[..|s| - 1], base) * base + s[|s| - 1]
  {
  }

  lemma DigitBelow(v: int, d: int, p: int, base: int)
    requires 0 <= v < p && 0 <= d < base
    ensures 0 <= v * base + d < base * p
  {
    MulMonotonic(v + 1, p, base);
    MulMonotonic(0, v, base);
    assert (v + 1) * base == v * base + base;
  }

  lemma {:induction false} PowPositive(base: nat, exp: nat)
    requires base >= 1
    ensures Pow(base, exp) >= 1
  {
    if exp > 0 {
      PowPositive(base, exp - 1);
      assert base * Pow(base, exp - 1) >= 1 * 1;
    }
  }

  lemma {:induction false} PowAdd(base: nat, m: nat, n: nat)
    ensures Pow(base, m + n) == Pow(base, m) * Pow(base, n)
  {
    if m > 0 {
      PowAdd(base, m - 1, n);
      assert base * (Pow(base, m - 1) * Pow(base, n)) == (base * Pow(base, m - 1)) * Pow(base, n);
    }
  }

  lemma {:induction false} PowMonotonic(base: nat, m: nat, n: nat)
    requires base >= 1 && m <= n
    ensures Pow(base, m) <= Pow(base, n)
    decreases n - m
  {
    if m < n {
      PowMonotonic(base, m, n - 1);
      PowPositive(base, n - 1);
      assert base * Pow(base, n - 1) >= Pow(base, n - 1);
    }
  }

  /** The `k` low digits of n, leading zeros included. */
  function Fixed(n: nat, base: int, k: nat): (s: seq<int>)
    requires base >= 2
    ensures |s| == k
  {
    if k == 0 then [] else (QuotientShrinks(n, base); Fixed(n / base, base, k - 1) + [n % base])
  }

  lemma {:induction false} FixedOfValue(s: seq<int>, base: nat)
    requires base >= 2 && Proper(s, base)
    ensures Value(s, base) >= 0
    ensures Fixed(Value(s, base), base, |s|) == s
  {
    ValueBound(s, base);
    if s != [] {
      var pre, last := s[..|s| - 1], s[|s| - 1];
      ValueBound(pre, base);
      FixedOfValue(pre, base);
      DivMod(Value(pre, base), last, base);
    }
  }

  lemma QuotientBelow(n: nat, base: nat, p: nat)
    requires base >= 2 && n < base * p
    ensures 0 <= n / base < p
  {
    QuotientShrinks(n, base);
    DivisionIdentity(n, base);
    if n / base >= p {
      MulMonotonic(p, n / base, base);
    }
  }

  lemma {:induction false} ValueOfFixed(n: nat, base: nat, k: nat)
    requires base >= 2 && n < Pow(base, k)
    ensures Proper(Fixed(n, base, k), base)
    ensures Value(Fixed(n, base, k), base) == n
  {
    hide Fixed, Value, Proper, Pow;
    FixedStep(n, base, k);
    PowStep(base, k);
    if k > 0 {
      var q := n / base;
      QuotientBelow(n, base, Pow(base, k - 1));
      ValueOfFixed(q, base, k - 1);
      DivisionIdentity(n, base);
      OneMoreDigit(Fixed(q, base, k - 1), n % base, base);
    }
  }

  lemma FixedStep(n: nat, base: nat, k: nat)
    requires base >= 2
    ensures n / base >= 0
    ensures k > 0 ==> Fixed(n, base, k) == Fixed(n / base, base, k - 1) + [n % base]
    ensures k == 0 ==> Fixed(n, base, k) == [] && Proper([], base) && Value([], base) == 0
  {
    hide Value, Proper;
    QuotientShrinks(n, base);
    NoDigits(base);
  }

  lemma PowStep(base: nat, k: nat)
    ensures Pow(base, k) == if k == 0 then 1 else base * Pow(base, k - 1)
  {
  }

  lemma OneDigit(d: int, base: int)
    ensures Value([d], base) == d
  {
    assert [d][..0] == [];
  }

  lemma NoDigits(base: int)
    ensures Proper([], base) && Value([], base) == 0
  {
  }

  lemma OneMoreDigit(s: seq<int>, d: int, base: int)
    requires Proper(s, base) && 0 <= d < base
    ensures Proper(s + [d], base) && Value(s + [d], base) == Value(s, base) * base + d
  {
    assert (s + [d])[..|s|] == s;
  }
}
