/**
 Products by repeated addition, quotients and remainders by repeated subtraction.

 Specifications use these functions, so that unfolding one adds only linear facts;
 `TimesIsProduct` and `DivIsQuotient` connect them to the operators that code uses.
 */
module Arithmetic {

  function Times(a: nat, b: nat): nat {
    if a == 0 then 0 else b + Times(a - 1, b)
  }

  function Quotient(d: nat, n: nat): nat
    requires n > 0
  {
    if d < n then 0 else 1 + Quotient(d - n, n)
  }

  function Remainder(d: nat, n: nat): nat
    requires n > 0
  {
    if d < n then d else Remainder(d - n, n)
  }

  lemma MulMono(a: nat, x: int, y: int)
    requires x <= y
    ensures a * x <= a * y
  {
  }

  lemma Distribute(a: int, x: int, y: int)
    ensures a * (x + y) == a * x + a * y
  {
  }

  lemma {:induction false} TimesIsProduct(a: nat, b: nat)
    ensures Times(a, b) == a * b
  {
    if a > 0 {
      TimesIsProduct(a - 1, b);
      Distribute(b, a - 1, 1);
    }
  }

  lemma {:induction false} TimesAdds(a: nat, b: nat, c: nat)
    ensures Times(a + b, c) == Times(a, c) + Times(b, c)
  {
    if a > 0 {
      TimesAdds(a - 1, b, c);
    }
  }

  lemma {:induction false} TimesAssociates(a: nat, b: nat, c: nat)
    ensures Times(Times(a, b), c) == Times(a, Times(b, c))
  {
    if a > 0 {
      TimesAssociates(a - 1, b, c);
      TimesAdds(b, Times(a - 1, b), c);
    }
  }

  lemma TimesAtMost(a: nat, b: nat, a': nat, b': nat)
    requires a <= a' && b <= b'
    ensures Times(a, b) <= a' * b'
  {
    TimesIsProduct(a, b);
    MulMono(b, a, a');
    MulMono(a', b, b');
  }

  lemma TimesAtLeast(a: nat, b: nat, a': nat)
    requires a' <= a
    ensures a' * b <= Times(a, b)
  {
    TimesIsProduct(a, b);
    MulMono(b, a', a);
  }

  lemma {:induction false} QuotientSplits(d: nat, n: nat)
    requires n > 0
    ensures d == Times(Quotient(d, n), n) + Remainder(d, n)
    ensures Remainder(d, n) < n
    ensures Quotient(d, n) <= d && (n > 1 ==> 2 * Quotient(d, n) <= d)
  {
    if d >= n {
      QuotientSplits(d - n, n);
    }
  }

  lemma {:induction false} QuotientOfTimes(q: nat, n: nat, r: nat)
    requires r < n
    ensures Quotient(Times(q, n) + r, n) == q && Remainder(Times(q, n) + r, n) == r
  {
    if q > 0 {
      QuotientOfTimes(q - 1, n, r);
    }
  }

  lemma {:induction false} QuotientAtMost(d: nat, n: nat, c: nat)
    requires 0 < c <= n
    ensures c * Quotient(d, n) <= d
  {
    if d >= n {
      QuotientAtMost(d - n, n, c);
      Distribute(c, Quotient(d - n, n), 1);
    }
  }

  lemma {:induction false} DivIsQuotient(d: nat, n: nat)
    requires n > 0
    ensures d / n == Quotient(d, n) && d % n == Remainder(d, n)
  {
    if d >= n {
      DivIsQuotient(d - n, n);
      DivStep(d, n);
    } else {
      DivSmall(d, n);
    }
  }

  lemma DivMod(d: int, n: int)
    requires n > 0
    ensures d == n * (d / n) + d % n && 0 <= d % n < n
  {
  }

  lemma DivUnique(d: int, n: int, q: int, r: int)
    requires n > 0 && d == n * q + r && 0 <= r < n
    ensures d / n == q && d % n == r
  {
    DivMod(d, n);
    var q' := d / n;
    assert n * (q - q') == d % n - r;
    if q' < q { MulMono(n, 1, q - q'); }
    if q' > q { MulMono(n, q - q', -1); }
  }

  lemma DivStep(d: int, n: int)
    requires n > 0
    ensures d / n == (d - n) / n + 1 && d % n == (d - n) % n
  {
    DivMod(d - n, n);
    Distribute(n, (d - n) / n, 1);
    DivUnique(d, n, (d - n) / n + 1, (d - n) % n);
  }

  lemma DivSmall(d: int, n: int)
    requires 0 <= d < n
    ensures d / n == 0 && d % n == d
  {
    DivUnique(d, n, 0, d);
  }
}
