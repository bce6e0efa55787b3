/** Division by repeated subtraction, and its agreement with `/`, `%` and `*`. */
module Division {
  import opened Bytes

  function Times(a: nat, n: nat): nat {
    if n == 0 then 0 else Times(a, n - 1) + a
  }

  function Quot(b: nat, d: nat): nat
    requires d > 0
  {
    if b < d then 0 else Quot(b - d, d) + 1
  }

  function Rem(b: nat, d: nat): (r: nat)
    requires d > 0
    ensures r < d
  {
    if b < d then b else Rem(b - d, d)
  }

  lemma {:induction false} QuotRem(b: nat, d: nat)
    requires d > 0
    ensures b == Times(d, Quot(b, d)) + Rem(b, d)
  {
    if b >= d {
      QuotRem(b - d, d);
    }
  }

  lemma {:induction false} QuotRemUnique(b: nat, d: nat, q: nat, r: nat)
    requires r < d && b == Times(d, q) + r
    ensures Quot(b, d) == q && Rem(b, d) == r
    decreases q
  {
    if q == 0 {
    } else {
      QuotRemUnique(b - d, d, q - 1, r);
    }
  }

  lemma {:induction false} TimesIsProduct(a: nat, n: nat)
    ensures Times(a, n) == a * n
  {
    if n == 0 {
    } else {
      TimesIsProduct(a, n - 1);
      assert a * n == a * (n - 1) + a;
    }
  }

  lemma TimesCommutes(a: nat, b: nat)
    ensures Times(a, b) == Times(b, a)
  {
    TimesIsProduct(a, b);
    TimesIsProduct(b, a);
  }

  lemma {:induction false} TimesAssociates(a: nat, b: nat, c: nat)
    ensures Times(Times(a, b), c) == Times(a, Times(b, c))
  {
    if c == 0 {
    } else {
      TimesAssociates(a, b, c - 1);
      TimesAdds(a, Times(b, c - 1), b);
    }
  }

  lemma QuotRemIsDivMod(b: nat, d: nat)
    requires d > 0
    ensures Quot(b, d) == b / d && Rem(b, d) == b % d
  {
    QuotRem(b, d);
    TimesIsProduct(d, Quot(b, d));
    DivModUnique(b, d, Quot(b, d), Rem(b, d));
  }

  lemma {:induction false} QuotMonotone(a: nat, b: nat, d: nat)
    requires d > 0 && a <= b
    ensures Quot(a, d) <= Quot(b, d)
    decreases b
  {
    if a >= d {
      QuotMonotone(a - d, b - d, d);
    }
  }

  lemma {:induction false} TimesAdds(a: nat, m: nat, n: nat)
    ensures Times(a, m + n) == Times(a, m) + Times(a, n)
  {
    if n == 0 {
    } else {
      TimesAdds(a, m, n - 1);
    }
  }

  /** Comparison with a whole number of units looks at the quotient only. */
  lemma Below(d: nat, q: nat, r: nat, n: nat)
    requires r < d
    ensures Times(d, q) + r < Times(d, n) <==> q < n
  {
    if q < n {
      TimesAdds(d, q + 1, n - q - 1);
    } else {
      TimesAdds(d, n, q - n);
    }
  }

  // ----- Multiples -----

  lemma {:induction false} WholeAdds(x: nat, y: nat, b: nat)
    requires b > 0 && Whole(x, b) && Whole(y, b)
    ensures Whole(x + y, b)
    decreases y
  {
    if y == 0 {
    } else {
      WholeAdds(x, y - b, b);
    }
  }

  lemma {:induction false} WholeSubtracts(x: nat, y: nat, b: nat)
    requires b > 0 && Whole(x, b) && Whole(y, b) && y <= x
    ensures Whole(x - y, b)
    decreases y
  {
    if y == 0 {
    } else {
      WholeSubtracts(x - b, y - b, b);
    }
  }

  lemma {:induction false} WholeNoRem(x: nat, d: nat)
    requires d > 0 && Whole(x, d)
    ensures Rem(x, d) == 0
  {
    if x == 0 {
    } else {
      WholeNoRem(x - d, d);
    }
  }

  lemma {:induction false} TimesWhole(d: nat, n: nat)
    requires d > 0
    ensures Whole(Times(d, n), d)
  {
    if n == 0 {
    } else {
      TimesWhole(d, n - 1);
    }
  }

  lemma {:induction false} WholeTransitive(x: nat, y: nat, d: nat)
    requires d > 0 && y > 0 && Whole(x, y) && Whole(y, d)
    ensures Whole(x, d)
  {
    if x == 0 {
    } else {
      WholeTransitive(x - y, y, d);
      WholeAdds(x - y, y, d);
    }
  }

  /** Rounding down gives the largest multiple that is not above. */
  lemma RoundsDown(x: nat, d: nat)
    requires d > 0
    ensures Whole(x - Rem(x, d), d) && x - Rem(x, d) <= x < x - Rem(x, d) + d
  {
    QuotRem(x, d);
    TimesWhole(d, Quot(x, d));
  }
}
