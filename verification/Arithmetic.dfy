/** Facts about multiplication, division and remainder that the solver needs spelled out. */
module Arithmetic {

  function Min(a: nat, b: nat): nat {
    if a < b then a else b
  }

  function Max(a: nat, b: nat): nat {
    if a < b then b else a
  }

  lemma MulMono(a: int, b: int, c: nat)
    requires a <= b
    ensures a * c <= b * c
  {
    MulSign(b - a, c);
    assert (b - a) * c == b * c - a * c;
  }

  lemma MulStrict(a: int, b: int, c: nat)
    requires a < b
    ensures a * c + c <= b * c
  {
    MulMono(a + 1, b, c);
    assert (a + 1) * c == a * c + c;
  }

  lemma MulSign(a: nat, c: nat)
    ensures 0 <= a * c
  {}

  lemma CubeMono(a: nat, b: nat)
    requires a <= b
    ensures a * a <= b * b && a * a * a <= b * b * b
  {
    MulMono(a, b, a);
    MulMono(a, b, b);
    assert a * a <= a * b <= b * b;
    MulMono(a * a, b * b, a);
    MulMono(a, b, b * b);
    assert a * (b * b) == (b * b) * a && b * (b * b) == b * b * b;
  }

  /** Quotient and remainder are determined by the division equation. */
  lemma DivModUnique(p: int, b: nat, q: int, r: int)
    requires b > 0 && p == q * b + r && 0 <= r < b
    ensures p / b == q && p % b == r
  {
    var q', r' := p / b, p % b;
    DivModLaw(p, b);
    SameQuotient(b, q, r, q', r');
  }

  lemma DivModLaw(p: int, b: nat)
    requires b > 0
    ensures p == (p / b) * b + p % b && 0 <= p % b < b
  {}

  lemma SameQuotient(b: nat, q: int, r: int, q': int, r': int)
    requires q * b + r == q' * b + r' && 0 <= r < b && 0 <= r' < b
    ensures q == q' && r == r'
  {
    if q < q' {
      MulStrict(q, q', b);
    } else if q' < q {
      MulStrict(q', q, b);
    }
  }

  // Quotient, remainder and product as recursive functions.  They are the usual
  // operations (see the three lemmas below); written this way, a proof uses only
  // the laws it asks for instead of non-linear arithmetic.

  function Quot(i: nat, b: nat): nat
    requires b > 0
  {
    if i < b then 0 else 1 + Quot(i - b, b)
  }

  function Rem(i: nat, b: nat): (r: nat)
    requires b > 0
    ensures r < b
  {
    if i < b then i else Rem(i - b, b)
  }

  function Times(a: nat, b: nat): nat {
    if a == 0 then 0 else Times(a - 1, b) + b
  }

  lemma {:induction false} TimesIsMul(a: nat, b: nat)
    ensures Times(a, b) == a * b
  {
    if a > 0 {
      TimesIsMul(a - 1, b);
      assert a * b == (a - 1) * b + b;
    }
  }

  lemma {:induction false} QuotIsDiv(i: nat, b: nat)
    requires b > 0
    ensures Quot(i, b) == i / b && Rem(i, b) == i % b
  {
    if i < b {
      DivModUnique(i, b, 0, i);
    } else {
      QuotIsDiv(i - b, b);
      DivModLaw(i - b, b);
      assert ((i - b) / b + 1) * b == (i - b) / b * b + b;
      DivModUnique(i, b, (i - b) / b + 1, (i - b) % b);
    }
  }

  lemma QuotRem(i: nat, b: nat)
    requires b > 0
    ensures i == Quot(i, b) * b + Rem(i, b) && Rem(i, b) < b
  {
    QuotIsDiv(i, b);
    DivModLaw(i, b);
  }

  lemma QuotRemUnique(i: nat, b: nat, q: nat, r: nat)
    requires b > 0 && i == q * b + r && r < b
    ensures Quot(i, b) == q && Rem(i, b) == r
  {
    QuotIsDiv(i, b);
    DivModUnique(i, b, q, r);
  }

  lemma {:induction false} QuotAtMost(i: nat, b: nat)
    requires b > 0
    ensures Quot(i, b) <= i
  {
    if i >= b {
      QuotAtMost(i - b, b);
    }
  }

  lemma QuotLess(i: nat, a: nat, b: nat)
    requires b > 0
    ensures Quot(i, b) < a <==> i < a * b
  {
    QuotRem(i, b);
    if Quot(i, b) >= a {
      MulMono(a, Quot(i, b), b);
    } else {
      MulStrict(Quot(i, b), a, b);
    }
  }

  /** Two numbers with the same quotient and remainder are equal. */
  lemma QuotRemInjective(i: nat, j: nat, b: nat)
    requires b > 0 && Quot(i, b) == Quot(j, b) && Rem(i, b) == Rem(j, b)
    ensures i == j
  {
    QuotRem(i, b);
    QuotRem(j, b);
  }

  // ----- sizes, stated through quotients ---------------------------------

  /** a * b, as the bound below which quotients by b are less than a. */
  function Below(a: nat, b: nat): (n: nat)
    requires a > 0 && b > 0
    ensures n == a * b && n > 0 && forall i: nat :: Quot(i, b) < a <==> i < n
  {
    MulMono(1, a, b);
    assert forall i: nat :: Quot(i, b) < a <==> i < a * b by {
      forall i: nat ensures Quot(i, b) < a <==> i < a * b {
        QuotLess(i, a, b);
      }
    }
    a * b
  }

  /** How many parts of size `part` fit into `whole`. */
  function FittingIn(whole: nat, part: nat): (n: nat)
    requires 0 < part <= whole
    ensures n == whole / part && n >= 1 && forall j: nat :: Times(j, part) + part <= whole <==> j < n
  {
    var n := whole / part;
    DivModLaw(whole, part);
    assert forall j: nat :: Times(j, part) + part <= whole <==> j < n by {
      forall j: nat ensures Times(j, part) + part <= whole <==> j < n {
        TimesIsMul(j, part);
        if j < n {
          MulStrict(j, n, part);
        } else {
          MulMono(n, j, part);
        }
      }
    }
    n
  }

  /** The ceiling of count / per: blocks needed for `count` items, `per` in a block. */
  function BlocksFor(count: nat, per: nat): (n: nat)
    requires count > 0 && per > 0
    ensures 1 <= n <= count && (n - 1) * per < count <= n * per
    ensures forall i: nat :: i < count ==> Quot(i, per) < n
    ensures exists i: nat :: i < count && Quot(i, per) == n - 1
  {
    var n := Quot(count - 1, per) + 1;
    QuotRem(count - 1, per);
    QuotAtMost(count - 1, per);
    assert n * per == (n - 1) * per + per;
    assert forall i: nat :: i < count ==> Quot(i, per) < n by {
      forall i: nat | i < count ensures Quot(i, per) < n {
        QuotLess(i, n, per);
      }
    }
    n
  }
}
