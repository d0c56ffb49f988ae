/** Division of naturals and the few nonlinear facts the money arithmetic needs. */
module Arith {

  /** Floor division of naturals. */
  function Quot(n: nat, m: nat): nat
    requires m > 0
  {
    n / m
  }

  function Rem(n: nat, m: nat): (r: nat)
    requires m > 0
    ensures r < m
  {
    n % m
  }

  lemma {:induction false} Division(n: nat, m: nat)
    requires m > 0
    ensures Quot(n, m) * m + Rem(n, m) == n
    ensures Quot(n, m) * m <= n < Quot(n, m) * m + m
  {
  }

  lemma {:induction false} MulMono(a: int, b: int, m: nat)
    ensures a <= b ==> a * m <= b * m
  {
    if a <= b {
      assert b * m == a * m + (b - a) * m;
    }
  }

  // The lemmas below are proved on plain numbers first: `q * m <= n < q * m + m` says that q is the quotient.

  lemma {:induction false} Bracket(n: nat, m: nat, q: nat, k: int)
    requires q * m <= n < q * m + m
    ensures k * m <= n <==> k <= q
  {
    MulMono(k, q, m);
    MulMono(q + 1, k, m);
    assert (q + 1) * m == q * m + m;
  }

  /** Bounds on a quotient are bounds on the dividend. */
  lemma {:induction false} QuotBound(n: nat, m: nat, k: int)
    requires m > 0
    ensures k * m <= n <==> k <= Quot(n, m)
  {
    Division(n, m);
    Bracket(n, m, Quot(n, m), k);
  }

  lemma {:induction false} BracketUnique(n: nat, m: nat, p: nat, q: nat)
    requires p * m <= n < p * m + m && q * m <= n < q * m + m
    ensures p == q
  {
    Bracket(n, m, p, q);
    Bracket(n, m, q, p);
  }

  /** A quotient is the only number whose multiple brackets the dividend. */
  lemma {:induction false} QuotUnique(n: nat, m: nat, q: nat)
    requires m > 0 && q * m <= n < q * m + m
    ensures Quot(n, m) == q
  {
    Division(n, m);
    BracketUnique(n, m, Quot(n, m), q);
  }

  lemma {:induction false} QuotRem(q: nat, r: nat, m: nat)
    requires r < m
    ensures Quot(q * m + r, m) == q && Rem(q * m + r, m) == r
  {
    QuotUnique(q * m + r, m, q);
    Division(q * m + r, m);
  }

  lemma {:induction false} QuotMono(a: nat, b: nat, m: nat)
    requires m > 0 && a <= b
    ensures Quot(a, m) <= Quot(b, m)
  {
    Division(a, m);
    QuotBound(b, m, Quot(a, m));
  }

  /** Floors of parts never exceed the floor of the sum. */
  lemma {:induction false} QuotSuperadditive(a: nat, b: nat, m: nat)
    requires m > 0
    ensures Quot(a, m) + Quot(b, m) <= Quot(a + b, m)
  {
    Division(a, m);
    Division(b, m);
    var p, q := Quot(a, m), Quot(b, m);
    assert (p + q) * m == p * m + q * m;
    QuotBound(a + b, m, p + q);
  }

  /** If p is the quotient of n by a, and q that of p by b, then q is that of n by their product. */
  lemma {:induction false} BracketTwice(n: nat, a: nat, b: nat, p: nat, q: nat)
    requires p * a <= n < p * a + a && q * b <= p < q * b + b
    ensures q * (a * b) <= n < q * (a * b) + a * b
  {
    MulMono(q * b, p, a);
    MulMono(p + 1, q * b + b, a);
    assert (p + 1) * a == p * a + a;
    assert (q * b) * a == q * (a * b);
    assert (q * b + b) * a == (q * b) * a + b * a;
  }

  lemma {:induction false} ProductPositive(a: nat, b: nat)
    requires a > 0 && b > 0
    ensures a * b > 0
  {
  }

  /** Dividing twice is dividing by the product. */
  lemma {:induction false} QuotQuot(n: nat, a: nat, b: nat)
    requires a > 0 && b > 0
    ensures a * b > 0
    ensures Quot(Quot(n, a), b) == Quot(n, a * b)
  {
    ProductPositive(a, b);
    var p := Quot(n, a);
    var q := Quot(p, b);
    Division(n, a);
    Division(p, b);
    BracketTwice(n, a, b, p, q);
    QuotUnique(n, a * b, q);
  }

  lemma {:induction false} BracketScaled(n: nat, m: nat, k: nat, q: nat)
    requires k > 0 && q * m <= n < q * m + m
    ensures q * (m * k) <= n * k < q * (m * k) + m * k
  {
    MulMono(q * m, n, k);
    MulMono(n + 1, q * m + m, k);
    assert (n + 1) * k == n * k + k;
    assert (q * m) * k == q * (m * k);
    assert (q * m + m) * k == (q * m) * k + m * k;
  }

  /** A common factor cancels. */
  lemma {:induction false} QuotCancel(n: nat, m: nat, k: nat)
    requires m > 0 && k > 0
    ensures m * k > 0
    ensures Quot(n * k, m * k) == Quot(n, m)
  {
    ProductPositive(m, k);
    Division(n, m);
    BracketScaled(n, m, k, Quot(n, m));
    QuotUnique(n * k, m * k, Quot(n, m));
  }
}
