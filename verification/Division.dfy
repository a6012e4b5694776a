/** Division of naturals by a divisor that is not a constant, by repeated subtraction, so
    that proofs about it are inductions. */
module Division {

  function Div(n: nat, p: nat): nat
    requires p >= 1
    decreases n
  {
    if n < p then 0 else 1 + Div(n - p, p)
  }

  function Mod(n: nat, p: nat): (r: nat)
    requires p >= 1
    ensures r < p
    decreases n
  {
    if n < p then n else Mod(n - p, p)
  }

  /** These are the quotient and the remainder. */
  lemma {:induction false} DivIsDivision(n: nat, p: nat)
    requires p >= 1
    ensures Div(n, p) == n / p && Mod(n, p) == n % p
    decreases n
  {
    if n < p {
      SmallDivision(n, p);
    } else {
      DivIsDivision(n - p, p);
      NextDivision(n - p, p);
    }
  }

  lemma {:induction false} MultiplesApart(q: nat, u: nat, p: nat)
    requires q < u
    ensures q * p + p <= u * p
  {
    if q + 1 < u {
      MultiplesApart(q, u - 1, p);
      assert u * p == (u - 1) * p + p;
    } else {
      assert u * p == q * p + p;
    }
  }

  /** A quotient and a remainder below the divisor are the only ones. */
  lemma OneDivision(q: nat, r: nat, u: nat, v: nat, p: nat)
    requires r < p && v < p && q * p + r == u * p + v
    ensures q == u && r == v
  {
    if q < u {
      MultiplesApart(q, u, p);
    } else if u < q {
      MultiplesApart(u, q, p);
    }
  }

  lemma SmallDivision(n: nat, p: nat)
    requires n < p
    ensures n / p == 0 && n % p == n
  {
  }

  lemma NextDivision(n: nat, p: nat)
    requires p >= 1
    ensures (n + p) / p == n / p + 1 && (n + p) % p == n % p
  {
    var q, r, u, v := n / p, n % p, (n + p) / p, (n + p) % p;
    assert n == q * p + r && n + p == u * p + v;
    assert (q + 1) * p == q * p + p;
    OneDivision(q + 1, r, u, v, p);
  }

  lemma {:induction false} SameParts(n: nat, m: nat, p: nat)
    requires p >= 1 && Div(n, p) == Div(m, p) && Mod(n, p) == Mod(m, p)
    ensures n == m
    decreases n
  {
    if n >= p && m >= p {
      SameParts(n - p, m - p, p);
    }
  }

  lemma {:induction false} DivGrows(n: nat, m: nat, p: nat)
    requires p >= 1 && n <= m
    ensures Div(n, p) <= Div(m, p) <= m
    decreases n, m
  {
    if n >= p {
      DivGrows(n - p, m - p, p);
    } else if m >= p {
      DivGrows(0, m - p, p);
    }
  }

  /** How many pieces of `p` hold `n`. */
  function Ceil(n: nat, p: nat): nat
    requires p >= 1
    decreases n
  {
    if n == 0 then 0 else if n <= p then 1 else 1 + Ceil(n - p, p)
  }

  lemma {:induction false} CeilIsDivision(n: nat, p: nat)
    requires p >= 1
    ensures Ceil(n, p) == (n + p - 1) / p
    decreases n
  {
    if n == 0 {
      SmallDivision(p - 1, p);
    } else if n <= p {
      SmallDivision(n - 1, p);
      NextDivision(n - 1, p);
    } else {
      CeilIsDivision(n - p, p);
      NextDivision(n - p + p - 1, p);
    }
  }
}
