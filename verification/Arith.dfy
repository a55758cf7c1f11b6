/** The division facts behind byte splitting and indirect-block digits. */
module Arith {

  lemma {:induction false} MulGap(a: nat, b: nat, d: nat)
    requires a < b
    ensures a * d + d <= b * d
  {
    if a + 1 < b {
      MulGap(a, b - 1, d);
      assert b * d == (b - 1) * d + d;
    } else {
      assert b * d == a * d + d;
    }
  }

  /** Quotient and remainder are the only way to write v as q*d + r with r < d. */
  lemma DivModUnique(v: nat, d: nat, q: nat, r: nat)
    requires v == q * d + r && r < d
    ensures v / d == q && v % d == r
  {
    if q < v / d {
      MulGap(q, v / d, d);
    } else if v / d < q {
      MulGap(v / d, q, d);
    }
  }

  /** v modulo a*b is v's digit modulo a plus a times the next digit. */
  lemma SplitMod(v: nat, a: nat, b: nat)
    requires a > 0 && b > 0
    ensures a * b > 0 && v % (a * b) == v / a % b * a + v % a
    ensures v / (a * b) == v / a / b
  {
    var q, r := v / a, v % a;
    var p, s := q / b, q % b;
    MulGap(0, b, a);
    TwoDigits(q, p, s, r, a, b);
    DivModUnique(v, a * b, p, s * a + r);
  }

  lemma TwoDigits(q: nat, p: nat, s: nat, r: nat, a: nat, b: nat)
    requires q == p * b + s && s < b && r < a
    ensures q * a + r == p * (a * b) + (s * a + r) && s * a + r < a * b
  {
    SameTimes(q, p * b + s, a);
    Distribute(p, b, s, a);
    MulGap(s, b, a);
  }

  lemma SameTimes(x: nat, y: nat, a: nat)
    requires x == y
    ensures x * a == y * a
  {
  }

  lemma Distribute(p: nat, b: nat, s: nat, a: nat)
    ensures (p * b + s) * a == p * (a * b) + s * a
  {
    Assoc(p, b, a);
  }

  lemma Assoc(p: nat, b: nat, a: nat)
    ensures (p * b) * a == p * (b * a) == p * (a * b)
  {
  }

  function Min(a: nat, b: nat): nat { if a <= b then a else b }

  function Quotient(x: nat, n: nat): nat
    requires n > 0
  {
    x / n
  }

  /** Division, remainder and product that the solver only sees one step of. */
  function Div(x: nat, n: nat): nat
    requires n > 0
  {
    if x < n then 0 else Div(x - n, n) + 1
  }

  function Mod(x: nat, n: nat): (r: nat)
    requires n > 0
    ensures r < n
  {
    if x < n then x else Mod(x - n, n)
  }

  lemma {:induction false} DivModIs(x: nat, n: nat)
    requires n > 0
    ensures Div(x, n) == x / n && Mod(x, n) == x % n
  {
    if n <= x {
      DivModIs(x - n, n);
      DivModUnique(x, n, (x - n) / n + 1, (x - n) % n);
    } else {
      SmallMod(x, n);
      DivModUnique(x, n, 0, x);
    }
  }

  lemma {:induction false} DivModApart(x: nat, y: nat, n: nat)
    requires n > 0 && Div(x, n) == Div(y, n) && Mod(x, n) == Mod(y, n)
    ensures x == y
  {
    if n <= x && n <= y {
      DivModApart(x - n, y - n, n);
    }
  }

  function Times(a: nat, b: nat): nat {
    if a == 0 then 0 else Times(a - 1, b) + b
  }

  lemma {:induction false} TimesIs(a: nat, b: nat)
    ensures Times(a, b) == a * b
  {
    if a > 0 {
      TimesIs(a - 1, b);
      assert a * b == (a - 1) * b + b;
    }
  }

  lemma SmallMod(x: nat, n: nat)
    requires x < n
    ensures x % n == x
  {
  }

  function Pow(n: nat, k: nat): (p: nat)
    ensures n > 0 ==> p > 0
  {
    if k == 0 then 1 else n * Pow(n, k - 1)
  }

  /** Dropping the leading digits of x changes neither the digit above a nor the
      part below it. */
  lemma DigitOfMod(x: nat, a: nat, b: nat)
    requires a > 0 && b > 0
    ensures a * b > 0 && x % (a * b) / a == x / a % b && x % (a * b) % a == x % a
  {
    SplitMod(x, a, b);
    DivModUnique(x % (a * b), a, x / a % b, x % a);
  }

  lemma DivBound(x: nat, a: nat, b: nat)
    requires a > 0 && x < b * a
    ensures x / a < b
  {
    if b <= x / a {
      if b < x / a {
        MulGap(b, x / a, a);
      }
    }
  }

  lemma DivAtLeast(x: nat, a: nat, b: nat)
    requires a > 0 && b * a <= x
    ensures b <= x / a
  {
    if x / a < b {
      MulGap(x / a, b, a);
    }
  }
}
