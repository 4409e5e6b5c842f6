/** The modular inverse and power of the pi example. */
module ModArith {
  // ---------- congruence ----------

  ghost predicate Cong(a: int, b: int, m: int) { exists k: int :: a - b == k * m }

  lemma CongBy(a: int, b: int, m: int, k: int)
    requires a - b == k * m
    ensures Cong(a, b, m)
  {}

  lemma CongTrans(a: int, b: int, c: int, m: int)
    requires Cong(a, b, m) && Cong(b, c, m)
    ensures Cong(a, c, m)
  {
    var j: int :| a - b == j * m;
    var k: int :| b - c == k * m;
    CongBy(a, c, m, j + k);
  }

  lemma CongSym(a: int, b: int, m: int)
    requires Cong(a, b, m)
    ensures Cong(b, a, m)
  {
    var j: int :| a - b == j * m;
    CongBy(b, a, m, -j);
  }

  lemma CongMul(a: int, b: int, x: int, m: int)
    requires Cong(a, b, m)
    ensures Cong(a * x, b * x, m) && Cong(x * a, x * b, m)
  {
    var j: int :| a - b == j * m;
    assert a * x - b * x == (a - b) * x == (j * m) * x == (j * x) * m;
    CongBy(a * x, b * x, m, j * x);
  }

  /** Congruent numbers below the modulus are equal. */
  lemma CongSmall(a: int, b: int, m: int)
    requires Cong(a, b, m) && 0 <= a < m && 0 <= b < m
    ensures a == b
  {
    var k: int :| a - b == k * m;
    if k >= 1 { Bigger(k, m); }
    if k <= -1 { Bigger(-k, m); }
  }

  lemma Bigger(k: int, m: int)
    requires k >= 1 && m > 0
    ensures k * m >= m
  {
    assert k * m == (k - 1) * m + m;
  }

  lemma ModCong(a: int, m: int)
    requires m > 0
    ensures Cong(a % m, a, m)
  {
    assert a == (a / m) * m + a % m;
    CongBy(a % m, a, m, -(a / m));
  }

  // ---------- inverse ----------

  function Gcd(a: nat, b: nat): nat
    decreases a
  {
    if a == 0 then b else Gcd(b % a, a)
  }

  // ---------- the greatest common divisor ----------

  ghost predicate Divides(d: int, n: int) { exists k: int :: n == k * d }

  lemma DividesBy(d: int, n: int, k: int)
    requires n == k * d
    ensures Divides(d, n)
  {}

  lemma DividesSum(d: int, m: int, n: int, q: int)
    requires Divides(d, m) && Divides(d, n)
    ensures Divides(d, m + q * n)
  {
    var j: int :| m == j * d;
    var k: int :| n == k * d;
    assert q * n == (q * k) * d;
    assert (j + q * k) * d == j * d + (q * k) * d;
    DividesBy(d, m + q * n, j + q * k);
  }

  /** The divisors of `Gcd(a, b)` are exactly the common divisors of `a` and `b`. */
  lemma {:induction false} GcdDivisors(a: nat, b: nat, d: int)
    ensures Divides(d, Gcd(a, b)) <==> Divides(d, a) && Divides(d, b)
    decreases a
  {
    hide Divides;
    if a == 0 {
      DividesBy(d, 0, 0);
    } else {
      GcdDivisors(b % a, a, d);
      var q := b / a;
      assert b == b % a + q * a && b % a == b + -q * a;
      hide Gcd;
      if Divides(d, a) && Divides(d, b % a) { DividesSum(d, b % a, a, q); }
      if Divides(d, a) && Divides(d, b) { DividesSum(d, b, a, -q); }
    }
  }

  lemma {:induction false} Combination(a: nat, b: nat) returns (s: int, t: int)
    ensures s * a + t * b == Gcd(a, b)
    decreases a
  {
    if a == 0 {
      s, t := 0, 1;
    } else {
      var u, v := Combination(b % a, a);
      s, t := v - u * (b / a), u;
      assert Gcd(a, b) == u * (b % a) + v * a;
      hide Gcd;
      Regroup(u, v, a, b / a, b % a);
      assert b == b / a * a + b % a;
    }
  }

  lemma Regroup(u: int, v: int, a: int, q: int, r: int)
    ensures (v - u * q) * a + u * (q * a + r) == u * r + v * a
  {
    assert (v - u * q) * a == v * a - (u * q) * a;
    assert u * (q * a + r) == u * (q * a) + u * r;
    assert (u * q) * a == u * (q * a);
  }

  lemma UnitDivisor(g: nat, m: int)
    requires 1 == m * g
    ensures g == 1
  {
    if g >= 2 {
      if m >= 1 { Bigger(m, g); } else { NotBelow(m, g); }
    }
  }

  /** A number has an inverse modulo `y` exactly when it is prime to `y`. */
  lemma InverseExistsIff(x: int, y: int)
    requires 0 < x < y
    ensures Gcd(x, y) == 1 <==> exists r :: Inverse(x, y, r)
  {
    hide Gcd, Cong;
    if Gcd(x, y) == 1 {
      var s, t := Combination(x, y);
      CongBy(s * x, 1, y, -t);
      ModCong(s, y);
      CongMul(s % y, s, x, y);
      CongTrans((s % y) * x, s * x, 1, y);
      assert Inverse(x, y, s % y);
    }
    if r :| Inverse(x, y, r) { DivisorIsUnit(x, y, r); }
  }

  lemma DivisorIsUnit(x: int, y: int, r: int)
    requires 0 < x < y && Cong(r * x, 1, y)
    ensures Gcd(x, y) == 1
  {
    hide Gcd;
    var g := Gcd(x, y);
    var k: int :| r * x - 1 == k * y;
    DividesBy(g, g, 1);
    GcdDivisors(x, y, g);
    DividesBy(g, 0, 0);
    hide Divides;
    DividesSum(g, 0, x, r);
    DividesSum(g, 0 + r * x, y, -k);
    assert 0 + r * x + -k * y == 1;
    UnitQuotient(g);
  }

  lemma UnitQuotient(g: nat)
    requires Divides(g, 1)
    ensures g == 1
  {
    var m: int :| 1 == m * g;
    UnitDivisor(g, m);
  }

  function Abs(x: int): nat { if x < 0 then -x else x }

  /** C's remainder takes the sign of the dividend. */
  function Rem(a: int, m: int): int
    requires m > 0
  {
    if a >= 0 then a % m else -(-a % m)
  }

  /** What the loop keeps: the coefficients of `x` for both remainders, of opposite signs, and the sum that bounds
      them by `y`. */
  ghost predicate Euclid(x: int, y: int, u: int, v: int, c: int, a: int) {
    && 0 < x < y && 0 <= u < v <= y && Gcd(u, v) == Gcd(x, y)
    && Cong(c * x, u, y) && Cong(a * x, v, y)
    && (a <= 0 <= c || c <= 0 <= a)
    && Abs(a) * u + Abs(c) * v == y
  }

  lemma Division(v: int, u: int)
    requires 0 < u < v
    ensures v / u >= 1 && v / u * u <= v && v - v / u * u == v % u && 0 <= v % u < u
  {
    assert v == v / u * u + v % u;
    if v / u <= 0 { NotBelow(v / u, u); }
  }

  lemma NotBelow(q: int, u: int)
    requires q <= 0 && u > 0
    ensures q * u <= 0
  {}

  lemma Start(x: int, y: int)
    requires 0 < x < y
    ensures Euclid(x, y, x, y, 1, 0)
  {
    CongBy(1 * x, x, y, 0);
    CongBy(0 * x, y, y, -1);
  }

  /** Coefficients and products stay within `y`. */
  lemma Bounds(x: int, y: int, u: int, v: int, c: int, a: int)
    requires Euclid(x, y, u, v, c, a)
    ensures Abs(c) <= y
  {
    hide Cong, Gcd;
    if Abs(c) > 0 { Product(Abs(c), v, Abs(a), u); }
  }

  lemma Product(c: nat, v: nat, a: nat, u: nat)
    requires v >= 1
    ensures c <= a * u + c * v
  {
    assert c * v == c + c * (v - 1);
    assert a * u >= 0 && c * (v - 1) >= 0;
  }

  lemma Combined(x: int, y: int, u: int, v: int, c: int, a: int, q: int)
    requires Cong(c * x, u, y) && Cong(a * x, v, y)
    ensures Cong((a - q * c) * x, v - q * u, y)
  {
    var j: int :| c * x - u == j * y;
    var k: int :| a * x - v == k * y;
    assert (a - q * c) * x == a * x - q * (c * x);
    assert q * (c * x) - q * u == q * (j * y) == (q * j) * y;
    assert (k - q * j) * y == k * y - (q * j) * y;
    CongBy((a - q * c) * x, v - q * u, y, k - q * j);
  }

  lemma Sum(A: nat, C: nat, u: int, v: int, q: nat)
    ensures C * (v - q * u) + (A + q * C) * u == A * u + C * v
  {
    assert C * (v - q * u) == C * v - C * (q * u);
    assert (A + q * C) * u == A * u + (q * C) * u;
    assert (q * C) * u == C * (q * u);
  }

  lemma SignStep(c: int, a: int, q: nat)
    requires a <= 0 <= c || c <= 0 <= a
    ensures var n := a - q * c; (c <= 0 <= n || n <= 0 <= c) && Abs(n) == Abs(a) + q * Abs(c) && Abs(q * c) == q * Abs(c)
  {
    if c >= 0 { assert q * c >= 0; } else { assert q * -c >= 0 && q * -c == -(q * c); }
  }

  /** One step of the loop: Euclid's step on the remainders, and every intermediate value within `y`. */
  lemma EuclidStep(x: int, y: int, u: int, v: int, c: int, a: int)
    requires Euclid(x, y, u, v, c, a) && u > 0
    ensures var q := v / u;
            && Euclid(x, y, v - q * u, u, a - q * c, c)
            && 0 <= q <= y && 0 <= q * u <= y && Abs(q * c) <= y && Abs(a - q * c) <= y
  {
    hide Cong;
    var q := v / u;
    Division(v, u);
    assert Gcd(v % u, u) == Gcd(u, v);
    Combined(x, y, u, v, c, a, q);
    SignStep(c, a, q);
    Sum(Abs(a), Abs(c), u, v, q);
    hide Gcd;
    Bounds(x, y, v - q * u, u, a - q * c, c);
    Quotient(q, u, v);
  }

  lemma Quotient(q: int, u: int, v: int)
    requires q >= 0 && u >= 1 && q * u <= v
    ensures q <= v
  {
    assert q * u == q + q * (u - 1);
    assert q * (u - 1) >= 0;
  }

  ghost predicate Inverse(x: int, y: int, r: int) { 0 <= r < y && Cong(r * x, 1, y) }

  /** At most one number below `y` is inverse to `x`. */
  lemma InverseUnique(x: int, y: int, r: int, s: int)
    requires Inverse(x, y, r) && Inverse(x, y, s)
    ensures r == s
  {
    hide Cong;
    CongMul(r * x, 1, s, y);
    CongMul(s * x, 1, r, y);
    assert (r * x) * s == (s * x) * r;
    CongSym((s * x) * r, 1 * r, y);
    CongTrans(1 * r, (r * x) * s, 1 * s, y);
    CongSmall(r, s, y);
  }

  lemma Reduced(a: int, x: int, y: int)
    requires y > 1 && Cong(a * x, 1, y)
    ensures var r := Rem(a, y); Inverse(x, y, if r < 0 then y + r else r)
  {
    var r := Rem(a, y);
    var b := if r < 0 then y + r else r;
    RemIs(a, y);
    ModCong(a, y);
    CongMul(b, a, x, y);
    CongTrans(b * x, a * x, 1, y);
  }

  lemma RemIs(a: int, y: int)
    requires y > 0
    ensures var r := Rem(a, y); (if r < 0 then y + r else r) == a % y
  {
    if a < 0 { NegMod(-a, y); }
  }

  lemma NegMod(b: int, y: int)
    requires y > 0 && b >= 0
    ensures -b % y == if b % y == 0 then 0 else y - b % y
  {
    var q, r := b / y, b % y;
    assert b == q * y + r;
    var k := if r == 0 then -q else -q - 1;
    var s := if r == 0 then 0 else y - r;
    assert -b == k * y + s;
    ModCong(-b, y);
    CongBy(s, -b, y, -k);
    CongSym(s, -b, y);
    CongTrans(-b % y, -b, s, y);
    CongSmall(-b % y, s, y);
  }

  /** `inv_mod`: the unique inverse of a number prime to the modulus; no intermediate value exceeds `y` in
      magnitude. */
  method InvMod(x: int, y: int) returns (r: int)
    requires 0 < x < y && Gcd(x, y) == 1
    ensures Inverse(x, y, r) && forall s :: Inverse(x, y, s) ==> s == r
  {
    hide Cong, Gcd, Euclid;
    var u, v, c, a := x, y, 1, 0;
    Start(x, y);
    var more := true;
    while more
      invariant Euclid(x, y, u, v, c, a) && (more <==> u != 0)
      decreases u
    {
      EuclidPositive(x, y, u, v, c, a);
      EuclidStep(x, y, u, v, c, a);
      var q := v / u;
      assert Abs(q) <= y && Abs(q * u) <= y && Abs(q * c) <= y && Abs(a - q * c) <= y;
      var t := c;
      c := a - q * c;
      a := t;
      t := u;
      u := v - q * u;
      v := t;
      EuclidPositive(x, y, u, v, c, a);
      more := u != 0;
    }
    Finished(x, y, v, c, a);
    Reduced(a, x, y);
    a := Rem(a, y);
    if a < 0 { a := y + a; }
    r := a;
    forall s | Inverse(x, y, s)
      ensures s == r
    {
      InverseUnique(x, y, s, r);
    }
  }

  lemma EuclidPositive(x: int, y: int, u: int, v: int, c: int, a: int)
    requires Euclid(x, y, u, v, c, a)
    ensures 0 <= u < v <= y && (u > 0 ==> 0 <= v - v / u * u < u)
  {
    hide Cong, Gcd;
    if u > 0 { Division(v, u); }
  }

  lemma Finished(x: int, y: int, v: int, c: int, a: int)
    requires Euclid(x, y, 0, v, c, a) && Gcd(x, y) == 1
    ensures Cong(a * x, 1, y)
  {
    hide Cong;
    assert Gcd(0, v) == v;
  }

  // ---------- power ----------

  function Pow(a: int, b: nat): int {
    if b == 0 then 1 else a * Pow(a, b - 1)
  }

  lemma {:induction false} PowSquare(a: int, n: nat)
    ensures Pow(a * a, n) == Pow(a, 2 * n)
  {
    if n > 0 {
      PowSquare(a, n - 1);
      assert Pow(a, 2 * n) == a * Pow(a, 2 * n - 1);
      assert Pow(a, 2 * n - 1) == a * Pow(a, 2 * n - 2);
      hide Pow;
      Assoc(a, Pow(a, 2 * n - 2));
    }
  }

  lemma Assoc(a: int, p: int)
    ensures a * (a * p) == (a * a) * p
  {}

  lemma PowNext(a: int, b: nat)
    requires b > 0
    ensures Pow(a, b) == a * Pow(a, b - 1)
  {}

  /** Halving the exponent: its last bit takes one factor out, the rest squares the base. */
  lemma PowHalve(a: int, b: nat)
    ensures Pow(a, b) == if b % 2 == 1 then a * Pow(a * a, b / 2) else Pow(a * a, b / 2)
  {
    PowSquare(a, b / 2);
    if b % 2 == 1 { PowNext(a, b); }
    assert 2 * (b / 2) == if b % 2 == 1 then b - 1 else b;
  }

  lemma Shift(r: int, a: int, p: int)
    ensures r * (a * p) == (r * a) * p
  {}

  lemma {:induction false} PowCong(a: int, c: int, n: nat, m: int)
    requires Cong(a, c, m)
    ensures Cong(Pow(a, n), Pow(c, n), m)
  {
    hide Cong;
    if n == 0 {
      CongBy(1, 1, m, 0);
    } else {
      PowCong(a, c, n - 1, m);
      CongMul(Pow(a, n - 1), Pow(c, n - 1), a, m);
      CongMul(a, c, Pow(c, n - 1), m);
      CongTrans(a * Pow(a, n - 1), a * Pow(c, n - 1), c * Pow(c, n - 1), m);
    }
  }

  function MulMod(a: nat, b: nat, m: nat): (r: nat)
    requires m > 0
    ensures r < m
  {
    (a * b) % m
  }

  /** One round: taking the remainders of the two products keeps the value modulo `m`. */
  lemma PowRound(r: nat, aa: nat, b: nat, m: nat, goal: int)
    requires m > 1 && Cong(r * Pow(aa, b), goal, m)
    ensures var r2 := if b % 2 == 1 then MulMod(r, aa, m) else r;
            Cong(r2 * Pow(MulMod(aa, aa, m), b / 2), goal, m)
  {
    var r1, n := if b % 2 == 1 then r * aa else r, b / 2;
    var r2, sq := if b % 2 == 1 then MulMod(r, aa, m) else r, MulMod(aa, aa, m);
    PowHalve(aa, b);
    Shift(r, aa, Pow(aa * aa, n));
    ModCong(aa * aa, m);
    if b % 2 == 1 { ModCong(r1, m); } else { CongBy(r2, r1, m, 0); }
    hide Cong, MulMod, Pow;
    PowCong(sq, aa * aa, n, m);
    CongMul(Pow(sq, n), Pow(aa * aa, n), r2, m);
    CongMul(r2, r1, Pow(aa * aa, n), m);
    CongTrans(r2 * Pow(sq, n), r2 * Pow(aa * aa, n), r1 * Pow(aa * aa, n), m);
    CongTrans(r2 * Pow(sq, n), r1 * Pow(aa * aa, n), goal, m);
  }

  /** `pow_mod`: a power modulo `m`; every value stays below `m`, every product below its square. */
  method PowMod(a: nat, b0: nat, m: nat) returns (r: nat)
    requires m > 1 && a < m
    ensures r == Pow(a, b0) % m
  {
    hide Cong, Pow, MulMod;
    r := 1;
    var aa: nat, b: nat := a, b0;
    ghost var goal := Pow(a, b0);
    CongBy(1 * Pow(a, b0), goal, m, 0);
    while true
      invariant r < m && aa < m && Cong(r * Pow(aa, b), goal, m)
      decreases b
    {
      PowRound(r, aa, b, m, goal);
      if b % 2 == 1 { r := MulMod(r, aa, m); }
      b := b / 2;
      ghost var sq := MulMod(aa, aa, m);
      if b == 0 {
        PowNone(sq);
        ModCong(goal, m);
        CongSym(goal % m, goal, m);
        CongTrans(r, goal, goal % m, m);
        CongSmall(r, goal % m, m);
        break;
      }
      aa := MulMod(aa, aa, m);
    }
  }

  lemma PowNone(a: int)
    ensures Pow(a, 0) == 1
  {}
}
