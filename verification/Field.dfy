/**
 Arithmetic in the field of integers modulo a prime, over integer representatives: congruence, Bezout
 coefficients, inverses and Euclid's lemma.
 */
module Field {

  ghost predicate Divides(p: int, x: int)
    requires p != 0
  {
    x % p == 0
  }

  lemma LargeMultiple(p: int, k: int)
    requires p > 0
    ensures k >= 1 ==> k * p >= p
    ensures k <= -1 ==> k * p <= -p
  {
  }

  lemma DividesIntro(p: int, k: int)
    requires p > 0
    ensures Divides(p, k * p) && (k * p) / p == k
  {
    var q, r := (k * p) / p, (k * p) % p;
    assert (k - q) * p == r;
    LargeMultiple(p, k - q);
  }

  lemma DividesElim(p: int, x: int) returns (k: int)
    requires p > 0 && Divides(p, x)
    ensures x == k * p
  {
    k := x / p;
  }

  ghost predicate Prime(p: int) {
    p >= 2 && forall d :: 1 < d < p ==> !Divides(d, p)
  }

  /** `a` and `b` stand for the same field element. */
  ghost predicate Cong(p: int, a: int, b: int)
    requires p > 0
  {
    Divides(p, a - b)
  }

  lemma CongIntro(p: int, a: int, b: int, k: int)
    requires p > 0 && a - b == k * p
    ensures Cong(p, a, b)
  {
    DividesIntro(p, k);
  }

  lemma CongElim(p: int, a: int, b: int) returns (k: int)
    requires p > 0 && Cong(p, a, b)
    ensures a - b == k * p
  {
    k := DividesElim(p, a - b);
  }

  lemma CongSame(p: int, a: int)
    requires p > 0
    ensures Cong(p, a, a)
  {
    CongIntro(p, a, a, 0);
  }

  lemma CongSwap(p: int, a: int, b: int)
    requires p > 0 && Cong(p, a, b)
    ensures Cong(p, b, a)
  {
    var k := CongElim(p, a, b);
    CongIntro(p, b, a, -k);
  }

  lemma CongTrans(p: int, a: int, b: int, c: int)
    requires p > 0 && Cong(p, a, b) && Cong(p, b, c)
    ensures Cong(p, a, c)
  {
    var k := CongElim(p, a, b);
    var l := CongElim(p, b, c);
    assert a - c == (k + l) * p;
    CongIntro(p, a, c, k + l);
  }

  lemma CongAdd(p: int, a: int, b: int, c: int, d: int)
    requires p > 0 && Cong(p, a, b) && Cong(p, c, d)
    ensures Cong(p, a + c, b + d)
  {
    var k := CongElim(p, a, b);
    var l := CongElim(p, c, d);
    assert a + c - (b + d) == (k + l) * p;
    CongIntro(p, a + c, b + d, k + l);
  }

  lemma CongMul(p: int, a: int, b: int, c: int, d: int)
    requires p > 0 && Cong(p, a, b) && Cong(p, c, d)
    ensures Cong(p, a * c, b * d)
  {
    var k := CongElim(p, a, b);
    var l := CongElim(p, c, d);
    assert a * c - b * d == (a - b) * c + b * (c - d);
    assert (a - b) * c == (k * c) * p && b * (c - d) == (b * l) * p;
    assert a * c - b * d == (k * c + b * l) * p;
    CongIntro(p, a * c, b * d, k * c + b * l);
  }

  lemma CongNeg(p: int, a: int)
    requires p > 0 && Cong(p, a, 0)
    ensures Cong(p, -a, 0)
  {
    CongSwap(p, a, 0);
  }

  lemma CongOpposite(p: int, a: int, b: int)
    requires p > 0 && Cong(p, a, b)
    ensures Cong(p, -a, -b)
  {
    CongSwap(p, a, b);
  }

  lemma CongSolve(p: int, s: int, x: int, v: int)
    requires p > 0 && Cong(p, s - x, 0) && Cong(p, s, v)
    ensures Cong(p, x, v)
  {
    CongSwap(p, s, x);
    CongTrans(p, x, s, v);
  }

  /** Representatives closer than `p` are equal. */
  lemma CongClose(p: int, a: int, b: int)
    requires p > 0 && Cong(p, a, b) && -p < a - b < p
    ensures a == b
  {
    var k := CongElim(p, a, b);
    LargeMultiple(p, k);
  }

  /** A common divisor of `a` and `b` with coefficients that produce it (the extended Euclidean algorithm). */
  function Bezout(a: nat, b: nat): (r: (nat, int, int))
    requires a > 0 || b > 0
    ensures r.0 > 0 && r.0 == r.1 * a + r.2 * b
    ensures (a / r.0) * r.0 == a && (b / r.0) * r.0 == b
    decreases b
  {
    if b == 0 then
      BezoutBase(a);
      (a, 1, 0)
    else
      var s := Bezout(b, a % b);
      BezoutStep(a, b, s.0, s.1, s.2);
      (s.0, s.2, s.1 - s.2 * (a / b))
  }

  lemma BezoutBase(a: nat)
    requires a > 0
    ensures (a / a) * a == a && (0 / a) * a == 0
  {
    DividesIntro(a, 1);
    DividesIntro(a, 0);
  }

  lemma BezoutStep(a: nat, b: nat, g: nat, u: int, v: int)
    requires b > 0 && g > 0 && g == u * b + v * (a % b)
    requires (b / g) * g == b && ((a % b) / g) * g == a % b
    ensures g == v * a + (u - v * (a / b)) * b
    ensures (a / g) * g == a
  {
    var q, r := a / b, a % b;
    assert a == q * b + r;
    assert v * r == v * a - v * (q * b);
    assert v * (q * b) == (v * q) * b;
    assert (u - v * q) * b == u * b - (v * q) * b;
    var m, l := b / g, r / g;
    assert q * (m * g) == (q * m) * g;
    assert a == (q * m + l) * g;
    DividesIntro(g, q * m + l);
  }

  /** A divisor of a prime and of a smaller positive number is 1. */
  lemma CommonIsOne(p: int, r: int, g: int, k: int, l: int)
    requires Prime(p) && 0 < r < p && g > 0 && k * g == p && l * g == r
    ensures g == 1
  {
    hide Divides;
    DividesIntro(g, k);
    LargeMultiple(g, k);
    LargeMultiple(g, l);
  }

  /** The Bezout coefficient is the inverse of a field element that is not zero. */
  lemma BezoutInverse(p: int, a: int)
    requires Prime(p) && !Divides(p, a)
    ensures Cong(p, Bezout(p, a % p).2 * a, 1)
  {
    hide Bezout;
    var r := a % p;
    var s := Bezout(p, r);
    CommonIsOne(p, r, s.0, p / s.0, r / s.0);
    InverseOf(p, a, s.1, s.2);
  }

  lemma InverseOf(p: int, a: int, v: int, u: int)
    requires p > 0 && 1 == v * p + u * (a % p)
    ensures Cong(p, u * a, 1)
  {
    var q, r := a / p, a % p;
    assert u * a == u * (q * p) + u * r;
    assert u * (q * p) == (u * q) * p;
    assert u * a - 1 == (u * q - v) * p;
    CongIntro(p, u * a, 1, u * q - v);
  }

  /** Euclid's lemma: a product is zero in the field only if a factor is. */
  lemma ProductZero(p: int, a: int, b: int)
    requires Prime(p) && Cong(p, a * b, 0)
    ensures Cong(p, a, 0) || Cong(p, b, 0)
  {
    hide Bezout;
    if !Cong(p, a, 0) {
      var u := Bezout(p, a % p).2;
      BezoutInverse(p, a);
      CongSame(p, b);
      CongMul(p, u * a, 1, b, b);
      CongSwap(p, (u * a) * b, 1 * b);
      CongSame(p, u);
      CongMul(p, u, u, a * b, 0);
      assert u * (a * b) == (u * a) * b;
      CongTrans(p, b, (u * a) * b, 0);
    }
  }

  /** The constraint `x * (x - 1) = 0` makes `x` a bit. */
  lemma BitOf(p: int, x: int)
    requires Prime(p) && Cong(p, x * (x - 1), 0)
    ensures Cong(p, x, 0) || Cong(p, x, 1)
  {
    ProductZero(p, x, x - 1);
  }
}
