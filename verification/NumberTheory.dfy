/** Elementary number theory behind RSA: congruences, Euclid, Fermat, and x^(ed) = x (mod pq). */
module NumberTheory {

  // ---------------------------------------------------------------- congruences

  lemma ModIntro(a: int, b: int, n: int, k: int)
    requires n > 0 && a == b + n * k
    ensures a % n == b % n
  {
    var q := a / n - b / n - k;
    assert a == n * (a / n) + a % n;
    assert b == n * (b / n) + b % n;
    assert n * (a / n) - n * (b / n) - n * k == n * q;
    assert b % n - a % n == n * q;
    assert (q >= 1 ==> n * q >= n) && (q <= -1 ==> n * q <= -n);
  }

  lemma ModElim(a: int, b: int, n: int) returns (k: int)
    requires n > 0 && a % n == b % n
    ensures a == b + n * k
  {
    k := a / n - b / n;
    assert a == n * (a / n) + a % n;
    assert b == n * (b / n) + b % n;
    assert n * k == n * (a / n) - n * (b / n);
  }

  lemma ModMul(a: int, a': int, b: int, b': int, n: int)
    requires n > 0 && a % n == a' % n && b % n == b' % n
    ensures (a * b) % n == (a' * b') % n
  {
    var i := ModElim(a, a', n);
    var j := ModElim(b, b', n);
    calc {
      a * b;
      (a' + n * i) * (b' + n * j);
      a' * b' + a' * (n * j) + (n * i) * b' + (n * i) * (n * j);
      { assert a' * (n * j) == n * (a' * j); assert (n * i) * b' == n * (i * b');
        assert (n * i) * (n * j) == n * (i * (n * j)); }
      a' * b' + n * (a' * j) + n * (i * b') + n * (i * (n * j));
      a' * b' + n * (a' * j + i * b' + i * (n * j));
    }
    ModIntro(a * b, a' * b', n, a' * j + i * b' + i * (n * j));
  }

  lemma ModSmall(a: int, n: int)
    requires 0 <= a < n
    ensures a % n == a
  {
    var q := a / n;
    assert a == n * q + a % n;
    assert (q >= 1 ==> n * q >= n) && (q <= -1 ==> n * q <= -n);
  }

  lemma ModMod(a: int, n: int)
    requires n > 0
    ensures (a % n) % n == a % n
  {
    ModSmall(a % n, n);
  }

  // ---------------------------------------------------------------- powers

  function Pow(b: int, e: nat): int {
    if e == 0 then 1 else b * Pow(b, e - 1)
  }

  lemma {:induction false} PowAdd(b: int, i: nat, j: nat)
    ensures Pow(b, i + j) == Pow(b, i) * Pow(b, j)
  {
    if i > 0 {
      PowAdd(b, i - 1, j);
      assert Pow(b, i + j) == b * Pow(b, i - 1 + j);
      assert b * (Pow(b, i - 1) * Pow(b, j)) == b * Pow(b, i - 1) * Pow(b, j);
    }
  }

  lemma {:induction false} PowPow(b: int, i: nat, j: nat)
    ensures i * j >= 0 && Pow(b, i * j) == Pow(Pow(b, i), j)
  {
    if j > 0 {
      PowPow(b, i, j - 1);
      assert i * j == i + i * (j - 1);
      PowAdd(b, i, i * (j - 1));
    } else {
      assert i * j == 0;
    }
  }

  lemma Interchange(a: int, b: int, x: int, y: int)
    ensures (a * b) * (x * y) == (a * x) * (b * y)
  {
    assert (a * b) * (x * y) == a * (b * (x * y));
    assert (a * x) * (b * y) == a * (x * (b * y));
    assert b * (x * y) == x * (b * y);
  }

  lemma {:induction false} PowProduct(a: int, b: int, e: nat)
    ensures Pow(a * b, e) == Pow(a, e) * Pow(b, e)
  {
    if e > 0 {
      PowProduct(a, b, e - 1);
      Interchange(a, b, Pow(a, e - 1), Pow(b, e - 1));
    }
  }

  lemma {:induction false} PowMod(a: int, b: int, e: nat, n: int)
    requires n > 0 && a % n == b % n
    ensures Pow(a, e) % n == Pow(b, e) % n
  {
    if e > 0 {
      PowMod(a, b, e - 1, n);
      ModMul(a, b, Pow(a, e - 1), Pow(b, e - 1), n);
    }
  }

  lemma {:induction false} PowOne(e: nat)
    ensures Pow(1, e) == 1
  {
    if e > 0 { PowOne(e - 1); }
  }

  lemma {:induction false} PowPositive(b: int, e: nat)
    requires b > 0
    ensures Pow(b, e) > 0
  {
    if e > 0 { PowPositive(b, e - 1); }
  }

  // ---------------------------------------------------------------- divisibility and Euclid

  predicate Divides(d: int, a: int)
    requires d > 0
  {
    a % d == 0
  }

  lemma DividesIntro(d: int, a: int, k: int)
    requires d > 0 && a == d * k
    ensures Divides(d, a)
  {
    ModIntro(a, 0, d, k);
  }

  lemma DividesElim(d: int, a: int) returns (k: int)
    requires d > 0 && Divides(d, a)
    ensures a == d * k
  {
    k := ModElim(a, 0, d);
  }

  lemma DividesLinear(d: int, a: int, x: int, b: int, y: int)
    requires d > 0 && Divides(d, a) && Divides(d, b)
    ensures Divides(d, a * x + b * y)
  {
    var i := DividesElim(d, a);
    var j := DividesElim(d, b);
    assert (d * i) * x + (d * j) * y == d * (i * x) + d * (j * y) == d * (i * x + j * y);
    DividesIntro(d, a * x + b * y, i * x + j * y);
  }

  lemma DividesAtMost(d: int, a: int)
    requires d > 0 && a > 0 && Divides(d, a)
    ensures d <= a
  {
    var k := DividesElim(d, a);
    assert (k <= 0 ==> d * k <= 0) && (k >= 1 ==> d * k >= d);
  }

  /** math.gcd on naturals, by Euclid's algorithm. */
  function Gcd(a: nat, b: nat): nat
    decreases b
  {
    if b == 0 then a else Gcd(b, a % b)
  }

  lemma {:induction false} GcdDivides(a: nat, b: nat)
    requires a > 0 || b > 0
    ensures Gcd(a, b) > 0 && Divides(Gcd(a, b), a) && Divides(Gcd(a, b), b)
    decreases b
  {
    if b == 0 {
      DividesIntro(a, a, 1);
      DividesIntro(a, 0, 0);
    } else {
      GcdDivides(b, a % b);
      var g := Gcd(a, b);
      DividesLinear(g, b, a / b, a % b, 1);
      assert a == b * (a / b) + (a % b) * 1;
    }
  }

  /** Bezout coefficients, computed along Euclid's algorithm. */
  function Bezout(a: nat, b: nat): (c: (int, int))
    ensures a * c.0 + b * c.1 == Gcd(a, b)
    decreases b
  {
    if b == 0 then (1, 0)
    else
      var (x, y) := Bezout(b, a % b);
      BezoutStep(a, b, x, y);
      (y, x - (a / b) * y)
  }

  lemma BezoutStep(a: nat, b: nat, x: int, y: int)
    requires b > 0
    ensures a * y + b * (x - (a / b) * y) == b * x + (a % b) * y
  {
    var q, r := a / b, a % b;
    assert a == b * q + r;
    assert (b * q + r) * y == (b * q) * y + r * y;
    assert b * (x - q * y) == b * x - b * (q * y);
    assert (b * q) * y == b * (q * y);
  }

  /** Coprimality to n is invertibility modulo n. */
  lemma UnitIffCoprime(a: nat, n: nat, x: int)
    requires n > 1
    requires (a * x) % n == 1
    ensures Gcd(a, n) == 1
  {
    var g := Gcd(a, n);
    GcdDivides(a, n);
    var k := ModElim(a * x, 1, n) by { ModSmall(1, n); }
    DividesLinear(g, a, x, n, -k);
    assert a * x + n * (-k) == 1;
    DividesAtMost(g, 1);
  }

  /** Python's pow(r, -1, n): the inverse in [0, n). */
  function ModInverse(r: nat, n: nat): (x: nat)
    requires n > 1 && Gcd(r, n) == 1
    ensures x < n && (r * x) % n == 1
  {
    var c := Bezout(r, n);
    assert (r * (c.0 % n)) % n == 1 by {
      ModMod(c.0, n);
      ModMul(r, r, c.0 % n, c.0, n);
      assert r * c.0 == 1 + n * (-c.1) by { assert n * (-c.1) == -(n * c.1); }
      ModIntro(r * c.0, 1, n, -c.1);
      ModSmall(1, n);
    }
    c.0 % n
  }

  /** A unit can be cancelled. */
  lemma Cancel(u: nat, a: int, b: int, n: nat)
    requires n > 1 && Gcd(u, n) == 1
    requires (u * a) % n == (u * b) % n
    ensures a % n == b % n
  {
    var v := ModInverse(u, n);
    ModMul(v, v, u * a, u * b, n);
    CancelStep(u, v, a, n);
    CancelStep(u, v, b, n);
  }

  lemma CancelStep(u: int, v: int, a: int, n: int)
    requires n > 1 && (u * v) % n == 1
    ensures (v * (u * a)) % n == a % n
  {
    ModSmall(1, n);
    ModMul(u * v, 1, a, a, n);
    assert v * (u * a) == (u * v) * a;
  }

  lemma UnitProduct(a: nat, b: nat, n: nat)
    requires n > 1 && Gcd(a, n) == 1 && Gcd(b, n) == 1
    ensures a * b >= 0 && Gcd(a * b, n) == 1
  {
    var x, y := ModInverse(a, n), ModInverse(b, n);
    ModSmall(1, n);
    ModMul(a * x, 1, b * y, 1, n);
    Interchange(a, b, x, y);
    UnitIffCoprime(a * b, n, x * y);
  }

  lemma {:induction false} UnitPow(a: nat, e: nat, n: nat)
    requires n > 1 && Gcd(a, n) == 1
    ensures Pow(a, e) >= 0 && Gcd(Pow(a, e), n) == 1
  {
    if e == 0 {
      ModSmall(1, n);
      UnitIffCoprime(1, n, 1);
    } else {
      UnitPow(a, e - 1, n);
      UnitProduct(a, Pow(a, e - 1), n);
    }
  }

  lemma UnitMod(a: nat, n: nat)
    requires n > 1 && Gcd(a, n) == 1
    ensures Gcd(a % n, n) == 1
  {
    var x := ModInverse(a, n);
    ModMod(a, n);
    ModMul(a % n, a, x, x, n);
    UnitIffCoprime(a % n, n, x);
  }

  // ---------------------------------------------------------------- primes and Fermat

  ghost predicate Prime(p: int) {
    p >= 2 && forall d :: 2 <= d < p ==> !Divides(d, p)
  }

  lemma SmallPrimes()
    ensures Prime(2) && Prime(3) && Prime(11) && !Prime(1) && !Prime(4) && !Prime(9)
  {
    DividesIntro(2, 4, 2);
    DividesIntro(3, 9, 3);
    assert !Divides(2, 3);
    assert !Divides(2, 11) && !Divides(3, 11) && !Divides(4, 11) && !Divides(5, 11) && !Divides(6, 11);
    assert !Divides(7, 11) && !Divides(8, 11) && !Divides(9, 11) && !Divides(10, 11);
  }

  lemma PrimeCoprime(p: nat, a: nat)
    requires Prime(p) && !Divides(p, a)
    ensures Gcd(a, p) == 1
  {
    var g := Gcd(a, p);
    GcdDivides(a, p);
    DividesAtMost(g, p);
  }

  lemma EuclidLemma(p: nat, a: nat, b: int)
    requires Prime(p) && Divides(p, a * b)
    ensures Divides(p, a) || Divides(p, b)
  {
    if !Divides(p, a) {
      PrimeCoprime(p, a);
      assert a * 0 == 0;
      Cancel(a, b, 0, p);
    }
  }

  function Factorial(m: nat): nat {
    if m == 0 then 1 else m * Factorial(m - 1)
  }

  function Product(s: seq<nat>): nat {
    if s == [] then 1 else s[0] * Product(s[1..])
  }

  /** Distinct numbers drawn from 1..m. */
  ghost predicate Selection(s: seq<nat>, m: nat) {
    && (forall i :: 0 <= i < |s| ==> 1 <= s[i] <= m)
    && (forall i, j :: 0 <= i < j < |s| ==> s[i] != s[j])
  }

  function Without(s: seq<nat>, i: nat): seq<nat>
    requires i < |s|
  {
    s[..i] + s[i + 1..]
  }

  lemma MulSwap(a: int, b: int, c: int)
    ensures a * (b * c) == b * (a * c)
  {
    assert a * (b * c) == (a * b) * c == (b * a) * c == b * (a * c);
  }

  lemma ProductCons(x: nat, s: seq<nat>)
    ensures Product([x] + s) == x * Product(s)
  {
    assert ([x] + s)[1..] == s;
  }

  lemma {:induction false} ProductWithout(s: seq<nat>, i: nat)
    requires i < |s|
    ensures Product(s) == s[i] * Product(Without(s, i))
  {
    if i == 0 {
      assert Without(s, 0) == s[1..];
    } else {
      ProductWithout(s[1..], i - 1);
      var t := Without(s[1..], i - 1);
      assert Without(s, i) == [s[0]] + t;
      ProductCons(s[0], t);
      MulSwap(s[0], s[i], Product(t));
    }
  }

  lemma {:induction false} Pigeonhole(s: seq<nat>, m: nat)
    requires Selection(s, m)
    ensures |s| <= m
  {
    if s != [] {
      assert 1 <= s[0] <= m;
      if m in s {
        var i :| 0 <= i < |s| && s[i] == m;
        Pigeonhole(Without(s, i), m - 1);
      } else {
        Pigeonhole(s, m - 1);
      }
    }
  }

  /** Any arrangement of 1..m multiplies to m!. */
  lemma {:induction false} ArrangementProduct(s: seq<nat>, m: nat)
    requires Selection(s, m) && |s| == m
    ensures Product(s) == Factorial(m)
  {
    if m > 0 {
      if m !in s {
        Pigeonhole(s, m - 1);
      } else {
        var i :| 0 <= i < |s| && s[i] == m;
        ArrangementProduct(Without(s, i), m - 1);
        ProductWithout(s, i);
      }
    }
  }

  /** The residues a*1, a*2, ..., a*k modulo p. */
  function Multiples(a: nat, p: nat, k: nat): (s: seq<nat>)
    requires p > 0
    ensures |s| == k
    ensures forall i :: 0 <= i < k ==> s[i] == (a * (i + 1)) % p
  {
    seq(k, i requires 0 <= i < k => Residue(a * (i + 1), p))
  }

  function Residue(x: nat, p: nat): nat
    requires p > 0
  {
    x % p
  }

  lemma MultiplesArrangement(a: nat, p: nat)
    requires Prime(p) && !Divides(p, a)
    ensures Selection(Multiples(a, p, p - 1), p - 1)
  {
    var s := Multiples(a, p, p - 1);
    forall i | 0 <= i < |s| ensures 1 <= s[i] <= p - 1 {
      if s[i] == 0 {
        EuclidLemma(p, a, i + 1);
        DividesAtMost(p, i + 1);
      }
    }
    forall i, j | 0 <= i < j < |s| ensures s[i] != s[j] {
      if s[i] == s[j] {
        PrimeCoprime(p, a);
        Cancel(a, i + 1, j + 1, p);
        ModSmall(i + 1, p);
        ModSmall(j + 1, p);
      }
    }
  }

  lemma {:induction false} ProductSnoc(s: seq<nat>, x: nat)
    ensures Product(s + [x]) == Product(s) * x
  {
    if s == [] {
      assert s + [x] == [x];
      assert [x][1..] == [];
    } else {
      ProductSnoc(s[1..], x);
      assert (s + [x])[1..] == s[1..] + [x];
      assert s[0] * (Product(s[1..]) * x) == s[0] * Product(s[1..]) * x;
    }
  }

  lemma {:induction false} MultiplesProduct(a: nat, p: nat, k: nat)
    requires p > 0
    ensures Product(Multiples(a, p, k)) % p == (Pow(a, k) * Factorial(k)) % p
  {
    if k == 0 {
      assert Multiples(a, p, 0) == [];
    } else {
      MultiplesProduct(a, p, k - 1);
      var s, t := Multiples(a, p, k - 1), (a * k) % p;
      assert Multiples(a, p, k) == s + [t];
      ProductSnoc(s, t);
      ModMod(a * k, p);
      var f, w := Factorial(k - 1), Pow(a, k - 1);
      ModMul(Product(s), w * f, t, a * k, p);
      Interchange(w, f, a, k);
    }
  }

  lemma {:induction false} FactorialCoprime(p: nat, k: nat)
    requires Prime(p) && k < p
    ensures !Divides(p, Factorial(k))
  {
    if k == 0 {
      ModSmall(1, p);
    } else {
      FactorialCoprime(p, k - 1);
      if Divides(p, Factorial(k)) {
        EuclidLemma(p, k, Factorial(k - 1));
        DividesAtMost(p, k);
      }
    }
  }

  /** Fermat's little theorem. */
  lemma Fermat(p: nat, a: nat)
    requires Prime(p) && !Divides(p, a)
    ensures Pow(a, p - 1) % p == 1
  {
    MultiplesArrangement(a, p);
    ArrangementProduct(Multiples(a, p, p - 1), p - 1);
    MultiplesProduct(a, p, p - 1);
    var f := Factorial(p - 1);
    FactorialCoprime(p, p - 1);
    PrimeCoprime(p, f);
    assert Pow(a, p - 1) * f == f * Pow(a, p - 1) && f == f * 1;
    Cancel(f, Pow(a, p - 1), 1, p);
    ModSmall(1, p);
  }

  // ---------------------------------------------------------------- RSA

  function Lcm(a: nat, b: nat): (l: nat)
    requires a > 0 && b > 0
    ensures l > 0 && Divides(a, l) && Divides(b, l)
  {
    GcdDivides(a, b);
    LcmMultiple(a, b, Gcd(a, b));
    a * b / Gcd(a, b)
  }

  lemma LcmMultiple(a: nat, b: nat, g: nat)
    requires a > 0 && b > 0 && g > 0 && Divides(g, a) && Divides(g, b)
    ensures a * b / g > 0 && Divides(a, a * b / g) && Divides(b, a * b / g)
  {
    var x := DividesElim(g, a);
    var y := DividesElim(g, b);
    assert a * b == g * (a * y) by { assert a * (g * y) == g * (a * y); }
    assert a * b == g * (b * x) by { assert (g * x) * b == g * (b * x); }
    DivExact(g, a * y);
    DivExact(g, b * x);
    DividesIntro(a, a * b / g, y);
    DividesIntro(b, a * b / g, x);
    assert y <= 0 ==> g * y <= 0;
    assert y >= 1 ==> a * y >= a;
  }

  lemma DivExact(g: int, k: int)
    requires g > 0
    ensures (g * k) / g == k
  {
    var q, r := (g * k) / g, (g * k) % g;
    assert g * k == g * q + r;
    ModIntro(g * k, 0, g, k);
    assert g * (k - q) == 0;
  }

  /** A private key: distinct primes, and exponents inverse modulo lcm(p - 1, q - 1). */
  ghost predicate RsaKey(p: nat, q: nat, n: nat, e: nat, d: nat) {
    && Prime(p) && Prime(q) && p != q && n == p * q
    && e >= 2 && d >= 1
    && Divides(Lcm(p - 1, q - 1), e * d - 1)
  }

  /** The exponents need only be inverse modulo the least common multiple, here 10, and not modulo 20. */
  lemma SmallRsaKey()
    ensures RsaKey(3, 11, 33, 3, 17)
  {
    SmallPrimes();
    assert Gcd(2, 10) == Gcd(10, 2) == Gcd(2, 0) == 2;
    assert Lcm(2, 10) == 10;
    DividesIntro(10, 50, 5);
  }

  /** Modulo one prime factor the exponent e*d acts as the identity, on every residue. */
  lemma PowPeriod(p: nat, x: nat, m: nat)
    requires Prime(p) && m >= 1 && Divides(p - 1, m - 1)
    ensures Pow(x, m) % p == x % p
  {
    if Divides(p, x) {
      ModMul(x, 0, Pow(x, m - 1), Pow(x, m - 1), p);
    } else {
      var k := DividesElim(p - 1, m - 1);
      assert k < 0 ==> (p - 1) * k < 0;
      Fermat(p, x);
      PowPow(x, p - 1, k);
      ModSmall(1, p);
      PowMod(Pow(x, p - 1), 1, k, p);
      PowOne(k);
      ModMul(x, x, Pow(x, m - 1), 1, p);
    }
  }

  /** Distinct primes dividing a number divide it together. */
  lemma CoprimeProductDivides(p: nat, q: nat, n: nat, a: int)
    requires Prime(p) && Prime(q) && p != q && n == p * q && Divides(p, a) && Divides(q, a)
    ensures n > 1 && Divides(n, a)
  {
    var i := DividesElim(p, a);
    assert !Divides(q, p) by {
      if Divides(q, p) { DividesAtMost(q, p); }
    }
    EuclidLemma(q, p, i);
    var j := DividesElim(q, i);
    assert p * (q * j) == (p * q) * j;
    assert p * q >= 2 * q;
    DividesIntro(n, a, j);
  }

  lemma DividesTransitive(a: int, b: int, c: int)
    requires a > 0 && b > 0 && Divides(a, b) && Divides(b, c)
    ensures Divides(a, c)
  {
    var i := DividesElim(a, b);
    var j := DividesElim(b, c);
    assert (a * i) * j == a * (i * j);
    DividesIntro(a, c, i * j);
  }

  lemma CongruentTogether(p: nat, q: nat, n: nat, x: int, y: int)
    requires Prime(p) && Prime(q) && p != q && n == p * q && x % p == y % p && x % q == y % q
    ensures n > 1 && x % n == y % n
  {
    var i := ModElim(x, y, p);
    DividesIntro(p, x - y, i);
    var j := ModElim(x, y, q);
    DividesIntro(q, x - y, j);
    CoprimeProductDivides(p, q, n, x - y);
    var k := DividesElim(n, x - y);
    ModIntro(x, y, n, k);
  }

  /** RSA correctness: raising to e and then to d is the identity modulo n, on every residue. */
  lemma RsaInverse(p: nat, q: nat, n: nat, e: nat, d: nat, x: nat)
    requires RsaKey(p, q, n, e, d)
    ensures n > 1 && e * d >= 0 && Pow(x, e * d) % n == x % n
  {
    var m, l := e * d, Lcm(p - 1, q - 1);
    assert m >= 1 by { assert e * d >= e * 1; }
    DividesTransitive(p - 1, l, m - 1);
    DividesTransitive(q - 1, l, m - 1);
    PowPeriod(p, x, m);
    PowPeriod(q, x, m);
    CongruentTogether(p, q, n, Pow(x, m), x);
  }
}
