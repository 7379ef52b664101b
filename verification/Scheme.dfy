/** The Scheme data that the Guile bridges produce and consume, and the arithmetic of exact rationals. */
module Scheme {
  import opened Wrappers

  // ----- greatest common divisors -----

  function Abs(n: int): nat {
    if n < 0 then -n else n
  }

  function Gcd(a: nat, b: nat): (g: nat)
    ensures a > 0 || b > 0 ==> g > 0
    decreases b
  {
    if b == 0 then a else Gcd(b, a % b)
  }

  ghost predicate Times(k: int, d: int, n: int) {
    n == k * d
  }

  ghost predicate Divides(d: int, n: int) {
    exists k: int :: Times(k, d, n)
  }

  lemma DividesWith(k: int, d: int, n: int)
    requires n == k * d
    ensures Divides(d, n)
  {
    assert Times(k, d, n);
  }

  lemma {:induction false} GcdDivides(a: nat, b: nat)
    ensures Divides(Gcd(a, b), a) && Divides(Gcd(a, b), b)
    decreases b
  {
    if b == 0 {
      DividesWith(1, a, a);
      DividesWith(0, a, 0);
    } else {
      GcdDivides(b, a % b);
      Combine(Gcd(b, a % b), b, a % b, a / b, a);
    }
  }

  /** A divisor of x and y divides q * x + y. */
  lemma Combine(g: int, x: int, y: int, q: int, z: int)
    requires Divides(g, x) && Divides(g, y) && z == q * x + y
    ensures Divides(g, z)
  {
    var j :| Times(j, g, x);
    var k :| Times(k, g, y);
    assert q * (j * g) == (q * j) * g;
    DividesWith(q * j + k, g, z);
  }

  lemma {:induction false} GcdGreatest(a: nat, b: nat, c: int)
    requires Divides(c, a) && Divides(c, b)
    ensures Divides(c, Gcd(a, b))
    decreases b
  {
    if b > 0 {
      assert (-(a / b)) * b == -((a / b) * b);
      Combine(c, b, a, -(a / b), a % b);
      GcdGreatest(b, a % b, c);
    }
  }

  lemma SignOf(k: int, g: int)
    requires g > 0
    ensures k <= 0 ==> k * g <= 0
    ensures k >= 1 ==> k * g >= g
    ensures k <= -1 ==> k * g <= -g
    ensures k >= 0 ==> k * g >= k
    ensures k <= 0 ==> k * g <= k
  {
    assert (k - 1) * g == k * g - g && (k + 1) * g == k * g + g;
    assert k * (g - 1) == k * g - k;
  }

  lemma ScaledDivisor(h: int, x: int, g: int)
    requires Divides(h, x)
    ensures Divides(h * g, x * g)
  {
    var j :| Times(j, h, x);
    assert (j * h) * g == j * (h * g);
    DividesWith(j, h * g, x * g);
  }

  /** Dividing both by their greatest common divisor leaves nothing in common. */
  lemma GcdOfQuotients(x: nat, y: nat, g: nat, a: nat, b: nat)
    requires y > 0 && g > 0 && a == x * g && b == y * g && g == Gcd(a, b)
    ensures Gcd(x, y) == 1
  {
    var h := Gcd(x, y);
    GcdDivides(x, y);
    ScaledDivisor(h, x, g);
    ScaledDivisor(h, y, g);
    GcdGreatest(a, b, h * g);
    var m :| Times(m, h * g, g);
    UnitFactor(m, h, g, h * g);
  }

  lemma UnitFactor(m: int, h: int, g: int, p: int)
    requires h > 0 && g > 0 && p == h * g && g == m * p
    ensures h == 1
  {
    SignOf(h, g);
    SignOf(m, p);
    SignOf(h - 1, g);
    assert (h - 1) * g == p - g;
  }

  // ----- exact rationals -----

  datatype Fraction = Fraction(num: int, den: int)

  predicate LowestTerms(q: Fraction) {
    q.den >= 1 && Gcd(Abs(q.num), q.den) == 1
  }

  type Rational = q: Fraction | LowestTerms(q) witness Fraction(0, 1)

  /** Whether two fractions with positive denominators denote the same number. */
  predicate SameNumber(n: int, d: int, q: Fraction) {
    n * q.den == q.num * d
  }

  lemma Quotient(k: int, g: int, n: int)
    requires g > 0 && n == k * g
    ensures n / g == k
  {
    var q, r := n / g, n % g;
    assert n == q * g + r;
    NoRemainder(q - k, q, k, g, r);
  }

  lemma NoRemainder(e: int, q: int, k: int, g: int, r: int)
    requires g > 0 && 0 <= r < g && k * g == q * g + r && e == q - k
    ensures e == 0
  {
    assert e * g == q * g - k * g;
    SignOf(e, g);
  }

  /** The fraction n / d in lowest terms. */
  function Reduce(n: int, d: nat): (q: Rational)
    requires d > 0
  {
    var g := Gcd(Abs(n), d);
    ReduceLowest(n, d);
    Fraction(n / g, d / g)
  }

  lemma ReduceLowest(n: int, d: nat)
    requires d > 0
    ensures var g := Gcd(Abs(n), d);
      LowestTerms(Fraction(n / g, d / g)) && n == (n / g) * g && d == (d / g) * g
  {
    var g := Gcd(Abs(n), d);
    GcdDivides(Abs(n), d);
    ExactQuotient(n, g);
    ExactQuotient(d, g);
    SignOf(d / g, g);
    GcdOfQuotients(Abs(n / g), d / g, g, Abs(n), d);
  }

  lemma ExactQuotient(n: int, g: int)
    requires g > 0 && Divides(g, Abs(n))
    ensures n == (n / g) * g && Abs(n) == Abs(n / g) * g
  {
    var j :| Times(j, g, Abs(n));
    var i := if n >= 0 then j else -j;
    assert n == i * g;
    Quotient(i, g, n);
    SignOf(i, g);
  }

  /** Reducing keeps the number and never moves a part away from zero. */
  lemma ReduceSame(n: int, d: nat)
    requires d > 0
    ensures SameNumber(n, d, Reduce(n, d))
    ensures Reduce(n, d).den <= d && (0 <= Reduce(n, d).num <= n || n <= Reduce(n, d).num <= 0)
  {
    var g := Gcd(Abs(n), d);
    var q := Reduce(n, d);
    ReduceLowest(n, d);
    CrossMultiply(q.num, q.den, g, n, d);
    SignOf(q.num, g);
    SignOf(q.den, g);
  }

  lemma CrossMultiply(j: int, k: int, g: int, n: int, d: int)
    requires n == j * g && d == k * g
    ensures n * k == j * d
  {
    assert (j * g) * k == j * (k * g);
  }

  /** A fraction already in lowest terms is its own reduced form. */
  lemma ReduceReduced(n: int, d: nat)
    requires d > 0
    ensures Reduce(n, d) == Fraction(n, d) <==> Gcd(Abs(n), d) == 1
  {
    var g := Gcd(Abs(n), d);
    ReduceLowest(n, d);
    if g == 1 {
      Quotient(n, 1, n);
      Quotient(d, 1, d);
    }
  }

  // ----- data -----

  /** A double: a number, or one of the values that are not. */
  datatype Flonum = Finite(value: real) | Infinite(negative: bool) | NaN

  datatype Scm =
    | Exact(q: Rational)
    | Inexact(f: Flonum)
    | Str(text: string)
    | Symbol(name: string)
    | Bool(value: bool)
    | Nil
    | Pair(car: Scm, cdr: Scm)

  /** scm_from_int64. */
  function Whole(n: int): Scm {
    WholeLowest(n);
    Exact(Fraction(n, 1))
  }

  lemma WholeLowest(n: int)
    ensures LowestTerms(Fraction(n, 1))
  {
    assert Gcd(1, Abs(n) % 1) == 1;
  }

  /** scm_is_list: a chain of pairs that ends in the empty list. */
  predicate IsList(x: Scm) {
    match x
    case Nil => true
    case Pair(_, rest) => IsList(rest)
    case _ => false
  }

  function ListOf(xs: seq<Scm>): (x: Scm)
    ensures IsList(x)
  {
    if xs == [] then Nil else Pair(xs[0], ListOf(xs[1..]))
  }

  function Elements(x: Scm): seq<Scm> {
    match x
    case Pair(a, rest) => [a] + Elements(rest)
    case _ => []
  }

  lemma {:induction false} ElementsOfList(xs: seq<Scm>)
    ensures Elements(ListOf(xs)) == xs
  {
    if xs != [] {
      ElementsOfList(xs[1..]);
    }
  }

  /** The elements of `x` in reverse order in front of `tail`; scm_reverse is ReverseOnto(x, Nil). */
  function ReverseOnto(x: Scm, tail: Scm): Scm {
    match x
    case Pair(a, rest) => ReverseOnto(rest, Pair(a, tail))
    case _ => tail
  }

  function Reversed<T>(xs: seq<T>): seq<T> {
    if xs == [] then [] else Reversed(xs[1..]) + [xs[0]]
  }

  const MIN_INT64 := -0x8000_0000_0000_0000
  const MAX_INT64 := 0x7FFF_FFFF_FFFF_FFFF

  predicate InInt64(n: int) {
    MIN_INT64 <= n <= MAX_INT64
  }

  type Int64 = n: int | InInt64(n)

  type Int32 = n: int | -0x8000_0000 <= n <= 0x7FFF_FFFF

  // ----- what the bridges take from the libraries below them -----

  datatype Guid = Guid(value: nat)

  /** GUIDs as text, the nearest double of an exact number, and whether a regular expression compiles
      (the flag says ignoring case). */
  datatype Platform = Platform(parse: string -> Option<Guid>, text: Guid -> string,
                               toDouble: Rational -> Flonum, regexCompiles: (string, bool) -> bool)

  const GUID_ENCODING_LENGTH := 32

  /** The text of a GUID has the fixed length and parses back to that GUID. */
  ghost predicate Lawful(p: Platform) {
    forall g: Guid :: |p.text(g)| == GUID_ENCODING_LENGTH && p.parse(p.text(g)) == Some(g)
  }

  /** gnc_guid_p and gnc_scm2guid on a string. */
  function GuidOf(p: Platform, s: string): Option<Guid> {
    if |s| == GUID_ENCODING_LENGTH then p.parse(s) else None
  }
}
