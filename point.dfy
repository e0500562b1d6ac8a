/**
 * The groundwar Point: an immutable pair of Java ints. Sums and
 * differences are taken on 32-bit ints, so they wrap around; equality
 * compares both coordinates and the hash combines them as x * 31 + y.
 */
module GroundwarPoint {
  import opened Errors

  const Two32: int := 0x1_0000_0000
  const MinInt: int := -0x8000_0000
  const MaxInt: int := 0x7fff_ffff

  /** A Java int. */
  type Int32 = n: int | MinInt <= n <= MaxInt

  /** The int Java keeps of an exact result: its low 32 bits, read as two's complement. */
  function Wrap(n: int): Int32 {
    (n - MinInt) % Two32 + MinInt
  }

  /** Wrapping keeps ints alone, and ignores multiples of 2^32. */
  lemma WrapFacts(n: int, k: int)
    ensures MinInt <= n <= MaxInt ==> Wrap(n) == n
    ensures Wrap(n + Two32 * k) == Wrap(n)
  {
    var q := (n - MinInt) / Two32;
    var r := (n - MinInt) % Two32;
    assert n + Two32 * k - MinInt == Two32 * (q + k) + r;
  }

  /** Wrapping an operand before adding gives the same int as wrapping the exact sum. */
  lemma WrapAdd(a: int, b: int)
    ensures Wrap(Wrap(a) + b) == Wrap(a + b)
  {
    var k := (a - MinInt) / Two32;
    assert Wrap(a) == a - Two32 * k;
    assert Wrap(a) + b == (a + b) + Two32 * -k;
    WrapFacts(a + b, -k);
  }

  /** Java int addition. */
  function Add(a: Int32, b: Int32): Int32 {
    Wrap(a + b)
  }

  /** Java int subtraction. */
  function Sub(a: Int32, b: Int32): Int32 {
    Wrap(a - b)
  }

  datatype Point = Point(x: Int32, y: Int32)

  /** The no-argument constructor: the origin. */
  function Origin(): (r: Point)
    ensures r.x == 0 && r.y == 0
  {
    Point(0, 0)
  }

  /** plus(x, y): each coordinate plus the given amount, as Java int addition. */
  function PlusXY(p: Point, x: Int32, y: Int32): Point {
    Point(Add(p.x, x), Add(p.y, y))
  }

  /** plus(p): plus(p.x, p.y). */
  function Plus(p: Point, q: Point): Point {
    PlusXY(p, q.x, q.y)
  }

  /** minus(x, y): each coordinate minus the given amount, as Java int subtraction. */
  function MinusXY(p: Point, x: Int32, y: Int32): Point {
    Point(Sub(p.x, x), Sub(p.y, y))
  }

  /** minus(p): minus(p.x, p.y). */
  function Minus(p: Point, q: Point): Point {
    MinusXY(p, q.x, q.y)
  }

  /** When nothing overflows, plus and minus are the exact componentwise sum and difference. */
  lemma PlusMinusExact(p: Point, x: Int32, y: Int32)
    ensures MinInt <= p.x + x <= MaxInt && MinInt <= p.y + y <= MaxInt ==> PlusXY(p, x, y) == Point(p.x + x, p.y + y)
    ensures MinInt <= p.x - x <= MaxInt && MinInt <= p.y - y <= MaxInt ==> MinusXY(p, x, y) == Point(p.x - x, p.y - y)
  {
    WrapFacts(p.x + x, 0);
    WrapFacts(p.y + y, 0);
    WrapFacts(p.x - x, 0);
    WrapFacts(p.y - y, 0);
  }

  /** copy(): a new point with the same coordinates. */
  function Copy(p: Point): (r: Point)
    ensures Equals(p, Some(r))
  {
    Point(p.x, p.y)
  }

  /** equals(o): o is a point (not null) with the same x and y. */
  predicate Equals(p: Point, o: Option<Point>) {
    o.Some? && p.x == o.value.x && p.y == o.value.y
  }

  /** hashCode(): x * 31 + y, as Java int arithmetic. */
  function HashCode(p: Point): Int32 {
    Wrap(Wrap(p.x * 31) + p.y)
  }

  /** On one coordinate: adding then subtracting b, or the other way round, gives a back. */
  lemma AddSubInverse(a: Int32, b: Int32)
    ensures Sub(Add(a, b), b) == a
    ensures Add(Sub(a, b), b) == a
  {
    WrapAdd(a + b, -(b as int));
    WrapAdd(a - b, b);
    WrapFacts(a, 0);
  }

  /** On one coordinate: int addition is associative. */
  lemma AddAssociative(a: Int32, b: Int32, c: Int32)
    ensures Add(Add(a, b), c) == Add(a, Add(b, c))
  {
    WrapAdd(a + b, c);
    WrapAdd(b + c, a);
    assert Wrap(b + c) + a == a + Wrap(b + c);
    assert b + c + a == a + b + c;
  }

  /** Subtracting what was added gives the point back, overflow or not; and the other way round. */
  lemma PlusMinusRoundTrip(p: Point, q: Point)
    ensures Minus(Plus(p, q), q) == p
    ensures Plus(Minus(p, q), q) == p
  {
    AddSubInverse(p.x, q.x);
    AddSubInverse(p.y, q.y);
  }

  /** Point addition is commutative and associative, and the origin is its unit. */
  lemma PlusFacts(p: Point, q: Point, s: Point)
    ensures Plus(p, q) == Plus(q, p)
    ensures Plus(Plus(p, q), s) == Plus(p, Plus(q, s))
    ensures Plus(p, Origin()) == p
  {
    assert Plus(p, q) == Plus(q, p) by {
      assert p.x + q.x == q.x + p.x && p.y + q.y == q.y + p.y;
    }
    PlusAssociative(p, q, s);
    assert Plus(p, Origin()) == p by {
      WrapFacts(p.x, 0);
      WrapFacts(p.y, 0);
    }
  }

  /** Point addition is associative, coordinate by coordinate. */
  lemma PlusAssociative(p: Point, q: Point, s: Point)
    ensures Plus(Plus(p, q), s) == Plus(p, Plus(q, s))
  {
    AddAssociative(p.x, q.x, s.x);
    AddAssociative(p.y, q.y, s.y);
  }

  /** equals holds exactly for points with the same coordinates, is an equivalence, and agrees with hashCode. */
  lemma EqualsFacts(p: Point, q: Point, s: Point)
    ensures Equals(p, Some(q)) <==> p == q
    ensures !Equals(p, None)
    ensures Equals(p, Some(p))
    ensures Equals(p, Some(q)) ==> Equals(q, Some(p))
    ensures Equals(p, Some(q)) && Equals(q, Some(s)) ==> Equals(p, Some(s))
    ensures Equals(p, Some(q)) ==> HashCode(p) == HashCode(q)
  {
  }

  /** The hash is x * 31 + y whenever that fits in an int. */
  lemma HashCodeExact(p: Point)
    requires MinInt <= p.x * 31 + p.y <= MaxInt && MinInt <= p.x * 31 <= MaxInt
    ensures HashCode(p) == p.x * 31 + p.y
  {
    WrapFacts(p.x * 31, 0);
    WrapFacts(p.x * 31 + p.y, 0);
  }
}
