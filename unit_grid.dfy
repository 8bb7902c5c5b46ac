/**
 * The toroidal universe of the unit-grid test: positions wrap around the
 * universe size on each axis, and the universe is cut into a grid of
 * equally sized rectangular compartments.
 */
module UnitGrid {

  datatype IntVector2D = IntVector2D(x: int, y: int)

  /** A rectangle from corner `p1` to corner `p2`, both inclusive. */
  datatype IntRect = IntRect(p1: IntVector2D, p2: IntVector2D)

  /**
   * The C++ `%` on `int`: the remainder of division truncated toward zero,
   * so it takes the sign of the dividend.
   */
  function CRem(a: int, n: int): (r: int)
    requires n > 0
    ensures a >= 0 ==> 0 <= r < n
    ensures a < 0 ==> -n < r <= 0
  {
    if a >= 0 then a % n else -((-a) % n)
  }

  /** One axis of `correctUniversePosition`: `((p % size) + size) % size`. */
  function Wrap(p: int, size: int): int
    requires size > 0
  {
    CRem(CRem(p, size) + size, size)
  }

  /** `correctUniversePosition`, for a universe of positive size. */
  function CorrectUniversePosition(pos: IntVector2D, universeSize: IntVector2D): IntVector2D
    requires universeSize.x > 0 && universeSize.y > 0
  {
    IntVector2D(Wrap(pos.x, universeSize.x), Wrap(pos.y, universeSize.y))
  }

  lemma MultiplyMonotone(a: int, b: int, n: int)
    requires a <= b && n > 0
    ensures a * n <= b * n
  {
    assert b * n - a * n == (b - a) * n;
  }

  /** Quotient and remainder are the only ones with `a == q * n + r` and `0 <= r < n`. */
  lemma DivModUnique(a: int, n: int, q: int, r: int)
    requires n > 0 && 0 <= r < n && a == q * n + r
    ensures a / n == q && a % n == r
  {
    var q', r' := a / n, a % n;
    assert a == q' * n + r';
    if q' < q {
      MultiplyMonotone(q' + 1, q, n);
      assert false;
    } else if q' > q {
      MultiplyMonotone(q + 1, q', n);
      assert false;
    }
  }

  /**
   * The wrap is the mathematical (never negative) remainder, the reference
   * definition every other wrap property follows from.
   */
  lemma WrapIsEuclideanRemainder(p: int, size: int)
    requires size > 0
    ensures Wrap(p, size) == p % size
  {
    if p >= 0 {
      DivModUnique(p % size + size, size, 1, p % size);
    } else {
      var q, m := (-p) / size, (-p) % size;
      assert -p == q * size + m;
      if m == 0 {
        DivModUnique(size, size, 1, 0);
        DivModUnique(p, size, -q, 0);
      } else {
        DivModUnique(size - m, size, 0, size - m);
        assert p == (-q - 1) * size + (size - m);
        DivModUnique(p, size, -q - 1, size - m);
      }
    }
  }

  /** A corrected position lies inside the universe on both axes, for any input. */
  lemma CorrectedPositionInUniverse(pos: IntVector2D, universeSize: IntVector2D)
    requires universeSize.x > 0 && universeSize.y > 0
    ensures var c := CorrectUniversePosition(pos, universeSize);
            0 <= c.x < universeSize.x && 0 <= c.y < universeSize.y
  {
    WrapIsEuclideanRemainder(pos.x, universeSize.x);
    WrapIsEuclideanRemainder(pos.y, universeSize.y);
  }

  /** A position already inside the universe is left as it is. */
  lemma CorrectionKeepsInsidePositions(pos: IntVector2D, universeSize: IntVector2D)
    requires universeSize.x > 0 && universeSize.y > 0
    requires 0 <= pos.x < universeSize.x && 0 <= pos.y < universeSize.y
    ensures CorrectUniversePosition(pos, universeSize) == pos
  {
    WrapIsEuclideanRemainder(pos.x, universeSize.x);
    WrapIsEuclideanRemainder(pos.y, universeSize.y);
    DivModUnique(pos.x, universeSize.x, 0, pos.x);
    DivModUnique(pos.y, universeSize.y, 0, pos.y);
  }

  /** Correcting twice is correcting once. */
  lemma CorrectionIdempotent(pos: IntVector2D, universeSize: IntVector2D)
    requires universeSize.x > 0 && universeSize.y > 0
    ensures var c := CorrectUniversePosition(pos, universeSize);
            CorrectUniversePosition(c, universeSize) == c
  {
    CorrectedPositionInUniverse(pos, universeSize);
    CorrectionKeepsInsidePositions(CorrectUniversePosition(pos, universeSize), universeSize);
  }

  /** The correction moves a position by whole universe sizes only. */
  lemma CorrectionIsCongruent(pos: IntVector2D, universeSize: IntVector2D)
    requires universeSize.x > 0 && universeSize.y > 0
    ensures var c := CorrectUniversePosition(pos, universeSize);
            (c.x - pos.x) % universeSize.x == 0 && (c.y - pos.y) % universeSize.y == 0
  {
    WrapIsEuclideanRemainder(pos.x, universeSize.x);
    WrapIsEuclideanRemainder(pos.y, universeSize.y);
    RemainderDifference(pos.x, universeSize.x);
    RemainderDifference(pos.y, universeSize.y);
  }

  lemma RemainderDifference(p: int, n: int)
    requires n > 0
    ensures (p % n - p) % n == 0
  {
    assert p == (p / n) * n + p % n;
    assert p % n - p == -(p / n) * n;
    DivModUnique(p % n - p, n, -(p / n), 0);
  }

  /** Shifting a position by whole universe sizes does not change its correction. */
  lemma CorrectionIsPeriodic(pos: IntVector2D, universeSize: IntVector2D, kx: int, ky: int)
    requires universeSize.x > 0 && universeSize.y > 0
    ensures CorrectUniversePosition(IntVector2D(pos.x + kx * universeSize.x, pos.y + ky * universeSize.y), universeSize)
            == CorrectUniversePosition(pos, universeSize)
  {
    ShiftedRemainder(pos.x, universeSize.x, kx);
    ShiftedRemainder(pos.y, universeSize.y, ky);
    WrapIsEuclideanRemainder(pos.x, universeSize.x);
    WrapIsEuclideanRemainder(pos.y, universeSize.y);
    WrapIsEuclideanRemainder(pos.x + kx * universeSize.x, universeSize.x);
    WrapIsEuclideanRemainder(pos.y + ky * universeSize.y, universeSize.y);
  }

  lemma ShiftedRemainder(p: int, n: int, k: int)
    requires n > 0
    ensures (p + k * n) % n == p % n
  {
    assert p == (p / n) * n + p % n;
    assert p + k * n == (p / n + k) * n + p % n;
    DivModUnique(p + k * n, n, p / n + k, p % n);
  }

  /** Adding to a remainder and taking the remainder again is taking the remainder of the sum. */
  lemma RemainderOfSum(a: int, k: int, n: int)
    requires n > 0
    ensures (a % n + k) % n == (a + k) % n
  {
    assert a == (a / n) * n + a % n;
    ShiftedRemainder(a % n + k, n, a / n);
  }

  /** On an axis of at least three positions, a position and its two neighbours are distinct. */
  lemma NeighboursDistinct(c: int, n: int)
    requires 3 <= n && 0 <= c < n
    ensures 0 <= (c - 1) % n < n && 0 <= (c + 1) % n < n
    ensures (c - 1) % n != c && (c + 1) % n != c && (c - 1) % n != (c + 1) % n
  {
    if c == 0 {
      DivModUnique(c - 1, n, -1, n - 1);
    } else {
      DivModUnique(c - 1, n, 0, c - 1);
    }
    if c == n - 1 {
      DivModUnique(c + 1, n, 1, 0);
    } else {
      DivModUnique(c + 1, n, 0, c + 1);
    }
  }

  /** The compartment size: the universe size divided by the grid size on each axis. */
  function CompartmentSize(universeSize: IntVector2D, gridSize: IntVector2D): (r: IntVector2D)
    requires gridSize.x > 0 && gridSize.y > 0 && universeSize.x >= 0 && universeSize.y >= 0
    ensures r.x * gridSize.x <= universeSize.x < (r.x + 1) * gridSize.x
    ensures r.y * gridSize.y <= universeSize.y < (r.y + 1) * gridSize.y
  {
    IntVector2D(universeSize.x / gridSize.x, universeSize.y / gridSize.y)
  }

  /** The rectangle of compartment `(x, y)`, as the compartment-rect test expects it. */
  function CompartmentRect(compartmentSize: IntVector2D, x: int, y: int): IntRect
  {
    IntRect(IntVector2D(x * compartmentSize.x, y * compartmentSize.y),
            IntVector2D((x + 1) * compartmentSize.x - 1, (y + 1) * compartmentSize.y - 1))
  }

  predicate InRect(q: IntVector2D, r: IntRect)
  {
    r.p1.x <= q.x <= r.p2.x && r.p1.y <= q.y <= r.p2.y
  }

  /** Neighbouring compartments abut: each starts one past where the previous one ends. */
  lemma CompartmentsAbut(compartmentSize: IntVector2D, x: int, y: int)
    ensures CompartmentRect(compartmentSize, x + 1, y).p1.x == CompartmentRect(compartmentSize, x, y).p2.x + 1
    ensures CompartmentRect(compartmentSize, x, y + 1).p1.y == CompartmentRect(compartmentSize, x, y).p2.y + 1
  {
  }

  /**
   * With positive compartment sizes the compartments tile the plane: a
   * point lies in the rectangle of compartment `(x, y)` exactly when `(x, y)`
   * is its coordinate divided by the compartment size.
   */
  lemma CompartmentOfPoint(compartmentSize: IntVector2D, q: IntVector2D, x: int, y: int)
    requires compartmentSize.x > 0 && compartmentSize.y > 0
    ensures InRect(q, CompartmentRect(compartmentSize, x, y)) <==>
            x == q.x / compartmentSize.x && y == q.y / compartmentSize.y
  {
    FloorDivision(q.x, compartmentSize.x, x);
    FloorDivision(q.y, compartmentSize.y, y);
  }

  lemma FloorDivision(a: int, n: int, k: int)
    requires n > 0
    ensures k * n <= a <= (k + 1) * n - 1 <==> k == a / n
  {
    if k * n <= a <= (k + 1) * n - 1 {
      DivModUnique(a, n, k, a - k * n);
    }
    if k == a / n {
      assert a == k * n + a % n;
      assert (k + 1) * n == k * n + n;
    }
  }

  /** The compartments of the grid cover the universe up to the whole multiples of the compartment size. */
  lemma GridCoversUniverse(universeSize: IntVector2D, gridSize: IntVector2D, q: IntVector2D)
    requires gridSize.x > 0 && gridSize.y > 0 && universeSize.x >= gridSize.x && universeSize.y >= gridSize.y
    requires var c := CompartmentSize(universeSize, gridSize);
             0 <= q.x < gridSize.x * c.x && 0 <= q.y < gridSize.y * c.y
    ensures var c := CompartmentSize(universeSize, gridSize);
            0 <= q.x / c.x < gridSize.x && 0 <= q.y / c.y < gridSize.y &&
            InRect(q, CompartmentRect(c, q.x / c.x, q.y / c.y))
  {
    var c := CompartmentSize(universeSize, gridSize);
    PositiveQuotient(universeSize.x, gridSize.x);
    PositiveQuotient(universeSize.y, gridSize.y);
    CompartmentOfPoint(c, q, q.x / c.x, q.y / c.y);
    IndexBelow(q.x, c.x, gridSize.x);
    IndexBelow(q.y, c.y, gridSize.y);
  }

  lemma PositiveQuotient(u: int, g: int)
    requires 0 < g <= u
    ensures u / g > 0
  {
    if u / g <= 0 {
      assert false;
    }
  }

  lemma IndexBelow(a: int, c: int, g: int)
    requires c > 0 && 0 <= a < g * c
    ensures 0 <= a / c < g
  {
    if a / c >= g {
      MultiplyMonotone(g, a / c, c);
      assert false;
    }
  }
}
