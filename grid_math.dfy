/**
 * Integer arithmetic shared by the segmented grids and the buffered volumes:
 * three-component unsigned vectors (math::Vector3ui), the row-major index
 * x + y*sx + z*sx*sy and its inverse, and the split of a coordinate into a
 * segment and a local coordinate by `/` and `%`.
 *
 * All operands here are unsigned in the source, so Dafny's Euclidean `/` and
 * `%` agree with C++.
 */
module GridMath {

  /** An unsigned three-component vector (math::Vector3ui). */
  datatype Vec3 = Vec3(x: nat, y: nat, z: nat)

  predicate Positive(v: Vec3) { v.x > 0 && v.y > 0 && v.z > 0 }

  /** `c` lies inside the box [0, bound) on every axis. */
  predicate Below(c: Vec3, bound: Vec3) { c.x < bound.x && c.y < bound.y && c.z < bound.z }

  /** Number of cells in a box of the given size. */
  function Cells(size: Vec3): nat { size.x * size.y * size.z }

  // ---------------------------------------------------------------------------
  // division facts
  // ---------------------------------------------------------------------------

  /** Quotient and remainder are unique: a = q*d + r with r < d fixes both. */
  lemma DivModUnique(a: nat, d: nat, q: nat, r: nat)
    requires d > 0 && r < d && a == q * d + r
    ensures a / d == q && a % d == r
  {
    var q0, r0 := a / d, a % d;
    assert a == q0 * d + r0;
    if q0 < q {
      assert q0 * d + d <= q * d by { MulMono(q0 + 1, q, d); }
      assert false;
    } else if q < q0 {
      assert q * d + d <= q0 * d by { MulMono(q + 1, q0, d); }
      assert false;
    }
  }

  lemma MulMono(a: nat, b: nat, d: nat)
    requires a <= b
    ensures a * d <= b * d
  {
  }

  /** From a product bound to a factor bound. */
  lemma FactorBelow(a: nat, b: nat, c: nat)
    requires a > 0 && a * b < a * c
    ensures b < c
  {
    if c <= b {
      MulMono(c, b, a);
      assert false;
    }
  }

  // ---------------------------------------------------------------------------
  // row-major index
  // ---------------------------------------------------------------------------

  /**
   * Row-major index of `c` in a box of the given size: x + y*sx + z*sx*sy.
   * Every coordinate inside the box gets an index below the cell count.
   */
  function RowMajor(size: Vec3, c: Vec3): (i: nat)
    ensures Below(c, size) ==> i < Cells(size)
  {
    RowMajorBelow(size, c);
    c.x + c.y * size.x + c.z * size.x * size.y
  }

  lemma RowMajorBelow(size: Vec3, c: Vec3)
    ensures Below(c, size) ==> c.x + c.y * size.x + c.z * size.x * size.y < Cells(size)
  {
    if !Below(c, size) {
      return;
    }
    var sx, sy, sz := size.x, size.y, size.z;
    RowBelow(c.x, c.y, sx, sy);
    assert c.z * sx * sy + sx * sy <= sx * sy * sz by {
      MulMono(c.z + 1, sz, sx * sy);
    }
  }

  /** Within one z-slice the index stays below the slice size. */
  lemma RowBelow(x: nat, y: nat, sx: nat, sy: nat)
    requires x < sx && y < sy
    ensures x + y * sx < sx * sy
  {
    calc {
      x + y * sx;
    <
      sx + y * sx;
    ==
      (y + 1) * sx;
    <= { MulMono(y + 1, sy, sx); }
      sy * sx;
    }
  }

  /** The coordinate whose row-major index is `i`: the inverse of RowMajor. */
  function FromRowMajor(size: Vec3, i: nat): (c: Vec3)
    requires Positive(size)
    ensures i < Cells(size) ==> Below(c, size) && RowMajor(size, c) == i
  {
    var c := Vec3(i % size.x, (i / size.x) % size.y, i / (size.x * size.y));
    assert i < Cells(size) ==> Below(c, size) && RowMajor(size, c) == i by {
      if i < Cells(size) { FromRowMajorInverse(size, i); }
    }
    c
  }

  lemma FromRowMajorInverse(size: Vec3, i: nat)
    requires Positive(size) && i < Cells(size)
    ensures var c := Vec3(i % size.x, (i / size.x) % size.y, i / (size.x * size.y));
            Below(c, size) && c.x + c.y * size.x + c.z * size.x * size.y == i
  {
    var sx, sy, sz := size.x, size.y, size.z;
    var q: nat, x: nat := i / sx, i % sx;
    var z: nat, y: nat := q / sy, q % sy;
    assert i == q * sx + x;
    assert q == z * sy + y;
    Regroup(x, y, z, sx, sy);
    assert i == z * (sx * sy) + (x + y * sx);
    RowBelow(x, y, sx, sy);
    DivModUnique(i, sx * sy, z, x + y * sx);
    assert z < sz by {
      assert (sx * sy) * z <= i;
      assert i < (sx * sy) * sz;
      FactorBelow(sx * sy, z, sz);
    }
  }

  /** (z*sy + y)*sx + x written both ways the index formulas use. */
  lemma Regroup(x: nat, y: nat, z: nat, sx: nat, sy: nat)
    ensures (z * sy + y) * sx + x == z * (sx * sy) + (x + y * sx)
    ensures z * (sx * sy) + (x + y * sx) == x + y * sx + z * sx * sy
  {
  }

  /** RowMajor is a bijection between the box and [0, Cells(size)). */
  lemma {:induction false} RowMajorBijective(size: Vec3, c: Vec3)
    requires Positive(size) && Below(c, size)
    ensures RowMajor(size, c) < Cells(size)
    ensures FromRowMajor(size, RowMajor(size, c)) == c
  {
    var sx, sy := size.x, size.y;
    var i := RowMajor(size, c);
    Regroup(c.x, c.y, c.z, sx, sy);
    assert i == (c.z * sy + c.y) * sx + c.x;
    DivModUnique(i, sx, c.z * sy + c.y, c.x);
    DivModUnique(c.z * sy + c.y, sy, c.z, c.y);
    RowBelow(c.x, c.y, sx, sy);
    DivModUnique(i, sx * sy, c.z, c.x + c.y * sx);
  }

  /** Two coordinates of the box share an index only if they are equal. */
  lemma RowMajorInjective(size: Vec3, c: Vec3, d: Vec3)
    requires Positive(size) && Below(c, size) && Below(d, size)
    requires RowMajor(size, c) == RowMajor(size, d)
    ensures c == d
  {
    RowMajorBijective(size, c);
    RowMajorBijective(size, d);
  }

  // ---------------------------------------------------------------------------
  // segment / local split
  // ---------------------------------------------------------------------------

  /** Segment coordinate containing global coordinate `c`: c / max per axis. */
  function SegmentOf(max: Vec3, c: Vec3): (s: Vec3)
    requires Positive(max)
    ensures s.x * max.x <= c.x < s.x * max.x + max.x
    ensures s.y * max.y <= c.y < s.y * max.y + max.y
    ensures s.z * max.z <= c.z < s.z * max.z + max.z
  {
    Vec3(c.x / max.x, c.y / max.y, c.z / max.z)
  }

  /** Local coordinate of `c` inside its segment: c % max per axis. */
  function LocalOf(max: Vec3, c: Vec3): (l: Vec3)
    requires Positive(max)
    ensures Below(l, max)
  {
    Vec3(c.x % max.x, c.y % max.y, c.z % max.z)
  }

  /** Offset of a segment: its coordinate times the maximum segment size. */
  function Offset(max: Vec3, s: Vec3): Vec3
  {
    Vec3(s.x * max.x, s.y * max.y, s.z * max.z)
  }

  function Add(a: Vec3, b: Vec3): Vec3 { Vec3(a.x + b.x, a.y + b.y, a.z + b.z) }

  /**
   * The split of a coordinate is exact and unique: segment offset plus local
   * coordinate gives the coordinate back, and a segment plus a local
   * coordinate inside the maximum size splits back into themselves.
   */
  lemma {:induction false} SplitRoundTrip(max: Vec3, c: Vec3, s: Vec3, l: Vec3)
    requires Positive(max)
    ensures Add(Offset(max, SegmentOf(max, c)), LocalOf(max, c)) == c
    ensures Below(l, max) ==>
              SegmentOf(max, Add(Offset(max, s), l)) == s && LocalOf(max, Add(Offset(max, s), l)) == l
  {
    if Below(l, max) {
      DivModUnique(s.x * max.x + l.x, max.x, s.x, l.x);
      DivModUnique(s.y * max.y + l.y, max.y, s.y, l.y);
      DivModUnique(s.z * max.z + l.z, max.z, s.z, l.z);
    }
  }

}
