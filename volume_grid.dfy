/**
 * base::VolumeGrid: a volume partitioned into segments of at most
 * maxSegmentSize voxels per axis, laid out in a segmentCounts grid.
 *
 * Segments are not disjoint. Every segment that has a successor along an
 * axis carries one redundant texel layer on that axis (local index
 * maxSegmentSize), which duplicates the first layer of the successor, so
 * that texture interpolation is seamless across segment borders. setVoxel
 * therefore writes a voxel into its own segment and, when the voxel lies on
 * the first layer of a segment, into up to seven predecessors as well.
 *
 * The model keeps, per selector (IntensitySelector, NormalSelector), one
 * sequence of segment volumes indexed by segment index. A segment volume is
 * modelled by its size and its content; how the content is laid out in a
 * buffer is the concern of the BufferedVolumes module.
 */
module VolumeGrids {

  import opened GridMath
  import opened Wrappers

  /** The content of one segment volume: its size and the voxel at each local coordinate. */
  datatype SegmentVolume<V> = SegmentVolume(size: Vec3, at: Vec3 -> V)

  /** The volumes of one selector, one slot per segment index; None until initialised. */
  type Volumes<V> = seq<Option<SegmentVolume<V>>>

  // ---------------------------------------------------------------------------
  // one axis of a partitioned grid
  // ---------------------------------------------------------------------------

  /**
   * A partitioning along one axis: `count` segments of which all but the last
   * hold `max` voxels plus one redundant texel; the last holds `tail` voxels.
   */
  predicate AxisValid(max: nat, count: nat, tail: nat)
  {
    max > 0 && count > 0 && 0 < tail <= max
  }

  /** Texels of segment `s` along one axis (the helper's segment sizing). */
  function SegmentLength(max: nat, count: nat, tail: nat, s: nat): nat
  {
    if s + 1 == count then tail else max + 1
  }

  /** Number of voxels covered along one axis (Partitioning::totalSize). */
  function AxisResolution(max: nat, count: nat, tail: nat): nat
    requires count > 0
  {
    (count - 1) * max + tail
  }

  /**
   * Texel `l` of segment `s` holds global coordinate `g`: either it is the
   * primary position g / max, g % max, or g starts a segment and the texel
   * is the redundant layer `max` of the predecessor.
   */
  predicate AxisHit(max: nat, g: nat, s: nat, l: nat)
    requires max > 0
  {
    (s == g / max && l == g % max) || (g % max == 0 && g / max > 0 && s == g / max - 1 && l == max)
  }

  /** The texels that hold a global coordinate are exactly the ones AxisHit names. */
  lemma {:induction false} AxisHitIff(max: nat, count: nat, tail: nat, g: nat, s: nat, l: nat)
    requires AxisValid(max, count, tail) && s < count && l < SegmentLength(max, count, tail, s)
    ensures AxisHit(max, g, s, l) <==> s * max + l == g
  {
    if s * max + l == g {
      if l < max {
        DivModUnique(g, max, s, l);
      } else {
        assert l == max && s + 1 < count;
        DivModUnique(g, max, s + 1, 0);
      }
    }
    if s == g / max && l == g % max {
      assert g == s * max + l;
    }
    if g % max == 0 && g / max > 0 && s == g / max - 1 && l == max {
      assert g == (s + 1) * max;
    }
  }

  /** Every texel holds a coordinate inside the resolution. */
  lemma {:induction false} AxisTexelInRange(max: nat, count: nat, tail: nat, s: nat, l: nat)
    requires AxisValid(max, count, tail) && s < count && l < SegmentLength(max, count, tail, s)
    ensures s * max + l < AxisResolution(max, count, tail)
  {
    if s + 1 < count {
      MulMono(s + 1, count - 1, max);
    } else {
      assert s == count - 1;
    }
  }

  /** The primary position of a coordinate inside the resolution exists. */
  lemma {:induction false} AxisPrimary(max: nat, count: nat, tail: nat, g: nat)
    requires AxisValid(max, count, tail) && g < AxisResolution(max, count, tail)
    ensures g / max < count && g % max < SegmentLength(max, count, tail, g / max)
  {
    var q, r := g / max, g % max;
    assert g == q * max + r;
    if count <= q {
      MulMono(count, q, max);
      assert false;
    }
    if q + 1 == count {
      assert r == g - (count - 1) * max;
    }
  }

  // ---------------------------------------------------------------------------
  // the three-dimensional grid
  // ---------------------------------------------------------------------------

  predicate GridValid(max: Vec3, counts: Vec3, tail: Vec3)
  {
    AxisValid(max.x, counts.x, tail.x) && AxisValid(max.y, counts.y, tail.y) && AxisValid(max.z, counts.z, tail.z)
  }

  /** Size of the segment volume at segment coordinate `s`. */
  function SegmentSize(max: Vec3, counts: Vec3, tail: Vec3, s: Vec3): Vec3
  {
    Vec3(SegmentLength(max.x, counts.x, tail.x, s.x),
         SegmentLength(max.y, counts.y, tail.y, s.y),
         SegmentLength(max.z, counts.z, tail.z, s.z))
  }

  /** Voxels covered by the grid along each axis. */
  function Resolution(max: Vec3, counts: Vec3, tail: Vec3): Vec3
    requires Positive(counts)
  {
    Vec3(AxisResolution(max.x, counts.x, tail.x),
         AxisResolution(max.y, counts.y, tail.y),
         AxisResolution(max.z, counts.z, tail.z))
  }

  /** Global coordinate held by texel `l` of segment `s`. */
  function Global(max: Vec3, s: Vec3, l: Vec3): Vec3
  {
    Add(Offset(max, s), l)
  }

  /** Texel `l` of segment `s` holds global coordinate `c`, written per axis. */
  predicate Hit(max: Vec3, c: Vec3, s: Vec3, l: Vec3)
    requires Positive(max)
  {
    AxisHit(max.x, c.x, s.x, l.x) && AxisHit(max.y, c.y, s.y, l.y) && AxisHit(max.z, c.z, s.z, l.z)
  }

  /** Every segment volume is initialised with the size its position calls for. */
  predicate WellSized<V>(max: Vec3, counts: Vec3, tail: Vec3, vols: Volumes<V>)
  {
    GridValid(max, counts, tail) && |vols| == Cells(counts)
    && forall i :: 0 <= i < |vols| ==>
         vols[i].Some? && vols[i].value.size == SegmentSize(max, counts, tail, FromRowMajor(counts, i))
  }

  /** Global coordinate `c` has a primary texel that can be read. */
  predicate Readable<V>(max: Vec3, counts: Vec3, vols: Volumes<V>, c: Vec3)
  {
    Positive(max) && Positive(counts) && |vols| == Cells(counts)
    && Below(SegmentOf(max, c), counts)
    && vols[RowMajor(counts, SegmentOf(max, c))].Some?
    && Below(LocalOf(max, c), vols[RowMajor(counts, SegmentOf(max, c))].value.size)
  }

  /**
   * getVoxel: the segment is c / maxSegmentSize and the local coordinate
   * c % maxSegmentSize. When the redundant texels are consistent, every
   * texel that holds `c` agrees with the result.
   */
  function GetVoxel<V>(max: Vec3, counts: Vec3, vols: Volumes<V>, c: Vec3): (r: V)
    requires Readable(max, counts, vols, c)
  {
    vols[RowMajor(counts, SegmentOf(max, c))].value.at(LocalOf(max, c))
  }

  /** getVoxel reads a texel that holds `c`. */
  lemma {:induction false} GetVoxelHoldsTexel<V>(max: Vec3, counts: Vec3, vols: Volumes<V>, c: Vec3)
    requires Readable(max, counts, vols, c)
    ensures exists i, p :: 0 <= i < |vols| && vols[i].Some? && Below(p, vols[i].value.size)
              && Global(max, FromRowMajor(counts, i), p) == c && GetVoxel(max, counts, vols, c) == vols[i].value.at(p)
  {
    var s, l := SegmentOf(max, c), LocalOf(max, c);
    RowMajorBijective(counts, s);
    SplitRoundTrip(max, c, c, c);
    assert Global(max, FromRowMajor(counts, RowMajor(counts, s)), l) == c;
  }

  /**
   * The redundant texels agree with the voxels they duplicate: every texel
   * of every segment equals the voxel at the global coordinate it holds.
   */
  ghost predicate Consistent<V>(max: Vec3, counts: Vec3, tail: Vec3, vols: Volumes<V>)
  {
    WellSized(max, counts, tail, vols)
    && forall i, p ::
         (0 <= i < |vols| && Below(p, vols[i].value.size)
          && Readable(max, counts, vols, Global(max, FromRowMajor(counts, i), p))) ==>
           vols[i].value.at(p) == GetVoxel(max, counts, vols, Global(max, FromRowMajor(counts, i), p))
  }

  /** Every coordinate inside the resolution is readable. */
  lemma {:induction false} ResolutionReadable<V>(max: Vec3, counts: Vec3, tail: Vec3, vols: Volumes<V>, c: Vec3)
    requires WellSized(max, counts, tail, vols) && Below(c, Resolution(max, counts, tail))
    ensures Readable(max, counts, vols, c)
  {
    AxisPrimary(max.x, counts.x, tail.x, c.x);
    AxisPrimary(max.y, counts.y, tail.y, c.y);
    AxisPrimary(max.z, counts.z, tail.z, c.z);
    var s := SegmentOf(max, c);
    RowMajorBijective(counts, s);
  }

  /** A texel of a segment holds `c` exactly when Hit says so, and holds a coordinate inside the resolution. */
  lemma {:induction false} HitIff(max: Vec3, counts: Vec3, tail: Vec3, c: Vec3, s: Vec3, l: Vec3)
    requires GridValid(max, counts, tail) && Below(s, counts) && Below(l, SegmentSize(max, counts, tail, s))
    ensures Hit(max, c, s, l) <==> Global(max, s, l) == c
    ensures Below(Global(max, s, l), Resolution(max, counts, tail))
  {
    AxisHitIff(max.x, counts.x, tail.x, c.x, s.x, l.x);
    AxisHitIff(max.y, counts.y, tail.y, c.y, s.y, l.y);
    AxisHitIff(max.z, counts.z, tail.z, c.z, s.z, l.z);
    AxisTexelInRange(max.x, counts.x, tail.x, s.x, l.x);
    AxisTexelInRange(max.y, counts.y, tail.y, s.y, l.y);
    AxisTexelInRange(max.z, counts.z, tail.z, s.z, l.z);
  }

  // ---------------------------------------------------------------------------
  // writing
  // ---------------------------------------------------------------------------

  /**
   * One voxel write into the volume of segment `s` at local coordinate `l`
   * (the segment volume's setVoxel, which asserts `l` inside its size).
   */
  function Put<V>(max: Vec3, counts: Vec3, vols: Volumes<V>, s: Vec3, l: Vec3, v: V): (r: Volumes<V>)
    requires Positive(counts) && |vols| == Cells(counts) && Below(s, counts)
    requires vols[RowMajor(counts, s)].Some? && Below(l, vols[RowMajor(counts, s)].value.size)
    ensures |r| == |vols|
    ensures forall i :: 0 <= i < |r| ==> r[i].Some? == vols[i].Some?
    ensures forall i :: 0 <= i < |r| && r[i].Some? ==> r[i].value.size == vols[i].value.size
    ensures forall i, p :: 0 <= i < |r| && r[i].Some? ==>
              r[i].value.at(p) == if FromRowMajor(counts, i) == s && p == l then v else vols[i].value.at(p)
  {
    var k := RowMajor(counts, s);
    var sv := vols[k].value;
    var r := vols[k := Some(sv.(at := q => if q == l then v else sv.at(q)))];
    RowMajorBijective(counts, s);
    assert forall i :: 0 <= i < |r| ==> (FromRowMajor(counts, i) == s <==> i == k);
    r
  }

  /**
   * setVoxel on the volumes of one selector. Writes `v` at c / max, c % max
   * and, for every axis on which c starts a segment that has a predecessor,
   * into the redundant layer of the predecessors (three edge neighbours,
   * three face-diagonal ones and the corner one).
   *
   * The result differs from `vols` exactly at the texels that hold `c`.
   */
  method WriteVoxel<V>(max: Vec3, counts: Vec3, ghost tail: Vec3, vols: Volumes<V>, c: Vec3, v: V)
    returns (r: Volumes<V>)
    requires Positive(max) && WellSized(max, counts, tail, vols)
    requires Below(c, Resolution(max, counts, tail))
    ensures WellSized(max, counts, tail, r)
    ensures forall i, p :: 0 <= i < |r| ==>
              r[i].value.at(p) == if Hit(max, c, FromRowMajor(counts, i), p) then v else vols[i].value.at(p)
  {
    var s := SegmentOf(max, c);
    var l := LocalOf(max, c);
    ResolutionReadable(max, counts, tail, vols, c);
    RowMajorBijective(counts, s);
    ghost var written: set<(Vec3, Vec3)> := {};
    r, written := WriteAt(max, counts, tail, vols, vols, v, written, s, l);
    assert written == {(s, l)};
    r, written := WriteRedundantLayers(max, counts, tail, vols, r, v, written, s, l);
    forall a, b ensures (a, b) in written <==> Hit(max, c, a, b) {
      TargetsAreHits(max, c, a, b);
    }
  }

  /**
   * The (segment, local) pairs setVoxel writes for a voxel at segment `s`,
   * local `l`: the primary texel, then one redundant texel per combination
   * of axes on which `l` is 0 and `s` has a predecessor.
   */
  ghost function Targets(max: Vec3, s: Vec3, l: Vec3): set<(Vec3, Vec3)>
  {
    var rx, ry, rz := l.x == 0 && s.x > 0, l.y == 0 && s.y > 0, l.z == 0 && s.z > 0;
    var px, py, pz := if s.x > 0 then s.x - 1 else 0, if s.y > 0 then s.y - 1 else 0, if s.z > 0 then s.z - 1 else 0;
    {(s, l)}
    + (if rx then {(Vec3(px, s.y, s.z), Vec3(max.x, l.y, l.z))} else {})
    + (if ry then {(Vec3(s.x, py, s.z), Vec3(l.x, max.y, l.z))} else {})
    + (if rz then {(Vec3(s.x, s.y, pz), Vec3(l.x, l.y, max.z))} else {})
    + (if rx && ry then {(Vec3(px, py, s.z), Vec3(max.x, max.y, l.z))} else {})
    + (if rx && rz then {(Vec3(px, s.y, pz), Vec3(max.x, l.y, max.z))} else {})
    + (if ry && rz then {(Vec3(s.x, py, pz), Vec3(l.x, max.y, max.z))} else {})
    + (if rx && ry && rz then {(Vec3(px, py, pz), max)} else {})
  }

  lemma TargetsAre(max: Vec3, s: Vec3, l: Vec3, written: set<(Vec3, Vec3)>, rx: bool, ry: bool, rz: bool, px: nat, py: nat, pz: nat)
    requires rx == (l.x == 0 && s.x > 0) && ry == (l.y == 0 && s.y > 0) && rz == (l.z == 0 && s.z > 0)
    requires px == (if s.x > 0 then s.x - 1 else 0) && py == (if s.y > 0 then s.y - 1 else 0) && pz == (if s.z > 0 then s.z - 1 else 0)
    requires written == {(s, l)}
                        + (if rx then {(Vec3(px, s.y, s.z), Vec3(max.x, l.y, l.z))} else {})
                        + (if ry then {(Vec3(s.x, py, s.z), Vec3(l.x, max.y, l.z))} else {})
                        + (if rz then {(Vec3(s.x, s.y, pz), Vec3(l.x, l.y, max.z))} else {})
                        + (if rx && ry then {(Vec3(px, py, s.z), Vec3(max.x, max.y, l.z))} else {})
                        + (if rx && rz then {(Vec3(px, s.y, pz), Vec3(max.x, l.y, max.z))} else {})
                        + (if ry && rz then {(Vec3(s.x, py, pz), Vec3(l.x, max.y, max.z))} else {})
                        + (if rx && ry && rz then {(Vec3(px, py, pz), max)} else {})
    ensures written == Targets(max, s, l)
  {
  }

  /** The written pairs are exactly the texels that hold `c`. */
  lemma {:induction false} TargetsAreHits(max: Vec3, c: Vec3, a: Vec3, b: Vec3)
    requires Positive(max)
    ensures (a, b) in Targets(max, SegmentOf(max, c), LocalOf(max, c)) <==> Hit(max, c, a, b)
  {
  }

  /** One write of setVoxel, with the bookkeeping of the pairs written so far. */
  method WriteAt<V>(max: Vec3, counts: Vec3, ghost tail: Vec3, ghost vols: Volumes<V>, r: Volumes<V>, v: V,
                    ghost written: set<(Vec3, Vec3)>, s: Vec3, l: Vec3)
    returns (r': Volumes<V>, ghost written': set<(Vec3, Vec3)>)
    requires WellSized(max, counts, tail, vols) && WellSized(max, counts, tail, r)
    requires UpdatedAt(counts, vols, r, v, written)
    requires Below(s, counts) && Below(l, SegmentSize(max, counts, tail, s))
    ensures WellSized(max, counts, tail, r')
    ensures written' == written + {(s, l)}
    ensures UpdatedAt(counts, vols, r', v, written')
  {
    PutStep(max, counts, tail, vols, r, v, written, s, l);
    r', written' := PutSized(max, counts, tail, r, s, l, v), written + {(s, l)};
  }

  /**
   * The writes of setVoxel into the redundant layers of the predecessor
   * segments, after the write of the primary texel (s, l).
   */
  method WriteRedundantLayers<V>(max: Vec3, counts: Vec3, ghost tail: Vec3, ghost vols: Volumes<V>, r0: Volumes<V>, v: V,
                                 ghost written0: set<(Vec3, Vec3)>, s: Vec3, l: Vec3)
    returns (r: Volumes<V>, ghost written: set<(Vec3, Vec3)>)
    requires WellSized(max, counts, tail, vols) && WellSized(max, counts, tail, r0)
    requires UpdatedAt(counts, vols, r0, v, written0) && written0 == {(s, l)}
    requires GridValid(max, counts, tail) && Below(s, counts) && Below(l, SegmentSize(max, counts, tail, s))
    ensures WellSized(max, counts, tail, r)
    ensures written == Targets(max, s, l)
    ensures UpdatedAt(counts, vols, r, v, written)
  {
    r, written := r0, written0;
    var redundantX := l.x == 0 && s.x > 0;
    var redundantY := l.y == 0 && s.y > 0;
    var redundantZ := l.z == 0 && s.z > 0;

    // the predecessor indices, used only where the segment has a predecessor on that axis
    var px, py, pz := if s.x > 0 then s.x - 1 else 0, if s.y > 0 then s.y - 1 else 0, if s.z > 0 then s.z - 1 else 0;
    r, written := WriteRedundant(max, counts, tail, vols, r, v, written, s, l, redundantX,
                                 Vec3(px, s.y, s.z), Vec3(max.x, l.y, l.z));
    r, written := WriteRedundant(max, counts, tail, vols, r, v, written, s, l, redundantY,
                                 Vec3(s.x, py, s.z), Vec3(l.x, max.y, l.z));
    r, written := WriteRedundant(max, counts, tail, vols, r, v, written, s, l, redundantZ,
                                 Vec3(s.x, s.y, pz), Vec3(l.x, l.y, max.z));
    r, written := WriteRedundant(max, counts, tail, vols, r, v, written, s, l, redundantX && redundantY,
                                 Vec3(px, py, s.z), Vec3(max.x, max.y, l.z));
    r, written := WriteRedundant(max, counts, tail, vols, r, v, written, s, l, redundantX && redundantZ,
                                 Vec3(px, s.y, pz), Vec3(max.x, l.y, max.z));
    r, written := WriteRedundant(max, counts, tail, vols, r, v, written, s, l, redundantY && redundantZ,
                                 Vec3(s.x, py, pz), Vec3(l.x, max.y, max.z));
    r, written := WriteRedundant(max, counts, tail, vols, r, v, written, s, l, redundantX && redundantY && redundantZ,
                                 Vec3(px, py, pz), max);
    TargetsAre(max, s, l, written, redundantX, redundantY, redundantZ, px, py, pz);
  }

  /**
   * One conditional write of setVoxel into the redundant layer of a
   * predecessor segment `t`, at local coordinate `u`.
   */
  method WriteRedundant<V>(max: Vec3, counts: Vec3, ghost tail: Vec3, ghost vols: Volumes<V>, r: Volumes<V>, v: V,
                           ghost written: set<(Vec3, Vec3)>, s: Vec3, l: Vec3, redundant: bool, t: Vec3, u: Vec3)
    returns (r': Volumes<V>, ghost written': set<(Vec3, Vec3)>)
    requires WellSized(max, counts, tail, vols) && WellSized(max, counts, tail, r)
    requires UpdatedAt(counts, vols, r, v, written)
    requires GridValid(max, counts, tail) && Below(s, counts) && Below(l, SegmentSize(max, counts, tail, s))
    requires redundant ==>
               ((t.x == s.x && u.x == l.x) || (l.x == 0 && s.x > 0 && t.x == s.x - 1 && u.x == max.x))
               && ((t.y == s.y && u.y == l.y) || (l.y == 0 && s.y > 0 && t.y == s.y - 1 && u.y == max.y))
               && ((t.z == s.z && u.z == l.z) || (l.z == 0 && s.z > 0 && t.z == s.z - 1 && u.z == max.z))
    ensures WellSized(max, counts, tail, r')
    ensures written' == written + (if redundant then {(t, u)} else {})
    ensures UpdatedAt(counts, vols, r', v, written')
  {
    if redundant {
      PredecessorFits(max, counts, tail, s, l, t, u);
      r', written' := WriteAt(max, counts, tail, vols, r, v, written, t, u);
    } else {
      r', written' := r, written;
    }
  }

  /**
   * A texel in the redundant layer of a predecessor exists: stepping back
   * on the axes where `l` is 0 and `s` is positive, and using local index
   * max there, stays inside the grid and inside that segment's size.
   */
  lemma PredecessorFits(max: Vec3, counts: Vec3, tail: Vec3, s: Vec3, l: Vec3, t: Vec3, u: Vec3)
    requires GridValid(max, counts, tail) && Below(s, counts) && Below(l, SegmentSize(max, counts, tail, s))
    requires (t.x == s.x && u.x == l.x) || (l.x == 0 && s.x > 0 && t.x == s.x - 1 && u.x == max.x)
    requires (t.y == s.y && u.y == l.y) || (l.y == 0 && s.y > 0 && t.y == s.y - 1 && u.y == max.y)
    requires (t.z == s.z && u.z == l.z) || (l.z == 0 && s.z > 0 && t.z == s.z - 1 && u.z == max.z)
    ensures Below(t, counts) && Below(u, SegmentSize(max, counts, tail, t))
  {
  }

  /** `r` is `vols` with `v` written at exactly the (segment, local) pairs of `written`. */
  ghost predicate UpdatedAt<V>(counts: Vec3, vols: Volumes<V>, r: Volumes<V>, v: V, written: set<(Vec3, Vec3)>)
    requires Positive(counts)
  {
    |r| == |vols|
    && forall i, p :: 0 <= i < |r| && r[i].Some? && vols[i].Some? ==>
         r[i].value.at(p) == if (FromRowMajor(counts, i), p) in written then v else vols[i].value.at(p)
  }

  lemma PutStep<V>(max: Vec3, counts: Vec3, tail: Vec3, vols: Volumes<V>, r: Volumes<V>, v: V,
                   written: set<(Vec3, Vec3)>, s: Vec3, l: Vec3)
    requires WellSized(max, counts, tail, vols) && WellSized(max, counts, tail, r)
    requires UpdatedAt(counts, vols, r, v, written)
    requires Below(s, counts) && Below(l, SegmentSize(max, counts, tail, s))
    ensures UpdatedAt(counts, vols, PutSized(max, counts, tail, r, s, l, v), v, written + {(s, l)})
  {
  }

  /**
   * A write into a segment of a well-sized grid at a local coordinate
   * inside the size its position calls for; keeps the grid well sized.
   */
  function PutSized<V>(max: Vec3, counts: Vec3, ghost tail: Vec3, vols: Volumes<V>, s: Vec3, l: Vec3, v: V): (r: Volumes<V>)
    requires WellSized(max, counts, tail, vols) && Below(s, counts)
    requires Below(l, SegmentSize(max, counts, tail, s))
    ensures WellSized(max, counts, tail, r)
    ensures forall i, p :: 0 <= i < |r| ==>
              r[i].value.at(p) == if FromRowMajor(counts, i) == s && p == l then v else vols[i].value.at(p)
  {
    RowMajorBijective(counts, s);
    Put(max, counts, vols, s, l, v)
  }


  // ---------------------------------------------------------------------------
  // consistency of the redundant texels
  // ---------------------------------------------------------------------------

  /** The primary texel of a readable coordinate holds that coordinate. */
  lemma {:induction false} PrimaryTexel<V>(max: Vec3, counts: Vec3, tail: Vec3, vols: Volumes<V>, g: Vec3)
    requires WellSized(max, counts, tail, vols) && Readable(max, counts, vols, g)
    ensures FromRowMajor(counts, RowMajor(counts, SegmentOf(max, g))) == SegmentOf(max, g)
    ensures Global(max, SegmentOf(max, g), LocalOf(max, g)) == g
    ensures Below(LocalOf(max, g), SegmentSize(max, counts, tail, SegmentOf(max, g)))
  {
    RowMajorBijective(counts, SegmentOf(max, g));
    SplitRoundTrip(max, g, g, g);
  }

  /** Freshly allocated segment volumes holding one value everywhere are consistent. */
  lemma UniformConsistent<V>(max: Vec3, counts: Vec3, tail: Vec3, vols: Volumes<V>, v: V)
    requires WellSized(max, counts, tail, vols)
    requires forall i, p :: 0 <= i < |vols| ==> vols[i].value.at(p) == v
    ensures Consistent(max, counts, tail, vols)
  {
  }

  /**
   * setVoxel keeps the redundant texels consistent, after it getVoxel at the
   * written coordinate gives the written value, and every other coordinate
   * reads as before.
   */
  lemma {:induction false} WritePreservesConsistency<V>(max: Vec3, counts: Vec3, tail: Vec3, vols: Volumes<V>,
                                                        r: Volumes<V>, c: Vec3, v: V)
    requires Positive(max) && Consistent(max, counts, tail, vols) && WellSized(max, counts, tail, r)
    requires Below(c, Resolution(max, counts, tail))
    requires forall i, p :: 0 <= i < |r| ==>
               r[i].value.at(p) == if Hit(max, c, FromRowMajor(counts, i), p) then v else vols[i].value.at(p)
    ensures Consistent(max, counts, tail, r)
    ensures Readable(max, counts, r, c) && GetVoxel(max, counts, r, c) == v
    ensures forall g :: Readable(max, counts, vols, g) && g != c ==>
              Readable(max, counts, r, g) && GetVoxel(max, counts, r, g) == GetVoxel(max, counts, vols, g)
  {
    forall g | Readable(max, counts, vols, g)
      ensures Readable(max, counts, r, g)
      ensures GetVoxel(max, counts, r, g) == if g == c then v else GetVoxel(max, counts, vols, g)
    {
      PrimaryTexel(max, counts, tail, vols, g);
      HitIff(max, counts, tail, c, SegmentOf(max, g), LocalOf(max, g));
    }
    ResolutionReadable(max, counts, tail, vols, c);
    forall i, p | 0 <= i < |r| && Below(p, r[i].value.size)
      ensures Readable(max, counts, r, Global(max, FromRowMajor(counts, i), p))
      ensures r[i].value.at(p) == GetVoxel(max, counts, r, Global(max, FromRowMajor(counts, i), p))
    {
      var s := FromRowMajor(counts, i);
      HitIff(max, counts, tail, c, s, p);
      ResolutionReadable(max, counts, tail, vols, Global(max, s, p));
    }
  }


  /**
   * The constructor's loop: visits z, then y, then x, and stores at the
   * segment index of (x, y, z) the offset (x, y, z) times the maximum
   * segment size.
   */
  method SegmentOffsets(max: Vec3, counts: Vec3) returns (offsets: seq<Vec3>)
    requires Positive(counts)
    ensures |offsets| == Cells(counts)
    ensures forall i :: 0 <= i < |offsets| ==> offsets[i] == Offset(max, FromRowMajor(counts, i))
  {
    var cx, cy, cz := counts.x, counts.y, counts.z;
    offsets := seq(Cells(counts), _ => Vec3(0, 0, 0));
    var k := 0;
    var z := 0;
    while z < cz
      invariant z <= cz && k == RowMajor(counts, Vec3(0, 0, z))
      invariant |offsets| == Cells(counts) && OffsetsUpTo(max, counts, offsets, k)
    {
      var y := 0;
      while y < cy
        invariant y <= cy && k == RowMajor(counts, Vec3(0, y, z))
        invariant |offsets| == Cells(counts) && OffsetsUpTo(max, counts, offsets, k)
      {
        var x := 0;
        while x < cx
          invariant x <= cx && k == RowMajor(counts, Vec3(x, y, z))
          invariant |offsets| == Cells(counts) && OffsetsUpTo(max, counts, offsets, k)
        {
          var index := RowMajor(counts, Vec3(x, y, z));
          RowMajorBijective(counts, Vec3(x, y, z));
          offsets := offsets[index := Offset(max, Vec3(x, y, z))];
          x, k := x + 1, k + 1;
        }
        RowMajorCarry(counts, y, z);
        y := y + 1;
      }
      RowMajorCarry(counts, cy, z);
      z := z + 1;
    }
    RowMajorCarry(counts, cy, cz);
  }

  /** The first `k` entries hold the offsets of their segments. */
  ghost predicate OffsetsUpTo(max: Vec3, counts: Vec3, offsets: seq<Vec3>, k: nat)
    requires Positive(counts)
  {
    k <= |offsets| && forall i :: 0 <= i < k ==> offsets[i] == Offset(max, FromRowMajor(counts, i))
  }

  /**
   * Stepping past the end of a row (or of a plane) reaches the start of the
   * next one; past the last plane lies the cell count.
   */
  lemma RowMajorCarry(counts: Vec3, y: nat, z: nat)
    ensures RowMajor(counts, Vec3(counts.x, y, z)) == RowMajor(counts, Vec3(0, y + 1, z))
    ensures y == counts.y ==> RowMajor(counts, Vec3(0, y, z)) == RowMajor(counts, Vec3(0, 0, z + 1))
    ensures RowMajor(counts, Vec3(0, 0, counts.z)) == Cells(counts)
  {
    var cx, cy := counts.x, counts.y;
    assert (y + 1) * cx == y * cx + cx;
    assert (z + 1) * cx * cy == z * cx * cy + cx * cy;
    assert cx * cy * counts.z == counts.z * cx * cy;
  }

  // ---------------------------------------------------------------------------
  // the grid object
  // ---------------------------------------------------------------------------

  /**
   * base::VolumeGrid: the segments, each with its offset and its intensity
   * and normal volumes (None until the helper assigns one). Segment i of
   * the sequences is the segment at FromRowMajor(segmentCounts, i).
   */
  class VolumeGrid<I, N> {
    const maxSegmentSize: Vec3
    const segmentCounts: Vec3
    var offsets: seq<Vec3>
    var intensities: Volumes<I>
    var normals: Volumes<N>

    ghost predicate Valid()
      reads this
    {
      Positive(maxSegmentSize) && Positive(segmentCounts)
      && |offsets| == Cells(segmentCounts)
      && |intensities| == Cells(segmentCounts) && |normals| == Cells(segmentCounts)
      && forall i :: 0 <= i < |offsets| ==> offsets[i] == Offset(maxSegmentSize, FromRowMajor(segmentCounts, i))
    }

    /**
     * Creates one segment per segment coordinate, visiting z, then y, then
     * x, and gives the segment at (x, y, z) the offset (x, y, z) times the
     * maximum segment size.
     */
    constructor(maxSegmentSize: Vec3, segmentCounts: Vec3)
      requires Positive(maxSegmentSize) && Positive(segmentCounts)
      ensures Valid()
      ensures this.maxSegmentSize == maxSegmentSize && this.segmentCounts == segmentCounts
      ensures forall i :: 0 <= i < |intensities| ==> intensities[i].None?
      ensures forall i :: 0 <= i < |normals| ==> normals[i].None?
    {
      this.maxSegmentSize := maxSegmentSize;
      this.segmentCounts := segmentCounts;
      var n := Cells(segmentCounts);
      var segments := SegmentOffsets(maxSegmentSize, segmentCounts);
      offsets := segments;
      intensities := seq(n, _ => None);
      normals := seq(n, _ => None);
    }

    /** segmentIndex: the position of segment `s` in the segment sequence. */
    function SegmentIndex(s: Vec3): (i: nat)
      reads this
      requires Valid() && Below(s, segmentCounts)
      ensures i < |offsets| && offsets[i] == Offset(maxSegmentSize, s)
      ensures FromRowMajor(segmentCounts, i) == s
    {
      RowMajorBijective(segmentCounts, s);
      RowMajor(segmentCounts, s)
    }

    /** Segment::setIntensities for the segment at `s`. */
    method SetSegmentIntensities(s: Vec3, volume: SegmentVolume<I>)
      requires Valid() && Below(s, segmentCounts)
      modifies this
      ensures Valid()
      ensures intensities == old(intensities)[SegmentIndex(s) := Some(volume)]
      ensures offsets == old(offsets) && normals == old(normals)
    {
      intensities := intensities[SegmentIndex(s) := Some(volume)];
    }

    /** Segment::setNormals for the segment at `s`. */
    method SetSegmentNormals(s: Vec3, volume: SegmentVolume<N>)
      requires Valid() && Below(s, segmentCounts)
      modifies this
      ensures Valid()
      ensures normals == old(normals)[SegmentIndex(s) := Some(volume)]
      ensures offsets == old(offsets) && intensities == old(intensities)
    {
      normals := normals[SegmentIndex(s) := Some(volume)];
    }

    /** getVoxel with the IntensitySelector. */
    function Intensity(c: Vec3): (r: I)
      reads this
      requires Readable(maxSegmentSize, segmentCounts, intensities, c)
      ensures exists i, p :: 0 <= i < |intensities| && intensities[i].Some? && Below(p, intensities[i].value.size)
                && Global(maxSegmentSize, FromRowMajor(segmentCounts, i), p) == c && r == intensities[i].value.at(p)
    {
      GetVoxelHoldsTexel(maxSegmentSize, segmentCounts, intensities, c);
      GetVoxel(maxSegmentSize, segmentCounts, intensities, c)
    }

    /** getVoxel with the NormalSelector. */
    function Normal(c: Vec3): (r: N)
      reads this
      requires Readable(maxSegmentSize, segmentCounts, normals, c)
      ensures exists i, p :: 0 <= i < |normals| && normals[i].Some? && Below(p, normals[i].value.size)
                && Global(maxSegmentSize, FromRowMajor(segmentCounts, i), p) == c && r == normals[i].value.at(p)
    {
      GetVoxelHoldsTexel(maxSegmentSize, segmentCounts, normals, c);
      GetVoxel(maxSegmentSize, segmentCounts, normals, c)
    }

    /** setVoxel with the IntensitySelector: writes every texel that holds `c`. */
    method SetIntensity(ghost tail: Vec3, c: Vec3, v: I)
      requires Valid() && WellSized(maxSegmentSize, segmentCounts, tail, intensities)
      requires Below(c, Resolution(maxSegmentSize, segmentCounts, tail))
      modifies this
      ensures Valid() && WellSized(maxSegmentSize, segmentCounts, tail, intensities)
      ensures forall i, p :: 0 <= i < |intensities| ==>
                intensities[i].value.at(p)
                == if Hit(maxSegmentSize, c, FromRowMajor(segmentCounts, i), p) then v else old(intensities)[i].value.at(p)
      ensures offsets == old(offsets) && normals == old(normals)
    {
      intensities := WriteVoxel(maxSegmentSize, segmentCounts, tail, intensities, c, v);
    }

    /** setVoxel with the NormalSelector: writes every texel that holds `c`. */
    method SetNormal(ghost tail: Vec3, c: Vec3, v: N)
      requires Valid() && WellSized(maxSegmentSize, segmentCounts, tail, normals)
      requires Below(c, Resolution(maxSegmentSize, segmentCounts, tail))
      modifies this
      ensures Valid() && WellSized(maxSegmentSize, segmentCounts, tail, normals)
      ensures forall i, p :: 0 <= i < |normals| ==>
                normals[i].value.at(p)
                == if Hit(maxSegmentSize, c, FromRowMajor(segmentCounts, i), p) then v else old(normals)[i].value.at(p)
      ensures offsets == old(offsets) && intensities == old(intensities)
    {
      normals := WriteVoxel(maxSegmentSize, segmentCounts, tail, normals, c, v);
    }
  }

}
