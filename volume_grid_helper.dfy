/**
 * helpers::VolumeGridHelper: builds a VolumeGrid for a volume of a given
 * native resolution, fills it from a data source, computes the normals and
 * creates one scene-graph geometry per segment whose textures come from a
 * per-segment texture cache (details::VolumeGridHelper::TextureManager).
 *
 * Texture objects are represented by the ids the texture factory hands out;
 * geometry nodes by a description of what createNode sets on them.
 */
module VolumeGridHelpers {

  import opened GridMath
  import opened Wrappers
  import opened VolumeGrids

  // ---------------------------------------------------------------------------
  // partitioning
  // ---------------------------------------------------------------------------

  /**
   * The partitioning along one axis: `partitionsCount` segments of
   * `regularPartitionSize` voxels, the last of which holds `tailSize`.
   */
  datatype Partitioning = Partitioning(regularPartitionSize: nat, partitionsCount: nat, tailSize: nat)
  {
    predicate Valid()
    {
      AxisValid(regularPartitionSize, partitionsCount, tailSize)
    }

    /** Voxels covered by the partitioning (Partitioning::totalSize). */
    function TotalSize(): (n: nat)
      requires Valid()
      ensures regularPartitionSize * (partitionsCount - 1) < n <= regularPartitionSize * partitionsCount
    {
      AxisResolution(regularPartitionSize, partitionsCount, tailSize)
    }
  }

  // ---------------------------------------------------------------------------
  // texture cache
  // ---------------------------------------------------------------------------

  /** The values a map holds at the given keys. */
  ghost function ValuesOf(m: map<nat, nat>, keys: set<nat>): set<nat>
  {
    set k | k in keys && k in m :: m[k]
  }

  lemma ValuesOfAdd(m: map<nat, nat>, keys: set<nat>, k: nat)
    requires k in m
    ensures ValuesOf(m, keys + {k}) == ValuesOf(m, keys) + {m[k]}
  {
  }

  lemma ValuesOfAll(m: map<nat, nat>, keys: set<nat>)
    requires keys == m.Keys
    ensures ValuesOf(m, keys) == m.Values
  {
  }

  /** The release loop of releaseGeometryFeatures: releases the texture of every cached segment. */
  method ReleaseAll(cache: map<nat, nat>, released0: set<nat>) returns (released: set<nat>)
    ensures released == released0 + cache.Values
  {
    released := released0;
    var remaining := cache.Keys;
    ghost var done: set<nat> := {};
    while remaining != {}
      invariant remaining + done == cache.Keys && remaining !! done
      invariant released == released0 + ValuesOf(cache, done)
      decreases |remaining|
    {
      var segment :| segment in remaining;
      ValuesOfAdd(cache, done, segment);
      released := released + {cache[segment]};
      remaining, done := remaining - {segment}, done + {segment};
    }
    ValuesOfAll(cache, done);
  }

  /**
   * TextureManager: maps segments (by segment index) to the textures that
   * represent them in video memory, creating a texture only on a cache miss.
   * Texture ids are handed out by the factory in increasing order.
   */
  class TextureManager {
    var textures: map<nat, nat>
    /** The id the texture factory hands out next. */
    var nextTexture: nat
    /** Textures released so far. */
    var released: set<nat>

    /** Every cached texture came from the factory, and no two segments share one. */
    ghost predicate Valid()
      reads this
    {
      (forall s :: s in textures ==> textures[s] < nextTexture)
      && (forall s, t :: s in textures && t in textures && s != t ==> textures[s] != textures[t])
    }

    constructor()
      ensures Valid() && textures == map[] && released == {}
    {
      textures := map[];
      nextTexture := 0;
      released := {};
    }

    /**
     * getTexture: the cached texture of the segment, or a new one that is
     * cached from now on.
     */
    method GetTexture(segment: nat) returns (t: nat)
      requires Valid()
      modifies this
      ensures Valid() && released == old(released)
      ensures segment in textures && textures[segment] == t
      ensures segment in old(textures) ==> t == old(textures)[segment] && textures == old(textures) && nextTexture == old(nextTexture)
      ensures segment !in old(textures) ==>
                t == old(nextTexture) && nextTexture == old(nextTexture) + 1 && textures == old(textures)[segment := t]
    {
      if segment in textures {
        t := textures[segment];
      } else {
        t := nextTexture;
        nextTexture := nextTexture + 1;
        textures := textures[segment := t];
      }
    }

    /** releaseGeometryFeatures: releases every cached texture and empties the cache. */
    method ReleaseGeometryFeatures()
      requires Valid()
      modifies this
      ensures Valid() && textures == map[] && nextTexture == old(nextTexture)
      ensures released == old(released) + old(textures).Values
    {
      released := ReleaseAll(textures, released);
      textures := map[];
    }
  }

  // ---------------------------------------------------------------------------
  // normals
  // ---------------------------------------------------------------------------

  /** A normal vector (math::Vector3f). */
  datatype NormalVector = NormalVector(x: real, y: real, z: real)

  /** Coordinate `dim` (0, 1 or 2) of a grid coordinate. */
  function Coord(c: Vec3, dim: nat): nat
    requires dim < 3
  {
    if dim == 0 then c.x else if dim == 1 then c.y else c.z
  }

  /** Component `dim` (0, 1 or 2) of a normal vector. */
  function Component(n: NormalVector, dim: nat): real
    requires dim < 3
  {
    if dim == 0 then n.x else if dim == 1 then n.y else n.z
  }

  /**
   * The normal of the boundary face (dim0, sign): the unit vector along
   * axis dim0 pointing outwards, i.e. signed with the face's sign.
   */
  function FaceNormal(dim0: nat, sign: int): (n: NormalVector)
    requires dim0 < 3 && (sign == -1 || sign == 1)
    ensures Component(n, dim0) == sign as real
    ensures Component(n, (dim0 + 1) % 3) == 0.0 && Component(n, (dim0 + 2) % 3) == 0.0
  {
    if dim0 == 0 then NormalVector(sign as real, 0.0, 0.0)
    else if dim0 == 1 then NormalVector(0.0, sign as real, 0.0)
    else NormalVector(0.0, 0.0, sign as real)
  }

  /** The voxels of the face (dim0, sign): coordinate dim0 is 0 for sign -1 and resolution - 1 for sign +1. */
  predicate OnFace(res: Vec3, c: Vec3, dim0: nat, sign: int)
    requires dim0 < 3 && Positive(res)
  {
    Below(c, res) && Coord(c, dim0) == if sign < 0 then 0 else Coord(res, dim0) - 1
  }

  /** `c` lies in the box [lo, hi). */
  predicate InBox(c: Vec3, lo: Vec3, hi: Vec3)
  {
    lo.x <= c.x < hi.x && lo.y <= c.y < hi.y && lo.z <= c.z < hi.z
  }

  /** The inner voxels: at least 1 and below resolution - 1 on every axis. */
  predicate Inner(res: Vec3, c: Vec3)
    requires Positive(res)
  {
    InBox(c, Vec3(1, 1, 1), Vec3(res.x - 1, res.y - 1, res.z - 1))
  }

  /**
   * The box of face (dim0, sign): the face's layer along dim0 and the whole
   * resolution along the other two axes.
   */
  function FaceBox(res: Vec3, dim0: nat, sign: int): (b: (Vec3, Vec3))
    requires dim0 < 3 && Positive(res)
    ensures forall c :: InBox(c, b.0, b.1) <==> OnFace(res, c, dim0, sign)
  {
    var layer := if sign < 0 then 0 else Coord(res, dim0) - 1;
    if dim0 == 0 then (Vec3(layer, 0, 0), Vec3(layer + 1, res.y, res.z))
    else if dim0 == 1 then (Vec3(0, layer, 0), Vec3(res.x, layer + 1, res.z))
    else (Vec3(0, 0, layer), Vec3(res.x, res.y, layer + 1))
  }

  /**
   * The central-difference gradient, negated: half the difference of the
   * intensities before and after `c` on each axis, so that the normal points
   * away from the steepest ascent.
   */
  function NegatedGradient(max: Vec3, counts: Vec3, vols: Volumes<real>, c: Vec3): (n: NormalVector)
    requires c.x > 0 && c.y > 0 && c.z > 0
    requires Readable(max, counts, vols, Vec3(c.x - 1, c.y, c.z)) && Readable(max, counts, vols, Vec3(c.x + 1, c.y, c.z))
    requires Readable(max, counts, vols, Vec3(c.x, c.y - 1, c.z)) && Readable(max, counts, vols, Vec3(c.x, c.y + 1, c.z))
    requires Readable(max, counts, vols, Vec3(c.x, c.y, c.z - 1)) && Readable(max, counts, vols, Vec3(c.x, c.y, c.z + 1))
    ensures 2.0 * n.x + GetVoxel(max, counts, vols, Vec3(c.x + 1, c.y, c.z)) == GetVoxel(max, counts, vols, Vec3(c.x - 1, c.y, c.z))
    ensures 2.0 * n.y + GetVoxel(max, counts, vols, Vec3(c.x, c.y + 1, c.z)) == GetVoxel(max, counts, vols, Vec3(c.x, c.y - 1, c.z))
    ensures 2.0 * n.z + GetVoxel(max, counts, vols, Vec3(c.x, c.y, c.z + 1)) == GetVoxel(max, counts, vols, Vec3(c.x, c.y, c.z - 1))
  {
    NormalVector(
      (GetVoxel(max, counts, vols, Vec3(c.x - 1, c.y, c.z)) - GetVoxel(max, counts, vols, Vec3(c.x + 1, c.y, c.z))) / 2.0,
      (GetVoxel(max, counts, vols, Vec3(c.x, c.y - 1, c.z)) - GetVoxel(max, counts, vols, Vec3(c.x, c.y + 1, c.z))) / 2.0,
      (GetVoxel(max, counts, vols, Vec3(c.x, c.y, c.z - 1)) - GetVoxel(max, counts, vols, Vec3(c.x, c.y, c.z + 1))) / 2.0)
  }

  const Zero := NormalVector(0.0, 0.0, 0.0)

  function SquaredNorm(v: NormalVector): real
  {
    v.x * v.x + v.y * v.y + v.z * v.z
  }

  /** `u` points the way `v` does: their cross product vanishes and their dot product is positive. */
  predicate SameDirection(u: NormalVector, v: NormalVector)
  {
    u.x * v.y == u.y * v.x && u.y * v.z == u.z * v.y && u.x * v.z == u.z * v.x
    && u.x * v.x + u.y * v.y + u.z * v.z > 0.0
  }

  /** What Eigen's `normalize` promises of a non-zero vector: a unit vector in its direction. */
  ghost predicate Normalization(normalize: NormalVector -> NormalVector)
  {
    forall v :: v != Zero ==> SquaredNorm(normalize(v)) == 1.0 && SameDirection(normalize(v), v)
  }

  /**
   * The normal computed from a negated gradient `g`: the zero vector when
   * `g` vanishes (its squared norm is zero), and otherwise `g` normalised.
   */
  function Normalized(normalize: NormalVector -> NormalVector, g: NormalVector): (n: NormalVector)
    ensures g == Zero ==> n == Zero
    ensures g != Zero ==> n == normalize(g)
    ensures Normalization(normalize) ==> (n == Zero <==> g == Zero)
    ensures Normalization(normalize) && g != Zero ==> SquaredNorm(n) == 1.0 && SameDirection(n, g)
  {
    if g == Zero then Zero else normalize(g)
  }

  /**
   * The normal computeNormals writes at an inner voxel: the negated
   * gradient, normalised, or the zero vector where it vanishes.
   */
  function InnerNormal(max: Vec3, counts: Vec3, vols: Volumes<real>, normalize: NormalVector -> NormalVector, c: Vec3): NormalVector
  {
    if c.x > 0 && c.y > 0 && c.z > 0
       && Readable(max, counts, vols, Vec3(c.x - 1, c.y, c.z)) && Readable(max, counts, vols, Vec3(c.x + 1, c.y, c.z))
       && Readable(max, counts, vols, Vec3(c.x, c.y - 1, c.z)) && Readable(max, counts, vols, Vec3(c.x, c.y + 1, c.z))
       && Readable(max, counts, vols, Vec3(c.x, c.y, c.z - 1)) && Readable(max, counts, vols, Vec3(c.x, c.y, c.z + 1))
    then Normalized(normalize, NegatedGradient(max, counts, vols, c))
    else Zero
  }

  /**
   * The normal computeNormals leaves at voxel `c` of the resolution: the
   * inner normal for inner voxels; on the boundary, the normal of the last
   * face written that contains `c` (faces are written for x, y, z in turn,
   * the negative face before the positive one).
   */
  function ComputedNormal(res: Vec3, inner: Vec3 -> NormalVector, c: Vec3): NormalVector
    requires Positive(res)
  {
    if Inner(res, c) then inner(c)
    else if c.z == res.z - 1 then FaceNormal(2, 1)
    else if c.z == 0 then FaceNormal(2, -1)
    else if c.y == res.y - 1 then FaceNormal(1, 1)
    else if c.y == 0 then FaceNormal(1, -1)
    else if c.x == res.x - 1 then FaceNormal(0, 1)
    else FaceNormal(0, -1)
  }

  /** Every boundary voxel gets the outward unit normal of a face it lies on. */
  lemma BoundaryNormal(res: Vec3, inner: Vec3 -> NormalVector, c: Vec3)
    requires Positive(res) && Below(c, res) && !Inner(res, c)
    ensures exists dim0: nat, sign: int :: dim0 < 3 && (sign == -1 || sign == 1)
              && OnFace(res, c, dim0, sign) && ComputedNormal(res, inner, c) == FaceNormal(dim0, sign)
  {
    if c.z == res.z - 1 { assert OnFace(res, c, 2, 1); }
    else if c.z == 0 { assert OnFace(res, c, 2, -1); }
    else if c.y == res.y - 1 { assert OnFace(res, c, 1, 1); }
    else if c.y == 0 { assert OnFace(res, c, 1, -1); }
    else if c.x == res.x - 1 { assert OnFace(res, c, 0, 1); }
    else { assert OnFace(res, c, 0, -1); }
  }

  // ---------------------------------------------------------------------------
  // filling a box of voxels
  // ---------------------------------------------------------------------------

  /** `g` comes before `p` in z, y, x order. */
  predicate Before(g: Vec3, p: Vec3)
  {
    g.z < p.z || (g.z == p.z && (g.y < p.y || (g.y == p.y && g.x < p.x)))
  }

  /**
   * A fill of the box [lo, hi) with f has reached `p`: every voxel of the
   * resolution is readable in `cur`, the voxels of the box before `p` read
   * f, all others read what they read in `before`.
   */
  ghost predicate Filled<V>(max: Vec3, counts: Vec3, res: Vec3, cur: Volumes<V>, before: Volumes<V>,
                            lo: Vec3, hi: Vec3, f: Vec3 -> V, p: Vec3)
  {
    forall g :: Below(g, res) ==>
      Readable(max, counts, cur, g) && Readable(max, counts, before, g)
      && GetVoxel(max, counts, cur, g) == if InBox(g, lo, hi) && Before(g, p) then f(g) else GetVoxel(max, counts, before, g)
  }

  /** The whole box [lo, hi) reads f; every other voxel of the resolution reads what it read in `before`. */
  ghost predicate FilledBox<V>(max: Vec3, counts: Vec3, res: Vec3, cur: Volumes<V>, before: Volumes<V>,
                               lo: Vec3, hi: Vec3, f: Vec3 -> V)
  {
    forall g :: Below(g, res) ==>
      Readable(max, counts, cur, g) && Readable(max, counts, before, g)
      && GetVoxel(max, counts, cur, g) == if InBox(g, lo, hi) then f(g) else GetVoxel(max, counts, before, g)
  }

  /** Nothing of the box comes before its first corner. */
  lemma FillStart<V>(max: Vec3, counts: Vec3, tail: Vec3, res: Vec3, before: Volumes<V>, lo: Vec3, hi: Vec3, f: Vec3 -> V)
    requires WellSized(max, counts, tail, before) && res == Resolution(max, counts, tail)
    ensures Filled(max, counts, res, before, before, lo, hi, f, lo)
  {
    forall g | Below(g, res) ensures Readable(max, counts, before, g) {
      ResolutionReadable(max, counts, tail, before, g);
    }
  }

  /** Writing f(c) at the voxel the fill has reached moves the fill one voxel on. */
  lemma FillStep<V>(max: Vec3, counts: Vec3, res: Vec3, prev: Volumes<V>, cur: Volumes<V>, before: Volumes<V>,
                    lo: Vec3, hi: Vec3, f: Vec3 -> V, c: Vec3)
    requires Filled(max, counts, res, prev, before, lo, hi, f, c) && InBox(c, lo, hi)
    requires forall g :: Readable(max, counts, prev, g) && g != c ==>
               Readable(max, counts, cur, g) && GetVoxel(max, counts, cur, g) == GetVoxel(max, counts, prev, g)
    requires Readable(max, counts, cur, c) && GetVoxel(max, counts, cur, c) == f(c)
    ensures Filled(max, counts, res, cur, before, lo, hi, f, Vec3(c.x + 1, c.y, c.z))
  {
  }

  /** A finished row continues with the next row. */
  lemma FillNextRow<V>(max: Vec3, counts: Vec3, res: Vec3, cur: Volumes<V>, before: Volumes<V>,
                       lo: Vec3, hi: Vec3, f: Vec3 -> V, p: Vec3)
    requires p.x >= hi.x && Filled(max, counts, res, cur, before, lo, hi, f, p)
    ensures Filled(max, counts, res, cur, before, lo, hi, f, Vec3(lo.x, p.y + 1, p.z))
  {
  }

  /** A finished plane continues with the next plane. */
  lemma FillNextPlane<V>(max: Vec3, counts: Vec3, res: Vec3, cur: Volumes<V>, before: Volumes<V>,
                         lo: Vec3, hi: Vec3, f: Vec3 -> V, p: Vec3)
    requires p.x == lo.x && p.y >= hi.y && Filled(max, counts, res, cur, before, lo, hi, f, p)
    ensures Filled(max, counts, res, cur, before, lo, hi, f, Vec3(lo.x, lo.y, p.z + 1))
  {
  }

  /** After the last plane the whole box is filled. */
  lemma FillDone<V>(max: Vec3, counts: Vec3, res: Vec3, cur: Volumes<V>, before: Volumes<V>,
                    lo: Vec3, hi: Vec3, f: Vec3 -> V, p: Vec3)
    requires p.x == lo.x && p.y == lo.y && p.z >= hi.z && Filled(max, counts, res, cur, before, lo, hi, f, p)
    ensures FilledBox(max, counts, res, cur, before, lo, hi, f)
  {
  }

  /** Face k of the order computeNormals writes them in: x-, x+, y-, y+, z-, z+. */
  function FaceDim(k: nat): nat { k / 2 }

  function FaceSign(k: nat): int { if k % 2 == 0 then -1 else 1 }

  /**
   * The normal at `g` after the first `k` faces have been written over
   * `before`: that of the last of them containing `g`, else the old one.
   */
  ghost function AfterFaces(max: Vec3, counts: Vec3, res: Vec3, before: Volumes<NormalVector>, k: nat, g: Vec3): NormalVector
    requires k <= 6 && Positive(res) && Readable(max, counts, before, g)
  {
    if k == 0 then GetVoxel(max, counts, before, g)
    else if OnFace(res, g, FaceDim(k - 1), FaceSign(k - 1)) then FaceNormal(FaceDim(k - 1), FaceSign(k - 1))
    else AfterFaces(max, counts, res, before, k - 1, g)
  }

  /** The first `k` faces have been written. */
  ghost predicate FacesDone(max: Vec3, counts: Vec3, res: Vec3, cur: Volumes<NormalVector>, before: Volumes<NormalVector>, k: nat)
    requires k <= 6 && Positive(res)
  {
    forall g :: Below(g, res) ==>
      Readable(max, counts, cur, g) && Readable(max, counts, before, g)
      && GetVoxel(max, counts, cur, g) == AfterFaces(max, counts, res, before, k, g)
  }

  /** Filling the box of face k with its normal completes face k. */
  lemma FaceStep(max: Vec3, counts: Vec3, res: Vec3, prev: Volumes<NormalVector>, cur: Volumes<NormalVector>,
                 before: Volumes<NormalVector>, k: nat)
    requires k < 6 && Positive(res) && FacesDone(max, counts, res, prev, before, k)
    requires FilledBox(max, counts, res, cur, prev, FaceBox(res, FaceDim(k), FaceSign(k)).0,
                       FaceBox(res, FaceDim(k), FaceSign(k)).1, _ => FaceNormal(FaceDim(k), FaceSign(k)))
    ensures FacesDone(max, counts, res, cur, before, k + 1)
  {
  }

  /** Before any face is written, every voxel reads as before. */
  lemma FacesStart(max: Vec3, counts: Vec3, tail: Vec3, res: Vec3, before: Volumes<NormalVector>)
    requires WellSized(max, counts, tail, before) && res == Resolution(max, counts, tail) && Positive(res)
    ensures FacesDone(max, counts, res, before, before, 0)
  {
    forall g | Below(g, res) ensures Readable(max, counts, before, g) {
      ResolutionReadable(max, counts, tail, before, g);
    }
  }

  /** After all six faces, a boundary voxel holds the normal of the last face containing it. */
  lemma {:induction false} BoundaryAfterFaces(max: Vec3, counts: Vec3, res: Vec3, before: Volumes<NormalVector>,
                                              inner: Vec3 -> NormalVector, g: Vec3)
    requires Positive(res) && Below(g, res) && !Inner(res, g) && Readable(max, counts, before, g)
    ensures AfterFaces(max, counts, res, before, 6, g) == ComputedNormal(res, inner, g)
  {
    assert AfterFaces(max, counts, res, before, 6, g) == if OnFace(res, g, 2, 1) then FaceNormal(2, 1) else AfterFaces(max, counts, res, before, 5, g);
    assert AfterFaces(max, counts, res, before, 5, g) == if OnFace(res, g, 2, -1) then FaceNormal(2, -1) else AfterFaces(max, counts, res, before, 4, g);
    assert AfterFaces(max, counts, res, before, 4, g) == if OnFace(res, g, 1, 1) then FaceNormal(1, 1) else AfterFaces(max, counts, res, before, 3, g);
    assert AfterFaces(max, counts, res, before, 3, g) == if OnFace(res, g, 1, -1) then FaceNormal(1, -1) else AfterFaces(max, counts, res, before, 2, g);
    assert AfterFaces(max, counts, res, before, 2, g) == if OnFace(res, g, 0, 1) then FaceNormal(0, 1) else AfterFaces(max, counts, res, before, 1, g);
    assert AfterFaces(max, counts, res, before, 1, g) == if OnFace(res, g, 0, -1) then FaceNormal(0, -1) else AfterFaces(max, counts, res, before, 0, g);
  }

  /**
   * After the six faces and the inner box, every voxel holds the normal
   * ComputedNormal describes.
   */
  lemma {:induction false} FacesThenInner(max: Vec3, counts: Vec3, res: Vec3, faces: Volumes<NormalVector>,
                                          cur: Volumes<NormalVector>, before: Volumes<NormalVector>, inner: Vec3 -> NormalVector)
    requires Positive(res) && FacesDone(max, counts, res, faces, before, 6)
    requires FilledBox(max, counts, res, cur, faces, Vec3(1, 1, 1), Vec3(res.x - 1, res.y - 1, res.z - 1), inner)
    ensures forall g :: Below(g, res) ==>
              Readable(max, counts, cur, g) && GetVoxel(max, counts, cur, g) == ComputedNormal(res, inner, g)
  {
    forall g | Below(g, res)
      ensures Readable(max, counts, cur, g) && GetVoxel(max, counts, cur, g) == ComputedNormal(res, inner, g)
    {
      if !Inner(res, g) {
        BoundaryAfterFaces(max, counts, res, before, inner, g);
      }
    }
  }

  // ---------------------------------------------------------------------------
  // the helper
  // ---------------------------------------------------------------------------

  /** The size of segment `s`: tailSize on the last segment of an axis, regularPartitionSize + 1 elsewhere. */
  function SegmentSizeOf(px: Partitioning, py: Partitioning, pz: Partitioning, s: Vec3): (size: Vec3)
    ensures size.x == if s.x + 1 == px.partitionsCount then px.tailSize else px.regularPartitionSize + 1
    ensures size.y == if s.y + 1 == py.partitionsCount then py.tailSize else py.regularPartitionSize + 1
    ensures size.z == if s.z + 1 == pz.partitionsCount then pz.tailSize else pz.regularPartitionSize + 1
  {
    SegmentSize(Vec3(px.regularPartitionSize, py.regularPartitionSize, pz.regularPartitionSize),
                Vec3(px.partitionsCount, py.partitionsCount, pz.partitionsCount),
                Vec3(px.tailSize, py.tailSize, pz.tailSize), s)
  }

  /**
   * The feature map of a segment geometry: putFeature of the intensity
   * texture, then of the normals texture when there is one. A role maps to
   * the feature put last.
   */
  function Features(intensitiesRole: nat, intensities: nat, hasNormals: bool, normalsRole: nat, normals: nat): (f: map<nat, nat>)
    ensures intensitiesRole in f && (hasNormals ==> normalsRole in f)
    ensures f.Keys == if hasNormals then {intensitiesRole, normalsRole} else {intensitiesRole}
    ensures hasNormals ==> f[normalsRole] == normals
    ensures !hasNormals || intensitiesRole != normalsRole ==> f[intensitiesRole] == intensities
  {
    var none: map<nat, nat> := map[];
    var withIntensities := none[intensitiesRole := intensities];
    if hasNormals then withIntensities[normalsRole := normals] else withIntensities
  }

  /** What createNode sets on the geometry node of one segment. */
  datatype GeometryNode = GeometryNode(geometryType: nat, movable: bool, boundingBox: Vec3, features: map<nat, nat>)

  /** The pivot node createNode returns, with one child per segment. */
  datatype PivotNode = PivotNode(movable: bool, children: seq<GeometryNode>)

  /**
   * VolumeGridHelper. The normals component is present when `hasNormals`
   * holds; without it (the `void` specialisation) every normals operation
   * does nothing.
   */
  class VolumeGridHelper {
    const nativeResolution: Vec3
    const maxSegmentSize: Vec3
    const partitioningX: Partitioning
    const partitioningY: Partitioning
    const partitioningZ: Partitioning
    const resolution: Vec3
    const hasNormals: bool
    const grid: VolumeGrid<real, NormalVector>
    const intensityTextures: TextureManager
    const normalsTextures: TextureManager
    var intensitiesRole: nat
    var normalsRole: nat

    function Counts(): Vec3
    {
      Vec3(partitioningX.partitionsCount, partitioningY.partitionsCount, partitioningZ.partitionsCount)
    }

    function Tails(): Vec3
    {
      Vec3(partitioningX.tailSize, partitioningY.tailSize, partitioningZ.tailSize)
    }

    ghost predicate Valid()
      reads this, grid, intensityTextures, normalsTextures
    {
      GridValid() && CachesValid()
    }

    /** The grid is sized by the partitionings and every texel agrees with its primary voxel. */
    ghost predicate GridValid()
      reads this, grid
    {
      partitioningX.Valid() && partitioningY.Valid() && partitioningZ.Valid()
      && maxSegmentSize == Vec3(partitioningX.regularPartitionSize, partitioningY.regularPartitionSize, partitioningZ.regularPartitionSize)
      && resolution == Resolution(maxSegmentSize, Counts(), Tails())
      && grid.Valid() && grid.maxSegmentSize == maxSegmentSize && grid.segmentCounts == Counts()
      && Consistent(maxSegmentSize, Counts(), Tails(), grid.intensities)
      && (hasNormals ==> Consistent(maxSegmentSize, Counts(), Tails(), grid.normals))
    }

    /** Two distinct valid texture caches, keyed by row-major segment indices. */
    ghost predicate CachesValid()
      reads this, intensityTextures, normalsTextures
    {
      intensityTextures != normalsTextures
      && intensityTextures.Valid() && normalsTextures.Valid()
      && (forall s :: s in intensityTextures.textures ==> s < Cells(Counts()))
      && (forall s :: s in normalsTextures.textures ==> s < Cells(Counts()))
    }

    /**
     * Creates the grid with one segment per partition along each axis and
     * gives every segment zero-filled volumes of the size its position calls
     * for. The partitionings are those the helper derives from the native
     * resolution and the maximum segment size.
     */
    constructor(nativeResolution: Vec3, px: Partitioning, py: Partitioning, pz: Partitioning, hasNormals: bool)
      requires px.Valid() && py.Valid() && pz.Valid()
      ensures Valid() && fresh(grid) && fresh(intensityTextures) && fresh(normalsTextures)
      ensures this.nativeResolution == nativeResolution && this.hasNormals == hasNormals
      ensures partitioningX == px && partitioningY == py && partitioningZ == pz
      ensures resolution == Vec3(px.TotalSize(), py.TotalSize(), pz.TotalSize())
      ensures grid.segmentCounts == Vec3(px.partitionsCount, py.partitionsCount, pz.partitionsCount)
      ensures forall i :: 0 <= i < |grid.intensities| ==>
                grid.intensities[i].Some? && grid.intensities[i].value.size == SegmentSizeOf(px, py, pz, FromRowMajor(Counts(), i))
      ensures forall i, p :: 0 <= i < |grid.intensities| ==> grid.intensities[i].value.at(p) == 0.0
      ensures intensitiesRole == 0 && normalsRole == 1
      ensures intensityTextures.textures == map[] && normalsTextures.textures == map[]
    {
      var max := Vec3(px.regularPartitionSize, py.regularPartitionSize, pz.regularPartitionSize);
      var counts := Vec3(px.partitionsCount, py.partitionsCount, pz.partitionsCount);
      this.nativeResolution := nativeResolution;
      this.maxSegmentSize := max;
      this.partitioningX := px;
      this.partitioningY := py;
      this.partitioningZ := pz;
      this.resolution := Vec3(px.TotalSize(), py.TotalSize(), pz.TotalSize());
      this.hasNormals := hasNormals;
      var g := new VolumeGrid<real, NormalVector>(max, counts);
      this.grid := g;
      this.intensityTextures := new TextureManager();
      this.normalsTextures := new TextureManager();
      this.intensitiesRole := 0;
      this.normalsRole := 1;
      new;
      InitializeSegments();
    }

    /** The constructor's loop over the segments: initializeSegment of both components. */
    method InitializeSegments()
      requires grid.Valid() && partitioningX.Valid() && partitioningY.Valid() && partitioningZ.Valid()
      requires grid.maxSegmentSize == maxSegmentSize && grid.segmentCounts == Counts()
      requires maxSegmentSize == Vec3(partitioningX.regularPartitionSize, partitioningY.regularPartitionSize, partitioningZ.regularPartitionSize)
      modifies grid
      ensures grid.Valid() && grid.offsets == old(grid.offsets)
      ensures WellSized(maxSegmentSize, Counts(), Tails(), grid.intensities)
      ensures forall i, p :: 0 <= i < |grid.intensities| ==> grid.intensities[i].value.at(p) == 0.0
      ensures hasNormals ==> WellSized(maxSegmentSize, Counts(), Tails(), grid.normals)
      ensures hasNormals ==> forall i, p :: 0 <= i < |grid.normals| ==> grid.normals[i].value.at(p) == NormalVector(0.0, 0.0, 0.0)
      ensures !hasNormals ==> grid.normals == old(grid.normals)
    {
      var counts := Counts();
      var k := 0;
      var z := 0;
      while z < counts.z
        invariant z <= counts.z && k == RowMajor(counts, Vec3(0, 0, z))
        invariant grid.Valid() && grid.offsets == old(grid.offsets)
        invariant SegmentsUpTo(grid.intensities, k, 0.0) && (hasNormals ==> SegmentsUpTo(grid.normals, k, NormalVector(0.0, 0.0, 0.0)))
        invariant !hasNormals ==> grid.normals == old(grid.normals)
      {
        var y := 0;
        while y < counts.y
          invariant y <= counts.y && k == RowMajor(counts, Vec3(0, y, z))
          invariant grid.Valid() && grid.offsets == old(grid.offsets)
          invariant SegmentsUpTo(grid.intensities, k, 0.0) && (hasNormals ==> SegmentsUpTo(grid.normals, k, NormalVector(0.0, 0.0, 0.0)))
          invariant !hasNormals ==> grid.normals == old(grid.normals)
        {
          var x := 0;
          while x < counts.x
            invariant x <= counts.x && k == RowMajor(counts, Vec3(x, y, z))
            invariant grid.Valid() && grid.offsets == old(grid.offsets)
            invariant SegmentsUpTo(grid.intensities, k, 0.0) && (hasNormals ==> SegmentsUpTo(grid.normals, k, NormalVector(0.0, 0.0, 0.0)))
            invariant !hasNormals ==> grid.normals == old(grid.normals)
          {
            InitializeSegment(Vec3(x, y, z), k);
            x, k := x + 1, k + 1;
          }
          RowMajorCarry(counts, y, z);
          y := y + 1;
        }
        RowMajorCarry(counts, counts.y, z);
        z := z + 1;
      }
      RowMajorCarry(counts, counts.y, counts.z);
    }

    /** initializeSegment of both components: zero-filled volumes of the size the segment's position calls for. */
    method InitializeSegment(s: Vec3, ghost k: nat)
      requires grid.Valid() && partitioningX.Valid() && partitioningY.Valid() && partitioningZ.Valid()
      requires grid.segmentCounts == Counts() && Below(s, Counts()) && k == RowMajor(Counts(), s)
      requires SegmentsUpTo(grid.intensities, k, 0.0) && (hasNormals ==> SegmentsUpTo(grid.normals, k, NormalVector(0.0, 0.0, 0.0)))
      modifies grid
      ensures grid.Valid() && grid.offsets == old(grid.offsets)
      ensures SegmentsUpTo(grid.intensities, k + 1, 0.0) && (hasNormals ==> SegmentsUpTo(grid.normals, k + 1, NormalVector(0.0, 0.0, 0.0)))
      ensures !hasNormals ==> grid.normals == old(grid.normals)
    {
      var size := SegmentSizeOf(partitioningX, partitioningY, partitioningZ, s);
      RowMajorBijective(Counts(), s);
      grid.SetSegmentIntensities(s, SegmentVolume(size, _ => 0.0));
      if hasNormals {
        grid.SetSegmentNormals(s, SegmentVolume(size, _ => NormalVector(0.0, 0.0, 0.0)));
      }
    }

    /** The first `k` segment volumes hold `v` everywhere and have the size of their position. */
    ghost predicate SegmentsUpTo<V>(vols: Volumes<V>, k: nat, v: V)
      reads this
      requires partitioningX.Valid() && partitioningY.Valid() && partitioningZ.Valid()
    {
      k <= |vols|
      && forall i :: 0 <= i < k ==>
           vols[i].Some? && vols[i].value.size == SegmentSizeOf(partitioningX, partitioningY, partitioningZ, FromRowMajor(Counts(), i))
           && forall p :: vols[i].value.at(p) == v
    }

    /**
     * setVoxel with the intensity selector at a voxel of the resolution:
     * afterwards `c` reads `v` and every other voxel reads as before.
     */
    method WriteIntensity(c: Vec3, v: real)
      requires Valid() && Below(c, resolution)
      modifies grid
      ensures Valid() && grid.normals == old(grid.normals)
      ensures Readable(maxSegmentSize, Counts(), grid.intensities, c) && GetVoxel(maxSegmentSize, Counts(), grid.intensities, c) == v
      ensures forall g :: Readable(maxSegmentSize, Counts(), old(grid.intensities), g) && g != c ==>
                Readable(maxSegmentSize, Counts(), grid.intensities, g)
                && GetVoxel(maxSegmentSize, Counts(), grid.intensities, g) == GetVoxel(maxSegmentSize, Counts(), old(grid.intensities), g)
    {
      ghost var prev := grid.intensities;
      grid.SetIntensity(Tails(), c, v);
      WritePreservesConsistency(maxSegmentSize, Counts(), Tails(), prev, grid.intensities, c, v);
    }

    /** One row of the fill: the voxels (x, y, z) for x from lo.x up to hi.x. */
    method FillIntensityRow(lo: Vec3, hi: Vec3, f: Vec3 -> real, y: nat, z: nat, ghost before: Volumes<real>)
      requires Valid() && hi.x <= resolution.x && lo.y <= y < hi.y <= resolution.y && lo.z <= z < hi.z <= resolution.z
      requires Filled(maxSegmentSize, Counts(), resolution, grid.intensities, before, lo, hi, f, Vec3(lo.x, y, z))
      modifies grid
      ensures Valid() && grid.normals == old(grid.normals)
      ensures Filled(maxSegmentSize, Counts(), resolution, grid.intensities, before, lo, hi, f, Vec3(lo.x, y + 1, z))
    {
      var x := lo.x;
      while x < hi.x
        invariant Valid() && grid.normals == old(grid.normals)
        invariant Filled(maxSegmentSize, Counts(), resolution, grid.intensities, before, lo, hi, f, Vec3(x, y, z))
      {
        var c := Vec3(x, y, z);
        ghost var prev := grid.intensities;
        WriteIntensity(c, f(c));
        FillStep(maxSegmentSize, Counts(), resolution, prev, grid.intensities, before, lo, hi, f, c);
        x := x + 1;
      }
      FillNextRow(maxSegmentSize, Counts(), resolution, grid.intensities, before, lo, hi, f, Vec3(x, y, z));
    }

    /**
     * Writes f(c) with the intensity selector at every voxel c of the box
     * [lo, hi), visiting z, then y, then x. Every voxel of the box then
     * reads f(c); every other voxel reads as before.
     */
    method FillIntensities(lo: Vec3, hi: Vec3, f: Vec3 -> real)
      requires Valid() && hi.x <= resolution.x && hi.y <= resolution.y && hi.z <= resolution.z
      modifies grid
      ensures Valid() && grid.normals == old(grid.normals)
      ensures FilledBox(maxSegmentSize, Counts(), resolution, grid.intensities, old(grid.intensities), lo, hi, f)
    {
      var max, counts, tail := maxSegmentSize, Counts(), Tails();
      ghost var before := grid.intensities;
      FillStart(max, counts, tail, resolution, before, lo, hi, f);
      var z := lo.z;
      while z < hi.z
        invariant Valid() && grid.normals == old(grid.normals)
        invariant Filled(max, counts, resolution, grid.intensities, before, lo, hi, f, Vec3(lo.x, lo.y, z))
      {
        var y := lo.y;
        while y < hi.y
          invariant Valid() && grid.normals == old(grid.normals)
          invariant Filled(max, counts, resolution, grid.intensities, before, lo, hi, f, Vec3(lo.x, y, z))
        {
          FillIntensityRow(lo, hi, f, y, z, before);
          y := y + 1;
        }
        FillNextPlane(max, counts, resolution, grid.intensities, before, lo, hi, f, Vec3(lo.x, y, z));
        z := z + 1;
      }
      FillDone(max, counts, resolution, grid.intensities, before, lo, hi, f, Vec3(lo.x, lo.y, z));
    }

    /** setVoxel with the normals selector; see WriteIntensity. */
    method WriteNormal(c: Vec3, v: NormalVector)
      requires Valid() && hasNormals && Below(c, resolution)
      modifies grid
      ensures Valid() && grid.intensities == old(grid.intensities)
      ensures Readable(maxSegmentSize, Counts(), grid.normals, c) && GetVoxel(maxSegmentSize, Counts(), grid.normals, c) == v
      ensures forall g :: Readable(maxSegmentSize, Counts(), old(grid.normals), g) && g != c ==>
                Readable(maxSegmentSize, Counts(), grid.normals, g)
                && GetVoxel(maxSegmentSize, Counts(), grid.normals, g) == GetVoxel(maxSegmentSize, Counts(), old(grid.normals), g)
    {
      ghost var prev := grid.normals;
      grid.SetNormal(Tails(), c, v);
      WritePreservesConsistency(maxSegmentSize, Counts(), Tails(), prev, grid.normals, c, v);
    }

    /** One row of the fill: the voxels (x, y, z) for x from lo.x up to hi.x. */
    method FillNormalRow(lo: Vec3, hi: Vec3, f: Vec3 -> NormalVector, y: nat, z: nat, ghost before: Volumes<NormalVector>)
      requires Valid() && hasNormals && hi.x <= resolution.x && lo.y <= y < hi.y <= resolution.y && lo.z <= z < hi.z <= resolution.z
      requires Filled(maxSegmentSize, Counts(), resolution, grid.normals, before, lo, hi, f, Vec3(lo.x, y, z))
      modifies grid
      ensures Valid() && grid.intensities == old(grid.intensities)
      ensures Filled(maxSegmentSize, Counts(), resolution, grid.normals, before, lo, hi, f, Vec3(lo.x, y + 1, z))
    {
      var x := lo.x;
      while x < hi.x
        invariant Valid() && grid.intensities == old(grid.intensities)
        invariant Filled(maxSegmentSize, Counts(), resolution, grid.normals, before, lo, hi, f, Vec3(x, y, z))
      {
        var c := Vec3(x, y, z);
        ghost var prev := grid.normals;
        WriteNormal(c, f(c));
        FillStep(maxSegmentSize, Counts(), resolution, prev, grid.normals, before, lo, hi, f, c);
        x := x + 1;
      }
      FillNextRow(maxSegmentSize, Counts(), resolution, grid.normals, before, lo, hi, f, Vec3(x, y, z));
    }

    /** Writes f(c) with the normals selector at every voxel c of the box [lo, hi); see FillIntensities. */
    method FillNormals(lo: Vec3, hi: Vec3, f: Vec3 -> NormalVector)
      requires Valid() && hasNormals && hi.x <= resolution.x && hi.y <= resolution.y && hi.z <= resolution.z
      modifies grid
      ensures Valid() && grid.intensities == old(grid.intensities)
      ensures FilledBox(maxSegmentSize, Counts(), resolution, grid.normals, old(grid.normals), lo, hi, f)
    {
      var max, counts, tail := maxSegmentSize, Counts(), Tails();
      ghost var before := grid.normals;
      FillStart(max, counts, tail, resolution, before, lo, hi, f);
      var z := lo.z;
      while z < hi.z
        invariant Valid() && grid.intensities == old(grid.intensities)
        invariant Filled(max, counts, resolution, grid.normals, before, lo, hi, f, Vec3(lo.x, lo.y, z))
      {
        var y := lo.y;
        while y < hi.y
          invariant Valid() && grid.intensities == old(grid.intensities)
          invariant Filled(max, counts, resolution, grid.normals, before, lo, hi, f, Vec3(lo.x, y, z))
        {
          FillNormalRow(lo, hi, f, y, z, before);
          y := y + 1;
        }
        FillNextPlane(max, counts, resolution, grid.normals, before, lo, hi, f, Vec3(lo.x, y, z));
        z := z + 1;
      }
      FillDone(max, counts, resolution, grid.normals, before, lo, hi, f, Vec3(lo.x, lo.y, z));
    }

    /** Writes the normal of face (dim0, sign) to the whole face; `k` numbers the face. */
    method WriteFace(ghost before: Volumes<NormalVector>, dim0: nat, sign: int, ghost k: nat)
      requires Valid() && hasNormals && dim0 < 3 && (sign == -1 || sign == 1)
      requires k == 2 * dim0 + (sign + 1) / 2
      requires FacesDone(maxSegmentSize, Counts(), resolution, grid.normals, before, k)
      modifies grid
      ensures Valid() && grid.intensities == old(grid.intensities)
      ensures FacesDone(maxSegmentSize, Counts(), resolution, grid.normals, before, k + 1)
    {
      assert FaceDim(k) == dim0 && FaceSign(k) == sign;
      var box := FaceBox(resolution, dim0, sign);
      var normal := FaceNormal(dim0, sign);
      ghost var prev := grid.normals;
      FillNormals(box.0, box.1, _ => normal);
      FaceStep(maxSegmentSize, Counts(), resolution, prev, grid.normals, before, k);
    }

    /** Writes the two faces orthogonal to axis `dim0`, the negative one first. */
    method WriteFacesAlong(ghost before: Volumes<NormalVector>, dim0: nat, ghost k0: nat)
      requires Valid() && hasNormals && dim0 < 3 && k0 == 2 * dim0
      requires FacesDone(maxSegmentSize, Counts(), resolution, grid.normals, before, k0)
      modifies grid
      ensures Valid() && grid.intensities == old(grid.intensities)
      ensures FacesDone(maxSegmentSize, Counts(), resolution, grid.normals, before, k0 + 2)
    {
      var sign := -1;
      ghost var k := k0;
      while sign <= 1
        invariant sign == -1 || sign == 1 || sign == 3
        invariant k == 2 * dim0 + (sign + 1) / 2
        invariant Valid() && grid.intensities == old(grid.intensities)
        invariant FacesDone(maxSegmentSize, Counts(), resolution, grid.normals, before, k)
      {
        WriteFace(before, dim0, sign, k);
        sign, k := sign + 2, k + 1;
      }
    }

    /**
     * computeNormals: writes the outward unit normal on each of the six
     * boundary faces (x, y, z in turn, the negative face first), then the
     * normalised negated gradient at every inner voxel. Without the normals
     * component it does nothing.
     */
    method ComputeNormals(normalize: NormalVector -> NormalVector)
      requires Valid()
      modifies grid
      ensures Valid() && grid.intensities == old(grid.intensities)
      ensures !hasNormals ==> grid.normals == old(grid.normals)
      ensures hasNormals ==>
                var intensities := grid.intensities;
                forall g :: Below(g, resolution) ==>
                  Readable(maxSegmentSize, Counts(), grid.normals, g)
                  && GetVoxel(maxSegmentSize, Counts(), grid.normals, g)
                     == ComputedNormal(resolution, c => InnerNormal(maxSegmentSize, Counts(), intensities, normalize, c), g)
    {
      if !hasNormals {
        return;
      }
      ghost var before := grid.normals;
      WriteFaces(before);
      WriteInnerNormals(normalize, before);
    }

    /** The first part of computeNormals: the six boundary faces, in the order x-, x+, y-, y+, z-, z+. */
    method WriteFaces(ghost before: Volumes<NormalVector>)
      requires Valid() && hasNormals && before == grid.normals
      modifies grid
      ensures Valid() && grid.intensities == old(grid.intensities)
      ensures FacesDone(maxSegmentSize, Counts(), resolution, grid.normals, before, 6)
    {
      FacesStart(maxSegmentSize, Counts(), Tails(), resolution, before);
      var dim0 := 0;
      ghost var k := 0;
      while dim0 < 3
        invariant dim0 <= 3 && k == 2 * dim0
        invariant Valid() && grid.intensities == old(grid.intensities)
        invariant FacesDone(maxSegmentSize, Counts(), resolution, grid.normals, before, k)
      {
        WriteFacesAlong(before, dim0, k);
        dim0, k := dim0 + 1, k + 2;
      }
    }

    /** The second part of computeNormals: the normalised negated gradient at every inner voxel. */
    method WriteInnerNormals(normalize: NormalVector -> NormalVector, ghost before: Volumes<NormalVector>)
      requires Valid() && hasNormals
      requires FacesDone(maxSegmentSize, Counts(), resolution, grid.normals, before, 6)
      modifies grid
      ensures Valid() && grid.intensities == old(grid.intensities)
      ensures var intensities := grid.intensities;
              forall g :: Below(g, resolution) ==>
                Readable(maxSegmentSize, Counts(), grid.normals, g)
                && GetVoxel(maxSegmentSize, Counts(), grid.normals, g)
                   == ComputedNormal(resolution, c => InnerNormal(maxSegmentSize, Counts(), intensities, normalize, c), g)
    {
      var max, counts := maxSegmentSize, Counts();
      var intensities := grid.intensities;
      var inner := c => InnerNormal(max, counts, intensities, normalize, c);
      ghost var faces := grid.normals;
      FillNormals(Vec3(1, 1, 1), Vec3(resolution.x - 1, resolution.y - 1, resolution.z - 1), inner);
      FacesThenInner(max, counts, resolution, faces, grid.normals, before, inner);
    }

    /** releaseGeometryFeatures: empties both texture caches (the normals one only when present). */
    method ReleaseGeometryFeatures()
      requires Valid()
      modifies intensityTextures, normalsTextures
      ensures Valid()
      ensures intensityTextures.textures == map[]
      ensures intensityTextures.released == old(intensityTextures.released) + old(intensityTextures.textures).Values
      ensures hasNormals ==> normalsTextures.textures == map[]
      ensures hasNormals ==> normalsTextures.released == old(normalsTextures.released) + old(normalsTextures.textures).Values
      ensures !hasNormals ==> normalsTextures.textures == old(normalsTextures.textures)
      ensures !hasNormals ==> normalsTextures.released == old(normalsTextures.released)
    {
      intensityTextures.ReleaseGeometryFeatures();
      if hasNormals {
        normalsTextures.ReleaseGeometryFeatures();
      }
    }

    /**
     * loadIntensities: releases the textures, writes every voxel of the
     * resolution (0 outside the native resolution, where the data source is
     * not asked), then computes the normals.
     */
    method LoadIntensities(data: Vec3 -> real, normalize: NormalVector -> NormalVector)
      requires Valid()
      modifies grid, intensityTextures, normalsTextures
      ensures Valid()
      ensures intensityTextures.textures == map[] && (hasNormals ==> normalsTextures.textures == map[])
      ensures forall g :: Below(g, resolution) ==>
                Readable(maxSegmentSize, Counts(), grid.intensities, g)
                && GetVoxel(maxSegmentSize, Counts(), grid.intensities, g) == if Below(g, nativeResolution) then data(g) else 0.0
      ensures hasNormals ==>
                var intensities := grid.intensities;
                forall g :: Below(g, resolution) ==>
                  Readable(maxSegmentSize, Counts(), grid.normals, g)
                  && GetVoxel(maxSegmentSize, Counts(), grid.normals, g)
                     == ComputedNormal(resolution, c => InnerNormal(maxSegmentSize, Counts(), intensities, normalize, c), g)
    {
      ReleaseGeometryFeatures();
      var native := nativeResolution;
      var intensity := (c: Vec3) =>
        var outOfNativeBounds := c.x >= native.x || c.y >= native.y || c.z >= native.z;
        if outOfNativeBounds then 0.0 else data(c);
      FillIntensities(Vec3(0, 0, 0), resolution, intensity);
      ComputeNormals(normalize);
    }

    method SetIntensitiesRole(role: nat)
      modifies this
      ensures intensitiesRole == role && normalsRole == old(normalsRole)
    {
      intensitiesRole := role;
    }

    method SetNormalsRole(role: nat)
      modifies this
      ensures normalsRole == role && intensitiesRole == old(intensitiesRole)
    {
      normalsRole := role;
    }

    /** getTexture of the intensity component for the segment with row-major index `i`. */
    method IntensityTexture(i: nat) returns (t: nat)
      requires CachesValid() && i < Cells(Counts())
      modifies intensityTextures
      ensures CachesValid() && Grew(old(intensityTextures.textures), intensityTextures.textures)
      ensures i in intensityTextures.textures && intensityTextures.textures[i] == t
    {
      t := intensityTextures.GetTexture(i);
    }

    /** getTexture of the normals component for the segment with row-major index `i`. */
    method NormalsTexture(i: nat) returns (t: nat)
      requires CachesValid() && i < Cells(Counts())
      modifies normalsTextures
      ensures CachesValid() && Grew(old(normalsTextures.textures), normalsTextures.textures)
      ensures i in normalsTextures.textures && normalsTextures.textures[i] == t
    {
      t := normalsTextures.GetTexture(i);
    }

    /** Attaches the textures of the segment with row-major index `i` (attachTexture of both components). */
    method SegmentGeometry(geometryType: nat, i: nat, ghost children: seq<GeometryNode>) returns (geom: GeometryNode)
      requires CachesValid() && i < Cells(Counts())
      requires |children| == i
      requires ChildrenCarry(geometryType, intensitiesRole, normalsRole, hasNormals, intensityTextures.textures, normalsTextures.textures, children)
      modifies intensityTextures, normalsTextures
      ensures CachesValid()
      ensures Grew(old(intensityTextures.textures), intensityTextures.textures)
      ensures Grew(old(normalsTextures.textures), normalsTextures.textures)
      ensures ChildrenCarry(geometryType, intensitiesRole, normalsRole, hasNormals, intensityTextures.textures, normalsTextures.textures, children + [geom])
      ensures !hasNormals ==> normalsTextures.textures == old(normalsTextures.textures)
    {
      ghost var intensitiesBefore, normalsBefore := intensityTextures.textures, normalsTextures.textures;
      var t := IntensityTexture(i);
      var n := 0;
      if hasNormals {
        n := NormalsTexture(i);
      }
      geom := GeometryNode(geometryType, false, Vec3(1, 1, 1), Features(intensitiesRole, t, hasNormals, normalsRole, n));
      ChildrenCarryGrow(geometryType, intensitiesRole, normalsRole, hasNormals, intensitiesBefore, normalsBefore,
                        intensityTextures.textures, normalsTextures.textures, children);
    }

    /** The loop state of createNode: caches grown from their initial contents, children so far carrying their textures. */
    ghost predicate Building(geometryType: nat, intensities0: map<nat, nat>, normals0: map<nat, nat>, children: seq<GeometryNode>)
      reads this, intensityTextures, normalsTextures
    {
      Grew(intensities0, intensityTextures.textures) && Grew(normals0, normalsTextures.textures)
      && ChildrenCarry(geometryType, intensitiesRole, normalsRole, hasNormals, intensityTextures.textures, normalsTextures.textures, children)
    }

    /**
     * createNode: a non-movable pivot with one non-movable geometry of the
     * given type per segment, in segment order, each carrying the cached
     * textures of its segment; textures cached before stay cached.
     */
    method CreateNode(geometryType: nat) returns (pivot: PivotNode)
      requires Valid()
      modifies intensityTextures, normalsTextures
      ensures Valid()
      ensures Grew(old(intensityTextures.textures), intensityTextures.textures)
      ensures Grew(old(normalsTextures.textures), normalsTextures.textures)
      ensures !pivot.movable && |pivot.children| == Cells(Counts())
      ensures ChildrenCarry(geometryType, intensitiesRole, normalsRole, hasNormals, intensityTextures.textures, normalsTextures.textures, pivot.children)
    {
      var children := SegmentGeometries(geometryType);
      pivot := PivotNode(false, children);
    }

    /** The loop of createNode over all segments in row-major order. */
    method SegmentGeometries(geometryType: nat) returns (children: seq<GeometryNode>)
      requires CachesValid()
      modifies intensityTextures, normalsTextures
      ensures CachesValid() && |children| == Cells(Counts())
      ensures Building(geometryType, old(intensityTextures.textures), old(normalsTextures.textures), children)
    {
      var counts := Counts();
      children := [];
      ghost var intensities0, normals0 := intensityTextures.textures, normalsTextures.textures;
      var k := 0;
      var z := 0;
      while z < counts.z
        invariant z <= counts.z && k == RowMajor(counts, Vec3(0, 0, z)) && |children| == k
        invariant CachesValid() && Building(geometryType, intensities0, normals0, children)
      {
        var y := 0;
        while y < counts.y
          invariant y <= counts.y && k == RowMajor(counts, Vec3(0, y, z)) && |children| == k
          invariant CachesValid() && Building(geometryType, intensities0, normals0, children)
        {
          var x := 0;
          while x < counts.x
            invariant x <= counts.x && k == RowMajor(counts, Vec3(x, y, z)) && |children| == k
            invariant CachesValid() && Building(geometryType, intensities0, normals0, children)
          {
            RowMajorBelow(counts, Vec3(x, y, z));
            ghost var intensitiesBefore, normalsBefore := intensityTextures.textures, normalsTextures.textures;
            var geom := SegmentGeometry(geometryType, k, children);
            GrewTrans(intensities0, intensitiesBefore, intensityTextures.textures);
            GrewTrans(normals0, normalsBefore, normalsTextures.textures);
            children, x, k := children + [geom], x + 1, k + 1;
          }
          RowMajorCarry(counts, y, z);
          y := y + 1;
        }
        RowMajorCarry(counts, counts.y, z);
        z := z + 1;
      }
      RowMajorCarry(counts, counts.y, counts.z);
    }
  }

  /** Every entry of `before` is still in `after`, unchanged. */
  predicate Grew(before: map<nat, nat>, after: map<nat, nat>)
  {
    forall s :: s in before ==> s in after && after[s] == before[s]
  }

  lemma GrewTrans(a: map<nat, nat>, b: map<nat, nat>, c: map<nat, nat>)
    requires Grew(a, b) && Grew(b, c)
    ensures Grew(a, c)
  {
  }

  /**
   * Child `i` is the non-movable geometry of segment `i`, with the unit
   * bounding box and the textures cached for that segment.
   */
  ghost predicate ChildrenCarry(geometryType: nat, intensitiesRole: nat, normalsRole: nat, hasNormals: bool,
                                intensityTextures: map<nat, nat>, normalsTextures: map<nat, nat>, children: seq<GeometryNode>)
  {
    forall i :: 0 <= i < |children| ==>
      i in intensityTextures && (hasNormals ==> i in normalsTextures)
      && children[i] == GeometryNode(geometryType, false, Vec3(1, 1, 1),
                                     Features(intensitiesRole, intensityTextures[i], hasNormals, normalsRole,
                                              if hasNormals then normalsTextures[i] else 0))
  }

  /** Growing caches keep the children built so far carrying their textures. */
  lemma ChildrenCarryGrow(geometryType: nat, intensitiesRole: nat, normalsRole: nat, hasNormals: bool,
                          intensities0: map<nat, nat>, normals0: map<nat, nat>,
                          intensities1: map<nat, nat>, normals1: map<nat, nat>, children: seq<GeometryNode>)
    requires ChildrenCarry(geometryType, intensitiesRole, normalsRole, hasNormals, intensities0, normals0, children)
    requires Grew(intensities0, intensities1) && Grew(normals0, normals1)
    ensures ChildrenCarry(geometryType, intensitiesRole, normalsRole, hasNormals, intensities1, normals1, children)
  {
  }

}
