/**
 * base::HUVolumeGrid: an HU volume partitioned into disjoint segments. The
 * segment of a voxel is c / maxSegmentSize and its local coordinate
 * c % maxSegmentSize, exactly as in VolumeGrid, but there are no redundant
 * texels: setVoxel writes one texel only.
 */
module HUVolumeGrids {

  import opened GridMath
  import opened Wrappers
  import opened VolumeGrids

  /** After a single-texel write at the primary texel of `c`, `c` reads the new value and every other coordinate reads as before. */
  lemma {:induction false} PrimaryWriteRead(max: Vec3, counts: Vec3, vols: Volumes<int>, r: Volumes<int>, c: Vec3, v: int)
    requires Positive(max) && Readable(max, counts, vols, c)
    requires r == Put(max, counts, vols, SegmentOf(max, c), LocalOf(max, c), v)
    ensures Readable(max, counts, r, c) && GetVoxel(max, counts, r, c) == v
    ensures forall g :: Readable(max, counts, vols, g) ==>
              Readable(max, counts, r, g) && GetVoxel(max, counts, r, g) == if g == c then v else GetVoxel(max, counts, vols, g)
  {
    RowMajorBijective(counts, SegmentOf(max, c));
    forall g | Readable(max, counts, vols, g)
      ensures Readable(max, counts, r, g)
      ensures GetVoxel(max, counts, r, g) == if g == c then v else GetVoxel(max, counts, vols, g)
    {
      RowMajorBijective(counts, SegmentOf(max, g));
      SplitRoundTrip(max, g, g, g);
      SplitRoundTrip(max, c, c, c);
    }
  }

  class HUVolumeGrid {
    const maxSegmentSize: Vec3
    const segmentCounts: Vec3
    var offsets: seq<Vec3>
    /** The volume of each segment, None until one is assigned. */
    var volumes: Volumes<int>

    ghost predicate Valid()
      reads this
    {
      Positive(maxSegmentSize) && Positive(segmentCounts)
      && |offsets| == Cells(segmentCounts) && |volumes| == Cells(segmentCounts)
      && forall i :: 0 <= i < |offsets| ==> offsets[i] == Offset(maxSegmentSize, FromRowMajor(segmentCounts, i))
    }

    /** Creates the segments in z, y, x order with offset (x, y, z) times the maximum segment size. */
    constructor(maxSegmentSize: Vec3, segmentCounts: Vec3)
      requires Positive(maxSegmentSize) && Positive(segmentCounts)
      ensures Valid()
      ensures this.maxSegmentSize == maxSegmentSize && this.segmentCounts == segmentCounts
      ensures forall i :: 0 <= i < |volumes| ==> volumes[i].None?
    {
      this.maxSegmentSize := maxSegmentSize;
      this.segmentCounts := segmentCounts;
      var segments := SegmentOffsets(maxSegmentSize, segmentCounts);
      offsets := segments;
      volumes := seq(Cells(segmentCounts), _ => None);
    }

    /** segmentIndex: row-major position of segment `s`. */
    function SegmentIndex(s: Vec3): (i: nat)
      reads this
      requires Valid() && Below(s, segmentCounts)
      ensures i < |offsets| && offsets[i] == Offset(maxSegmentSize, s)
      ensures FromRowMajor(segmentCounts, i) == s
    {
      RowMajorBijective(segmentCounts, s);
      RowMajor(segmentCounts, s)
    }

    /** HUVolumeSegment::setVolume for the segment at `s`. */
    method SetSegmentVolume(s: Vec3, volume: SegmentVolume<int>)
      requires Valid() && Below(s, segmentCounts)
      modifies this
      ensures Valid()
      ensures volumes == old(volumes)[SegmentIndex(s) := Some(volume)]
      ensures offsets == old(offsets)
    {
      volumes := volumes[SegmentIndex(s) := Some(volume)];
    }

    /** operator(): the voxel at local c % max of segment c / max. */
    function HU(c: Vec3): (r: int)
      reads this
      requires Readable(maxSegmentSize, segmentCounts, volumes, c)
      ensures exists i, p :: 0 <= i < |volumes| && volumes[i].Some? && Below(p, volumes[i].value.size)
                && Global(maxSegmentSize, FromRowMajor(segmentCounts, i), p) == c && r == volumes[i].value.at(p)
    {
      GetVoxelHoldsTexel(maxSegmentSize, segmentCounts, volumes, c);
      GetVoxel(maxSegmentSize, segmentCounts, volumes, c)
    }

    /**
     * setVoxel: writes one texel. Afterwards `c` reads `huv` and every
     * other readable coordinate reads as before.
     */
    method SetVoxel(c: Vec3, huv: int)
      requires Valid() && Readable(maxSegmentSize, segmentCounts, volumes, c)
      modifies this
      ensures Valid() && offsets == old(offsets)
      ensures Readable(maxSegmentSize, segmentCounts, volumes, c) && HU(c) == huv
      ensures forall g :: Readable(maxSegmentSize, segmentCounts, old(volumes), g) ==>
                Readable(maxSegmentSize, segmentCounts, volumes, g)
                && HU(g) == if g == c then huv else GetVoxel(maxSegmentSize, segmentCounts, old(volumes), g)
    {
      var s := SegmentOf(maxSegmentSize, c);
      var l := LocalOf(maxSegmentSize, c);
      PrimaryWriteRead(maxSegmentSize, segmentCounts, volumes, Put(maxSegmentSize, segmentCounts, volumes, s, l, huv), c, huv);
      volumes := Put(maxSegmentSize, segmentCounts, volumes, s, l, huv);
    }
  }
}
