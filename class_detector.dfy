/**
 * HistogramClassDetector: partitions the value range of a histogram into
 * classes. The logarithm and the Gaussian smoothing of the counts are
 * floating-point work: the smoothed samples come from a function `smooth`
 * of the counts, and the test whether a candidate's smoothed height range
 * is large enough is a predicate `tall`. Everything else is modelled as
 * written: the local minima of the smoothed samples found through the
 * sign change of the derivative, the candidates between consecutive minima,
 * the non-typical filler classes, and the shift by the configuration's
 * first value.
 */
module ClassDetectors {
  import opened Wrappers
  import opened OrderedSets
  import opened Histograms

  datatype Class = Class(first: int, last: int, typical: bool)

  /** The integer part of a configuration; the height threshold is inside `tall`. */
  datatype Configuration = Configuration(first: int, last: int, radius: nat, minimumTypicalClassWidth: nat)

  // ---------------------------------------------------------------------
  // Peaks: the local minima of the smoothed samples
  // ---------------------------------------------------------------------

  /**
   * The derivative sample the loop compares at `i`: the difference to the
   * previous sample, and for the first sample the sample itself, which is
   * what the loop starts `last_derivative_sample` with.
   */
  function Derivative(s: seq<int>, i: nat): int
    requires i < |s|
  {
    if i == 0 then s[0] else s[i] - s[i - 1]
  }

  /** Sample `i` is a local minimum: the derivative changes sign from negative to positive there. */
  predicate IsPeak(s: seq<int>, i: nat)
    requires 1 <= i < |s|
  {
    Derivative(s, i - 1) < 0 && Derivative(s, i) > 0
  }

  /** The peaks among the samples 1 .. n - 1, in ascending order. */
  function InteriorPeaks(s: seq<int>, n: nat): seq<nat>
    requires n <= |s|
  {
    if n <= 1 then []
    else InteriorPeaks(s, n - 1) + (if IsPeak(s, n - 1) then [n - 1] else [])
  }

  /** The peak indices: the first sample, the interior peaks, and the last sample. */
  function Peaks(s: seq<int>): seq<nat>
    requires |s| >= 1
  {
    var ps := [0] + InteriorPeaks(s, |s|);
    if ps[|ps| - 1] != |s| - 1 then ps + [|s| - 1] else ps
  }

  /** Appending an element above the last keeps a sequence strictly ascending. */
  lemma AscendingSnoc(ps: seq<nat>, x: nat)
    requires StrictlyAscending(ps) && (ps != [] ==> ps[|ps| - 1] < x)
    ensures StrictlyAscending(ps + [x])
  {
    var r := ps + [x];
    forall i, j | 0 <= i < j < |r|
      ensures r[i] < r[j]
    {
      if j == |ps| && i < |ps| - 1 {
        assert ps[i] < ps[|ps| - 1];
      }
    }
  }

  /** The interior peaks lie in [1, n), strictly ascending. */
  lemma {:induction false} InteriorPeaksAscending(s: seq<int>, n: nat)
    requires n <= |s|
    ensures var ps := InteriorPeaks(s, n);
            StrictlyAscending(ps) && forall i :: 0 <= i < |ps| ==> 1 <= ps[i] < n
  {
    if n > 1 {
      InteriorPeaksAscending(s, n - 1);
      var ps := InteriorPeaks(s, n - 1);
      if IsPeak(s, n - 1) {
        AscendingSnoc(ps, n - 1);
      }
    }
  }

  /** An interior sample is a peak exactly when the derivative rule says so. */
  lemma {:induction false} InteriorPeaksExactly(s: seq<int>, n: nat, i: nat)
    requires n <= |s| && 1 <= i < n
    ensures i in InteriorPeaks(s, n) <==> IsPeak(s, i)
  {
    InteriorPeaksAscending(s, n - 1);
    if i < n - 1 {
      InteriorPeaksExactly(s, n - 1, i);
    }
  }

  /** The peak indices start at 0, end at the last sample and ascend strictly. */
  lemma PeaksAscending(s: seq<int>)
    requires |s| >= 1
    ensures var ps := Peaks(s);
            |ps| >= 1 && ps[0] == 0 && ps[|ps| - 1] == |s| - 1 && StrictlyAscending(ps)
  {
    var inner := InteriorPeaks(s, |s|);
    InteriorPeaksAscending(s, |s|);
    var ps := [0] + inner;
    forall i, j | 0 <= i < j < |ps|
      ensures ps[i] < ps[j]
    {
      assert ps[j] == inner[j - 1];
      if i > 0 {
        assert ps[i] == inner[i - 1];
      }
    }
    if ps[|ps| - 1] != |s| - 1 {
      AscendingSnoc(ps, |s| - 1);
    }
  }

  /** Between the ends, a sample is a peak index exactly when the derivative turns from negative to positive there. */
  lemma PeaksExactly(s: seq<int>, i: nat)
    requires 1 <= i < |s| - 1
    ensures i in Peaks(s) <==> IsPeak(s, i)
  {
    InteriorPeaksExactly(s, |s|, i);
  }

  /** The peak search of compute: one pass over the samples tracking the last sample and derivative. */
  method FindPeaks(smoothed: seq<int>) returns (peaks: seq<nat>)
    requires |smoothed| >= 1
    ensures peaks == Peaks(smoothed)
  {
    peaks := [0];
    var lastSample := smoothed[0];
    var lastDerivative := lastSample;
    var i := 1;
    while i < |smoothed|
      invariant 1 <= i <= |smoothed|
      invariant peaks == [0] + InteriorPeaks(smoothed, i)
      invariant lastSample == smoothed[i - 1] && lastDerivative == Derivative(smoothed, i - 1)
    {
      var derivative := smoothed[i] - lastSample;
      if lastDerivative < 0 && derivative > 0 {
        peaks := peaks + [i];
      }
      lastSample := smoothed[i];
      lastDerivative := derivative;
      i := i + 1;
    }
    if peaks[|peaks| - 1] != |smoothed| - 1 {
      peaks := peaks + [|smoothed| - 1];
    }
  }

  // ---------------------------------------------------------------------
  // Classes
  // ---------------------------------------------------------------------

  /** The last index covered by the classes so far. */
  function LastOf(cs: seq<Class>): int
    requires cs != []
  {
    cs[|cs| - 1].last
  }

  /** add_class: appends [f, l], after a non-typical filler class for any gap before it. */
  function AddClass(cs: seq<Class>, f: int, l: int, typical: bool): seq<Class>
    requires f <= l
  {
    var filler :=
      if cs == [] && f >= 1 then [Class(0, f - 1, false)]
      else if cs != [] && LastOf(cs) + 1 < f then [Class(LastOf(cs) + 1, f - 1, false)]
      else [];
    cs + filler + [Class(f, l, typical)]
  }

  /** Where the candidate that ends at peak `k` begins: after the previous peak, or at the first one. */
  function CandidateFirst(peaks: seq<nat>, k: nat): nat
    requires 1 <= k < |peaks|
  {
    if k == 1 then peaks[0] else peaks[k - 1] + 1
  }

  /** The candidate [f, l] becomes a typical class if it is wider than the minimum and tall enough. */
  function Candidate(cs: seq<Class>, f: nat, l: nat, minimumWidth: nat, tall: (nat, nat) -> bool): seq<Class>
    requires f <= l
  {
    if l - f + 1 > minimumWidth && tall(f, l) then AddClass(cs, f, l, true) else cs
  }

  /** The classes after the candidates ending at peaks 1 .. k - 1. */
  function ScanClasses(peaks: seq<nat>, k: nat, minimumWidth: nat, tall: (nat, nat) -> bool): seq<Class>
    requires 1 <= k <= |peaks| && StrictlyAscending(peaks)
  {
    if k == 1 then []
    else Candidate(ScanClasses(peaks, k - 1, minimumWidth, tall), CandidateFirst(peaks, k - 1), peaks[k - 1], minimumWidth, tall)
  }

  /** The end of compute's class search: a class up to the last peak if the classes stop short of it. */
  function Finish(cs: seq<Class>, peaks: seq<nat>): seq<Class>
    requires |peaks| >= 1 && peaks[0] <= peaks[|peaks| - 1]
  {
    if cs == [] then AddClass([], peaks[0], peaks[|peaks| - 1], false)
    else if LastOf(cs) < peaks[|peaks| - 1] then AddClass(cs, LastOf(cs) + 1, peaks[|peaks| - 1], false)
    else cs
  }

  /** Every class shifted by `offset`. */
  function Shift(cs: seq<Class>, offset: int): (r: seq<Class>)
    ensures |r| == |cs|
    ensures forall i :: 0 <= i < |cs| ==>
              r[i] == Class(cs[i].first + offset, cs[i].last + offset, cs[i].typical)
  {
    if cs == [] then [] else [Class(cs[0].first + offset, cs[0].last + offset, cs[0].typical)] + Shift(cs[1..], offset)
  }

  /** `cs` partitions [lo, hi] into consecutive non-empty classes, with no gap. */
  predicate Partition(cs: seq<Class>, lo: int, hi: int)
  {
    && |cs| >= 1 && cs[0].first == lo && cs[|cs| - 1].last == hi
    && (forall i :: 0 <= i < |cs| ==> cs[i].first <= cs[i].last)
    && (forall i :: 0 <= i < |cs| - 1 ==> cs[i + 1].first == cs[i].last + 1)
  }

  /** Every typical class is wider than the minimum typical class width. */
  predicate TypicalWide(cs: seq<Class>, minimumWidth: nat)
  {
    forall i :: 0 <= i < |cs| ==> cs[i].typical ==> cs[i].last - cs[i].first + 1 > minimumWidth
  }

  /** The classes found so far cover [0, h] for some h before the next candidate. */
  predicate Covering(cs: seq<Class>, next: nat, minimumWidth: nat)
  {
    (cs == [] || (Partition(cs, 0, LastOf(cs)) && LastOf(cs) < next)) && TypicalWide(cs, minimumWidth)
  }

  /** add_class keeps the classes a gap-free partition, now up to `l`. */
  lemma AddClassCovers(cs: seq<Class>, f: nat, l: nat, typical: bool, minimumWidth: nat)
    requires f <= l && Covering(cs, f, minimumWidth)
    requires typical ==> l - f + 1 > minimumWidth
    ensures Partition(AddClass(cs, f, l, typical), 0, l) && TypicalWide(AddClass(cs, f, l, typical), minimumWidth)
  {
    var r := AddClass(cs, f, l, typical);
    if cs != [] {
      assert r[..|cs|] == cs;
    }
  }

  /** The scan keeps the classes a gap-free partition ending before the next candidate. */
  lemma {:induction false} ScanCovers(peaks: seq<nat>, k: nat, minimumWidth: nat, tall: (nat, nat) -> bool)
    requires 1 <= k <= |peaks| && StrictlyAscending(peaks)
    ensures var cs := ScanClasses(peaks, k, minimumWidth, tall);
            Covering(cs, if k < |peaks| then CandidateFirst(peaks, k) else peaks[k - 1] + 1, minimumWidth)
            && (cs != [] ==> 0 <= LastOf(cs) <= peaks[k - 1])
  {
    if k > 1 {
      ScanCovers(peaks, k - 1, minimumWidth, tall);
      var cs := ScanClasses(peaks, k - 1, minimumWidth, tall);
      var f, l := CandidateFirst(peaks, k - 1), peaks[k - 1];
      if l - f + 1 > minimumWidth && tall(f, l) {
        AddClassCovers(cs, f, l, true, minimumWidth);
      }
    }
  }

  /** Every typical class, moved back by `offset` into index space, is tall enough. */
  predicate TypicalTall(cs: seq<Class>, offset: int, tall: (nat, nat) -> bool)
  {
    forall i :: 0 <= i < |cs| ==> cs[i].typical ==>
      0 <= cs[i].first - offset <= cs[i].last - offset && tall(cs[i].first - offset, cs[i].last - offset)
  }

  /** Two non-typical classes never follow one another. */
  predicate NoAdjacentAtypical(cs: seq<Class>)
  {
    forall i :: 0 <= i < |cs| - 1 ==> cs[i].typical || cs[i + 1].typical
  }

  /** What the scan keeps: typical classes tall, no two non-typical ones in a row, a typical one last. */
  predicate Alternating(cs: seq<Class>, tall: (nat, nat) -> bool)
  {
    TypicalTall(cs, 0, tall) && NoAdjacentAtypical(cs) && (cs != [] ==> cs[|cs| - 1].typical)
  }

  /** add_class of a tall typical class keeps the classes alternating. */
  lemma AddTypicalAlternates(cs: seq<Class>, f: nat, l: nat, tall: (nat, nat) -> bool)
    requires f <= l && tall(f, l) && Alternating(cs, tall)
    ensures Alternating(AddClass(cs, f, l, true), tall)
  {
    var r := AddClass(cs, f, l, true);
    forall i | 0 <= i < |r| - 1
      ensures r[i].typical || r[i + 1].typical
    {
      if i < |cs| - 1 {
        assert r[i] == cs[i] && r[i + 1] == cs[i + 1];
      } else if i == |cs| - 1 {
        assert r[i] == cs[i];
      }
    }
    forall i | 0 <= i < |r| && r[i].typical
      ensures 0 <= r[i].first <= r[i].last && tall(r[i].first, r[i].last)
    {
      if i < |cs| {
        assert r[i] == cs[i];
      }
    }
  }

  /** The scan only ever adds tall typical classes, each after at most one filler. */
  lemma {:induction false} ScanAlternates(peaks: seq<nat>, k: nat, minimumWidth: nat, tall: (nat, nat) -> bool)
    requires 1 <= k <= |peaks| && StrictlyAscending(peaks)
    ensures Alternating(ScanClasses(peaks, k, minimumWidth, tall), tall)
  {
    if k > 1 {
      ScanAlternates(peaks, k - 1, minimumWidth, tall);
      var cs := ScanClasses(peaks, k - 1, minimumWidth, tall);
      var f, l := CandidateFirst(peaks, k - 1), peaks[k - 1];
      if l - f + 1 > minimumWidth && tall(f, l) {
        AddTypicalAlternates(cs, f, l, tall);
      }
    }
  }

  /** The classes compute finds in index space, before the shift. */
  function IndexClasses(smoothed: seq<int>, minimumWidth: nat, tall: (nat, nat) -> bool): seq<Class>
    requires |smoothed| >= 1
  {
    PeaksAscending(smoothed);
    var peaks := Peaks(smoothed);
    ScanCovers(peaks, |peaks|, minimumWidth, tall);
    Finish(ScanClasses(peaks, |peaks|, minimumWidth, tall), peaks)
  }

  /** The result of compute: the index classes shifted by the configuration's first value. */
  function Classes(smoothed: seq<int>, cfg: Configuration, tall: (nat, nat) -> bool): seq<Class>
    requires |smoothed| >= 1
  {
    Shift(IndexClasses(smoothed, cfg.minimumTypicalClassWidth, tall), cfg.first)
  }

  /** The index classes partition [0, |smoothed| - 1] without gaps, typical ones wider than the minimum. */
  lemma IndexClassesPartition(smoothed: seq<int>, minimumWidth: nat, tall: (nat, nat) -> bool)
    requires |smoothed| >= 1
    ensures Partition(IndexClasses(smoothed, minimumWidth, tall), 0, |smoothed| - 1)
    ensures TypicalWide(IndexClasses(smoothed, minimumWidth, tall), minimumWidth)
  {
    PeaksAscending(smoothed);
    var peaks := Peaks(smoothed);
    ScanCovers(peaks, |peaks|, minimumWidth, tall);
    var cs := ScanClasses(peaks, |peaks|, minimumWidth, tall);
    var last := peaks[|peaks| - 1];
    if cs == [] {
      AddClassCovers([], peaks[0], last, false, minimumWidth);
    } else if LastOf(cs) < last {
      AddClassCovers(cs, LastOf(cs) + 1, last, false, minimumWidth);
    }
  }

  /**
   * Every typical index class is tall, and two non-typical classes never
   * occur in a row: the closing class follows a typical one or stands alone.
   */
  lemma IndexClassesAlternate(smoothed: seq<int>, minimumWidth: nat, tall: (nat, nat) -> bool)
    requires |smoothed| >= 1
    ensures TypicalTall(IndexClasses(smoothed, minimumWidth, tall), 0, tall)
    ensures NoAdjacentAtypical(IndexClasses(smoothed, minimumWidth, tall))
  {
    PeaksAscending(smoothed);
    var peaks := Peaks(smoothed);
    ScanAlternates(peaks, |peaks|, minimumWidth, tall);
    var cs := ScanClasses(peaks, |peaks|, minimumWidth, tall);
    var r := IndexClasses(smoothed, minimumWidth, tall);
    var last := peaks[|peaks| - 1];
    if cs != [] && LastOf(cs) < last {
      assert r == cs + [Class(LastOf(cs) + 1, last, false)];
      forall i | 0 <= i < |r| - 1
        ensures r[i].typical || r[i + 1].typical
      {
        assert r[i] == cs[i];
        if i < |cs| - 1 {
          assert r[i + 1] == cs[i + 1];
        }
      }
      forall i | 0 <= i < |r| && r[i].typical
        ensures 0 <= r[i].first <= r[i].last && tall(r[i].first, r[i].last)
      {
        assert r[i] == cs[i];
      }
    }
  }

  /** Shifting keeps the alternation, and typical classes stay tall once moved back by the offset. */
  lemma ShiftAlternates(cs: seq<Class>, offset: int, tall: (nat, nat) -> bool)
    requires TypicalTall(cs, 0, tall) && NoAdjacentAtypical(cs)
    ensures TypicalTall(Shift(cs, offset), offset, tall) && NoAdjacentAtypical(Shift(cs, offset))
  {
    var r := Shift(cs, offset);
    forall i | 0 <= i < |r|
      ensures r[i].typical == cs[i].typical && r[i].first - offset == cs[i].first && r[i].last - offset == cs[i].last
    {
      assert r[i] == Class(cs[i].first + offset, cs[i].last + offset, cs[i].typical);
    }
    forall i | 0 <= i < |r| - 1
      ensures r[i].typical || r[i + 1].typical
    {
      assert cs[i].typical || cs[i + 1].typical;
    }
  }

  /**
   * The result of compute partitions [cfg.first, cfg.last] into
   * consecutive classes with no gap, each with last >= first; every
   * typical class is wider than the minimum typical class width and tall
   * enough over its indices; and no two non-typical classes are adjacent.
   */
  lemma ClassesPartition(smoothed: seq<int>, cfg: Configuration, tall: (nat, nat) -> bool)
    requires cfg.first <= cfg.last && |smoothed| == cfg.last - cfg.first + 1
    ensures Partition(Classes(smoothed, cfg, tall), cfg.first, cfg.last)
    ensures TypicalWide(Classes(smoothed, cfg, tall), cfg.minimumTypicalClassWidth)
    ensures TypicalTall(Classes(smoothed, cfg, tall), cfg.first, tall)
    ensures NoAdjacentAtypical(Classes(smoothed, cfg, tall))
  {
    IndexClassesPartition(smoothed, cfg.minimumTypicalClassWidth, tall);
    IndexClassesAlternate(smoothed, cfg.minimumTypicalClassWidth, tall);
    ShiftAlternates(IndexClasses(smoothed, cfg.minimumTypicalClassWidth, tall), cfg.first, tall);
    ShiftPartition(IndexClasses(smoothed, cfg.minimumTypicalClassWidth, tall), 0, cfg.last - cfg.first,
                   cfg.minimumTypicalClassWidth, cfg.first);
  }

  /** The class loop of compute, with the final class and the shift by the configuration's first value. */
  method FindClasses(peaks: seq<nat>, cfg: Configuration, tall: (nat, nat) -> bool) returns (classes: seq<Class>)
    requires |peaks| >= 1 && StrictlyAscending(peaks)
    ensures classes == Shift(Finish(ScanClasses(peaks, |peaks|, cfg.minimumTypicalClassWidth, tall), peaks), cfg.first)
  {
    var found: seq<Class> := [];
    var first := peaks[0];
    var k := 1;
    while k < |peaks|
      invariant 1 <= k <= |peaks|
      invariant found == ScanClasses(peaks, k, cfg.minimumTypicalClassWidth, tall)
      invariant k < |peaks| ==> first == CandidateFirst(peaks, k)
    {
      var last := peaks[k];
      if last - first + 1 > cfg.minimumTypicalClassWidth && tall(first, last) {
        found := AddClass(found, first, last, true);
      }
      first := last + 1;
      k := k + 1;
    }
    ScanCovers(peaks, |peaks|, cfg.minimumTypicalClassWidth, tall);
    var last := peaks[|peaks| - 1];
    if found == [] {
      found := AddClass([], peaks[0], last, false);
    } else if LastOf(found) < last {
      found := AddClass(found, LastOf(found) + 1, last, false);
    }
    classes := ShiftClasses(found, cfg.first);
  }

  /** The loop of compute that adds the configuration's first value to every class. */
  method ShiftClasses(found: seq<Class>, offset: int) returns (classes: seq<Class>)
    ensures classes == Shift(found, offset)
  {
    classes := [];
    var i := 0;
    while i < |found|
      invariant i <= |found|
      invariant classes == Shift(found[..i], offset)
    {
      classes := classes + [Class(found[i].first + offset, found[i].last + offset, found[i].typical)];
      i := i + 1;
      assert found[..i] == found[..i - 1] + [found[i - 1]];
      ShiftSnoc(found[..i - 1], found[i - 1], offset);
    }
    assert found[..i] == found;
  }

  lemma {:induction false} ShiftSnoc(cs: seq<Class>, c: Class, offset: int)
    ensures Shift(cs + [c], offset) == Shift(cs, offset) + [Class(c.first + offset, c.last + offset, c.typical)]
  {
    var r := Shift(cs + [c], offset);
    var e := Shift(cs, offset) + [Class(c.first + offset, c.last + offset, c.typical)];
    assert |r| == |e|;
    forall i | 0 <= i < |r|
      ensures r[i] == e[i]
    {
      if i < |cs| {
        assert (cs + [c])[i] == cs[i];
      }
    }
  }

  /** The counts of `count` consecutive keys starting at index `from`. */
  function Samples(data: seq<nat>, from: nat, count: nat): seq<nat>
  {
    if count == 0 then [] else Samples(data, from, count - 1) + [IndexedRead(data, from + count - 1)]
  }

  /** The classes of a partition shifted by `offset` partition the shifted range. */
  lemma ShiftPartition(cs: seq<Class>, lo: int, hi: int, minimumWidth: nat, offset: int)
    requires Partition(cs, lo, hi) && TypicalWide(cs, minimumWidth)
    ensures Partition(Shift(cs, offset), lo + offset, hi + offset)
    ensures TypicalWide(Shift(cs, offset), minimumWidth)
  {
    var r := Shift(cs, offset);
    forall i | 0 <= i < |cs| - 1
      ensures r[i + 1].first == r[i].last + 1
    {
      assert r[i + 1].first == cs[i + 1].first + offset;
    }
  }

  /** HistogramClassDetector: the classes of the last compute, if any since the last reset. */
  class HistogramClassDetector {
    var classes: Option<seq<Class>>

    constructor()
      ensures !Done()
    {
      classes := None;
    }

    /** done: compute has run since construction or the last reset. */
    predicate Done()
      reads this
    {
      classes.Some?
    }

    method Reset()
      modifies this
      ensures !Done()
    {
      classes := None;
    }

    /** result asserts done. */
    method Result() returns (r: seq<Class>)
      requires Done()
      ensures r == classes.value
    {
      r := classes.value;
    }

    /**
     * compute: reads the counts of cfg.first .. cfg.last from the counter,
     * smooths them, and stores the classes; asserts that the range is
     * wider than the smoothing radius.
     */
    method Compute(counter: IndexedCounter, cfg: Configuration, smooth: seq<nat> -> seq<int>, tall: (nat, nat) -> bool)
      requires cfg.first <= cfg.last && cfg.last - cfg.first + 1 > cfg.radius
      requires counter.min <= cfg.first
      requires forall counts :: |smooth(counts)| == |counts|
      modifies this
      ensures Done()
      ensures classes == Some(Classes(smooth(Samples(counter.data, cfg.first - counter.min, cfg.last - cfg.first + 1)), cfg, tall))
      ensures Partition(classes.value, cfg.first, cfg.last)
      ensures TypicalWide(classes.value, cfg.minimumTypicalClassWidth)
      ensures TypicalTall(classes.value, cfg.first, tall) && NoAdjacentAtypical(classes.value)
    {
      var range := cfg.last - cfg.first + 1;
      classes := None;
      var counts: seq<nat> := [];
      var i := 0;
      while i < range
        invariant i <= range && |counts| == i
        invariant counts == Samples(counter.data, cfg.first - counter.min, i)
      {
        var n := counter.Get(cfg.first + i);
        counts := counts + [n];
        i := i + 1;
      }
      var smoothed := smooth(counts);
      var peaks := FindPeaks(smoothed);
      PeaksAscending(smoothed);
      var found := FindClasses(peaks, cfg, tall);
      classes := Some(found);
      ClassesPartition(smoothed, cfg, tall);
    }
  }
}
