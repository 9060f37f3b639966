/**
 * Geometry stages: a render stage that renders the geometries of its render
 * queue. On the first pass of a frame it acquires a video resource for each
 * feature of the rendered geometries that has none yet, and afterwards
 * releases the resources of the features no geometry used.
 *
 * Video resources are modelled as an acquisition log: the i-th acquisition
 * is handle i, `acquiredFeatures` maps a feature (by address) to its handle,
 * and `deletions` lists the handles deleted, in order. The scene graph
 * traversal of the frame's root is given as the visited nodes, the view
 * transform as the eye distance of each geometry, render() as the log of
 * rendered geometries.
 */
module GeometryStages {
  import opened Wrappers
  import opened OrderedSets
  import opened Renderables
  import opened RenderQueues

  function Elems(s: seq<nat>): (e: set<nat>)
    ensures forall x :: x in e <==> x in s
  {
    set x | x in s
  }

  /** visitFeatures: the features of a renderable's geometry, in ascending role order. */
  function FeaturesOf(r: Renderable): (fs: seq<nat>)
    ensures |fs| == |r.features.Keys|
  {
    var roles := Ascending(r.features.Keys);
    seq(|roles|, i requires 0 <= i < |roles| => if roles[i] in r.features then r.features[roles[i]].address else 0)
  }

  /** visitFeatures visits exactly the features of the geometry, each role once. */
  lemma FeaturesOfExactly(r: Renderable)
    ensures forall f :: f in FeaturesOf(r) <==> exists role :: role in r.features && r.features[role].address == f
  {
    var roles := Ascending(r.features.Keys);
    var fs := FeaturesOf(r);
    forall f | f in fs
      ensures exists role :: role in r.features && r.features[role].address == f
    {
      var i :| 0 <= i < |fs| && fs[i] == f;
      assert roles[i] in roles;
    }
    forall role | role in r.features
      ensures r.features[role].address in fs
    {
      var i :| 0 <= i < |roles| && roles[i] == role;
      assert fs[i] == r.features[role].address;
    }
  }

  /** The features of the polled renderables, in the order the pass visits them. */
  function AllFeatures(polled: seq<Renderable>): seq<nat>
  {
    if polled == [] then []
    else AllFeatures(polled[..|polled| - 1]) + FeaturesOf(polled[|polled| - 1])
  }

  /** The geometries render() is called with, in polling order. */
  function GeometriesOf(polled: seq<Renderable>): (gs: seq<nat>)
    ensures |gs| == |polled|
    ensures forall i :: 0 <= i < |polled| ==> gs[i] == polled[i].geometry
  {
    seq(|polled|, i requires 0 <= i < |polled| => polled[i].geometry)
  }

  /**
   * The features a first pass acquires, in acquisition order: each feature
   * at its first use, unless it was already acquired (`known`).
   */
  function FirstUses(known: set<nat>, fs: seq<nat>): seq<nat>
    decreases |fs|
  {
    if fs == [] then []
    else (if fs[0] in known then [] else [fs[0]]) + FirstUses(known + {fs[0]}, fs[1..])
  }

  /** Acquiring `a` and then `b` acquires what acquiring `a + b` does. */
  lemma {:induction false} FirstUsesAppend(known: set<nat>, a: seq<nat>, b: seq<nat>)
    ensures FirstUses(known, a + b) == FirstUses(known, a) + FirstUses(known + Elems(a), b)
    decreases |a|
  {
    if a == [] {
      assert a + b == b;
      assert known + Elems(a) == known;
    } else {
      var head := if a[0] in known then [] else [a[0]];
      assert (a + b)[0] == a[0] && (a + b)[1..] == a[1..] + b;
      assert FirstUses(known, a + b) == head + FirstUses(known + {a[0]}, a[1..] + b);
      FirstUsesAppend(known + {a[0]}, a[1..], b);
      assert a == [a[0]] + a[1..];
      assert known + {a[0]} + Elems(a[1..]) == known + Elems(a);
    }
  }

  /** Acquiring one more feature `f`. */
  lemma FirstUsesSnoc(known: set<nat>, a: seq<nat>, f: nat)
    ensures FirstUses(known, a + [f]) == FirstUses(known, a) + (if f in known + Elems(a) then [] else [f])
    ensures Elems(a + [f]) == Elems(a) + {f}
  {
    FirstUsesAppend(known, a, [f]);
    assert [f][1..] == [];
  }

  /**
   * Each feature is acquired at most once, only if it had no resource yet,
   * and every used feature without one is acquired.
   */
  lemma {:induction false} FirstUsesFresh(known: set<nat>, fs: seq<nat>)
    ensures var acquired := FirstUses(known, fs);
            (forall i, j :: 0 <= i < j < |acquired| ==> acquired[i] != acquired[j])
            && Elems(acquired) == Elems(fs) - known
    decreases |fs|
  {
    if fs != [] {
      FirstUsesFresh(known + {fs[0]}, fs[1..]);
      assert fs == [fs[0]] + fs[1..];
      assert Elems(fs) == {fs[0]} + Elems(fs[1..]);
    }
  }

  /** The handles of features `fs` in the map `m`. */
  function HandlesOf(m: map<nat, nat>, fs: seq<nat>): (hs: seq<nat>)
    requires forall f :: f in fs ==> f in m
    ensures |hs| == |fs|
    ensures forall i :: 0 <= i < |fs| ==> hs[i] == m[fs[i]]
  {
    seq(|fs|, i requires 0 <= i < |fs| => m[fs[i]])
  }

  /** The entries of the features that were used. */
  function Restrict(m: map<nat, nat>, used: set<nat>): (r: map<nat, nat>)
    ensures r.Keys == m.Keys * used
    ensures forall f :: f in r ==> r[f] == m[f]
  {
    map f | f in m && f in used :: m[f]
  }

  /**
   * The video resources of a stage: the features acquired so far (by
   * address, in acquisition order; the i-th is handle i), the map from a
   * feature to its handle, and the handles deleted, in order.
   */
  datatype Resources = Resources(acquired: map<nat, nat>, acquisitions: seq<nat>, deletions: seq<nat>)

  /** Handle `h` is still held in the map. */
  predicate Live(r: Resources, h: nat)
  {
    h < |r.acquisitions| && r.acquisitions[h] in r.acquired && r.acquired[r.acquisitions[h]] == h
  }

  /** Every held handle is its feature's own acquisition. */
  predicate Handles(r: Resources)
  {
    forall f :: f in r.acquired ==> r.acquired[f] < |r.acquisitions| && r.acquisitions[r.acquired[f]] == f
  }

  /**
   * The resources are sound: every held handle is its feature's own
   * acquisition, every acquisition is either still held or deleted, and
   * none is deleted twice.
   */
  predicate Sound(r: Resources)
  {
    Handles(r)
    && (forall i :: 0 <= i < |r.deletions| ==> r.deletions[i] < |r.acquisitions|)
    && (forall i, j :: 0 <= i < j < |r.deletions| ==> r.deletions[i] != r.deletions[j])
    && (forall h :: 0 <= h < |r.acquisitions| ==> (Live(r, h) <==> h !in r.deletions))
  }

  /** Handle `h` is neither held nor deleted: its resource is lost. */
  predicate Leaked(r: Resources, h: nat)
  {
    h < |r.acquisitions| && !Live(r, h) && h !in r.deletions
  }

  /** Acquiring a resource for a feature without one. */
  function Acquire(r: Resources, f: nat): Resources
  {
    Resources(r.acquired[f := |r.acquisitions|], r.acquisitions + [f], r.deletions)
  }

  /** Deleting the resource of a feature and erasing its entry. */
  function Delete(r: Resources, f: nat): Resources
    requires f in r.acquired
  {
    Resources(r.acquired - {f}, r.acquisitions, r.deletions + [r.acquired[f]])
  }

  /** A new acquisition keeps every handle accounted for. */
  lemma AcquireKeeps(r: Resources, f: nat)
    requires Sound(r) && f !in r.acquired
    ensures Sound(Acquire(r, f))
  {
    var r' := Acquire(r, f);
    forall h | 0 <= h < |r'.acquisitions|
      ensures Live(r', h) <==> h !in r'.deletions
    {
      if h < |r.acquisitions| {
        assert r'.acquisitions[h] == r.acquisitions[h];
        assert Live(r', h) <==> Live(r, h);
      }
    }
  }

  /** Deleting a held handle and erasing its entry keeps every handle accounted for. */
  lemma DeleteKeeps(r: Resources, f: nat)
    requires Sound(r) && f in r.acquired
    ensures Sound(Delete(r, f))
  {
    var h0 := r.acquired[f];
    assert Live(r, h0);
    var r' := Delete(r, f);
    forall h | 0 <= h < |r.acquisitions|
      ensures Live(r', h) <==> h !in r'.deletions
    {
      if h != h0 {
        assert Live(r', h) <==> Live(r, h);
      }
    }
  }

  /**
   * Erasing the entry of an unused feature without deleting its resource,
   * as the Carna stage does, loses that resource.
   */
  lemma ErasingWithoutDeletingLeaks(r: Resources, used: set<nat>, f: nat)
    requires Sound(r) && f in r.acquired && f !in used
    ensures Leaked(r.(acquired := Restrict(r.acquired, used)), r.acquired[f])
  {
    assert Live(r, r.acquired[f]);
  }

  /** Once the map is empty, sound resources have deleted every acquisition. */
  lemma AllDeleted(r: Resources)
    requires Sound(r) && r.acquired == map[]
    ensures forall h :: 0 <= h < |r.acquisitions| ==> h in r.deletions
  {
    forall h | 0 <= h < |r.acquisitions|
      ensures h in r.deletions
    {
      assert !Live(r, h);
    }
  }

  /** What acquiring the features `fs` has done to `r0` so far, giving `r`. */
  predicate Acquiring(r0: Resources, fs: seq<nat>, r: Resources)
  {
    r.deletions == r0.deletions
    && r.acquired.Keys == r0.acquired.Keys + Elems(fs)
    && (forall f :: f in r0.acquired ==> r.acquired[f] == r0.acquired[f])
    && r.acquisitions == r0.acquisitions + FirstUses(r0.acquired.Keys, fs)
  }

  /** A step of the acquisition loop at a feature that already has a resource. */
  lemma AcquireKnown(r0: Resources, fs: seq<nat>, f: nat, r: Resources)
    requires Acquiring(r0, fs, r) && f in r.acquired
    ensures Acquiring(r0, fs + [f], r)
  {
    FirstUsesSnoc(r0.acquired.Keys, fs, f);
  }

  /** A step of the acquisition loop at a feature without a resource: it is acquired. */
  lemma AcquireNew(r0: Resources, fs: seq<nat>, f: nat, r: Resources)
    requires Handles(r) && Acquiring(r0, fs, r) && f !in r.acquired
    ensures Handles(Acquire(r, f)) && (Sound(r) ==> Sound(Acquire(r, f)))
    ensures Acquiring(r0, fs + [f], Acquire(r, f))
  {
    FirstUsesSnoc(r0.acquired.Keys, fs, f);
    if Sound(r) {
      AcquireKeeps(r, f);
    }
  }

  /** Acquires a resource for each of `fs` that has none, in order. */
  method AcquireFeatures(r: Resources, fs: seq<nat>) returns (r': Resources)
    requires Handles(r)
    ensures Handles(r') && (Sound(r) ==> Sound(r')) && Acquiring(r, fs, r')
  {
    r' := r;
    var i := 0;
    assert fs[..0] == [];
    while i < |fs|
      invariant i <= |fs| && Handles(r') && (Sound(r) ==> Sound(r')) && Acquiring(r, fs[..i], r')
    {
      var f := fs[i];
      assert fs[..i + 1] == fs[..i] + [f];
      if f !in r'.acquired {
        AcquireNew(r, fs[..i], f, r');
        r' := Acquire(r', f);
      } else {
        AcquireKnown(r, fs[..i], f, r');
      }
      i := i + 1;
    }
    assert fs[..i] == fs;
  }

  /**
   * What a release loop has done to the map `m0` after visiting `visited`:
   * the entries of unused visited features are gone, the rest are kept.
   */
  ghost predicate Kept(m0: map<nat, nat>, used: set<nat>, visited: seq<nat>, m: map<nat, nat>)
  {
    (forall f :: f in m <==> f in m0 && (f in used || f !in visited))
    && (forall f :: f in m ==> m[f] == m0[f])
  }

  lemma KeptStep(m0: map<nat, nat>, used: set<nat>, keys: seq<nat>, i: nat, m: map<nat, nat>)
    requires i < |keys| && Kept(m0, used, keys[..i], m)
    ensures Kept(m0, used, keys[..i + 1], if keys[i] in used then m else m - {keys[i]})
  {
    assert keys[..i + 1] == keys[..i] + [keys[i]];
  }

  lemma KeptDone(m0: map<nat, nat>, used: set<nat>, keys: seq<nat>, m: map<nat, nat>)
    requires Kept(m0, used, keys, m) && forall f :: f in m0 ==> f in keys
    ensures m == Restrict(m0, used)
  {
  }

  /** What the LibCarna release loop has done so far: `erased` are the features it deleted and erased. */
  ghost predicate Releasing(r0: Resources, used: set<nat>, visited: seq<nat>, erased: seq<nat>, r: Resources)
  {
    r.acquisitions == r0.acquisitions
    && Kept(r0.acquired, used, visited, r.acquired)
    && StrictlyAscending(erased)
    && (forall f :: f in erased <==> f in visited && f in r0.acquired && f !in used)
    && r.deletions == r0.deletions + HandlesOf(r0.acquired, erased)
  }

  /** A larger element extends a strictly ascending sequence. */
  lemma AscendingSnoc(s: seq<nat>, x: nat)
    requires StrictlyAscending(s) && forall y :: y in s ==> y < x
    ensures StrictlyAscending(s + [x])
  {
    forall i, j | 0 <= i < j < |s| + 1
      ensures (s + [x])[i] < (s + [x])[j]
    {
      if j == |s| {
        assert s[i] in s;
      }
    }
  }

  lemma HandlesOfSnoc(m: map<nat, nat>, fs: seq<nat>, f: nat)
    requires (forall g :: g in fs ==> g in m) && f in m
    ensures HandlesOf(m, fs + [f]) == HandlesOf(m, fs) + [m[f]]
  {
  }

  /** The features erased so far all precede the one the loop visits. */
  lemma ErasedBefore(keys: seq<nat>, i: nat, erased: seq<nat>)
    requires StrictlyAscending(keys) && i < |keys|
    requires forall f :: f in erased ==> f in keys[..i]
    ensures forall f :: f in erased ==> f < keys[i]
  {
    forall f | f in erased
      ensures f < keys[i]
    {
      var k :| 0 <= k < i && keys[k] == f;
    }
  }

  /** The loop's next key extends the visited prefix and was not visited before. */
  lemma NextKey(keys: seq<nat>, i: nat)
    requires StrictlyAscending(keys) && i < |keys|
    ensures keys[..i + 1] == keys[..i] + [keys[i]]
    ensures keys[i] !in keys[..i]
  {
  }

  /** Deleting the next, unused feature keeps the loop's account. */
  lemma ReleasingDelete(r0: Resources, used: set<nat>, visited: seq<nat>, f: nat, erased: seq<nat>, r: Resources)
    requires Releasing(r0, used, visited, erased, r)
    requires f in r.acquired && f !in used && f !in visited
    requires Kept(r0.acquired, used, visited + [f], r.acquired - {f})
    requires StrictlyAscending(erased + [f])
    ensures Releasing(r0, used, visited + [f], erased + [f], Delete(r, f))
  {
    HandlesOfSnoc(r0.acquired, erased, f);
  }

  /** A step of the LibCarna release loop at a used feature: its entry stays. */
  lemma ReleaseKeep(r0: Resources, used: set<nat>, keys: seq<nat>, i: nat, erased: seq<nat>, r: Resources)
    requires keys == Ascending(r0.acquired.Keys) && i < |keys| && keys[i] in used
    requires Releasing(r0, used, keys[..i], erased, r)
    ensures Releasing(r0, used, keys[..i + 1], erased, r)
  {
    KeptStep(r0.acquired, used, keys, i, r.acquired);
    NextKey(keys, i);
  }

  /** A step of the LibCarna release loop at an unused feature: its resource is deleted and its entry erased. */
  lemma ReleaseDelete(r0: Resources, used: set<nat>, keys: seq<nat>, i: nat, erased: seq<nat>, r: Resources)
    requires keys == Ascending(r0.acquired.Keys) && i < |keys| && keys[i] !in used
    requires Sound(r) && Releasing(r0, used, keys[..i], erased, r)
    ensures keys[i] in r.acquired && Sound(Delete(r, keys[i]))
    ensures Releasing(r0, used, keys[..i + 1], erased + [keys[i]], Delete(r, keys[i]))
  {
    var f := keys[i];
    assert f in keys;
    KeptStep(r0.acquired, used, keys, i, r.acquired);
    NextKey(keys, i);
    DeleteKeeps(r, f);
    ErasedBefore(keys, i, erased);
    AscendingSnoc(erased, f);
    ReleasingDelete(r0, used, keys[..i], f, erased, r);
  }

  /**
   * The release loop of LibCarna's first pass: visits the entries in
   * ascending feature order, deleting the resource and erasing the entry of
   * every feature that was not used.
   */
  method ReleaseUnused(r: Resources, used: set<nat>) returns (r': Resources)
    requires Sound(r)
    ensures Sound(r') && r'.acquisitions == r.acquisitions
    ensures r'.acquired == Restrict(r.acquired, used)
    ensures r'.deletions == r.deletions + HandlesOf(r.acquired, Ascending(r.acquired.Keys - used))
  {
    var keys := Ascending(r.acquired.Keys);
    r' := r;
    ghost var erased: seq<nat> := [];
    var i := 0;
    assert keys[..0] == [];
    while i < |keys|
      invariant i <= |keys| && Sound(r') && Releasing(r, used, keys[..i], erased, r')
    {
      if keys[i] !in used {
        ReleaseDelete(r, used, keys, i, erased, r');
        r' := Delete(r', keys[i]);
        erased := erased + [keys[i]];
      } else {
        ReleaseKeep(r, used, keys, i, erased, r');
      }
      i := i + 1;
    }
    assert keys[..i] == keys;
    KeptDone(r.acquired, used, keys, r'.acquired);
    AscendingUnique(erased, Ascending(r.acquired.Keys - used));
  }

  /**
   * The release loop of Carna's first pass: visits the entries in ascending
   * feature order and erases the entry of every feature that was not used,
   * without deleting its resource.
   */
  method EraseUnused(r: Resources, used: set<nat>) returns (r': Resources)
    ensures r'.acquired == Restrict(r.acquired, used)
    ensures r'.acquisitions == r.acquisitions && r'.deletions == r.deletions
  {
    var keys := Ascending(r.acquired.Keys);
    var m := r.acquired;
    var i := 0;
    assert keys[..0] == [];
    while i < |keys|
      invariant i <= |keys| && Kept(r.acquired, used, keys[..i], m)
    {
      KeptStep(r.acquired, used, keys, i, m);
      if keys[i] !in used {
        m := m - {keys[i]};
      }
      i := i + 1;
    }
    assert keys[..i] == keys;
    KeptDone(r.acquired, used, keys, m);
    r' := r.(acquired := m);
  }

  /** Deletes the resource of every entry, in ascending feature order: the destructor of the Carna stage. */
  method DeleteAll(r: Resources) returns (r': Resources)
    ensures r'.acquired == r.acquired && r'.acquisitions == r.acquisitions
    ensures r'.deletions == r.deletions + HandlesOf(r.acquired, Ascending(r.acquired.Keys))
  {
    var keys := Ascending(r.acquired.Keys);
    var deletions := r.deletions;
    var i := 0;
    assert keys[..0] == [];
    while i < |keys|
      invariant i <= |keys| && deletions == r.deletions + HandlesOf(r.acquired, keys[..i])
    {
      HandlesOfNext(r.acquired, keys, i);
      deletions := deletions + [r.acquired[keys[i]]];
      i := i + 1;
    }
    assert keys[..i] == keys;
    r' := r.(deletions := deletions);
  }

  lemma HandlesOfNext(m: map<nat, nat>, keys: seq<nat>, i: nat)
    requires (forall f :: f in keys ==> f in m) && i < |keys|
    ensures HandlesOf(m, keys[..i + 1]) == HandlesOf(m, keys[..i]) + [m[keys[i]]]
  {
    assert keys[i] in keys;
    assert keys[..i + 1] == keys[..i] + [keys[i]];
    HandlesOfSnoc(m, keys[..i], keys[i]);
  }

  /** Two maps that agree on `fs` give them the same handles. */
  lemma HandlesOfAgree(m1: map<nat, nat>, m2: map<nat, nat>, fs: seq<nat>)
    requires forall f :: f in fs ==> f in m1 && f in m2 && m1[f] == m2[f]
    ensures HandlesOf(m1, fs) == HandlesOf(m2, fs)
  {
    forall i | 0 <= i < |fs|
      ensures HandlesOf(m1, fs)[i] == HandlesOf(m2, fs)[i]
    {
      assert fs[i] in fs;
    }
  }

  /** A lost resource is never deleted by the destructor: it only deletes what the map still holds. */
  lemma LeakedNeverDeleted(r: Resources, h: nat)
    requires Handles(r) && Leaked(r, h)
    ensures h !in r.deletions + HandlesOf(r.acquired, Ascending(r.acquired.Keys))
  {
    var hs := HandlesOf(r.acquired, Ascending(r.acquired.Keys));
    forall i | 0 <= i < |hs|
      ensures hs[i] != h
    {
      var f := Ascending(r.acquired.Keys)[i];
      assert Live(r, r.acquired[f]);
    }
  }

  lemma AllFeaturesSnoc(polled: seq<Renderable>, x: Renderable)
    ensures AllFeatures(polled + [x]) == AllFeatures(polled) + FeaturesOf(x)
    ensures GeometriesOf(polled + [x]) == GeometriesOf(polled) + [x.geometry]
  {
    assert (polled + [x])[..|polled|] == polled;
  }

  lemma ElemsAppend(a: seq<nat>, b: seq<nat>)
    ensures Elems(a + b) == Elems(a) + Elems(b)
  {
  }

  /** Acquiring `a` and then `b` is acquiring `a + b`. */
  lemma AcquiringTrans(r0: Resources, a: seq<nat>, mid: Resources, b: seq<nat>, r: Resources)
    requires Acquiring(r0, a, mid) && Acquiring(mid, b, r)
    ensures Acquiring(r0, a + b, r)
  {
    FirstUsesAppend(r0.acquired.Keys, a, b);
    ElemsAppend(a, b);
  }

  lemma SliceSnoc(s: seq<Renderable>, a: nat, b: nat)
    requires a <= b < |s|
    ensures s[a..b + 1] == s[a..b] + [s[b]]
  {
  }

  /**
   * Where a pass stands after polling `polled`: their geometries were
   * rendered and, on the first pass, their features marked as used and
   * acquired; later passes touch no resource.
   */
  ghost predicate Polled(isFirstPass: bool, r0: Resources, log0: seq<nat>, polled: seq<Renderable>,
                         used: set<nat>, r: Resources, log: seq<nat>)
  {
    log == log0 + GeometriesOf(polled)
    && Handles(r) && (Sound(r0) ==> Sound(r))
    && (isFirstPass ==> used == Elems(AllFeatures(polled)) && Acquiring(r0, AllFeatures(polled), r))
    && (!isFirstPass ==> used == {} && r == r0)
  }

  lemma PolledNothing(isFirstPass: bool, r0: Resources, log0: seq<nat>)
    requires Handles(r0)
    ensures Polled(isFirstPass, r0, log0, [], {}, r0, log0)
  {
    assert Elems([]) == {} && FirstUses(r0.acquired.Keys, []) == [];
  }

  /** The body of the polling loop for the renderable `x`: renders it, and on the first pass acquires its features. */
  method Visit(isFirstPass: bool, ghost r0: Resources, ghost log0: seq<nat>, ghost polled: seq<Renderable>,
               used: set<nat>, r: Resources, log: seq<nat>, x: Renderable)
    returns (used': set<nat>, r': Resources, log': seq<nat>)
    requires Polled(isFirstPass, r0, log0, polled, used, r, log)
    ensures Polled(isFirstPass, r0, log0, polled + [x], used', r', log')
  {
    AllFeaturesSnoc(polled, x);
    used', r' := used, r;
    if isFirstPass {
      var fs := FeaturesOf(x);
      r' := AcquireFeatures(r, fs);
      AcquiringTrans(r0, AllFeatures(polled), r, fs, r');
      ElemsAppend(AllFeatures(polled), fs);
      used' := used + Elems(fs);
    }
    log' := log + [x.geometry];
  }

  /**
   * The polling loop of a pass: polls every renderable left in `rq`, renders
   * it and, on the first pass, marks the features of its geometry as used
   * and acquires a resource for each that has none.
   */
  method PollQueue(rq: RenderQueue, isFirstPass: bool, r: Resources, rendered: seq<nat>)
    returns (used: set<nat>, r': Resources, rendered': seq<nat>)
    requires rq.Valid() && Handles(r)
    modifies rq
    ensures rq.Valid() && rq.IsEmpty() && rq.renderables == old(rq.renderables)
    ensures Polled(isFirstPass, r, rendered, old(rq.renderables)[old(rq.nextRenderableIndex)..], used, r', rendered')
  {
    used := {};
    r' := r;
    rendered' := rendered;
    ghost var polled: seq<Renderable> := [];
    ghost var start := rq.nextRenderableIndex;
    PolledNothing(isFirstPass, r, rendered);
    while !rq.IsEmpty()
      invariant rq.Valid() && rq.renderables == old(rq.renderables) && start <= rq.nextRenderableIndex
      invariant polled == rq.renderables[start..rq.nextRenderableIndex]
      invariant Polled(isFirstPass, r, rendered, polled, used, r', rendered')
      decreases |rq.renderables| - rq.nextRenderableIndex
    {
      var renderable := rq.Poll();
      SliceSnoc(rq.renderables, start, rq.nextRenderableIndex - 1);
      used, r', rendered' := Visit(isFirstPass, r, rendered, polled, used, r', rendered', renderable);
      polled := polled + [renderable];
    }
    assert polled == old(rq.renderables)[start..];
  }

  /**
   * The resources after the first pass of the LibCarna stage over features
   * `fs`: exactly the used features hold a resource, old ones keep theirs,
   * the new ones were acquired at their first use, and the unused ones
   * were deleted in ascending feature order.
   */
  ghost predicate FirstPassDone(r0: Resources, fs: seq<nat>, r: Resources)
  {
    r.acquired.Keys == Elems(fs)
    && (forall f :: f in r.acquired && f in r0.acquired ==> r.acquired[f] == r0.acquired[f])
    && r.acquisitions == r0.acquisitions + FirstUses(r0.acquired.Keys, fs)
    && r.deletions == r0.deletions + HandlesOf(r0.acquired, Ascending(r0.acquired.Keys - Elems(fs)))
  }

  /** The resources after the first pass of the Carna stage: as above, but nothing is deleted. */
  ghost predicate LegacyFirstPassDone(r0: Resources, fs: seq<nat>, r: Resources)
  {
    r.acquired.Keys == Elems(fs)
    && (forall f :: f in r.acquired && f in r0.acquired ==> r.acquired[f] == r0.acquired[f])
    && r.acquisitions == r0.acquisitions + FirstUses(r0.acquired.Keys, fs)
    && r.deletions == r0.deletions
  }

  /** After acquiring `fs`, the features that hold a resource and were not used are the old unused ones, with their old handles. */
  lemma UnusedAfterAcquiring(r0: Resources, fs: seq<nat>, mid: Resources)
    requires Acquiring(r0, fs, mid)
    ensures mid.acquired.Keys - Elems(fs) == r0.acquired.Keys - Elems(fs)
    ensures HandlesOf(mid.acquired, Ascending(r0.acquired.Keys - Elems(fs)))
            == HandlesOf(r0.acquired, Ascending(r0.acquired.Keys - Elems(fs)))
  {
    var unused := Ascending(r0.acquired.Keys - Elems(fs));
    assert forall f :: f in unused ==> f in r0.acquired;
    HandlesOfAgree(mid.acquired, r0.acquired, unused);
  }

  /** After acquiring `fs`, keeping the used entries keeps exactly those, with the old handles. */
  lemma KeptAfterAcquiring(r0: Resources, fs: seq<nat>, mid: Resources, m: map<nat, nat>)
    requires Acquiring(r0, fs, mid) && m == Restrict(mid.acquired, Elems(fs))
    ensures m.Keys == Elems(fs)
    ensures forall f :: f in m && f in r0.acquired ==> m[f] == r0.acquired[f]
  {
  }

  /** Acquisition followed by the LibCarna release loop is the first pass. */
  lemma FirstPassComposes(r0: Resources, fs: seq<nat>, mid: Resources, r: Resources)
    requires Acquiring(r0, fs, mid)
    requires r.acquired == Restrict(mid.acquired, Elems(fs)) && r.acquisitions == mid.acquisitions
    requires r.deletions == mid.deletions + HandlesOf(mid.acquired, Ascending(mid.acquired.Keys - Elems(fs)))
    ensures FirstPassDone(r0, fs, r)
  {
    UnusedAfterAcquiring(r0, fs, mid);
    KeptAfterAcquiring(r0, fs, mid, r.acquired);
  }

  /** Acquisition followed by the Carna erase loop is its first pass. */
  lemma LegacyFirstPassComposes(r0: Resources, fs: seq<nat>, mid: Resources, r: Resources)
    requires Acquiring(r0, fs, mid)
    requires r.acquired == Restrict(mid.acquired, Elems(fs))
    requires r.acquisitions == mid.acquisitions && r.deletions == mid.deletions
    ensures LegacyFirstPassDone(r0, fs, r)
  {
    KeptAfterAcquiring(r0, fs, mid, r.acquired);
  }

  /**
   * The first pass of the Carna stage loses the resource of every feature
   * that had one and was not used: it is neither held nor deleted.
   */
  lemma LegacyFirstPassLeaks(r0: Resources, fs: seq<nat>, r: Resources, f: nat)
    requires Sound(r0) && LegacyFirstPassDone(r0, fs, r)
    requires f in r0.acquired && f !in Elems(fs)
    ensures Leaked(r, r0.acquired[f])
  {
    assert Live(r0, r0.acquired[f]);
  }

  /** The geometry stage of LibCarna. */
  class GeometryStage {
    const rq: RenderQueue
    var root: Option<nat>
    var passesRendered: nat
    var resources: Resources
    /** The geometries render() was called with, in order. */
    var rendered: seq<nat>

    ghost predicate Valid()
      reads this, rq
    {
      rq.Valid() && Sound(resources)
    }

    constructor(geometryType: bv32, geometryTypeMask: bv32, order: Order)
      ensures Valid() && fresh(rq) && rq.renderables == [] && rq.nextRenderableIndex == 0
      ensures rq.geometryType == geometryType && rq.geometryTypeMask == geometryTypeMask && rq.order == order
      ensures root == None && passesRendered == 0 && resources == Resources(map[], [], []) && rendered == []
    {
      rq := new RenderQueue(geometryType, geometryTypeMask, order);
      root := None;
      passesRendered := 0;
      resources := Resources(map[], [], []);
      rendered := [];
    }

    /** prepareFrame: remembers the root of the frame and starts counting passes anew. */
    method PrepareFrame(root: nat)
      modifies this
      ensures this.root == Some(root) && passesRendered == 0
      ensures resources == old(resources) && rendered == old(rendered)
    {
      this.root := Some(root);
      passesRendered := 0;
    }

    function RenderedPassesCount(): (n: nat)
      reads this
      ensures n == passesRendered
    {
      passesRendered
    }

    /** videoResource: the resource acquired for feature `f`, which must have one. */
    function VideoResource(f: nat): (h: nat)
      reads this, rq
      requires Valid() && f in resources.acquired
      ensures h < |resources.acquisitions| && resources.acquisitions[h] == f
      ensures h !in resources.deletions
    {
      assert Live(resources, resources.acquired[f]);
      resources.acquired[f]
    }

    /**
     * The body of renderPass without the pass counter: a pass with no pass
     * rendered yet builds the queue and manages the resources; any other
     * pass rewinds the queue and updates it exactly when `update` holds.
     */
    method Pass(visited: seq<Spatial>, eyeDistance2: nat -> int, update: bool)
      requires Valid()
      requires passesRendered == 0 ==>
                 root.Some? && Sortable(rq.order, Enqueued(rq.geometryType, rq.geometryTypeMask, visited, eyeDistance2))
      modifies this, rq
      ensures Valid() && rq.IsEmpty() && root == old(root) && passesRendered == old(passesRendered)
      ensures rendered == old(rendered) + GeometriesOf(rq.renderables)
      ensures old(passesRendered) == 0 ==>
                IsArrangement(rq.order, Enqueued(rq.geometryType, rq.geometryTypeMask, visited, eyeDistance2), rq.renderables)
                && FirstPassDone(old(resources), AllFeatures(rq.renderables), resources)
      ensures old(passesRendered) != 0 ==>
                (if update then IsUpdate(rq.order, old(rq.renderables), eyeDistance2, rq.renderables) else rq.renderables == old(rq.renderables))
                && resources == old(resources)
    {
      var isFirstPass := passesRendered == 0;
      if isFirstPass {
        rq.Build(visited, eyeDistance2);
      } else {
        rq.Rewind();
        if update {
          rq.UpdateModelViewTransforms(eyeDistance2);
        }
      }
      assert rq.renderables[rq.nextRenderableIndex..] == rq.renderables;
      var used, acquired, log := PollQueue(rq, isFirstPass, resources, rendered);
      rendered := log;
      if isFirstPass {
        var released := ReleaseUnused(acquired, used);
        FirstPassComposes(resources, AllFeatures(rq.renderables), acquired, released);
        resources := released;
      } else {
        resources := acquired;
      }
    }

    /**
     * renderPass as written: a pass with no pass rendered yet builds the
     * queue and manages the resources; any other pass rewinds the queue and
     * updates it when the view transform is fixed. The pass counter is not
     * incremented.
     */
    method RenderPassAsWritten(visited: seq<Spatial>, eyeDistance2: nat -> int, viewFixed: bool)
      requires Valid()
      requires passesRendered == 0 ==>
                 root.Some? && Sortable(rq.order, Enqueued(rq.geometryType, rq.geometryTypeMask, visited, eyeDistance2))
      modifies this, rq
      ensures Valid() && rq.IsEmpty() && root == old(root) && passesRendered == old(passesRendered)
      ensures rendered == old(rendered) + GeometriesOf(rq.renderables)
      ensures old(passesRendered) == 0 ==>
                IsArrangement(rq.order, Enqueued(rq.geometryType, rq.geometryTypeMask, visited, eyeDistance2), rq.renderables)
                && FirstPassDone(old(resources), AllFeatures(rq.renderables), resources)
      ensures old(passesRendered) != 0 ==>
                (if viewFixed then IsUpdate(rq.order, old(rq.renderables), eyeDistance2, rq.renderables) else rq.renderables == old(rq.renderables))
                && resources == old(resources)
    {
      Pass(visited, eyeDistance2, viewFixed);
    }

    /**
     * renderPass as evidently intended: the pass is counted, and a later
     * pass updates the queue when the view transform is not fixed and only
     * rewinds it when it is.
     */
    method RenderPass(visited: seq<Spatial>, eyeDistance2: nat -> int, viewFixed: bool)
      requires Valid()
      requires passesRendered == 0 ==>
                 root.Some? && Sortable(rq.order, Enqueued(rq.geometryType, rq.geometryTypeMask, visited, eyeDistance2))
      modifies this, rq
      ensures Valid() && rq.IsEmpty() && root == old(root) && passesRendered == old(passesRendered) + 1
      ensures rendered == old(rendered) + GeometriesOf(rq.renderables)
      ensures old(passesRendered) == 0 ==>
                IsArrangement(rq.order, Enqueued(rq.geometryType, rq.geometryTypeMask, visited, eyeDistance2), rq.renderables)
                && FirstPassDone(old(resources), AllFeatures(rq.renderables), resources)
      ensures old(passesRendered) != 0 ==>
                (if viewFixed then rq.renderables == old(rq.renderables) else IsUpdate(rq.order, old(rq.renderables), eyeDistance2, rq.renderables))
                && resources == old(resources)
    {
      Pass(visited, eyeDistance2, !viewFixed);
      passesRendered := passesRendered + 1;
    }

    /** The destructor: deletes the resource of every entry. */
    method Dispose()
      requires Valid()
      modifies this
      ensures resources.acquired == map[] && resources.acquisitions == old(resources.acquisitions)
      ensures resources.deletions == old(resources.deletions) + HandlesOf(old(resources.acquired), Ascending(old(resources.acquired).Keys))
      ensures forall h :: 0 <= h < |resources.acquisitions| ==> h in resources.deletions
    {
      assert resources.acquired.Keys - {} == resources.acquired.Keys;
      resources := ReleaseUnused(resources, {});
      AllDeleted(resources);
    }
  }

  /**
   * Since renderPass never counts its passes, every pass of a frame is a
   * first pass: after two passes renderedPassesCount is still 0, while the
   * corrected stage reports 2.
   */
  method PassesNeverCounted(s: GeometryStage, root: nat, visited: seq<Spatial>, eyeDistance2: nat -> int)
    returns (asWritten: nat, corrected: nat)
    requires s.Valid() && Sortable(s.rq.order, Enqueued(s.rq.geometryType, s.rq.geometryTypeMask, visited, eyeDistance2))
    modifies s, s.rq
    ensures asWritten == 0 && corrected == 2
  {
    s.PrepareFrame(root);
    s.RenderPassAsWritten(visited, eyeDistance2, true);
    s.RenderPassAsWritten(visited, eyeDistance2, true);
    asWritten := s.RenderedPassesCount();
    s.PrepareFrame(root);
    s.RenderPass(visited, eyeDistance2, true);
    s.RenderPass(visited, eyeDistance2, true);
    corrected := s.RenderedPassesCount();
  }

  /**
   * Line 239 tests the view transform the wrong way round, which shows once
   * passes are counted: a later pass whose view is not fixed keeps the eye
   * distances of the earlier pass. One geometry seen at eye distance 1 and
   * then at 2 still carries 1 as written, and carries 2 when corrected.
   */
  method StaleEyeDistance() returns (asWritten: int, corrected: int)
    ensures asWritten == 1 && corrected == 2
  {
    var visited := [GeometryNode(GeometryView(7, 0, map[]))];
    assert visited[..0] == [];
    var s := new GeometryStage(0, ExactMatchGeometryTypeMask, Unordered);
    s.PrepareFrame(0);
    s.RenderPass(visited, _ => 1, false);
    s.RenderPassAsWritten(visited, _ => 2, false);
    asWritten := s.rq.renderables[0].eyeDistance2;
    s.PrepareFrame(0);
    s.RenderPass(visited, _ => 1, false);
    s.RenderPass(visited, _ => 2, false);
    corrected := s.rq.renderables[0].eyeDistance2;
  }

  /** The geometry stage of Carna, the older library. */
  class LegacyGeometryStage {
    const rq: RenderQueue
    var root: Option<nat>
    var passesRendered: nat
    /** The GL context reshape stores; `None` until then. */
    var myContext: Option<nat>
    var resources: Resources
    var rendered: seq<nat>

    ghost predicate Valid()
      reads this, rq
    {
      rq.Valid() && Handles(resources)
    }

    constructor(geometryType: bv32, geometryTypeMask: bv32, order: Order)
      ensures Valid() && fresh(rq) && rq.renderables == [] && rq.nextRenderableIndex == 0
      ensures rq.geometryType == geometryType && rq.geometryTypeMask == geometryTypeMask && rq.order == order
      ensures root == None && passesRendered == 0 && myContext == None
      ensures resources == Resources(map[], [], []) && rendered == []
    {
      rq := new RenderQueue(geometryType, geometryTypeMask, order);
      root := None;
      passesRendered := 0;
      myContext := None;
      resources := Resources(map[], [], []);
      rendered := [];
    }

    method PrepareFrame(root: nat)
      modifies this
      ensures this.root == Some(root) && passesRendered == 0
      ensures myContext == old(myContext) && resources == old(resources) && rendered == old(rendered)
    {
      this.root := Some(root);
      passesRendered := 0;
    }

    /** reshape: remembers the context of the frame renderer. */
    method Reshape(context: nat)
      modifies this
      ensures myContext == Some(context)
      ensures root == old(root) && passesRendered == old(passesRendered)
      ensures resources == old(resources) && rendered == old(rendered)
    {
      myContext := Some(context);
    }

    /** isInitialized: reshape has been called. */
    function IsInitialized(): (b: bool)
      reads this
      ensures b <==> myContext.Some?
    {
      myContext.Some?
    }

    function RenderedPassesCount(): (n: nat)
      reads this
      ensures n == passesRendered
    {
      passesRendered
    }

    function VideoResource(f: nat): (h: nat)
      reads this, rq
      requires Valid() && f in resources.acquired
      ensures h < |resources.acquisitions| && resources.acquisitions[h] == f
    {
      resources.acquired[f]
    }

    /**
     * renderPass: counts the pass, rebuilds the queue on the first pass and
     * on every pass whose view transform is not fixed, otherwise rewinds it;
     * on the first pass acquires resources and erases the unused entries.
     */
    method RenderPass(visited: seq<Spatial>, eyeDistance2: nat -> int, viewFixed: bool)
      requires Valid() && IsInitialized()
      requires passesRendered == 0 || !viewFixed ==>
                 root.Some? && Sortable(rq.order, Enqueued(rq.geometryType, rq.geometryTypeMask, visited, eyeDistance2))
      modifies this, rq
      ensures Valid() && rq.IsEmpty() && root == old(root) && myContext == old(myContext)
      ensures passesRendered == old(passesRendered) + 1
      ensures rendered == old(rendered) + GeometriesOf(rq.renderables)
      ensures old(passesRendered) == 0 || !viewFixed ==>
                IsArrangement(rq.order, Enqueued(rq.geometryType, rq.geometryTypeMask, visited, eyeDistance2), rq.renderables)
      ensures old(passesRendered) != 0 && viewFixed ==> rq.renderables == old(rq.renderables)
      ensures old(passesRendered) == 0 ==> LegacyFirstPassDone(old(resources), AllFeatures(rq.renderables), resources)
      ensures old(passesRendered) != 0 ==> resources == old(resources)
    {
      var isFirstPass := passesRendered == 0;
      passesRendered := passesRendered + 1;
      if passesRendered == 1 || !viewFixed {
        rq.Build(visited, eyeDistance2);
      } else {
        rq.Rewind();
      }
      assert rq.renderables[rq.nextRenderableIndex..] == rq.renderables;
      var used, acquired, log := PollQueue(rq, isFirstPass, resources, rendered);
      rendered := log;
      if isFirstPass {
        var erased := EraseUnused(acquired, used);
        LegacyFirstPassComposes(resources, AllFeatures(rq.renderables), acquired, erased);
        resources := erased;
      } else {
        resources := acquired;
      }
    }

    /** The destructor: deletes the resource of every entry still in the map. */
    method Dispose()
      requires Valid()
      modifies this
      ensures resources.acquired == old(resources.acquired) && resources.acquisitions == old(resources.acquisitions)
      ensures resources.deletions == old(resources.deletions) + HandlesOf(old(resources.acquired), Ascending(old(resources.acquired).Keys))
    {
      resources := DeleteAll(resources);
    }
  }
}
