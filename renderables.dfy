/**
 * Renderables and the orders a render queue sorts them by. A renderable
 * pairs a geometry node with its squared eye distance under the current
 * view (the floating-point matrix product is abstracted to an integer) and
 * with the geometry's features by role.
 */
module Renderables {
  import opened Wrappers

  /**
   * A geometry feature, identified by its address. `resource` is the key of
   * a video resource the feature shares with others (a material's shader
   * name); features without one control no shared resource (meshes).
   */
  datatype FeatureRef = FeatureRef(address: nat, resource: Option<nat>)

  datatype Renderable = Renderable(geometry: nat, features: map<nat, FeatureRef>, eyeDistance2: int)

  /**
   * The comparator of a queue: none (`void`, never sorted), a depth order
   * with the sign `o`, or the video-resources order on the feature of `role`.
   */
  datatype Order = Unordered | Depth(o: int) | VideoResources(role: nat)

  const BackToFront: Order := Depth(1)
  const FrontToBack: Order := Depth(-1)

  /** Only the depth order depends on the view transform. */
  predicate IsViewDependent(order: Order)
  {
    order.Depth?
  }

  /** DepthOrder<o>: `l` is further away than `r` for o > 0, closer for o < 0. */
  predicate DepthOrder(o: int, l: Renderable, r: Renderable)
  {
    o * (l.eyeDistance2 - r.eyeDistance2) > 0
  }

  /** controlsSameVideoResource: both features share the same resource key. */
  predicate ControlsSameVideoResource(l: FeatureRef, r: FeatureRef)
  {
    l.resource.Some? && l.resource == r.resource
  }

  /** VideoResourcesOrder as written: false for a shared resource, else the address order. */
  predicate VideoResourcesOrder(l: FeatureRef, r: FeatureRef)
  {
    if ControlsSameVideoResource(l, r) then false else l.address < r.address
  }

  /**
   * The group of a feature under the corrected video-resources order:
   * features that share a resource have one group, every other feature
   * a group of its own, in address order.
   */
  function Group(f: FeatureRef): (g: nat)
    ensures f.resource.None? ==> g % 2 == 1
    ensures f.resource.Some? ==> g % 2 == 0
  {
    match f.resource
    case Some(k) => 2 * k
    case None => 2 * f.address + 1
  }

  /** The corrected video-resources order: by group. */
  predicate GroupOrder(l: FeatureRef, r: FeatureRef)
  {
    Group(l) < Group(r)
  }

  /** A renderable can be compared under `order`: the video-resources order needs the role's feature. */
  predicate Keyed(order: Order, r: Renderable)
  {
    order.VideoResources? ==> order.role in r.features
  }

  /** The sort key: `order` ranks renderables by ascending key. */
  function Key(order: Order, r: Renderable): int
    requires Keyed(order, r)
  {
    match order
    case Unordered => 0
    case Depth(o) => -(o * r.eyeDistance2)
    case VideoResources(role) => Group(r.features[role])
  }

  /** The comparator a queue with `order` sorts by. */
  predicate Less(order: Order, l: Renderable, r: Renderable)
    requires Keyed(order, l) && Keyed(order, r)
  {
    match order
    case Unordered => false
    case Depth(o) => DepthOrder(o, l, r)
    case VideoResources(role) => GroupOrder(l.features[role], r.features[role])
  }

  lemma Distribute(o: int, a: int, b: int)
    ensures o * (a - b) == o * a - o * b
  {
  }

  /** Each comparator is the order of its key, hence a strict weak order. */
  lemma LessIsKeyOrder(order: Order, l: Renderable, r: Renderable)
    requires order != Unordered
    requires Keyed(order, l) && Keyed(order, r)
    ensures Less(order, l, r) <==> Key(order, l) < Key(order, r)
  {
    if order.Depth? {
      Distribute(order.o, l.eyeDistance2, r.eyeDistance2);
    }
  }

  /**
   * DepthOrder is a strict weak order for every sign: irreflexive,
   * transitive, and incomparability is transitive.
   */
  lemma DepthOrderStrictWeak(o: int, a: Renderable, b: Renderable, c: Renderable)
    ensures !DepthOrder(o, a, a)
    ensures DepthOrder(o, a, b) && DepthOrder(o, b, c) ==> DepthOrder(o, a, c)
    ensures !DepthOrder(o, a, b) && !DepthOrder(o, b, a) && !DepthOrder(o, b, c) && !DepthOrder(o, c, b)
            ==> !DepthOrder(o, a, c) && !DepthOrder(o, c, a)
  {
    Distribute(o, a.eyeDistance2, b.eyeDistance2);
    Distribute(o, b.eyeDistance2, a.eyeDistance2);
    Distribute(o, b.eyeDistance2, c.eyeDistance2);
    Distribute(o, c.eyeDistance2, b.eyeDistance2);
    Distribute(o, a.eyeDistance2, c.eyeDistance2);
    Distribute(o, c.eyeDistance2, a.eyeDistance2);
  }

  /** BackToFront puts the more distant renderable first, FrontToBack the closer one. */
  lemma DepthDirections(l: Renderable, r: Renderable)
    ensures DepthOrder(BackToFront.o, l, r) <==> l.eyeDistance2 > r.eyeDistance2
    ensures DepthOrder(FrontToBack.o, l, r) <==> l.eyeDistance2 < r.eyeDistance2
  {
  }

  /** Features that control the same resource are never ordered, in either direction. */
  lemma SameResourceUnordered(l: FeatureRef, r: FeatureRef)
    requires ControlsSameVideoResource(l, r)
    ensures !VideoResourcesOrder(l, r) && !VideoResourcesOrder(r, l)
    ensures !GroupOrder(l, r) && !GroupOrder(r, l)
  {
  }

  /** Without shared resources, the comparator as written is the address order, and so is the corrected one. */
  lemma UnsharedIsAddressOrder(l: FeatureRef, r: FeatureRef)
    requires l.resource.None? && r.resource.None?
    ensures VideoResourcesOrder(l, r) <==> l.address < r.address
    ensures GroupOrder(l, r) <==> l.address < r.address
  {
  }

  /**
   * VideoResourcesOrder as written is not a strict weak order once two
   * features share a resource: a < b and b < c, yet a and c are unordered.
   * std::sort's behaviour is undefined for such a comparator.
   */
  lemma VideoResourcesOrderNotTransitive()
    ensures var a, b, c := FeatureRef(1, Some(0)), FeatureRef(2, None), FeatureRef(3, Some(0));
            VideoResourcesOrder(a, b) && VideoResourcesOrder(b, c) && !VideoResourcesOrder(a, c)
  {
  }

  /** The corrected order is transitive, and its incomparability is exactly sharing a group. */
  lemma GroupOrderStrictWeak(a: FeatureRef, b: FeatureRef, c: FeatureRef)
    ensures !GroupOrder(a, a)
    ensures GroupOrder(a, b) && GroupOrder(b, c) ==> GroupOrder(a, c)
    ensures !GroupOrder(a, b) && !GroupOrder(b, a) <==> Group(a) == Group(b)
    ensures ControlsSameVideoResource(a, b) ==> Group(a) == Group(b)
  {
  }

  /** `s` is ascending by key: no later renderable compares less than an earlier one. */
  predicate AllKeyed(order: Order, s: seq<Renderable>)
  {
    forall i :: 0 <= i < |s| ==> Keyed(order, s[i])
  }

  predicate Sorted(order: Order, s: seq<Renderable>)
    requires AllKeyed(order, s)
  {
    forall i, j :: 0 <= i < j < |s| ==> Key(order, s[i]) <= Key(order, s[j])
  }

  /** A key-sorted sequence is sorted for the comparator: what std::sort promises. */
  lemma SortedNoInversion(order: Order, s: seq<Renderable>)
    requires order != Unordered && AllKeyed(order, s) && Sorted(order, s)
    ensures forall i, j :: 0 <= i < j < |s| ==> !Less(order, s[j], s[i])
  {
    forall i, j | 0 <= i < j < |s|
      ensures !Less(order, s[j], s[i])
    {
      LessIsKeyOrder(order, s[j], s[i]);
    }
  }

  /** Inserts `x` into the sorted `s` before the first renderable with a larger key. */
  function Insert(order: Order, x: Renderable, s: seq<Renderable>): (r: seq<Renderable>)
    requires Keyed(order, x) && AllKeyed(order, s) && Sorted(order, s)
    ensures |r| == |s| + 1 && AllKeyed(order, r) && Sorted(order, r)
    ensures forall i :: 0 <= i < |r| ==> r[i] == x || r[i] in s
    ensures multiset(r) == multiset(s) + multiset{x}
  {
    if s == [] then [x]
    else if Key(order, x) <= Key(order, s[0]) then [x] + s
    else
      var rest := Insert(order, x, s[1..]);
      InsertHead(order, x, s, rest);
      [s[0]] + rest
  }

  /** The head of a sorted sequence goes before its tail with a larger-keyed `x` inserted. */
  lemma InsertHead(order: Order, x: Renderable, s: seq<Renderable>, rest: seq<Renderable>)
    requires Keyed(order, x) && AllKeyed(order, s) && Sorted(order, s) && s != []
    requires Key(order, s[0]) < Key(order, x)
    requires AllKeyed(order, rest) && Sorted(order, rest)
    requires forall i :: 0 <= i < |rest| ==> rest[i] == x || rest[i] in s[1..]
    requires multiset(rest) == multiset(s[1..]) + multiset{x}
    ensures AllKeyed(order, [s[0]] + rest) && Sorted(order, [s[0]] + rest)
    ensures multiset([s[0]] + rest) == multiset(s) + multiset{x}
  {
    assert s == [s[0]] + s[1..];
    forall i | 0 <= i < |rest|
      ensures Key(order, s[0]) <= Key(order, rest[i])
    {
      if rest[i] != x {
        var k :| 0 <= k < |s[1..]| && s[1..][k] == rest[i];
        assert s[k + 1] == rest[i];
      }
    }
  }

  /** The queue's sort: a permutation of `s` sorted by `order`. */
  function Sort(order: Order, s: seq<Renderable>): (r: seq<Renderable>)
    requires AllKeyed(order, s)
    ensures |r| == |s| && AllKeyed(order, r) && Sorted(order, r)
    ensures multiset(r) == multiset(s)
  {
    if s == [] then []
    else
      assert s == [s[0]] + s[1..];
      Insert(order, s[0], Sort(order, s[1..]))
  }

  /**
   * Under the corrected video-resources order, a sorted queue keeps the
   * renderables of one group together: nothing of another group lies
   * between two of the same group.
   */
  lemma {:induction false} GroupsContiguous(role: nat, s: seq<Renderable>, i: nat, j: nat, k: nat)
    requires AllKeyed(VideoResources(role), s) && Sorted(VideoResources(role), s)
    requires i < j < k < |s|
    requires Group(s[i].features[role]) == Group(s[k].features[role])
    ensures Group(s[j].features[role]) == Group(s[i].features[role])
  {
    assert Key(VideoResources(role), s[i]) <= Key(VideoResources(role), s[j]) <= Key(VideoResources(role), s[k]);
  }
}
