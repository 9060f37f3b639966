/**
 * The render queue of a geometry stage: the renderables of the geometry
 * nodes whose type matches, in the order of the queue's comparator, and a
 * cursor that polls them one after the other.
 *
 * The scene-graph traversal that build performs is given as the sequence of
 * nodes it visits, and the view transform as the squared eye distance it
 * gives each geometry node.
 */
module RenderQueues {
  import opened Renderables

  /** A geometry node as the traversal reports it: id, type and features by role. */
  datatype GeometryView = GeometryView(id: nat, geometryType: bv32, features: map<nat, FeatureRef>)

  /** A node the traversal visits: a geometry node or some other spatial. */
  datatype Spatial = GeometryNode(geometry: GeometryView) | OtherSpatial(id: nat)

  /** EXACT_MATCH_GEOMETRY_TYPE_MASK: all bits set. */
  const ExactMatchGeometryTypeMask: bv32 := 0xFFFF_FFFF

  /** The nodes build enqueues: geometries whose type, masked, equals the queue's type. */
  predicate Matches(geometryType: bv32, mask: bv32, s: Spatial)
  {
    s.GeometryNode? && s.geometry.geometryType & mask == geometryType
  }

  /** With the default mask a geometry matches exactly when its type equals the queue's type. */
  lemma ExactMatch(geometryType: bv32, s: Spatial)
    ensures Matches(geometryType, ExactMatchGeometryTypeMask, s) <==> s.GeometryNode? && s.geometry.geometryType == geometryType
  {
  }

  function RenderableOf(g: GeometryView, eyeDistance2: nat -> int): (r: Renderable)
    ensures r.geometry == g.id && r.features == g.features && r.eyeDistance2 == eyeDistance2(g.id)
  {
    Renderable(g.id, g.features, eyeDistance2(g.id))
  }

  /** The renderables build collects from `visited`, in visiting order. */
  function Enqueued(geometryType: bv32, mask: bv32, visited: seq<Spatial>, eyeDistance2: nat -> int): (r: seq<Renderable>)
    ensures |r| <= |visited|
  {
    if visited == [] then []
    else
      var last := visited[|visited| - 1];
      Enqueued(geometryType, mask, visited[..|visited| - 1], eyeDistance2)
      + (if Matches(geometryType, mask, last) then [RenderableOf(last.geometry, eyeDistance2)] else [])
  }

  /** build enqueues exactly the matching geometry nodes. */
  lemma {:induction false} EnqueuedExactly(geometryType: bv32, mask: bv32, visited: seq<Spatial>, eyeDistance2: nat -> int)
    ensures forall r :: r in Enqueued(geometryType, mask, visited, eyeDistance2) <==>
              exists i :: 0 <= i < |visited| && Matches(geometryType, mask, visited[i])
                          && r == RenderableOf(visited[i].geometry, eyeDistance2)
  {
    if visited != [] {
      var front := visited[..|visited| - 1];
      EnqueuedExactly(geometryType, mask, front, eyeDistance2);
      forall i | 0 <= i < |front|
        ensures front[i] == visited[i]
      {
      }
    }
  }

  /** Only a matching node is ever enqueued, once per visit. */
  lemma {:induction false} EnqueuedCount(geometryType: bv32, mask: bv32, visited: seq<Spatial>, eyeDistance2: nat -> int)
    requires forall i :: 0 <= i < |visited| ==> !Matches(geometryType, mask, visited[i])
    ensures Enqueued(geometryType, mask, visited, eyeDistance2) == []
  {
    if visited != [] {
      EnqueuedCount(geometryType, mask, visited[..|visited| - 1], eyeDistance2);
    }
  }

  /** What the order demands before it can sort `s`: every renderable has the role's feature. */
  predicate Sortable(order: Order, s: seq<Renderable>)
  {
    |s| >= 2 && order != Unordered ==> AllKeyed(order, s)
  }

  /**
   * RenderableSort: a queue with an order and at least two renderables is
   * sorted; a queue without order (`void`) is left as it is.
   */
  function Arranged(order: Order, s: seq<Renderable>): (r: seq<Renderable>)
    requires Sortable(order, s)
    ensures multiset(r) == multiset(s)
    ensures order == Unordered || |s| < 2 ==> r == s
    ensures order != Unordered && |s| >= 2 ==> AllKeyed(order, r) && Sorted(order, r)
    ensures IsArrangement(order, s, r)
  {
    if |s| >= 2 && order != Unordered then Sort(order, s) else s
  }

  /**
   * What RenderableSort may leave of `s`: a permutation of `s`, sorted for
   * an order with at least two renderables, and `s` itself otherwise.
   * std::sort is not stable, so renderables with equal keys may end up in
   * any order; `Arranged` is one such arrangement.
   */
  ghost predicate IsArrangement(order: Order, s: seq<Renderable>, r: seq<Renderable>)
  {
    multiset(r) == multiset(s)
    && (order == Unordered || |s| < 2 ==> r == s)
    && (order != Unordered && |s| >= 2 ==> AllKeyed(order, r) && Sorted(order, r))
  }

  /** The renderables with the eye distances of a new view transform. */
  function Retransformed(s: seq<Renderable>, eyeDistance2: nat -> int): (r: seq<Renderable>)
    ensures |r| == |s|
    ensures forall i :: 0 <= i < |s| ==> r[i] == s[i].(eyeDistance2 := eyeDistance2(s[i].geometry))
  {
    seq(|s|, i requires 0 <= i < |s| => s[i].(eyeDistance2 := eyeDistance2(s[i].geometry)))
  }

  /**
   * The renderables after updateModelViewTransforms: the eye distances of
   * the new view, re-sorted only for a view-dependent order.
   */
  function Updated(order: Order, s: seq<Renderable>, eyeDistance2: nat -> int): (r: seq<Renderable>)
    ensures multiset(r) == multiset(Retransformed(s, eyeDistance2))
    ensures IsViewDependent(order) ==> AllKeyed(order, r) && Sorted(order, r)
    ensures !IsViewDependent(order) ==> r == Retransformed(s, eyeDistance2)
    ensures IsUpdate(order, s, eyeDistance2, r)
  {
    var t := Retransformed(s, eyeDistance2);
    if IsViewDependent(order) then Arranged(order, t) else t
  }

  /**
   * What updateModelViewTransforms may leave of `s`: the renderables with
   * the new eye distances, arranged for a view-dependent order and in place
   * otherwise; `Updated` is one such result.
   */
  ghost predicate IsUpdate(order: Order, s: seq<Renderable>, eyeDistance2: nat -> int, r: seq<Renderable>)
  {
    if IsViewDependent(order) then IsArrangement(order, Retransformed(s, eyeDistance2), r)
    else r == Retransformed(s, eyeDistance2)
  }

  lemma EnqueuedStep(geometryType: bv32, mask: bv32, visited: seq<Spatial>, i: nat, eyeDistance2: nat -> int)
    requires i < |visited|
    ensures Enqueued(geometryType, mask, visited[..i + 1], eyeDistance2)
            == Enqueued(geometryType, mask, visited[..i], eyeDistance2)
               + (if Matches(geometryType, mask, visited[i]) then [RenderableOf(visited[i].geometry, eyeDistance2)] else [])
  {
    assert visited[..i + 1][..i] == visited[..i];
  }

  /** The visit of build: appends a renderable for each matching node, in visiting order. */
  method Collect(geometryType: bv32, mask: bv32, visited: seq<Spatial>, eyeDistance2: nat -> int)
    returns (found: seq<Renderable>)
    ensures found == Enqueued(geometryType, mask, visited, eyeDistance2)
  {
    found := [];
    var i := 0;
    while i < |visited|
      invariant i <= |visited|
      invariant found == Enqueued(geometryType, mask, visited[..i], eyeDistance2)
    {
      EnqueuedStep(geometryType, mask, visited, i, eyeDistance2);
      var s := visited[i];
      if Matches(geometryType, mask, s) {
        found := found + [RenderableOf(s.geometry, eyeDistance2)];
      }
      i := i + 1;
    }
    assert visited[..i] == visited;
  }

  class RenderQueue {
    const geometryType: bv32
    const geometryTypeMask: bv32
    const order: Order
    var renderables: seq<Renderable>
    var nextRenderableIndex: nat

    ghost predicate Valid()
      reads this
    {
      nextRenderableIndex <= |renderables|
    }

    constructor(geometryType: bv32, geometryTypeMask: bv32, order: Order)
      ensures Valid() && renderables == [] && nextRenderableIndex == 0
      ensures this.geometryType == geometryType && this.geometryTypeMask == geometryTypeMask && this.order == order
    {
      this.geometryType := geometryType;
      this.geometryTypeMask := geometryTypeMask;
      this.order := order;
      renderables := [];
      nextRenderableIndex := 0;
    }

    /**
     * build: clears the queue, rewinds it, enqueues every matching geometry
     * node in visiting order and sorts the result, in any order among
     * renderables with equal keys.
     */
    method Build(visited: seq<Spatial>, eyeDistance2: nat -> int)
      requires Sortable(order, Enqueued(geometryType, geometryTypeMask, visited, eyeDistance2))
      modifies this
      ensures Valid() && nextRenderableIndex == 0
      ensures IsArrangement(order, Enqueued(geometryType, geometryTypeMask, visited, eyeDistance2), renderables)
    {
      nextRenderableIndex := 0;
      renderables := Collect(geometryType, geometryTypeMask, visited, eyeDistance2);
      if |renderables| >= 2 && order != Unordered {
        renderables := Sort(order, renderables);
      }
    }

    /** rewind: only the cursor goes back to the front. */
    method Rewind()
      modifies this
      ensures Valid() && nextRenderableIndex == 0 && renderables == old(renderables)
    {
      nextRenderableIndex := 0;
    }

    /**
     * updateModelViewTransforms: every renderable gets the eye distance of
     * the new view; the queue is re-sorted only for a view-dependent order,
     * in any order among renderables with equal keys.
     */
    method UpdateModelViewTransforms(eyeDistance2: nat -> int)
      requires Valid()
      modifies this
      ensures Valid() && nextRenderableIndex == old(nextRenderableIndex)
      ensures IsUpdate(order, old(renderables), eyeDistance2, renderables)
    {
      var i := 0;
      while i < |renderables|
        invariant |renderables| == |old(renderables)| && i <= |renderables|
        invariant nextRenderableIndex == old(nextRenderableIndex)
        invariant forall k :: 0 <= k < i ==> renderables[k] == old(renderables)[k].(eyeDistance2 := eyeDistance2(old(renderables)[k].geometry))
        invariant forall k :: i <= k < |renderables| ==> renderables[k] == old(renderables)[k]
      {
        var r := renderables[i];
        renderables := renderables[i := r.(eyeDistance2 := eyeDistance2(r.geometry))];
        i := i + 1;
      }
      assert renderables == Retransformed(old(renderables), eyeDistance2);
      if |renderables| >= 2 && IsViewDependent(order) {
        renderables := Sort(order, renderables);
      }
    }

    /** isEmpty: the cursor has passed the last renderable. */
    function IsEmpty(): (b: bool)
      reads this
      ensures b <==> nextRenderableIndex >= |renderables|
      ensures Valid() ==> (b <==> nextRenderableIndex == |renderables|)
    {
      nextRenderableIndex >= |renderables|
    }

    /** poll: returns the renderable under the cursor and moves ahead by one. */
    method Poll() returns (r: Renderable)
      requires !IsEmpty()
      modifies this
      ensures Valid() && renderables == old(renderables)
      ensures r == renderables[old(nextRenderableIndex)] && nextRenderableIndex == old(nextRenderableIndex) + 1
    {
      r := renderables[nextRenderableIndex];
      nextRenderableIndex := nextRenderableIndex + 1;
    }

    /** first as written: the front renderable, wherever the cursor is. */
    function First(): (r: Renderable)
      reads this
      requires !IsEmpty()
      ensures r in renderables && r == renderables[0]
    {
      renderables[0]
    }

    /** The element first is documented to return: the one poll returns next. */
    function Peek(): (r: Renderable)
      reads this
      requires !IsEmpty()
      ensures r in renderables[nextRenderableIndex..] && r == renderables[nextRenderableIndex]
    {
      renderables[nextRenderableIndex]
    }

    /** last: the back renderable; the cursor does not move. */
    function Last(): (r: Renderable)
      reads this
      requires !IsEmpty()
      ensures r in renderables && r == renderables[|renderables| - 1]
    {
      renderables[|renderables| - 1]
    }

    /** Polls until the queue is empty: what a geometry stage's pass does. */
    method PollAll() returns (polled: seq<Renderable>)
      requires Valid()
      modifies this
      ensures Valid() && IsEmpty() && renderables == old(renderables)
      ensures polled == old(renderables)[old(nextRenderableIndex)..]
    {
      polled := [];
      while !IsEmpty()
        invariant Valid() && renderables == old(renderables) && old(nextRenderableIndex) <= nextRenderableIndex
        invariant polled == renderables[old(nextRenderableIndex)..nextRenderableIndex]
        decreases |renderables| - nextRenderableIndex
      {
        var r := Poll();
        polled := polled + [r];
      }
    }
  }

  /**
   * first as written differs from the documented next element once the
   * cursor has moved: after one poll of a two-element queue, first returns
   * the renderable already polled (the queue holds what build enqueues
   * for two geometry nodes 1 and 2 at eye distance 0).
   */
  method FirstAfterPoll() returns (first: Renderable, peek: Renderable)
    ensures first != peek
    ensures first == Renderable(1, map[], 0) && peek == Renderable(2, map[], 0)
  {
    var q := new RenderQueue(0, ExactMatchGeometryTypeMask, Unordered);
    q.renderables := [Renderable(1, map[], 0), Renderable(2, map[], 0)];
    var polled := q.Poll();
    first := q.First();
    peek := q.Peek();
  }

  /** The polls after a rewind repeat the polls of the previous pass. */
  method RewindReplays(q: RenderQueue) returns (once: seq<Renderable>, again: seq<Renderable>)
    requires q.Valid() && q.nextRenderableIndex == 0
    modifies q
    ensures once == again && once == old(q.renderables)
  {
    once := q.PollAll();
    q.Rewind();
    again := q.PollAll();
  }
}
