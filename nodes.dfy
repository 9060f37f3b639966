/**
 * The scene graph: a node owns its children, every spatial has at most one
 * parent, and visitChildren walks the children of a node in ascending
 * order, descending into a child node before going on to the next sibling.
 *
 * Spatials are identified by ids, and a `std::set< Spatial* >` iterates in
 * ascending id order. The graph is an arena: the children of every node
 * (its keys are the nodes) and the parent of every attached spatial.
 * Recursion over the tree carries a `fuel` bound on its depth.
 */
module Nodes {
  import opened Wrappers
  import opened OrderedSets

  /** The spatials visitChildren visits below `n`, in visiting order. */
  function Visit(children: map<nat, set<nat>>, n: nat, recursively: bool, fuel: nat): seq<nat>
    decreases fuel, 0
  {
    if n !in children || fuel == 0 then []
    else VisitSet(children, children[n], recursively, fuel - 1)
  }

  /**
   * Visits the spatials `cs` the way a `std::set` iterates them, least
   * first, each followed by its own visit when `recursively`.
   */
  function VisitSet(children: map<nat, set<nat>>, cs: set<nat>, recursively: bool, fuel: nat): seq<nat>
    decreases fuel, |cs|
  {
    if cs == {} then []
    else
      var c := Minimum(cs);
      [c] + (if recursively then Visit(children, c, true, fuel) else []) + VisitSet(children, cs - {c}, recursively, fuel)
  }

  /** Without recursion, visiting a set lists it in ascending order. */
  lemma {:induction false} VisitSetFlat(children: map<nat, set<nat>>, cs: set<nat>, fuel: nat)
    ensures VisitSet(children, cs, false, fuel) == Ascending(cs)
    decreases |cs|
  {
    if cs != {} {
      VisitSetFlat(children, cs - {Minimum(cs)}, fuel);
    }
  }

  /** visitChildren( false ) visits exactly the children of `n`, in ascending order. */
  lemma {:induction false} VisitFlat(children: map<nat, set<nat>>, n: nat, fuel: nat)
    requires n in children && fuel > 0
    ensures Visit(children, n, false, fuel) == Ascending(children[n])
  {
    assert Visit(children, n, false, fuel) == VisitSet(children, children[n], false, fuel - 1);
    VisitSetFlat(children, children[n], fuel - 1);
  }

  /** The spatial at position `j` of `v` is a child of a node visited before it. */
  predicate ParentBefore(children: map<nat, set<nat>>, v: seq<nat>, j: nat)
    requires j < |v|
  {
    exists i :: 0 <= i < j && v[i] in children && v[j] in children[v[i]]
  }

  /** Each visited spatial is one of `cs` or a child of a spatial visited before it. */
  predicate ParentsFirst(children: map<nat, set<nat>>, cs: set<nat>, v: seq<nat>)
  {
    forall j :: 0 <= j < |v| ==> v[j] in cs || ParentBefore(children, v, j)
  }

  lemma ParentBeforeShift(children: map<nat, set<nat>>, v: seq<nat>, w: seq<nat>, off: nat, j: nat)
    requires off + |v| <= |w| && j < |v| && w[off..off + |v|] == v
    requires ParentBefore(children, v, j)
    ensures ParentBefore(children, w, off + j)
  {
    var i :| 0 <= i < j && v[i] in children && v[j] in children[v[i]];
    assert w[off + i] == v[i] && w[off + j] == v[j];
  }

  lemma ParentsFirstShift(children: map<nat, set<nat>>, cs: set<nat>, v: seq<nat>, parent: nat, rest: seq<nat>)
    requires ParentsFirst(children, (if parent in children then children[parent] else {}), v)
    requires ParentsFirst(children, cs - {parent}, rest)
    requires parent in cs
    ensures ParentsFirst(children, cs, [parent] + v + rest)
  {
    var w := [parent] + v + rest;
    assert w[1..1 + |v|] == v;
    assert w[1 + |v|..1 + |v| + |rest|] == rest;
    forall j | 0 <= j < |w|
      ensures w[j] in cs || ParentBefore(children, w, j)
    {
      if j == 0 {
      } else if j <= |v| {
        assert w[j] == v[j - 1];
        if v[j - 1] in (if parent in children then children[parent] else {}) {
          assert w[0] == parent;
        } else {
          ParentBeforeShift(children, v, w, 1, j - 1);
        }
      } else {
        var k := j - 1 - |v|;
        assert w[j] == rest[k];
        if rest[k] !in cs - {parent} {
          ParentBeforeShift(children, rest, w, 1 + |v|, k);
        }
      }
    }
  }

  /**
   * visitChildren( true ) is a pre-order: every visited spatial is a child
   * of `n` or of a spatial visited before it.
   */
  lemma {:induction false} VisitPreOrder(children: map<nat, set<nat>>, n: nat, fuel: nat)
    ensures ParentsFirst(children, (if n in children then children[n] else {}), Visit(children, n, true, fuel))
    decreases fuel, 0
  {
    if n in children && fuel > 0 {
      VisitSetPreOrder(children, children[n], fuel - 1);
    }
  }

  lemma {:induction false} VisitSetPreOrder(children: map<nat, set<nat>>, cs: set<nat>, fuel: nat)
    ensures ParentsFirst(children, cs, VisitSet(children, cs, true, fuel))
    decreases fuel, |cs|
  {
    if cs != {} {
      var c := Minimum(cs);
      VisitPreOrder(children, c, fuel);
      VisitSetPreOrder(children, cs - {c}, fuel);
      ParentsFirstShift(children, cs, Visit(children, c, true, fuel), c, VisitSet(children, cs - {c}, true, fuel));
    }
  }

  /** Every path down from `n` is shorter than `h`. */
  predicate Within(children: map<nat, set<nat>>, n: nat, h: nat)
    decreases h
  {
    h > 0 && (n in children ==> forall c :: c in children[n] ==> Within(children, c, h - 1))
  }

  lemma {:induction false} WithinMore(children: map<nat, set<nat>>, n: nat, h: nat)
    requires Within(children, n, h)
    ensures Within(children, n, h + 1)
    decreases h
  {
    if n in children {
      forall c | c in children[n]
        ensures Within(children, c, h)
      {
        WithinMore(children, c, h - 1);
      }
    }
  }

  /** A spatial visited below `n` is less deep than `n`. */
  lemma {:induction false} VisitedWithin(children: map<nat, set<nat>>, n: nat, fuel: nat, h: nat, p: nat)
    requires Within(children, n, h) && p in Visit(children, n, true, fuel)
    ensures Within(children, p, h - 1)
    decreases fuel, 0
  {
    VisitSetWithin(children, children[n], fuel - 1, h - 1, p);
  }

  lemma {:induction false} VisitSetWithin(children: map<nat, set<nat>>, cs: set<nat>, fuel: nat, h: nat, p: nat)
    requires forall c :: c in cs ==> Within(children, c, h)
    requires p in VisitSet(children, cs, true, fuel)
    ensures Within(children, p, h)
    decreases fuel, |cs|
  {
    var c := Minimum(cs);
    if p in Visit(children, c, true, fuel) {
      VisitedWithin(children, c, fuel, h, p);
      WithinMore(children, p, h - 1);
    } else if p != c {
      VisitSetWithin(children, cs - {c}, fuel, h, p);
    }
  }

  /** A node of finite depth is not among its own descendants. */
  lemma {:induction false} NotOwnDescendant(children: map<nat, set<nat>>, n: nat, fuel: nat, h: nat)
    requires Within(children, n, h)
    ensures n !in Visit(children, n, true, fuel)
    decreases h
  {
    if n in Visit(children, n, true, fuel) {
      VisitedWithin(children, n, fuel, h, n);
      NotOwnDescendant(children, n, fuel, h - 1);
    }
  }

  /**
   * With enough fuel the visit is complete: it reaches every child of `n`
   * and every child of a visited node.
   */
  lemma {:induction false} VisitComplete(children: map<nat, set<nat>>, n: nat, fuel: nat)
    requires Within(children, n, fuel)
    ensures n in children ==> forall d :: d in children[n] ==> d in Visit(children, n, true, fuel)
    ensures forall p, d :: p in Visit(children, n, true, fuel) && p in children && d in children[p]
                           ==> d in Visit(children, n, true, fuel)
    decreases fuel, 0
  {
    if n in children {
      VisitSetComplete(children, children[n], fuel - 1);
    }
  }

  lemma {:induction false} VisitSetComplete(children: map<nat, set<nat>>, cs: set<nat>, fuel: nat)
    requires forall c :: c in cs ==> Within(children, c, fuel)
    ensures forall c :: c in cs ==> c in VisitSet(children, cs, true, fuel)
    ensures forall p, d :: p in VisitSet(children, cs, true, fuel) && p in children && d in children[p]
                           ==> d in VisitSet(children, cs, true, fuel)
    decreases fuel, |cs|
  {
    if cs != {} {
      var c := Minimum(cs);
      var head := Visit(children, c, true, fuel);
      var tail := VisitSet(children, cs - {c}, true, fuel);
      VisitComplete(children, c, fuel);
      VisitSetComplete(children, cs - {c}, fuel);
      var v := VisitSet(children, cs, true, fuel);
      assert v == [c] + head + tail;
      forall e | e in cs
        ensures e in v
      {
        if e != c {
          assert e in tail;
        }
      }
    }
  }

  /**
   * The arena is consistent: nodes and attached spatials are alive, the
   * parent of a spatial is a node that has it as a child, and every child
   * of a node has that node as its parent.
   */
  predicate Consistent(children: map<nat, set<nat>>, parent: map<nat, nat>, alive: set<nat>)
  {
    children.Keys <= alive && parent.Keys <= alive
    && (forall c :: c in parent ==> parent[c] in children && c in children[parent[c]])
    && (forall n, c :: n in children && c in children[n] ==> c in parent && parent[c] == n)
  }

  /** In a consistent arena, the parent of a spatial visited below `n` is `n` or visited itself. */
  lemma VisitedParent(children: map<nat, set<nat>>, parent: map<nat, nat>, alive: set<nat>, n: nat, fuel: nat, c: nat)
    requires Consistent(children, parent, alive) && c in Visit(children, n, true, fuel)
    ensures c in parent && (parent[c] == n || parent[c] in Visit(children, n, true, fuel))
  {
    VisitPreOrder(children, n, fuel);
    var v := Visit(children, n, true, fuel);
    var j :| 0 <= j < |v| && v[j] == c;
    if c !in (if n in children then children[n] else {}) {
      assert ParentBefore(children, v, j);
      var i :| 0 <= i < j && v[i] in children && c in children[v[i]];
      assert parent[c] == v[i];
    }
  }

  /** Every spatial visited in a consistent arena is attached, hence alive. */
  lemma VisitAttached(children: map<nat, set<nat>>, parent: map<nat, nat>, alive: set<nat>, n: nat, fuel: nat)
    requires Consistent(children, parent, alive)
    ensures forall p :: p in Visit(children, n, true, fuel) ==> p in parent && p in alive
  {
    forall p | p in Visit(children, n, true, fuel)
      ensures p in parent
    {
      VisitedParent(children, parent, alive, n, fuel, p);
    }
  }

  /** The spatials deleteAllChildren deletes below `n`: the whole subtree. */
  function Descendants(children: map<nat, set<nat>>, n: nat, fuel: nat): set<nat>
  {
    set p | p in Visit(children, n, true, fuel)
  }

  /** What deleting the subtree `removed` below node `n` leaves of the arena. */
  function ChildrenAfterDelete(children: map<nat, set<nat>>, n: nat, removed: set<nat>): map<nat, set<nat>>
  {
    map m | m in children && m !in removed :: if m == n then {} else children[m]
  }

  function ParentAfterDelete(parent: map<nat, nat>, removed: set<nat>): map<nat, nat>
  {
    map d | d in parent && d !in removed :: parent[d]
  }

  /** A child of a node that survives the deletion survives too, with its parent. */
  lemma SurvivorKeepsChild(children: map<nat, set<nat>>, parent: map<nat, nat>, alive: set<nat>, n: nat, fuel: nat, m: nat, c: nat)
    requires Consistent(children, parent, alive) && n in children
    requires m in children && m != n && m !in Descendants(children, n, fuel) && c in children[m]
    ensures c !in Descendants(children, n, fuel) && parent[c] == m
  {
    if c in Descendants(children, n, fuel) {
      VisitedParent(children, parent, alive, n, fuel, c);
    }
  }

  /** A surviving spatial's parent is neither `n` nor deleted. */
  lemma SurvivorKeepsParent(children: map<nat, set<nat>>, parent: map<nat, nat>, alive: set<nat>, n: nat, fuel: nat, c: nat)
    requires Consistent(children, parent, alive) && n in children && Within(children, n, fuel)
    requires c in parent && c !in Descendants(children, n, fuel)
    ensures parent[c] != n && parent[c] !in Descendants(children, n, fuel)
  {
    VisitComplete(children, n, fuel);
  }

  /** deleteAllChildren deletes the whole subtree and keeps the arena consistent. */
  lemma DeleteSubtreeConsistent(children: map<nat, set<nat>>, parent: map<nat, nat>, alive: set<nat>, n: nat, fuel: nat)
    requires Consistent(children, parent, alive) && n in children && Within(children, n, fuel)
    ensures var removed := Descendants(children, n, fuel);
            n !in removed
            && Consistent(ChildrenAfterDelete(children, n, removed), ParentAfterDelete(parent, removed), alive - removed)
  {
    var removed := Descendants(children, n, fuel);
    NotOwnDescendant(children, n, fuel, fuel);
    var children' := ChildrenAfterDelete(children, n, removed);
    var parent' := ParentAfterDelete(parent, removed);
    forall m, c | m in children' && c in children'[m]
      ensures c in parent' && parent'[c] == m
    {
      SurvivorKeepsChild(children, parent, alive, n, fuel, m, c);
    }
    forall c | c in parent'
      ensures parent'[c] in children' && c in children'[parent'[c]]
    {
      SurvivorKeepsParent(children, parent, alive, n, fuel, c);
    }
  }

  /**
   * The nodes notifyTreeChanges reaches from `n`: `n`, its parent, and so
   * on up to the root. `depth` bounds the climb.
   */
  function Ancestors(parent: map<nat, nat>, n: nat, depth: nat): (r: seq<nat>)
    ensures |r| >= 1 && r[0] == n
    decreases depth
  {
    if n in parent && depth > 0 then [n] + Ancestors(parent, parent[n], depth - 1) else [n]
  }

  /** The root lies within `depth` steps above `n`. */
  predicate Rooted(parent: map<nat, nat>, n: nat, depth: nat)
    decreases depth
  {
    n !in parent || (depth > 0 && Rooted(parent, parent[n], depth - 1))
  }

  /**
   * The notification climbs from each node to its parent, and with enough
   * depth it ends at a root.
   */
  lemma {:induction false} AncestorsClimb(parent: map<nat, nat>, n: nat, depth: nat)
    ensures var a := Ancestors(parent, n, depth);
            forall i :: 0 <= i < |a| - 1 ==> a[i] in parent && parent[a[i]] == a[i + 1]
    ensures Rooted(parent, n, depth) ==> Ancestors(parent, n, depth)[|Ancestors(parent, n, depth)| - 1] !in parent
    decreases depth
  {
    if n in parent && depth > 0 {
      AncestorsClimb(parent, parent[n], depth - 1);
      var a := Ancestors(parent, n, depth);
      assert a == [n] + Ancestors(parent, parent[n], depth - 1);
    }
  }

  /** Changing the parent of a spatial off the chain leaves the chain as it was. */
  lemma {:induction false} AncestorsUnaffected(parent: map<nat, nat>, n: nat, depth: nat, c: nat, p: nat)
    requires c !in Ancestors(parent, n, depth)
    ensures Ancestors(parent - {c}, n, depth) == Ancestors(parent, n, depth)
    ensures Ancestors(parent[c := p], n, depth) == Ancestors(parent, n, depth)
    decreases depth
  {
    if n in parent && depth > 0 {
      AncestorsUnaffected(parent, parent[n], depth - 1, c, p);
    }
  }

  /** Removing a child from its node keeps the arena consistent. */
  lemma DetachConsistent(children: map<nat, set<nat>>, parent: map<nat, nat>, alive: set<nat>, n: nat, c: nat)
    requires Consistent(children, parent, alive) && n in children && c in children[n]
    ensures Consistent(children[n := children[n] - {c}], parent - {c}, alive)
  {
    var children', parent' := children[n := children[n] - {c}], parent - {c};
    forall d | d in parent'
      ensures parent'[d] in children' && d in children'[parent'[d]]
    {
      assert parent[d] in children && d in children[parent[d]];
    }
    forall m, e | m in children' && e in children'[m]
      ensures e in parent' && parent'[e] == m
    {
      assert e in children[m] && parent[e] == m;
      assert parent[c] == n;
    }
  }

  /** The children once `c` is removed from the children of its parent, if it has one. */
  function Detached(children: map<nat, set<nat>>, parent: map<nat, nat>, c: nat): (r: map<nat, set<nat>>)
    requires c in parent ==> parent[c] in children
    ensures r.Keys == children.Keys
    ensures forall m :: m in r ==> r[m] == children[m] || (c in parent && m == parent[c] && r[m] == children[m] - {c})
  {
    if c in parent then children[parent[c] := children[parent[c]] - {c}] else children
  }

  /** Attaching a spatial without a parent to a node keeps the arena consistent. */
  lemma AttachConsistent(children: map<nat, set<nat>>, parent: map<nat, nat>, alive: set<nat>, n: nat, c: nat)
    requires Consistent(children, parent, alive) && n in children && c in alive && c !in parent
    ensures Consistent(children[n := children[n] + {c}], parent[c := n], alive)
    ensures forall m :: m in children ==> c !in children[m]
  {
    var children', parent' := children[n := children[n] + {c}], parent[c := n];
    forall m, e | m in children' && e in children'[m]
      ensures e in parent' && parent'[e] == m
    {
      if e != c {
        assert e in children[m];
      }
    }
  }

  lemma ChainAfterDetach(parent: map<nat, nat>, n: nat, depth: nat, c: nat)
    ensures c !in Ancestors(parent, n, depth) ==> Ancestors(parent - {c}, n, depth) == Ancestors(parent, n, depth)
  {
    if c !in Ancestors(parent, n, depth) {
      AncestorsUnaffected(parent, n, depth, c, n);
    }
  }

  lemma ChainAfterAttach(parent: map<nat, nat>, n: nat, depth: nat, c: nat)
    ensures c !in Ancestors(parent, n, depth) ==> Ancestors(parent[c := n], n, depth) == Ancestors(parent, n, depth)
  {
    if c !in Ancestors(parent, n, depth) {
      AncestorsUnaffected(parent, n, depth, c, n);
    }
  }

  /**
   * The tree changes announced while node `x` deletes all its children:
   * every child node first deletes its own children, then `x` announces
   * its change, which `chain` climbs from `x` to the root.
   */
  function Deletion(children: map<nat, set<nat>>, x: nat, fuel: nat, chain: seq<nat>): seq<nat>
    decreases fuel, 0
  {
    if x !in children || fuel == 0 || children[x] == {} then []
    else DeletionSet(children, children[x], fuel - 1, chain) + chain
  }

  /** The deletions of the spatials `cs` in the order of the child set; `chain` climbs from their parent. */
  function DeletionSet(children: map<nat, set<nat>>, cs: set<nat>, fuel: nat, chain: seq<nat>): seq<nat>
    decreases fuel, |cs|
  {
    if cs == {} then []
    else
      var c := Minimum(cs);
      Deletion(children, c, fuel, [c] + chain) + DeletionSet(children, cs - {c}, fuel, chain)
  }

  /** Only the deleting node's chain and nodes of the deleted subtree announce a change. */
  lemma {:induction false} DeletionNotified(children: map<nat, set<nat>>, x: nat, fuel: nat, chain: seq<nat>)
    ensures forall y :: y in Deletion(children, x, fuel, chain) ==> y in chain || y in Visit(children, x, true, fuel)
    decreases fuel, 0
  {
    if x in children && fuel > 0 && children[x] != {} {
      DeletionSetNotified(children, children[x], fuel - 1, chain);
    }
  }

  lemma {:induction false} DeletionSetNotified(children: map<nat, set<nat>>, cs: set<nat>, fuel: nat, chain: seq<nat>)
    ensures forall y :: y in DeletionSet(children, cs, fuel, chain) ==> y in chain || y in VisitSet(children, cs, true, fuel)
    decreases fuel, |cs|
  {
    if cs != {} {
      var c := Minimum(cs);
      DeletionNotified(children, c, fuel, [c] + chain);
      DeletionSetNotified(children, cs - {c}, fuel, chain);
      var v := VisitSet(children, cs, true, fuel);
      assert v == [c] + Visit(children, c, true, fuel) + VisitSet(children, cs - {c}, true, fuel);
    }
  }

  /** The scene graph of Node.cpp. */
  class SceneGraph {
    /** The children of every node; its keys are the nodes. */
    var children: map<nat, set<nat>>
    /** The parent of every attached spatial. */
    var parent: map<nat, nat>
    /** The spatials not deleted. */
    var alive: set<nat>
    /** The nodes whose notifyTreeChanges ran, in order. */
    var treeChanges: seq<nat>

    ghost predicate Valid()
      reads this
    {
      Consistent(children, parent, alive)
    }

    constructor(nodes: set<nat>, spatials: set<nat>)
      ensures Valid() && alive == nodes + spatials && parent == map[] && treeChanges == []
      ensures children.Keys == nodes && forall n :: n in children ==> children[n] == {}
    {
      children := map n | n in nodes :: {};
      parent := map[];
      alive := nodes + spatials;
      treeChanges := [];
    }

    /** hasChild: `c` is one of the children of `n`. */
    predicate HasChild(n: nat, c: nat)
      reads this
    {
      n in children && c in children[n]
    }

    /**
     * detachChild: a child of `n` is removed from its children and loses its
     * parent, and the tree change is announced from `n` up to the root;
     * anything else is `None` and changes nothing. `depth` bounds the
     * height of `n`.
     */
    method DetachChild(n: nat, c: nat, depth: nat) returns (r: Option<nat>)
      requires Valid() && n in children && Rooted(parent, n, depth)
      modifies this
      ensures Valid() && alive == old(alive)
      ensures old(HasChild(n, c)) ==>
                r == Some(c) && !HasChild(n, c) && c !in parent
                && children == old(children)[n := old(children)[n] - {c}] && parent == old(parent) - {c}
                && treeChanges == old(treeChanges) + Ancestors(parent, n, depth)
      ensures old(HasChild(n, c)) && c !in old(Ancestors(parent, n, depth)) ==>
                treeChanges == old(treeChanges) + old(Ancestors(parent, n, depth))
      ensures !old(HasChild(n, c)) ==>
                r == None && children == old(children) && parent == old(parent) && treeChanges == old(treeChanges)
    {
      if c in children[n] {
        DetachConsistent(children, parent, alive, n, c);
        children := children[n := children[n] - {c}];
        parent := parent - {c};
        treeChanges := treeChanges + Ancestors(parent, n, depth);
        r := Some(c);
        ChainAfterDetach(old(parent), n, depth, c);
      } else {
        r := None;
      }
    }

    /**
     * attachChild: `c` becomes a child of `n`, detached first from a
     * different parent, which announces its own change; then the tree
     * change of `n` is announced up to the root in any case. `depth`
     * bounds the height of `n` and of the previous parent.
     */
    method AttachChild(n: nat, c: nat, depth: nat)
      requires Valid() && n in children && c in alive && c != n
      requires Rooted(parent, n, depth) && (c in parent ==> Rooted(parent, parent[c], depth))
      modifies this
      ensures Valid() && HasChild(n, c) && alive == old(alive)
      ensures parent == old(parent)[c := n]
      ensures children == Detached(old(children), old(parent), c)[n := old(children)[n] + {c}]
      ensures treeChanges == old(treeChanges)
                             + (if c in old(parent) && old(parent)[c] != n
                                then Ancestors(old(parent) - {c}, old(parent)[c], depth) else [])
                             + Ancestors(parent, n, depth)
      ensures c !in old(Ancestors(parent, n, depth)) ==> Ancestors(parent, n, depth) == old(Ancestors(parent, n, depth))
    {
      ChainAfterAttach(parent, n, depth, c);
      if c in parent && parent[c] == n {
        assert parent[c := n] == parent;
        assert children[n] + {c} == children[n];
        assert Detached(children, parent, c)[n := children[n] + {c}] == children;
        treeChanges := treeChanges + Ancestors(parent, n, depth);
      } else {
        ghost var children0, parent0, changes0 := children, parent, treeChanges;
        if c in parent {
          var p := parent[c];
          var detached := DetachChild(p, c, depth);
          assert parent == parent0 - {c} && children == Detached(children0, parent0, c);
        }
        ghost var changes1 := treeChanges;
        assert children[n] == children0[n];
        Adopt(n, c, depth);
        assert parent == parent0[c := n];
        assert treeChanges == changes1 + Ancestors(parent, n, depth);
      }
    }

    /** The rest of attachChild for a spatial without a parent: attach it and announce the change. */
    method Adopt(n: nat, c: nat, depth: nat)
      requires Valid() && n in children && c in alive && c !in parent
      modifies this
      ensures Valid() && alive == old(alive)
      ensures parent == old(parent)[c := n] && children == old(children)[n := old(children)[n] + {c}]
      ensures treeChanges == old(treeChanges) + Ancestors(parent, n, depth)
    {
      AttachConsistent(children, parent, alive, n, c);
      children := children[n := children[n] + {c}];
      parent := parent[c := n];
      treeChanges := treeChanges + Ancestors(parent, n, depth);
    }

    /**
     * deleteAllChildren: deletes every child of `n`, and with it, through
     * the destructors of child nodes, the whole subtree; each node of the
     * subtree that had children announces its change up to the root, and
     * `n` last, unless `n` had no children.
     */
    method DeleteAllChildren(n: nat, fuel: nat, depth: nat)
      requires Valid() && n in children && Within(children, n, fuel) && Rooted(parent, n, depth)
      modifies this
      ensures Valid() && n in children && children[n] == {}
      ensures var removed := Descendants(old(children), n, fuel);
              alive == old(alive) - removed
              && children == ChildrenAfterDelete(old(children), n, removed)
              && parent == ParentAfterDelete(old(parent), removed)
      ensures treeChanges == old(treeChanges) + Deletion(old(children), n, fuel, old(Ancestors(parent, n, depth)))
      ensures old(children)[n] == {} ==> treeChanges == old(treeChanges)
    {
      if children[n] != {} {
        var removed := Descendants(children, n, fuel);
        var notified := Deletion(children, n, fuel, Ancestors(parent, n, depth));
        DeleteSubtreeConsistent(children, parent, alive, n, fuel);
        children := ChildrenAfterDelete(children, n, removed);
        parent := ParentAfterDelete(parent, removed);
        alive := alive - removed;
        treeChanges := treeChanges + notified;
      } else {
        assert Visit(children, n, true, fuel) == [];
        assert ChildrenAfterDelete(children, n, {}) == children;
        assert ParentAfterDelete(parent, {}) == parent;
      }
    }

    /** visitChildren: the spatials visited below `n`, in visiting order. */
    method VisitChildren(n: nat, recursively: bool, fuel: nat) returns (visited: seq<nat>)
      ensures visited == Visit(children, n, recursively, fuel)
      decreases fuel
    {
      visited := [];
      if n in children && fuel > 0 {
        var rest := children[n];
        while rest != {}
          invariant visited + VisitSet(children, rest, recursively, fuel - 1) == Visit(children, n, recursively, fuel)
          decreases |rest|
        {
          var c := Minimum(rest);
          visited := visited + [c];
          if recursively {
            var below := VisitChildren(c, true, fuel - 1);
            visited := visited + below;
          }
          rest := rest - {c};
        }
      }
    }

    /**
     * updateWorldTransform: updates `n`, then every child in ascending
     * order, a child node together with its own subtree. Returns the
     * spatials in update order.
     */
    method UpdateWorldTransform(n: nat, fuel: nat) returns (updated: seq<nat>)
      ensures updated == [n] + Visit(children, n, true, fuel)
      decreases fuel
    {
      updated := [n];
      if n in children && fuel > 0 {
        var rest := children[n];
        while rest != {}
          invariant updated + VisitSet(children, rest, true, fuel - 1) == [n] + Visit(children, n, true, fuel)
          decreases |rest|
        {
          var c := Minimum(rest);
          var below := UpdateWorldTransform(c, fuel - 1);
          updated := updated + below;
          rest := rest - {c};
        }
      }
    }
  }
}
