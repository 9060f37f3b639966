/**
 * ManagedMesh: a mesh whose vertex and index buffers are shared by all
 * OpenGL contexts, with one mesh object per context. The feature's total
 * acquisition count, maintained by the acquiring interface, decides when the
 * buffers are loaded and deleted; a per-context counter decides when that
 * context's mesh is created and deleted. Contexts and meshes are identified
 * by number; the buffers' contents are left to the loading functions.
 */
module ManagedMeshes {
  import opened Wrappers

  /** What the mesh keeps per context: the context's mesh and its acquisition count. */
  datatype ContextInfo = ContextInfo(mesh: nat, count: nat)

  /** The sum of the per-context acquisition counts. */
  ghost function Total(m: map<nat, ContextInfo>): nat
    decreases |m.Keys|
  {
    if m.Keys == {} then 0
    else
      var k :| k in m;
      assert |(m - {k}).Keys| < |m.Keys| by { assert (m - {k}).Keys == m.Keys - {k}; }
      m[k].count + Total(m - {k})
  }

  lemma {:induction false} TotalRemove(m: map<nat, ContextInfo>, k: nat)
    requires k in m
    ensures Total(m) == m[k].count + Total(m - {k})
    decreases |m.Keys|
  {
    var j :| j in m && Total(m) == m[j].count + Total(m - {j});
    if j != k {
      assert (m - {j}).Keys == m.Keys - {j};
      TotalRemove(m - {j}, k);
      assert (m - {k}).Keys == m.Keys - {k};
      TotalRemove(m - {k}, j);
      assert m - {j} - {k} == m - {k} - {j};
    }
  }

  /** Replacing or adding the entry of `k` changes the total by the difference of the counts. */
  lemma TotalUpdate(m: map<nat, ContextInfo>, k: nat, v: ContextInfo)
    ensures Total(m[k := v]) + (if k in m then m[k].count else 0) == Total(m) + v.count
  {
    TotalRemove(m[k := v], k);
    assert m[k := v] - {k} == m - {k};
    if k in m {
      TotalRemove(m, k);
    } else {
      assert m - {k} == m;
    }
  }

  predicate AllPositive(m: map<nat, ContextInfo>)
  {
    forall c :: c in m ==> m[c].count > 0
  }

  /** With positive counts, the total is zero exactly when no context is left. */
  lemma TotalZero(m: map<nat, ContextInfo>)
    requires AllPositive(m)
    ensures Total(m) == 0 <==> m == map[]
  {
    if m != map[] {
      var k :| k in m;
      TotalRemove(m, k);
    }
  }

  /** With positive counts, a total of one is a single context acquired once. */
  lemma TotalOne(m: map<nat, ContextInfo>, k: nat)
    requires AllPositive(m) && k in m && Total(m) == 1
    ensures m == map[k := ContextInfo(m[k].mesh, 1)]
  {
    TotalRemove(m, k);
    TotalZero(m - {k});
    assert m.Keys == (m - {k}).Keys + {k};
  }

  /** The entry of `glc` after an acquisition in that context. */
  function Acquired(m: map<nat, ContextInfo>, glc: nat, newMesh: nat): ContextInfo
  {
    if glc in m then m[glc].(count := m[glc].count + 1) else ContextInfo(newMesh, 1)
  }

  /** A mapped value as a dereferenced map iterator yields it: only while the key is still mapped. */
  function Deref(m: map<nat, ContextInfo>, key: nat): (r: Option<ContextInfo>)
    ensures r.Some? <==> key in m
    ensures r.Some? ==> r.value == m[key]
  {
    if key in m then Some(m[key]) else None
  }

  /**
   * The last release in a context as written: the entry is erased first and
   * its info is then read through the erased iterator to delete it; `None`
   * stands for that undefined read.
   */
  function ReleaseEntryAsWritten(m: map<nat, ContextInfo>, glc: nat): Option<(map<nat, ContextInfo>, nat)>
  {
    var erased := m - {glc};
    match Deref(erased, glc)
    case None => None
    case Some(info) => Some((erased, info.mesh))
  }

  /** The iterator is read after its entry was erased, whatever the map. */
  lemma ReleaseEntryReadsErased(m: map<nat, ContextInfo>, glc: nat)
    requires glc in m && m[glc].count == 1
    ensures ReleaseEntryAsWritten(m, glc).None?
  {
    assert glc !in m - {glc};
  }

  /**
   * The last release in a context as intended: the context's info is taken
   * before the entry is erased, and its mesh is deleted.
   */
  function ReleaseEntry(m: map<nat, ContextInfo>, glc: nat): (r: (map<nat, ContextInfo>, nat))
    requires glc in m
    ensures r.0.Keys == m.Keys - {glc}
    ensures forall c :: c in r.0 ==> r.0[c] == m[c]
    ensures r.1 == m[glc].mesh
  {
    var info := m[glc];
    (m - {glc}, info.mesh)
  }

  class ManagedMesh {
    /** The feature's total acquisition count, incremented before and decremented after the mesh calls. */
    var acquisitions: nat
    var contexts: map<nat, ContextInfo>
    var buffersLoaded: bool
    /** How often the vertex and index buffers were loaded. */
    var bufferLoads: nat
    var meshesCreated: seq<nat>
    var meshesDeleted: seq<nat>

    /**
     * Each context entry counts at least one acquisition, the entries add
     * up to the total, every entry's mesh was created, and the buffers are
     * loaded exactly while something is acquired.
     */
    ghost predicate Valid()
      reads this
    {
      AllPositive(contexts)
      && Total(contexts) == acquisitions
      && (forall c :: c in contexts ==> contexts[c].mesh in meshesCreated)
      && (buffersLoaded <==> acquisitions > 0)
    }

    constructor()
      ensures Valid() && acquisitions == 0 && contexts == map[] && !buffersLoaded
      ensures bufferLoads == 0 && meshesCreated == [] && meshesDeleted == []
    {
      acquisitions := 0;
      contexts := map[];
      buffersLoaded := false;
      bufferLoads := 0;
      meshesCreated := [];
      meshesDeleted := [];
    }

    /** controlsSameVideoResource: a managed mesh shares its video resources with no other feature. */
    function ControlsSameVideoResource(other: object): (r: bool)
      ensures !r
    {
      false
    }

    /**
     * acquireMesh: loads the buffers when this is the only acquisition,
     * which asserts that no context holds a mesh, then creates the
     * context's mesh on its first acquisition and counts it otherwise.
     */
    method AcquireMesh(glc: nat, newMesh: nat)
      requires acquisitions >= 1 && (acquisitions == 1 ==> contexts == map[])
      modifies this
      ensures acquisitions == old(acquisitions) && meshesDeleted == old(meshesDeleted)
      ensures buffersLoaded == (old(buffersLoaded) || acquisitions == 1)
      ensures bufferLoads == old(bufferLoads) + (if acquisitions == 1 then 1 else 0)
      ensures contexts == old(contexts)[glc := Acquired(old(contexts), glc, newMesh)]
      ensures meshesCreated == old(meshesCreated) + (if glc in old(contexts) then [] else [newMesh])
    {
      if acquisitions == 1 {
        buffersLoaded := true;
        bufferLoads := bufferLoads + 1;
      }
      if glc !in contexts {
        contexts := contexts[glc := ContextInfo(newMesh, 1)];
        meshesCreated := meshesCreated + [newMesh];
      } else {
        contexts := contexts[glc := contexts[glc].(count := contexts[glc].count + 1)];
      }
    }

    /**
     * releaseMesh: asserts the context holds the mesh with a positive count,
     * deletes the context's mesh when its count drops to zero, and deletes
     * the buffers when this is the last acquisition, which asserts that no
     * context is left.
     */
    method ReleaseMesh(glc: nat)
      requires glc in contexts && contexts[glc].count > 0
      requires acquisitions == 1 ==> contexts == map[glc := ContextInfo(contexts[glc].mesh, 1)]
      modifies this
      ensures acquisitions == old(acquisitions) && meshesCreated == old(meshesCreated)
      ensures bufferLoads == old(bufferLoads)
      ensures buffersLoaded == (old(buffersLoaded) && acquisitions != 1)
      ensures old(contexts)[glc].count == 1 ==>
                contexts == old(contexts) - {glc} && meshesDeleted == old(meshesDeleted) + [old(contexts)[glc].mesh]
      ensures old(contexts)[glc].count > 1 ==>
                contexts == old(contexts)[glc := old(contexts)[glc].(count := old(contexts)[glc].count - 1)]
                && meshesDeleted == old(meshesDeleted)
    {
      var info := contexts[glc];
      if info.count - 1 == 0 {
        var (rest, mesh) := ReleaseEntry(contexts, glc);
        assert rest == contexts - {glc};
        contexts := rest;
        meshesDeleted := meshesDeleted + [mesh];
      } else {
        contexts := contexts[glc := info.(count := info.count - 1)];
      }
      if acquisitions == 1 {
        buffersLoaded := false;
      }
    }

    /** An acquisition in context `glc`: the feature's count goes up, then the mesh is acquired. */
    method Acquire(glc: nat, newMesh: nat)
      requires Valid()
      modifies this
      ensures Valid() && acquisitions == old(acquisitions) + 1
      ensures contexts == old(contexts)[glc := Acquired(old(contexts), glc, newMesh)]
      ensures bufferLoads == old(bufferLoads) + (if old(acquisitions) == 0 then 1 else 0)
    {
      TotalZero(contexts);
      acquisitions := acquisitions + 1;
      AcquireMesh(glc, newMesh);
      TotalUpdate(old(contexts), glc, Acquired(old(contexts), glc, newMesh));
    }

    /** A release in context `glc`: the mesh is released, then the feature's count goes down. */
    method Release(glc: nat)
      requires Valid() && glc in contexts
      modifies this
      ensures Valid() && acquisitions == old(acquisitions) - 1
      ensures buffersLoaded <==> acquisitions > 0
      ensures glc in contexts <==> old(contexts)[glc].count > 1
    {
      if acquisitions == 1 {
        TotalOne(contexts, glc);
      }
      TotalRemove(contexts, glc);
      ghost var before := contexts;
      ReleaseMesh(glc);
      if before[glc].count > 1 {
        TotalUpdate(before, glc, contexts[glc]);
      }
      acquisitions := acquisitions - 1;
    }

    /** mesh(): asserts the context holds a mesh; it is one an acquisition created. */
    function Mesh(glc: nat): (m: nat)
      requires Valid() && glc in contexts
      reads this
      ensures m in meshesCreated
    {
      contexts[glc].mesh
    }
  }
}
