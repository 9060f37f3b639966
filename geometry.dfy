/**
 * A Geometry scene-graph node's features: at most one feature per role and
 * at most one role per feature, kept as two maps that are each other's
 * inverse. Features are identified by ids; the calls a geometry makes on
 * its features (addTo, removeFrom) are recorded as events.
 */
module Geometries {
  import opened OrderedSets

  /** A call the geometry makes on one of its features. */
  datatype FeatureEvent = AddedTo(feature: nat, role: nat) | RemovedFrom(feature: nat)

  /** `byRole` and `byFeature` are inverse maps. */
  predicate Inverse(byRole: map<nat, nat>, byFeature: map<nat, nat>)
  {
    (forall r :: r in byRole ==> byRole[r] in byFeature && byFeature[byRole[r]] == r)
    && (forall f :: f in byFeature ==> byFeature[f] in byRole && byRole[byFeature[f]] == f)
  }

  /** Inverse maps have the same size. */
  lemma {:induction false} InverseSameSize(byRole: map<nat, nat>, byFeature: map<nat, nat>)
    requires Inverse(byRole, byFeature)
    ensures |byRole| == |byFeature|
    decreases |byRole|
  {
    if byRole != map[] {
      var r :| r in byRole;
      var f := byRole[r];
      var byRole' := map k | k in byRole && k != r :: byRole[k];
      var byFeature' := map k | k in byFeature && k != f :: byFeature[k];
      assert byRole'.Keys == byRole.Keys - {r};
      assert byFeature'.Keys == byFeature.Keys - {f};
      InverseSameSize(byRole', byFeature');
    }
  }

  /** The events `removeFrom` for each feature in `features`, in order. */
  function Removals(features: seq<nat>): (events: seq<FeatureEvent>)
    ensures |events| == |features|
    ensures forall i :: 0 <= i < |features| ==> events[i] == RemovedFrom(features[i])
  {
    seq(|features|, i requires 0 <= i < |features| => RemovedFrom(features[i]))
  }

  /** The features of `byRole` in ascending role order. */
  function FeaturesByRole(byRole: map<nat, nat>, roles: seq<nat>): (features: seq<nat>)
    requires forall i :: 0 <= i < |roles| ==> roles[i] in byRole
    ensures |features| == |roles|
    ensures forall i :: 0 <= i < |roles| ==> features[i] == byRole[roles[i]]
  {
    seq(|roles|, i requires 0 <= i < |roles| => byRole[roles[i]])
  }

  lemma RolesIn(byRole: map<nat, nat>, roles: seq<nat>)
    requires forall x :: x in byRole.Keys <==> x in roles
    ensures forall i :: 0 <= i < |roles| ==> roles[i] in byRole
  {
    forall i | 0 <= i < |roles|
      ensures roles[i] in byRole
    {
      assert roles[i] in roles;
    }
  }

  /** The (feature, role) pairs of `byRole` for the given roles, in their order. */
  function Pairs(byRole: map<nat, nat>, roles: seq<nat>): (pairs: seq<(nat, nat)>)
    requires forall i :: 0 <= i < |roles| ==> roles[i] in byRole
    ensures |pairs| == |roles|
    ensures forall i :: 0 <= i < |roles| ==> pairs[i] == (byRole[roles[i]], roles[i])
  {
    seq(|roles|, i requires 0 <= i < |roles| => (byRole[roles[i]], roles[i]))
  }

  lemma PairsComplete(byRole: map<nat, nat>, roles: seq<nat>)
    requires forall x :: x in byRole.Keys <==> x in roles
    requires forall i :: 0 <= i < |roles| ==> roles[i] in byRole
    ensures forall r :: r in byRole ==> (byRole[r], r) in Pairs(byRole, roles)
    ensures forall v :: v in Pairs(byRole, roles) ==> v.1 in byRole && byRole[v.1] == v.0
  {
    var pairs := Pairs(byRole, roles);
    forall r | r in byRole
      ensures (byRole[r], r) in pairs
    {
      assert r in roles;
      var i :| 0 <= i < |roles| && roles[i] == r;
      assert pairs[i] == (byRole[r], r);
    }
  }

  /** The features of `byRole` in ascending role order: the order clearFeatures tells them. */
  function ClearOrder(byRole: map<nat, nat>): (features: seq<nat>)
    ensures |features| == |byRole.Keys|
  {
    var roles := Ascending(byRole.Keys);
    RolesIn(byRole, roles);
    FeaturesByRole(byRole, roles)
  }

  /** clearFeatures tells every feature of the map, and only those. */
  lemma ClearOrderComplete(byRole: map<nat, nat>)
    ensures forall f :: f in ClearOrder(byRole) <==> f in byRole.Values
  {
    var roles := Ascending(byRole.Keys);
    RolesIn(byRole, roles);
    var features := ClearOrder(byRole);
    forall f | f in byRole.Values
      ensures f in features
    {
      var r :| r in byRole && byRole[r] == f;
      assert r in roles;
      var i :| 0 <= i < |roles| && roles[i] == r;
      assert features[i] == f;
    }
  }

  class Geometry {
    const geometryType: bv32
    var featureByRole: map<nat, nat>
    var roleByFeature: map<nat, nat>
    /** The addTo and removeFrom calls made on features, oldest first. */
    var events: seq<FeatureEvent>

    ghost predicate Valid()
      reads this
    {
      Inverse(featureByRole, roleByFeature)
    }

    constructor(geometryType: bv32)
      ensures Valid() && this.geometryType == geometryType
      ensures featureByRole == map[] && roleByFeature == map[] && events == []
    {
      this.geometryType := geometryType;
      featureByRole := map[];
      roleByFeature := map[];
      events := [];
    }

    /** hasFeature(gf) */
    function HasFeature(gf: nat): (b: bool)
      reads this
      requires Valid()
      ensures b <==> exists r :: r in featureByRole && featureByRole[r] == gf
    {
      assert gf in roleByFeature ==> featureByRole[roleByFeature[gf]] == gf;
      gf in roleByFeature
    }

    /** hasFeature(role) */
    function HasRole(role: nat): (b: bool)
      reads this
      requires Valid()
      ensures b <==> exists f :: f in roleByFeature && roleByFeature[f] == role
    {
      assert role in featureByRole ==> roleByFeature[featureByRole[role]] == role;
      role in featureByRole
    }

    /** feature(role): asserts that the role is occupied. */
    function Feature(role: nat): (gf: nat)
      reads this
      requires Valid() && role in featureByRole
      ensures gf in roleByFeature && roleByFeature[gf] == role
    {
      featureByRole[role]
    }

    /** featuresCount: one feature per occupied role, and as many roles as features. */
    function FeaturesCount(): (n: nat)
      reads this
      requires Valid()
      ensures n == |featureByRole.Keys| && n == |roleByFeature.Keys|
    {
      InverseSameSize(featureByRole, roleByFeature);
      |featureByRole|
    }

    /** visitFeatures: every (feature, role) pair, in ascending role order. */
    function VisitFeatures(): (visits: seq<(nat, nat)>)
      reads this
      ensures |visits| == |featureByRole.Keys|
      ensures forall i, j :: 0 <= i < j < |visits| ==> visits[i].1 < visits[j].1
      ensures forall r :: r in featureByRole ==> (featureByRole[r], r) in visits
      ensures forall v :: v in visits ==> v.1 in featureByRole && featureByRole[v.1] == v.0
    {
      var roles := Ascending(featureByRole.Keys);
      RolesIn(featureByRole, roles);
      var visits := Pairs(featureByRole, roles);
      PairsComplete(featureByRole, roles);
      visits
    }

    /**
     * removeFeature(gf): if the feature occupies a role, both entries go and
     * the feature is told; otherwise nothing changes.
     */
    method RemoveFeature(gf: nat)
      requires Valid()
      modifies this
      ensures Valid()
      ensures gf !in old(roleByFeature) ==>
                featureByRole == old(featureByRole) && roleByFeature == old(roleByFeature) && events == old(events)
      ensures gf in old(roleByFeature) ==>
                featureByRole == old(featureByRole) - {old(roleByFeature)[gf]}
                && roleByFeature == old(roleByFeature) - {gf}
                && events == old(events) + [RemovedFrom(gf)]
    {
      if gf in roleByFeature {
        var role := roleByFeature[gf];
        roleByFeature := roleByFeature - {gf};
        featureByRole := featureByRole - {role};
        events := events + [RemovedFrom(gf)];
      }
    }

    /**
     * removeFeature(role): if the role is occupied, both entries go and the
     * feature is told; otherwise nothing changes.
     */
    method RemoveRole(role: nat)
      requires Valid()
      modifies this
      ensures Valid()
      ensures role !in old(featureByRole) ==>
                featureByRole == old(featureByRole) && roleByFeature == old(roleByFeature) && events == old(events)
      ensures role in old(featureByRole) ==>
                featureByRole == old(featureByRole) - {role}
                && roleByFeature == old(roleByFeature) - {old(featureByRole)[role]}
                && events == old(events) + [RemovedFrom(old(featureByRole)[role])]
    {
      if role in featureByRole {
        var gf := featureByRole[role];
        roleByFeature := roleByFeature - {gf};
        featureByRole := featureByRole - {role};
        events := events + [RemovedFrom(gf)];
      }
    }

    /**
     * putFeature: `gf` takes `role`. A different feature holding the role is
     * removed first, then a different role held by `gf`; the feature is told
     * it was added exactly when the pair was not already present.
     */
    method PutFeature(role: nat, gf: nat)
      requires Valid()
      modifies this
      ensures Valid()
      ensures featureByRole == PutByRole(old(featureByRole), role, gf)
      ensures roleByFeature == PutByFeature(old(roleByFeature), role, gf)
      ensures events == old(events) + PutEvents(old(featureByRole), old(roleByFeature), role, gf)
    {
      ghost var m0, r0, e0 := featureByRole, roleByFeature, events;
      ghost var m1, r1 := Evict(role, gf);
      ghost var evicted := if role in m0 && m0[role] != gf then [RemovedFrom(m0[role])] else [];
      ghost var left := if gf in r1 && r1[gf] != role then [RemovedFrom(gf)] else [];
      ghost var added := if role !in featureByRole then [AddedTo(gf, role)] else [];
      assert events == e0 + evicted + left;
      var size0 := |featureByRole|;
      PutSteps(m0, r0, role, gf, m1, r1, featureByRole, roleByFeature);
      PutEventsSplit(m0, r0, role, gf, r1, featureByRole);
      Assign(role, gf, m0, r0);
      if size0 != |featureByRole| {
        events := events + [AddedTo(gf, role)];
      }
      assert events == e0 + evicted + left + added;
      Concat4(e0, evicted, left, added);
    }

    /**
     * The removals of putFeature: a different feature holding `role`, then
     * a different role held by `gf`. Returns the maps between the two.
     */
    method Evict(role: nat, gf: nat) returns (ghost m1: map<nat, nat>, ghost r1: map<nat, nat>)
      requires Valid()
      modifies this
      ensures Valid()
      ensures var evict := role in old(featureByRole) && old(featureByRole)[role] != gf;
              (evict ==> m1 == old(featureByRole) - {role} && r1 == old(roleByFeature) - {old(featureByRole)[role]})
              && (!evict ==> m1 == old(featureByRole) && r1 == old(roleByFeature))
      ensures var leave := gf in r1 && r1[gf] != role;
              (leave ==> featureByRole == m1 - {r1[gf]} && roleByFeature == r1 - {gf})
              && (!leave ==> featureByRole == m1 && roleByFeature == r1)
      ensures events == old(events)
                        + (if role in old(featureByRole) && old(featureByRole)[role] != gf then [RemovedFrom(old(featureByRole)[role])] else [])
                        + (if gf in r1 && r1[gf] != role then [RemovedFrom(gf)] else [])
    {
      if role in featureByRole && featureByRole[role] != gf {
        RemoveRole(role);
      }
      m1, r1 := featureByRole, roleByFeature;
      if gf in roleByFeature && roleByFeature[gf] != role {
        RemoveFeature(gf);
      }
    }

    /** The two map insertions of putFeature, once the removals are done. */
    method Assign(role: nat, gf: nat, ghost m0: map<nat, nat>, ghost r0: map<nat, nat>)
      requires Inverse(m0, r0)
      requires featureByRole[role := gf] == PutByRole(m0, role, gf)
      requires roleByFeature[gf := role] == PutByFeature(r0, role, gf)
      modifies this
      ensures Valid() && events == old(events)
      ensures featureByRole == old(featureByRole)[role := gf] && roleByFeature == old(roleByFeature)[gf := role]
      ensures |featureByRole| != |old(featureByRole)| <==> role !in old(featureByRole)
    {
      featureByRole := featureByRole[role := gf];
      roleByFeature := roleByFeature[gf := role];
      PutKeepsInverse(m0, r0, role, gf);
    }

    /**
     * clearFeatures: when there are features, empties both maps and then
     * tells every former feature, in ascending role order.
     */
    method ClearFeatures()
      requires Valid()
      modifies this
      ensures Valid() && featureByRole == map[] && roleByFeature == map[]
      ensures events == old(events) + Removals(ClearOrder(old(featureByRole)))
    {
      if featureByRole != map[] {
        ClearAndNotify();
      } else {
        EmptyInverse(featureByRole, roleByFeature);
      }
    }

    /** The clearing step shared by clearFeatures and the destructor. */
    method ClearAndNotify()
      modifies this
      ensures featureByRole == map[] && roleByFeature == map[]
      ensures events == old(events) + Removals(ClearOrder(old(featureByRole)))
    {
      var features := ClearOrder(featureByRole);
      featureByRole := map[];
      roleByFeature := map[];
      NotifyRemoved(features);
    }

    /** Tells each of `features`, in order, that it was removed. */
    method NotifyRemoved(features: seq<nat>)
      modifies this
      ensures featureByRole == old(featureByRole) && roleByFeature == old(roleByFeature)
      ensures events == old(events) + Removals(features)
    {
      var i := 0;
      while i < |features|
        invariant i <= |features|
        invariant featureByRole == old(featureByRole) && roleByFeature == old(roleByFeature)
        invariant events == old(events) + Removals(features[..i])
      {
        RemovalsAppend(features, i);
        events := events + [RemovedFrom(features[i])];
        i := i + 1;
      }
      assert features[..i] == features;
    }
  }

  /** The roles after putFeature: every other role held by another feature stays, and `role` holds `gf`. */
  function PutByRole(byRole: map<nat, nat>, role: nat, gf: nat): map<nat, nat>
  {
    (map r | r in byRole && r != role && byRole[r] != gf :: byRole[r])[role := gf]
  }

  /** The features after putFeature: every other feature holding another role stays, and `gf` holds `role`. */
  function PutByFeature(byFeature: map<nat, nat>, role: nat, gf: nat): map<nat, nat>
  {
    (map f | f in byFeature && f != gf && byFeature[f] != role :: byFeature[f])[gf := role]
  }

  /**
   * The calls putFeature makes on features: removeFrom on the feature it
   * evicts from the role, removeFrom on `gf` when it leaves another role,
   * and addTo on `gf` unless the pair was already present.
   */
  function PutEvents(byRole: map<nat, nat>, byFeature: map<nat, nat>, role: nat, gf: nat): seq<FeatureEvent>
  {
    if role in byRole && byRole[role] == gf then []
    else
      (if role in byRole then [RemovedFrom(byRole[role])] else [])
      + (if gf in byFeature then [RemovedFrom(gf)] else [])
      + [AddedTo(gf, role)]
  }

  /**
   * The two removals of putFeature (of the feature holding `role`, then of
   * the role held by `gf`) followed by the two insertions give the put maps.
   */
  lemma PutSteps(m0: map<nat, nat>, r0: map<nat, nat>, role: nat, gf: nat,
                 m1: map<nat, nat>, r1: map<nat, nat>, m2: map<nat, nat>, r2: map<nat, nat>)
    requires Inverse(m0, r0)
    requires role in m0 && m0[role] != gf ==> m1 == m0 - {role} && r1 == r0 - {m0[role]}
    requires !(role in m0 && m0[role] != gf) ==> m1 == m0 && r1 == r0
    requires gf in r1 && r1[gf] != role ==> m2 == m1 - {r1[gf]} && r2 == r1 - {gf}
    requires !(gf in r1 && r1[gf] != role) ==> m2 == m1 && r2 == r1
    ensures m2[role := gf] == PutByRole(m0, role, gf)
    ensures r2[gf := role] == PutByFeature(r0, role, gf)
    ensures role in m2 <==> role in m0 && m0[role] == gf
    ensures (gf in r1 && r1[gf] != role) <==> !(role in m0 && m0[role] == gf) && gf in r0
  {
    PutStepsByRole(m0, r0, role, gf, m1, r1, m2);
    PutStepsByFeature(m0, r0, role, gf, m1, r1, r2);
    if role in m0 && m0[role] == gf {
      assert gf in r0 && r0[gf] == role;
    }
  }

  lemma PutStepsByRole(m0: map<nat, nat>, r0: map<nat, nat>, role: nat, gf: nat,
                       m1: map<nat, nat>, r1: map<nat, nat>, m2: map<nat, nat>)
    requires Inverse(m0, r0)
    requires role in m0 && m0[role] != gf ==> m1 == m0 - {role} && r1 == r0 - {m0[role]}
    requires !(role in m0 && m0[role] != gf) ==> m1 == m0 && r1 == r0
    requires gf in r1 && r1[gf] != role ==> m2 == m1 - {r1[gf]}
    requires !(gf in r1 && r1[gf] != role) ==> m2 == m1
    ensures m2[role := gf] == PutByRole(m0, role, gf)
  {
    var a, b := m2[role := gf], PutByRole(m0, role, gf);
    forall k
      ensures k in a <==> k in b
      ensures k in a && k in b ==> a[k] == b[k]
    {
      if k != role && k in m0 && m0[k] == gf {
        assert gf in r0 && r0[gf] == k;
      }
    }
  }

  lemma PutStepsByFeature(m0: map<nat, nat>, r0: map<nat, nat>, role: nat, gf: nat,
                          m1: map<nat, nat>, r1: map<nat, nat>, r2: map<nat, nat>)
    requires Inverse(m0, r0)
    requires role in m0 && m0[role] != gf ==> r1 == r0 - {m0[role]}
    requires !(role in m0 && m0[role] != gf) ==> r1 == r0
    requires gf in r1 && r1[gf] != role ==> r2 == r1 - {gf}
    requires !(gf in r1 && r1[gf] != role) ==> r2 == r1
    ensures r2[gf := role] == PutByFeature(r0, role, gf)
  {
    var c, d := r2[gf := role], PutByFeature(r0, role, gf);
    forall k
      ensures k in c <==> k in d
      ensures k in c && k in d ==> c[k] == d[k]
    {
      if k != gf && k in r0 && r0[k] == role {
        assert role in m0 && m0[role] == k;
      }
    }
  }

  /** The calls of putFeature, split into its three conditional steps. */
  lemma PutEventsSplit(m0: map<nat, nat>, r0: map<nat, nat>, role: nat, gf: nat, r1: map<nat, nat>, m2: map<nat, nat>)
    requires (gf in r1 && r1[gf] != role) <==> !(role in m0 && m0[role] == gf) && gf in r0
    requires role in m2 <==> role in m0 && m0[role] == gf
    ensures PutEvents(m0, r0, role, gf)
            == (if role in m0 && m0[role] != gf then [RemovedFrom(m0[role])] else [])
               + (if gf in r1 && r1[gf] != role then [RemovedFrom(gf)] else [])
               + (if role !in m2 then [AddedTo(gf, role)] else [])
  {
  }

  /** putFeature keeps the two maps inverse, and the new pair is in both. */
  lemma PutKeepsInverse(byRole: map<nat, nat>, byFeature: map<nat, nat>, role: nat, gf: nat)
    requires Inverse(byRole, byFeature)
    ensures Inverse(PutByRole(byRole, role, gf), PutByFeature(byFeature, role, gf))
    ensures PutByRole(byRole, role, gf)[role] == gf && PutByFeature(byFeature, role, gf)[gf] == role
  {
  }

  /** Putting a pair that is already present changes nothing and tells no feature. */
  lemma PutPresentPair(byRole: map<nat, nat>, byFeature: map<nat, nat>, role: nat, gf: nat)
    requires Inverse(byRole, byFeature) && role in byRole && byRole[role] == gf
    ensures PutByRole(byRole, role, gf) == byRole && PutByFeature(byFeature, role, gf) == byFeature
    ensures PutEvents(byRole, byFeature, role, gf) == []
  {
  }

  lemma EmptyInverse(byRole: map<nat, nat>, byFeature: map<nat, nat>)
    requires Inverse(byRole, byFeature) && byRole == map[]
    ensures byFeature == map[] && ClearOrder(byRole) == []
  {
  }

  lemma Concat4<T>(a: seq<T>, b: seq<T>, c: seq<T>, d: seq<T>)
    ensures a + b + c + d == a + (b + c + d)
  {
  }

  lemma RemovalsAppend(features: seq<nat>, i: nat)
    requires i < |features|
    ensures Removals(features[..i + 1]) == Removals(features[..i]) + [RemovedFrom(features[i])]
  {
    var l, r := Removals(features[..i + 1]), Removals(features[..i]) + [RemovedFrom(features[i])];
    assert |l| == |r|;
    forall k | 0 <= k < |l|
      ensures l[k] == r[k]
    {
    }
  }

}
