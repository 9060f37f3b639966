/**
 * DefaultVolumeRenderer: the volume renderer's registry of rendering modes,
 * its ray-sample count, the 2D rotation of the finished image and the
 * cropping box. Modes are compared by identity; a mode's identity and name
 * are numbers and strings given by the caller.
 */
module DefaultVolumeRenderers {
  import opened Wrappers
  import opened Lists

  /** A volume rendering mode: its identity and its name. */
  datatype Mode = Mode(id: nat, name: string)

  /** One of the six bounds of the cropping box, each in the unit interval. */
  datatype CropBound = MinX | MaxX | MinY | MaxY | MinZ | MaxZ

  /** The last mode of `s` that carries `name`, if any. */
  function LastNamed(s: seq<Mode>, name: string): (r: Option<Mode>)
    ensures r.Some? <==> exists i :: 0 <= i < |s| && s[i].name == name
    ensures r.Some? ==> exists i :: 0 <= i < |s| && s[i] == r.value && r.value.name == name
                                    && forall j :: i < j < |s| ==> s[j].name != name
  {
    if |s| == 0 then None
    else if s[|s| - 1].name == name then Some(s[|s| - 1])
    else
      var r := LastNamed(s[..|s| - 1], name);
      assert forall i :: 0 <= i < |s| - 1 ==> s[..|s| - 1][i] == s[i];
      r
  }

  lemma LastNamedSnoc(s: seq<Mode>, m: Mode, name: string)
    ensures LastNamed(s + [m], name) == if m.name == name then Some(m) else LastNamed(s, name)
  {
    assert (s + [m])[..|s|] == s;
  }

  /** The modes of `s` that carry `name`, in order: the modes setMode( modeName ) activates. */
  function Named(s: seq<Mode>, name: string): (r: seq<Mode>)
    ensures |r| <= |s|
    ensures forall k :: 0 <= k < |r| ==> r[k].name == name
  {
    if |s| == 0 then []
    else
      var front := Named(s[..|s| - 1], name);
      if s[|s| - 1].name == name then front + [s[|s| - 1]] else front
  }

  lemma NamedSnoc(s: seq<Mode>, m: Mode, name: string)
    ensures Named(s + [m], name) == Named(s, name) + (if m.name == name then [m] else [])
  {
    assert (s + [m])[..|s|] == s;
  }

  /** Exactly the modes of `s` that carry `name` are activated. */
  lemma {:induction false} NamedMembers(s: seq<Mode>, name: string)
    ensures forall m :: m in Named(s, name) <==> m in s && m.name == name
  {
    if |s| > 0 {
      var front := s[..|s| - 1];
      NamedMembers(front, name);
      assert s == front + [s[|s| - 1]];
    }
  }

  /**
   * The preparation log after activating the modes of `ms` in turn,
   * starting from `p`: each mode is added on its first activation only.
   */
  function PreparedAfter(p: seq<Mode>, ms: seq<Mode>): (r: seq<Mode>)
    ensures |p| <= |r| <= |p| + |ms| && r[..|p|] == p
  {
    if |ms| == 0 then p
    else
      var q := PreparedAfter(p, ms[..|ms| - 1]);
      var m := ms[|ms| - 1];
      var r := q + (if m in q then [] else [m]);
      assert r[..|q|] == q;
      assert r[..|p|] == q[..|p|];
      r
  }

  lemma PreparedAfterSnoc(p: seq<Mode>, ms: seq<Mode>, m: Mode)
    ensures PreparedAfter(p, ms + [m])
         == PreparedAfter(p, ms) + (if m in PreparedAfter(p, ms) then [] else [m])
  {
    assert (ms + [m])[..|ms|] == ms;
  }

  /**
   * After activating `ms`, exactly the modes prepared before and the
   * activated ones are prepared, and none of them twice.
   */
  lemma {:induction false} PreparedAfterMembers(p: seq<Mode>, ms: seq<Mode>)
    ensures forall m :: m in PreparedAfter(p, ms) <==> m in p || m in ms
    ensures NoDuplicates(p) ==> NoDuplicates(PreparedAfter(p, ms))
  {
    if |ms| > 0 {
      var front := ms[..|ms| - 1];
      PreparedAfterMembers(p, front);
      assert ms == front + [ms[|ms| - 1]];
      PreparedAfterSnoc(p, front, ms[|ms| - 1]);
    }
  }

  /** The state setMode changes: the active mode, the announcements and the prepared modes. */
  datatype Activation = Activation(current: Option<Mode>, changes: seq<Mode>, prepared: seq<Mode>)

  /**
   * setMode( modeName )'s loop over the installed modes `s`, starting from
   * `a`: each mode that carries the name is prepared on its first
   * activation, activated and announced, one after another.
   */
  function Activated(s: seq<Mode>, name: string, a: Activation): (r: Activation)
    ensures r.current == a.current || (r.current.Some? && r.current.value in s && r.current.value.name == name)
    ensures |a.changes| <= |r.changes| && r.changes[..|a.changes|] == a.changes
  {
    if |s| == 0 then a
    else
      var b := Activated(s[..|s| - 1], name, a);
      var m := s[|s| - 1];
      if m.name == name then
        var r := Activation(Some(m), b.changes + [m], b.prepared + (if m in b.prepared then [] else [m]));
        assert r.changes[..|b.changes|] == b.changes;
        assert r.changes[..|a.changes|] == b.changes[..|a.changes|];
        r
      else
        assert forall x :: x in s[..|s| - 1] ==> x in s;
        b
  }

  lemma ActivatedSnoc(s: seq<Mode>, m: Mode, name: string, a: Activation)
    ensures Activated(s + [m], name, a)
         == (var b := Activated(s, name, a);
             if m.name == name then Activation(Some(m), b.changes + [m], b.prepared + (if m in b.prepared then [] else [m]))
             else b)
  {
    assert (s + [m])[..|s|] == s;
  }

  /** The loop leaves the last mode of that name active, or the earlier mode when none carries it. */
  lemma {:induction false} ActivatedCurrent(s: seq<Mode>, name: string, a: Activation)
    ensures Activated(s, name, a).current == if LastNamed(s, name).Some? then LastNamed(s, name) else a.current
  {
    if |s| > 0 {
      var front, m := s[..|s| - 1], s[|s| - 1];
      ActivatedCurrent(front, name, a);
      assert s == front + [m];
      ActivatedSnoc(front, m, name, a);
      LastNamedSnoc(front, m, name);
    }
  }

  /** The loop announces every mode of that name, in installation order. */
  lemma {:induction false} ActivatedChanges(s: seq<Mode>, name: string, a: Activation)
    ensures Activated(s, name, a).changes == a.changes + Named(s, name)
  {
    if |s| > 0 {
      var front, m := s[..|s| - 1], s[|s| - 1];
      ActivatedChanges(front, name, a);
      assert s == front + [m];
      ActivatedSnoc(front, m, name, a);
      NamedSnoc(front, m, name);
      assert a.changes + Named(front, name) + [m] == a.changes + (Named(front, name) + [m]);
    }
  }

  /** The loop prepares each mode of that name on its first activation. */
  lemma {:induction false} ActivatedPrepared(s: seq<Mode>, name: string, a: Activation)
    ensures Activated(s, name, a).prepared == PreparedAfter(a.prepared, Named(s, name))
  {
    if |s| > 0 {
      var front, m := s[..|s| - 1], s[|s| - 1];
      ActivatedPrepared(front, name, a);
      assert s == front + [m];
      ActivatedSnoc(front, m, name, a);
      NamedSnoc(front, m, name);
      if m.name == name {
        PreparedAfterSnoc(a.prepared, Named(front, name), m);
      }
    }
  }

  // ----- The 2D rotation of the finished image -----

  const UINT_MODULUS: int := 0x1_0000_0000

  predicate IsInt(x: int)
  {
    -0x8000_0000 <= x < 0x8000_0000
  }

  /** C++ `a % 360` on `int`: the remainder takes the sign of the dividend. */
  function TruncatedRemainder(a: int): (r: int)
    ensures -360 < r < 360 && (r - a) % 360 == 0
    ensures a >= 0 ==> 0 <= r
    ensures a < 0 ==> r <= 0
  {
    if a >= 0 then a % 360 else -((-a) % 360)
  }

  /** The conversion of an `int` to `unsigned int`: wrap-around modulo 2^32. */
  function ToUnsigned(x: int): (r: nat)
    requires IsInt(x)
    ensures r < UINT_MODULUS && (r - x) % UINT_MODULUS == 0
    ensures x >= 0 ==> r == x
  {
    if x >= 0 then x else x + UINT_MODULUS
  }

  /** The angle setRotation2D stores, as written: the truncated remainder converted to unsigned. */
  function StoredRotationAsWritten(angle: int): (r: nat)
    requires IsInt(angle)
    ensures r < UINT_MODULUS
    ensures angle >= 0 ==> r < 360
  {
    ToUnsigned(TruncatedRemainder(angle))
  }

  /** The angle setRotation2D is meant to store: the angle in [0, 360) equivalent to the argument. */
  function StoredRotation(angle: int): (r: nat)
    ensures r < 360 && (r - angle) % 360 == 0
  {
    angle % 360
  }

  /** rotation2D(): the stored angle reduced below 360. */
  function Rotation2DOf(stored: nat): (r: nat)
    ensures r < 360
    ensures stored < 360 ==> r == stored
  {
    stored % 360
  }

  /** For non-negative angles the code as written stores the intended angle. */
  lemma StoredRotationAgrees(angle: int)
    requires IsInt(angle) && angle >= 0
    ensures StoredRotationAsWritten(angle) == StoredRotation(angle)
  {
  }

  /**
   * For every negative angle that is not a whole turn, the angle
   * rotation2D() reports after the code as written is wrong: 2^32 is not a
   * multiple of 360, so the unsigned wrap-around shifts it by 256 degrees.
   */
  lemma NegativeRotationIsWrong(angle: int)
    requires IsInt(angle) && angle < 0 && angle % 360 != 0
    ensures Rotation2DOf(StoredRotationAsWritten(angle)) != Rotation2DOf(StoredRotation(angle))
  {
    var t := TruncatedRemainder(angle);
    assert -360 < t < 0;
    var stored := StoredRotationAsWritten(angle);
    assert stored == 360 * 11930464 + (t + 256);
    assert StoredRotation(angle) == t + 360;
    assert Rotation2DOf(stored) == t + 256 || Rotation2DOf(stored) == t + 616;
  }

  /** setRotation2D(-90) makes rotation2D() report 166 degrees instead of 270. */
  lemma QuarterTurnBackwards()
    ensures Rotation2DOf(StoredRotationAsWritten(-90)) == 166
    ensures Rotation2DOf(StoredRotation(-90)) == 270
  {
  }

  class DefaultVolumeRenderer {
    /** The installed modes, in installation order. */
    var modes: seq<Mode>
    /** The active mode. */
    var current: Option<Mode>
    /** The modes prepared for this renderer, each on its first activation. */
    var prepared: seq<Mode>
    /** Modes announced by modeChanged, in order. */
    var modeChanges: seq<Mode>
    var sampleCount: int
    /** The stored 2D rotation, as an unsigned number. */
    var rotation: nat
    var xMin: real
    var xMax: real
    var yMin: real
    var yMax: real
    var zMin: real
    var zMax: real
    /** Crop bounds announced by the x/y/zMin/MaxChanged signals, in order. */
    var cropChanges: seq<(CropBound, real)>

    function Crop(b: CropBound): real
      reads this
    {
      match b
      case MinX => xMin
      case MaxX => xMax
      case MinY => yMin
      case MaxY => yMax
      case MinZ => zMin
      case MaxZ => zMax
    }

    /**
     * Modes are installed once each, the active and the prepared modes are
     * installed, each mode is prepared at most once, at least two samples
     * are taken, the rotation is below 360 and the crop bounds lie in the
     * unit interval.
     */
    predicate Valid()
      reads this
    {
      NoDuplicates(modes)
      && (current.Some? ==> current.value in modes)
      && NoDuplicates(prepared)
      && (forall m :: m in prepared ==> m in modes)
      && sampleCount >= 2
      && rotation < 360
      && (forall b :: 0.0 <= Crop(b) <= 1.0)
    }

    /**
     * A renderer without modes, with the documented crop defaults of 0 and
     * 1. The initial sample count is a parameter.
     */
    constructor(initialSampleCount: int)
      requires initialSampleCount >= 2
      ensures Valid() && modes == [] && current.None? && prepared == [] && modeChanges == []
      ensures sampleCount == initialSampleCount && rotation == 0
      ensures xMin == 0.0 && yMin == 0.0 && zMin == 0.0
      ensures xMax == 1.0 && yMax == 1.0 && zMax == 1.0
      ensures cropChanges == []
    {
      modes := [];
      current := None;
      prepared := [];
      modeChanges := [];
      sampleCount := initialSampleCount;
      rotation := 0;
      xMin, xMax := 0.0, 1.0;
      yMin, yMax := 0.0, 1.0;
      zMin, zMax := 0.0, 1.0;
      cropChanges := [];
    }

    /** hasModeInstalled( mode ): whether that very mode is installed. */
    function HasModeInstalled(mode: Mode): (r: bool)
      reads this
      ensures r <==> exists i :: 0 <= i < |modes| && modes[i] == mode
    {
      if |modes| == 0 then false else mode in modes
    }

    /** hasModeInstalled( modeName ): whether an installed mode carries that name. */
    method HasModeInstalledNamed(name: string) returns (found: bool)
      ensures found <==> exists i :: 0 <= i < |modes| && modes[i].name == name
    {
      var i := 0;
      while i < |modes|
        invariant 0 <= i <= |modes|
        invariant forall j :: 0 <= j < i ==> modes[j].name != name
      {
        if modes[i].name == name {
          return true;
        }
        i := i + 1;
      }
      return false;
    }

    /** installMode: appends the mode unless it is installed already; afterwards it is installed. */
    method InstallMode(mode: Mode)
      modifies this
      ensures modes == old(modes) + (if mode in old(modes) then [] else [mode])
      ensures mode in modes && exists i :: 0 <= i < |modes| && modes[i].name == mode.name
      ensures current == old(current) && prepared == old(prepared) && modeChanges == old(modeChanges)
      ensures sampleCount == old(sampleCount) && rotation == old(rotation) && cropChanges == old(cropChanges)
      ensures forall b :: Crop(b) == old(Crop(b))
      ensures old(Valid()) ==> Valid()
    {
      if !HasModeInstalled(mode) {
        modes := modes + [mode];
      }
      assert modes[|modes| - 1] == mode || mode in old(modes);
    }

    /**
     * setMode( newMode ): asserts the mode is installed, prepares it for this
     * renderer on its first activation, activates it and announces it.
     */
    method SetMode(newMode: Mode)
      requires newMode in modes
      modifies this
      ensures current == Some(newMode) && modes == old(modes)
      ensures prepared == old(prepared) + (if newMode in old(prepared) then [] else [newMode])
      ensures modeChanges == old(modeChanges) + [newMode]
      ensures sampleCount == old(sampleCount) && rotation == old(rotation) && cropChanges == old(cropChanges)
      ensures forall b :: Crop(b) == old(Crop(b))
      ensures old(Valid()) ==> Valid()
    {
      if newMode !in prepared {
        prepared := prepared + [newMode];
      }
      current := Some(newMode);
      modeChanges := modeChanges + [newMode];
    }

    /**
     * setMode( modeName ): asserts a mode of that name is installed and
     * activates every installed mode of that name in turn, so the last one
     * stays active, each is announced and each is prepared on its first
     * activation.
     */
    method SetModeNamed(name: string)
      requires exists i :: 0 <= i < |modes| && modes[i].name == name
      requires Valid()
      modifies this
      ensures Valid() && modes == old(modes)
      ensures current == LastNamed(modes, name) && current.value.name == name
      ensures modeChanges == old(modeChanges) + Named(modes, name)
      ensures prepared == PreparedAfter(old(prepared), Named(modes, name))
      ensures sampleCount == old(sampleCount) && rotation == old(rotation) && cropChanges == old(cropChanges)
      ensures forall b :: Crop(b) == old(Crop(b))
    {
      var i := 0;
      while i < |modes|
        invariant 0 <= i <= |modes| && Valid() && modes == old(modes)
        invariant ActivationState() == Activated(modes[..i], name, old(ActivationState()))
        invariant sampleCount == old(sampleCount) && rotation == old(rotation) && cropChanges == old(cropChanges)
        invariant forall b :: Crop(b) == old(Crop(b))
      {
        ActivateNext(i, name, old(ActivationState()));
        i := i + 1;
      }
      assert modes[..i] == modes;
      ActivatedCurrent(modes, name, old(ActivationState()));
      ActivatedChanges(modes, name, old(ActivationState()));
      ActivatedPrepared(modes, name, old(ActivationState()));
    }

    /** The active mode, the announcements and the prepared modes. */
    function ActivationState(): (r: Activation)
      reads this
      ensures r.current == current && r.changes == modeChanges && r.prepared == prepared
    {
      Activation(current, modeChanges, prepared)
    }

    /** One turn of setMode( modeName )'s loop: the next installed mode is activated when it carries the name. */
    method ActivateNext(i: nat, name: string, ghost start: Activation)
      requires i < |modes| && Valid() && ActivationState() == Activated(modes[..i], name, start)
      modifies this
      ensures Valid() && modes == old(modes) && ActivationState() == Activated(modes[..i + 1], name, start)
      ensures sampleCount == old(sampleCount) && rotation == old(rotation) && cropChanges == old(cropChanges)
      ensures forall b :: Crop(b) == old(Crop(b))
    {
      var m := modes[i];
      assert modes[..i + 1] == modes[..i] + [m];
      ActivatedSnoc(modes[..i], m, name, start);
      if m.name == name {
        SetMode(m);
      }
    }

    function HasMode(): (r: bool)
      reads this
      ensures r <==> current.Some?
    {
      current.Some?
    }

    /** setNoMode: deactivates the active mode, if any. */
    method SetNoMode()
      modifies this
      ensures !HasMode() && modes == old(modes) && prepared == old(prepared) && modeChanges == old(modeChanges)
      ensures sampleCount == old(sampleCount) && rotation == old(rotation) && cropChanges == old(cropChanges)
      ensures forall b :: Crop(b) == old(Crop(b))
      ensures old(Valid()) ==> Valid()
    {
      if HasMode() {
        current := None;
      }
    }

    /** sampleCount(): asserts at least two samples are taken. */
    function SampleCount(): (r: int)
      requires sampleCount >= 2
      reads this
      ensures r >= 2 && r == sampleCount
    {
      sampleCount
    }

    /** setSampleCount: takes the requested count, but never fewer than two samples. */
    method SetSampleCount(n: int)
      modifies this
      ensures sampleCount >= 2 && sampleCount >= n && (n >= 2 ==> sampleCount == n)
      ensures sampleCount == 2 || sampleCount == n
      ensures modes == old(modes) && current == old(current) && prepared == old(prepared)
      ensures modeChanges == old(modeChanges) && rotation == old(rotation) && cropChanges == old(cropChanges)
      ensures forall b :: Crop(b) == old(Crop(b))
      ensures old(Valid()) ==> Valid()
    {
      sampleCount := if 2 < n then n else 2;
    }

    /** rotation2D(): the image's rotation in degrees, below 360. */
    function Rotation2D(): (r: nat)
      reads this
      ensures r < 360
      ensures rotation < 360 ==> r == rotation
    {
      Rotation2DOf(rotation)
    }

    /** setRotation2D: stores the angle reduced to one turn, so rotation2D() reports an equivalent angle. */
    method SetRotation2D(angle: int)
      modifies this
      ensures rotation == StoredRotation(angle) && (Rotation2D() - angle) % 360 == 0
      ensures modes == old(modes) && current == old(current) && prepared == old(prepared)
      ensures modeChanges == old(modeChanges) && sampleCount == old(sampleCount) && cropChanges == old(cropChanges)
      ensures forall b :: Crop(b) == old(Crop(b))
      ensures old(Valid()) ==> Valid()
    {
      rotation := StoredRotation(angle);
    }

    /** setMinX … setMaxZ: each asserts its value lies in the unit interval, stores it and announces it. */
    method SetCrop(b: CropBound, value: real)
      requires 0.0 <= value <= 1.0
      modifies this
      ensures Crop(b) == value && forall c :: c != b ==> Crop(c) == old(Crop(c))
      ensures cropChanges == old(cropChanges) + [(b, value)]
      ensures modes == old(modes) && current == old(current) && prepared == old(prepared)
      ensures modeChanges == old(modeChanges) && sampleCount == old(sampleCount) && rotation == old(rotation)
      ensures old(Valid()) ==> Valid()
    {
      cropChanges := cropChanges + [(b, value)];
      match b
      case MinX => xMin := value;
      case MaxX => xMax := value;
      case MinY => yMin := value;
      case MaxY => yMax := value;
      case MinZ => zMin := value;
      case MaxZ => zMax := value;
    }
  }
}
