/**
 * MeshColorCodingStage: renders every mesh of a registered geometry type in
 * a colour that encodes a running id, so that a pixel read back from the
 * off-screen framebuffer names the geometry drawn there (picking).
 *
 * The id is stored as key = id + 1 in the four bytes of an RGBA colour,
 * alpha least significant, so that the clear colour (0, 0, 0, 0) means
 * "no geometry". Shader uniforms, the mesh draw call and the framebuffer
 * itself are effects outside the model; the pixel read back is a function
 * `pixel` of the framebuffer coordinates.
 */
module ColorCoding {
  import opened Wrappers

  type Byte = x: int | 0 <= x < 256

  datatype Color = Color(r: Byte, g: Byte, b: Byte, a: Byte)

  /** The clear colour: no geometry was drawn at this pixel. */
  const NullColor := Color(0, 0, 0, 0)

  const FirstId: nat := 0

  /** The largest id, one less than the largest 32-bit unsigned value. */
  const LastId: nat := 0xFFFF_FFFF - 1

  /** The 32-bit key a colour spells, alpha in the lowest byte and red in the highest. */
  function Key(c: Color): (k: nat)
    ensures k < 0x1_0000_0000
    ensures k == 0 <==> c == NullColor
  {
    c.a + c.b * 0x100 + c.g * 0x1_0000 + c.r * 0x100_0000
  }

  /** colorToId: asserts the key is at least 1, i.e. not the clear colour. */
  function ColorToId(c: Color): (id: nat)
    requires c != NullColor
    ensures id <= LastId
  {
    Key(c) - 1
  }

  /** idToColor: asserts id <= LastId, and splits key = id + 1 into its four bytes. */
  function IdToColor(id: nat): (c: Color)
    requires id <= LastId
    ensures c != NullColor
  {
    var key := id + 1;
    var c := Color(key / 0x100_0000 % 0x100, key / 0x1_0000 % 0x100, key / 0x100 % 0x100, key % 0x100);
    KeyOfBytes(key);
    c
  }

  /** Splitting a 32-bit key into bytes and joining them gives the key back. */
  lemma KeyOfBytes(key: nat)
    requires key < 0x1_0000_0000
    ensures key / 0x100_0000 % 0x100 < 0x100
    ensures Key(Color(key / 0x100_0000 % 0x100, key / 0x1_0000 % 0x100, key / 0x100 % 0x100, key % 0x100)) == key
  {
    var q1 := key / 0x100;
    var q2 := q1 / 0x100;
    var q3 := q2 / 0x100;
    assert key == key % 0x100 + q1 * 0x100;
    assert q1 == q1 % 0x100 + q2 * 0x100;
    assert q2 == q2 % 0x100 + q3 * 0x100;
    assert q2 == key / 0x1_0000;
    assert q3 == key / 0x100_0000;
    assert q3 < 0x100;
  }

  /** Every id up to LastId survives the trip through its colour. */
  lemma IdColorRoundTrip(id: nat)
    requires id <= LastId
    ensures ColorToId(IdToColor(id)) == id
  {
    KeyOfBytes(id + 1);
  }

  /** Every colour other than the clear colour is the colour of the id it decodes to. */
  lemma ColorIdRoundTrip(c: Color)
    requires c != NullColor
    ensures IdToColor(ColorToId(c)) == c
  {
    var key := Key(c);
    assert key / 0x100 == c.b + c.g * 0x100 + c.r * 0x1_0000;
    assert key / 0x1_0000 == c.g + c.r * 0x100;
    assert key / 0x100_0000 == c.r;
  }

  /** Distinct ids are drawn in distinct colours. */
  lemma IdColorsDistinct(i: nat, j: nat)
    requires i <= LastId && j <= LastId && i != j
    ensures IdToColor(i) != IdToColor(j)
  {
    IdColorRoundTrip(i);
    IdColorRoundTrip(j);
  }

  /** The geometries of `polled` whose type has a mesh role, in the order they are polled. */
  function Registered(meshRoles: map<nat, nat>, polled: seq<(nat, nat)>): (r: seq<nat>)
    ensures |r| <= |polled|
  {
    if polled == [] then []
    else Registered(meshRoles, polled[..|polled| - 1])
         + (if polled[|polled| - 1].1 in meshRoles then [polled[|polled| - 1].0] else [])
  }

  /** Every geometry Registered keeps was polled with a registered type; the others are skipped. */
  lemma {:induction false} RegisteredKeeps(meshRoles: map<nat, nat>, polled: seq<(nat, nat)>, g: nat)
    ensures g in Registered(meshRoles, polled) <==> exists t :: (g, t) in polled && t in meshRoles
  {
    if polled != [] {
      var init := polled[..|polled| - 1];
      RegisteredKeeps(meshRoles, init, g);
      assert polled == init + [polled[|polled| - 1]];
      if exists t :: (g, t) in polled && t in meshRoles {
        var t :| (g, t) in polled && t in meshRoles;
        if (g, t) in init {
        } else {
          assert (g, t) == polled[|polled| - 1];
        }
      }
    }
  }

  /** The size of the off-screen framebuffer. */
  datatype FramebufferSize = FramebufferSize(width: nat, height: nat)

  /** The part of a viewport the stage reads: its left and top margins and its size. */
  datatype ViewportArea = ViewportArea(marginLeft: nat, marginTop: nat, width: nat, height: nat)

  class MeshColorCodingStage {
    var activationPassIndex: nat
    var meshRoles: map<nat, nat>
    var materialRoles: map<nat, nat>
    var geometryById: seq<nat>
    var nextId: nat
    /** The framebuffer's size once the first activated pass has created it. */
    var framebuffer: Option<FramebufferSize>
    var offsetX: nat
    var offsetY: nat

    /**
     * Ids run 0, 1, 2, ... in render order: the next id is the number of
     * geometries drawn, unless the last id has been handed out.
     */
    predicate Valid()
      reads this
    {
      nextId <= LastId
      && (nextId == |geometryById| || (nextId == LastId && |geometryById| == LastId + 1))
    }

    constructor()
      ensures Valid() && nextId == FirstId && geometryById == []
      ensures activationPassIndex == 0 && framebuffer.None?
      ensures meshRoles == map[] && materialRoles == map[]
    {
      activationPassIndex := 0;
      meshRoles := map[];
      materialRoles := map[];
      geometryById := [];
      nextId := FirstId;
      framebuffer := None;
      offsetX := 0;
      offsetY := 0;
    }

    method SetActivationPassIndex(index: nat)
      modifies this
      ensures activationPassIndex == index
      ensures meshRoles == old(meshRoles) && materialRoles == old(materialRoles)
      ensures geometryById == old(geometryById) && nextId == old(nextId) && framebuffer == old(framebuffer)
      ensures offsetX == old(offsetX) && offsetY == old(offsetY)
    {
      activationPassIndex := index;
    }

    /** putGeometryType: removes the type from both maps, then gives it the mesh role. */
    method PutGeometryType(geometryType: nat, meshRole: nat)
      modifies this
      ensures meshRoles == old(meshRoles)[geometryType := meshRole]
      ensures materialRoles == old(materialRoles) - {geometryType}
      ensures activationPassIndex == old(activationPassIndex)
      ensures geometryById == old(geometryById) && nextId == old(nextId) && framebuffer == old(framebuffer)
      ensures offsetX == old(offsetX) && offsetY == old(offsetY)
    {
      RemoveGeometryType(geometryType);
      meshRoles := meshRoles[geometryType := meshRole];
    }

    method EnableMaterials(geometryType: nat, materialRole: nat)
      modifies this
      ensures materialRoles == old(materialRoles)[geometryType := materialRole]
      ensures meshRoles == old(meshRoles) && activationPassIndex == old(activationPassIndex)
      ensures geometryById == old(geometryById) && nextId == old(nextId) && framebuffer == old(framebuffer)
      ensures offsetX == old(offsetX) && offsetY == old(offsetY)
    {
      materialRoles := materialRoles[geometryType := materialRole];
    }

    /** removeGeometryType: erases the type from both maps. */
    method RemoveGeometryType(geometryType: nat)
      modifies this
      ensures meshRoles == old(meshRoles) - {geometryType}
      ensures materialRoles == old(materialRoles) - {geometryType}
      ensures activationPassIndex == old(activationPassIndex)
      ensures geometryById == old(geometryById) && nextId == old(nextId) && framebuffer == old(framebuffer)
      ensures offsetX == old(offsetX) && offsetY == old(offsetY)
    {
      meshRoles := meshRoles - {geometryType};
      materialRoles := materialRoles - {geometryType};
    }

    method ClearGeometryTypes()
      modifies this
      ensures meshRoles == map[] && materialRoles == map[]
      ensures activationPassIndex == old(activationPassIndex)
      ensures geometryById == old(geometryById) && nextId == old(nextId) && framebuffer == old(framebuffer)
      ensures offsetX == old(offsetX) && offsetY == old(offsetY)
    {
      meshRoles := map[];
      materialRoles := map[];
    }

    /** reshape: a framebuffer that exists is recreated at the new size. */
    method Reshape(width: nat, height: nat)
      modifies this
      ensures framebuffer == if old(framebuffer).Some? then Some(FramebufferSize(width, height)) else None
      ensures meshRoles == old(meshRoles) && materialRoles == old(materialRoles)
      ensures activationPassIndex == old(activationPassIndex)
      ensures geometryById == old(geometryById) && nextId == old(nextId)
      ensures offsetX == old(offsetX) && offsetY == old(offsetY)
    {
      if framebuffer.Some? {
        framebuffer := Some(FramebufferSize(width, height));
      }
    }

    /**
     * render: a geometry of a registered type is drawn in the colour of the
     * next id and recorded under it; the id advances unless it is the last.
     * Geometries of other types are skipped. Returns the colour drawn.
     */
    method Render(geometry: nat, geometryType: nat) returns (drawn: Option<Color>)
      requires Valid()
      requires geometryType in meshRoles ==> nextId == |geometryById|
      modifies this
      ensures Valid()
      ensures geometryType !in meshRoles ==>
                drawn.None? && geometryById == old(geometryById) && nextId == old(nextId)
      ensures geometryType in meshRoles ==>
                drawn == Some(IdToColor(old(nextId))) && geometryById == old(geometryById) + [geometry]
                && nextId == if old(nextId) == LastId then LastId else old(nextId) + 1
      ensures meshRoles == old(meshRoles) && materialRoles == old(materialRoles)
      ensures activationPassIndex == old(activationPassIndex) && framebuffer == old(framebuffer)
      ensures offsetX == old(offsetX) && offsetY == old(offsetY)
    {
      drawn := None;
      if geometryType in meshRoles {
        drawn := Some(IdToColor(nextId));
        geometryById := geometryById + [geometry];
        if nextId != LastId {
          nextId := nextId + 1;
        }
      }
    }

    /**
     * renderPass: only in the activation pass, creates the framebuffer at the
     * viewport's size if there is none yet, takes the viewport's margins as
     * the picking offsets, restarts the ids at 0 and renders the polled
     * geometries, each given as (geometry, geometry type).
     */
    method RenderPass(renderedPasses: nat, vp: ViewportArea, polled: seq<(nat, nat)>)
      requires Valid()
      requires |Registered(meshRoles, polled)| <= LastId
      modifies this
      ensures Valid()
      ensures renderedPasses != activationPassIndex ==>
                geometryById == old(geometryById) && nextId == old(nextId) && framebuffer == old(framebuffer)
                && offsetX == old(offsetX) && offsetY == old(offsetY)
      ensures renderedPasses == activationPassIndex ==>
                geometryById == Registered(meshRoles, polled) && nextId == |geometryById|
                && framebuffer == (if old(framebuffer).None? then Some(FramebufferSize(vp.width, vp.height)) else old(framebuffer))
                && offsetX == vp.marginLeft && offsetY == vp.marginTop
      ensures meshRoles == old(meshRoles) && materialRoles == old(materialRoles)
      ensures activationPassIndex == old(activationPassIndex)
    {
      if renderedPasses == activationPassIndex {
        if framebuffer.None? {
          framebuffer := Some(FramebufferSize(vp.width, vp.height));
        }
        offsetX := vp.marginLeft;
        offsetY := vp.marginTop;
        nextId := FirstId;
        geometryById := [];
        RenderPolled(polled);
      }
    }

    /** The loop of renderPass over the polled geometries, starting from no ids drawn. */
    method RenderPolled(polled: seq<(nat, nat)>)
      requires Valid() && geometryById == [] && nextId == FirstId
      requires |Registered(meshRoles, polled)| <= LastId
      modifies this
      ensures Valid()
      ensures geometryById == Registered(meshRoles, polled) && nextId == |geometryById|
      ensures meshRoles == old(meshRoles) && materialRoles == old(materialRoles)
      ensures activationPassIndex == old(activationPassIndex) && framebuffer == old(framebuffer)
      ensures offsetX == old(offsetX) && offsetY == old(offsetY)
    {
      var i := 0;
      while i < |polled|
        invariant i <= |polled| && Valid()
        invariant geometryById == Registered(meshRoles, polled[..i]) && nextId == |geometryById| <= LastId
        invariant meshRoles == old(meshRoles) && materialRoles == old(materialRoles)
        invariant activationPassIndex == old(activationPassIndex) && framebuffer == old(framebuffer)
        invariant offsetX == old(offsetX) && offsetY == old(offsetY)
      {
        RegisteredPrefix(meshRoles, polled, i + 1);
        RegisteredGrows(meshRoles, polled, i + 1);
        var _ := Render(polled[i].0, polled[i].1);
        i := i + 1;
      }
      assert polled[..i] == polled;
    }

    /**
     * pick: the geometry drawn at window position (x, y), read from the
     * framebuffer row counted from the bottom; nothing before the first
     * activated pass, outside the viewport, or where the clear colour is
     * read. Asserts that a decoded id names a drawn geometry.
     */
    function Pick(x: nat, y: nat, pixel: (nat, nat) -> Color): (r: Option<nat>)
      reads this
      requires PickInRange(x, y, pixel)
      ensures framebuffer.None? || x < offsetX || y < offsetY ==> r.None?
      ensures r.Some? ==> r.value in geometryById
    {
      if framebuffer.None? || x < offsetX || y < offsetY then None
      else if x - offsetX >= framebuffer.value.width || y - offsetY >= framebuffer.value.height then None
      else
        var color := pixel(x - offsetX, framebuffer.value.height - 1 - (y - offsetY));
        if color == NullColor then None else Some(geometryById[ColorToId(color)])
    }

    /** The assertion in pick: a non-clear pixel inside the viewport decodes to a drawn id. */
    predicate PickInRange(x: nat, y: nat, pixel: (nat, nat) -> Color)
      reads this
    {
      framebuffer.Some? && offsetX <= x < offsetX + framebuffer.value.width
      && offsetY <= y < offsetY + framebuffer.value.height
      && pixel(x - offsetX, framebuffer.value.height - 1 - (y - offsetY)) != NullColor
      ==> ColorToId(pixel(x - offsetX, framebuffer.value.height - 1 - (y - offsetY))) < |geometryById|
    }
  }

  /** Taking one more polled geometry extends the registered ones by it if its type is registered. */
  lemma RegisteredPrefix(meshRoles: map<nat, nat>, polled: seq<(nat, nat)>, n: nat)
    requires 1 <= n <= |polled|
    ensures Registered(meshRoles, polled[..n]) ==
            Registered(meshRoles, polled[..n - 1]) + (if polled[n - 1].1 in meshRoles then [polled[n - 1].0] else [])
  {
    assert polled[..n][..n - 1] == polled[..n - 1];
  }

  /** A prefix of the polled geometries registers no more than all of them. */
  lemma {:induction false} RegisteredGrows(meshRoles: map<nat, nat>, polled: seq<(nat, nat)>, n: nat)
    requires n <= |polled|
    ensures |Registered(meshRoles, polled[..n])| <= |Registered(meshRoles, polled)|
  {
    if n < |polled| {
      RegisteredGrows(meshRoles, polled[..|polled| - 1], n);
      assert polled[..|polled| - 1][..n] == polled[..n];
    } else {
      assert polled[..n] == polled;
    }
  }

  /**
   * Picking inverts the colour coding: where the framebuffer holds the
   * colour of id i, pick returns the geometry rendered with id i.
   */
  lemma PickFindsDrawn(stage: MeshColorCodingStage, x: nat, y: nat, pixel: (nat, nat) -> Color, i: nat)
    requires stage.Valid() && i < |stage.geometryById|
    requires stage.framebuffer.Some?
    requires stage.offsetX <= x < stage.offsetX + stage.framebuffer.value.width
    requires stage.offsetY <= y < stage.offsetY + stage.framebuffer.value.height
    requires pixel(x - stage.offsetX, stage.framebuffer.value.height - 1 - (y - stage.offsetY)) == IdToColor(i)
    ensures stage.PickInRange(x, y, pixel)
    ensures stage.Pick(x, y, pixel) == Some(stage.geometryById[i])
  {
    IdColorRoundTrip(i);
  }
}
