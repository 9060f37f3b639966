/**
 * RenderState: a stack of OpenGL settings per context. A new render state
 * copies the settings of the current one and becomes current; its setters
 * are only allowed while it is current and hand a value to OpenGL only when
 * it differs from the stored one; destroying it restores the parent's
 * settings and pops it. The context records the settings OpenGL holds and
 * the sequence of settings handed to it.
 */
module RenderStates {
  import opened Wrappers

  datatype CullFace = CullNone | CullFront | CullBack

  datatype Settings = Settings(
    depthTest: bool, depthWrite: bool, depthTestFunction: int,
    blend: bool, blendSourceFactor: int, blendDestinationFactor: int, blendEquation: int,
    cullFace: CullFace, frontFaceCCW: bool)

  /** One setter call: which setting, with its new value. */
  datatype Setting =
    | DepthTest(enabled: bool)
    | DepthWrite(enabled: bool)
    | DepthTestFunction(comparison: int)
    | Blend(enabled: bool)
    | BlendFunction(sourceFactor: int, destinationFactor: int)
    | BlendEquation(equation: int)
    | Cull(face: CullFace)
    | FrontFace(ccw: bool)

  /** Whether `s` already holds the value `x` sets. */
  predicate Holds(s: Settings, x: Setting)
  {
    match x
    case DepthTest(b) => s.depthTest == b
    case DepthWrite(b) => s.depthWrite == b
    case DepthTestFunction(f) => s.depthTestFunction == f
    case Blend(b) => s.blend == b
    case BlendFunction(src, dst) => s.blendSourceFactor == src && s.blendDestinationFactor == dst
    case BlendEquation(e) => s.blendEquation == e
    case Cull(c) => s.cullFace == c
    case FrontFace(ccw) => s.frontFaceCCW == ccw
  }

  /** `s` with the setting `x` applied. */
  function With(s: Settings, x: Setting): (r: Settings)
    ensures Holds(r, x)
  {
    match x
    case DepthTest(b) => s.(depthTest := b)
    case DepthWrite(b) => s.(depthWrite := b)
    case DepthTestFunction(f) => s.(depthTestFunction := f)
    case Blend(b) => s.(blend := b)
    case BlendFunction(src, dst) => s.(blendSourceFactor := src, blendDestinationFactor := dst)
    case BlendEquation(e) => s.(blendEquation := e)
    case Cull(c) => s.(cullFace := c)
    case FrontFace(ccw) => s.(frontFaceCCW := ccw)
  }

  predicate SameKind(x: Setting, y: Setting)
  {
    (x.DepthTest? && y.DepthTest?) || (x.DepthWrite? && y.DepthWrite?)
    || (x.DepthTestFunction? && y.DepthTestFunction?) || (x.Blend? && y.Blend?)
    || (x.BlendFunction? && y.BlendFunction?) || (x.BlendEquation? && y.BlendEquation?)
    || (x.Cull? && y.Cull?) || (x.FrontFace? && y.FrontFace?)
  }

  /** Applying a setting keeps every setting of another kind. */
  lemma WithKeepsOthers(s: Settings, x: Setting, y: Setting)
    requires !SameKind(x, y) && Holds(s, y)
    ensures Holds(With(s, x), y)
  {
  }

  /** The settings of `p`, in the order the destructor restores them. */
  function AllOf(p: Settings): seq<Setting>
  {
    [DepthTest(p.depthTest), DepthWrite(p.depthWrite), DepthTestFunction(p.depthTestFunction),
     Blend(p.blend), BlendFunction(p.blendSourceFactor, p.blendDestinationFactor),
     BlendEquation(p.blendEquation), Cull(p.cullFace), FrontFace(p.frontFaceCCW)]
  }

  /** What a setter hands to OpenGL: the setting, unless `s` already holds it. */
  function CommitOf(s: Settings, x: Setting): (r: seq<Setting>)
    ensures r == [] || r == [x]
  {
    if Holds(s, x) then [] else [x]
  }

  /** An OpenGL context: its stack of render states, the settings OpenGL holds, and the settings handed to it. */
  class GLContext {
    var renderStates: seq<RenderState>
    var gl: Settings
    var commits: seq<Setting>

    constructor(gl: Settings)
      ensures renderStates == [] && this.gl == gl && commits == []
    {
      renderStates := [];
      this.gl := gl;
      commits := [];
    }
  }

  class RenderState {
    const parent: Option<RenderState>
    const glc: Option<GLContext>
    var settings: Settings

    /** createDefaultRenderState: a state of `glc` without a parent; its initial values come from the context. */
    constructor Default(glc: GLContext, initial: Settings)
      ensures parent.None? && this.glc == Some(glc) && settings == initial
    {
      parent := None;
      this.glc := Some(glc);
      settings := initial;
    }

    /** A new state: copies the current state's settings and becomes current. */
    constructor Push(glc: GLContext)
      requires glc.renderStates != []
      modifies glc
      ensures parent == Some(old(glc.renderStates[|glc.renderStates| - 1]))
      ensures this.glc == Some(glc)
      ensures settings == parent.value.settings
      ensures glc.renderStates == old(glc.renderStates) + [this]
      ensures glc.gl == old(glc.gl) && glc.commits == old(glc.commits)
    {
      var top := glc.renderStates[|glc.renderStates| - 1];
      parent := Some(top);
      this.glc := Some(glc);
      settings := top.settings;
      new;
      glc.renderStates := glc.renderStates + [this];
    }

    function Context(): set<object>
    {
      if glc.Some? then {glc.value} else {}
    }

    /**
     * isCurrent: asserts a context; the state on top of its stack is
     * current, and with an empty stack the state without a parent is.
     */
    predicate IsCurrent()
      requires glc.Some?
      reads this, Context()
    {
      if glc.value.renderStates == [] then parent.None?
      else glc.value.renderStates[|glc.value.renderStates| - 1] == this
    }

    /**
     * The setters: assert that this state is current, and store and commit
     * the value only when it differs from the stored one.
     */
    method Set(x: Setting)
      requires glc.Some? && IsCurrent()
      modifies this, glc.value
      ensures settings == With(old(settings), x)
      ensures glc.value.gl == if Holds(old(settings), x) then old(glc.value.gl) else With(old(glc.value.gl), x)
      ensures glc.value.commits == old(glc.value.commits) + CommitOf(old(settings), x)
      ensures old(glc.value.gl) == old(settings) ==> glc.value.gl == settings
      ensures glc.value.renderStates == old(glc.value.renderStates)
    {
      if !Holds(settings, x) {
        settings := With(settings, x);
        glc.value.gl := With(glc.value.gl, x);
        glc.value.commits := glc.value.commits + [x];
      } else {
        SameSettings(settings, x);
      }
    }

    /**
     * The destructor: a state with a parent restores the parent's settings
     * through its setters, each committing only a setting that differs, so
     * that OpenGL, if it held this state's settings, holds the parent's; then
     * it pops itself.
     */
    method Destroy()
      requires glc.Some? && (parent.Some? ==> IsCurrent())
      requires parent.Some? ==> parent.value != this
      modifies this, glc.value
      ensures parent.None? ==> settings == old(settings) && glc.value.renderStates == old(glc.value.renderStates)
      ensures parent.Some? ==>
                settings == parent.value.settings
                && (old(glc.value.gl) == old(settings) ==> glc.value.gl == settings)
                && glc.value.renderStates == old(glc.value.renderStates)[..|old(glc.value.renderStates)| - 1]
    {
      if parent.Some? {
        var p := parent.value.settings;
        Set(DepthTest(p.depthTest));
        Set(DepthWrite(p.depthWrite));
        Set(DepthTestFunction(p.depthTestFunction));
        Set(Blend(p.blend));
        Set(BlendFunction(p.blendSourceFactor, p.blendDestinationFactor));
        Set(BlendEquation(p.blendEquation));
        Set(Cull(p.cullFace));
        Set(FrontFace(p.frontFaceCCW));
        glc.value.renderStates := glc.value.renderStates[..|glc.value.renderStates| - 1];
      }
    }
  }

  /** A setting `s` already holds leaves `s` as it is. */
  lemma SameSettings(s: Settings, x: Setting)
    requires Holds(s, x)
    ensures With(s, x) == s
  {
  }
}
