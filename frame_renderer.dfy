/**
 * FrameRenderer: an ordered sequence of render stages and the root viewport
 * of the frame. Rendering a frame reshapes every stage whose buffers may
 * be out of date and tells every stage, in insertion order, that a frame
 * begins; the stages themselves are identified by number and their
 * initialization state is the set `initialized`.
 */
module FrameRenderers {
  import opened Viewports

  /** What the render loop does to a stage. */
  datatype StageEvent = ReshapeStage(stage: nat) | PrepareFrame(stage: nat)

  /**
   * The events of one frame for `stages`: a stage is reshaped first when the
   * renderer was reshaped or the stage is not initialized, and then
   * prepared for the frame.
   */
  function FrameEvents(stages: seq<nat>, reshaped: bool, initialized: set<nat>): seq<StageEvent>
  {
    if stages == [] then []
    else StageEvents(stages[0], reshaped, initialized) + FrameEvents(stages[1..], reshaped, initialized)
  }

  /** The events of one stage in a frame. */
  function StageEvents(s: nat, reshaped: bool, initialized: set<nat>): seq<StageEvent>
  {
    if reshaped || s !in initialized then [ReshapeStage(s), PrepareFrame(s)] else [PrepareFrame(s)]
  }

  /** The events of the stages with one more stage appended: that stage's events come last. */
  lemma {:induction false} FrameEventsAppend(stages: seq<nat>, s: nat, reshaped: bool, initialized: set<nat>)
    ensures FrameEvents(stages + [s], reshaped, initialized)
            == FrameEvents(stages, reshaped, initialized) + StageEvents(s, reshaped, initialized)
  {
    if stages == [] {
      assert [] + [s] == [s];
    } else {
      assert (stages + [s])[0] == stages[0] && (stages + [s])[1..] == stages[1..] + [s];
      FrameEventsAppend(stages[1..], s, reshaped, initialized);
    }
  }

  /** The stages prepared by a sequence of events, in order. */
  function Prepared(events: seq<StageEvent>): seq<nat>
  {
    if events == [] then []
    else (if events[0].PrepareFrame? then [events[0].stage] else []) + Prepared(events[1..])
  }

  lemma {:induction false} PreparedAppend(a: seq<StageEvent>, b: seq<StageEvent>)
    ensures Prepared(a + b) == Prepared(a) + Prepared(b)
  {
    if a == [] {
      assert a + b == b;
    } else {
      assert (a + b)[0] == a[0] && (a + b)[1..] == a[1..] + b;
      PreparedAppend(a[1..], b);
    }
  }

  /** Every stage is prepared for the frame exactly once, in insertion order. */
  lemma {:induction false} EveryStagePrepared(stages: seq<nat>, reshaped: bool, initialized: set<nat>)
    ensures Prepared(FrameEvents(stages, reshaped, initialized)) == stages
  {
    if stages != [] {
      var s := stages[0];
      var head: seq<StageEvent> := if reshaped || s !in initialized then [ReshapeStage(s), PrepareFrame(s)] else [PrepareFrame(s)];
      PreparedAppend(head, FrameEvents(stages[1..], reshaped, initialized));
      EveryStagePrepared(stages[1..], reshaped, initialized);
      assert Prepared(head) == [s];
      assert stages == [s] + stages[1..];
    }
  }

  /**
   * A stage is reshaped in a frame exactly when it is one of the stages and
   * the renderer was reshaped or the stage was not initialized.
   */
  lemma {:induction false} ReshapedStages(stages: seq<nat>, reshaped: bool, initialized: set<nat>, s: nat)
    ensures ReshapeStage(s) in FrameEvents(stages, reshaped, initialized)
            <==> s in stages && (reshaped || s !in initialized)
  {
    if stages != [] {
      ReshapedStages(stages[1..], reshaped, initialized, s);
      assert s in stages <==> s == stages[0] || s in stages[1..];
    }
  }

  class FrameRenderer {
    var stages: seq<nat>
    var width: UInt
    var height: UInt
    var fitSquare: bool
    var reshaped: bool
    var viewport: Viewport
    /** The stages whose isInitialized holds. */
    var initialized: set<nat>
    /** The stages clearStages has deleted so far. */
    var deleted: seq<nat>

    /** The renderer starts reshaped, without stages, with a root viewport for the frame. */
    constructor(width: UInt, height: UInt, fitSquare: bool)
      ensures this.width == width && this.height == height && this.fitSquare == fitSquare
      ensures reshaped && stages == [] && initialized == {} && deleted == []
      ensures viewport.parent == Frame(width, height)
      ensures fitSquare ==> viewport.Rectangle() == Square(width, height)
      ensures !fitSquare ==> viewport.Rectangle() == Area(0, 0, width, height)
    {
      this.width := width;
      this.height := height;
      this.fitSquare := fitSquare;
      reshaped := true;
      stages := [];
      initialized := {};
      deleted := [];
      viewport := new Viewport.Root(width, height, fitSquare);
    }

    /** stages(): the number of stages. */
    function StageCount(): (n: nat)
      reads this
      ensures n == |stages|
    {
      |stages|
    }

    method AppendStage(stage: nat)
      modifies this
      ensures stages == old(stages) + [stage]
      ensures width == old(width) && height == old(height) && fitSquare == old(fitSquare)
      ensures reshaped == old(reshaped) && viewport == old(viewport)
      ensures initialized == old(initialized) && deleted == old(deleted)
    {
      stages := stages + [stage];
    }

    /** stageAt: the stage appended at `position`. */
    method StageAt(position: nat) returns (stage: nat)
      requires position < |stages|
      ensures stage == stages[position]
    {
      stage := stages[position];
    }

    /** clearStages: deletes every stage, in order, and empties the sequence. */
    method ClearStages()
      modifies this
      ensures stages == [] && deleted == old(deleted) + old(stages)
      ensures width == old(width) && height == old(height) && fitSquare == old(fitSquare)
      ensures reshaped == old(reshaped) && viewport == old(viewport) && initialized == old(initialized)
    {
      deleted := deleted + stages;
      stages := [];
    }

    /** reshape: new frame size and fitSquare, a new root viewport, and the reshaped flag set. */
    method Reshape(width: UInt, height: UInt, fitSquare: bool)
      modifies this
      ensures this.width == width && this.height == height && this.fitSquare == fitSquare && reshaped
      ensures fresh(viewport) && viewport.parent == Frame(width, height)
      ensures fitSquare ==> viewport.Rectangle() == Square(width, height)
      ensures !fitSquare ==> viewport.Rectangle() == Area(0, 0, width, height)
      ensures stages == old(stages) && initialized == old(initialized) && deleted == old(deleted)
    {
      this.width := width;
      this.height := height;
      this.fitSquare := fitSquare;
      viewport := new Viewport.Root(width, height, fitSquare);
      reshaped := true;
    }

    /** reshape keeping the current fitSquare. */
    method ReshapeKeepingFit(width: UInt, height: UInt)
      modifies this
      ensures this.width == width && this.height == height && fitSquare == old(fitSquare) && reshaped
      ensures fresh(viewport) && viewport.parent == Frame(width, height)
      ensures fitSquare ==> viewport.Rectangle() == Square(width, height)
      ensures !fitSquare ==> viewport.Rectangle() == Area(0, 0, width, height)
      ensures stages == old(stages) && initialized == old(initialized) && deleted == old(deleted)
    {
      Reshape(width, height, fitSquare);
    }

    /**
     * render: the stage loop of a frame. Returns what was done to the
     * stages; afterwards every stage is initialized and the reshaped flag
     * is cleared, so the next frame reshapes no stage unless the renderer
     * is reshaped again.
     */
    method Render() returns (events: seq<StageEvent>)
      modifies this
      ensures events == FrameEvents(stages, old(reshaped), old(initialized))
      ensures !reshaped && initialized == old(initialized) + set s | s in stages
      ensures stages == old(stages) && width == old(width) && height == old(height)
      ensures fitSquare == old(fitSquare) && viewport == old(viewport) && deleted == old(deleted)
    {
      events := StageLoop(stages, reshaped, initialized);
      initialized := initialized + set s | s in stages;
      reshaped := false;
    }
  }

  /** The loop over the stages in render. */
  method StageLoop(stages: seq<nat>, reshaped: bool, initialized: set<nat>) returns (events: seq<StageEvent>)
    ensures events == FrameEvents(stages, reshaped, initialized)
  {
    events := [];
    var i := 0;
    while i < |stages|
      invariant 0 <= i <= |stages|
      invariant events == FrameEvents(stages[..i], reshaped, initialized)
    {
      var s := stages[i];
      var stageEvents := if reshaped || s !in initialized then [ReshapeStage(s), PrepareFrame(s)] else [PrepareFrame(s)];
      FrameEventsAppend(stages[..i], s, reshaped, initialized);
      assert stages[..i + 1] == stages[..i] + [s];
      events := events + stageEvents;
      i := i + 1;
    }
    assert stages[..i] == stages;
  }

  /** After a frame, the next one reshapes no stage unless something was reshaped in between. */
  lemma SecondFrameReshapesNothing(stages: seq<nat>, initialized: set<nat>, s: nat)
    ensures ReshapeStage(s) !in FrameEvents(stages, false, initialized + (set t | t in stages))
  {
    ReshapedStages(stages, false, initialized + (set t | t in stages), s);
  }
}
