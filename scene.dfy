/**
 * Scene: the data model of a visualization. It holds the volume's size and
 * voxel spacing, the recommended windowing and void threshold in Hounsfield
 * units, an optional volume mask and the list of 3D objects registered with
 * it. Changes of the objects are collected as event flags and posted
 * together once the event loop runs the timer started by the first of them.
 * Objects and masks are identified by number.
 */
module Scenes {
  import opened Wrappers
  import opened Lists

  /** The lowest and highest Hounsfield unit a recommendation may take. */
  const MIN_HUV: int := -1024
  const MAX_HUV: int := 3071

  predicate InHURange(v: int)
  {
    MIN_HUV <= v <= MAX_HUV
  }

  /** The defaults: level 4096 / 2 - 1024, width 4096 / 2, void threshold 0. */
  const DEFAULT_WINDOWING_LEVEL: int := 4096 / 2 - 1024
  const DEFAULT_WINDOWING_WIDTH: int := 4096 / 2
  const DEFAULT_VOID_THRESHOLD: int := 0

  /** The feature flags of a 3D object event; only existence is named by the scene. */
  datatype Feature = Existence | OtherFeature(bit: nat)

  datatype Signal = RecommendedVoidThresholdChanged | RecommendedWindowingChanged | VolumeMaskExchanged

  datatype Size = Size(x: nat, y: nat, z: nat)

  /** The checks of the scene's constructor. */
  predicate AcceptsVolume(size: Size, spacingX: real, spacingY: real, spacingZ: real)
  {
    size.x >= 2 && size.y >= 2 && size.z >= 2
    && spacingX > 0.0 && spacingY > 0.0 && spacingZ > 0.0
    && size.x % 2 == 0
  }

  class Scene {
    const size: Size
    const spacingX: real
    const spacingY: real
    const spacingZ: real
    var windowingLevel: int
    var windowingWidth: int
    var voidThreshold: int
    var mask: Option<nat>
    /** The registered 3D objects, in registration order. */
    var objects: seq<nat>
    /** The objects deleted by the scene's destructor, in order. */
    var deleted: seq<nat>
    /** Event flags waiting to be posted. */
    var scheduled: set<Feature>
    /** Timers started to post the scheduled flags that have not fired yet. */
    var pendingTimers: nat
    /** The flags posted by objectsChanged, in order. */
    var posted: seq<set<Feature>>
    /** The other signals emitted, in order. */
    var signals: seq<Signal>

    /**
     * The constructor's checks hold, the recommendations lie in the
     * Hounsfield range, no object is registered twice and waiting flags
     * always have a timer that will post them.
     */
    predicate Valid()
      reads this
    {
      AcceptsVolume(size, spacingX, spacingY, spacingZ)
      && InHURange(windowingLevel) && InHURange(windowingWidth) && InHURange(voidThreshold)
      && NoDuplicates(objects)
      && (scheduled != {} ==> pendingTimers > 0)
    }

    /** The constructor asserts the volume has at least two voxels and an even count along x, and positive spacings. */
    constructor(volumeSize: Size, sx: real, sy: real, sz: real)
      requires AcceptsVolume(volumeSize, sx, sy, sz)
      ensures Valid() && size == volumeSize && spacingX == sx && spacingY == sy && spacingZ == sz
      ensures windowingLevel == 1024 && windowingWidth == 2048 && voidThreshold == 0
      ensures mask.None? && objects == [] && deleted == [] && scheduled == {} && pendingTimers == 0
      ensures posted == [] && signals == []
    {
      size := volumeSize;
      spacingX, spacingY, spacingZ := sx, sy, sz;
      windowingLevel := DEFAULT_WINDOWING_LEVEL;
      windowingWidth := DEFAULT_WINDOWING_WIDTH;
      voidThreshold := DEFAULT_VOID_THRESHOLD;
      mask := None;
      objects := [];
      deleted := [];
      scheduled := {};
      pendingTimers := 0;
      posted := [];
      signals := [];
    }

    /** setRecommendedVoidThreshold: asserts the range and announces a change only when the value differs. */
    method SetRecommendedVoidThreshold(huv: int)
      requires InHURange(huv)
      modifies this
      ensures voidThreshold == huv
      ensures signals == old(signals) + (if huv != old(voidThreshold) then [RecommendedVoidThresholdChanged] else [])
      ensures windowingLevel == old(windowingLevel) && windowingWidth == old(windowingWidth) && mask == old(mask)
      ensures objects == old(objects) && deleted == old(deleted) && scheduled == old(scheduled)
      ensures pendingTimers == old(pendingTimers) && posted == old(posted)
      ensures old(Valid()) ==> Valid()
    {
      if huv != voidThreshold {
        voidThreshold := huv;
        signals := signals + [RecommendedVoidThresholdChanged];
      }
    }

    /** setRecommendedWindowingLevel: asserts the range and announces a change only when the value differs. */
    method SetRecommendedWindowingLevel(level: int)
      requires InHURange(level)
      modifies this
      ensures windowingLevel == level
      ensures signals == old(signals) + (if level != old(windowingLevel) then [RecommendedWindowingChanged] else [])
      ensures voidThreshold == old(voidThreshold) && windowingWidth == old(windowingWidth) && mask == old(mask)
      ensures objects == old(objects) && deleted == old(deleted) && scheduled == old(scheduled)
      ensures pendingTimers == old(pendingTimers) && posted == old(posted)
      ensures old(Valid()) ==> Valid()
    {
      if level != windowingLevel {
        windowingLevel := level;
        signals := signals + [RecommendedWindowingChanged];
      }
    }

    /** setRecommendedWindowingWidth: asserts the range and announces a change only when the value differs. */
    method SetRecommendedWindowingWidth(width: int)
      requires InHURange(width)
      modifies this
      ensures windowingWidth == width
      ensures signals == old(signals) + (if width != old(windowingWidth) then [RecommendedWindowingChanged] else [])
      ensures voidThreshold == old(voidThreshold) && windowingLevel == old(windowingLevel) && mask == old(mask)
      ensures objects == old(objects) && deleted == old(deleted) && scheduled == old(scheduled)
      ensures pendingTimers == old(pendingTimers) && posted == old(posted)
      ensures old(Valid()) ==> Valid()
    {
      if width != windowingWidth {
        windowingWidth := width;
        signals := signals + [RecommendedWindowingChanged];
      }
    }

    function RecommendedVoidThreshold(): (r: int)
      requires Valid()
      reads this
      ensures InHURange(r) && r == voidThreshold
    {
      voidThreshold
    }

    function RecommendedWindowingLevel(): (r: int)
      requires Valid()
      reads this
      ensures InHURange(r) && r == windowingLevel
    {
      windowingLevel
    }

    function RecommendedWindowingWidth(): (r: int)
      requires Valid()
      reads this
      ensures InHURange(r) && r == windowingWidth
    {
      windowingWidth
    }

    /** The spacings are positive, as the constructor asserts. */
    function Spacing(): (r: (real, real, real))
      requires Valid()
      reads this
      ensures r.0 > 0.0 && r.1 > 0.0 && r.2 > 0.0
      ensures r == (spacingX, spacingY, spacingZ)
    {
      (spacingX, spacingY, spacingZ)
    }

    function ObjectsCount(): (r: nat)
      reads this
      ensures r == |objects|
    {
      |objects|
    }

    /** objectByIndex: asserts the index is below the objects count. */
    function ObjectByIndex(index: nat): (r: nat)
      requires index < ObjectsCount()
      reads this
      ensures r in objects && r == objects[index]
    {
      objects[index]
    }

    /** setVolumeMask: exchanges the mask, or removes it when given none, and announces it. */
    method SetVolumeMask(newMask: Option<nat>)
      modifies this
      ensures mask == newMask && signals == old(signals) + [VolumeMaskExchanged]
      ensures voidThreshold == old(voidThreshold) && windowingLevel == old(windowingLevel)
      ensures windowingWidth == old(windowingWidth)
      ensures objects == old(objects) && deleted == old(deleted) && scheduled == old(scheduled)
      ensures pendingTimers == old(pendingTimers) && posted == old(posted)
      ensures old(Valid()) ==> Valid()
    {
      mask := newMask;
      signals := signals + [VolumeMaskExchanged];
    }

    /** removeVolumeMask: sets no mask. */
    method RemoveVolumeMask()
      modifies this
      ensures !HasVolumeMask() && signals == old(signals) + [VolumeMaskExchanged]
      ensures voidThreshold == old(voidThreshold) && windowingLevel == old(windowingLevel)
      ensures windowingWidth == old(windowingWidth)
      ensures objects == old(objects) && deleted == old(deleted) && scheduled == old(scheduled)
      ensures pendingTimers == old(pendingTimers) && posted == old(posted)
      ensures old(Valid()) ==> Valid()
    {
      SetVolumeMask(None);
    }

    function HasVolumeMask(): (r: bool)
      reads this
      ensures r <==> mask.Some?
    {
      mask.Some?
    }

    /** volumeMask(): asserts a mask is set. */
    function VolumeMask(): (r: nat)
      requires HasVolumeMask()
      reads this
      ensures mask == Some(r)
    {
      mask.value
    }

    /**
     * scheduleObject3DEvent: starts a timer when no flags are waiting, then
     * adds the event's flags to the waiting ones.
     */
    method ScheduleObject3DEvent(flags: set<Feature>)
      modifies this
      ensures scheduled == old(scheduled) + flags
      ensures pendingTimers == old(pendingTimers) + (if old(scheduled) == {} then 1 else 0)
      ensures voidThreshold == old(voidThreshold) && windowingLevel == old(windowingLevel)
      ensures windowingWidth == old(windowingWidth) && mask == old(mask)
      ensures objects == old(objects) && deleted == old(deleted) && posted == old(posted) && signals == old(signals)
      ensures old(Valid()) ==> Valid()
    {
      if scheduled == {} {
        pendingTimers := pendingTimers + 1;
      }
      scheduled := scheduled + flags;
    }

    /** postScheduledObject3DEvents: a started timer fires, posting the waiting flags and clearing them. */
    method PostScheduledObject3DEvents()
      requires pendingTimers > 0
      modifies this
      ensures posted == old(posted) + [old(scheduled)] && scheduled == {}
      ensures pendingTimers == old(pendingTimers) - 1
      ensures voidThreshold == old(voidThreshold) && windowingLevel == old(windowingLevel)
      ensures windowingWidth == old(windowingWidth) && mask == old(mask)
      ensures objects == old(objects) && deleted == old(deleted) && signals == old(signals)
      ensures old(Valid()) ==> Valid()
    {
      posted := posted + [scheduled];
      scheduled := {};
      pendingTimers := pendingTimers - 1;
    }

    /** A new 3D object registers itself with the scene and schedules an existence event. */
    method RegisterObject(obj: nat)
      requires obj !in objects
      modifies this
      ensures objects == old(objects) + [obj]
      ensures scheduled == old(scheduled) + {Existence}
      ensures pendingTimers == old(pendingTimers) + (if old(scheduled) == {} then 1 else 0)
      ensures voidThreshold == old(voidThreshold) && windowingLevel == old(windowingLevel)
      ensures windowingWidth == old(windowingWidth) && mask == old(mask)
      ensures deleted == old(deleted) && posted == old(posted) && signals == old(signals)
      ensures old(Valid()) ==> Valid()
    {
      objects := objects + [obj];
      ScheduleObject3DEvent({Existence});
    }

    /**
     * A deleted 3D object asserts it is registered, unregisters itself and
     * schedules an existence event.
     */
    method UnregisterObject(obj: nat)
      requires obj in objects
      modifies this
      ensures objects == RemoveFirst(old(objects), obj)
      ensures scheduled == old(scheduled) + {Existence}
      ensures pendingTimers == old(pendingTimers) + (if old(scheduled) == {} then 1 else 0)
      ensures voidThreshold == old(voidThreshold) && windowingLevel == old(windowingLevel)
      ensures windowingWidth == old(windowingWidth) && mask == old(mask)
      ensures deleted == old(deleted) && posted == old(posted) && signals == old(signals)
      ensures old(Valid()) ==> Valid() && obj !in objects
    {
      var i := 0;
      while objects[i] != obj
        invariant i < |objects| && obj in objects[i..] && obj !in objects[..i]
        decreases |objects| - i
      {
        assert objects[i..] == [objects[i]] + objects[i + 1..];
        assert objects[..i + 1] == objects[..i] + [objects[i]];
        i := i + 1;
      }
      RemoveFirstAt(objects, obj, i);
      if Valid() {
        RemoveFirstNoDuplicates(objects, obj);
      }
      objects := objects[..i] + objects[i + 1..];
      ScheduleObject3DEvent({Existence});
    }

    /** Deleting the front object, which unregisters itself. */
    method DeleteFront()
      requires Valid() && objects != []
      modifies this
      ensures Valid() && objects == old(objects)[1..] && deleted == old(deleted) + [old(objects)[0]]
      ensures Existence in scheduled
      ensures voidThreshold == old(voidThreshold) && windowingLevel == old(windowingLevel)
      ensures windowingWidth == old(windowingWidth) && mask == old(mask)
      ensures posted == old(posted) && signals == old(signals)
    {
      var front := objects[0];
      deleted := deleted + [front];
      RemoveFirstAt(objects, front, 0);
      UnregisterObject(front);
    }

    /** The destructor deletes the front object until none is left. */
    method Destroy()
      requires Valid()
      modifies this
      ensures Valid() && objects == [] && deleted == old(deleted) + old(objects)
      ensures voidThreshold == old(voidThreshold) && windowingLevel == old(windowingLevel)
      ensures windowingWidth == old(windowingWidth) && mask == old(mask)
      ensures posted == old(posted) && signals == old(signals)
      ensures old(objects) != [] ==> Existence in scheduled
    {
      while objects != []
        invariant Valid() && deleted + objects == old(deleted) + old(objects)
        invariant voidThreshold == old(voidThreshold) && windowingLevel == old(windowingLevel)
        invariant windowingWidth == old(windowingWidth) && mask == old(mask)
        invariant posted == old(posted) && signals == old(signals)
        invariant |objects| < |old(objects)| ==> Existence in scheduled
        decreases |objects|
      {
        ghost var before := objects;
        DeleteFront();
        assert before == [before[0]] + objects;
      }
    }
  }
}
