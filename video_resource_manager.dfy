/**
 * VideoResourceManager: a geometry feature owning one resource in video
 * memory. The resource is created when the feature's acquisition count
 * becomes one and dropped when the last acquisition is released; the
 * created resource is identified by number, given by the caller.
 */
module VideoResourceManagers {
  import opened Wrappers

  class VideoResourceManager {
    /** The feature's acquisition count. */
    var acquisitions: nat
    var resource: Option<nat>
    /** How often createResource was called. */
    var created: nat

    /** The resource exists exactly while something is acquired. */
    predicate Valid()
      reads this
    {
      resource.Some? <==> acquisitions > 0
    }

    constructor()
      ensures Valid() && acquisitions == 0 && resource.None? && created == 0
    {
      acquisitions := 0;
      resource := None;
      created := 0;
    }

    /**
     * acquireVideoResource: counts the acquisition and, when it is the
     * first, asserts there is no resource yet and creates it.
     */
    method Acquire(newResource: nat)
      requires acquisitions == 0 ==> resource.None?
      modifies this
      ensures acquisitions == old(acquisitions) + 1
      ensures resource == if old(acquisitions) == 0 then Some(newResource) else old(resource)
      ensures created == old(created) + (if old(acquisitions) == 0 then 1 else 0)
      ensures old(Valid()) ==> Valid()
    {
      acquisitions := acquisitions + 1;
      if acquisitions == 1 {
        resource := Some(newResource);
        created := created + 1;
      }
    }

    /** releaseVideoResource: drops the resource when this is the last acquisition, then counts the release. */
    method Release()
      requires acquisitions > 0
      modifies this
      ensures acquisitions == old(acquisitions) - 1 && created == old(created)
      ensures resource == if old(acquisitions) == 1 then None else old(resource)
      ensures old(Valid()) ==> Valid()
    {
      if acquisitions == 1 {
        resource := None;
      }
      acquisitions := acquisitions - 1;
    }

    /** resource(): asserts the resource exists, which holds while something is acquired. */
    function Resource(): (r: nat)
      requires resource.Some?
      reads this
      ensures resource == Some(r)
    {
      resource.value
    }

    /** controlsSameVideoResource: no two managers share a resource. */
    function ControlsSameVideoResource(other: object): (r: bool)
      ensures !r
    {
      false
    }
  }
}
