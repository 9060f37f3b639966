/**
 * Visualization: the module that binds a renderer to a rendering
 * environment. Callbacks registered before initialization are deferred and
 * invoked, in registration order, when the module is initialized; later
 * ones are invoked at once. Interaction events pass through a chain of
 * controller filters, the most recently added first, until one accepts the
 * event; an event no filter accepts reaches the raw controller. Renderers,
 * environments, callbacks, filters and controllers are identified by
 * number.
 */
module Visualizations {
  import opened Wrappers
  import opened Lists

  /** The strategy that receives an event: a controller filter or the raw controller. */
  datatype Handler = Filter(filter: nat) | RawController(controller: nat)

  class Visualization {
    var renderer: Option<nat>
    var environment: Option<nat>
    /** Callbacks waiting for initialization. */
    var callbacks: seq<nat>
    /** Callbacks invoked so far, in order. */
    var invoked: seq<nat>
    /** The controller filters, first to be asked first. */
    var filters: seq<nat>
    var controller: nat
    /** Controllers announced by controllerExchanged, in order. */
    var exchanged: seq<nat>
    /** Environments whose context was activated, in order. */
    var activations: seq<nat>
    /** Every callback passed to doAfterInitialization, in order. */
    ghost var registered: seq<nat>

    /**
     * Every registered callback was invoked or is waiting, in registration
     * order, and none waits once the module is initialized.
     */
    ghost predicate Valid()
      reads this
    {
      invoked + callbacks == registered
      && (renderer.Some? ==> callbacks == [] && environment.Some?)
    }

    constructor(initialController: nat)
      ensures Valid() && renderer.None? && environment.None?
      ensures callbacks == [] && invoked == [] && registered == []
      ensures filters == [] && controller == initialController
      ensures exchanged == [] && activations == []
    {
      renderer := None;
      environment := None;
      callbacks := [];
      invoked := [];
      filters := [];
      controller := initialController;
      exchanged := [];
      activations := [];
      registered := [];
    }

    /** The destructor activates the environment's context when there is one. */
    method Destroy()
      modifies this
      ensures activations == old(activations) + (if environment.Some? then [environment.value] else [])
      ensures renderer == old(renderer) && environment == old(environment)
      ensures callbacks == old(callbacks) && invoked == old(invoked) && registered == old(registered)
      ensures filters == old(filters) && controller == old(controller) && exchanged == old(exchanged)
    {
      if environment.Some? {
        activations := activations + [environment.value];
      }
    }

    function IsInitialized(): (r: bool)
      reads this
      ensures r <==> renderer.Some?
    {
      renderer.Some?
    }

    /** renderer(): asserts the module is initialized. */
    function Renderer(): (r: nat)
      requires renderer.Some?
      reads this
      ensures renderer == Some(r)
    {
      renderer.value
    }

    /** environment(): asserts the module has an environment. */
    function Environment(): (r: nat)
      requires environment.Some?
      reads this
      ensures environment == Some(r)
    {
      environment.value
    }

    /**
     * initialize: asserts the module is not yet initialized, activates the
     * environment's context, creates the renderer, then invokes the waiting
     * callbacks in order and forgets them.
     */
    method Initialize(env: nat, newRenderer: nat)
      requires renderer.None?
      modifies this
      ensures renderer == Some(newRenderer) && environment == Some(env)
      ensures activations == old(activations) + [env]
      ensures invoked == old(invoked) + old(callbacks) && callbacks == []
      ensures registered == old(registered)
      ensures filters == old(filters) && controller == old(controller) && exchanged == old(exchanged)
      ensures old(Valid()) ==> Valid() && invoked == registered
    {
      activations := activations + [env];
      environment := Some(env);
      renderer := Some(newRenderer);
      var i := 0;
      while i < |callbacks|
        invariant 0 <= i <= |callbacks|
        invariant callbacks == old(callbacks) && registered == old(registered)
        invariant invoked == old(invoked) + callbacks[..i]
        invariant renderer == Some(newRenderer) && environment == Some(env)
        invariant activations == old(activations) + [env]
        invariant filters == old(filters) && controller == old(controller) && exchanged == old(exchanged)
      {
        invoked := invoked + [callbacks[i]];
        i := i + 1;
      }
      assert callbacks[..i] == callbacks;
      callbacks := [];
    }

    /** doAfterInitialization: defers the callback until initialization, or invokes it when that is done. */
    method DoAfterInitialization(callback: nat)
      modifies this
      ensures registered == old(registered) + [callback]
      ensures callbacks == old(callbacks) + (if renderer.None? then [callback] else [])
      ensures invoked == old(invoked) + (if renderer.None? then [] else [callback])
      ensures renderer == old(renderer) && environment == old(environment) && activations == old(activations)
      ensures filters == old(filters) && controller == old(controller) && exchanged == old(exchanged)
      ensures old(Valid()) ==> Valid()
    {
      registered := registered + [callback];
      if renderer.None? {
        callbacks := callbacks + [callback];
      } else {
        invoked := invoked + [callback];
      }
    }

    /** setController: replaces the raw controller and announces the new one. */
    method SetController(newController: nat)
      modifies this
      ensures controller == newController && exchanged == old(exchanged) + [newController]
      ensures filters == old(filters) && renderer == old(renderer) && environment == old(environment)
      ensures callbacks == old(callbacks) && invoked == old(invoked) && registered == old(registered)
      ensures activations == old(activations)
    {
      controller := newController;
      exchanged := exchanged + [newController];
    }

    /** addControllerFilter: the new filter is asked first. */
    method AddControllerFilter(filter: nat)
      modifies this
      ensures filters == [filter] + old(filters)
      ensures controller == old(controller) && exchanged == old(exchanged)
      ensures renderer == old(renderer) && environment == old(environment) && activations == old(activations)
      ensures callbacks == old(callbacks) && invoked == old(invoked) && registered == old(registered)
    {
      filters := [filter] + filters;
    }

    /** removeControllerFilter: asserts the filter is present and erases its first occurrence. */
    method RemoveControllerFilter(filter: nat)
      requires filter in filters
      modifies this
      ensures filters == RemoveFirst(old(filters), filter)
      ensures controller == old(controller) && exchanged == old(exchanged)
      ensures renderer == old(renderer) && environment == old(environment) && activations == old(activations)
      ensures callbacks == old(callbacks) && invoked == old(invoked) && registered == old(registered)
    {
      var i := 0;
      while filters[i] != filter
        invariant 0 <= i < |filters| && filter in filters[i..] && filter !in filters[..i]
        decreases |filters| - i
      {
        assert filters[i..] == [filters[i]] + filters[i + 1..];
        assert filters[..i + 1] == filters[..i] + [filters[i]];
        i := i + 1;
      }
      RemoveFirstAt(filters, filter, i);
      filters := filters[..i] + filters[i + 1..];
    }

    /**
     * The filtering controller's event handling: each filter is asked in
     * turn until one accepts the event; when none does, the raw controller
     * receives it. `accepts` says which filters accept this event.
     */
    method Event(accepts: nat -> bool) returns (calls: seq<Handler>)
      ensures 1 <= |calls| <= |filters| + 1
      ensures forall i :: 0 <= i < |calls| - 1 ==> calls[i] == Filter(filters[i]) && !accepts(filters[i])
      ensures |calls| - 1 < |filters| ==>
                calls[|calls| - 1] == Filter(filters[|calls| - 1]) && accepts(filters[|calls| - 1])
      ensures |calls| - 1 == |filters| ==> calls[|calls| - 1] == RawController(controller)
      ensures calls[|calls| - 1] == RawController(controller) <==> forall f :: f in filters ==> !accepts(f)
    {
      calls := [];
      var i := 0;
      while i < |filters|
        invariant 0 <= i <= |filters| && |calls| == i
        invariant forall j :: 0 <= j < i ==> calls[j] == Filter(filters[j]) && !accepts(filters[j])
      {
        calls := calls + [Filter(filters[i])];
        if accepts(filters[i]) {
          return;
        }
        i := i + 1;
      }
      calls := calls + [RawController(controller)];
      assert forall f :: f in filters ==> !accepts(f) by {
        forall f | f in filters
          ensures !accepts(f)
        {
          var j :| 0 <= j < |filters| && filters[j] == f;
          assert calls[j] == Filter(filters[j]);
        }
      }
    }
  }
}
