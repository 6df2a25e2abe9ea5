/**
 * Navigation helpers (Navigation.kt): a destination-changed listener that runs its action once,
 * on the first change away from the destination it was created on, and then deregisters itself;
 * and a guard that yields the controller only while it shows an expected destination.
 */
module Navigation {
  import opened Wrappers

  /** A destination of the navigation graph. */
  datatype NavDestination = NavDestination(id: int, name: string)

  /** The arguments handed along with a destination change. */
  datatype Bundle = Bundle(entries: map<string, string>)

  /** The first occurrence of `x` taken out of `s`, as `List.remove` does. */
  function RemoveFirst<T(==)>(s: seq<T>, x: T): (r: seq<T>)
    ensures x !in s ==> r == s
    ensures x in s ==> |r| == |s| - 1 && multiset(r) == multiset(s) - multiset{x}
  {
    if s == [] then []
    else
      assert s == [s[0]] + s[1..];
      if s[0] == x then s[1..] else [s[0]] + RemoveFirst(s[1..], x)
  }

  /** The navigation controller, as far as these helpers see it: where it is, and who listens. */
  class NavController {
    var currentDestination: Option<NavDestination>
    var listeners: seq<OneShotDestinationChangedListener>

    constructor (start: Option<NavDestination>)
      ensures currentDestination == start && listeners == []
    {
      currentDestination := start;
      listeners := [];
    }

    method AddOnDestinationChangedListener(l: OneShotDestinationChangedListener)
      modifies this`listeners
      ensures listeners == old(listeners) + [l]
    {
      listeners := listeners + [l];
    }

    method RemoveOnDestinationChangedListener(l: OneShotDestinationChangedListener)
      modifies this`listeners
      ensures listeners == RemoveFirst(old(listeners), l)
    {
      listeners := RemoveFirst(listeners, l);
    }

    /** `checkCurrentDestination`: this controller when its current destination has the expected id, else null. */
    function CheckCurrentDestination(expectedCurrentDestinationId: int): (r: Option<NavController>)
      reads this
      ensures r.Some? <==> currentDestination.Some? && currentDestination.value.id == expectedCurrentDestinationId
      ensures r.Some? ==> r.value == this
    {
      if currentDestination.Some? && currentDestination.value.id == expectedCurrentDestinationId then Some(this)
      else None
    }

    /** `addOnExitListener`: registers one new listener bound to the current destination. */
    method AddOnExitListener() returns (l: OneShotDestinationChangedListener)
      modifies this`listeners
      ensures fresh(l)
      ensures listeners == old(listeners) + [l]
      ensures l.callerDestination == currentDestination && l.actionCalls == []
      ensures l.OneShot(this)
    {
      l := new OneShotDestinationChangedListener(this);
      AddOnDestinationChangedListener(l);
      assert listeners[..|listeners| - 1] == old(listeners);
      CountAppendFresh(old(listeners), l);
    }
  }

  /** How often `x` occurs in `s`. */
  function Count<T(==)>(s: seq<T>, x: T): nat
  {
    multiset(s)[x]
  }

  /** A fresh object appended once occurs exactly once. */
  lemma CountAppendFresh<T>(s: seq<T>, x: T)
    requires x !in s
    ensures Count(s + [x], x) == 1
  {
    assert multiset(s + [x]) == multiset(s) + multiset{x};
  }

  /** One run of the listener's action: the controller, destination and arguments it was given, and
    * the listeners registered with the controller at that moment. */
  datatype ActionCall = ActionCall(
    controller: NavController, destination: NavDestination, arguments: Option<Bundle>,
    registeredListeners: seq<OneShotDestinationChangedListener>)

  /** `OneShotDestinationChangedListener`: remembers the destination current at its creation; the
    * action's runs are recorded in `actionCalls`. */
  class OneShotDestinationChangedListener {
    const callerDestination: Option<NavDestination>
    var actionCalls: seq<ActionCall>

    constructor (navController: NavController)
      ensures callerDestination == navController.currentDestination && actionCalls == []
    {
      callerDestination := navController.currentDestination;
      actionCalls := [];
    }

    /** At most one run of the action, and none once the listener is no longer registered more than once;
      * after the run the listener is gone from `controller`. */
    ghost predicate OneShot(controller: NavController)
      reads this, controller
    {
      && Count(controller.listeners, this) <= 1
      && |actionCalls| <= 1
      && (|actionCalls| == 1 ==> this !in controller.listeners)
    }

    /** `onDestinationChanged`: a change to the remembered destination does nothing; a change
      * anywhere else first deregisters the listener, then runs the action once. */
    method OnDestinationChanged(controller: NavController, destination: NavDestination, arguments: Option<Bundle>)
      modifies this`actionCalls, controller`listeners
      ensures Some(destination) == callerDestination ==>
        actionCalls == old(actionCalls) && controller.listeners == old(controller.listeners)
      ensures Some(destination) != callerDestination ==>
        && controller.listeners == RemoveFirst(old(controller.listeners), this)
        && actionCalls == old(actionCalls) + [ActionCall(controller, destination, arguments, controller.listeners)]
      ensures old(OneShot(controller)) && old(this in controller.listeners) ==> OneShot(controller)
    {
      if Some(destination) != callerDestination {
        controller.RemoveOnDestinationChangedListener(this);
        actionCalls := actionCalls + [ActionCall(controller, destination, arguments, controller.listeners)];
      }
    }
  }

  /** A caller registers an exit listener; the controller reports the caller's own destination, then
    * another one: the action runs on the departure only, and by then the listener is no longer
    * registered, so a controller that notifies registered listeners only never runs it again. */
  method ExitListenerRunsOnce(start: NavDestination, next: NavDestination, args: Option<Bundle>)
    returns (calls: seq<ActionCall>, remaining: seq<OneShotDestinationChangedListener>)
    requires next != start
    ensures |calls| == 1 && calls[0].destination == next && calls[0].arguments == args
    ensures calls[0].registeredListeners == [] && remaining == []
  {
    var controller := new NavController(Some(start));
    var l := controller.AddOnExitListener();
    l.OnDestinationChanged(controller, start, args);
    assert l.actionCalls == [] && controller.listeners == [l];
    l.OnDestinationChanged(controller, next, args);
    calls, remaining := l.actionCalls, controller.listeners;
  }
}
