/**
  * The screens of a revision session and their navigation routes, with the
  * lookup from a route back to its screen.
  */
module ReviseScreens {
  import opened Wrappers

  datatype ReviseScreen = Presenter | DragAndDrop {
    /** The navigation route the screen is registered under. */
    function Route(): string {
      match this
      case Presenter => "presenter"
      case DragAndDrop => "d-a-d"
    }
  }

  /** Every revise screen, in the order the lookup tries them. */
  const Screens: seq<ReviseScreen> := [Presenter, DragAndDrop]

  /** The first screen of `screens` with the given route, or `None` when no screen has it. */
  function FirstWithRoute(screens: seq<ReviseScreen>, route: string): Option<ReviseScreen> {
    if screens == [] then None
    else if screens[0].Route() == route then Some(screens[0])
    else FirstWithRoute(screens[1..], route)
  }

  /** A screen of the list is found when it has the route and no screen before it does. */
  predicate FirstMatchAt(screens: seq<ReviseScreen>, route: string, i: int) {
    0 <= i < |screens| && screens[i].Route() == route
    && forall j :: 0 <= j < i ==> screens[j].Route() != route
  }

  /**
    * The lookup finds nothing exactly when no screen has the route; otherwise
    * it returns the first screen in list order that has it.
    */
  lemma {:induction false} FirstWithRouteFinds(screens: seq<ReviseScreen>, route: string)
    ensures FirstWithRoute(screens, route).None? <==> forall i :: 0 <= i < |screens| ==> screens[i].Route() != route
    ensures forall i :: FirstMatchAt(screens, route, i) ==> FirstWithRoute(screens, route) == Some(screens[i])
  {
    if screens != [] && screens[0].Route() != route {
      var rest := screens[1..];
      FirstWithRouteFinds(rest, route);
      assert forall i :: 1 <= i < |screens| ==> screens[i] == rest[i - 1];
      forall i | FirstMatchAt(screens, route, i)
        ensures FirstMatchAt(rest, route, i - 1)
      {
        assert i > 0;
      }
    }
  }

  /** `getByRoute`: tries the screens in order and returns the first whose route matches. */
  method GetByRoute(route: string) returns (r: Option<ReviseScreen>)
    ensures r == FirstWithRoute(Screens, route)
  {
    for i := 0 to |Screens|
      invariant FirstWithRoute(Screens[i..], route) == FirstWithRoute(Screens, route)
    {
      if Screens[i].Route() == route {
        return Some(Screens[i]);
      }
      assert Screens[i..][1..] == Screens[i + 1..];
    }
    return None;
  }

  /** No two screens share a route. */
  lemma RoutesDistinct()
    ensures forall i, j :: 0 <= i < j < |Screens| ==> Screens[i].Route() != Screens[j].Route()
  {
  }

  /** Looking up a screen's own route gives that screen back. */
  lemma GetByRouteRoundTrip(screen: ReviseScreen)
    ensures FirstWithRoute(Screens, screen.Route()) == Some(screen)
  {
    RoutesDistinct();
    assert screen == Screens[if screen.Presenter? then 0 else 1];
  }

  lemma GetByRouteExamples()
    ensures FirstWithRoute(Screens, "presenter") == Some(Presenter)
    ensures FirstWithRoute(Screens, "d-a-d") == Some(DragAndDrop)
    ensures FirstWithRoute(Screens, "") == None
  {
    GetByRouteRoundTrip(Presenter);
    GetByRouteRoundTrip(DragAndDrop);
  }
}
