/**
 * The app's routes: the twelve route constants, the meal-detail route
 * builder, the start destination chosen at launch and the routes that show
 * the bottom navigation bar.
 */
module Navigation {
  import opened Common

  const ROOT := "root_graph"
  const LOGIN := "login"
  const SIGNUP := "sign_up"
  const TUTORIAL := "tutorial_graph"
  const INVENTORY := "inventory_graph"
  const MEALS := "meals_graph"
  /** The detail route template; "{mealId}" is its path argument. */
  const MEALS_DETAIL := "meals_detail/{mealId}"
  const GROCERY := "grocery_graph"
  const PROFILE := "profile_graph"
  const ABOUT := "about"
  const HELP_CENTER := "help"
  const ADD_NEW_ITEM := "add_new_item"

  const ALL_ROUTES: seq<string> :=
    [ROOT, LOGIN, SIGNUP, TUTORIAL, INVENTORY, MEALS, MEALS_DETAIL, GROCERY, PROFILE, ABOUT, HELP_CENTER, ADD_NEW_ITEM]

  /** The part of the template before its argument. */
  const MEALS_DETAIL_PREFIX := "meals_detail/"

  /** The twelve route constants are pairwise different. */
  lemma RoutesDistinct()
    ensures forall i, j :: 0 <= i < j < |ALL_ROUTES| ==> ALL_ROUTES[i] != ALL_ROUTES[j]
  {
    assert GROCERY[0] != PROFILE[0];
    assert LOGIN[0] != ABOUT[0];
  }

  /** mealDetailRoute(mealId): the template with the argument filled in. */
  function MealDetailRoute(mealId: string): (route: string)
    ensures |route| == |MEALS_DETAIL_PREFIX| + |mealId|
    ensures route[..|MEALS_DETAIL_PREFIX|] == MEALS_DETAIL_PREFIX && route[|MEALS_DETAIL_PREFIX|..] == mealId
  {
    MEALS_DETAIL_PREFIX + mealId
  }

  /**
   * The meal id a detail route carries: the inverse of MealDetailRoute used
   * to state the round trip. It reads everything after the prefix, "/"
   * included, so it is not the navigation library's argument matching.
   */
  function MealIdOf(route: string): (mealId: Option<string>)
    ensures mealId.Some? <==> |route| >= |MEALS_DETAIL_PREFIX| && route[..|MEALS_DETAIL_PREFIX|] == MEALS_DETAIL_PREFIX
  {
    if |route| >= |MEALS_DETAIL_PREFIX| && route[..|MEALS_DETAIL_PREFIX|] == MEALS_DETAIL_PREFIX
    then Some(route[|MEALS_DETAIL_PREFIX|..])
    else None
  }

  /** Reading the id back from a built route gives the id, and every detail route is built from its id. */
  lemma MealIdRoundTrip(mealId: string, route: string)
    ensures MealIdOf(MealDetailRoute(mealId)) == Some(mealId)
    ensures MealIdOf(route).Some? ==> MealDetailRoute(MealIdOf(route).value) == route
  {
    if MealIdOf(route).Some? {
      assert route == route[..|MEALS_DETAIL_PREFIX|] + route[|MEALS_DETAIL_PREFIX|..];
    }
  }

  /** Different meals get different routes. */
  lemma MealDetailRouteInjective(a: string, b: string)
    ensures MealDetailRoute(a) == MealDetailRoute(b) ==> a == b
  {
    MealIdRoundTrip(a, "");
    MealIdRoundTrip(b, "");
  }

  /** Every detail route starts like the template. */
  lemma DetailRoutesShareTemplatePrefix(mealId: string)
    ensures MEALS_DETAIL[..|MEALS_DETAIL_PREFIX|] == MEALS_DETAIL_PREFIX
    ensures MealDetailRoute(mealId)[..|MEALS_DETAIL_PREFIX|] == MEALS_DETAIL[..|MEALS_DETAIL_PREFIX|]
  {
    assert MEALS_DETAIL == MEALS_DETAIL_PREFIX + "{mealId}";
  }

  /** A built detail route equals a route constant only for the literal id "{mealId}", and then it is the template. */
  lemma DetailRouteCollisions(mealId: string)
    ensures MealDetailRoute(mealId) in ALL_ROUTES <==> mealId == "{mealId}"
    ensures mealId == "{mealId}" ==> MealDetailRoute(mealId) == MEALS_DETAIL
  {
    var route := MealDetailRoute(mealId);
    assert MEALS_DETAIL == MEALS_DETAIL_PREFIX + "{mealId}";
    forall c | c in ALL_ROUTES && c != MEALS_DETAIL
      ensures MealIdOf(c).None?
    {
      assert |c| < |MEALS_DETAIL_PREFIX| || c[0] != 'm';
    }
    MealIdRoundTrip(mealId, route);
    MealIdRoundTrip("{mealId}", MEALS_DETAIL);
    if route in ALL_ROUTES {
      MealDetailRouteInjective(mealId, "{mealId}");
    }
  }

  /** The start destination: the tutorial until it has been shown, then the inventory or the login screen. */
  function StartDestination(hasShownTutorial: bool, isLoggedIn: bool): (route: string)
    ensures route in {TUTORIAL, INVENTORY, LOGIN}
  {
    if !hasShownTutorial then TUTORIAL
    else if isLoggedIn then INVENTORY
    else LOGIN
  }

  /** Each start destination corresponds to exactly one combination of the two flags. */
  lemma StartDestinationSpec(hasShownTutorial: bool, isLoggedIn: bool)
    ensures StartDestination(hasShownTutorial, isLoggedIn) == TUTORIAL <==> !hasShownTutorial
    ensures StartDestination(hasShownTutorial, isLoggedIn) == INVENTORY <==> hasShownTutorial && isLoggedIn
    ensures StartDestination(hasShownTutorial, isLoggedIn) == LOGIN <==> hasShownTutorial && !isLoggedIn
  {
    RoutesDistinct();
    assert ALL_ROUTES[1] == LOGIN && ALL_ROUTES[3] == TUTORIAL && ALL_ROUTES[4] == INVENTORY;
  }

  /** The routes whose screens carry the bottom bar. */
  const BOTTOM_BAR_ROUTES: seq<string> := [INVENTORY, MEALS, GROCERY, PROFILE]

  /** The bottom bar shows iff the current route (null before the first destination) is one of four. */
  predicate BottomBarVisible(currentRoute: Option<string>)
    ensures BottomBarVisible(currentRoute) ==> currentRoute.Some? && currentRoute.value in ALL_ROUTES
    ensures BottomBarVisible(currentRoute) ==> MealIdOf(currentRoute.value).None?
  {
    assert forall c :: c in BOTTOM_BAR_ROUTES ==> |c| < |MEALS_DETAIL_PREFIX| || c[0] != 'm';
    currentRoute.Some? && currentRoute.value in BOTTOM_BAR_ROUTES
  }

  /** Detail, sign-in, tutorial and add-item screens have no bottom bar. */
  lemma BottomBarHidden(mealId: string)
    ensures !BottomBarVisible(None)
    ensures !BottomBarVisible(Some(MealDetailRoute(mealId)))
    ensures !BottomBarVisible(Some(LOGIN)) && !BottomBarVisible(Some(SIGNUP))
    ensures !BottomBarVisible(Some(TUTORIAL)) && !BottomBarVisible(Some(ADD_NEW_ITEM))
  {
    RoutesDistinct();
    forall c | c in BOTTOM_BAR_ROUTES ensures MealIdOf(c).None? {
      assert c[0] != 'm' || |c| < |MEALS_DETAIL_PREFIX|;
    }
    MealIdRoundTrip(mealId, "");
  }
}
