/** The ancestor relation over dot-separated route names and the classifier
    that gives a mounted route its role. Both generations of the route switch
    carry these three functions with the same text. */
module Routes {
  import opened Model

  /** `ancestor` is a strict ancestor of `descendant`: the descendant starts
      with the ancestor followed by a dot. */
  predicate IsAncestorRoute(ancestor: string, descendant: string)
    ensures IsAncestorRoute(ancestor, descendant) ==> StartsWith(descendant, ancestor) && |ancestor| < |descendant|
    ensures IsAncestorRoute(ancestor, descendant) ==> descendant[|ancestor|] == '.'
  {
    StartsWith(descendant, ancestor + ".")
  }

  lemma AncestorIsLonger(a: string, d: string)
    requires IsAncestorRoute(a, d)
    ensures |a| < |d|
    ensures d[..|a|] == a && d[|a|] == '.'
  {
    assert (a + ".")[..|a|] == a;
    assert d[..|a|] == (a + ".")[..|a|];
  }

  /** No route is its own ancestor. */
  lemma AncestorIrreflexive(a: string)
    ensures !IsAncestorRoute(a, a)
  {
    if IsAncestorRoute(a, a) {
      AncestorIsLonger(a, a);
    }
  }

  /** The ancestor relation never holds in both directions for one pair. */
  lemma AncestorAsymmetric(a: string, b: string)
    ensures !(IsAncestorRoute(a, b) && IsAncestorRoute(b, a))
  {
    if IsAncestorRoute(a, b) && IsAncestorRoute(b, a) {
      AncestorIsLonger(a, b);
      AncestorIsLonger(b, a);
    }
  }

  /** An ancestor of an ancestor is an ancestor. */
  lemma AncestorTransitive(a: string, b: string, c: string)
    requires IsAncestorRoute(a, b) && IsAncestorRoute(b, c)
    ensures IsAncestorRoute(a, c)
  {
    AncestorIsLonger(b, c);
    assert b <= c;
    assert a + "." <= b;
    assert (a + ".") <= c by {
      forall i | 0 <= i < |a + "."|
        ensures (a + ".")[i] == c[i]
      {
        assert (a + ".")[i] == b[i];
        assert b[i] == c[i];
      }
    }
  }

  /** The role of a mounted route while no transition involves it. */
  function GetIdleState(routeName: string, activeRouteName: string): (r: RouteTransitionState)
    ensures r == Head <==> routeName == activeRouteName
    ensures r == Stacked <==> routeName != activeRouteName
  {
    if routeName == activeRouteName then Head else Stacked
  }

  /** The in-motion role of a route during a transition from `previousRouteName`
      to `activeRouteName`; None (JavaScript `null`) for a route that is neither.
      The previous route is tested first, and the ancestor tests against the
      previous name are guarded by its truthiness, as in the source. */
  function GetTransitionState(routeName: string, activeRouteName: string, previousRouteName: Option<string>)
    : (r: Option<RouteTransitionState>)
    ensures r.Some? <==> (routeName == activeRouteName || Some(routeName) == previousRouteName)
    ensures r.Some? ==> IsMoving(r.value)
  {
    if Some(routeName) == previousRouteName then
      if IsAncestorRoute(activeRouteName, routeName) then Some(Popping)
      else if IsAncestorRoute(routeName, activeRouteName) then Some(Stacking)
      else Some(Abandoning)
    else if routeName == activeRouteName then
      if Truthy(previousRouteName) && IsAncestorRoute(previousRouteName.value, routeName) then Some(Pushing)
      else if Truthy(previousRouteName) && IsAncestorRoute(routeName, previousRouteName.value) then Some(Unstacking)
      else Some(Restoring)
    else None
  }

  /** The route being left: popping towards an ancestor, stacking under a
      descendant, abandoning otherwise. */
  lemma LeavingRouteRole(r: string, active: string)
    requires r != active
    ensures var t := GetTransitionState(r, active, Some(r));
      && (t == Some(Popping) <==> IsAncestorRoute(active, r))
      && (t == Some(Stacking) <==> IsAncestorRoute(r, active))
      && (t == Some(Abandoning) <==> !IsAncestorRoute(active, r) && !IsAncestorRoute(r, active))
  {
    AncestorAsymmetric(active, r);
  }

  /** The route being entered: pushing below the previous route, unstacking back
      to an ancestor of it, restoring otherwise (also with no previous route). */
  lemma EnteringRouteRole(r: string, previous: Option<string>)
    requires Some(r) != previous
    ensures var t := GetTransitionState(r, r, previous);
      && (t == Some(Pushing) <==> Truthy(previous) && IsAncestorRoute(previous.value, r))
      && (t == Some(Unstacking) <==> Truthy(previous) && IsAncestorRoute(r, previous.value))
      && (t == Some(Restoring) <==> !(Truthy(previous) && (IsAncestorRoute(previous.value, r) || IsAncestorRoute(r, previous.value))))
      && (previous.None? ==> t == Some(Restoring))
  {
    if Truthy(previous) {
      AncestorAsymmetric(r, previous.value);
    }
  }

  /** The two ends of one transition get mirrored roles: a push pairs with a
      stack, an unstack with a pop, a restore with an abandon. */
  lemma TransitionRolesMirror(a: string, b: string)
    requires a != b && b != ""
    ensures IsAncestorRoute(b, a) ==>
      GetTransitionState(a, a, Some(b)) == Some(Pushing) && GetTransitionState(b, a, Some(b)) == Some(Stacking)
    ensures IsAncestorRoute(a, b) ==>
      GetTransitionState(a, a, Some(b)) == Some(Unstacking) && GetTransitionState(b, a, Some(b)) == Some(Popping)
    ensures !IsAncestorRoute(a, b) && !IsAncestorRoute(b, a) ==>
      GetTransitionState(a, a, Some(b)) == Some(Restoring) && GetTransitionState(b, a, Some(b)) == Some(Abandoning)
  {
    AncestorAsymmetric(a, b);
  }
}
