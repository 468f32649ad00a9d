/** The route switch of the older generation: routes are declared by a `name`
    and an explicit `partial` flag. The switch stores the declared name as the
    previous and last route but the router's concrete route name as the active
    one, and its render compares declared names against that concrete name. */
module LegacyRouteSwitch {
  import opened Model
  import opened Routes
  import Mounting
  import opened TransitionDriver
  import PackageRouteSwitch

  /** A child of the switch: a `<Route name partial keepMounted>`, another
      element, or a string or number child. */
  datatype Child = Route(name: string, partial: bool, keepMounted: Mounting.KeepMountedProp) | NonRoute | Text

  datatype SwitchError =
    | NonRouteChild     // '<RouteSwitch> accepts only <Route> as children'
    | NullRouteState    // the handler reads `routeState.name` of a null emission
    | TextChildProps    // the render reads `props.name` of a string or number child

  /** `isRouteMatching(test, pattern, partial)`: a match is the name itself or,
      for a partial name only, something that starts with it. */
  predicate IsRouteMatching(test: string, pattern: string, partial: bool)
    ensures IsRouteMatching(test, pattern, partial) ==> StartsWith(test, pattern)
    ensures !partial ==> (IsRouteMatching(test, pattern, partial) <==> test == pattern)
  {
    pattern == test || (partial && StartsWith(test, pattern + "."))
  }

  /** A partial name matches itself and its descendants, an exact one only itself. */
  lemma PartialMatching(test: string, pattern: string, partial: bool)
    ensures IsRouteMatching(test, pattern, partial) <==> test == pattern || (partial && IsAncestorRoute(pattern, test))
  {
  }

  /** The two generations' matchers agree: a newer pattern is an older name (its
      base) with the `partial` flag set iff the pattern ends in `*`, and an
      older partial name `n` is the newer pattern `n*`. */
  lemma MatchingGenerationsAgree(test: string, pattern: string, name: string)
    ensures PackageRouteSwitch.IsRouteMatching(test, pattern) <==>
      IsRouteMatching(test, PackageRouteSwitch.PatternBase(pattern), PackageRouteSwitch.IsPartialPattern(pattern))
    ensures IsRouteMatching(test, name, true) <==> PackageRouteSwitch.IsRouteMatching(test, name + "*")
  {
    PackageRouteSwitch.WildcardMatching(name, test);
  }

  /** Whether a child stops the search for `name`: it is not a route, or it matches. */
  predicate Stops(c: Child, name: string) {
    !c.Route? || IsRouteMatching(name, c.name, c.partial)
  }

  /** The index at which `.find` stops, `|children|` if it runs through. */
  function FirstStop(name: string, children: seq<Child>): (k: nat)
    ensures k <= |children|
    ensures forall j :: 0 <= j < k ==> !Stops(children[j], name)
    ensures k < |children| ==> Stops(children[k], name)
  {
    if children == [] then 0
    else if Stops(children[0], name) then 0
    else 1 + FirstStop(name, children[1..])
  }

  /** `findDefinedRouteName`: the declared name of the first child that matches
      under its own `partial` flag; an error when a non-route child comes first. */
  function FindDefinedRouteName(name: string, children: seq<Child>): (r: Result<Option<string>, SwitchError>)
    ensures var k := FirstStop(name, children);
      && (k == |children| ==> r == Ok(None))
      && (k < |children| && !children[k].Route? ==> r == Err(NonRouteChild))
      && (k < |children| && children[k].Route? ==> r == Ok(Some(children[k].name)))
  {
    if children == [] then Ok(None)
    else match children[0]
      case Route(n, partial, _) =>
        if IsRouteMatching(name, n, partial) then Ok(Some(n))
        else FindDefinedRouteName(name, children[1..])
      case _ => Err(NonRouteChild)
  }

  /** `activeRouteName` (a concrete route name), `previousRouteName` and
      `lastActiveRouteNameRef.current` (declared names), and `dataMap` (keyed by
      declared name). */
  datatype Status = Status(
    active: Option<string>,
    previous: Option<string>,
    last: Option<string>,
    dataMap: map<string, RouteState>)

  datatype Update = Update(status: Status, raise: bool)

  /** The initial status: the declared name matching the current route is both
      active and last. */
  function InitialStatus(children: seq<Child>, current: Option<RouteState>): (r: Result<Status, SwitchError>)
    ensures r.Ok? ==> r.value.active == r.value.last && r.value.previous.None? && r.value.dataMap == map[]
  {
    if current.None? then Ok(Status(None, None, None, map[]))
    else match FindDefinedRouteName(current.value.name, children)
      case Err(e) => Err(e)
      case Ok(found) => Ok(Status(found, None, found, map[]))
  }

  /** The subscription's `next` handler for one emission. A null emission
      throws; otherwise the handler fails exactly when the search fails, no
      stored data is ever dropped, and a raise always comes with the old last
      declared name moved to `previous`. */
  function Next(s: Status, children: seq<Child>, emitted: Option<RouteState>): (r: Result<Update, SwitchError>)
    ensures emitted.None? ==> r == Err(NullRouteState)
    ensures emitted.Some? ==> (r.Err? <==> FindDefinedRouteName(emitted.value.name, children).Err?)
    ensures r.Ok? ==> s.dataMap.Keys <= r.value.status.dataMap.Keys
    ensures r.Ok? && r.value.raise ==> Truthy(s.last) && r.value.status.previous == s.last && r.value.status.last != s.last
  {
    if emitted.None? then Err(NullRouteState)
    else match FindDefinedRouteName(emitted.value.name, children)
      case Err(e) => Err(e)
      case Ok(found) =>
        if !Truthy(found) then Ok(Update(s.(active := None), false))
        else
          var defined := found.value;
          var changed := s.last != Some(defined);
          var s1 := if changed then s.(previous := s.last, active := Some(emitted.value.name), last := Some(defined)) else s;
          Ok(Update(s1.(dataMap := s1.dataMap[defined := emitted.value]), changed && Truthy(s.last)))
  }

  /** An emission first matched by child `i`: the child's declared name becomes
      the last route and keys the stored data. When it differs from the last
      declared name, the active route becomes the emitted concrete name, the old
      last declared name becomes previous, and a transition starts iff that old
      name was truthy; otherwise nothing but the data changes. */
  lemma EmissionMatchingChild(s: Status, children: seq<Child>, rs: RouteState, i: nat)
    requires i < |children| && children[i].Route? && IsRouteMatching(rs.name, children[i].name, children[i].partial)
    requires children[i].name != ""
    requires forall j :: 0 <= j < i ==> !Stops(children[j], rs.name)
    ensures var n := children[i].name;
      && Next(s, children, Some(rs)).Ok?
      && var u := Next(s, children, Some(rs)).value;
      && u.status.last == Some(n)
      && u.status.dataMap == s.dataMap[n := rs]
      && (s.last != Some(n) ==> u.status.active == Some(rs.name) && u.status.previous == s.last && (u.raise <==> Truthy(s.last)))
      && (s.last == Some(n) ==> u.status.active == s.active && u.status.previous == s.previous && !u.raise)
  {
    assert FirstStop(rs.name, children) == i;
  }

  /** With only routes and no match, the active route becomes null and nothing else changes. */
  lemma EmissionWithoutMatch(s: Status, children: seq<Child>, rs: RouteState)
    requires forall j :: 0 <= j < |children| ==> !Stops(children[j], rs.name)
    ensures Next(s, children, Some(rs)) == Ok(Update(s.(active := None), false))
  {
    assert FirstStop(rs.name, children) == |children|;
  }

  /** A non-route child reached before any match makes the handler throw. */
  lemma EmissionRejectsNonRoute(s: Status, children: seq<Child>, rs: RouteState, i: nat)
    requires i < |children| && !children[i].Route?
    requires forall j :: 0 <= j < i ==> !Stops(children[j], rs.name)
    ensures Next(s, children, Some(rs)) == Err(NonRouteChild)
  {
    assert FirstStop(rs.name, children) == i;
  }

  /** The data map, keyed by declared name, only grows: by at most the matched
      declared name, whose entry becomes the emitted state. */
  lemma DataMapOnlyGrows(s: Status, children: seq<Child>, emitted: Option<RouteState>)
    requires Next(s, children, emitted).Ok?
    ensures var u := Next(s, children, emitted).value;
      var m := u.status.dataMap;
      && s.dataMap.Keys <= m.Keys
      && (forall k :: k in m && Some(k) != u.status.last ==> k in s.dataMap && m[k] == s.dataMap[k])
      && (m != s.dataMap ==> emitted.Some? && u.status.last.Some? && m[u.status.last.value] == emitted.value)
  {
  }

  /** While a transition runs, the previous declared name exists and differs
      from the last one. */
  predicate StatusInvariant(s: Status, inProgress: bool) {
    inProgress ==> Truthy(s.previous) && Truthy(s.last) && s.previous != s.last
  }

  lemma {:induction false} NextPreservesInvariant(s: Status, inProgress: bool, children: seq<Child>, emitted: Option<RouteState>)
    requires StatusInvariant(s, inProgress)
    requires Next(s, children, emitted).Ok?
    ensures var u := Next(s, children, emitted).value;
      StatusInvariant(u.status, inProgress || u.raise)
  {
    var found := FindDefinedRouteName(emitted.value.name, children);
    if Truthy(found.value) {
      var u := Next(s, children, emitted).value;
      if s.last != found.value {
        assert u.status.previous == s.last && u.status.last == found.value;
      } else {
        assert u.status.last == s.last && u.status.previous == s.previous;
      }
    }
  }

  /** A second concrete route under the same partial declaration updates the
      data but not the active route, which keeps the first concrete name. */
  lemma ActiveNameGoesStale(s: Status, children: seq<Child>, rs: RouteState)
    requires Truthy(s.last) && FindDefinedRouteName(rs.name, children) == Ok(s.last)
    ensures Next(s, children, Some(rs)).Ok?
    ensures Next(s, children, Some(rs)).value.status.active == s.active
    ensures Next(s, children, Some(rs)).value.status.dataMap == s.dataMap[s.last.value := rs]
  {
  }

  /** The declarations the render walks, keyed by declared name. */
  function Decls(children: seq<Child>): (ds: seq<Mounting.Decl>)
    ensures |ds| <= |children|
    ensures forall d :: d in ds ==> exists p :: Route(d.key, p, d.keepMounted) in children
    ensures forall c :: c in children && c.Route? ==> Mounting.Decl(c.name, c.keepMounted) in ds
  {
    if children == [] then []
    else
      var rest := Decls(children[1..]);
      assert forall c :: c in children[1..] ==> c in children;
      match children[0]
        case Route(n, _, k) => [Mounting.Decl(n, k)] + rest
        case _ => rest
  }

  /** A route child gives its own declaration and any other child none. */
  lemma DeclsOfChild(c: Child)
    ensures Decls([c]) == if c.Route? then [Mounting.Decl(c.name, c.keepMounted)] else []
  {
    assert [c][1..] == [];
  }

  /** The declarations follow the children: those of two runs of children are
      the declarations of the first run followed by those of the second, a
      route child gives its own declaration and any other child none. */
  lemma {:induction false} DeclsFollowChildren(a: seq<Child>, b: seq<Child>)
    ensures Decls(a + b) == Decls(a) + Decls(b)
    ensures forall c :: Decls([c]) == if c.Route? then [Mounting.Decl(c.name, c.keepMounted)] else []
  {
    if a == [] {
      assert a + b == b;
    } else {
      assert (a + b)[0] == a[0];
      assert (a + b)[1..] == a[1..] + b;
      DeclsFollowChildren(a[1..], b);
    }
    forall c: Child ensures Decls([c]) == if c.Route? then [Mounting.Decl(c.name, c.keepMounted)] else [] {
      DeclsOfChild(c);
    }
  }

  /** The whole render: with a falsy active name it returns null before looking
      at the children; otherwise a string or number child makes the map step
      throw, and without one the routes are filtered and mapped. */
  function RenderChildren(
    children: seq<Child>, active: Option<string>, previous: Option<string>, inProgress: bool,
    dataMap: map<string, RouteState>, defaultKeepMounted: bool
  ): (r: Result<seq<Mounting.MountedRoute>, SwitchError>)
    ensures r.Err? <==> Truthy(active) && exists i :: 0 <= i < |children| && children[i].Text?
    ensures r.Ok? ==> r.value == Mounting.Render(Decls(children), active, previous, inProgress, dataMap, defaultKeepMounted)
    ensures !Truthy(active) ==> r == Ok([])
  {
    if !Truthy(active) then Ok([])
    else if exists i :: 0 <= i < |children| && children[i].Text? then Err(TextChildProps)
    else Ok(Mounting.Render(Decls(children), active, previous, inProgress, dataMap, defaultKeepMounted))
  }

  /** A partial declaration entered through one of its descendants is not
      rendered unless it keeps mounted: the render compares its declared name
      with the concrete active name, and it is neither that name nor the
      previous one. */
  lemma PartialEntryNotRendered(
    s: Status, children: seq<Child>, rs: RouteState, i: nat, inProgress: bool, defaultKeepMounted: bool)
    requires i < |children| && children[i].Route? && children[i].name != "" && children[i].name != rs.name
    requires IsRouteMatching(rs.name, children[i].name, children[i].partial)
    requires forall j :: 0 <= j < i ==> !Stops(children[j], rs.name)
    requires s.last != Some(children[i].name)
    requires forall c :: c in children && c.Route? && c.name == children[i].name ==>
      !Mounting.KeepsMounted(Mounting.Decl(c.name, c.keepMounted), defaultKeepMounted)
    ensures var u := Next(s, children, Some(rs)).value.status;
      forall m :: m in Mounting.Render(Decls(children), u.active, u.previous, inProgress, u.dataMap, defaultKeepMounted)
        ==> m.key != children[i].name
  {
    EmissionMatchingChild(s, children, rs, i);
    var u := Next(s, children, Some(rs)).value.status;
    var n := children[i].name;
    forall m | m in Mounting.Render(Decls(children), u.active, u.previous, inProgress, u.dataMap, defaultKeepMounted)
      ensures m.key != n
    {
      Mounting.RenderMembership(Decls(children), u.active, u.previous, inProgress, u.dataMap, defaultKeepMounted, m.key);
      var v := Mounting.View(u.active.value, u.previous, inProgress, u.dataMap, defaultKeepMounted);
      var d :| d in Decls(children) && d.key == m.key && Mounting.Selected(d, v);
      if d.key == n {
        assert false;
      }
    }
  }

  /** One mounted older `RouteSwitch`. */
  class RouteSwitch {
    const children: seq<Child>
    const defaultKeepMounted: bool
    const driver: Driver
    var active: Option<string>
    var previous: Option<string>
    var last: Option<string>
    var dataMap: map<string, RouteState>

    function CurrentStatus(): Status
      reads this
    {
      Status(active, previous, last, dataMap)
    }

    ghost predicate Valid()
      reads this, driver
    {
      StatusInvariant(CurrentStatus(), driver.inProgress) && TimingInvariant(driver.State())
    }

    constructor (children: seq<Child>, defaultKeepMounted: bool, current: Option<RouteState>)
      requires InitialStatus(children, current).Ok?
      ensures Valid() && fresh(driver)
      ensures CurrentStatus() == InitialStatus(children, current).value && driver.State() == Idle()
      ensures this.children == children && this.defaultKeepMounted == defaultKeepMounted
    {
      this.children := children;
      this.defaultKeepMounted := defaultKeepMounted;
      driver := new Driver();
      var found: Option<string> := None;
      if current.Some? {
        found := FindDefinedRouteName(current.value.name, children).value;
      }
      active, previous, last, dataMap := found, None, found, map[];
    }

    /** The subscription's `next` handler. */
    method OnRouteState(emitted: Option<RouteState>) returns (error: Option<SwitchError>)
      requires Valid()
      modifies this, driver
      ensures Valid()
      ensures Next(old(CurrentStatus()), children, emitted).Err? ==>
        error == Some(Next(old(CurrentStatus()), children, emitted).error) && CurrentStatus() == old(CurrentStatus()) && driver.State() == old(driver.State())
      ensures Next(old(CurrentStatus()), children, emitted).Ok? ==>
        && error.None?
        && CurrentStatus() == Next(old(CurrentStatus()), children, emitted).value.status
        && driver.State() == if Next(old(CurrentStatus()), children, emitted).value.raise then RaiseFlag(old(driver.State())) else old(driver.State())
    {
      error := None;
      if Next(CurrentStatus(), children, emitted).Ok? {
        NextPreservesInvariant(CurrentStatus(), driver.inProgress, children, emitted);
      }
      if emitted.None? {
        error := Some(NullRouteState);
        return;
      }
      var found := FindDefinedRouteName(emitted.value.name, children);
      if found.Err? {
        error := Some(found.error);
        return;
      }
      var definedRouteName := found.value;
      if !Truthy(definedRouteName) {
        active := None;
        return;
      }
      var n := definedRouteName.value;
      if last != Some(n) {
        if Truthy(last) {
          driver.Raise();
        }
        previous := last;
        active := Some(emitted.value.name);
        last := Some(n);
      }
      if last == Some(n) {
        dataMap := dataMap[n := emitted.value];
      }
    }

    method HandleTransitionEnd()
      requires Valid()
      modifies driver
      ensures Valid() && driver.State() == EndTransition(old(driver.State()))
    {
      EndPreserves(driver.State());
      driver.HandleTransitionEnd();
    }

    method RunTimerEffect(h: Handle)
      requires Valid() && FreshHandle(driver.State(), h)
      modifies driver
      ensures Valid() && driver.State() == TimerEffect(old(driver.State()), h)
    {
      TimerEffectPreserves(driver.State(), h);
      driver.RunTimerEffect(h);
    }

    method TimeoutFired(h: Handle)
      requires Valid()
      modifies driver
      ensures Valid() && driver.State() == Fire(old(driver.State()), h)
    {
      if h in driver.armed {
        FireIsEnd(driver.State(), h);
      }
      driver.TimeoutFired(h);
    }

    function Rendered(): Result<seq<Mounting.MountedRoute>, SwitchError>
      reads this, driver
    {
      RenderChildren(children, active, previous, driver.inProgress, dataMap, defaultKeepMounted)
    }
  }
}
