/** The route switch of the newer generation: routes are declared by a
    `pattern`, where a trailing `*` also matches descendants; the switch stores
    the matched pattern as active, previous and last route. */
module PackageRouteSwitch {
  import opened Model
  import opened Routes
  import Mounting
  import opened TransitionDriver

  /** A child of the switch after `Children.toArray`: a `<Route>`, another
      element, or a string or number child. */
  datatype Child = Route(pattern: string, keepMounted: Mounting.KeepMountedProp) | NonRoute | Text

  datatype SwitchError =
    | NonRouteChild     // '<RouteSwitch> accepts only <Route> as children'
    | TextChildProps    // the render reads `props.pattern` of a string or number child

  /** The pattern ends with `*`; the empty pattern does not. */
  predicate IsPartialPattern(pattern: string) {
    |pattern| > 0 && pattern[|pattern| - 1] == '*'
  }

  /** The pattern without its trailing `*`. */
  function PatternBase(pattern: string): (b: string)
    ensures IsPartialPattern(pattern) ==> pattern == b + "*"
    ensures !IsPartialPattern(pattern) ==> b == pattern
  {
    if IsPartialPattern(pattern) then pattern[..|pattern| - 1] else pattern
  }

  /** `isRouteMatching(test, pattern)`: a match starts with the pattern's base,
      and a pattern without `*` matches only itself. */
  predicate IsRouteMatching(test: string, pattern: string)
    ensures IsRouteMatching(test, pattern) ==> StartsWith(test, PatternBase(pattern))
    ensures !IsPartialPattern(pattern) ==> (IsRouteMatching(test, pattern) <==> test == pattern)
  {
    || test == PatternBase(pattern)
    || (IsPartialPattern(pattern) && StartsWith(test, PatternBase(pattern) + "."))
  }

  /** A pattern `b*` matches `b` itself and every descendant of `b`. */
  lemma {:induction false} WildcardMatching(base: string, test: string)
    ensures IsRouteMatching(test, base + "*") <==> (test == base || IsAncestorRoute(base, test))
  {
    var p := base + "*";
    assert IsPartialPattern(p);
    assert p[..|p| - 1] == base;
  }

  /** A pattern without a trailing `*` matches only itself. */
  lemma ExactMatching(pattern: string, test: string)
    requires !IsPartialPattern(pattern)
    ensures IsRouteMatching(test, pattern) <==> test == pattern
  {
  }

  /** The index at which `.find` stops: the first child that is not a route
      or whose pattern matches `name`; `|children|` if there is none. */
  function FirstStop(name: string, children: seq<Child>): (k: nat)
    ensures k <= |children|
    ensures forall j :: 0 <= j < k ==> children[j].Route? && !IsRouteMatching(name, children[j].pattern)
    ensures k < |children| ==> !children[k].Route? || IsRouteMatching(name, children[k].pattern)
  {
    if children == [] then 0
    else if !children[0].Route? || IsRouteMatching(name, children[0].pattern) then 0
    else 1 + FirstStop(name, children[1..])
  }

  /** `findMatchingPattern`: the pattern of the first child that matches, None
      when no child matches, and an error when a non-route child is reached
      before a match. */
  function FindMatchingPattern(name: string, children: seq<Child>): (r: Result<Option<string>, SwitchError>)
    ensures var k := FirstStop(name, children);
      && (k == |children| ==> r == Ok(None))
      && (k < |children| && !children[k].Route? ==> r == Err(NonRouteChild))
      && (k < |children| && children[k].Route? ==> r == Ok(Some(children[k].pattern)))
  {
    if children == [] then Ok(None)
    else match children[0]
      case Route(pattern, _) =>
        if IsRouteMatching(name, pattern) then Ok(Some(pattern))
        else FindMatchingPattern(name, children[1..])
      case _ => Err(NonRouteChild)
  }

  /** The state of `useCurrentRouteStatus`: `activePattern`, `previousPattern`,
      `lastPatternNameRef.current` and `dataMap`. */
  datatype Status = Status(
    active: Option<string>,
    previous: Option<string>,
    last: Option<string>,
    dataMap: map<string, RouteState>)

  /** The result of one emission: the new status and whether the handler
      called `onToggleTransitionInProgress(true)`. */
  datatype Update = Update(status: Status, raise: bool)

  /** The initial status: the pattern matching the router's current route
      (if any) is both active and last; there is no previous route and no data. */
  function InitialStatus(children: seq<Child>, current: Option<RouteState>): (r: Result<Status, SwitchError>)
    ensures r.Ok? ==> r.value.active == r.value.last && r.value.previous.None? && r.value.dataMap == map[]
    ensures current.None? ==> r == Ok(Status(None, None, None, map[]))
  {
    if current.None? then Ok(Status(None, None, None, map[]))
    else match FindMatchingPattern(current.value.name, children)
      case Err(e) => Err(e)
      case Ok(found) => Ok(Status(found, None, found, map[]))
  }

  /** The subscription's `next` handler for one emitted route state. A null
      emission is ignored; the handler fails exactly when the search fails; no
      stored data is ever dropped; and a raise always comes with the old last
      pattern moved to `previous`. */
  function Next(s: Status, children: seq<Child>, emitted: Option<RouteState>): (r: Result<Update, SwitchError>)
    ensures emitted.None? ==> r == Ok(Update(s, false))
    ensures r.Err? <==> emitted.Some? && FindMatchingPattern(emitted.value.name, children).Err?
    ensures r.Ok? ==> s.dataMap.Keys <= r.value.status.dataMap.Keys
    ensures r.Ok? && r.value.raise ==> Truthy(s.last) && r.value.status.previous == s.last && r.value.status.last != s.last
  {
    if emitted.None? then Ok(Update(s, false))
    else match FindMatchingPattern(emitted.value.name, children)
      case Err(e) => Err(e)
      case Ok(found) =>
        if !Truthy(found) then Ok(Update(s.(active := None), false))
        else
          var pattern := found.value;
          var changed := s.last != Some(pattern);
          var s1 := if changed then s.(previous := s.last, active := Some(pattern), last := Some(pattern)) else s;
          Ok(Update(s1.(dataMap := s1.dataMap[pattern := emitted.value]), changed && Truthy(s.last)))
  }

  /** An emission whose name is first matched by child `i` makes that child's
      pattern the last route and stores the emission under it. A pattern that
      differs from the last one also becomes active, the old last route becomes
      previous, and a transition starts iff there was a (truthy) last route;
      the same pattern again changes nothing but its data. */
  lemma EmissionMatchingChild(s: Status, children: seq<Child>, rs: RouteState, i: nat)
    requires i < |children| && children[i].Route? && IsRouteMatching(rs.name, children[i].pattern)
    requires children[i].pattern != ""
    requires forall j :: 0 <= j < i ==> children[j].Route? && !IsRouteMatching(rs.name, children[j].pattern)
    ensures var p := children[i].pattern;
      && Next(s, children, Some(rs)).Ok?
      && var u := Next(s, children, Some(rs)).value;
      && u.status.last == Some(p)
      && u.status.dataMap == s.dataMap[p := rs]
      && (s.last != Some(p) ==> u.status.active == Some(p) && u.status.previous == s.last && (u.raise <==> Truthy(s.last)))
      && (s.last == Some(p) ==> u.status.active == s.active && u.status.previous == s.previous && !u.raise)
  {
    assert FirstStop(rs.name, children) == i;
  }

  /** When every child is a route and none matches, the switch deactivates:
      `active` becomes null and the last and previous routes, the data and the
      flag stay as they were. */
  lemma EmissionWithoutMatch(s: Status, children: seq<Child>, rs: RouteState)
    requires forall j :: 0 <= j < |children| ==> children[j].Route? && !IsRouteMatching(rs.name, children[j].pattern)
    ensures Next(s, children, Some(rs)) == Ok(Update(s.(active := None), false))
  {
    assert FirstStop(rs.name, children) == |children|;
  }

  /** A non-route child reached before any match makes the handler throw. */
  lemma EmissionRejectsNonRoute(s: Status, children: seq<Child>, rs: RouteState, i: nat)
    requires i < |children| && !children[i].Route?
    requires forall j :: 0 <= j < i ==> children[j].Route? && !IsRouteMatching(rs.name, children[j].pattern)
    ensures Next(s, children, Some(rs)) == Err(NonRouteChild)
  {
    assert FirstStop(rs.name, children) == i;
  }

  /** The data map only grows, by at most the matched pattern, whose entry
      becomes the emitted state; every other entry is untouched. */
  lemma DataMapOnlyGrows(s: Status, children: seq<Child>, emitted: Option<RouteState>)
    requires Next(s, children, emitted).Ok?
    ensures var u := Next(s, children, emitted).value;
      var m := u.status.dataMap;
      && s.dataMap.Keys <= m.Keys
      && (forall k :: k in m && Some(k) != u.status.last ==> k in s.dataMap && m[k] == s.dataMap[k])
      && (m != s.dataMap ==> emitted.Some? && u.status.last.Some? && m[u.status.last.value] == emitted.value)
  {
  }

  /** The status invariant: an active pattern is always the last one, and while
      a transition runs the previous route exists and differs from the last. */
  predicate StatusInvariant(s: Status, inProgress: bool) {
    && (s.active.Some? ==> s.active == s.last)
    && (inProgress ==> Truthy(s.previous) && Truthy(s.last) && s.previous != s.last)
  }

  lemma {:induction false} NextPreservesInvariant(s: Status, inProgress: bool, children: seq<Child>, emitted: Option<RouteState>)
    requires StatusInvariant(s, inProgress)
    requires Next(s, children, emitted).Ok?
    ensures var u := Next(s, children, emitted).value;
      StatusInvariant(u.status, inProgress || u.raise)
  {
    if emitted.Some? {
      var found := FindMatchingPattern(emitted.value.name, children);
      if Truthy(found.value) {
        var u := Next(s, children, emitted).value;
        if s.last != found.value {
          assert u.status.previous == s.last && u.status.last == found.value;
        } else {
          assert u.status.last == s.last && u.status.previous == s.previous;
        }
      }
    }
  }

  /** The initial status satisfies the invariant with the flag down. */
  lemma InitialInvariant(children: seq<Child>, current: Option<RouteState>)
    requires InitialStatus(children, current).Ok?
    ensures StatusInvariant(InitialStatus(children, current).value, false)
  {
  }

  /** After an emission that matches nothing, an emission matching the last
      pattern again leaves `active` null: the handler only sets the active
      pattern when it differs from the last one. */
  lemma ReturnAfterMissStaysInactive(s: Status, children: seq<Child>, miss: RouteState, hit: RouteState)
    requires Next(s, children, Some(miss)) == Ok(Update(s.(active := None), false))
    requires FindMatchingPattern(hit.name, children) == Ok(s.last) && Truthy(s.last)
    ensures var s1 := Next(s, children, Some(miss)).value.status;
      && Next(s1, children, Some(hit)).Ok?
      && Next(s1, children, Some(hit)).value.status.active.None?
  {
  }

  /** The declarations the render walks: every route child, keyed by its pattern. */
  function Decls(children: seq<Child>): (ds: seq<Mounting.Decl>)
    ensures |ds| <= |children|
    ensures forall d :: d in ds ==> Route(d.key, d.keepMounted) in children
    ensures forall c :: c in children && c.Route? ==> Mounting.Decl(c.pattern, c.keepMounted) in ds
  {
    if children == [] then []
    else
      var rest := Decls(children[1..]);
      assert forall c :: c in children[1..] ==> c in children;
      match children[0]
        case Route(p, k) => [Mounting.Decl(p, k)] + rest
        case _ => rest
  }

  /** A route child gives its own declaration and any other child none. */
  lemma DeclsOfChild(c: Child)
    ensures Decls([c]) == if c.Route? then [Mounting.Decl(c.pattern, c.keepMounted)] else []
  {
    assert [c][1..] == [];
  }

  /** The declarations follow the children: those of two runs of children are
      the declarations of the first run followed by those of the second, a
      route child gives its own declaration and any other child none. */
  lemma {:induction false} DeclsFollowChildren(a: seq<Child>, b: seq<Child>)
    ensures Decls(a + b) == Decls(a) + Decls(b)
    ensures forall c :: Decls([c]) == if c.Route? then [Mounting.Decl(c.pattern, c.keepMounted)] else []
  {
    if a == [] {
      assert a + b == b;
    } else {
      assert (a + b)[0] == a[0];
      assert (a + b)[1..] == a[1..] + b;
      DeclsFollowChildren(a[1..], b);
    }
    forall c: Child ensures Decls([c]) == if c.Route? then [Mounting.Decl(c.pattern, c.keepMounted)] else [] {
      DeclsOfChild(c);
    }
  }

  /** The whole render: with a falsy active pattern it returns null before
      looking at the children; otherwise a string or number child makes the
      map step throw, and without one the routes are filtered and mapped. */
  function RenderChildren(
    children: seq<Child>, active: Option<string>, previous: Option<string>, inProgress: bool,
    dataMap: map<string, RouteState>, defaultKeepMounted: bool
  ): (r: Result<seq<Mounting.MountedRoute>, SwitchError>)
    ensures r.Err? <==> Truthy(active) && exists i :: 0 <= i < |children| && children[i].Text?
    ensures r.Ok? ==> r.value == Mounting.Render(Decls(children), active, previous, inProgress, dataMap, defaultKeepMounted)
    ensures !Truthy(active) ==> r == Ok([])
  {
    if !Truthy(active) then Ok([])
    else if exists i :: 0 <= i < |children| && children[i].Text? then Err(TextChildProps)
    else Ok(Mounting.Render(Decls(children), active, previous, inProgress, dataMap, defaultKeepMounted))
  }

  /** A call the lifecycle effect makes. Both handlers receive
      `(activePattern, previousPattern)`. */
  datatype LifecycleCall = AnimationStart(active: string, previous: string) | AnimationComplete(active: string, previous: string)

  /** The lifecycle effect: with a truthy active and previous pattern it calls
      `onAnimationStart` while a transition runs and `onAnimationComplete`
      otherwise, if that handler was given. */
  function LifecycleEffect(active: Option<string>, previous: Option<string>, inProgress: bool, hasStart: bool, hasComplete: bool)
    : (r: Option<LifecycleCall>)
    ensures r.Some? <==> Truthy(active) && Truthy(previous) && (if inProgress then hasStart else hasComplete)
    ensures r.Some? ==> r.value.active == active.value && r.value.previous == previous.value
    ensures r.Some? ==> (r.value.AnimationStart? <==> inProgress)
  {
    if Truthy(active) && Truthy(previous) then
      if inProgress then (if hasStart then Some(AnimationStart(active.value, previous.value)) else None)
      else (if hasComplete then Some(AnimationComplete(active.value, previous.value)) else None)
    else None
  }

  /** One mounted `RouteSwitch`: the route status of its hook and its
      transition driver. */
  class RouteSwitch {
    const children: seq<Child>
    const defaultKeepMounted: bool
    const driver: Driver
    var active: Option<string>
    var previous: Option<string>
    var last: Option<string>
    var dataMap: map<string, RouteState>

    function CurrentStatus(): Status
      reads this
    {
      Status(active, previous, last, dataMap)
    }

    ghost predicate Valid()
      reads this, driver
    {
      StatusInvariant(CurrentStatus(), driver.inProgress) && TimingInvariant(driver.State())
    }

    /** Mounting the switch; mounting throws instead when the router's current
        route reaches a non-route child, which `InitialStatus` reports. */
    constructor (children: seq<Child>, defaultKeepMounted: bool, current: Option<RouteState>)
      requires InitialStatus(children, current).Ok?
      ensures Valid() && fresh(driver)
      ensures CurrentStatus() == InitialStatus(children, current).value && driver.State() == Idle()
      ensures this.children == children && this.defaultKeepMounted == defaultKeepMounted
    {
      this.children := children;
      this.defaultKeepMounted := defaultKeepMounted;
      driver := new Driver();
      var found: Option<string> := None;
      if current.Some? {
        found := FindMatchingPattern(current.value.name, children).value;
      }
      active, previous, last, dataMap := found, None, found, map[];
    }

    /** The subscription's `next` handler. */
    method OnRouteState(emitted: Option<RouteState>) returns (error: Option<SwitchError>)
      requires Valid()
      modifies this, driver
      ensures Valid()
      ensures Next(old(CurrentStatus()), children, emitted).Err? ==>
        error == Some(Next(old(CurrentStatus()), children, emitted).error) && CurrentStatus() == old(CurrentStatus()) && driver.State() == old(driver.State())
      ensures Next(old(CurrentStatus()), children, emitted).Ok? ==>
        && error.None?
        && CurrentStatus() == Next(old(CurrentStatus()), children, emitted).value.status
        && driver.State() == if Next(old(CurrentStatus()), children, emitted).value.raise then RaiseFlag(old(driver.State())) else old(driver.State())
    {
      error := None;
      if Next(CurrentStatus(), children, emitted).Ok? {
        NextPreservesInvariant(CurrentStatus(), driver.inProgress, children, emitted);
      }
      if emitted.None? {
        return;
      }
      var found := FindMatchingPattern(emitted.value.name, children);
      if found.Err? {
        error := Some(found.error);
        return;
      }
      var pattern := found.value;
      if !Truthy(pattern) {
        active := None;
        return;
      }
      var p := pattern.value;
      if last != Some(p) {
        if Truthy(last) {
          driver.Raise();
        }
        previous := last;
        active := Some(p);
        last := Some(p);
      }
      if last == Some(p) {
        dataMap := dataMap[p := emitted.value];
      }
    }

    /** `handleTransitionEnd`, as a mounted route or the timer calls it. */
    method HandleTransitionEnd()
      requires Valid()
      modifies driver
      ensures Valid() && driver.State() == EndTransition(old(driver.State()))
    {
      EndPreserves(driver.State());
      driver.HandleTransitionEnd();
    }

    /** The timer effect after a change of the flag; `h` is what `setTimeout` returned. */
    method RunTimerEffect(h: Handle)
      requires Valid() && FreshHandle(driver.State(), h)
      modifies driver
      ensures Valid() && driver.State() == TimerEffect(old(driver.State()), h)
    {
      TimerEffectPreserves(driver.State(), h);
      driver.RunTimerEffect(h);
    }

    method TimeoutFired(h: Handle)
      requires Valid()
      modifies driver
      ensures Valid() && driver.State() == Fire(old(driver.State()), h)
    {
      if h in driver.armed {
        FireIsEnd(driver.State(), h);
      }
      driver.TimeoutFired(h);
    }

    /** What the switch renders now. */
    function Rendered(): Result<seq<Mounting.MountedRoute>, SwitchError>
      reads this, driver
    {
      RenderChildren(children, active, previous, driver.inProgress, dataMap, defaultKeepMounted)
    }

    /** The call the lifecycle effect makes now, given which handlers were passed. */
    function Lifecycle(hasStart: bool, hasComplete: bool): Option<LifecycleCall>
      reads this, driver
    {
      LifecycleEffect(active, previous, driver.inProgress, hasStart, hasComplete)
    }
  }
}
