/** One navigation through the newer switch, from the emission to the routes
    the render mounts while the transition runs and after it ends. */
module Navigation {
  import opened Model
  import opened Routes
  import opened Mounting
  import opened PackageRouteSwitch

  /** The render while a transition from `a` to `p` runs. */
  lemma RenderDuring(decls: seq<Decl>, a: string, p: string, dm: map<string, RouteState>, defaultKeepMounted: bool)
    requires a != p && p != "" && a in dm && p in dm
    requires (exists d :: d in decls && d.key == a) && (exists d :: d in decls && d.key == p)
    ensures var r := Render(decls, Some(p), Some(a), true, dm, defaultKeepMounted);
      && (exists m :: m in r && m.key == p)
      && (exists m :: m in r && m.key == a)
      && (forall m :: m in r ==>
            || (m.key == p && Some(m.transitionState) == GetTransitionState(p, p, Some(a)))
            || (m.key == a && Some(m.transitionState) == GetTransitionState(a, p, Some(a)))
            || (m.transitionState == Stacked && IsAncestorRoute(m.key, p)))
  {
    var v := View(p, Some(a), true, dm, defaultKeepMounted);
    var r := RenderFrom(decls, v);
    var da :| da in decls && da.key == a;
    var dp :| dp in decls && dp.key == p;
    assert Selected(da, v) && Selected(dp, v);
    assert Mount(da, v) in r && Mount(dp, v) in r;
    forall m | m in r
      ensures || (m.key == p && Some(m.transitionState) == GetTransitionState(p, p, Some(a)))
              || (m.key == a && Some(m.transitionState) == GetTransitionState(a, p, Some(a)))
              || (m.transitionState == Stacked && IsAncestorRoute(m.key, p))
    {
      var d :| d in decls && Selected(d, v) && m == Mount(d, v);
    }
  }

  /** The render once the transition from `a` to `p` has ended. */
  lemma RenderAfter(decls: seq<Decl>, a: string, p: string, dm: map<string, RouteState>, defaultKeepMounted: bool)
    requires p != "" && p in dm
    requires exists d :: d in decls && d.key == p
    ensures var r := Render(decls, Some(p), Some(a), false, dm, defaultKeepMounted);
      && (exists m :: m in r && m.key == p)
      && (forall m :: m in r ==>
            (m.key == p && m.transitionState == Head) || (m.transitionState == Stacked && IsAncestorRoute(m.key, p)))
  {
    var v := View(p, Some(a), false, dm, defaultKeepMounted);
    var r := RenderFrom(decls, v);
    var dp :| dp in decls && dp.key == p;
    assert Selected(dp, v);
    assert Mount(dp, v) in r;
    forall m | m in r
      ensures (m.key == p && m.transitionState == Head) || (m.transitionState == Stacked && IsAncestorRoute(m.key, p))
    {
      var d :| d in decls && Selected(d, v) && m == Mount(d, v);
    }
  }

  /** Navigating from the last route `a` to a route first matched by the
      pattern `p` of child `i`: a transition starts; while it runs both ends
      are mounted, `p` with the entering role and `a` with the leaving role of
      the classifier, and every other mounted route is a stacked ancestor of
      `p`; once it ends `p` is mounted as the head and every other mounted
      route is a stacked ancestor of `p`. */
  lemma NavigationRender(s: Status, children: seq<Child>, rs: RouteState, i: nat, defaultKeepMounted: bool)
    requires s.last.Some? && s.last.value != "" && s.last.value in s.dataMap
    requires exists k :: Route(s.last.value, k) in children
    requires i < |children| && children[i].Route? && IsRouteMatching(rs.name, children[i].pattern)
    requires children[i].pattern != "" && children[i].pattern != s.last.value
    requires forall j :: 0 <= j < i ==> children[j].Route? && !IsRouteMatching(rs.name, children[j].pattern)
    ensures var a := s.last.value;
      var p := children[i].pattern;
      && Next(s, children, Some(rs)).Ok?
      && var u := Next(s, children, Some(rs)).value;
      && u.raise && u.status.active == Some(p) && u.status.previous == Some(a)
      && var during := Render(Decls(children), Some(p), Some(a), true, u.status.dataMap, defaultKeepMounted);
      && (exists m :: m in during && m.key == p)
      && (exists m :: m in during && m.key == a)
      && (forall m :: m in during ==>
            || (m.key == p && Some(m.transitionState) == GetTransitionState(p, p, Some(a)))
            || (m.key == a && Some(m.transitionState) == GetTransitionState(a, p, Some(a)))
            || (m.transitionState == Stacked && IsAncestorRoute(m.key, p)))
      && var after := Render(Decls(children), Some(p), Some(a), false, u.status.dataMap, defaultKeepMounted);
      && (exists m :: m in after && m.key == p)
      && (forall m :: m in after ==>
            (m.key == p && m.transitionState == Head) || (m.transitionState == Stacked && IsAncestorRoute(m.key, p)))
  {
    var a := s.last.value;
    var p := children[i].pattern;
    EmissionMatchingChild(s, children, rs, i);
    var dm := Next(s, children, Some(rs)).value.status.dataMap;
    var decls := Decls(children);
    var k :| Route(a, k) in children;
    assert Mounting.Decl(a, k) in decls;
    assert children[i] in children;
    assert Mounting.Decl(p, children[i].keepMounted) in decls;
    RenderDuring(decls, a, p, dm, defaultKeepMounted);
    RenderAfter(decls, a, p, dm, defaultKeepMounted);
  }

  /** Navigating from `a` down to a descendant `p` (for instance from `a` to
      `a.1`): `p` is pushed while `a` is stacked beneath it, both mounted; after
      the transition `p` is the head, and `a` stays mounted only if one of its
      declarations keeps mounted. */
  lemma PushToDescendant(s: Status, children: seq<Child>, rs: RouteState, i: nat, defaultKeepMounted: bool)
    requires s.last.Some? && s.last.value != "" && s.last.value in s.dataMap
    requires exists k :: Route(s.last.value, k) in children
    requires i < |children| && children[i].Route? && IsRouteMatching(rs.name, children[i].pattern)
    requires IsAncestorRoute(s.last.value, children[i].pattern)
    requires forall j :: 0 <= j < i ==> children[j].Route? && !IsRouteMatching(rs.name, children[j].pattern)
    ensures var a := s.last.value;
      var p := children[i].pattern;
      && Next(s, children, Some(rs)).Ok?
      && var u := Next(s, children, Some(rs)).value;
      && var during := Render(Decls(children), u.status.active, u.status.previous, true, u.status.dataMap, defaultKeepMounted);
      && (exists m :: m in during && m.key == p && m.transitionState == Pushing)
      && (exists m :: m in during && m.key == a && m.transitionState == Stacking)
      && var after := Render(Decls(children), u.status.active, u.status.previous, false, u.status.dataMap, defaultKeepMounted);
      && (exists m :: m in after && m.key == p && m.transitionState == Head)
      && ((exists m :: m in after && m.key == a) <==>
          exists d :: d in Decls(children) && d.key == a && KeepsMounted(d, defaultKeepMounted))
  {
    var a := s.last.value;
    var p := children[i].pattern;
    AncestorIsLonger(a, p);
    NavigationRender(s, children, rs, i, defaultKeepMounted);
    TransitionRolesMirror(p, a);
    var u := Next(s, children, Some(rs)).value;
    var dm := u.status.dataMap;
    var decls := Decls(children);
    var during := Render(decls, Some(p), Some(a), true, dm, defaultKeepMounted);
    var mp :| mp in during && mp.key == p;
    var ma :| ma in during && ma.key == a;
    AncestorIrreflexive(p);
    assert !IsAncestorRoute(p, p);
    RenderMembership(decls, Some(p), Some(a), false, dm, defaultKeepMounted, a);
  }

  /** Navigating between unrelated routes (for instance from `b` to `c.1`,
      matched by `c*`): `p` is restored while `a` is abandoned; after the
      transition `a` is unmounted whatever its `keepMounted`. */
  lemma JumpAcross(s: Status, children: seq<Child>, rs: RouteState, i: nat, defaultKeepMounted: bool)
    requires s.last.Some? && s.last.value != "" && s.last.value in s.dataMap
    requires exists k :: Route(s.last.value, k) in children
    requires i < |children| && children[i].Route? && IsRouteMatching(rs.name, children[i].pattern)
    requires children[i].pattern != "" && children[i].pattern != s.last.value
    requires !IsAncestorRoute(s.last.value, children[i].pattern) && !IsAncestorRoute(children[i].pattern, s.last.value)
    requires forall j :: 0 <= j < i ==> children[j].Route? && !IsRouteMatching(rs.name, children[j].pattern)
    ensures var a := s.last.value;
      var p := children[i].pattern;
      && Next(s, children, Some(rs)).Ok?
      && var u := Next(s, children, Some(rs)).value;
      && var during := Render(Decls(children), u.status.active, u.status.previous, true, u.status.dataMap, defaultKeepMounted);
      && (exists m :: m in during && m.key == p && m.transitionState == Restoring)
      && (exists m :: m in during && m.key == a && m.transitionState == Abandoning)
      && var after := Render(Decls(children), u.status.active, u.status.previous, false, u.status.dataMap, defaultKeepMounted);
      && !(exists m :: m in after && m.key == a)
  {
    var a := s.last.value;
    var p := children[i].pattern;
    NavigationRender(s, children, rs, i, defaultKeepMounted);
    TransitionRolesMirror(p, a);
    var u := Next(s, children, Some(rs)).value;
    var during := Render(Decls(children), Some(p), Some(a), true, u.status.dataMap, defaultKeepMounted);
    var mp :| mp in during && mp.key == p;
    var ma :| ma in during && ma.key == a;
  }
}
