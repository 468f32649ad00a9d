/** The render pass of a route switch: the declared routes are filtered down to
    those that must stay mounted and each survivor is given its role and the
    transition details. Both generations run the same filter and map; the newer
    keys declarations by `pattern`, the older by `name`. */
module Mounting {
  import opened Model
  import opened Routes

  /** A declared route as the render sees it: its key and its own
      `keepMounted` prop, if it sets one. */
  datatype Decl = Decl(key: string, keepMounted: KeepMountedProp)

  /** A route's own `keepMounted` prop: not written at all, or written with a
      value, where `Present(None)` is an explicit `undefined` or `null` (what a
      wrapper forwarding an unset optional prop passes). */
  datatype KeepMountedProp = Absent | Present(value: Option<bool>)

  /** What the render hands to one mounted route. `endsTransition` says whether
      it receives the switch's `handleTransitionEnd` as `onTransitionEnded`. */
  datatype MountedRoute = MountedRoute(
    key: string,
    routeState: RouteState,
    transitionState: RouteTransitionState,
    transitionFrom: Option<string>,
    transitionTo: Option<string>,
    endsTransition: bool)

  /** The switch state one render reads, with a truthy active key. */
  datatype View = View(
    active: string,
    previous: Option<string>,
    inProgress: bool,
    dataMap: map<string, RouteState>,
    defaultKeepMounted: bool)

  /** `{ keepMounted, ...element.props }`: a prop the route writes wins over
      the switch-wide default, even when its value is `undefined`, and the
      default applies only when the route does not write the prop at all. */
  predicate KeepsMounted(d: Decl, defaultKeepMounted: bool)
    ensures d.keepMounted.Present? ==> (KeepsMounted(d, defaultKeepMounted) <==> d.keepMounted.value == Some(true))
    ensures d.keepMounted.Absent? ==> (KeepsMounted(d, defaultKeepMounted) <==> defaultKeepMounted)
  {
    match d.keepMounted
    case Absent => defaultKeepMounted
    case Present(value) => value == Some(true)
  }

  /** The render's filter: a route with stored data stays mounted when it is
      active, when it is the previous route of a running transition, or when it
      keeps mounted and is a strict ancestor of the active route. */
  predicate Selected(d: Decl, v: View)
    ensures Selected(d, v) ==> d.key in v.dataMap
    ensures Selected(d, v) && d.key != v.active && !InTransition(d.key, v) ==> IsAncestorRoute(d.key, v.active)
    ensures d.key in v.dataMap && (d.key == v.active || InTransition(d.key, v)) ==> Selected(d, v)
  {
    && d.key in v.dataMap
    && (|| d.key == v.active
        || (Some(d.key) == v.previous && v.inProgress)
        || (KeepsMounted(d, v.defaultKeepMounted) && IsAncestorRoute(d.key, v.active)))
  }

  /** A route takes part in the running transition. */
  predicate InTransition(key: string, v: View) {
    v.inProgress && (key == v.active || Some(key) == v.previous)
  }

  /** The render's map step for one selected route. */
  function Mount(d: Decl, v: View): (m: MountedRoute)
    requires d.key in v.dataMap
    ensures m.key == d.key && m.routeState == v.dataMap[d.key]
  {
    var moving := InTransition(d.key, v);
    MountedRoute(
      d.key,
      v.dataMap[d.key],
      if moving then GetTransitionState(d.key, v.active, v.previous).value else GetIdleState(d.key, v.active),
      if moving then v.previous else None,
      if moving then Some(v.active) else None,
      moving)
  }

  /** The filter and map over the declarations, in declaration order. */
  function RenderFrom(decls: seq<Decl>, v: View): (r: seq<MountedRoute>)
    ensures |r| <= |decls|
    ensures forall m :: m in r ==> exists d :: d in decls && Selected(d, v) && m == Mount(d, v)
    ensures forall d :: d in decls && Selected(d, v) ==> Mount(d, v) in r
  {
    if decls == [] then []
    else
      var rest := RenderFrom(decls[1..], v);
      assert forall d :: d in decls[1..] ==> d in decls;
      if Selected(decls[0], v) then [Mount(decls[0], v)] + rest else rest
  }

  /** The whole render: nothing while the active key is falsy. */
  function Render(
    decls: seq<Decl>, active: Option<string>, previous: Option<string>,
    inProgress: bool, dataMap: map<string, RouteState>, defaultKeepMounted: bool
  ): (r: seq<MountedRoute>)
    ensures !Truthy(active) ==> r == []
  {
    if !Truthy(active) then []
    else RenderFrom(decls, View(active.value, previous, inProgress, dataMap, defaultKeepMounted))
  }

  /** The keys of a sequence of declarations or mounted routes, in order. */
  function Keys<T>(xs: seq<T>, key: T -> string): (ks: seq<string>)
    ensures |ks| == |xs| && forall i :: 0 <= i < |xs| ==> ks[i] == key(xs[i])
  {
    if xs == [] then [] else [key(xs[0])] + Keys(xs[1..], key)
  }

  function DeclKey(d: Decl): string { d.key }

  function MountedKey(m: MountedRoute): string { m.key }

  /** `xs` is `ys` with some elements left out and the rest in their order. */
  ghost predicate Subsequence<T>(xs: seq<T>, ys: seq<T>)
    decreases |ys|
  {
    || xs == []
    || (ys != [] && ((xs[0] == ys[0] && Subsequence(xs[1..], ys[1..])) || Subsequence(xs, ys[1..])))
  }

  /** The render keeps the declaration order: its keys are a subsequence of the
      declared keys. */
  lemma {:induction false} RenderKeepsOrder(decls: seq<Decl>, v: View)
    ensures Subsequence(Keys(RenderFrom(decls, v), MountedKey), Keys(decls, DeclKey))
  {
    if decls != [] {
      RenderKeepsOrder(decls[1..], v);
      var rest := RenderFrom(decls[1..], v);
      assert Keys(decls, DeclKey)[1..] == Keys(decls[1..], DeclKey);
      if Selected(decls[0], v) {
        assert Keys([Mount(decls[0], v)] + rest, MountedKey)[1..] == Keys(rest, MountedKey);
      }
    }
  }

  /** A key is rendered iff a declaration with that key passes the filter. */
  lemma RenderMembership(
    decls: seq<Decl>, active: Option<string>, previous: Option<string>,
    inProgress: bool, dataMap: map<string, RouteState>, defaultKeepMounted: bool, key: string)
    requires Truthy(active)
    ensures var v := View(active.value, previous, inProgress, dataMap, defaultKeepMounted);
      (exists m :: m in Render(decls, active, previous, inProgress, dataMap, defaultKeepMounted) && m.key == key)
      <==> (exists d :: d in decls && d.key == key && Selected(d, v))
  {
    var v := View(active.value, previous, inProgress, dataMap, defaultKeepMounted);
    var r := Render(decls, active, previous, inProgress, dataMap, defaultKeepMounted);
    if d :| d in decls && d.key == key && Selected(d, v) {
      assert Mount(d, v) in r;
    }
  }

  /** Roles and transition details of every rendered route: exactly the routes
      in the running transition get an in-motion role, `transitionFrom`,
      `transitionTo` and the end handler; the others are `head` when active and
      `stacked` otherwise. */
  lemma RenderRoles(
    decls: seq<Decl>, active: Option<string>, previous: Option<string>,
    inProgress: bool, dataMap: map<string, RouteState>, defaultKeepMounted: bool, m: MountedRoute)
    requires m in Render(decls, active, previous, inProgress, dataMap, defaultKeepMounted)
    ensures Truthy(active) && m.key in dataMap && m.routeState == dataMap[m.key]
    ensures var moving := inProgress && (m.key == active.value || Some(m.key) == previous);
      && (m.endsTransition <==> moving)
      && (IsMoving(m.transitionState) <==> moving)
      && (m.transitionTo.Some? <==> moving)
      && (moving ==> m.transitionTo == active && m.transitionFrom == previous)
      && (!moving ==> m.transitionFrom.None? && (m.transitionState == Head <==> m.key == active.value))
  {
    var v := View(active.value, previous, inProgress, dataMap, defaultKeepMounted);
    var d :| d in decls && Selected(d, v) && m == Mount(d, v);
  }
}
