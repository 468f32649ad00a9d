# Route-switch reconciliation of react-screen-transitions

This project is a Dafny model of the core of react-screen-transitions, with proofs about that model. The core is the part that decides which screens of a hierarchical, dot-separated route tree stay mounted during a navigation, and what role each one plays.

Each navigation gives every screen one role:
- the leaving route: `popping`, `stacking` or `abandoning`;
- the entering route: `pushing`, `unstacking` or `restoring`;
- any other mounted route is idle: `head` or `stacked`.

The core also covers how those roles drive CSS classes on the animated element, and how the transition ends. It ends either by a `transitionend` event or by a timeout.

Both generations of the library are modelled: the newer one under `package/src/lib` and the older one under `src/lib`.

## Newer generation
- Routes are declared by a `pattern`; a trailing `*` makes it match descendants.
- The switch keeps `active`, `previous` and `last` as patterns.
- Animations can be overridden per counterpart pattern, by a table or a callback.

## Older generation
- Routes are declared by a `name` with an explicit `partial` flag.
- The active route is stored as the router's concrete route name, while `previous` and `last` hold declared names. This split is modelled as written.
- Animations are overridden by a list of per-route configs.

## Modules
| file | module | what it holds |
|---|---|---|
| `model.dfy` | `Model` | The role enum, `Option`/`Result`, and JavaScript truthiness of a nullable string (null and `""` are falsy). |
| `routes.dfy` | `Routes` | `isAncestorRoute`, `getIdleState` and `getTransitionState`. Both generations have the same text for these. |
| `mounting.dfy` | `Mounting` | The render pass: filter, then map, over the declared routes. It is shared by both generations. |
| `driver.dfy` | `TransitionDriver` | The transition flag, `handleTransitionEnd` and the timeout effect. It is a pure step function per event, plus a `Driver` class whose methods are proved equal to those steps. |
| `package_switch.dfy` | `PackageRouteSwitch` | The newer matcher, `findMatchingPattern`, the subscription's `next` handler, the lifecycle effect and the `RouteSwitch` class. |
| `legacy_switch.dfy` | `LegacyRouteSwitch` | The same pieces for the older generation. |
| `class_list.dfy` | `ClassList` | The class-list decision of `updateClassNamesWhenNeeded`, which is identical in both generations. |
| `package_css.dfy` | `PackageCssAnimation` | `toComplexAnimation`, `resolveAnimation`, `determineRouteAnimation`, the `transitionend` filter and the element as a class. |
| `legacy_css.dfy` | `LegacyCssAnimation` | The per-route config lookup and merge of the older `CssRouteAnimation`. |
| `carousel.dfy` | `CarouselAnimation` | `handleDetermineAnimation`. It is written against the newer `resolveAnimation`, and is modelled that way. |
| `navigation.dfy` | `Navigation` | Whole navigations, from an emission to the rendered list during and after the transition. |

## How the model is built
Each piece of React state or ref becomes a class field:
- `activePattern`, `previousPattern`, `lastPatternNameRef` and `dataMap` in `RouteSwitch`;
- `transitionInProgress` and `timerRef` in `Driver`;
- the element's class list and `lastAnimationPropertyName` in `CssRouteAnimation`.

Each method is proved equal to a pure function of the old state, such as `Next`, `EndTransition`, `TimerEffect` or `NewClassList`. The properties are proved about those functions.

The host timer queue is a set of armed handles, and `setTimeout` returns a fresh handle.

## Model
| member | source | states |
|---|---|---|
| Routes.AncestorIrreflexive | package/src/lib/RouteSwitch.tsx:128 | No route is its own ancestor. |
| Routes.AncestorAsymmetric | package/src/lib/RouteSwitch.tsx:128 | The ancestor relation never holds in both directions for one pair. |
| Routes.AncestorTransitive | package/src/lib/RouteSwitch.tsx:128 | An ancestor of an ancestor is an ancestor. |
| Routes.IsAncestorRoute | package/src/lib/RouteSwitch.tsx:128 | An ancestor is a strictly shorter prefix of the descendant, followed there by a dot. |
| Routes.GetIdleState | package/src/lib/RouteSwitch.tsx:18-24 | An idle route is `head` iff it is the active route, `stacked` otherwise. |
| Routes.GetTransitionState | package/src/lib/RouteSwitch.tsx:26-56 | A role is given iff the route is the active or the previous one, and that role is always in-motion; otherwise the result is null. |
| Routes.LeavingRouteRole | package/src/lib/RouteSwitch.tsx:31-41 | The previous route pops iff the active route is its ancestor, stacks iff it is the active route's ancestor, and abandons iff neither holds. |
| Routes.EnteringRouteRole | package/src/lib/RouteSwitch.tsx:42-52 | The active route pushes iff it descends from a truthy previous route, unstacks iff it is that route's ancestor, and restores otherwise. A null previous route gives `restoring`. |
| Routes.TransitionRolesMirror | package/src/lib/RouteSwitch.tsx:26-56 | The two ends of one transition get mirrored roles: push with stack, unstack with pop, restore with abandon. |
| PackageRouteSwitch.PatternBase | package/src/lib/RouteSwitch.tsx:59-62 | A pattern ending in `*` is its base plus `*`; any other pattern is its own base. |
| PackageRouteSwitch.IsRouteMatching | package/src/lib/RouteSwitch.tsx:58-64 | Every match starts with the pattern's base, and a pattern without `*` matches exactly itself. |
| PackageRouteSwitch.WildcardMatching | package/src/lib/RouteSwitch.tsx:58-64 | `b*` matches `t` iff `t == b` or `b` is an ancestor of `t`. |
| PackageRouteSwitch.ExactMatching | package/src/lib/RouteSwitch.tsx:58-64 | A pattern without `*` matches only itself. |
| PackageRouteSwitch.FirstStop | package/src/lib/RouteSwitch.tsx:66-75 | The index where `.find` stops: every earlier child is a non-matching route, and the child at the index is a non-route or a match. |
| PackageRouteSwitch.FindMatchingPattern | package/src/lib/RouteSwitch.tsx:66-77 | Returns the first matching child's pattern, none when nothing matches, or the error when a non-route child comes first. |
| PackageRouteSwitch.InitialStatus | package/src/lib/RouteSwitch.tsx:84-90 | Active equals last, there is no previous route and the data map is empty. With no current route, everything is null. |
| PackageRouteSwitch.Next | package/src/lib/RouteSwitch.tsx:95-118 | A null emission changes nothing. The handler fails exactly when the search throws. Stored data is never dropped. A raise happens only from a truthy last pattern, which moves to `previous` as the last pattern changes. |
| PackageRouteSwitch.EmissionMatchingChild | package/src/lib/RouteSwitch.tsx:95-117 | A new pattern becomes active and last, the old last becomes previous, and the flag is raised iff the old last was truthy. The same pattern again only updates its data. |
| PackageRouteSwitch.EmissionWithoutMatch | package/src/lib/RouteSwitch.tsx:99-103 | With no match, `active` becomes null and nothing else changes. |
| PackageRouteSwitch.EmissionRejectsNonRoute | package/src/lib/RouteSwitch.tsx:69-72 | A child that is not a route (another element, a string or a number) reached before a match makes the handler throw. |
| PackageRouteSwitch.DataMapOnlyGrows | package/src/lib/RouteSwitch.tsx:114-117 | The data map never loses a key. Only the last pattern's entry changes, and it changes to the emitted state. |
| PackageRouteSwitch.NextPreservesInvariant | package/src/lib/RouteSwitch.tsx:95-112 | Two facts are preserved: an active pattern is the last one, and while a transition runs the previous route is truthy and differs from the last. |
| PackageRouteSwitch.InitialInvariant | package/src/lib/RouteSwitch.tsx:84-89 | The initial status satisfies that invariant with the flag down. |
| PackageRouteSwitch.ReturnAfterMissStaysInactive | package/src/lib/RouteSwitch.tsx:100-112 | After an unmatched emission, matching the last pattern again leaves `active` null. |
| PackageRouteSwitch.Decls | package/src/lib/RouteSwitch.tsx:184-194 | Exactly the route children become declarations, keyed by pattern. |
| PackageRouteSwitch.DeclsFollowChildren | package/src/lib/RouteSwitch.tsx:184-194 | The declarations keep the children's order: splitting the children splits the declarations the same way, a route child gives its own declaration, and any other child gives none. |
| PackageRouteSwitch.RenderChildren | package/src/lib/RouteSwitch.tsx:179-224 | The render fails iff the active pattern is truthy and some child is a string or number, whose `props.pattern` cannot be read. Otherwise it is the filter-and-map render of the declarations, and with a falsy active pattern it is empty. |
| PackageRouteSwitch.LifecycleEffect | package/src/lib/RouteSwitch.tsx:167-177 | With a truthy active and previous route, the start handler is called while in transition and the complete handler otherwise. The arguments are `(active, previous)`. |
| PackageRouteSwitch.RouteSwitch.constructor | package/src/lib/RouteSwitch.tsx:84-90 | The switch starts in the initial status, with the driver idle. |
| PackageRouteSwitch.RouteSwitch.OnRouteState | package/src/lib/RouteSwitch.tsx:95-118 | The new status is `Next` of the old one, and the flag is raised when `Next` says so. An error leaves everything unchanged. Both invariants are kept. |
| PackageRouteSwitch.RouteSwitch.HandleTransitionEnd | package/src/lib/RouteSwitch.tsx:145-153 | The driver takes the `EndTransition` step and keeps its invariants. |
| PackageRouteSwitch.RouteSwitch.RunTimerEffect | package/src/lib/RouteSwitch.tsx:155-165 | The driver takes the `TimerEffect` step and keeps its invariants. |
| PackageRouteSwitch.RouteSwitch.TimeoutFired | package/src/lib/RouteSwitch.tsx:159 | The driver takes the `Fire` step and keeps its invariants. |
| Mounting.KeepsMounted | package/src/lib/RouteSwitch.tsx:185-202 | A `keepMounted` prop the route writes decides, even when its value is `undefined` or `null`, which the spread lets override the default as a falsy value. The switch-wide default applies only when the route does not write the prop. |
| Mounting.Selected | package/src/lib/RouteSwitch.tsx:195-204 | A kept route has stored data. The active route with data is always kept, and so is a route in the running transition. Any other kept route is an ancestor of the active route. |
| Mounting.Mount | package/src/lib/RouteSwitch.tsx:205-223 | A mounted route carries its key and the stored route state. |
| Mounting.RenderFrom | package/src/lib/RouteSwitch.tsx:189-224 | Every rendered route is the mapping of a selected declaration, and every selected declaration is rendered. |
| Mounting.Render | package/src/lib/RouteSwitch.tsx:181-183 | A falsy active route renders nothing. |
| Mounting.RenderKeepsOrder | package/src/lib/RouteSwitch.tsx:189-224 | The rendered keys are a subsequence of the declared keys. With PackageRouteSwitch.DeclsFollowChildren this means they are in the children's order. |
| Mounting.RenderMembership | package/src/lib/RouteSwitch.tsx:195-204 | A key is rendered iff it has data and is one of three routes: the active one, the previous one during a transition, or a keep-mounted strict ancestor of the active one. |
| Mounting.RenderRoles | package/src/lib/RouteSwitch.tsx:205-223 | Exactly the routes in the running transition get an in-motion role, `transitionFrom`/`transitionTo` and the end handler. All other routes are `head` when active and `stacked` otherwise. |
| TransitionDriver.Idle | package/src/lib/RouteSwitch.tsx:140-143 | The idle driver satisfies the timing invariant. |
| TransitionDriver.RaiseFlag | package/src/lib/RouteSwitch.tsx:107 | The flag is set, and the stored and armed timers are untouched. A raise while in transition changes nothing. |
| TransitionDriver.Fire | package/src/lib/RouteSwitch.tsx:159 | A handle that is not armed changes nothing. An armed one leaves the queue and ends the transition, arming nothing new. |
| TransitionDriver.EndTransition | package/src/lib/RouteSwitch.tsx:145-153 | Only a running transition is ended and its stored timer cleared. An idle driver is unchanged. |
| TransitionDriver.TimerEffect | package/src/lib/RouteSwitch.tsx:155-165 | While in transition, the new timer is armed and stored and the old one is cancelled. Otherwise nothing changes. |
| TransitionDriver.RaisePreserves | package/src/lib/RouteSwitch.tsx:105-107 | Raising the flag keeps the timing invariant. |
| TransitionDriver.EndPreserves | package/src/lib/RouteSwitch.tsx:145-153 | Ending keeps the timing invariant. |
| TransitionDriver.TimerEffectPreserves | package/src/lib/RouteSwitch.tsx:155-165 | The timer effect keeps the invariant, and afterwards the new timer is the only armed one. |
| TransitionDriver.FireIsEnd | package/src/lib/RouteSwitch.tsx:159 | An armed timer firing does exactly what `handleTransitionEnd` does. |
| TransitionDriver.EndIdempotent | package/src/lib/RouteSwitch.tsx:145-153 | A second end, from the timer after the event or the reverse, is a no-op. |
| TransitionDriver.NothingArmedAfterEnd | package/src/lib/RouteSwitch.tsx:145-165 | After an end no timer is armed, so a later timeout changes nothing. |
| TransitionDriver.RapidNavigations | package/src/lib/RouteSwitch.tsx:105-165 | In any state that satisfies the invariant with a transition running, another raise changes nothing, so the timer effect does not rerun. A single end then leaves the driver idle with no armed timer. |
| TransitionDriver.Driver.constructor | package/src/lib/RouteSwitch.tsx:140-143 | The driver starts idle. |
| TransitionDriver.Driver.Raise | package/src/lib/RouteSwitch.tsx:107 | The new state is `RaiseFlag` of the old one. |
| TransitionDriver.Driver.HandleTransitionEnd | package/src/lib/RouteSwitch.tsx:145-153 | The new state is `EndTransition` of the old one. |
| TransitionDriver.Driver.RunTimerEffect | package/src/lib/RouteSwitch.tsx:155-165 | The new state is `TimerEffect` of the old one. |
| TransitionDriver.Driver.TimeoutFired | package/src/lib/RouteSwitch.tsx:159 | The new state is `Fire` of the old one. |
| LegacyRouteSwitch.IsRouteMatching | src/lib/RouteSwitch.tsx:57-58 | Every match starts with the name, and a name that is not partial matches exactly itself. |
| LegacyRouteSwitch.PartialMatching | src/lib/RouteSwitch.tsx:57-58 | A partial name matches itself and its descendants; an exact name matches only itself. |
| LegacyRouteSwitch.MatchingGenerationsAgree | src/lib/RouteSwitch.tsx:57-58 | The two matchers agree: a `*` pattern corresponds to a partial name with the same base. |
| LegacyRouteSwitch.FirstStop | src/lib/RouteSwitch.tsx:60-69 | The index where `.find` stops. |
| LegacyRouteSwitch.FindDefinedRouteName | src/lib/RouteSwitch.tsx:60-71 | Returns the first name matching under its own `partial` flag, or the error at a preceding non-route child. |
| LegacyRouteSwitch.InitialStatus | src/lib/RouteSwitch.tsx:78-84 | Active equals last, with no previous route and no data. |
| LegacyRouteSwitch.Next | src/lib/RouteSwitch.tsx:89-109 | A null emission throws. Otherwise the handler fails exactly when the search throws. Stored data is never dropped. A raise happens only from a truthy last declared name, which moves to `previous` as the last name changes. |
| LegacyRouteSwitch.EmissionMatchingChild | src/lib/RouteSwitch.tsx:89-108 | A new declared name becomes last, `active` becomes the concrete emitted name, and the old last becomes previous. The flag is raised iff the old last was truthy. |
| LegacyRouteSwitch.EmissionWithoutMatch | src/lib/RouteSwitch.tsx:90-94 | With no match, `active` becomes null and nothing else changes. |
| LegacyRouteSwitch.EmissionRejectsNonRoute | src/lib/RouteSwitch.tsx:63-66 | A child that is not a route (another element, a string or a number) before a match throws. |
| LegacyRouteSwitch.DataMapOnlyGrows | src/lib/RouteSwitch.tsx:105-108 | The data map is keyed by declared name, never shrinks, and changes only the last name's entry. |
| LegacyRouteSwitch.NextPreservesInvariant | src/lib/RouteSwitch.tsx:96-103 | While a transition runs, the previous declared name is truthy and differs from the last. |
| LegacyRouteSwitch.ActiveNameGoesStale | src/lib/RouteSwitch.tsx:96-108 | A second concrete route under the same declaration updates the data but not the active name. |
| LegacyRouteSwitch.Decls | src/lib/RouteSwitch.tsx:161-171 | Exactly the route children become declarations, keyed by name. |
| LegacyRouteSwitch.DeclsFollowChildren | src/lib/RouteSwitch.tsx:161-171 | The declarations keep the children's order: splitting the children splits the declarations the same way, a route child gives its own declaration, and any other child gives none. |
| LegacyRouteSwitch.RenderChildren | src/lib/RouteSwitch.tsx:156-201 | The render fails iff the active name is truthy and some child is a string or number, whose `props.name` cannot be read. Otherwise it is the filter-and-map render of the declarations, and with a falsy active name it is empty. |
| LegacyRouteSwitch.PartialEntryNotRendered | src/lib/RouteSwitch.tsx:172-180 | A partial declaration entered through a descendant is not rendered unless it keeps mounted. |
| LegacyRouteSwitch.RouteSwitch.constructor | src/lib/RouteSwitch.tsx:78-84 | The switch starts in the initial status, with the driver idle. |
| LegacyRouteSwitch.RouteSwitch.OnRouteState | src/lib/RouteSwitch.tsx:88-109 | The new status is `Next` of the old one, and the flag is raised when `Next` says so. An error, including a null emission, changes nothing. |
| LegacyRouteSwitch.RouteSwitch.HandleTransitionEnd | src/lib/RouteSwitch.tsx:134-142 | The driver takes the `EndTransition` step. |
| LegacyRouteSwitch.RouteSwitch.RunTimerEffect | src/lib/RouteSwitch.tsx:144-154 | The driver takes the `TimerEffect` step. |
| LegacyRouteSwitch.RouteSwitch.TimeoutFired | src/lib/RouteSwitch.tsx:148 | The driver takes the `Fire` step. |
| ClassList.ExpectedClasses | package/src/lib/CssRouteAnimation.tsx:123-126 | Holds exactly the truthy ones of the static and dynamic class, static first. |
| ClassList.Tokens | package/src/lib/CssRouteAnimation.tsx:137 | The written list holds each expected class exactly once. |
| ClassList.AddClass | package/src/lib/CssRouteAnimation.tsx:139 | Adding a class yields the old classes plus that one, and keeps a list without repeats free of repeats. |
| ClassList.NewClassList | package/src/lib/CssRouteAnimation.tsx:128-140 | Without a trigger, an up-to-date list is kept. Otherwise the new list holds exactly the expected classes, plus the start class when it is added. A list without repeats stays without repeats. |
| ClassList.NoWriteWhenUpToDate | package/src/lib/CssRouteAnimation.tsx:129-136 | Without a trigger, an up-to-date list is left alone. |
| ClassList.WrittenClasses | package/src/lib/CssRouteAnimation.tsx:137-140 | Otherwise the list holds exactly the expected classes plus the start class when it is added, with no repeats. |
| ClassList.UpdateIdempotent | package/src/lib/CssRouteAnimation.tsx:129-140 | Repeating an update with the same inputs changes nothing more. |
| ClassList.WrittenListUpToDate | package/src/lib/CssRouteAnimation.tsx:129-137 | A freshly written list passes the next early-return test iff the expected classes hold no repeated token. |
| PackageCssAnimation.ToComplexAnimation | package/src/lib/CssRouteAnimation.tsx:47-49 | A string becomes `{className}`, an object is kept, and a falsy value stays falsy. |
| PackageCssAnimation.FirstMatchingEntry | package/src/lib/CssRouteAnimation.tsx:58-60 | The index of the first table entry whose key is the counterpart or matches it. |
| PackageCssAnimation.FindEntry | package/src/lib/CssRouteAnimation.tsx:58-62 | Returns that entry's animation, or nothing. |
| PackageCssAnimation.ResolveAnimation | package/src/lib/CssRouteAnimation.tsx:51-64 | Null without overrides; otherwise the normalised callback result or the normalised first matching entry. |
| PackageCssAnimation.DetermineRouteAnimation | package/src/lib/CssRouteAnimation.tsx:66-92 | An idle route takes its role's default. A leaving route resolves `whenLeavingTo` against `transitionTo`. An entering route that is not leaving resolves `whenEnteringFrom` against `transitionFrom`. A null resolution falls back to the default. |
| PackageCssAnimation.IdleUsesDefault | package/src/lib/CssRouteAnimation.tsx:74-78 | A route that is neither leaving nor entering gets its role's default. |
| PackageCssAnimation.TableEntryWins | package/src/lib/CssRouteAnimation.tsx:80-91 | Leaving consults `whenLeavingTo` with `transitionTo`; entering consults `whenEnteringFrom` with `transitionFrom`. A truthy first match wins, and with no match the default applies. |
| PackageCssAnimation.WildcardKeyApplies | package/src/lib/CssRouteAnimation.tsx:60 | A key `b*` applies to `b` and all its descendants. |
| PackageCssAnimation.TransitionEndForwarded | package/src/lib/CssRouteAnimation.tsx:162-179 | An event is forwarded iff four things hold: the handler is attached (not ignored), the event targets the element itself, a callback is present, and either no property name is recorded or the event's property is that name. |
| PackageCssAnimation.CssRouteAnimation.constructor | package/src/lib/CssRouteAnimation.tsx:94-106 | The element starts from a class list without repeats, as a DOM token list is. The props are stored and no property name is recorded yet. |
| PackageCssAnimation.CssRouteAnimation.UpdateClassNamesWhenNeeded | package/src/lib/CssRouteAnimation.tsx:110-143 | Records the animation's property name, and the class list becomes `NewClassList` of the old list and the resolved animation. The class list stays free of repeats. |
| LegacyCssAnimation.MatchesAsWritten | src/lib/RouteSwitch.tsx:57-58 | With a name present this is `isRouteMatching`. With a null name it throws iff the config is partial, and otherwise does not match. |
| LegacyCssAnimation.FindRouteConfigAsWritten | src/lib/CssRouteAnimation.tsx:38-42 | A returned config is in the list and names one end of the transition. A throw requires a partial config and a null name. |
| LegacyCssAnimation.IdleLookupThrows | src/lib/CssRouteAnimation.tsx:38-42 | With both names null, any partial config in the list makes the lookup throw. |
| LegacyCssAnimation.NullNameCounterexample | src/lib/CssRouteAnimation.tsx:38-42 | One partial config and an idle route: the lookup throws. |
| LegacyCssAnimation.FirstMatchingConfig | src/lib/CssRouteAnimation.tsx:38-42 | The index of the first config naming either end. |
| LegacyCssAnimation.FindRouteConfig | src/lib/CssRouteAnimation.tsx:38-42 | Returns the config at that index, or none. |
| LegacyCssAnimation.LookupCorrected | src/lib/CssRouteAnimation.tsx:38-42 | Where the as-written lookup returns, it agrees with the corrected one, and it always returns when both names are present. An idle route gets no config. |
| LegacyCssAnimation.MergedClassName | src/lib/CssRouteAnimation.tsx:43-44 | A key of the route's config hides the default, even when its value is undefined. Otherwise the default for the role applies. |
| LegacyCssAnimation.IdleUsesDefault | src/lib/CssRouteAnimation.tsx:38-44 | With the corrected lookup (see Findings), an idle route shows its role's default class. As written, the lookup throws instead when a partial config exists (LegacyCssAnimation.IdleLookupThrows). |
| LegacyCssAnimation.ConfigForEitherEnd | src/lib/CssRouteAnimation.tsx:38-44 | With the corrected lookup (see Findings), the first config naming either end of the transition supplies the class for the role. For a route in transition, both names are present and the lookup as written agrees (LegacyCssAnimation.LookupCorrected). |
| LegacyCssAnimation.DynamicClassName | src/lib/CssRouteAnimation.tsx:38-44 | With the corrected lookup (see Findings), the class is the role's entry of the first config naming either end, when that config sets the role. Otherwise it is the role's default. |
| LegacyCssAnimation.TransitionEndForwarded | src/lib/CssRouteAnimation.tsx:86-94 | The older handler forwards an event iff a callback exists, whatever the event's target or property. |
| LegacyCssAnimation.TransitionEndFilterNarrowed | src/lib/CssRouteAnimation.tsx:86-94 | Whatever the newer filter forwards, the older handler forwards too. Two kinds of event reach the callback only in the older one: an event bubbling up from a descendant, and an event for a property other than the recorded one. |
| LegacyCssAnimation.CssRouteAnimation.constructor | src/lib/CssRouteAnimation.tsx:28 | The element starts from a class list without repeats, and the props are stored. |
| LegacyCssAnimation.CssRouteAnimation.UpdateClassNamesWhenNeeded | src/lib/CssRouteAnimation.tsx:33-67 | The class list becomes `NewClassList` of the merged class and stays free of repeats. Here "in transition" means the role is neither `head` nor `stacked`. |
| CarouselAnimation.IndexOf | src/lib/CarouselAnimation.tsx:36-37 | Returns the first position of the name, or -1 exactly when it is absent. |
| CarouselAnimation.HandleDetermineAnimation | src/lib/CarouselAnimation.tsx:33-61 | When both ends are in the pattern order, moving to a later position picks the left slide for the route's side, and anything else picks the right slide. When either end is outside the order, the carousel's own per-pattern prop for the side decides. |
| CarouselAnimation.CarouselDirection | src/lib/CarouselAnimation.tsx:48-57 | With both ends in the order, moving to a later position slides left and anything else slides right. A falsy slide leaves the default. |
| CarouselAnimation.SamePositionSlidesRight | src/lib/CarouselAnimation.tsx:48-57 | Equal positions select the right-hand variant. |
| CarouselAnimation.CarouselFallback | src/lib/CarouselAnimation.tsx:36-47 | A route outside the order animates as a plain `CssRouteAnimation` with the carousel's own per-pattern props. |
| CarouselAnimation.DirectionsAgree | src/lib/CarouselAnimation.tsx:63-68 | One callback serves both props, so the leaving and entering routes agree on the direction. |
| Navigation.RenderDuring | package/src/lib/RouteSwitch.tsx:195-223 | During a transition from `a` to `p` both are mounted with their classifier roles. Any other mounted route is a stacked ancestor of `p`. |
| Navigation.RenderAfter | package/src/lib/RouteSwitch.tsx:195-223 | After it, `p` is the head and any other mounted route is a stacked ancestor. |
| Navigation.NavigationRender | package/src/lib/RouteSwitch.tsx:95-223 | An emission that changes the pattern starts a transition that renders as above, both during and after. |
| Navigation.PushToDescendant | package/src/lib/RouteSwitch.tsx:95-223 | Navigating down pushes `p` and stacks `a`. Afterwards `a` stays mounted iff one of its declarations keeps mounted. |
| Navigation.JumpAcross | package/src/lib/RouteSwitch.tsx:95-223 | Navigating between unrelated routes restores `p` and abandons `a`, which is unmounted afterwards. |

## Left out
- React itself is not modelled: hooks, effect scheduling, memoisation, context, `cloneElement`, the rxjs subjects and the router5 wiring (`Router5Switch`, `NestedRouteSwitch`). Each state update is applied at once, and the effects are separate methods that the caller runs after a change.
- Several things become parameters: the host timer is a set of handles, and which lifecycle handlers, `onTransitionEnded` callbacks and event targets exist are booleans. The timeout's length is not modelled, because only the order of events matters.
- The hidden-symbol test for route elements (src/lib/Route.tsx:13) is not modelled. A child is a route, another element, or a string or number, as `Children.toArray` yields them.
- A non-route element that carries a `pattern` (or `name`) prop equal to a stored key would be rendered by the map step like a route. This is not modelled: the render drops every element that is not a route.
- The DOM class list is a sequence of class tokens. A class name containing whitespace, which `className = ...join(' ')` would split, is not modelled.
- A per-pattern table is an ordered sequence of entries. `Object.entries` puts integer-like keys first, and that ordering is not modelled.
- PackageCssAnimation.TransitionDetails holds `transitionFrom`/`transitionTo` as strings. The code that sets `leaving`/`entering` is not part of this model, so a null counterpart while leaving or entering is not represented.
- The lifecycle handlers are typed as `(transitionFrom, transitionTo)` but are called with `(activePattern, previousPattern)`. The model records the call as written.
- `getTransitionState` with no previous route gives the active route `restoring` (package/src/lib/RouteSwitch.tsx:42-52). The model states this as the code has it (Routes.EnteringRouteRole).
- LegacyCssAnimation.CssRouteAnimation.UpdateClassNamesWhenNeeded uses the corrected config lookup, not the throwing one (see Findings).

## Findings
| source | as written | input that shows it | evidently intended | confidence | as-written member | corrected member |
|---|---|---|---|---|---|---|
| src/lib/CssRouteAnimation.tsx:38-42 | The per-route lookup calls `isRouteMatching(transitionFrom, name, partial)`. An idle route has `transitionFrom` null, so a partial config reaches `null.startsWith` and throws a TypeError. | `perRouteAnimations = [{ name: 'c', partial: true }]` on any idle route, for example on first mount. | A null name matches no config, and the idle route shows its default class. | high, not executed | LegacyCssAnimation.NullNameCounterexample | LegacyCssAnimation.LookupCorrected |
