/** `CssRouteAnimation` of the older generation: a list of per-route configs,
    the first one naming either end of the transition overriding the default
    class for each role. */
module LegacyCssAnimation {
  import opened Model
  import opened ClassList
  import LegacyRouteSwitch
  import PackageCssAnimation

  /** `CssAnimationConfig`: a class name per role. A key set to `undefined` is
      present with the value `None`. */
  type AnimationConfig = map<RouteTransitionState, Option<string>>

  /** `CssPerRouteAnimationConfig` */
  datatype PerRouteConfig = PerRouteConfig(name: string, partial: bool, animations: AnimationConfig)

  /** What `transitionDetails$` carries for an animated element; the two names
      are null while the route is idle. */
  datatype Details = Details(transitionState: RouteTransitionState, transitionFrom: Option<string>, transitionTo: Option<string>)

  /** The error a JavaScript engine raises on `null.startsWith(...)`. */
  datatype TypeError = NullStartsWith

  /** `isRouteMatching(test, name, partial)` as written when `test` may be null:
      `name === null` is false, and only a partial name goes on to call
      `startsWith` on the null test. */
  function MatchesAsWritten(test: Option<string>, name: string, partial: bool): (r: Result<bool, TypeError>)
    ensures test.Some? ==> r == Ok(LegacyRouteSwitch.IsRouteMatching(test.value, name, partial))
    ensures test.None? ==> (r.Err? <==> partial)
    ensures test.None? && r.Ok? ==> !r.value
  {
    if test.Some? then Ok(LegacyRouteSwitch.IsRouteMatching(test.value, name, partial))
    else if partial then Err(NullStartsWith)
    else Ok(false)
  }

  /** A name matches a config; a null name matches none. */
  predicate NameMatches(test: Option<string>, c: PerRouteConfig) {
    test.Some? && LegacyRouteSwitch.IsRouteMatching(test.value, c.name, c.partial)
  }

  predicate ConfigMatches(c: PerRouteConfig, from: Option<string>, to: Option<string>) {
    NameMatches(from, c) || NameMatches(to, c)
  }

  /** `perRouteAnimations.find(...)` as written: a config is tested against
      `transitionFrom` first and, when that does not match, `transitionTo`; a
      thrown error ends the search. A missing list behaves as the empty one. */
  function FindRouteConfigAsWritten(configs: seq<PerRouteConfig>, from: Option<string>, to: Option<string>)
    : (r: Result<Option<PerRouteConfig>, TypeError>)
    ensures r.Ok? && r.value.Some? ==> r.value.value in configs && ConfigMatches(r.value.value, from, to)
    ensures r.Err? ==> exists c :: c in configs && c.partial && (from.None? || to.None?)
  {
    if configs == [] then Ok(None)
    else
      var c := configs[0];
      var fromMatch := MatchesAsWritten(from, c.name, c.partial);
      if fromMatch.Err? then Err(fromMatch.error)
      else if fromMatch.value then Ok(Some(c))
      else
        var toMatch := MatchesAsWritten(to, c.name, c.partial);
        if toMatch.Err? then Err(toMatch.error)
        else if toMatch.value then Ok(Some(c))
        else FindRouteConfigAsWritten(configs[1..], from, to)
  }

  /** A route that is not in transition has null names, so any partial config
      in the list makes the lookup throw: every idle render crashes. */
  lemma {:induction false} IdleLookupThrows(configs: seq<PerRouteConfig>, i: nat)
    requires i < |configs| && configs[i].partial
    ensures FindRouteConfigAsWritten(configs, None, None).Err?
  {
    if !configs[0].partial {
      assert configs[1..][i - 1] == configs[i];
      IdleLookupThrows(configs[1..], i - 1);
    }
  }

  /** The smallest such input: one partial config and an idle route. */
  lemma NullNameCounterexample()
    ensures FindRouteConfigAsWritten([PerRouteConfig("c", true, map[])], None, None) == Err(NullStartsWith)
  {
  }

  /** Index of the first config matching either name, `|configs|` if none does. */
  function FirstMatchingConfig(configs: seq<PerRouteConfig>, from: Option<string>, to: Option<string>): (k: nat)
    ensures k <= |configs|
    ensures forall j :: 0 <= j < k ==> !ConfigMatches(configs[j], from, to)
    ensures k < |configs| ==> ConfigMatches(configs[k], from, to)
  {
    if configs == [] then 0
    else if ConfigMatches(configs[0], from, to) then 0
    else 1 + FirstMatchingConfig(configs[1..], from, to)
  }

  /** The intended lookup: a null name matches no config. */
  function FindRouteConfig(configs: seq<PerRouteConfig>, from: Option<string>, to: Option<string>): (r: Option<PerRouteConfig>)
    ensures var k := FirstMatchingConfig(configs, from, to);
      r == if k < |configs| then Some(configs[k]) else None
  {
    if configs == [] then None
    else if ConfigMatches(configs[0], from, to) then Some(configs[0])
    else FindRouteConfig(configs[1..], from, to)
  }

  /** The corrected lookup never fails; wherever the code as written returns,
      it returns the same config, and it always returns for a route in
      transition, whose two names are present. An idle route gets no config. */
  lemma {:induction false} LookupCorrected(configs: seq<PerRouteConfig>, from: Option<string>, to: Option<string>)
    ensures FindRouteConfigAsWritten(configs, from, to).Ok? ==>
      FindRouteConfigAsWritten(configs, from, to).value == FindRouteConfig(configs, from, to)
    ensures from.Some? && to.Some? ==> FindRouteConfigAsWritten(configs, from, to) == Ok(FindRouteConfig(configs, from, to))
    ensures from.None? && to.None? ==> FindRouteConfig(configs, from, to).None?
  {
    if configs != [] {
      LookupCorrected(configs[1..], from, to);
    }
  }

  /** `{ ...defaultAnimations, ...routeSpecificAnimations }[transitionState]`:
      a key of the route's config, even an undefined one, hides the default. */
  function MergedClassName(defaults: AnimationConfig, config: Option<PerRouteConfig>, s: RouteTransitionState): (r: Option<string>)
    ensures config.Some? && s in config.value.animations ==> r == config.value.animations[s]
    ensures (config.None? || s !in config.value.animations) ==> r == (if s in defaults then defaults[s] else None)
  {
    var merged := if config.Some? then defaults + config.value.animations else defaults;
    if s in merged then merged[s] else None
  }

  /** The dynamic class of an element for the given details, with the
      corrected lookup: the role's class from the first config naming either
      end of the transition when that config sets the role, the role's default
      otherwise. */
  function DynamicClassName(details: Details, defaults: AnimationConfig, configs: seq<PerRouteConfig>): (r: Option<string>)
    ensures var k := FirstMatchingConfig(configs, details.transitionFrom, details.transitionTo);
      && (k < |configs| && details.transitionState in configs[k].animations ==> r == configs[k].animations[details.transitionState])
      && (!(k < |configs| && details.transitionState in configs[k].animations) ==>
            r == if details.transitionState in defaults then defaults[details.transitionState] else None)
  {
    MergedClassName(defaults, FindRouteConfig(configs, details.transitionFrom, details.transitionTo), details.transitionState)
  }

  /** An idle route shows its role's default class. */
  lemma IdleUsesDefault(s: RouteTransitionState, defaults: AnimationConfig, configs: seq<PerRouteConfig>)
    ensures DynamicClassName(Details(s, None, None), defaults, configs) == (if s in defaults then defaults[s] else None)
  {
    LookupCorrected(configs, None, None);
  }

  /** A config naming the previous route applies even when the route itself
      is the one being left: either end of the transition selects it. */
  lemma ConfigForEitherEnd(details: Details, defaults: AnimationConfig, configs: seq<PerRouteConfig>, i: nat)
    requires i < |configs| && ConfigMatches(configs[i], details.transitionFrom, details.transitionTo)
    requires forall j :: 0 <= j < i ==> !ConfigMatches(configs[j], details.transitionFrom, details.transitionTo)
    requires details.transitionState in configs[i].animations
    ensures DynamicClassName(details, defaults, configs) == configs[i].animations[details.transitionState]
  {
    assert FirstMatchingConfig(configs, details.transitionFrom, details.transitionTo) == i;
  }

  /** `handleTransitionEnd` of this generation: every `transitionend` event
      reaching the element, from the element or any descendant and for any
      property, is forwarded when the route has a callback. */
  function TransitionEndForwarded(targetIsElement: bool, eventPropertyName: string, hasOnTransitionEnded: bool): (r: bool)
    ensures r <==> hasOnTransitionEnded
  {
    hasOnTransitionEnded
  }

  /** The newer filter forwards a subset of what this one forwards, and a
      strict subset: an event bubbling up from a descendant, and an event for a
      property other than the recorded one, reach the callback here but not
      there. */
  lemma TransitionEndFilterNarrowed(
    ignoreTransitionEnd: bool, targetIsElement: bool, eventPropertyName: string,
    lastPropertyName: Option<string>, hasOnTransitionEnded: bool)
    ensures PackageCssAnimation.TransitionEndForwarded(
        ignoreTransitionEnd, targetIsElement, eventPropertyName, lastPropertyName, hasOnTransitionEnded)
      ==> TransitionEndForwarded(targetIsElement, eventPropertyName, hasOnTransitionEnded)
    ensures hasOnTransitionEnded ==>
      && TransitionEndForwarded(false, eventPropertyName, hasOnTransitionEnded)
      && !PackageCssAnimation.TransitionEndForwarded(ignoreTransitionEnd, false, eventPropertyName, lastPropertyName, hasOnTransitionEnded)
    ensures hasOnTransitionEnded && Truthy(lastPropertyName) && eventPropertyName != lastPropertyName.value ==>
      && TransitionEndForwarded(targetIsElement, eventPropertyName, hasOnTransitionEnded)
      && !PackageCssAnimation.TransitionEndForwarded(ignoreTransitionEnd, targetIsElement, eventPropertyName, lastPropertyName, hasOnTransitionEnded)
  {
  }

  /** One animated element of this generation, using the corrected lookup. */
  class CssRouteAnimation {
    const className: Option<string>
    const startClassName: Option<string>
    const defaultAnimations: AnimationConfig
    const perRouteAnimations: seq<PerRouteConfig>
    var classList: seq<string>

    /** The element's class list, as a DOM token list, holds no repeats. */
    predicate Valid()
      reads this
    {
      NoRepeats(classList)
    }

    constructor (className: Option<string>, startClassName: Option<string>, defaultAnimations: AnimationConfig,
                 perRouteAnimations: seq<PerRouteConfig>, classList: seq<string>)
      requires NoRepeats(classList)
      ensures Valid()
      ensures this.className == className && this.startClassName == startClassName
      ensures this.defaultAnimations == defaultAnimations && this.perRouteAnimations == perRouteAnimations
      ensures this.classList == classList
    {
      this.className := className;
      this.startClassName := startClassName;
      this.defaultAnimations := defaultAnimations;
      this.perRouteAnimations := perRouteAnimations;
      this.classList := classList;
    }

    /** `updateClassNamesWhenNeeded`; here a route is in transition exactly
        when its role is neither `head` nor `stacked`. */
    method UpdateClassNamesWhenNeeded(details: Details, triggerAnimation: bool)
      requires Valid()
      modifies this
      ensures Valid()
      ensures var dynamic := DynamicClassName(details, defaultAnimations, perRouteAnimations);
        classList == NewClassList(
          old(classList), ExpectedClasses(className, dynamic), triggerAnimation,
          AddsStartClass(triggerAnimation, IsMoving(details.transitionState), dynamic, startClassName),
          if startClassName.Some? then startClassName.value else "")
    {
      var routeSpecificAnimations := FindRouteConfig(perRouteAnimations, details.transitionFrom, details.transitionTo);
      var dynamicClassName := MergedClassName(defaultAnimations, routeSpecificAnimations, details.transitionState);
      var inTransition := details.transitionState != Head && details.transitionState != Stacked;
      var expectedClasses := ExpectedClasses(className, dynamicClassName);
      if !triggerAnimation && UpToDate(classList, expectedClasses) {
        return;
      }
      classList := Tokens(expectedClasses);
      if triggerAnimation && inTransition && Truthy(dynamicClassName) && Truthy(startClassName) {
        classList := AddClass(classList, startClassName.value);
      }
    }
  }
}
