/** `CssRouteAnimation` of the newer generation: a route's role and the
    counterpart route of its transition choose an animation (a class name and
    optionally the CSS property whose `transitionend` ends it), which is then
    written into the element's class list. */
module PackageCssAnimation {
  import opened Model
  import opened Routes
  import opened ClassList
  import PackageRouteSwitch

  /** `{ className, propertyName? }` */
  datatype ComplexAnimation = ComplexAnimation(className: string, propertyName: Option<string>)

  /** `CssAnimation = string | ComplexAnimation` */
  datatype CssAnimation = ClassName(name: string) | Complex(animation: ComplexAnimation)

  /** The transition details a mounted route publishes (its end callback aside). */
  datatype TransitionDetails = TransitionDetails(
    transitionState: RouteTransitionState,
    transitionFrom: string,
    transitionTo: string,
    leaving: bool,
    entering: bool)

  /** Per-counterpart overrides: a table from pattern to animation, in the
      table's enumeration order, or a callback. */
  datatype PerPatternAnimations =
    | Table(entries: seq<(string, CssAnimation)>)
    | Callback(decide: (string, TransitionDetails) -> Option<CssAnimation>)

  /** `toComplexAnimation`: a string becomes `{ className }`, an object is kept,
      and a falsy value (missing, or the empty string) stays falsy. */
  function ToComplexAnimation(a: Option<CssAnimation>): (r: Option<ComplexAnimation>)
    ensures r.None? <==> a.None? || a == Some(ClassName(""))
    ensures a.Some? && a.value.ClassName? && a.value.name != "" ==> r == Some(ComplexAnimation(a.value.name, None))
    ensures a.Some? && a.value.Complex? ==> r == Some(a.value.animation)
  {
    match a
    case None => None
    case Some(ClassName(name)) => if name == "" then None else Some(ComplexAnimation(name, None))
    case Some(Complex(animation)) => Some(animation)
  }

  /** The table entry test: the key is the counterpart pattern itself or a
      pattern matching it. */
  predicate EntryMatches(key: string, counterPattern: string) {
    key == counterPattern || PackageRouteSwitch.IsRouteMatching(counterPattern, key)
  }

  /** Index of the first table entry matching the counterpart, or the table's
      length when none does. */
  function FirstMatchingEntry(entries: seq<(string, CssAnimation)>, counterPattern: string): (k: nat)
    ensures k <= |entries|
    ensures forall j :: 0 <= j < k ==> !EntryMatches(entries[j].0, counterPattern)
    ensures k < |entries| ==> EntryMatches(entries[k].0, counterPattern)
  {
    if entries == [] then 0
    else if EntryMatches(entries[0].0, counterPattern) then 0
    else 1 + FirstMatchingEntry(entries[1..], counterPattern)
  }

  /** `Object.entries(table).find(...)`, giving the entry's animation. */
  function FindEntry(entries: seq<(string, CssAnimation)>, counterPattern: string): (r: Option<CssAnimation>)
    ensures var k := FirstMatchingEntry(entries, counterPattern);
      r == if k < |entries| then Some(entries[k].1) else None
  {
    if entries == [] then None
    else if EntryMatches(entries[0].0, counterPattern) then Some(entries[0].1)
    else FindEntry(entries[1..], counterPattern)
  }

  /** `resolveAnimation`: null without overrides, the normalised result of a
      callback, or the normalised first matching table entry. */
  function ResolveAnimation(perPattern: Option<PerPatternAnimations>, counterPattern: string, details: TransitionDetails)
    : (r: Option<ComplexAnimation>)
    ensures perPattern.None? ==> r.None?
    ensures perPattern.Some? && perPattern.value.Callback? ==>
      r == ToComplexAnimation(perPattern.value.decide(counterPattern, details))
    ensures perPattern.Some? && perPattern.value.Table? ==>
      r == ToComplexAnimation(FindEntry(perPattern.value.entries, counterPattern))
  {
    match perPattern
    case None => None
    case Some(Callback(decide)) => ToComplexAnimation(decide(counterPattern, details))
    case Some(Table(entries)) => ToComplexAnimation(FindEntry(entries, counterPattern))
  }

  /** The default animation configured for a role, if any. */
  function DefaultAnimation(defaults: map<RouteTransitionState, CssAnimation>, s: RouteTransitionState): Option<CssAnimation> {
    if s in defaults then Some(defaults[s]) else None
  }

  /** `specific || toComplexAnimation(defaultAnimation)` */
  function OrDefault(specific: Option<ComplexAnimation>, defaults: map<RouteTransitionState, CssAnimation>, s: RouteTransitionState)
    : Option<ComplexAnimation>
  {
    if specific.Some? then specific else ToComplexAnimation(DefaultAnimation(defaults, s))
  }

  /** `determineRouteAnimation`: a route in motion looks its counterpart up in
      the per-pattern overrides for its side (where it is going when leaving,
      where it comes from when entering) and falls back to its role's default;
      an idle route takes the default. */
  function DetermineRouteAnimation(
    details: TransitionDetails,
    defaults: map<RouteTransitionState, CssAnimation>,
    whenLeavingTo: Option<PerPatternAnimations>,
    whenEnteringFrom: Option<PerPatternAnimations>
  ): (r: Option<ComplexAnimation>)
    ensures !(details.leaving || details.entering) ==> r == ToComplexAnimation(DefaultAnimation(defaults, details.transitionState))
    ensures details.leaving ==> r == OrDefault(ResolveAnimation(whenLeavingTo, details.transitionTo, details), defaults, details.transitionState)
    ensures !details.leaving && details.entering ==>
      r == OrDefault(ResolveAnimation(whenEnteringFrom, details.transitionFrom, details), defaults, details.transitionState)
  {
    if !(details.leaving || details.entering) then ToComplexAnimation(DefaultAnimation(defaults, details.transitionState))
    else
      var perPattern := if details.leaving then whenLeavingTo else whenEnteringFrom;
      var counterPattern := if details.leaving then details.transitionTo else details.transitionFrom;
      OrDefault(ResolveAnimation(perPattern, counterPattern, details), defaults, details.transitionState)
  }

  /** A route neither leaving nor entering takes its role's default. */
  lemma IdleUsesDefault(details: TransitionDetails, defaults: map<RouteTransitionState, CssAnimation>,
                        whenLeavingTo: Option<PerPatternAnimations>, whenEnteringFrom: Option<PerPatternAnimations>)
    requires !details.leaving && !details.entering
    ensures DetermineRouteAnimation(details, defaults, whenLeavingTo, whenEnteringFrom)
      == ToComplexAnimation(DefaultAnimation(defaults, details.transitionState))
  {
  }

  /** A leaving route consults `whenLeavingTo` with the route it goes to, an
      entering one `whenEnteringFrom` with the route it comes from; a truthy
      table entry for that counterpart wins over the role's default, and with
      no matching entry the default applies. */
  lemma TableEntryWins(details: TransitionDetails, defaults: map<RouteTransitionState, CssAnimation>,
                       whenLeavingTo: Option<PerPatternAnimations>, whenEnteringFrom: Option<PerPatternAnimations>,
                       entries: seq<(string, CssAnimation)>, i: nat)
    requires details.leaving || details.entering
    requires (if details.leaving then whenLeavingTo else whenEnteringFrom) == Some(Table(entries))
    ensures var counter := if details.leaving then details.transitionTo else details.transitionFrom;
      var r := DetermineRouteAnimation(details, defaults, whenLeavingTo, whenEnteringFrom);
      && (i < |entries| && EntryMatches(entries[i].0, counter) && entries[i].1 != ClassName("")
          && (forall j :: 0 <= j < i ==> !EntryMatches(entries[j].0, counter))
          ==> r == ToComplexAnimation(Some(entries[i].1)) && r.Some?)
      && ((forall j :: 0 <= j < |entries| ==> !EntryMatches(entries[j].0, counter))
          ==> r == ToComplexAnimation(DefaultAnimation(defaults, details.transitionState)))
  {
    var counter := if details.leaving then details.transitionTo else details.transitionFrom;
    if i < |entries| && EntryMatches(entries[i].0, counter) && (forall j :: 0 <= j < i ==> !EntryMatches(entries[j].0, counter)) {
      assert FirstMatchingEntry(entries, counter) == i;
    } else if forall j :: 0 <= j < |entries| ==> !EntryMatches(entries[j].0, counter) {
      assert FirstMatchingEntry(entries, counter) == |entries|;
    }
  }

  /** A pattern table keyed `b*` applies to the counterpart `b` and all of its
      descendants. */
  lemma WildcardKeyApplies(base: string, counter: string)
    requires counter == base || IsAncestorRoute(base, counter)
    ensures EntryMatches(base + "*", counter)
  {
    PackageRouteSwitch.WildcardMatching(base, counter);
  }

  /** The `transitionend` filter: only an event on the element itself, and, when
      the current animation named a property, only for that property, reaches
      the route's `onTransitionEnded`. With `ignoreTransitionEnd` no handler is
      attached at all. */
  function TransitionEndForwarded(
    ignoreTransitionEnd: bool, targetIsElement: bool, eventPropertyName: string,
    lastPropertyName: Option<string>, hasOnTransitionEnded: bool
  ): (r: bool)
    ensures r <==> && !ignoreTransitionEnd && targetIsElement && hasOnTransitionEnded
                   && (!Truthy(lastPropertyName) || eventPropertyName == lastPropertyName.value)
  {
    if ignoreTransitionEnd then false
    else if !targetIsElement || (Truthy(lastPropertyName) && eventPropertyName != lastPropertyName.value) then false
    else hasOnTransitionEnded
  }

  /** One animated element: its props, its class list and the property name
      recorded by the last update. */
  class CssRouteAnimation {
    const className: Option<string>
    const startClassName: Option<string>
    const defaultAnimations: map<RouteTransitionState, CssAnimation>
    const whenLeavingTo: Option<PerPatternAnimations>
    const whenEnteringFrom: Option<PerPatternAnimations>
    const ignoreTransitionEnd: bool
    var classList: seq<string>
    var lastAnimationPropertyName: Option<string>

    /** The element's class list, as a DOM token list, holds no repeats. */
    predicate Valid()
      reads this
    {
      NoRepeats(classList)
    }

    constructor (
      className: Option<string>, startClassName: Option<string>,
      defaultAnimations: map<RouteTransitionState, CssAnimation>,
      whenLeavingTo: Option<PerPatternAnimations>, whenEnteringFrom: Option<PerPatternAnimations>,
      ignoreTransitionEnd: bool, classList: seq<string>)
      requires NoRepeats(classList)
      ensures Valid()
      ensures this.className == className && this.startClassName == startClassName
      ensures this.defaultAnimations == defaultAnimations
      ensures this.whenLeavingTo == whenLeavingTo && this.whenEnteringFrom == whenEnteringFrom
      ensures this.ignoreTransitionEnd == ignoreTransitionEnd
      ensures this.classList == classList && this.lastAnimationPropertyName.None?
    {
      this.className := className;
      this.startClassName := startClassName;
      this.defaultAnimations := defaultAnimations;
      this.whenLeavingTo := whenLeavingTo;
      this.whenEnteringFrom := whenEnteringFrom;
      this.ignoreTransitionEnd := ignoreTransitionEnd;
      this.classList := classList;
      this.lastAnimationPropertyName := None;
    }

    /** The animation this element resolves for `details`. */
    function Animation(details: TransitionDetails): Option<ComplexAnimation>
      reads this
    {
      DetermineRouteAnimation(details, defaultAnimations, whenLeavingTo, whenEnteringFrom)
    }

    /** `updateClassNamesWhenNeeded`: records the animation's property name and
        rewrites the class list unless nothing would change; a triggering update
        of a route in transition also adds the start class. */
    method UpdateClassNamesWhenNeeded(details: TransitionDetails, triggerAnimation: bool)
      requires Valid()
      modifies this
      ensures Valid()
      ensures var a := Animation(details);
        var dynamic := if a.Some? then Some(a.value.className) else None;
        && lastAnimationPropertyName == (if a.Some? then a.value.propertyName else None)
        && classList == NewClassList(
             old(classList), ExpectedClasses(className, dynamic), triggerAnimation,
             AddsStartClass(triggerAnimation, details.leaving || details.entering, dynamic, startClassName),
             if startClassName.Some? then startClassName.value else "")
    {
      var animation := DetermineRouteAnimation(details, defaultAnimations, whenLeavingTo, whenEnteringFrom);
      var dynamicClassName: Option<string> := None;
      lastAnimationPropertyName := None;
      if animation.Some? {
        dynamicClassName := Some(animation.value.className);
        lastAnimationPropertyName := animation.value.propertyName;
      }
      var inTransition := details.leaving || details.entering;
      var expectedClasses := ExpectedClasses(className, dynamicClassName);
      if !triggerAnimation && UpToDate(classList, expectedClasses) {
        return;
      }
      classList := Tokens(expectedClasses);
      if triggerAnimation && inTransition && Truthy(dynamicClassName) && Truthy(startClassName) {
        classList := AddClass(classList, startClassName.value);
      }
    }

    /** `handleTransitionEnd`: whether an event reaches the route's callback. */
    function ForwardsTransitionEnd(targetIsElement: bool, eventPropertyName: string, hasOnTransitionEnded: bool): bool
      reads this
    {
      TransitionEndForwarded(ignoreTransitionEnd, targetIsElement, eventPropertyName, lastAnimationPropertyName, hasOnTransitionEnded)
    }
  }
}
