/** `CarouselAnimation`: routes listed in a pattern order slide left or right
    depending on the direction of travel through that order. It configures a
    newer-generation `CssRouteAnimation` with one decision callback for both
    `whenLeavingTo` and `whenEnteringFrom`. */
module CarouselAnimation {
  import opened Model
  import opened PackageCssAnimation

  /** `patternOrder.indexOf(x)`: the first position of `x`, or -1. */
  function IndexOf(order: seq<string>, x: string): (i: int)
    ensures -1 <= i < |order|
    ensures i == -1 <==> x !in order
    ensures 0 <= i ==> order[i] == x && forall j :: 0 <= j < i ==> order[j] != x
  {
    if order == [] then -1
    else if order[0] == x then 0
    else
      var k := IndexOf(order[1..], x);
      if k < 0 then -1 else k + 1
  }

  /** The carousel's own props; `whenLeavingTo` and `whenEnteringFrom` are
      consulted only for routes outside the pattern order. */
  datatype Carousel = Carousel(
    patternOrder: seq<string>,
    slideInLeft: Option<CssAnimation>,
    slideInRight: Option<CssAnimation>,
    slideOutLeft: Option<CssAnimation>,
    slideOutRight: Option<CssAnimation>,
    whenLeavingTo: Option<PerPatternAnimations>,
    whenEnteringFrom: Option<PerPatternAnimations>)

  /** `handleDetermineAnimation`: with both ends in the pattern order the
      direction of travel picks a slide (a later position slides left); with
      either end outside it, the carousel's own per-pattern props decide. */
  function HandleDetermineAnimation(c: Carousel, counterPattern: string, details: TransitionDetails): (r: Option<CssAnimation>)
    ensures (details.transitionFrom !in c.patternOrder || details.transitionTo !in c.patternOrder) ==>
      var resolved := ResolveAnimation(if details.leaving then c.whenLeavingTo else c.whenEnteringFrom, counterPattern, details);
      r == if resolved.Some? then Some(Complex(resolved.value)) else None
    ensures details.transitionFrom in c.patternOrder && details.transitionTo in c.patternOrder ==>
      var forward := IndexOf(c.patternOrder, details.transitionTo) > IndexOf(c.patternOrder, details.transitionFrom);
      && (details.leaving ==> r == if forward then c.slideOutLeft else c.slideOutRight)
      && (!details.leaving ==> r == if forward then c.slideInLeft else c.slideInRight)
  {
    var fromIndex := IndexOf(c.patternOrder, details.transitionFrom);
    var toIndex := IndexOf(c.patternOrder, details.transitionTo);
    if fromIndex < 0 || toIndex < 0 then
      var resolved := ResolveAnimation(if details.leaving then c.whenLeavingTo else c.whenEnteringFrom, counterPattern, details);
      if resolved.Some? then Some(Complex(resolved.value)) else None
    else
      var diff := toIndex - fromIndex;
      if details.leaving then (if diff > 0 then c.slideOutLeft else c.slideOutRight)
      else (if diff > 0 then c.slideInLeft else c.slideInRight)
  }

  /** The callback handed to `CssRouteAnimation`. */
  function Decide(c: Carousel): (string, TransitionDetails) -> Option<CssAnimation> {
    (counterPattern, details) => HandleDetermineAnimation(c, counterPattern, details)
  }

  /** The animation a carousel element resolves, with the remaining props of
      `CssRouteAnimation` passed through. */
  function CarouselRouteAnimation(c: Carousel, details: TransitionDetails, defaults: map<RouteTransitionState, CssAnimation>)
    : Option<ComplexAnimation>
  {
    DetermineRouteAnimation(details, defaults, Some(Callback(Decide(c))), Some(Callback(Decide(c))))
  }

  /** Both ends in the order: moving forward (to a later position) slides
      left, anything else slides right, for the leaving and the entering route
      alike; a falsy slide animation leaves the role's default in place. */
  lemma {:induction false} CarouselDirection(c: Carousel, details: TransitionDetails, defaults: map<RouteTransitionState, CssAnimation>)
    requires details.leaving || details.entering
    requires details.transitionFrom in c.patternOrder && details.transitionTo in c.patternOrder
    ensures var forward := IndexOf(c.patternOrder, details.transitionTo) > IndexOf(c.patternOrder, details.transitionFrom);
      var slide := if details.leaving then (if forward then c.slideOutLeft else c.slideOutRight)
                   else (if forward then c.slideInLeft else c.slideInRight);
      var r := CarouselRouteAnimation(c, details, defaults);
      && (ToComplexAnimation(slide).Some? ==> r == ToComplexAnimation(slide))
      && (ToComplexAnimation(slide).None? ==> r == ToComplexAnimation(DefaultAnimation(defaults, details.transitionState)))
  {
    var counter := if details.leaving then details.transitionTo else details.transitionFrom;
    assert Decide(c)(counter, details) == HandleDetermineAnimation(c, counter, details);
  }

  /** Staying at the same position (equal indices) always slides right. */
  lemma SamePositionSlidesRight(c: Carousel, counterPattern: string, details: TransitionDetails)
    requires details.transitionFrom == details.transitionTo && details.transitionFrom in c.patternOrder
    ensures HandleDetermineAnimation(c, counterPattern, details) ==
      if details.leaving then c.slideOutRight else c.slideInRight
  {
  }

  /** A route missing from the order animates exactly as a plain
      `CssRouteAnimation` configured with the carousel's own per-pattern
      props. */
  lemma {:induction false} CarouselFallback(c: Carousel, details: TransitionDetails, defaults: map<RouteTransitionState, CssAnimation>)
    requires details.transitionFrom !in c.patternOrder || details.transitionTo !in c.patternOrder
    ensures CarouselRouteAnimation(c, details, defaults) ==
      DetermineRouteAnimation(details, defaults, c.whenLeavingTo, c.whenEnteringFrom)
  {
    if details.leaving || details.entering {
      var counter := if details.leaving then details.transitionTo else details.transitionFrom;
      var per := if details.leaving then c.whenLeavingTo else c.whenEnteringFrom;
      assert Decide(c)(counter, details) == HandleDetermineAnimation(c, counter, details);
      assert ToComplexAnimation(HandleDetermineAnimation(c, counter, details)) == ResolveAnimation(per, counter, details);
    }
  }

  /** Both directions read the same callback, so for one transition the
      leaving and the entering route agree on the direction: the leaving route
      slides out left exactly when the entering one slides in left. */
  lemma DirectionsAgree(c: Carousel, from: string, to: string, leavingState: RouteTransitionState, enteringState: RouteTransitionState)
    requires from in c.patternOrder && to in c.patternOrder
    ensures var out := HandleDetermineAnimation(c, to, TransitionDetails(leavingState, from, to, true, false));
      var into := HandleDetermineAnimation(c, from, TransitionDetails(enteringState, from, to, false, true));
      && (out == c.slideOutLeft || out == c.slideOutRight)
      && (into == c.slideInLeft || into == c.slideInRight)
      && (IndexOf(c.patternOrder, to) > IndexOf(c.patternOrder, from) ==> out == c.slideOutLeft && into == c.slideInLeft)
      && (IndexOf(c.patternOrder, to) <= IndexOf(c.patternOrder, from) ==> out == c.slideOutRight && into == c.slideInRight)
  {
  }
}
