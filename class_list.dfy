/** The class-list decision shared by both generations of `CssRouteAnimation`:
    which classes an animated element should carry, when the write can be
    skipped, and what the list holds after a write. The element's class list is
    a sequence of class tokens. */
module ClassList {
  import opened Model

  /** `[className, dynamicClassName].filter(Boolean)` */
  function ExpectedClasses(className: Option<string>, dynamic: Option<string>): (r: seq<string>)
    ensures |r| <= 2 && "" !in r
    ensures forall c :: c in r <==> (Truthy(className) && c == className.value) || (Truthy(dynamic) && c == dynamic.value)
    ensures Truthy(className) ==> |r| >= 1 && r[0] == className.value
  {
    (if Truthy(className) then [className.value] else []) + (if Truthy(dynamic) then [dynamic.value] else [])
  }

  /** A DOM class list never holds a token twice. */
  predicate NoRepeats(classList: seq<string>) {
    forall i, j :: 0 <= i < j < |classList| ==> classList[i] != classList[j]
  }

  /** The early-return test: same length and every expected class present. */
  predicate UpToDate(classList: seq<string>, expected: seq<string>) {
    |classList| == |expected| && forall c :: c in expected ==> c in classList
  }

  /** The token list that assigning `expected.join(' ')` to `className` produces:
      repeated tokens collapse to their first occurrence. */
  function Tokens(expected: seq<string>): (r: seq<string>)
    ensures forall c :: c in r <==> c in expected
    ensures |r| <= |expected|
    ensures forall i, j :: 0 <= i < j < |r| ==> r[i] != r[j]
    decreases |expected|
  {
    if expected == [] then []
    else
      var rest := Tokens(expected[..|expected| - 1]);
      var c := expected[|expected| - 1];
      assert forall x :: x in expected <==> x in expected[..|expected| - 1] || x == c;
      if c in rest then rest else rest + [c]
  }

  /** `classList.add(c)`: a token already present is not added again. */
  function AddClass(classList: seq<string>, c: string): (r: seq<string>)
    ensures forall x :: x in r <==> x in classList || x == c
    ensures NoRepeats(classList) ==> NoRepeats(r)
  {
    if c in classList then classList else classList + [c]
  }

  /** The start class is added only when the update triggers an animation of a
      route in transition that has a dynamic class, and a start class is given. */
  predicate AddsStartClass(trigger: bool, inTransition: bool, dynamic: Option<string>, startClassName: Option<string>) {
    trigger && inTransition && Truthy(dynamic) && Truthy(startClassName)
  }

  /** The class list after `updateClassNamesWhenNeeded`: left alone when no
      animation is triggered and it is up to date, otherwise rewritten to hold
      the expected classes and, when it is added, the start class. */
  function NewClassList(
    classList: seq<string>, expected: seq<string>, trigger: bool, addStart: bool, startClassName: string
  ): (r: seq<string>)
    ensures !trigger && UpToDate(classList, expected) ==> r == classList
    ensures (trigger || !UpToDate(classList, expected)) ==>
      forall c :: c in r <==> c in expected || (addStart && c == startClassName)
    ensures NoRepeats(classList) ==> NoRepeats(r)
  {
    if !trigger && UpToDate(classList, expected) then classList
    else
      var written := Tokens(expected);
      if addStart then AddClass(written, startClassName) else written
  }

  /** Without a trigger, an up-to-date class list is not written. */
  lemma NoWriteWhenUpToDate(classList: seq<string>, expected: seq<string>, startClassName: string)
    requires UpToDate(classList, expected)
    ensures NewClassList(classList, expected, false, false, startClassName) == classList
  {
  }

  /** Otherwise the list holds exactly the expected classes, each once, plus
      the start class when it is added. */
  lemma WrittenClasses(classList: seq<string>, expected: seq<string>, trigger: bool, addStart: bool, startClassName: string)
    requires trigger || !UpToDate(classList, expected)
    ensures var r := NewClassList(classList, expected, trigger, addStart, startClassName);
      && (forall c :: c in r <==> c in expected || (addStart && c == startClassName))
      && (forall i, j :: 0 <= i < j < |r| ==> r[i] != r[j])
  {
  }

  /** Repeating an update with the same inputs leaves the list as the first
      update left it. */
  lemma {:induction false} UpdateIdempotent(classList: seq<string>, expected: seq<string>, trigger: bool, addStart: bool, startClassName: string)
    requires addStart ==> trigger
    ensures var once := NewClassList(classList, expected, trigger, addStart, startClassName);
      NewClassList(once, expected, trigger, addStart, startClassName) == once
  {
    var once := NewClassList(classList, expected, trigger, addStart, startClassName);
    if !trigger && !UpToDate(classList, expected) {
      var t := Tokens(expected);
      assert once == t;
      if UpToDate(t, expected) {
        assert NewClassList(once, expected, trigger, addStart, startClassName) == t;
      }
    }
  }

  /** A class list written without a start class passes the next early-return
      test exactly when the expected classes hold no repeated token, so the
      list is not rewritten on the next render. */
  lemma {:induction false} WrittenListUpToDate(expected: seq<string>)
    requires |expected| <= 2
    ensures UpToDate(Tokens(expected), expected) <==> (|expected| == 2 ==> expected[0] != expected[1])
  {
    var t := Tokens(expected);
    if |expected| == 2 {
      assert expected[..1] == [expected[0]];
      assert Tokens(expected[..1]) == Tokens([]) + [expected[0]];
      if expected[0] == expected[1] {
        assert t == [expected[0]];
      } else {
        assert t == [expected[0], expected[1]];
      }
    } else if |expected| == 1 {
      assert t == [expected[0]];
    }
  }
}
