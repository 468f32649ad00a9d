/** The transition flag of a route switch and its timeout fallback. A switch
    raises the flag when the matched route changes; the flag drops when a
    mounted route reports the end of its animation or when the timer fires.
    Both generations share this code. The host's timer queue is modelled as the
    set of armed handles: `setTimeout` adds a fresh handle, `clearTimeout`
    removes one, and a timer can only fire while its handle is armed. */
module TransitionDriver {
  import opened Model

  type Handle = nat

  /** `transitionInProgress`, `timerRef.current` and the host's armed timers. */
  datatype Timing = Timing(inProgress: bool, timer: Option<Handle>, armed: set<Handle>)

  /** At most the stored timer is armed, and nothing is armed while idle: no
      stale timer can outlive the transition it belongs to. */
  predicate TimingInvariant(t: Timing) {
    && (forall h :: h in t.armed ==> t.timer == Some(h))
    && (!t.inProgress ==> t.armed == {})
  }

  function Idle(): (t: Timing)
    ensures TimingInvariant(t) && !t.inProgress
  {
    Timing(false, None, {})
  }

  /** `clearTimeout(timerRef.current)`: undefined clears nothing. */
  function ClearStored(t: Timing): set<Handle> {
    if t.timer.Some? then t.armed - {t.timer.value} else t.armed
  }

  /** `onToggleTransitionInProgress(true)`, called by the route status hook. */
  function RaiseFlag(t: Timing): (r: Timing)
    ensures r.inProgress && r.timer == t.timer && r.armed == t.armed
    ensures t.inProgress ==> r == t
  {
    t.(inProgress := true)
  }

  /** `handleTransitionEnd`: only a running transition is ended. */
  function EndTransition(t: Timing): (r: Timing)
    ensures !r.inProgress && r.timer == t.timer
    ensures !t.inProgress ==> r == t
    ensures t.inProgress ==> r.armed == ClearStored(t)
  {
    if t.inProgress then t.(inProgress := false, armed := ClearStored(t)) else t
  }

  /** `setTimeout` hands out a handle that is neither pending nor stored. */
  predicate FreshHandle(t: Timing, h: Handle) {
    h !in t.armed && t.timer != Some(h)
  }

  /** The timer effect, run after the flag changes: while the flag is set it
      arms the new timer `h`, cancels the stored one and stores `h`. */
  function TimerEffect(t: Timing, h: Handle): (r: Timing)
    requires FreshHandle(t, h)
    ensures r.inProgress == t.inProgress
    ensures t.inProgress ==> r.timer == Some(h) && r.armed == ClearStored(t) + {h}
    ensures !t.inProgress ==> r == t
  {
    if t.inProgress then
      var t1 := t.(armed := t.armed + {h});
      t1.(timer := Some(h), armed := ClearStored(t1))
    else t
  }

  /** Timer `h` fires: it leaves the queue and runs the `handleTransitionEnd`
      it captured when it was armed, a render in which the flag was set. */
  function Fire(t: Timing, h: Handle): (r: Timing)
    ensures h !in t.armed ==> r == t
    ensures h in t.armed ==> !r.inProgress && h !in r.armed && r.armed <= t.armed
  {
    if h in t.armed then
      var t1 := t.(armed := t.armed - {h});
      t1.(inProgress := false, armed := ClearStored(t1))
    else t
  }

  lemma {:induction false} RaisePreserves(t: Timing)
    requires TimingInvariant(t)
    ensures TimingInvariant(RaiseFlag(t))
  {
    assert RaiseFlag(t).armed == t.armed;
  }

  lemma EndPreserves(t: Timing)
    requires TimingInvariant(t)
    ensures TimingInvariant(EndTransition(t))
  {
  }

  /** Arming replaces the stored timer: afterwards the new one is the only
      armed timer. */
  lemma TimerEffectPreserves(t: Timing, h: Handle)
    requires TimingInvariant(t) && FreshHandle(t, h)
    ensures TimingInvariant(TimerEffect(t, h))
    ensures t.inProgress ==> TimerEffect(t, h).armed == {h}
  {
    if t.inProgress {
      assert ClearStored(t) == {} by {
        forall g | g in t.armed ensures g in {t.timer.value} { }
      }
    }
  }

  /** A firing timer is the stored one, so the captured handler does what the
      current `handleTransitionEnd` would do. */
  lemma FireIsEnd(t: Timing, h: Handle)
    requires TimingInvariant(t) && h in t.armed
    ensures Fire(t, h) == EndTransition(t)
    ensures TimingInvariant(Fire(t, h))
  {
    assert t.timer == Some(h);
    assert t.armed == {h} by {
      forall g | g in t.armed ensures g == h { }
    }
  }

  /** Ending is idempotent: the second of a completion event and a timeout,
      whichever comes last, changes nothing. */
  lemma EndIdempotent(t: Timing)
    ensures EndTransition(EndTransition(t)) == EndTransition(t)
  {
  }

  /** Once the transition has ended no timer is armed, so no timeout can fire
      afterwards. */
  lemma NothingArmedAfterEnd(t: Timing, h: Handle)
    requires TimingInvariant(t)
    ensures EndTransition(t).armed == {}
    ensures Fire(EndTransition(t), h) == EndTransition(t)
  {
  }

  /** A navigation while a transition is already running raises the flag
      again without changing anything, so the timer effect does not run again,
      and a single end then leaves no timer armed. */
  lemma RapidNavigations(t: Timing)
    requires TimingInvariant(t) && t.inProgress
    ensures RaiseFlag(t) == t
    ensures EndTransition(RaiseFlag(t)).armed == {}
    ensures !EndTransition(RaiseFlag(t)).inProgress
  {
  }

  /** The driver object: the flag and the timer reference live in the switch
      component; `armed` stands for the host's timer queue. */
  class Driver {
    var inProgress: bool
    var timer: Option<Handle>
    var armed: set<Handle>

    function State(): Timing
      reads this
    {
      Timing(inProgress, timer, armed)
    }

    constructor ()
      ensures State() == Idle()
    {
      inProgress, timer, armed := false, None, {};
    }

    method Raise()
      modifies this
      ensures State() == RaiseFlag(old(State()))
    {
      inProgress := true;
    }

    method HandleTransitionEnd()
      modifies this
      ensures State() == EndTransition(old(State()))
    {
      if inProgress {
        if timer.Some? {
          armed := armed - {timer.value};
        }
        inProgress := false;
      }
    }

    /** The effect body: `setTimeout` returned `h`. */
    method RunTimerEffect(h: Handle)
      requires FreshHandle(State(), h)
      modifies this
      ensures State() == TimerEffect(old(State()), h)
    {
      if inProgress {
        armed := armed + {h};
        if timer.Some? {
          armed := armed - {timer.value};
        }
        timer := Some(h);
      }
    }

    method TimeoutFired(h: Handle)
      modifies this
      ensures State() == Fire(old(State()), h)
    {
      if h in armed {
        armed := armed - {h};
        if timer.Some? {
          armed := armed - {timer.value};
        }
        inProgress := false;
      }
    }
  }
}
