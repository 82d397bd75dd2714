/** The `CountdownTimer` component's state machine: three state cells
    (`duration`, `timeLeft`, `isRunning`), one handler per user event, the
    one-second tick, and the effect that stops the timer once `timeLeft` is no
    longer positive. React re-runs that effect whenever `isRunning` or
    `timeLeft` change; the model applies it, as `Settle`, after every event.

    `Snapshot`, `Apply`, `AfterEffect` and `Step` are the specification on
    values; the class `CountdownTimer` holds the three cells as fields, each
    of its event methods is proved to perform `Step` on them, and its
    `Settle` method to perform `AfterEffect`. */
module Countdown {
  import opened TimeFormat

  datatype Snapshot = Snapshot(duration: int, timeLeft: int, isRunning: bool)

  /** What can happen to the component: an edit of the number field, a
      submit of the form ("Set"), a press of Start, Pause or Reset, and one
      firing of the one-second interval. */
  datatype Event = Edit(value: int) | Submit | Start | Pause | Reset | Tick

  /** The state right after mounting. */
  const Initial := Snapshot(0, 0, false)

  /** The effect arms the one-second interval exactly in this state; on a
      settled state it is exactly when a tick would change anything. */
  predicate TickArmed(s: Snapshot): (r: bool)
    ensures Settled(s) ==> (r <==> Step(s, Tick) != s)
  {
    s.isRunning && s.timeLeft > 0
  }

  /** The state invariant the effect maintains: a running timer has time left. */
  predicate Settled(s: Snapshot) {
    s.isRunning ==> s.timeLeft > 0
  }

  /** The Start button's `disabled` attribute: on a settled state it holds
      exactly when pressing Start would change nothing. */
  predicate StartDisabled(s: Snapshot): (r: bool)
    ensures Settled(s) ==> (r <==> Step(s, Start) == s)
  {
    s.isRunning || s.timeLeft <= 0
  }

  /** The Pause button's `disabled` attribute (Reset has none): it holds
      exactly when pressing Pause would change nothing. */
  predicate PauseDisabled(s: Snapshot): (r: bool)
    ensures r <==> Step(s, Pause) == s
  {
    !s.isRunning
  }

  /** The effect's else-branch: with no time left the timer stops. */
  function AfterEffect(s: Snapshot): (r: Snapshot)
    ensures Settled(r)
    ensures r.duration == s.duration && r.timeLeft == s.timeLeft
    ensures r.isRunning ==> s.isRunning
    ensures Settled(s) ==> r == s
  {
    if s.isRunning && s.timeLeft > 0 then s
    else if s.timeLeft <= 0 then s.(isRunning := false)
    else s
  }

  /** The state updates one event makes before the effect re-runs: only an
      edit writes `duration`, only Start sets `isRunning`, only "Set", Reset
      and an armed tick write `timeLeft`, and a tick takes exactly one off. */
  function Apply(s: Snapshot, e: Event): (r: Snapshot)
    ensures r.duration != s.duration ==> e.Edit?
    ensures r.isRunning && !s.isRunning ==> e == Start
    ensures r.timeLeft != s.timeLeft ==> e == Submit || e == Reset || e == Tick
    ensures e == Tick ==> r.timeLeft == if s.isRunning && s.timeLeft > 0 then s.timeLeft - 1 else s.timeLeft
    ensures e == Pause || e == Reset ==> !r.isRunning
  {
    match e
    case Edit(d) => s.(duration := d)
    case Submit => if s.duration > 0 then s.(timeLeft := s.duration) else s
    case Start => s.(isRunning := true)
    case Pause => s.(isRunning := false)
    case Reset => s.(isRunning := false, timeLeft := s.duration)
    case Tick => if s.isRunning && s.timeLeft > 0 then s.(timeLeft := s.timeLeft - 1) else s
  }

  /** One event followed by the effect. */
  function Step(s: Snapshot, e: Event): (r: Snapshot)
    ensures Settled(r)
    ensures r.duration == if e.Edit? then e.value else s.duration
    ensures r.isRunning && !s.isRunning ==> e == Start
  {
    AfterEffect(Apply(s, e))
  }

  /** The state after a sequence of events. */
  function Run(s: Snapshot, es: seq<Event>): Snapshot
    decreases |es|
  {
    if es == [] then s else Run(Step(s, es[0]), es[1..])
  }

  function Ticks(n: nat): (es: seq<Event>)
    ensures |es| == n && forall i :: 0 <= i < n ==> es[i] == Tick
  {
    seq(n, _ => Tick)
  }

  class CountdownTimer {
    var duration: int
    var timeLeft: int
    var isRunning: bool

    function Model(): Snapshot
      reads this
    {
      Snapshot(duration, timeLeft, isRunning)
    }

    ghost predicate Valid()
      reads this
    {
      Settled(Model())
    }

    constructor ()
      ensures Valid() && Model() == Initial
    {
      duration, timeLeft, isRunning := 0, 0, false;
    }

    /** The effect: arm the interval, or stop a timer that has no time left. */
    method Settle()
      modifies this
      ensures Valid()
      ensures duration == old(duration) && timeLeft == old(timeLeft)
      ensures isRunning == (old(isRunning) && old(timeLeft) > 0)
      ensures Model() == AfterEffect(old(Model()))
    {
      if isRunning && timeLeft > 0 {
        // the one-second interval is armed; nothing changes now
      } else if timeLeft <= 0 {
        isRunning := false;
      }
    }

    /** The number field's `onChange`: any integer becomes the duration. */
    method EditDuration(d: int)
      requires Valid()
      modifies this
      ensures Valid()
      ensures duration == d && timeLeft == old(timeLeft) && isRunning == old(isRunning)
      ensures Model() == Step(old(Model()), Edit(d))
    {
      duration := d;
      Settle();
    }

    /** "Set": a positive duration becomes the time left; the run state stays. */
    method SetDuration()
      requires Valid()
      modifies this
      ensures Valid()
      ensures duration == old(duration) && isRunning == old(isRunning)
      ensures timeLeft == if old(duration) > 0 then old(duration) else old(timeLeft)
      ensures Model() == Step(old(Model()), Submit)
    {
      if duration > 0 {
        timeLeft := duration;
      }
      Settle();
    }

    /** Start: unguarded itself; the effect stops it at once with no time left. */
    method Start()
      requires Valid()
      modifies this
      ensures Valid()
      ensures duration == old(duration) && timeLeft == old(timeLeft)
      ensures isRunning == (old(timeLeft) > 0)
      ensures Model() == Step(old(Model()), Event.Start)
    {
      isRunning := true;
      Settle();
    }

    method Pause()
      requires Valid()
      modifies this
      ensures Valid()
      ensures duration == old(duration) && timeLeft == old(timeLeft) && !isRunning
      ensures Model() == Step(old(Model()), Event.Pause)
    {
      isRunning := false;
      Settle();
    }

    method Reset()
      requires Valid()
      modifies this
      ensures Valid()
      ensures duration == old(duration) && timeLeft == old(duration) && !isRunning
      ensures Model() == Step(old(Model()), Event.Reset)
    {
      isRunning := false;
      timeLeft := duration;
      Settle();
    }

    /** One firing of the interval. It exists only while the effect has it
        armed; otherwise nothing happens. */
    method Tick()
      requires Valid()
      modifies this
      ensures Valid()
      ensures duration == old(duration)
      ensures old(TickArmed(Model())) ==>
        timeLeft == old(timeLeft) - 1 && isRunning == (timeLeft > 0)
      ensures !old(TickArmed(Model())) ==> timeLeft == old(timeLeft) && isRunning == old(isRunning)
      ensures Model() == Step(old(Model()), Event.Tick)
    {
      if isRunning && timeLeft > 0 {
        timeLeft := timeLeft - 1;
      }
      Settle();
    }
  }

  /** At mount nothing is running, Start and Pause are both disabled, and the
      label reads "00:00". */
  lemma InitialState()
    ensures Initial == Snapshot(0, 0, false) && Settled(Initial)
    ensures StartDisabled(Initial) && PauseDisabled(Initial)
    ensures FormatTime(Initial.timeLeft) == "00:00"
  {
    SampleZero();
  }

  /** Every event leaves the invariant in place, whatever came before. */
  lemma {:induction false} RunSettled(s: Snapshot, es: seq<Event>)
    requires Settled(s)
    ensures Settled(Run(s, es))
    decreases |es|
  {
    if es != [] {
      RunSettled(Step(s, es[0]), es[1..]);
    }
  }

  lemma ReachableSettled(es: seq<Event>)
    ensures var s := Run(Initial, es); s.isRunning ==> s.timeLeft > 0
  {
    RunSettled(Initial, es);
  }

  /** Only the number field changes the duration. */
  lemma {:induction false} RunKeepsDuration(s: Snapshot, es: seq<Event>)
    requires forall i :: 0 <= i < |es| ==> !es[i].Edit?
    ensures Run(s, es).duration == s.duration
    decreases |es|
  {
    if es != [] {
      RunKeepsDuration(Step(s, es[0]), es[1..]);
    }
  }

  /** Ticks never take the time left below zero: a running timer counts down
      one per tick and stops exactly at zero; a stopped one ignores ticks. */
  lemma {:induction false} RunTicks(s: Snapshot, n: nat)
    requires Settled(s)
    ensures Run(s, Ticks(n)) ==
      if !s.isRunning then s
      else if n < s.timeLeft then s.(timeLeft := s.timeLeft - n)
      else s.(timeLeft := 0, isRunning := false)
    decreases n
  {
    if n > 0 {
      assert Ticks(n)[1..] == Ticks(n - 1);
      RunTicks(Step(s, Event.Tick), n - 1);
    }
  }

  /** With no Reset, the time left never becomes negative. */
  lemma {:induction false} RunNoResetNonNegative(s: Snapshot, es: seq<Event>)
    requires s.timeLeft >= 0
    requires forall i :: 0 <= i < |es| ==> es[i] != Event.Reset
    ensures Run(s, es).timeLeft >= 0
    decreases |es|
  {
    if es != [] {
      RunNoResetNonNegative(Step(s, es[0]), es[1..]);
    }
  }

  /** A negative edit followed by Reset makes the time left negative. */
  lemma NegativeTimeLeftReachable()
    ensures Run(Initial, [Edit(-5), Event.Reset]) == Snapshot(-5, -5, false)
  {
  }

  /** "Set" ignores a duration that is not positive, and otherwise copies it
      into the time left without touching the run state. */
  lemma SubmitEffect(s: Snapshot)
    requires Settled(s)
    ensures s.duration <= 0 ==> Step(s, Submit) == s
    ensures s.duration > 0 ==> Step(s, Submit) == s.(timeLeft := s.duration)
  {
  }

  lemma EditEffect(s: Snapshot, d: int)
    requires Settled(s)
    ensures Step(s, Edit(d)) == s.(duration := d)
  {
  }

  lemma ResetEffect(s: Snapshot)
    ensures Step(s, Event.Reset) == Snapshot(s.duration, s.duration, false)
  {
  }

  lemma PauseEffect(s: Snapshot)
    ensures Step(s, Event.Pause) == s.(isRunning := false)
    ensures Step(Step(s, Event.Pause), Event.Pause) == Step(s, Event.Pause)
  {
  }

  /** Start runs the timer exactly when there is time left. */
  lemma StartEffect(s: Snapshot)
    ensures Step(s, Event.Start) == s.(isRunning := s.timeLeft > 0)
  {
  }

  lemma TickFromOneStops(s: Snapshot)
    requires s.isRunning && s.timeLeft == 1
    ensures Step(s, Event.Tick) == Snapshot(s.duration, 0, false)
    ensures StartDisabled(Step(s, Event.Tick))
  {
  }

  /** A button is disabled exactly when pressing it would change nothing. */
  lemma StartDisabledIffNoEffect(s: Snapshot)
    requires Settled(s)
    ensures StartDisabled(s) <==> Step(s, Event.Start) == s
  {
  }

  lemma PauseDisabledIffNoEffect(s: Snapshot)
    ensures PauseDisabled(s) <==> Step(s, Event.Pause) == s
  {
  }

  /** The Settle step is redundant on a settled state, so it changes nothing
      after an event that leaves `isRunning` and `timeLeft` as they were. */
  lemma EffectOnSettled(s: Snapshot)
    requires Settled(s)
    ensures AfterEffect(s) == s
  {
  }

  /** Edit(5), Set, Start and three ticks show "00:02" and keep running;
      Pause keeps 2; Start and two more ticks stop at "00:00". */
  lemma Scenario()
    ensures Run(Initial, [Edit(5), Submit, Event.Start] + Ticks(3)) == Snapshot(5, 2, true)
    ensures Run(Snapshot(5, 2, true), [Event.Pause]) == Snapshot(5, 2, false)
    ensures Run(Snapshot(5, 2, false), [Event.Start] + Ticks(2)) == Snapshot(5, 0, false)
  {
    var s := Run(Initial, [Edit(5), Submit, Event.Start]);
    assert s == Snapshot(5, 5, true);
    RunAppend(Initial, [Edit(5), Submit, Event.Start], Ticks(3));
    RunTicks(s, 3);
    RunAppend(Snapshot(5, 2, false), [Event.Start], Ticks(2));
    RunTicks(Snapshot(5, 2, true), 2);
  }

  lemma {:induction false} RunAppend(s: Snapshot, xs: seq<Event>, ys: seq<Event>)
    ensures Run(s, xs + ys) == Run(Run(s, xs), ys)
    decreases |xs|
  {
    if xs != [] {
      assert (xs + ys)[1..] == xs[1..] + ys;
      RunAppend(Step(s, xs[0]), xs[1..], ys);
    } else {
      assert xs + ys == ys;
    }
  }

  /** The same scenario on the component object, reading the label after
      each phase. */
  method ScenarioOnComponent() returns (shown: seq<string>)
    ensures shown == ["00:02", "00:02", "00:00"]
  {
    var t := new CountdownTimer();
    t.EditDuration(5);
    t.SetDuration();
    t.Start();
    t.Tick();
    t.Tick();
    t.Tick();
    assert t.timeLeft == 2 && t.isRunning;
    SampleTwo();
    SampleZero();
    shown := [FormatTime(t.timeLeft)];
    t.Pause();
    assert t.timeLeft == 2 && !t.isRunning;
    shown := shown + [FormatTime(t.timeLeft)];
    t.Start();
    t.Tick();
    t.Tick();
    assert t.timeLeft == 0 && !t.isRunning;
    shown := shown + [FormatTime(t.timeLeft)];
  }
}
