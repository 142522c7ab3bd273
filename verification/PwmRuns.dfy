// Any number of PWM periods in a row, with the duties changed in any of them, through stops of
// the timer and new starts (firmware/user/pwm.c:87-165 and 256-285).
module PwmRuns {
  import opened PwmSchedule
  import opened PwmTimer
  import opened PwmWave

  // What is asked of a period: the ticks each pin is to be high, and its length.
  datatype Wave = Wave(pulses: seq<nat>, period: nat)

  // What happens during a period: nothing, or one pwm_start while entry `at` is running.
  datatype Plan = Quiet | Restart(at: nat, schedule: seq<Entry>, wave: Wave)

  // The schedule built for wave w, whose times 16 bits hold.
  ghost predicate Asks(s: seq<Entry>, pins: seq<nat>, w: Wave) {
    && |s| > 0 && |pins| == |w.pulses| && ScheduleFor(s, pins, w.pulses, w.period)
    && 0 < w.period && forall p :: p in w.pulses ==> p <= w.period
  }

  // A running timer at the start of a proper period of wave w.
  ghost predicate Begun(st: State, pins: seq<nat>, w: Wave) {
    && Asks(Schedule(st, st.walking), pins, w) && Entries(st) > 1
    && Opened(st, pins, w.pulses, w.period) && Buffered(st, false) && !st.down
  }

  function Entries(st: State): nat {
    |Schedule(st, st.walking)|
  }

  lemma {:induction false} LaterKeepsRunning(st: State, k: nat)
    requires Buffered(st, false) && !st.down && st.current == 0 && k < Entries(st)
    ensures Buffered(Later(st, k), false) && !Later(st, k).down
  {
    if k > 0 {
      LaterKeepsRunning(st, k - 1);
    }
  }

  // pwm_start on a running timer touches neither the pins nor the schedule being walked.
  lemma StartSparesThePeriod(st: State, s: seq<Entry>)
    requires Buffered(st, false) && !st.down && |s| > 0
    ensures var started := AfterStart(st, s);
            && Walkable(started) && started.current == st.current
            && Schedule(started, started.walking) == Schedule(st, st.walking)
            && Schedule(started, started.toggle) == s
            && started.high == st.high && started.load == st.load && !started.down
  {
  }

  // pwm_start is the same whether it comes while an earlier or a later entry of the period is
  // running: the interrupts in between do not see it.
  lemma {:induction false} StartIsDeferred(st: State, s: seq<Entry>, k: nat, m: nat)
    requires Buffered(st, false) && !st.down && st.current == 0 && |s| > 0 && k + m < Entries(st)
    ensures var started := AfterStart(Later(st, k), s);
            && Walkable(started) && started.current + m < Entries(started)
            && Later(started, m) == AfterStart(Later(st, k + m), s)
  {
    hide AfterInterrupt, AfterStart, Buffered;
    LaterKeepsRunning(st, k);
    StartSparesThePeriod(Later(st, k), s);
    if m > 0 {
      StartIsDeferred(st, s, k, m - 1);
      LaterKeepsRunning(st, k + m - 1);
      assert !AtPeriodEnd(Later(st, k + m - 1));
      StartWaitsForPeriodEnd(Later(st, k + m - 1), s);
    }
  }

  // The state while entry j of the period is running, after any pwm_start in it.
  ghost function During(st: State, plan: Plan, j: nat): State
    requires Buffered(st, false) && !st.down && st.current == 0 && j < Entries(st)
    requires plan.Restart? ==> plan.at < Entries(st) && |plan.schedule| > 0
  {
    if plan.Quiet? || j < plan.at then Later(st, j)
    else
      StartIsDeferred(st, plan.schedule, plan.at, j - plan.at);
      Later(AfterStart(Later(st, plan.at), plan.schedule), j - plan.at)
  }

  lemma DuringAsStarted(st: State, plan: Plan, j: nat)
    requires Buffered(st, false) && !st.down && st.current == 0 && j < Entries(st)
    requires plan.Restart? ==> plan.at < Entries(st) && |plan.schedule| > 0
    ensures During(st, plan, j).high == Later(st, j).high && During(st, plan, j).load == Later(st, j).load
    ensures !During(st, plan, j).down && Walkable(During(st, plan, j))
    ensures j == Entries(st) - 1 ==> AtPeriodEnd(During(st, plan, j))
    ensures Schedule(During(st, plan, j), During(st, plan, j).toggle)
         == if plan.Quiet? || j < plan.at then Schedule(st, st.toggle) else plan.schedule
  {
    hide AfterInterrupt, AfterStart, Buffered;
    LaterKeepsRunning(st, j);
    if plan.Restart? && plan.at <= j {
      StartIsDeferred(st, plan.schedule, plan.at, j - plan.at);
      StartSparesThePeriod(Later(st, j), plan.schedule);
    }
  }

  // The ticks pin is high over the first j entries of a period that goes by the plan.
  ghost function PlannedHigh(st: State, plan: Plan, pin: nat, j: nat): nat
    requires Buffered(st, false) && !st.down && st.current == 0 && j <= Entries(st)
    requires plan.Restart? ==> plan.at < Entries(st) && |plan.schedule| > 0
  {
    if j == 0 then 0
    else
      var e := During(st, plan, j - 1);
      PlannedHigh(st, plan, pin, j - 1) + if pin in e.high then e.load else 0
  }

  ghost function PlannedElapsed(st: State, plan: Plan, j: nat): nat
    requires Buffered(st, false) && !st.down && st.current == 0 && j <= Entries(st)
    requires plan.Restart? ==> plan.at < Entries(st) && |plan.schedule| > 0
  {
    if j == 0 then 0 else PlannedElapsed(st, plan, j - 1) + During(st, plan, j - 1).load
  }

  lemma {:induction false} StartDoesNotShow(st: State, plan: Plan, pin: nat, j: nat)
    requires Buffered(st, false) && !st.down && st.current == 0 && j <= Entries(st)
    requires plan.Restart? ==> plan.at < Entries(st) && |plan.schedule| > 0
    ensures PlannedHigh(st, plan, pin, j) == HighTicks(st, pin, j)
    ensures PlannedElapsed(st, plan, j) == Elapsed(st, j)
  {
    hide During, Later;
    if j > 0 {
      StartDoesNotShow(st, plan, pin, j - 1);
      DuringAsStarted(st, plan, j - 1);
    }
  }

  lemma PeriodGoesByPlan(st: State, pins: seq<nat>, w: Wave, plan: Plan)
    requires Distinct(pins) && Begun(st, pins, w)
    requires plan.Restart? ==> plan.at < Entries(st) && |plan.schedule| > 0
    ensures PlannedElapsed(st, plan, Entries(st)) == w.period
    ensures forall i :: 0 <= i < |pins| ==> PlannedHigh(st, plan, pins[i], Entries(st)) == w.pulses[i]
  {
    hide PlannedHigh, PlannedElapsed, HighTicks, Elapsed, ScheduleFor, Longest, HighTicksOf, Level;
    var n := Entries(st);
    LengthIsThePeriod(st, pins, w, plan);
    forall i | 0 <= i < |pins| ensures PlannedHigh(st, plan, pins[i], n) == w.pulses[i] {
      StartDoesNotShow(st, plan, pins[i], n);
      PeriodIsExact(st, pins, w.pulses, w.period, i);
    }
  }

  lemma LongestIsThePeriod(w: Wave)
    requires forall p :: p in w.pulses ==> p <= w.period
    ensures Longest(w.pulses, w.period) == w.period
  {
  }

  // Its length does not depend on the pins.
  lemma LengthIsThePeriod(st: State, pins: seq<nat>, w: Wave, plan: Plan)
    requires Asks(Schedule(st, st.walking), pins, w) && Buffered(st, false) && !st.down && st.current == 0
    requires st.load == Schedule(st, st.walking)[0].hTime
    requires plan.Restart? ==> plan.at < Entries(st) && |plan.schedule| > 0
    ensures PlannedElapsed(st, plan, Entries(st)) == w.period
  {
    hide PlannedHigh, PlannedElapsed, HighTicks, Elapsed, MasksFor, Longest;
    LoadsAddUp(st, Entries(st));
    StartDoesNotShow(st, plan, 0, Entries(st));
    LongestIsThePeriod(w);
  }

  // From 77 Hz up every schedule pwm_start builds is one for times that 16 bits hold.
  lemma StartAsks(s: seq<Entry>, pins: seq<nat>, duty: seq<nat>, f: nat)
    requires 77 <= f <= 500 && |pins| == |duty| && Duties(duty)
    requires ScheduleFor(s, pins, Pulses(duty, PeriodField(f)), TimerTicks(PeriodField(f)))
    ensures Asks(s, pins, Wave(Pulses(duty, PeriodField(f)), TimerTicks(PeriodField(f))))
  {
    hide LoadsFor, MasksFor, Longest, TimerTicks, Pulses;
    PeriodIsPositive(f);
    TimerTicksArePositive(PeriodField(f));
    TimesThatFit(duty, f);
  }

  // ------------------------------------------------------------------ the first period after a stop

  // What a pin does in it, when it was at level `was`: pwm_start lowers the pins of the first
  // entry at once, raises none, and leaves those of zero pulse to the end of the period.
  function FirstHigh(was: bool, p: nat, firstEnd: nat, t: nat): nat {
    if !was || p == firstEnd then 0 else if p == 0 || t < p then t else p
  }

  lemma FirstEntry(stopped: State, s: seq<Entry>, pins: seq<nat>, w: Wave, i: nat)
    requires stopped.down && stopped.current == 0 && Distinct(pins) && i < |pins|
    requires Asks(s, pins, w) && |s| > 1
    ensures pins[i] in AfterStart(stopped, s).high <==> pins[i] in stopped.high && w.pulses[i] != s[0].hTime
  {
    hide LoadsFor, Longest;
    LongestIsThePeriod(w);
    EntryTimes(s, w.pulses, w.period, 0, i);
    PinInPinsAt(pins, w.pulses, i, EntryEnd(s, 0));
    assert EntryEnd(s, 0) == Prefix(s, 0) + s[0].hTime;
  }

  lemma {:induction false} DuringFirst(stopped: State, s: seq<Entry>, pins: seq<nat>, w: Wave, k: nat, i: nat)
    requires stopped.down && stopped.current == 0 && Distinct(pins) && i < |pins|
    requires Asks(s, pins, w) && |s| > 1 && k < |s|
    ensures var st := AfterStart(stopped, s);
            && Entries(st) == |s| && Walkable(st)
            && (pins[i] in Later(st, k).high <==>
                  && pins[i] in stopped.high && w.pulses[i] != s[0].hTime
                  && (w.pulses[i] == 0 || w.pulses[i] > Prefix(s, k)))
  {
    hide LoadsFor, MasksFor, AfterInterrupt, Longest;
    var st := AfterStart(stopped, s);
    LongestIsThePeriod(w);
    EntryTimes(s, w.pulses, w.period, 0, i);
    if k == 0 {
      FirstEntry(stopped, s, pins, w, i);
    } else {
      DuringFirst(stopped, s, pins, w, k - 1, i);
      EntryPassed(Later(st, k - 1), s, pins, w.pulses, w.period, i);
      EntryTimes(s, w.pulses, w.period, k - 1, i);
    }
  }

  lemma {:induction false} HighInFirst(stopped: State, s: seq<Entry>, pins: seq<nat>, w: Wave, k: nat, i: nat)
    requires stopped.down && stopped.current == 0 && Distinct(pins) && i < |pins|
    requires Asks(s, pins, w) && |s| > 1 && k <= |s|
    ensures var st := AfterStart(stopped, s);
            && Walkable(st) && Entries(st) == |s|
            && HighTicks(st, pins[i], k) == FirstHigh(pins[i] in stopped.high, w.pulses[i], s[0].hTime, Prefix(s, k))
  {
    hide LoadsFor, MasksFor, AfterInterrupt, Longest;
    if k > 0 {
      var st, j := AfterStart(stopped, s), k - 1;
      HighInFirst(stopped, s, pins, w, j, i);
      DuringFirst(stopped, s, pins, w, j, i);
      EntryTimes(s, w.pulses, w.period, j, i);
      LoadsAddUp(st, j);
    }
  }

  // ------------------------------------------------------------------ runs

  // A period after another, a timer at rest, or the first period after a rest (or a cold start),
  // which pwm_start begins with the given schedule.
  datatype Stage = Going(st: State) | Resting(st: State) | First(stopped: State, schedule: seq<Entry>)

  function StateOf(g: Stage): State
    requires g.First? ==> |g.schedule| > 0
  {
    if g.First? then AfterStart(g.stopped, g.schedule) else g.st
  }

  ghost predicate Proper(g: Stage, pins: seq<nat>, w: Wave) {
    match g
    case Going(st) => Begun(st, pins, w)
    case Resting(st) => st.down && st.current == 0 && AtLevels(st, pins, w)
    case First(stopped, s) => stopped.down && stopped.current == 0 && Asks(s, pins, w) && |s| > 1
  }

  // Every duty is zero or full and every pin is at its constant level.
  ghost predicate AtLevels(st: State, pins: seq<nat>, w: Wave) {
    && |pins| == |w.pulses|
    && forall i :: 0 <= i < |pins| ==>
         && (w.pulses[i] == 0 || w.pulses[i] == w.period)
         && (pins[i] in st.high <==> w.pulses[i] == w.period)
  }

  ghost predicate Allowed(g: Stage, pins: seq<nat>, plan: Plan) {
    plan.Restart? ==>
      && Asks(plan.schedule, pins, plan.wave)
      && (!g.Resting? ==> (g.First? ==> |g.schedule| > 0) && plan.at < Entries(StateOf(g)))
  }

  ghost predicate Running(st: State) {
    Buffered(st, false) && !st.down && st.current == 0
  }

  // The stage that follows, and the wave it is to have.
  ghost function NextStage(g: Stage, plan: Plan): Stage
    requires plan.Restart? ==> |plan.schedule| > 0
    requires g.First? ==> |g.schedule| > 0
    requires !g.Resting? ==> Running(StateOf(g)) && (plan.Restart? ==> plan.at < Entries(StateOf(g)))
  {
    match g
    case Resting(st) =>
      if plan.Quiet? then g
      else if |plan.schedule| == 1 then Resting(AfterStart(st, plan.schedule))
      else First(st, plan.schedule)
    case _ =>
      var st := StateOf(g);
      DuringAsStarted(st, plan, Entries(st) - 1);
      var next := AfterInterrupt(During(st, plan, Entries(st) - 1));
      if next.down then Resting(next) else Going(next)
  }

  function NextWave(w: Wave, plan: Plan): Wave {
    if plan.Quiet? then w else plan.wave
  }

  lemma ProperRuns(g: Stage, pins: seq<nat>, w: Wave)
    requires Proper(g, pins, w) && !g.Resting?
    ensures g.First? ==> |g.schedule| > 0
    ensures Running(StateOf(g)) && Asks(Schedule(StateOf(g), StateOf(g).walking), pins, w)
    ensures StateOf(g).load == Schedule(StateOf(g), StateOf(g).walking)[0].hTime && Entries(StateOf(g)) > 1
  {
    hide ScheduleFor;
  }

  // The interrupt at the end of a period begins a proper one, or puts the timer to rest.
  lemma PeriodEnds(last: State, pins: seq<nat>, w: Wave)
    requires Distinct(pins) && Walkable(last) && AtPeriodEnd(last) && !last.down
    requires Asks(Schedule(last, last.toggle), pins, w)
    ensures var next := AfterInterrupt(last);
            if next.down then Proper(Resting(next), pins, w) else Proper(Going(next), pins, w)
  {
    hide ScheduleFor, Opened, Longest;
    LongestIsThePeriod(w);
    if |Schedule(last, last.toggle)| > 1 {
      InterruptOpensPeriod(last, pins, w.pulses, w.period);
    } else {
      forall i | 0 <= i < |pins|
        ensures w.pulses[i] == 0 || w.pulses[i] == w.period
        ensures pins[i] in AfterInterrupt(last).high <==> w.pulses[i] == w.period
      {
        ConstantLevels(last, pins, w.pulses, w.period, i);
      }
    }
  }

  // pwm_start on a timer at rest, for duties that are all zero or full, sets the levels at once.
  lemma StaysAtRest(st: State, s: seq<Entry>, pins: seq<nat>, w: Wave)
    requires Distinct(pins) && st.down && st.current == 0 && Asks(s, pins, w) && |s| == 1
    ensures Proper(Resting(AfterStart(st, s)), pins, w)
  {
    LongestIsThePeriod(w);
    forall i | 0 <= i < |pins|
      ensures w.pulses[i] == 0 || w.pulses[i] == w.period
      ensures pins[i] in AfterStart(st, s).high <==> w.pulses[i] == w.period
    {
      PinInPinsAt(pins, w.pulses, i, 0);
      EveryPin(pins, i);
      assert EndsAtEntry(s, w.pulses[i]) && Prefix(s, 1) == Prefix(s, 0) + s[0].hTime;
    }
  }

  lemma NextStageIsProper(g: Stage, pins: seq<nat>, w: Wave, plan: Plan)
    requires Distinct(pins) && Proper(g, pins, w) && Allowed(g, pins, plan)
    ensures !g.Resting? ==> (g.First? ==> |g.schedule| > 0) && Running(StateOf(g))
    ensures plan.Restart? ==> |plan.schedule| > 0
    ensures Proper(NextStage(g, plan), pins, NextWave(w, plan))
  {
    hide ScheduleFor, Opened, AtLevels, During, AfterInterrupt, AfterStart;
    if g.Resting? {
      if plan.Restart? && |plan.schedule| == 1 {
        StaysAtRest(g.st, plan.schedule, pins, plan.wave);
      }
    } else {
      ProperRuns(g, pins, w);
      var st := StateOf(g);
      DuringAsStarted(st, plan, Entries(st) - 1);
      PeriodEnds(During(st, plan, Entries(st) - 1), pins, NextWave(w, plan));
    }
  }

  // What is promised of a stage that goes by a plan.
  ghost predicate AsAsked(g: Stage, pins: seq<nat>, w: Wave, plan: Plan)
    requires |pins| == |w.pulses|
    requires g.First? ==> |g.schedule| > 0
    requires !g.Resting? ==> Running(StateOf(g))
    requires !g.Resting? && plan.Restart? ==> plan.at < Entries(StateOf(g)) && |plan.schedule| > 0
  {
    if g.Resting? then AtLevels(g.st, pins, w)
    else
      var st := StateOf(g);
      var n := Entries(st);
      && PlannedElapsed(st, plan, n) == w.period
      && forall i :: 0 <= i < |pins| ==>
           PlannedHigh(st, plan, pins[i], n)
           == if g.Going? then w.pulses[i]
              else FirstHigh(pins[i] in g.stopped.high, w.pulses[i], g.schedule[0].hTime, w.period)
  }

  lemma StageIsAsAsked(g: Stage, pins: seq<nat>, w: Wave, plan: Plan)
    requires Distinct(pins) && Proper(g, pins, w) && Allowed(g, pins, plan)
    ensures |pins| == |w.pulses| && (plan.Restart? ==> |plan.schedule| > 0)
    ensures !g.Resting? ==> (g.First? ==> |g.schedule| > 0) && Running(StateOf(g))
    ensures AsAsked(g, pins, w, plan)
  {
    hide ScheduleFor, Opened, AfterStart, AfterInterrupt, PlannedHigh, PlannedElapsed, FirstHigh, HighTicks;
    if !g.Resting? {
      ProperRuns(g, pins, w);
      var st := StateOf(g);
      if g.Going? {
        PeriodGoesByPlan(st, pins, w, plan);
      } else {
        LengthIsThePeriod(st, pins, w, plan);
        FirstLasts(g, pins, w);
        forall i | 0 <= i < |pins|
          ensures PlannedHigh(st, plan, pins[i], Entries(st))
               == FirstHigh(pins[i] in g.stopped.high, w.pulses[i], g.schedule[0].hTime, w.period)
        {
          StartDoesNotShow(st, plan, pins[i], Entries(st));
          HighInFirst(g.stopped, g.schedule, pins, w, |g.schedule|, i);
        }
      }
    }
  }

  lemma FirstLasts(g: Stage, pins: seq<nat>, w: Wave)
    requires Proper(g, pins, w) && g.First?
    ensures Entries(StateOf(g)) == |g.schedule| && Prefix(g.schedule, |g.schedule|) == w.period
  {
    hide MasksFor, Longest;
    LongestIsThePeriod(w);
  }

  // Every plan is allowed when its stage comes.
  ghost predicate AllAllowed(g: Stage, pins: seq<nat>, w: Wave, plans: seq<Plan>)
    requires Distinct(pins) && Proper(g, pins, w)
    decreases |plans|
  {
    plans == [] ||
    (&& Allowed(g, pins, plans[0])
     && (NextStageIsProper(g, pins, w, plans[0]);
         AllAllowed(NextStage(g, plans[0]), pins, NextWave(w, plans[0]), plans[1..])))
  }

  ghost predicate AllAsAsked(g: Stage, pins: seq<nat>, w: Wave, plans: seq<Plan>)
    requires Distinct(pins) && Proper(g, pins, w) && AllAllowed(g, pins, w, plans)
    decreases |plans|
  {
    plans == [] ||
    (NextStageIsProper(g, pins, w, plans[0]);
     StageIsAsAsked(g, pins, w, plans[0]);
     && AsAsked(g, pins, w, plans[0])
     && AllAsAsked(NextStage(g, plans[0]), pins, NextWave(w, plans[0]), plans[1..]))
  }

  // The run theorem: over any number of periods and rests, with at most one pwm_start in each,
  // every period is exact for the duties of the last pwm_start before it; a timer at rest holds
  // every pin at its level; and the first period after a rest or a cold start has the right length
  // and the high times FirstHigh.
  lemma {:induction false} EveryPeriodIsExact(g: Stage, pins: seq<nat>, w: Wave, plans: seq<Plan>)
    requires Distinct(pins) && Proper(g, pins, w) && AllAllowed(g, pins, w, plans)
    ensures AllAsAsked(g, pins, w, plans)
    decreases |plans|
  {
    hide AsAsked, NextStage, Proper, Asks;
    if plans != [] {
      NextStageIsProper(g, pins, w, plans[0]);
      StageIsAsAsked(g, pins, w, plans[0]);
      EveryPeriodIsExact(NextStage(g, plans[0]), pins, NextWave(w, plans[0]), plans[1..]);
    }
  }
}
