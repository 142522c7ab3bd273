// The waveform of firmware/user/pwm.c: how long one period lasts and how long each pin is high
// in it, for every 16-bit period, and what that is at each frequency.
module PwmWave {
  import opened PwmSchedule
  import opened PwmTimer

  // ------------------------------------------------------------------ one channel

  // Whether a pin whose pulse ends at p is high just after time t of a period that begins
  // anew after `cycle` ticks and raises every pin at `period`.
  predicate Level(p: nat, period: nat, cycle: nat, t: nat) {
    if t < period then t < p < period || p == cycle else p < period || p > t
  }

  // The ticks it has been high by time t.
  function HighBefore(p: nat, period: nat, cycle: nat, t: nat): nat {
    if p == cycle then t
    else if p < period then
      if t <= p then t else if t <= period then p else p + (t - period)
    else if t <= period then 0
    else if t <= p then t - period else p - period
  }

  // The ticks it is high in a whole cycle: its pulse, if the period is the longest time.
  function HighTicksOf(p: nat, period: nat, cycle: nat): nat
    requires period <= cycle
  {
    if p == cycle then cycle else if p < period then p + (cycle - period) else p - period
  }

  lemma HighInACycle(p: nat, period: nat, cycle: nat)
    requires p <= cycle && 0 < period <= cycle
    ensures HighBefore(p, period, cycle, cycle) == HighTicksOf(p, period, cycle)
    ensures period == cycle ==> HighTicksOf(p, period, cycle) == p
  {
  }

  // Between two times with neither the pulse nor the period ending in between.
  predicate Apart(p: nat, t: nat, u: nat) {
    p <= t || u <= p
  }

  lemma LevelSteps(p: nat, period: nat, cycle: nat, t: nat, u: nat)
    requires p <= cycle && period <= cycle && t < u < cycle && Apart(p, t, u) && Apart(period, t, u)
    ensures Level(p, period, cycle, u) <==> if u == period then p != period else Level(p, period, cycle, t) && p != u
  {
  }

  lemma HighSteps(p: nat, period: nat, cycle: nat, t: nat, u: nat)
    requires p <= cycle && period <= cycle && t < u <= cycle && Apart(p, t, u) && Apart(period, t, u)
    ensures HighBefore(p, period, cycle, u)
         == HighBefore(p, period, cycle, t) + if Level(p, period, cycle, t) then u - t else 0
  {
  }

  // The end of a cycle, which raises every pin if the period ends there and lowers those of
  // zero pulse, gives the levels of its start.
  lemma LevelStartsAgain(p: nat, period: nat, cycle: nat, t: nat)
    requires p <= cycle && 0 < period <= cycle && t < cycle && Apart(p, t, cycle) && Apart(period, t, cycle)
    ensures Level(p, period, cycle, 0) <==> (period == cycle || Level(p, period, cycle, t)) && p != 0
  {
  }

  // ------------------------------------------------------------------ one period

  // A period has just begun: the first entry is loaded and the pins have their starting levels.
  ghost predicate Opened(st: State, pins: seq<nat>, pulses: seq<nat>, period: nat)
    requires |pins| == |pulses|
  {
    && Walkable(st) && st.current == 0
    && st.load == Schedule(st, st.walking)[0].hTime
    && forall i :: 0 <= i < |pins| ==> (pins[i] in st.high <==> Level(pulses[i], period, Longest(pulses, period), 0))
  }

  lemma PinInPinsAt(pins: seq<nat>, pulses: seq<nat>, i: nat, t: nat)
    requires |pins| == |pulses| && Distinct(pins) && i < |pins|
    ensures pins[i] in PinsAt(pins, pulses, t) <==> pulses[i] == t
  {
  }

  lemma {:induction false} PrefixGrows(s: seq<Entry>, j: nat, k: nat)
    requires j < k <= |s| && forall i :: 0 <= i < |s| ==> s[i].hTime > 0
    ensures Prefix(s, j) < Prefix(s, k)
  {
    if j < k - 1 {
      PrefixGrows(s, j, k - 1);
    }
  }

  // Nothing that ends at an entry ends inside another.
  lemma NothingEndsInside(s: seq<Entry>, t: nat, k: nat)
    requires k < |s| && (forall i :: 0 <= i < |s| ==> s[i].hTime > 0) && EndsAtEntry(s, t)
    ensures Apart(t, Prefix(s, k), Prefix(s, k + 1))
  {
    var m :| 0 <= m <= |s| && Prefix(s, m) == t;
    if m < k {
      PrefixGrows(s, m, k);
    } else if m > k + 1 {
      PrefixGrows(s, k + 1, m);
    }
  }

  // The times of entry k.
  lemma EntryTimes(s: seq<Entry>, pulses: seq<nat>, period: nat, k: nat, i: nat)
    requires LoadsFor(s, pulses, period) && k < |s| && i < |pulses|
    ensures Prefix(s, k) < Prefix(s, k + 1) == Prefix(s, k) + s[k].hTime
    ensures Apart(pulses[i], Prefix(s, k), Prefix(s, k + 1)) && Apart(period, Prefix(s, k), Prefix(s, k + 1))
    ensures pulses[i] <= Longest(pulses, period) && period <= Longest(pulses, period)
    ensures if k == |s| - 1 then Prefix(s, k + 1) == Longest(pulses, period)
            else Prefix(s, k + 1) < Longest(pulses, period)
  {
    hide EndsAtEntry;
    assert pulses[i] in pulses;
    NothingEndsInside(s, pulses[i], k);
    NothingEndsInside(s, period, k);
    if k < |s| - 1 {
      PrefixGrows(s, k + 1, |s|);
    }
  }

  // One interrupt inside a period raises every pin at the period's time and lowers exactly the
  // pins whose pulse ends with the entry.
  lemma EntryPassed(prev: State, s: seq<Entry>, pins: seq<nat>, pulses: seq<nat>, period: nat, i: nat)
    requires Walkable(prev) && s == Schedule(prev, prev.walking) && prev.current + 1 < |s|
    requires |pins| == |pulses| && Distinct(pins) && i < |pins| && MasksFor(s, pins, pulses, period)
    ensures var st, t := AfterInterrupt(prev), Prefix(s, prev.current + 1);
            && st.load == s[prev.current + 1].hTime
            && (pins[i] in st.high <==> (t == period || pins[i] in prev.high) && pulses[i] != t)
  {
    PinInPinsAt(pins, pulses, i, EntryEnd(s, prev.current));
    assert pins[i] in AllPins(pins);
  }

  // While entry k of a period is running, its timer load is entry k's and every pin has the
  // level of the entry's start.
  lemma {:induction false} DuringEntry(st: State, pins: seq<nat>, pulses: seq<nat>, period: nat, k: nat, i: nat)
    requires |pins| == |pulses| && Distinct(pins) && i < |pins| && Opened(st, pins, pulses, period)
    requires k < |Schedule(st, st.walking)| && ScheduleFor(Schedule(st, st.walking), pins, pulses, period)
    ensures var s := Schedule(st, st.walking);
            && Later(st, k).load == s[k].hTime
            && (pins[i] in Later(st, k).high <==> Level(pulses[i], period, Longest(pulses, period), Prefix(s, k)))
  {
    hide LoadsFor, MasksFor, Level, AfterInterrupt, Longest;
    var s := Schedule(st, st.walking);
    if k > 0 {
      DuringEntry(st, pins, pulses, period, k - 1, i);
      EntryPassed(Later(st, k - 1), s, pins, pulses, period, i);
      EntryTimes(s, pulses, period, k - 1, i);
      LevelSteps(pulses[i], period, Longest(pulses, period), Prefix(s, k - 1), Prefix(s, k));
    }
  }

  // The ticks a pin is high, and the ticks that pass, over the first k entries of a period.
  ghost function HighTicks(st: State, pin: nat, k: nat): nat
    requires Walkable(st) && st.current == 0 && k <= |Schedule(st, st.walking)|
  {
    if k == 0 then 0
    else HighTicks(st, pin, k - 1) + if pin in Later(st, k - 1).high then Later(st, k - 1).load else 0
  }

  ghost function Elapsed(st: State, k: nat): nat
    requires Walkable(st) && st.current == 0 && k <= |Schedule(st, st.walking)|
  {
    if k == 0 then 0 else Elapsed(st, k - 1) + Later(st, k - 1).load
  }

  // The loads of a period add up to its entries' times, whatever the pins.
  lemma {:induction false} LoadsAddUp(st: State, k: nat)
    requires Walkable(st) && st.current == 0 && k <= |Schedule(st, st.walking)|
    requires st.load == Schedule(st, st.walking)[0].hTime
    ensures Elapsed(st, k) == Prefix(Schedule(st, st.walking), k)
    ensures k < |Schedule(st, st.walking)| ==> Later(st, k).load == Schedule(st, st.walking)[k].hTime
  {
    if k > 0 {
      LoadsAddUp(st, k - 1);
      assert Later(st, k - 1).current == k - 1;
    }
  }

  lemma {:induction false} HighUpToEntry(st: State, pins: seq<nat>, pulses: seq<nat>, period: nat, k: nat, i: nat)
    requires |pins| == |pulses| && Distinct(pins) && i < |pins| && Opened(st, pins, pulses, period)
    requires k <= |Schedule(st, st.walking)| && ScheduleFor(Schedule(st, st.walking), pins, pulses, period)
    ensures HighTicks(st, pins[i], k)
         == HighBefore(pulses[i], period, Longest(pulses, period), Prefix(Schedule(st, st.walking), k))
  {
    hide LoadsFor, MasksFor, Level, AfterInterrupt, Longest;
    if k == 0 {
      hide HighTicks;
      NothingYet(pulses[i], period, Longest(pulses, period));
    } else {
      var s, j := Schedule(st, st.walking), k - 1;
      HighUpToEntry(st, pins, pulses, period, j, i);
      DuringEntry(st, pins, pulses, period, j, i);
      EntryTimes(s, pulses, period, j, i);
      HighSteps(pulses[i], period, Longest(pulses, period), Prefix(s, j), Prefix(s, k));
    }
  }

  lemma NothingYet(p: nat, period: nat, cycle: nat)
    ensures HighBefore(p, period, cycle, 0) == 0
  {
  }

  // The waveform theorem: every period lasts exactly the longest 16-bit time of its schedule and
  // drives every pin high for exactly HighTicksOf; that is the period and the pulse asked for
  // when no pulse is above the period, for zero, full and equal duties alike.
  lemma PeriodIsExact(st: State, pins: seq<nat>, pulses: seq<nat>, period: nat, i: nat)
    requires |pins| == |pulses| && Distinct(pins) && i < |pins| && Opened(st, pins, pulses, period) && period > 0
    requires ScheduleFor(Schedule(st, st.walking), pins, pulses, period)
    ensures var n, cycle := |Schedule(st, st.walking)|, Longest(pulses, period);
            && Elapsed(st, n) == cycle
            && HighTicks(st, pins[i], n) == HighTicksOf(pulses[i], period, cycle)
            && AtPeriodEnd(Later(st, n - 1))
    ensures (forall p :: p in pulses ==> p <= period) ==>
              Longest(pulses, period) == period && HighTicksOf(pulses[i], period, period) == pulses[i]
  {
    hide MasksFor, HighTicksOf;
    assert pulses[i] in pulses;
    LoadsAddUp(st, |Schedule(st, st.walking)|);
    HighUpToEntry(st, pins, pulses, period, |Schedule(st, st.walking)|, i);
    HighInACycle(pulses[i], period, Longest(pulses, period));
  }

  // ------------------------------------------------------------------ one period after another

  // The interrupt at the end of a period opens the next one on the schedule last filled: at once
  // when its period is its longest time, and otherwise if the pins already follow it.
  lemma InterruptOpensPeriod(before: State, pins: seq<nat>, pulses: seq<nat>, period: nat)
    requires Walkable(before) && AtPeriodEnd(before) && |pins| == |pulses| && Distinct(pins) && 0 < period
    requires ScheduleFor(Schedule(before, before.toggle), pins, pulses, period)
    requires |Schedule(before, before.toggle)| > 1
    requires period == Longest(pulses, period) || FollowsAt(before, pins, pulses, period)
    ensures Opened(AfterInterrupt(before), pins, pulses, period)
    ensures Schedule(AfterInterrupt(before), AfterInterrupt(before).walking) == Schedule(before, before.toggle)
  {
    hide LoadsFor, Level, Longest, AllPins;
    var s, cycle := Schedule(before, before.toggle), Longest(pulses, period);
    forall i | 0 <= i < |pins|
      ensures pins[i] in AfterInterrupt(before).high <==> Level(pulses[i], period, cycle, 0)
    {
      EntryTimes(s, pulses, period, |s| - 1, i);
      LevelStartsAgain(pulses[i], period, cycle, Prefix(s, |s| - 1));
      PinInPinsAt(pins, pulses, i, 0);
      EveryPin(pins, i);
    }
  }

  lemma EveryPin(pins: seq<nat>, i: nat)
    requires i < |pins|
    ensures pins[i] in AllPins(pins)
  {
  }

  // The pins have the levels of the last entry of the schedule last filled.
  ghost predicate FollowsAt(st: State, pins: seq<nat>, pulses: seq<nat>, period: nat)
    requires |pins| == |pulses| && |Schedule(st, st.toggle)| > 0
  {
    var s := Schedule(st, st.toggle);
    forall i :: 0 <= i < |pins| ==>
      (pins[i] in st.high <==> Level(pulses[i], period, Longest(pulses, period), Prefix(s, |s| - 1)))
  }

  // Once the time at which all pins are raised has passed, their levels no longer depend on what
  // they were at the start.
  lemma {:induction false} Settled(st: State, pins: seq<nat>, pulses: seq<nat>, period: nat, k: nat, i: nat)
    requires |pins| == |pulses| && Distinct(pins) && i < |pins| && Walkable(st) && st.current == 0 && 0 < period
    requires ScheduleFor(Schedule(st, st.walking), pins, pulses, period)
    requires k < |Schedule(st, st.walking)| && period <= Prefix(Schedule(st, st.walking), k)
    ensures pins[i] in Later(st, k).high
       <==> Level(pulses[i], period, Longest(pulses, period), Prefix(Schedule(st, st.walking), k))
  {
    hide LoadsFor, MasksFor, Level, AfterInterrupt, Longest;
    var s, cycle := Schedule(st, st.walking), Longest(pulses, period);
    var t, u := Prefix(s, k - 1), Prefix(s, k);
    EntryPassed(Later(st, k - 1), s, pins, pulses, period, i);
    EntryTimes(s, pulses, period, k - 1, i);
    LevelSteps(pulses[i], period, cycle, t, u);
    if period <= t {
      Settled(st, pins, pulses, period, k - 1, i);
    }
  }

  lemma FollowsAtEnd(st: State, pins: seq<nat>, pulses: seq<nat>, period: nat)
    requires |pins| == |pulses| && Distinct(pins) && Walkable(st) && st.current == 0 && 0 < period
    requires st.walking == st.toggle && |Schedule(st, st.walking)| > 1 && period < Longest(pulses, period)
    requires ScheduleFor(Schedule(st, st.walking), pins, pulses, period)
    ensures FollowsAt(Later(st, |Schedule(st, st.walking)| - 1), pins, pulses, period)
  {
    hide LoadsFor, MasksFor, Level, AfterInterrupt, Longest;
    var s := Schedule(st, st.walking);
    forall i | 0 <= i < |pins|
      ensures pins[i] in Later(st, |s| - 1).high
         <==> Level(pulses[i], period, Longest(pulses, period), Prefix(s, |s| - 1))
    {
      EntryTimes(s, pulses, period, |s| - 1, i);
      Settled(st, pins, pulses, period, |s| - 1, i);
    }
  }

  // A whole period of one schedule, begun with the pins at any levels, is followed by a proper one.
  lemma PeriodSettles(st: State, pins: seq<nat>, pulses: seq<nat>, period: nat)
    requires |pins| == |pulses| && Distinct(pins) && Walkable(st) && st.current == 0 && 0 < period
    requires st.walking == st.toggle && |Schedule(st, st.walking)| > 1
    requires ScheduleFor(Schedule(st, st.walking), pins, pulses, period)
    ensures var end := Later(st, |Schedule(st, st.walking)| - 1);
            AtPeriodEnd(end) && Opened(AfterInterrupt(end), pins, pulses, period)
  {
    hide ScheduleFor, FollowsAt, AfterInterrupt, Longest, Opened;
    if period < Longest(pulses, period) {
      FollowsAtEnd(st, pins, pulses, period);
    }
    InterruptOpensPeriod(Later(st, |Schedule(st, st.walking)| - 1), pins, pulses, period);
  }

  // When the schedule has one entry every pulse is empty or the whole period, and the timer is
  // stopped, and not loaded again, with each pin at its constant level.
  lemma ConstantLevels(before: State, pins: seq<nat>, pulses: seq<nat>, period: nat, i: nat)
    requires Walkable(before) && AtPeriodEnd(before) && |pins| == |pulses| && Distinct(pins) && i < |pins|
    requires ScheduleFor(Schedule(before, before.toggle), pins, pulses, period) && 0 < period
    requires |Schedule(before, before.toggle)| == 1
    ensures var st := AfterInterrupt(before);
            && st.down && st.load == before.load && (pulses[i] == 0 || pulses[i] == period)
            && (pins[i] in st.high <==> pulses[i] == period)
  {
    var s := Schedule(before, before.toggle);
    PinInPinsAt(pins, pulses, i, 0);
    assert pins[i] in AllPins(pins);
    assert s[0].hTime > 0 && EndsAtEntry(s, pulses[i]) && EndsAtEntry(s, period);
    assert Prefix(s, 1) == Prefix(s, 0) + s[0].hTime;
  }

  // ------------------------------------------------------------------ frequencies

  // pwm.period at a frequency.
  function PeriodField(f: nat): nat
    requires 1 <= f
  {
    1000000 / f % 0x10000
  }

  lemma QuotientBounds(f: nat, q: nat)
    requires 1 <= f <= 500 && q == 1000000 / f
    ensures if f >= 77 then q <= 12987 else q >= 13157
  {
    assert q * f <= 1000000 < q * f + f;
    if f >= 77 {
      AtLeastTimes(q, f, 77);
    } else {
      AtLeastTimes(q, 76, f);
    }
  }

  // 16 bits hold the ticks of a period and of its pulses exactly from 77 Hz up.
  lemma TimesThatFit(duty: seq<nat>, f: nat)
    requires 1 <= f <= 500 && Duties(duty)
    ensures var period := PeriodField(f);
            var pulses := Pulses(duty, period);
            && (Longest(pulses, TimerTicks(period)) == 5 * (1000000 / f) <==> f >= 77)
            && (f >= 77 ==> Longest(pulses, TimerTicks(period)) == TimerTicks(period)
                            && forall i :: 0 <= i < |duty| ==> pulses[i] == 5 * ((1000000 / f) * duty[i] / PWM_DEPTH))
  {
    hide Longest, TimerTicks, Pulses;
    QuotientBounds(f, 1000000 / f);
    if f >= 77 {
      TimesFromQuotient(duty, 1000000 / f);
    } else {
      TimesAreSixteenBits(duty, PeriodField(f));
    }
  }

  lemma ShortTimes(us: nat)
    requires us <= 12987
    ensures TimerTicks(us) == 5 * us == Ticks(us) < 0x10000
  {
    hide Ticks;
    TicksAreFivePerMicrosecond(us);
  }

  lemma PulseFromQuotient(duty: seq<nat>, q: nat, i: nat)
    requires q <= 12987 && i < |duty| && duty[i] <= PWM_DEPTH
    ensures Pulses(duty, q)[i] == 5 * (q * duty[i] / PWM_DEPTH) <= 5 * q
  {
    hide TimerTicks, Ticks;
    ShortTimes(q);
    PulseWithinPeriod(duty, q, i);
    Scale(q, duty[i]);
    ShortTimes(q * duty[i] / PWM_DEPTH);
  }

  lemma TimesFromQuotient(duty: seq<nat>, q: nat)
    requires q <= 12987 && Duties(duty)
    ensures TimerTicks(q) == 5 * q == Longest(Pulses(duty, q), TimerTicks(q))
    ensures forall i :: 0 <= i < |duty| ==> Pulses(duty, q)[i] == 5 * (q * duty[i] / PWM_DEPTH)
  {
    hide Longest, TimerTicks, Ticks, Pulses;
    var pulses := Pulses(duty, q);
    ShortTimes(q);
    forall i | 0 <= i < |duty| ensures pulses[i] == 5 * (q * duty[i] / PWM_DEPTH) <= 5 * q {
      PulseFromQuotient(duty, q, i);
    }
    assert forall p :: p in pulses ==> p <= 5 * q;
  }

  lemma TimesAreSixteenBits(duty: seq<nat>, period: nat)
    ensures Longest(Pulses(duty, period), TimerTicks(period)) < 0x10000
  {
    hide Longest, Ticks;
    assert forall p :: p in Pulses(duty, period) ==> p < 0x10000;
  }

  // The frequency theorem: a running PWM has the period asked for if and only if the frequency is
  // at least 77 Hz, and then every pin is high for exactly its share of it.
  lemma FrequencyIsKept(st: State, pins: seq<nat>, duty: seq<nat>, f: nat, i: nat)
    requires 1 <= f <= 500 && |pins| == |duty| && Duties(duty) && Distinct(pins) && i < |pins|
    requires Opened(st, pins, Pulses(duty, PeriodField(f)), TimerTicks(PeriodField(f)))
    requires ScheduleFor(Schedule(st, st.walking), pins, Pulses(duty, PeriodField(f)), TimerTicks(PeriodField(f)))
    ensures var n := |Schedule(st, st.walking)|;
            && (Elapsed(st, n) == 5 * (1000000 / f) <==> f >= 77)
            && (f >= 77 ==> HighTicks(st, pins[i], n) == 5 * ((1000000 / f) * duty[i] / PWM_DEPTH))
  {
    hide Longest, TimerTicks, Pulses, Opened, ScheduleFor, Elapsed, HighTicks;
    var period := PeriodField(f);
    var pulses := Pulses(duty, period);
    PeriodIsPositive(f);
    TimerTicksArePositive(period);
    TimesThatFit(duty, f);
    PeriodIsExact(st, pins, pulses, TimerTicks(period), i);
  }

  // The one frequency the firmware sets, with half duty on its one channel: instead of 100000
  // ticks of which 50195 are high, 50195 all of which are.
  lemma AtFiftyHertz(st: State, pin: nat)
    requires Opened(st, [pin], Pulses([128], PeriodField(50)), TimerTicks(PeriodField(50)))
    requires ScheduleFor(Schedule(st, st.walking), [pin], Pulses([128], PeriodField(50)), TimerTicks(PeriodField(50)))
    ensures var n := |Schedule(st, st.walking)|;
            Elapsed(st, n) == 50195 && HighTicks(st, pin, n) == 50195
  {
    hide Opened, ScheduleFor, Elapsed, HighTicks, TimerTicks, Pulses;
    FiftyHertzTimes();
    LongestOfOne(50195, 34464);
    PeriodIsExact(st, [pin], [50195], 34464, 0);
  }

  lemma LongestOfOne(p: nat, period: nat)
    ensures Longest([p], period) == if p > period then p else period
  {
    assert [p][1..] == [];
  }

  lemma FiftyHertzTimes()
    ensures TimerTicks(PeriodField(50)) == 34464 && Pulses([128], PeriodField(50)) == [50195]
  {
    hide Ticks;
    TicksAreFivePerMicrosecond(20000);
    TicksAreFivePerMicrosecond(10039);
    assert Pulses([128], 20000)[0] == TimerTicks(20000 * 128 / PWM_DEPTH) == TimerTicks(10039);
  }
}
