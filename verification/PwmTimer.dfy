// pwm_start and the timer interrupt of firmware/user/pwm.c:61-164 and 256-285, for any
// number of channels and any 16-bit period.
module PwmTimer {
  import opened PwmSchedule

  // ------------------------------------------------------------------ what a schedule means

  ghost function PinsAt(pins: seq<nat>, pulses: seq<nat>, t: nat): set<nat>
    requires |pins| == |pulses|
  {
    set i | 0 <= i < |pins| && pulses[i] == t :: pins[i]
  }

  ghost predicate Distinct(pins: seq<nat>) {
    forall i, j :: 0 <= i < j < |pins| ==> pins[i] != pins[j]
  }

  ghost function AllPins(pins: seq<nat>): set<nat> {
    set i | 0 <= i < |pins| :: pins[i]
  }

  // The last time of a schedule: the period's, or that of a pulse that 16 bits leave above it.
  function Longest(pulses: seq<nat>, period: nat): (t: nat)
    ensures period <= t && (forall p :: p in pulses ==> p <= t)
    ensures t == period || t in pulses
  {
    if pulses == [] then period
    else
      var rest := Longest(pulses[1..], period);
      assert forall p :: p in pulses <==> p == pulses[0] || p in pulses[1..];
      if pulses[0] > rest then pulses[0] else rest
  }

  // Positive timer loads that add up to the longest time, with every pulse and the period ending
  // at one of them.
  ghost predicate LoadsFor(s: seq<Entry>, pulses: seq<nat>, period: nat) {
    && Prefix(s, |s|) == Longest(pulses, period)
    && (forall k :: 0 <= k < |s| ==> s[k].hTime > 0)
    && (forall i :: 0 <= i < |pulses| ==> EndsAtEntry(s, pulses[i]))
    && EndsAtEntry(s, period)
  }

  // The pins raised at time t.
  ghost function RaisedAt(pins: seq<nat>, period: nat, t: nat): set<nat> {
    if t == period then AllPins(pins) else {}
  }

  // Entry k raises every pin if the period ends with it and lowers the pins whose pulse does.
  // The last entry lowers the pins of zero duty instead.
  ghost predicate MasksFor(s: seq<Entry>, pins: seq<nat>, pulses: seq<nat>, period: nat)
    requires |s| > 0 && |pins| == |pulses|
  {
    var last := |s| - 1;
    && s[last].gpioSet == RaisedAt(pins, period, Longest(pulses, period)) - PinsAt(pins, pulses, 0)
    && s[last].gpioClear == PinsAt(pins, pulses, 0)
    && forall k :: 0 <= k < last ==>
         && s[k].gpioSet == RaisedAt(pins, period, EntryEnd(s, k))
         && s[k].gpioClear == PinsAt(pins, pulses, EntryEnd(s, k))
  }

  // The schedule that pwm_start builds for these 16-bit times.
  ghost predicate ScheduleFor(s: seq<Entry>, pins: seq<nat>, pulses: seq<nat>, period: nat)
    requires |pins| == |pulses|
  {
    |s| > 0 && LoadsFor(s, pulses, period) && MasksFor(s, pins, pulses, period)
  }

  // A pulse ends at the start of the period or together with some entry.
  ghost predicate EndsAtEntry(s: seq<Entry>, t: nat) {
    exists k :: 0 <= k <= |s| && Prefix(s, k) == t
  }

  // ------------------------------------------------------------------ building one

  // Step 1.
  ghost function Channels(pins: seq<nat>, pulses: seq<nat>): seq<Entry>
    requires |pins| == |pulses|
  {
    seq(|pins|, i requires 0 <= i < |pins| => Entry(pulses[i], {}, {pins[i]}))
  }

  ghost function Initial(pins: seq<nat>, pulses: seq<nat>, period: nat): seq<Entry>
    requires |pins| == |pulses|
  {
    Channels(pins, pulses) + [Entry(period, AllPins(pins), {})]
  }

  lemma {:induction false} ChannelsAt(pins: seq<nat>, pulses: seq<nat>, t: nat)
    requires |pins| == |pulses|
    ensures At(Channels(pins, pulses), t) == Entry(t, {}, PinsAt(pins, pulses, t))
  {
    if pins != [] {
      var n := |pins| - 1;
      var c := Channels(pins, pulses);
      assert c == Channels(pins[..n], pulses[..n]) + [c[n]];
      AtOfConcat(Channels(pins[..n], pulses[..n]), [c[n]], t);
      ChannelsAt(pins[..n], pulses[..n], t);
      assert PinsAt(pins, pulses, t) == PinsAt(pins[..n], pulses[..n], t) + if pulses[n] == t then {pins[n]} else {};
    }
  }

  lemma InitialAt(pins: seq<nat>, pulses: seq<nat>, period: nat, t: nat)
    requires |pins| == |pulses|
    ensures At(Initial(pins, pulses, period), t)
         == Entry(t, RaisedAt(pins, period, t), PinsAt(pins, pulses, t))
  {
    ChannelsAt(pins, pulses, t);
    AtOfConcat(Channels(pins, pulses), [Entry(period, AllPins(pins), {})], t);
  }

  // After steps 2 and 3: one entry for each pulse end and one for the period end, in order.
  ghost predicate Combined(s: seq<Entry>, pins: seq<nat>, pulses: seq<nat>, period: nat)
    requires |pins| == |pulses|
  {
    && |s| > 0 && StrictFrom(s, 0) && s[|s| - 1].hTime == Longest(pulses, period)
    && (forall k :: 0 <= k < |s| ==> s[k].gpioClear == PinsAt(pins, pulses, s[k].hTime))
    && (forall k :: 0 <= k < |s| ==> s[k].gpioSet == RaisedAt(pins, period, s[k].hTime))
    && (forall i :: 0 <= i < |pulses| ==> Occurs(s, pulses[i])) && Occurs(s, period)
  }

  lemma InitialOccurs(pins: seq<nat>, pulses: seq<nat>, period: nat, t: nat)
    requires |pins| == |pulses|
    ensures Occurs(Initial(pins, pulses, period), t) <==> t == period || t in pulses
  {
    var s := Initial(pins, pulses, period);
    if t == period {
      assert s[|pins|].hTime == t;
    } else if t in pulses {
      var i :| 0 <= i < |pulses| && pulses[i] == t;
      assert s[i].hTime == t;
    }
  }

  lemma CombinedFromInitial(s: seq<Entry>, pins: seq<nat>, pulses: seq<nat>, period: nat)
    requires |pins| == |pulses|
    requires |s| > 0 && StrictFrom(s, 0) && SameEvents(s, Initial(pins, pulses, period))
    ensures Combined(s, pins, pulses, period)
  {
    hide SameEvents, Initial, Occurs;
    forall t ensures Occurs(s, t) <==> t == period || t in pulses {
      EventsOccur(s, Initial(pins, pulses, period), t);
      InitialOccurs(pins, pulses, period, t);
    }
    LastTime(s, pulses, period);
    forall k | 0 <= k < |s|
      ensures s[k] == Entry(s[k].hTime, RaisedAt(pins, period, s[k].hTime), PinsAt(pins, pulses, s[k].hTime))
    {
      AtStrict(s, k);
      EventsOccur(s, Initial(pins, pulses, period), s[k].hTime);
      InitialAt(pins, pulses, period, s[k].hTime);
    }
  }

  lemma EventsOccur(a: seq<Entry>, b: seq<Entry>, t: nat)
    requires SameEvents(a, b)
    ensures At(a, t) == At(b, t) && (Occurs(a, t) <==> Occurs(b, t))
  {
  }

  lemma LastTime(s: seq<Entry>, pulses: seq<nat>, period: nat)
    requires |s| > 0 && StrictFrom(s, 0) && forall t :: Occurs(s, t) <==> t == period || t in pulses
    ensures s[|s| - 1].hTime == Longest(pulses, period)
  {
    assert Occurs(s, Longest(pulses, period));
    assert Occurs(s, s[|s| - 1].hTime);
  }

  // Steps 5 and 6 on the differences d.
  ghost function Finish(d: seq<Entry>): seq<Entry>
    requires |d| > 0
  {
    var last := |d| - 1;
    var e := d[last := d[last].(gpioClear := {})];
    if e[0].hTime != 0 then e
    else e[last := e[last].(gpioSet := e[last].gpioSet - e[0].gpioClear,
                            gpioClear := e[last].gpioClear + e[0].gpioClear)][1..]
  }

  lemma {:induction false} PrefixReadsTimes(a: seq<Entry>, b: seq<Entry>, k: nat)
    requires k <= |a| && k <= |b| && forall j :: 0 <= j < k ==> a[j].hTime == b[j].hTime
    ensures Prefix(a, k) == Prefix(b, k)
  {
    if k > 0 {
      PrefixReadsTimes(a, b, k - 1);
    }
  }

  lemma {:induction false} PrefixWithoutFirst(a: seq<Entry>, k: nat)
    requires |a| > 0 && a[0].hTime == 0 && k < |a|
    ensures Prefix(a[1..], k) == Prefix(a, k + 1)
  {
    if k > 0 {
      PrefixWithoutFirst(a, k - 1);
    } else {
      assert Prefix(a, 1) == Prefix(a, 0) + a[0].hTime;
    }
  }

  lemma DifferencesArePositive(s: seq<Entry>, d: seq<Entry>)
    requires StrictFrom(s, 0) && DifferencesOf(d, s)
    ensures forall k :: 0 < k < |d| ==> d[k].hTime > 0
    ensures forall k :: 0 <= k < |d| ==> d[k].gpioSet == s[k].gpioSet && d[k].gpioClear == s[k].gpioClear
  {
    forall k | 0 < k < |d| ensures d[k].hTime > 0 {
      assert s[k - 1].hTime < s[k].hTime;
    }
    forall k | 0 <= k < |d| ensures d[k].gpioSet == s[k].gpioSet && d[k].gpioClear == s[k].gpioClear {
      if k > 0 {
        assert d[k] == s[k].(hTime := s[k].hTime - s[k - 1].hTime);
      }
    }
  }

  // f's entries end where s's do, without a first entry at time 0.
  ghost predicate EndsLike(f: seq<Entry>, s: seq<Entry>, skip: nat) {
    && skip <= 1 && |f| == |s| - skip > 0
    && (skip == 1 ==> s[0].hTime == 0)
    && (forall k :: 0 <= k < |f| ==> EntryEnd(f, k) == s[k + skip].hTime)
  }

  lemma EndsAtTime(f: seq<Entry>, s: seq<Entry>, skip: nat, t: nat)
    requires EndsLike(f, s, skip) && Occurs(s, t)
    ensures EndsAtEntry(f, t)
  {
    var k :| 0 <= k < |s| && s[k].hTime == t;
    if k < skip {
      assert Prefix(f, 0) == t;
    } else {
      assert EntryEnd(f, k - skip) == Prefix(f, k - skip + 1) == t;
    }
  }

  lemma LoadsFromTimes(f: seq<Entry>, s: seq<Entry>, pulses: seq<nat>, period: nat, skip: nat)
    requires EndsLike(f, s, skip) && s[|s| - 1].hTime == Longest(pulses, period)
    requires forall k :: 0 <= k < |f| ==> f[k].hTime > 0
    requires (forall i :: 0 <= i < |pulses| ==> Occurs(s, pulses[i])) && Occurs(s, period)
    ensures LoadsFor(f, pulses, period)
  {
    hide EndsAtEntry, Occurs, Prefix;
    assert EntryEnd(f, |f| - 1) == Longest(pulses, period);
    EndsAtTime(f, s, skip, period);
    forall i | 0 <= i < |pulses| ensures EndsAtEntry(f, pulses[i]) {
      EndsAtTime(f, s, skip, pulses[i]);
    }
  }

  // f's masks are those of s, but for the last entry's.
  lemma MasksFromTimes(f: seq<Entry>, s: seq<Entry>, pins: seq<nat>, pulses: seq<nat>, period: nat, skip: nat)
    requires |pins| == |pulses| && EndsLike(f, s, skip)
    requires forall k :: 0 <= k < |s| ==> s[k].gpioClear == PinsAt(pins, pulses, s[k].hTime)
    requires forall k :: 0 <= k < |s| ==> s[k].gpioSet == RaisedAt(pins, period, s[k].hTime)
    requires forall k :: 0 <= k < |f| - 1 ==>
               f[k].gpioSet == s[k + skip].gpioSet && f[k].gpioClear == s[k + skip].gpioClear
    requires f[|f| - 1].gpioSet == RaisedAt(pins, period, Longest(pulses, period)) - PinsAt(pins, pulses, 0)
    requires f[|f| - 1].gpioClear == PinsAt(pins, pulses, 0)
    ensures MasksFor(f, pins, pulses, period)
  {
    hide PinsAt, RaisedAt, Longest, EntryEnd;
  }

  lemma FinishNonZero(s: seq<Entry>, d: seq<Entry>, pins: seq<nat>, pulses: seq<nat>, period: nat)
    requires |pins| == |pulses| && Combined(s, pins, pulses, period) && DifferencesOf(d, s)
    requires s[0].hTime > 0
    ensures ScheduleFor(Finish(d), pins, pulses, period)
  {
    hide PinsAt, RaisedAt, Longest, Occurs, Prefix, LoadsFor, MasksFor;
    var f := Finish(d);
    DifferencesArePositive(s, d);
    forall k | 0 <= k < |f| ensures EntryEnd(f, k) == s[k].hTime {
      PrefixReadsTimes(f, d, k + 1);
      assert EntryEnd(d, k) == s[k].hTime;
    }
    LoadsFromTimes(f, s, pulses, period, 0);
    NoZeroPulse(s, pins, pulses);
    assert f[|s| - 1].gpioSet == d[|s| - 1].gpioSet;
    MasksFromTimes(f, s, pins, pulses, period, 0);
  }

  lemma NoZeroPulse(s: seq<Entry>, pins: seq<nat>, pulses: seq<nat>)
    requires |pins| == |pulses| && |s| > 0 && StrictFrom(s, 0) && s[0].hTime > 0
    requires forall i :: 0 <= i < |pulses| ==> Occurs(s, pulses[i])
    ensures PinsAt(pins, pulses, 0) == {}
  {
    forall i | 0 <= i < |pulses| ensures pulses[i] > 0 {
      assert Occurs(s, pulses[i]);
    }
  }

  // Dropping the first entry of d, when it is at time 0, shifts the entry ends by one.
  lemma EndsWithoutFirst(f: seq<Entry>, d: seq<Entry>, s: seq<Entry>)
    requires DifferencesOf(d, s) && s[0].hTime == 0 && |s| > 1 && |f| == |s| - 1
    requires forall k :: 0 <= k < |f| ==> f[k].hTime == d[k + 1].hTime
    ensures EndsLike(f, s, 1)
  {
    forall k | 0 <= k < |f| ensures EntryEnd(f, k) == s[k + 1].hTime {
      PrefixWithoutFirst(d, k + 1);
      PrefixReadsTimes(f, d[1..], k + 1);
      assert EntryEnd(d, k + 1) == s[k + 1].hTime;
    }
  }

  lemma FinishZero(s: seq<Entry>, d: seq<Entry>, pins: seq<nat>, pulses: seq<nat>, period: nat)
    requires |pins| == |pulses| && Combined(s, pins, pulses, period) && DifferencesOf(d, s)
    requires s[0].hTime == 0 < period
    ensures ScheduleFor(Finish(d), pins, pulses, period)
  {
    hide PinsAt, Longest, Occurs, Prefix, LoadsFor, MasksFor;
    var f, last := Finish(d), |s| - 1;
    DifferencesArePositive(s, d);
    assert forall k :: 0 <= k < last - 1 ==> f[k] == d[k + 1];
    assert f[last - 1].hTime == d[last].hTime;
    EndsWithoutFirst(f, d, s);
    LoadsFromTimes(f, s, pulses, period, 1);
    assert f[last - 1].gpioSet == d[last].gpioSet - s[0].gpioClear;
    MasksFromTimes(f, s, pins, pulses, period, 1);
  }

  // Steps 1 to 6 in one line: combined, differenced and finished.
  lemma Built(s: seq<Entry>, d: seq<Entry>, pins: seq<nat>, pulses: seq<nat>, period: nat)
    requires |pins| == |pulses| && 0 < period
    requires |s| > 0 && StrictFrom(s, 0) && SameEvents(s, Initial(pins, pulses, period)) && DifferencesOf(d, s)
    ensures d[0].hTime == 0 ==> |d| > 1
    ensures ScheduleFor(Finish(d), pins, pulses, period)
  {
    hide ScheduleFor, Finish, SameEvents, Initial, Occurs;
    CombinedFromInitial(s, pins, pulses, period);
    if s[0].hTime == 0 {
      FinishZero(s, d, pins, pulses, period);
    } else {
      FinishNonZero(s, d, pins, pulses, period);
    }
  }

  // What the 16-bit timer fields hold of a time in microseconds.
  function TimerTicks(us: nat): nat {
    Ticks(us) % 0x10000
  }

  lemma TimerTicksArePositive(us: nat)
    requires 0 < us < 0x10000
    ensures TimerTicks(us) > 0
  {
    TicksAreFivePerMicrosecond(us);
  }

  // The times of the channels.
  ghost function Pulses(duty: seq<nat>, period: nat): (p: seq<nat>)
    ensures |p| == |duty|
  {
    seq(|duty|, i requires 0 <= i < |duty| => TimerTicks(period * duty[i] / PWM_DEPTH))
  }

  ghost predicate Duties(duty: seq<nat>) {
    forall i :: 0 <= i < |duty| ==> duty[i] <= PWM_DEPTH
  }

  // The 16-bit times of no duty, of full duty, and, as long as the period's ticks do not wrap, of
  // every duty.
  lemma PulseWithinPeriod(duty: seq<nat>, period: nat, i: nat)
    requires i < |duty| && duty[i] <= PWM_DEPTH
    ensures duty[i] == 0 ==> Pulses(duty, period)[i] == 0
    ensures duty[i] == PWM_DEPTH ==> Pulses(duty, period)[i] == TimerTicks(period)
    ensures Ticks(period) < 0x10000 ==> Pulses(duty, period)[i] <= TimerTicks(period)
  {
    hide Ticks;
    var us := period * duty[i] / PWM_DEPTH;
    Scale(period, duty[i]);
    TicksAreFivePerMicrosecond(us);
    TicksAreFivePerMicrosecond(period);
  }

  // Step 1: one entry for each channel and one for the period, in 16-bit timer fields.
  method InitEntries(single: array<Entry>, outIoNum: seq<nat>, duty: seq<nat>, period: nat, gpio: set<nat>)
    requires single.Length == |duty| + 1 && |duty| == |outIoNum| && gpio == AllPins(outIoNum)
    modifies single
    ensures single[..] == Initial(outIoNum, Pulses(duty, period), TimerTicks(period))
  {
    hide Ticks;
    ghost var start := Initial(outIoNum, Pulses(duty, period), TimerTicks(period));
    var i := 0;
    while i < |duty|
      invariant 0 <= i <= |duty|
      invariant forall k :: 0 <= k < i ==> single[k] == start[k]
    {
      var us := period * duty[i] / PWM_DEPTH;
      single[i] := Entry(Ticks(us) % 0x10000, {}, {outIoNum[i]});
      i := i + 1;
    }
    single[|duty|] := Entry(Ticks(period) % 0x10000, gpio, {});
  }

  // Steps 5 and 6: the last entry lowers nothing, except the pins of a first entry at time
  // 0, which is folded into it.
  method FinishEntries(single: array<Entry>, count: nat) returns (n: nat)
    requires 0 < count <= single.Length
    requires single[0].hTime == 0 ==> count > 1
    modifies single
    ensures 0 < n <= count && single[..n] == Finish(old(single[..count]))
  {
    single[count - 1] := single[count - 1].(gpioClear := {});
    n := count;
    if single[0].hTime == 0 {
      single[count - 1] := single[count - 1].(gpioSet := single[count - 1].gpioSet - single[0].gpioClear);
      single[count - 1] := single[count - 1].(gpioClear := single[count - 1].gpioClear + single[0].gpioClear);
      ShiftDown(single, 1, count);
      n := count - 1;
    }
  }

  // Steps 1 to 6 of pwm_start.
  method BuildSchedule(single: array<Entry>, outIoNum: seq<nat>, duty: seq<nat>, period: nat, gpio: set<nat>)
    returns (count: nat)
    requires single.Length == |duty| + 1 && |duty| == |outIoNum|
    requires gpio == AllPins(outIoNum) && 0 < period < 0x10000
    modifies single
    ensures 0 < count <= single.Length
    ensures ScheduleFor(single[..count], outIoNum, Pulses(duty, period), TimerTicks(period))
  {
    hide ScheduleFor, SameEvents, Initial, TimerTicks, Finish, StrictFrom;
    ghost var pulses, ticks := Pulses(duty, period), TimerTicks(period);
    InitEntries(single, outIoNum, duty, period, gpio);
    ghost var start := single[..];
    count := SortAndCombine(single);
    ghost var s := single[..count];
    Differences(single, count);
    ghost var d := single[..count];
    TimerTicksArePositive(period);
    Built(s, d, outIoNum, pulses, ticks);
    count := FinishEntries(single, count);
  }

  // ------------------------------------------------------------------ the timer

  // The two schedule buffers, which of them pwm_start filled last (toggle), which the interrupt
  // is walking, the entry it has reached, whether the timer is stopped, its load and the
  // pins that are high.
  datatype State = State(schedule0: seq<Entry>, schedule1: seq<Entry>, toggle: bool, walking: bool, current: nat,
                         down: bool, load: nat, high: set<nat>)

  function Schedule(st: State, b: bool): seq<Entry> {
    if b then st.schedule1 else st.schedule0
  }

  function Output(high: set<nat>, e: Entry): set<nat> {
    (high + e.gpioSet) - e.gpioClear
  }

  // pwm_start, given the schedule it builds in the buffer not last filled.
  function AfterStart(st: State, s: seq<Entry>): State
    requires |s| > 0
  {
    var b := !st.toggle;
    var filled := if b then st.(schedule1 := s, toggle := b) else st.(schedule0 := s, toggle := b);
    if !st.down then filled
    else
      filled.(walking := b, high := Output(st.high, s[0]), down := |s| == 1,
              load := if |s| == 1 then st.load else s[0].hTime)
  }

  predicate Walkable(st: State) {
    && st.current < |Schedule(st, st.walking)|
    && |Schedule(st, st.toggle)| > 0
  }

  predicate AtPeriodEnd(st: State) {
    st.current == |Schedule(st, st.walking)| - 1
  }

  // pwm_tim1_intr_handler
  function AfterInterrupt(st: State): State
    requires Walkable(st)
  {
    if AtPeriodEnd(st) then
      var s := Schedule(st, st.toggle);
      st.(walking := st.toggle, high := Output(st.high, s[|s| - 1]), current := 0,
          down := if |s| == 1 then true else st.down,
          load := if |s| == 1 then st.load else s[0].hTime)
    else
      var s := Schedule(st, st.walking);
      st.(high := Output(st.high, s[st.current]), current := st.current + 1,
          load := s[st.current + 1].hTime)
  }

  // ------------------------------------------------------------------ one period

  // The state k interrupts later, with no pwm_start in between.
  ghost function Later(st: State, k: nat): State
    requires Walkable(st) && st.current + k < |Schedule(st, st.walking)|
    ensures Later(st, k).schedule0 == st.schedule0 && Later(st, k).schedule1 == st.schedule1
    ensures Later(st, k).walking == st.walking && Later(st, k).toggle == st.toggle
    ensures Later(st, k).current == st.current + k && Walkable(Later(st, k))
  {
    if k == 0 then st else AfterInterrupt(Later(st, k - 1))
  }

  // ------------------------------------------------------------------ the double buffer

  datatype Event = Start(schedule: seq<Entry>) | Interrupt

  // `pending`: pwm_start has been called since the period now running began.
  ghost predicate Buffered(st: State, pending: bool) {
    && Walkable(st)
    && st.walking == (if pending then !st.toggle else st.toggle)
    && (st.down ==> st.current == 0 && !pending)
  }

  function After(st: State, e: Event): State {
    match e
    case Start(s) => if |s| > 0 then AfterStart(st, s) else st
    case Interrupt => if Walkable(st) && !st.down then AfterInterrupt(st) else st
  }

  function PendingAfter(st: State, pending: bool, e: Event): bool {
    match e
    case Start(s) => (|s| > 0 && !st.down) || pending
    case Interrupt => pending && !AtPeriodEnd(st)
  }

  // At most one pwm_start between two period ends while the timer runs.
  ghost predicate OneStartPerPeriod(st: State, pending: bool, events: seq<Event>)
    decreases |events|
  {
    events == [] ||
    (&& (events[0].Start? ==> st.down || !pending)
     && OneStartPerPeriod(After(st, events[0]), PendingAfter(st, pending, events[0]), events[1..]))
  }

  ghost predicate SwitchPoint(st: State, e: Event) {
    if e.Start? then st.down else AtPeriodEnd(st)
  }

  // The schedule being walked changes only where a new one takes over as a whole: at a period
  // end, or when pwm_start finds the timer stopped.
  ghost predicate WalkedIsStable(st: State, events: seq<Event>)
    decreases |events|
  {
    events == [] ||
    (&& (SwitchPoint(st, events[0]) ||
         (After(st, events[0]).walking == st.walking &&
          Schedule(After(st, events[0]), st.walking) == Schedule(st, st.walking)))
     && WalkedIsStable(After(st, events[0]), events[1..]))
  }

  // The double-buffer theorem, over every run that keeps to one pwm_start per period.
  lemma {:induction false} WalkedBufferIsNeverWritten(st: State, pending: bool, events: seq<Event>)
    requires Buffered(st, pending) && OneStartPerPeriod(st, pending, events)
    ensures WalkedIsStable(st, events)
    decreases |events|
  {
    if events != [] {
      WalkedBufferIsNeverWritten(After(st, events[0]), PendingAfter(st, pending, events[0]), events[1..]);
    }
  }

  // pwm_start on a stopped timer, and so the first one, begins such a run.  Loading starts the
  // timer, so one that stays at rest is not loaded.
  lemma StartWhenStopped(st: State, s: seq<Entry>)
    requires st.down && st.current == 0 && |s| > 0
    ensures Buffered(AfterStart(st, s), false)
    ensures AfterStart(st, s).down ==> AfterStart(st, s).load == st.load
  {
  }

  // The condition is exact: with the timer running, pwm_start leaves the schedule being walked
  // alone if and only if it is the first since the period began.
  lemma SecondStartOverwrites(st: State, pending: bool, s: seq<Entry>)
    requires Buffered(st, pending) && !st.down && |s| > 0 && s != Schedule(st, st.walking)
    ensures Schedule(AfterStart(st, s), st.walking) == Schedule(st, st.walking) <==> !pending
  {
  }

  // A pwm_start inside a period is not seen before its end: it commutes with the interrupts.
  lemma StartWaitsForPeriodEnd(st: State, s: seq<Entry>)
    requires Buffered(st, false) && !st.down && |s| > 0 && !AtPeriodEnd(st)
    ensures Walkable(AfterStart(st, s))
    ensures AfterInterrupt(AfterStart(st, s)) == AfterStart(AfterInterrupt(st), s)
  {
  }

  // ------------------------------------------------------------------ the driver

  class Pwm {
    const channels: nat                 // PWM_CHANNEL
    const outIoNum: seq<nat>            // pwm_out_io_num
    const singleToggle0: array<Entry>   // pwm_single_toggle[0]
    const singleToggle1: array<Entry>   // pwm_single_toggle[1]
    var channelToggle0: nat             // pwm_channel_toggle[0]
    var channelToggle1: nat
    const duty: array<nat>
    var period: nat
    var freq: nat
    var toggle: bool                    // pwm_toggle == 1
    var timerDown: bool
    var currentChannel: nat
    var walking: bool                   // which buffer pwm_single and pwm_channel point into
    var gpio: set<nat>                  // pwm_gpio
    var load: nat                       // FRC1_LOAD
    var high: set<nat>                  // output pins that are high

    ghost predicate Valid()
      reads this, duty
    {
      && |outIoNum| == channels == duty.Length && Distinct(outIoNum)
      && singleToggle0.Length == singleToggle1.Length == channels + 1
      && singleToggle0 != singleToggle1
      && channelToggle0 <= channels + 1 && channelToggle1 <= channels + 1
      && gpio == AllPins(outIoNum)
      && Duties(duty[..]) && period < 0x10000
    }

    ghost function Buffer(b: bool): seq<Entry>
      requires Valid()
      reads this, duty, singleToggle0, singleToggle1
    {
      if b then singleToggle1[..channelToggle1] else singleToggle0[..channelToggle0]
    }

    ghost function View(): State
      requires Valid()
      reads this, duty, singleToggle0, singleToggle1
    {
      State(Buffer(false), Buffer(true), toggle, walking, currentChannel, timerDown, load, high)
    }

    constructor (outIoNum: seq<nat>)
      requires Distinct(outIoNum)
      ensures Valid() && this.outIoNum == outIoNum && timerDown && currentChannel == 0
    {
      channels, this.outIoNum := |outIoNum|, outIoNum;
      singleToggle0 := new Entry[|outIoNum| + 1];
      singleToggle1 := new Entry[|outIoNum| + 1];
      channelToggle0, channelToggle1 := 0, 0;
      duty := new nat[|outIoNum|](_ => 0);
      period, freq, toggle, timerDown, currentChannel := 0, 0, true, true, 0;
      walking, load, high := false, 0, {};
      gpio := set i | 0 <= i < |outIoNum| :: outIoNum[i];
    }

    method SetFreq(f: nat)
      requires Valid()
      modifies this`freq, this`period
      ensures Valid()
      ensures 1 <= freq <= 500 && (1 <= f <= 500 ==> freq == f) && (f > 500 ==> freq == 500) && (f == 0 ==> freq == 1)
      ensures period == 1000000 / freq % 0x10000 && period > 0
    {
      freq := if f > 500 then 500 else if f < 1 then 1 else f;
      period := 1000000 / freq % 0x10000;
      PeriodIsPositive(freq);
    }

    method SetDuty(d: nat, channel: nat)
      requires Valid() && channel < channels
      modifies duty
      ensures Valid()
      ensures duty[..] == old(duty[..])[channel := if d > PWM_DEPTH then PWM_DEPTH else d]
    {
      if d < 1 {
        duty[channel] := 0;
      } else if d >= PWM_DEPTH {
        duty[channel] := PWM_DEPTH;
      } else {
        duty[channel] := d;
      }
    }

    // Steps 1 to 6 of pwm_start, on the buffer that was not filled last.
    method FillBuffer() returns (local: bool)
      requires Valid() && 0 < period
      modifies `channelToggle0, `channelToggle1, singleToggle0, singleToggle1
      ensures Valid() && local == !toggle
      ensures Buffer(!local) == old(Buffer(toggle))
      ensures ScheduleFor(Buffer(local), outIoNum, Pulses(duty[..], period), TimerTicks(period))
    {
      hide ScheduleFor, Pulses, TimerTicks;
      local := !toggle;
      if local {
        channelToggle1 := BuildSchedule(singleToggle1, outIoNum, duty[..], period, gpio);
      } else {
        channelToggle0 := BuildSchedule(singleToggle0, outIoNum, duty[..], period, gpio);
      }
    }

    // pwm_start
    method PwmStart()
      requires Valid() && 0 < period
      modifies `channelToggle0, `channelToggle1, `toggle, `timerDown, `walking, `load, `high
      modifies singleToggle0, singleToggle1
      ensures Valid()
      ensures ScheduleFor(Buffer(!old(toggle)), outIoNum, Pulses(duty[..], period), TimerTicks(period))
      ensures View() == AfterStart(old(View()), Buffer(!old(toggle)))
    {
      hide Pulses, TimerTicks, LoadsFor, MasksFor;
      var local := FillBuffer();
      var single := if local then singleToggle1 else singleToggle0;
      var channel := if local then channelToggle1 else channelToggle0;
      if timerDown {
        walking, high := local, Output(high, single[0]);
        if channel != 1 {
          timerDown, load := false, single[0].hTime;
        }
      }
      toggle := local;
    }

    // At the end of a period.
    method NextPeriod()
      requires Valid() && Walkable(View()) && AtPeriodEnd(View())
      modifies `timerDown, `currentChannel, `walking, `load, `high
      ensures Valid() && View() == AfterInterrupt(old(View()))
    {
      hide Output, Duties, Distinct, AllPins;
      var single := if toggle then singleToggle1 else singleToggle0;
      var channel := if toggle then channelToggle1 else channelToggle0;
      walking, high, currentChannel := toggle, Output(high, single[channel - 1]), 0;
      if channel != 1 {
        load := single[0].hTime;
      } else {
        timerDown := true;
      }
    }

    // Inside a period.
    method NextEntry()
      requires Valid() && Walkable(View()) && !AtPeriodEnd(View())
      modifies `currentChannel, `load, `high
      ensures Valid() && View() == AfterInterrupt(old(View()))
    {
      hide Output, Duties, Distinct, AllPins;
      var single := if walking then singleToggle1 else singleToggle0;
      high, load, currentChannel :=
        Output(high, single[currentChannel]), single[currentChannel + 1].hTime, currentChannel + 1;
    }

    // pwm_tim1_intr_handler
    method Interrupted()
      requires Valid() && Walkable(View())
      modifies `timerDown, `currentChannel, `walking, `load, `high
      ensures Valid() && View() == AfterInterrupt(old(View()))
    {
      hide AfterInterrupt;
      var channel := if walking then channelToggle1 else channelToggle0;
      if currentChannel == channel - 1 {
        NextPeriod();
      } else {
        NextEntry();
      }
    }
  }

  lemma AtLeastTimes(q: nat, a: nat, b: nat)
    requires a >= b
    ensures q * a >= q * b
  {
  }

  lemma PeriodIsPositive(f: nat)
    requires 1 <= f <= 500
    ensures 1000000 / f % 0x10000 > 0
  {
    if f < 16 {
      LowFrequencies(f);
    } else {
      var q := 1000000 / f;
      assert q * f <= 1000000 < q * f + f;
      AtLeastTimes(q, f, 16);
      AtLeastTimes(q, 500, f);
    }
  }

  lemma LowFrequencies(f: nat)
    requires 1 <= f < 16
    ensures 1000000 / f % 0x10000 > 0
  {
    assert f == 1 || f == 2 || f == 3 || f == 4 || f == 5 || f == 6 || f == 7 || f == 8
        || f == 9 || f == 10 || f == 11 || f == 12 || f == 13 || f == 14 || f == 15;
  }
}
