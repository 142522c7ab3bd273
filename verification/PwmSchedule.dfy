// How pwm_start of firmware/user/pwm.c turns pulse widths into a schedule of timer loads
// and pin masks: sort, combine equal times, take differences, fold away zero duties.
//
// Masks are sets of pin numbers.
module PwmSchedule {

  datatype Entry = Entry(hTime: nat, gpioSet: set<nat>, gpioClear: set<nat>)

  const PWM_DEPTH := 255
  const APB_CLK_FREQ := 80_000_000

  // US_TO_RTC_TIMER_TICKS
  function Ticks(t: nat): nat {
    if t == 0 then 0
    else if t > 0x35A then (t / 4) * ((APB_CLK_FREQ / 16) / 250000) + (t % 4) * ((APB_CLK_FREQ / 16) / 1000000)
    else (t * (APB_CLK_FREQ / 16)) / 1000000
  }

  // Both branches of the conversion are five ticks per microsecond.
  lemma TicksAreFivePerMicrosecond(t: nat)
    ensures Ticks(t) == 5 * t
  {
  }

  // A duty is a part of the period: nothing, all of it, or something in between.
  lemma Scale(period: nat, duty: nat)
    requires duty <= PWM_DEPTH
    ensures period * duty / PWM_DEPTH <= period
    ensures period * 0 / PWM_DEPTH == 0 && period * PWM_DEPTH / PWM_DEPTH == period
  {
    var x := period * duty;
    assert x <= period * PWM_DEPTH by {
      assert period * (PWM_DEPTH - duty) >= 0;
    }
    assert x / PWM_DEPTH <= period;
  }

  // ------------------------------------------------------------------ sets of entries

  function Merge(e: Entry, f: Entry): Entry {
    Entry(e.hTime, e.gpioSet + f.gpioSet, e.gpioClear + f.gpioClear)
  }

  // Everything that is to happen at time t.
  ghost function At(s: seq<Entry>, t: nat): (r: Entry)
    ensures r.hTime == t
  {
    if s == [] then Entry(t, {}, {})
    else if s[0].hTime == t then Merge(Entry(t, s[0].gpioSet, s[0].gpioClear), At(s[1..], t))
    else At(s[1..], t)
  }

  lemma {:induction false} AtOfConcat(a: seq<Entry>, b: seq<Entry>, t: nat)
    ensures At(a + b, t) == Merge(At(a, t), At(b, t))
  {
    if a == [] {
      assert a + b == b;
    } else {
      assert (a + b)[1..] == a[1..] + b;
      AtOfConcat(a[1..], b, t);
    }
  }

  lemma {:induction false} AtMembers(s: seq<Entry>, t: nat, p: nat)
    ensures p in At(s, t).gpioSet <==> exists e :: e in s && e.hTime == t && p in e.gpioSet
    ensures p in At(s, t).gpioClear <==> exists e :: e in s && e.hTime == t && p in e.gpioClear
  {
    if s != [] {
      AtMembers(s[1..], t, p);
      assert forall e :: e in s <==> e == s[0] || e in s[1..];
    }
  }

  // The order of the entries does not matter.
  lemma AtOfPermutation(a: seq<Entry>, b: seq<Entry>, t: nat)
    requires multiset(a) == multiset(b)
    ensures At(a, t) == At(b, t)
  {
    assert forall e :: e in a <==> e in multiset(a);
    assert forall e :: e in b <==> e in multiset(b);
    forall p: nat
      ensures p in At(a, t).gpioSet <==> p in At(b, t).gpioSet
      ensures p in At(a, t).gpioClear <==> p in At(b, t).gpioClear
    {
      AtMembers(a, t, p);
      AtMembers(b, t, p);
    }
  }

  ghost predicate SortedTo(s: seq<Entry>, n: nat) {
    forall j, k :: 0 <= j < k < n && k < |s| ==> s[j].hTime <= s[k].hTime
  }

  ghost predicate Sorted(s: seq<Entry>) {
    SortedTo(s, |s|)
  }

  ghost predicate StrictFrom(s: seq<Entry>, i: nat) {
    forall j, k :: i <= j < k < |s| ==> s[j].hTime < s[k].hTime
  }

  // With all times different, what happens at a time is one entry.
  lemma AtStrict(s: seq<Entry>, k: nat)
    requires StrictFrom(s, 0) && k < |s|
    ensures At(s, s[k].hTime) == s[k]
  {
    forall e | e in s[..k] ensures e.hTime != s[k].hTime {
      var j :| 0 <= j < k && s[j] == e;
    }
    forall e | e in s[k + 1..] ensures e.hTime != s[k].hTime {
      var j :| k < j < |s| && s[j] == e;
    }
    assert s == s[..k] + [s[k]] + s[k + 1..];
    AtBetween(s[..k], s[k], s[k + 1..]);
  }

  lemma AtBetween(a: seq<Entry>, e: Entry, b: seq<Entry>)
    requires forall f :: f in a ==> f.hTime != e.hTime
    requires forall f :: f in b ==> f.hTime != e.hTime
    ensures At(a + [e] + b, e.hTime) == e
  {
    AtOfConcat(a + [e], b, e.hTime);
    AtOfConcat(a, [e], e.hTime);
    AtNowhere(a, e.hTime);
    AtNowhere(b, e.hTime);
    assert At([e], e.hTime) == e;
  }

  lemma {:induction false} AtNowhere(s: seq<Entry>, t: nat)
    requires forall e :: e in s ==> e.hTime != t
    ensures At(s, t) == Entry(t, {}, {})
  {
    if s != [] {
      AtNowhere(s[1..], t);
    }
  }

  // ------------------------------------------------------------------ step 2: sort

  // pwm_insert_sort
  method InsertSort(pwm: array<Entry>, n: nat)
    requires n == pwm.Length
    modifies pwm
    ensures Sorted(pwm[..])
    ensures multiset(pwm[..]) == multiset(old(pwm[..]))
  {
    var i := 1;
    while i < n
      invariant n > 0 ==> 1 <= i <= n
      invariant SortedTo(pwm[..], i)
      invariant multiset(pwm[..]) == multiset(old(pwm[..]))
    {
      if pwm[i].hTime < pwm[i - 1].hTime {
        InsertOne(pwm, i);
      }
      i := i + 1;
    }
  }

  lemma MoveKeepsMultiset(a: seq<Entry>, b: seq<Entry>, x: Entry, c: seq<Entry>)
    ensures multiset(a + [x] + b + c) == multiset(a + b + [x] + c)
  {
  }

  // now is was with entry i taken out and put back in front of entry j.
  ghost predicate Moved(was: seq<Entry>, now: seq<Entry>, i: nat, j: nat) {
    && |now| == |was| && j <= i < |was|
    && (forall k :: 0 <= k < j ==> now[k] == was[k])
    && now[j] == was[i]
    && (forall k :: j < k <= i ==> now[k] == was[k - 1])
    && (forall k :: i < k < |was| ==> now[k] == was[k])
  }

  lemma MovedIsPermutation(was: seq<Entry>, now: seq<Entry>, i: nat, j: nat)
    requires Moved(was, now, i, j)
    ensures multiset(now) == multiset(was)
  {
    var a, b, c := was[..j], was[j..i], was[i + 1..];
    assert was == a + b + [was[i]] + c;
    assert now == a + [was[i]] + b + c;
    MoveKeepsMultiset(a, b, was[i], c);
  }

  lemma MovedIsSorted(was: seq<Entry>, now: seq<Entry>, i: nat, j: nat)
    requires Moved(was, now, i, j) && SortedTo(was, i)
    requires j > 0 ==> was[j - 1].hTime <= was[i].hTime
    requires forall k :: j <= k < i ==> was[i].hTime < was[k].hTime
    ensures SortedTo(now, i + 1)
  {
  }

  // Entries j + 1..i - 1, all later than tmp, have been copied up by one place.
  ghost predicate RoomMade(was: seq<Entry>, now: seq<Entry>, i: nat, j: int, tmp: Entry) {
    && |now| == |was| && -1 <= j < i < |was|
    && (forall k :: 0 <= k <= j || i < k < |was| ==> now[k] == was[k])
    && (forall k :: j + 1 < k <= i ==> now[k] == was[k - 1])
    && (forall k :: j < k < i ==> tmp.hTime < was[k].hTime)
    && (j >= 0 ==> was[j].hTime <= tmp.hTime)
  }

  lemma Inserted(was: seq<Entry>, room: seq<Entry>, now: seq<Entry>, i: nat, j: int)
    requires 0 < i < |was| && SortedTo(was, i)
    requires RoomMade(was[i := was[i - 1]], room, i, j, was[i])
    requires now == room[j + 1 := was[i]]
    ensures SortedTo(now, i + 1) && multiset(now) == multiset(was)
  {
    var copied := was[i := was[i - 1]];
    assert forall k :: 0 <= k < i ==> copied[k] == was[k];
    forall k | j < k < i ensures was[i].hTime < was[k].hTime {
      assert was[i].hTime < copied[k].hTime;
    }
    MovedIsSorted(was, now, i, j + 1);
    MovedIsPermutation(was, now, i, j + 1);
  }

  // Copy entries up, from i - 1 down, until one is not later than tmp.
  method MakeRoom(pwm: array<Entry>, i: nat, tmp: Entry) returns (j: int)
    requires 0 < i < pwm.Length && pwm[i] == pwm[i - 1]
    modifies pwm
    ensures RoomMade(old(pwm[..]), pwm[..], i, j, tmp)
  {
    ghost var was := pwm[..];
    j := i - 1;
    while tmp.hTime < pwm[j].hTime
      invariant 0 <= j < i
      invariant forall k :: 0 <= k <= j + 1 ==> pwm[k] == was[k]
      invariant forall k :: i < k < pwm.Length ==> pwm[k] == was[k]
      invariant forall k :: j + 1 < k <= i ==> pwm[k] == was[k - 1]
      invariant forall k :: j < k < i ==> tmp.hTime < was[k].hTime
      decreases j
    {
      pwm[j + 1] := pwm[j];
      j := j - 1;
      if j < 0 {
        break;
      }
    }
  }

  // Move entry i down to its place among the sorted entries before it.
  method InsertOne(pwm: array<Entry>, i: nat)
    requires 0 < i < pwm.Length && SortedTo(pwm[..], i)
    requires pwm[i].hTime < pwm[i - 1].hTime
    modifies pwm
    ensures SortedTo(pwm[..], i + 1)
    ensures multiset(pwm[..]) == multiset(old(pwm[..]))
  {
    ghost var was := pwm[..];
    var tmp := pwm[i];
    pwm[i] := pwm[i - 1];
    assert pwm[..] == was[i := was[i - 1]];
    var j := MakeRoom(pwm, i, tmp);
    ghost var room := pwm[..];
    pwm[j + 1] := tmp;
    assert pwm[..] == room[j + 1 := tmp];
    Inserted(was, room, pwm[..], i, j);
  }

  // ------------------------------------------------------------------ step 3: combine

  // One merge: entries i - 1 and i share a time.
  lemma CombineKeepsAt(s: seq<Entry>, i: nat, t: nat)
    requires 0 < i < |s| && s[i].hTime == s[i - 1].hTime
    ensures At(s[..i - 1] + [Merge(s[i - 1], s[i])] + s[i + 1..], t) == At(s, t)
  {
    var a, x, y, b := s[..i - 1], s[i - 1], s[i], s[i + 1..];
    assert s == a + ([x, y] + b);
    AtOfConcat(a, [x, y] + b, t);
    AtOfConcat([x, y], b, t);
    assert [x, y][1..] == [y];
    assert a + [Merge(x, y)] + b == a + ([Merge(x, y)] + b);
    AtOfConcat(a, [Merge(x, y)] + b, t);
    AtOfConcat([Merge(x, y)], b, t);
  }

  // The same thing happens at every time, and the same times occur.
  ghost predicate SameEvents(a: seq<Entry>, b: seq<Entry>) {
    && (forall t :: At(a, t) == At(b, t))
    && (forall t :: Occurs(a, t) <==> Occurs(b, t))
  }

  ghost predicate Occurs(s: seq<Entry>, t: nat) {
    exists k :: 0 <= k < |s| && s[k].hTime == t
  }

  lemma CombineOnce(s: seq<Entry>, r: seq<Entry>, i: nat)
    requires 0 < i < |s| && s[i].hTime == s[i - 1].hTime
    requires Sorted(s) && StrictFrom(s, i)
    requires r == s[..i - 1] + [Merge(s[i - 1], s[i])] + s[i + 1..]
    ensures Sorted(r) && StrictFrom(r, i - 1) && SameEvents(r, s)
  {
    forall t ensures At(r, t) == At(s, t) {
      CombineKeepsAt(s, i, t);
    }
    assert forall k :: 0 <= k < i ==> r[k].hTime == s[k].hTime;
    assert forall k :: i <= k < |r| ==> r[k] == s[k + 1];
    forall t ensures Occurs(r, t) <==> Occurs(s, t) {
      if k :| 0 <= k < |s| && s[k].hTime == t {
        assert r[if k < i then k else k - 1].hTime == t;
      }
    }
  }

  // Shift the entries from `from` on down by one place.
  method ShiftDown(a: array<Entry>, from: nat, count: nat)
    requires 0 < from <= count <= a.Length
    modifies a
    ensures a[..count - 1] == old(a[..from - 1]) + old(a[from..count])
  {
    var j := from;
    while j < count
      invariant from <= j <= count
      invariant a[..j - 1] == old(a[..from - 1]) + old(a[from..j])
      invariant forall k :: j <= k < a.Length ==> a[k] == old(a[k])
    {
      a[j - 1] := a[j];
      j := j + 1;
    }
  }

  lemma StrictOneMore(s: seq<Entry>, i: nat)
    requires 0 < i < |s| && Sorted(s) && StrictFrom(s, i) && s[i].hTime != s[i - 1].hTime
    ensures StrictFrom(s, i - 1)
  {
  }

  // Fold entry i into entry i - 1 and close the gap.
  method CombinePair(a: array<Entry>, i: nat, count: nat)
    requires 0 < i < count <= a.Length
    modifies a
    ensures a[..count - 1] == old(a[..i - 1] + [Merge(a[i - 1], a[i])] + a[i + 1..count])
  {
    a[i - 1] := Merge(a[i - 1], a[i]);
    ghost var head := a[..i];
    ShiftDown(a, i + 1, count);
    assert head == old(a[..i - 1] + [Merge(a[i - 1], a[i])]);
  }

  // Combine entries of equal time, from the last pair to the first.
  method Combine(a: array<Entry>) returns (count: nat)
    requires a.Length > 0 && Sorted(a[..])
    modifies a
    ensures 0 < count <= a.Length
    ensures StrictFrom(a[..count], 0)
    ensures SameEvents(a[..count], old(a[..]))
  {
    count := a.Length;
    var i := a.Length - 1;
    ghost var s := a[..];
    while i > 0
      invariant 0 <= i < count <= a.Length
      invariant s == a[..count]
      invariant Sorted(s) && StrictFrom(s, i) && SameEvents(s, old(a[..]))
    {
      if a[i].hTime == a[i - 1].hTime {
        CombinePair(a, i, count);
        count := count - 1;
        assert s[i + 1..|s|] == s[i + 1..];
        CombineOnce(s, a[..count], i);
        s := a[..count];
      } else {
        StrictOneMore(s, i);
      }
      i := i - 1;
    }
  }

  lemma PermutationOccurs(a: seq<Entry>, b: seq<Entry>, t: nat)
    requires multiset(a) == multiset(b)
    ensures Occurs(a, t) <==> Occurs(b, t)
  {
    assert forall e :: e in a <==> e in multiset(a);
    assert forall e :: e in b <==> e in multiset(b);
    if k :| 0 <= k < |a| && a[k].hTime == t {
      assert a[k] in b;
    }
    if k :| 0 <= k < |b| && b[k].hTime == t {
      assert b[k] in a;
    }
  }

  lemma PermutationHasSameEvents(a: seq<Entry>, b: seq<Entry>)
    requires multiset(a) == multiset(b)
    ensures SameEvents(a, b)
  {
    forall t ensures At(a, t) == At(b, t) && (Occurs(a, t) <==> Occurs(b, t)) {
      AtOfPermutation(a, b, t);
      PermutationOccurs(a, b, t);
    }
  }

  // Steps 2 and 3.
  method SortAndCombine(a: array<Entry>) returns (count: nat)
    requires a.Length > 0
    modifies a
    ensures 0 < count <= a.Length
    ensures StrictFrom(a[..count], 0) && SameEvents(a[..count], old(a[..]))
  {
    InsertSort(a, a.Length);
    PermutationHasSameEvents(a[..], old(a[..]));
    count := Combine(a);
  }

  // ------------------------------------------------------------------ step 4: differences

  // The time at which entry k of a schedule of differences ends.
  ghost function Prefix(s: seq<Entry>, k: nat): nat
    requires k <= |s|
  {
    if k == 0 then 0 else Prefix(s, k - 1) + s[k - 1].hTime
  }

  // The time at which entry k itself ends.
  ghost function EntryEnd(s: seq<Entry>, k: nat): nat
    requires k < |s|
  {
    Prefix(s, k + 1)
  }

  ghost predicate DifferencesOf(d: seq<Entry>, s: seq<Entry>) {
    && |d| == |s| > 0 && d[0] == s[0]
    && (forall k :: 0 < k < |s| ==> s[k].hTime >= s[k - 1].hTime && d[k] == s[k].(hTime := s[k].hTime - s[k - 1].hTime))
    && (forall k :: 0 <= k < |s| ==> EntryEnd(d, k) == s[k].hTime)
  }

  method Differences(a: array<Entry>, count: nat)
    requires 0 < count <= a.Length && StrictFrom(a[..count], 0)
    modifies a
    ensures DifferencesOf(a[..count], old(a[..count]))
  {
    ghost var s := a[..count];
    var i := count - 1;
    while i > 0
      invariant 0 <= i < count
      invariant forall k :: 0 <= k <= i ==> a[k] == s[k]
      invariant forall k :: i < k < count ==> a[k] == s[k].(hTime := s[k].hTime - s[k - 1].hTime)
    {
      assert s[i - 1].hTime < s[i].hTime;
      a[i] := a[i].(hTime := a[i].hTime - a[i - 1].hTime);
      i := i - 1;
    }
    AreDifferences(a[..count], s);
  }

  lemma AreDifferences(d: seq<Entry>, s: seq<Entry>)
    requires |d| == |s| > 0 && StrictFrom(s, 0) && d[0] == s[0]
    requires forall k :: 0 < k < |s| ==> d[k] == s[k].(hTime := s[k].hTime - s[k - 1].hTime)
    ensures DifferencesOf(d, s)
  {
    forall k | 0 <= k < |s| ensures EntryEnd(d, k) == s[k].hTime {
      PrefixOfDifferences(d, s, k);
    }
  }

  lemma {:induction false} PrefixOfDifferences(d: seq<Entry>, s: seq<Entry>, k: nat)
    requires |d| == |s| && k < |s| && StrictFrom(s, 0)
    requires d[0] == s[0]
    requires forall j :: 0 < j < |s| ==> s[j].hTime >= s[j - 1].hTime && d[j].hTime == s[j].hTime - s[j - 1].hTime
    ensures Prefix(d, k + 1) == s[k].hTime
  {
    if k == 0 {
      assert Prefix(d, 1) == Prefix(d, 0) + d[0].hTime;
    } else {
      PrefixOfDifferences(d, s, k - 1);
    }
  }
}
