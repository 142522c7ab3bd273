// The thermostat schedule of firmware/user/cgithermostat.c:174-257: printing a day as JSON
// and saving one from the tokens jsmn finds in it.
module Schedule {
  import opened JsmnModel
  import opened JsmnTokenizer

  type U16 = x: int | 0 <= x < 0x10000

  datatype Slot = Slot(start: U16, end: U16, setpoint: U16, active: U16)

  const SLOTS := 8
  const MAX_TOKENS := 64

  type Day = d: seq<Slot> | |d| == SLOTS witness seq(SLOTS, _ => Slot(0, 0, 0, 0))
  type Week = w: seq<Day> | |w| == 7 witness seq(7, _ => seq(SLOTS, _ => Slot(0, 0, 0, 0)))

  function DayName(d: nat): (s: string)
    requires d < 7
    ensures |s| == 3
  {
    if d == 0 then "mon" else if d == 1 then "tue" else if d == 2 then "wed" else if d == 3 then "thu"
    else if d == 4 then "fri" else if d == 5 then "sat" else "sun"
  }

  // ------------------------------------------------------------------ numbers

  // %d of a non-negative number
  function Digits(n: nat): (s: string)
    ensures |s| > 0
    ensures forall i :: 0 <= i < |s| ==> '0' <= s[i] <= '9'
  {
    if n < 10 then ['0' + n as char] else Digits(n / 10) + ['0' + (n % 10) as char]
  }

  // The value of the leading digits of s, continuing acc.
  function Leading(s: string, acc: nat): nat
    decreases |s|
  {
    if s != "" && '0' <= s[0] <= '9' then Leading(s[1..], 10 * acc + (s[0] - '0') as nat) else acc
  }

  // atoi
  function Atoi(s: string): int
    decreases |s|
  {
    if s != "" && Blank(s[0]) then Atoi(s[1..])
    else if s != "" && s[0] == '-' then -(Leading(s[1..], 0) as int)
    else if s != "" && s[0] == '+' then Leading(s[1..], 0)
    else Leading(s, 0)
  }

  lemma {:induction false} LeadingOfConcat(a: string, b: string, acc: nat)
    requires forall i :: 0 <= i < |a| ==> '0' <= a[i] <= '9'
    ensures Leading(a + b, acc) == Leading(b, Leading(a, acc))
    decreases |a|
  {
    if a == "" {
      assert a + b == b;
    } else {
      assert (a + b)[1..] == a[1..] + b;
      LeadingOfConcat(a[1..], b, 10 * acc + (a[0] - '0') as nat);
    }
  }

  lemma {:induction false} LeadingOfDigits(n: nat)
    ensures Leading(Digits(n), 0) == n
  {
    if n < 10 {
      assert Digits(n)[1..] == "";
    } else {
      LeadingOfDigits(n / 10);
      var last := ['0' + (n % 10) as char];
      LeadingOfConcat(Digits(n / 10), last, 0);
      assert last[1..] == "";
      assert Leading(last, n / 10) == 10 * (n / 10) + n % 10;
    }
  }

  // What %d prints the conversion reads back.
  ghost predicate ReadsBack(atoi: string -> int) {
    forall n: U16 :: atoi(Digits(n)) == n
  }

  lemma AtoiReadsBack()
    ensures ReadsBack(Atoi)
  {
    forall n: U16 ensures Atoi(Digits(n)) == n {
      LeadingOfDigits(n);
    }
  }

  // ------------------------------------------------------------------ printing

  // "key":value
  function Pair(key: string, value: string): string {
    "\"" + key + "\":" + value
  }

  // The three numbers of a slot as text.
  datatype Values = Values(start: string, end: string, setpoint: string)

  function ValuesOf(s: Slot): Values {
    Values(Digits(s.start), Digits(s.end), Digits(s.setpoint))
  }

  function AllValues(slots: seq<Slot>): seq<Values> {
    seq(|slots|, i requires 0 <= i < |slots| => ValuesOf(slots[i]))
  }

  // {"s":start,"e":end,"sp":setpoint}
  function ItemText(v: Values): string {
    "{" + Pair("s", v.start) + "," + Pair("e", v.end) + "," + Pair("sp", v.setpoint) + "}"
  }

  // The first n slots, separated by commas.
  function ListText(vs: seq<Values>, n: nat): string
    requires n <= |vs|
  {
    if n == 0 then ""
    else if n == 1 then ItemText(vs[0])
    else ListText(vs, n - 1) + "," + ItemText(vs[n - 1])
  }

  function SlotsText(slots: seq<Slot>): string {
    ListText(AllValues(slots), |slots|)
  }

  function DayText(name: string, slots: seq<Slot>): string {
    "\"" + name + "\":[" + SlotsText(slots) + "]"
  }

  // The slots in use: those before the first that is not marked active.
  function ActivePrefix(day: seq<Slot>): seq<Slot> {
    if day == [] || day[0].active != 1 then [] else [day[0]] + ActivePrefix(day[1..])
  }

  lemma {:induction false} ActivePrefixIs(day: seq<Slot>, n: nat)
    requires n <= |day| && (forall i :: 0 <= i < n ==> day[i].active == 1)
    requires n < |day| ==> day[n].active != 1
    ensures ActivePrefix(day) == day[..n]
  {
    if n > 0 {
      ActivePrefixIs(day[1..], n - 1);
      assert [day[0]] + day[1..][..n - 1] == day[..n];
    }
  }

  lemma {:induction false} ListReadsPrefix(a: seq<Values>, b: seq<Values>, n: nat)
    requires n <= |a| && n <= |b| && forall i :: 0 <= i < n ==> a[i] == b[i]
    ensures ListText(a, n) == ListText(b, n)
  {
    if n > 0 {
      ListReadsPrefix(a, b, n - 1);
    }
  }

  lemma NextSlotText(slots: seq<Slot>, n: nat)
    requires n < |slots|
    ensures SlotsText(slots[..n + 1])
         == (if n == 0 then "" else SlotsText(slots[..n]) + ",") + ItemText(ValuesOf(slots[n]))
  {
    ListReadsPrefix(AllValues(slots[..n + 1]), AllValues(slots[..n]), n);
  }

  lemma NoSlotsText(slots: seq<Slot>)
    requires slots == []
    ensures SlotsText(slots) == ""
  {
  }

  // The inner loop of the printing branch.
  method PrintSlots(day: Day) returns (buff: string)
    ensures buff == SlotsText(ActivePrefix(day))
  {
    hide ItemText, ListText;
    NoSlotsText(day[..0]);
    buff := "";
    var sched := 0;
    while sched < 8 && day[sched].active == 1
      invariant 0 <= sched <= 8
      invariant forall i :: 0 <= i < sched ==> day[i].active == 1
      invariant buff == SlotsText(day[..sched]) + if 0 < sched < 8 && day[sched].active == 1 then "," else ""
    {
      NextSlotText(day, sched);
      buff := buff + ItemText(ValuesOf(day[sched]));
      if sched < 7 && day[sched + 1].active == 1 {
        buff := buff + ",";
      }
      sched := sched + 1;
    }
    ActivePrefixIs(day, sched);
  }

  method PrintDay(dow: nat, day: Day) returns (buff: string)
    requires dow < 7
    ensures buff == DayText(DayName(dow), ActivePrefix(day))
  {
    var slots := PrintSlots(day);
    buff := "\"" + DayName(dow) + "\":[" + slots + "]";
  }

  // The first n days of a week, each on a line of its own, with commas between them.
  function DaysText(week: Week, n: nat): string
    requires n <= 7
  {
    if n == 0 then ""
    else DaysText(week, n - 1) + DayText(DayName(n - 1), ActivePrefix(week[n - 1])) + (if n < 7 then "," else "") + "\n"
  }

  // The printing branch.
  method PrintWeek(week: Week) returns (buff: string)
    ensures buff == "{" + DaysText(week, 7) + "}"
  {
    hide DayText, ActivePrefix, DayName;
    buff := "{";
    for dow := 0 to 7
      invariant buff == "{" + DaysText(week, dow)
    {
      var day := PrintDay(dow, week[dow]);
      ghost var before := buff;
      buff := buff + day + (if dow < 6 then "," else "") + "\n";
      assert buff == before + (day + (if dow < 6 then "," else "") + "\n");
    }
    buff := buff + "}";
  }

  // ------------------------------------------------------------------ saving

  // The text of a token; a token without a range in the text has none.
  function Text(post: string, t: Token): string {
    if 0 <= t.start <= t.end <= |post| then post[t.start..t.end] else ""
  }

  // The number a token's text shows, in a 16-bit field; `atoi` is the library conversion.
  function Number(post: string, t: Token, atoi: string -> int): U16 {
    atoi(Text(post, t)) % 0x10000
  }

  // The day whose name the text shows at `start`, or -1.
  function FindDay(post: string, start: int): (d: int)
    ensures -1 <= d < 7
    ensures d >= 0 ==> 0 <= start && start + 3 <= |post| && post[start..start + 3] == DayName(d)
    ensures d == -1 && 0 <= start && start + 3 <= |post|
            ==> forall i :: 0 <= i < 7 ==> post[start..start + 3] != DayName(i)
  {
    if !(0 <= start && start + 3 <= |post|) then -1
    else
      var name := post[start..start + 3];
      if name == DayName(6) then 6 else if name == DayName(5) then 5 else if name == DayName(4) then 4
      else if name == DayName(3) then 3 else if name == DayName(2) then 2 else if name == DayName(1) then 1
      else if name == DayName(0) then 0 else -1
  }

  function SlotAt(post: string, t: seq<Token>, i: nat, atoi: string -> int): Slot
    requires i + 6 < |t|
  {
    Slot(Number(post, t[i + 2], atoi), Number(post, t[i + 4], atoi), Number(post, t[i + 6], atoi), 1)
  }

  // The loop over slots, from token i and slot sched.
  function SaveSlots(day: Day, post: string, t: seq<Token>, r: int, i: nat, sched: nat, atoi: string -> int): Day
    requires |t| == MAX_TOKENS && sched <= SLOTS && i == 3 + 7 * sched
    decreases SLOTS - sched, day
  {
    if i < r && sched < SLOTS then SaveSlots(day[sched := SlotAt(post, t, i, atoi)], post, t, r, i + 7, sched + 1, atoi)
    else if sched < SLOTS then day[sched := day[sched].(active := 0)]
    else day
  }

  // The week after a post, given the token array the parser left and its result.
  function SaveTokens(week: Week, post: string, t: seq<Token>, r: int, atoi: string -> int): Week
    requires |t| == MAX_TOKENS
  {
    if r < 1 || t[0].kind != Object then week
    else
      var d := FindDay(post, t[1].start);
      if d < 0 then week else week[d := SaveSlots(week[d], post, t, r, 3, 0, atoi)]
  }

  // One day as a post leaves it: slot k gets the numbers shown by tokens 3 + 7k + 2, 4 and 6 as long
  // as there are tokens, the next slot is marked as not in use, and the others stay.
  ghost predicate DaySaved(was: Day, now: Day, post: string, t: seq<Token>, r: int, atoi: string -> int)
    requires |t| == 64
  {
    forall k :: 0 <= k < 8 ==>
      if 3 + 7 * k < r then
        && now[k].start == atoi(Text(post, t[3 + 7 * k + 2])) % 0x10000
        && now[k].end == atoi(Text(post, t[3 + 7 * k + 4])) % 0x10000
        && now[k].setpoint == atoi(Text(post, t[3 + 7 * k + 6])) % 0x10000
        && now[k].active == 1
      else if k == 0 || 3 + 7 * (k - 1) < r then now[k] == was[k].(active := 0)
      else now[k] == was[k]
  }

  lemma {:induction false} SlotsSavedFrom(day: Day, post: string, t: seq<Token>, r: int, i: nat, sched: nat,
                                          atoi: string -> int)
    requires |t| == MAX_TOKENS && sched <= SLOTS && i == 3 + 7 * sched
    requires sched > 0 ==> 3 + 7 * (sched - 1) < r
    ensures var now := SaveSlots(day, post, t, r, i, sched, atoi);
            && now[..sched] == day[..sched]
            && forall k :: sched <= k < 8 ==>
                 if 3 + 7 * k < r then now[k] == SlotAt(post, t, 3 + 7 * k, atoi)
                 else if k == 0 || 3 + 7 * (k - 1) < r then now[k] == day[k].(active := 0)
                 else now[k] == day[k]
    decreases SLOTS - sched
  {
    hide SlotAt;
    if i < r && sched < SLOTS {
      SlotsSavedFrom(day[sched := SlotAt(post, t, i, atoi)], post, t, r, i + 7, sched + 1, atoi);
    }
  }

  lemma SlotsAreSaved(day: Day, post: string, t: seq<Token>, r: int, atoi: string -> int)
    requires |t| == MAX_TOKENS
    ensures DaySaved(day, SaveSlots(day, post, t, r, 3, 0, atoi), post, t, r, atoi)
  {
    hide SaveSlots;
    SlotsSavedFrom(day, post, t, r, 3, 0, atoi);
  }

  // The day that a name stands for.
  predicate Names(name: string, d: int) {
    || (d == 0 && name == "mon") || (d == 1 && name == "tue") || (d == 2 && name == "wed") || (d == 3 && name == "thu")
    || (d == 4 && name == "fri") || (d == 5 && name == "sat") || (d == 6 && name == "sun")
  }

  // Exactly day d changes.
  ghost predicate OnlyDaySaved(was: Week, now: Week, d: int, post: string, t: seq<Token>, r: int, atoi: string -> int)
    requires |t| == 64
  {
    0 <= d < 7 && DaySaved(was[d], now[d], post, t, r, atoi) && forall e :: 0 <= e < 7 && e != d ==> now[e] == was[e]
  }

  // What a post names: three characters at its second token.
  function NamedAt(post: string, t: Token): string {
    if 0 <= t.start && t.start + 3 <= |post| then post[t.start..t.start + 3] else ""
  }

  lemma DayIsFound(post: string, t: Token)
    ensures var d, name := FindDay(post, t.start), NamedAt(post, t);
            d < 7 && forall e :: Names(name, e) <==> 0 <= d == e
  {
    var d, name := FindDay(post, t.start), NamedAt(post, t);
    forall e ensures Names(name, e) <==> 0 <= d == e {
      if Names(name, e) {
        assert name == DayName(e);
      }
    }
  }

  // The loop over slots.
  method StoreSlots(today: Day, post: string, t: seq<Token>, r: int, atoi: string -> int) returns (day: Day)
    requires |t| == MAX_TOKENS
    ensures day == SaveSlots(today, post, t, r, 3, 0, atoi)
  {
    day := today;
    var i, sched := 3, 0;
    while i < r && sched < 8
      invariant 0 <= sched <= 8 && i == 3 + 7 * sched
      invariant SaveSlots(today, post, t, r, 3, 0, atoi) == SaveSlots(day, post, t, r, i, sched, atoi)
    {
      day := day[sched := Slot(Number(post, t[i + 2], atoi), Number(post, t[i + 4], atoi),
                               Number(post, t[i + 6], atoi), 1)];
      i, sched := i + 7, sched + 1;
    }
    if sched < 8 {
      day := day[sched := day[sched].(active := 0)];
    }
  }

  class ScheduleStore {
    var weekSched: Week

    // The saving branch.  `arr` is what the token array holds after parsing; the parser
    // only determines the tokens it filled.
    method Save(post: string, outside: nat -> Kind, atoi: string -> int) returns (saved: bool, ghost arr: seq<Token>)
      modifies this
      ensures var call := Call(post, FRESH, MAX_TOKENS, outside);
              && |arr| == MAX_TOKENS && call.state.tokens <= arr
              && weekSched == SaveTokens(old(weekSched), post, arr, call.code, atoi)
              && (saved <==> call.code >= 1 && arr[0].kind == Object && exists d :: Names(NamedAt(post, arr[1]), d))
              && (!saved ==> weekSched == old(weekSched))
              && (saved ==> forall d :: Names(NamedAt(post, arr[1]), d) ==>
                              OnlyDaySaved(old(weekSched), weekSched, d, post, arr, call.code, atoi))
    {
      hide DaySaved, SaveSlots, Call, NamedAt, Names, FindDay;
      var p := new Tokenizer();
      var t := new Token[MAX_TOKENS];
      assert p.View(t, 0) == FRESH;
      var r := p.Parse(post, t, outside);
      arr := t[..];
      assert p.View(t, 0).tokens <= arr;
      saved := false;
      if r < 1 || t[0].kind != Object {
        return;
      }
      DayIsFound(post, t[1]);
      var found := FindDay(post, t[1].start);
      if found < 0 {
        return;
      }
      SlotsAreSaved(weekSched[found], post, arr, r, atoi);
      var day := StoreSlots(weekSched[found], post, t[..], r, atoi);
      weekSched := weekSched[found := day];
      assert Names(NamedAt(post, arr[1]), found);
      saved := true;
    }
  }
}
