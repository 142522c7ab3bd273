// A printed day, wrapped in braces and posted back, restores the day: the composition of the
// printing branch, the jsmn tokenizer and the saving branch of firmware/user/cgithermostat.c.
module ScheduleRoundTrip {
  import opened Wrappers
  import opened JsmnModel
  import opened JsmnTrees
  import opened Schedule

  // ------------------------------------------------------------------ a day as a value

  function KeyOf(name: string): Option<Leaf> {
    Some(Leaf("", Str, name, ""))
  }

  function NumberOf(numeral: string): Json {
    Single(Leaf("", Primitive, numeral, ""))
  }

  function Fields(v: Values): Rows {
    Row(KeyOf("s"), NumberOf(v.start), Row(KeyOf("e"), NumberOf(v.end), Row(KeyOf("sp"), NumberOf(v.setpoint), NoRows)))
  }

  function Item(v: Values): Json {
    Box("", Object, "", Fields(v), "")
  }

  function Items(vs: seq<Values>): Rows {
    if vs == [] then NoRows else Row(None, Item(vs[0]), Items(vs[1..]))
  }

  // {"name":[rows]}
  function NamedList(name: string, rows: Rows): Json {
    Box("", Object, "", Row(KeyOf(name), Box("", Array, "", rows, ""), NoRows), "")
  }

  function DayValue(name: string, vs: seq<Values>): Json {
    NamedList(name, Items(vs))
  }

  predicate Plain(s: string) {
    forall i :: 0 <= i < |s| ==> s[i] != '\0' && s[i] != '\"' && s[i] != '\\'
  }

  predicate Numeral(s: string) {
    |s| > 0 && forall i :: 0 <= i < |s| ==> '0' <= s[i] <= '9'
  }

  predicate Numerals(v: Values) {
    Numeral(v.start) && Numeral(v.end) && Numeral(v.setpoint)
  }

  lemma {:induction false} PlainIsQuotable(s: string)
    requires Plain(s)
    ensures Quotable(s)
  {
    if s != "" {
      PlainIsQuotable(s[1..]);
    }
  }

  lemma NumeralIsProper(s: string)
    requires Numeral(s)
    ensures Proper(NumberOf(s))
  {
  }

  lemma KeyIsProper(name: string)
    requires Plain(name)
    ensures ProperLeaf(KeyOf(name).value)
  {
    PlainIsQuotable(name);
  }

  lemma ItemIsProper(v: Values)
    requires Numerals(v)
    ensures Proper(Item(v))
  {
    hide Numeral, ProperLeaf;
    KeyIsProper("s");
    KeyIsProper("e");
    KeyIsProper("sp");
    NumeralIsProper(v.start);
    NumeralIsProper(v.end);
    NumeralIsProper(v.setpoint);
    var rows := Fields(v);
    assert ProperRows(rows.rest.rest.rest) && ProperRows(rows.rest.rest) && ProperRows(rows.rest) && ProperRows(rows);
  }

  lemma {:induction false} ItemsAreProper(vs: seq<Values>)
    requires forall i :: 0 <= i < |vs| ==> Numerals(vs[i])
    ensures ProperRows(Items(vs))
  {
    hide Numerals, Item;
    if vs != [] {
      ItemIsProper(vs[0]);
      ItemsAreProper(vs[1..]);
    }
  }

  lemma DayIsProper(name: string, vs: seq<Values>)
    requires Plain(name) && forall i :: 0 <= i < |vs| ==> Numerals(vs[i])
    ensures Proper(DayValue(name, vs))
  {
    hide Numerals, Items, Plain, ProperLeaf;
    KeyIsProper(name);
    ItemsAreProper(vs);
    var rows := DayValue(name, vs).rows;
    assert Proper(rows.value) && ProperRows(rows.rest) && ProperRows(rows);
  }

  // ------------------------------------------------------------------ its text

  lemma KeyIsQuoted(name: string)
    ensures KeySource(KeyOf(name)) == "\"" + name + "\":"
  {
    assert LeafSource(KeyOf(name).value) == "\"" + name + "\"";
  }

  lemma NumberSource(numeral: string)
    ensures Source(NumberOf(numeral)) == numeral
  {
  }

  lemma Regroup(a: string, b: string, c: string)
    ensures a + (b + c) == a + b + c
  {
  }

  // A row with a key, and the rows behind it.
  lemma PairAndRest(key: string, value: string, rest: Rows)
    ensures RowsSource(Row(KeyOf(key), NumberOf(value), rest))
         == Pair(key, value) + if rest.NoRows? then "" else "," + RowsSource(rest)
  {
    hide KeySource, Source, KeyOf, NumberOf;
    KeyIsQuoted(key);
    NumberSource(value);
    Regroup(KeySource(KeyOf(key)), value, if rest.NoRows? then "" else "," + RowsSource(rest));
  }

  lemma ItemSource(v: Values)
    ensures Source(Item(v)) == ItemText(v)
  {
    hide Pair, RowsSource;
    var rows := Fields(v);
    PairAndRest("s", v.start, rows.rest);
    PairAndRest("e", v.end, rows.rest.rest);
    PairAndRest("sp", v.setpoint, NoRows);
  }

  lemma {:induction false} OneMoreItem(vs: seq<Values>, v: Values)
    ensures RowsSource(Items(vs + [v])) == (if vs == [] then "" else RowsSource(Items(vs)) + ",") + Source(Item(v))
    decreases |vs|
  {
    hide Item, Source;
    if vs == [] {
      assert vs + [v] == [v] && [v][1..] == [];
    } else {
      assert (vs + [v])[1..] == vs[1..] + [v];
      OneMoreItem(vs[1..], v);
    }
  }

  lemma {:induction false} ItemsSource(vs: seq<Values>, n: nat)
    requires n <= |vs|
    ensures RowsSource(Items(vs[..n])) == ListText(vs, n)
  {
    hide Item, ItemText, Source;
    if n > 0 {
      assert vs[..n] == vs[..n - 1] + [vs[n - 1]];
      ItemsSource(vs, n - 1);
      OneMoreItem(vs[..n - 1], vs[n - 1]);
      ItemSource(vs[n - 1]);
    }
  }

  // What is posted: the day's text in braces.
  function Posted(d: nat, slots: seq<Slot>): string
    requires d < 7
  {
    "{" + DayText(DayName(d), slots) + "}"
  }

  lemma ListSource(rows: Rows)
    ensures Source(Box("", Array, "", rows, "")) == "[" + RowsSource(rows) + "]"
  {
  }

  lemma BracketedText(name: string, body: string)
    ensures "\"" + name + "\":[" + body + "]" == "\"" + name + "\":" + ("[" + body + "]")
  {
    assert "\":[" == "\":" + "[";
  }

  lemma PostedIsDay(d: nat, slots: seq<Slot>)
    requires d < 7
    ensures Posted(d, slots) == Source(DayValue(DayName(d), AllValues(slots)))
  {
    var name, vs := DayName(d), AllValues(slots);
    assert vs[..|slots|] == vs;
    hide Items, DayName, AllValues, ListText, KeySource, Source;
    ItemsSource(vs, |slots|);
    BracedSource(name, Box("", Array, "", Items(vs), ""));
    ListSource(Items(vs));
    BracketedText(name, ListText(vs, |slots|));
  }

  lemma BracedSource(name: string, value: Json)
    ensures Source(Box("", Object, "", Row(KeyOf(name), value, NoRows), ""))
         == "{" + ("\"" + name + "\":" + Source(value)) + "}"
  {
    hide KeySource, KeyOf;
    KeyIsQuoted(name);
    assert RowsSource(Row(KeyOf(name), value, NoRows)) == KeySource(KeyOf(name)) + Source(value);
  }

  // ------------------------------------------------------------------ its tokens

  // The tokens of a slot, from index n: the object, then key and value three times.
  ghost predicate ShowsItem(js: string, tokens: seq<Token>, n: nat, v: Values) {
    && n + 7 <= |tokens|
    && Text(js, tokens[n + 1]) == "s" && Text(js, tokens[n + 2]) == v.start
    && Text(js, tokens[n + 3]) == "e" && Text(js, tokens[n + 4]) == v.end
    && Text(js, tokens[n + 5]) == "sp" && Text(js, tokens[n + 6]) == v.setpoint
  }

  // All the slots shown from token `base` on.
  ghost predicate ShowsItems(js: string, tokens: seq<Token>, base: nat, vs: seq<Values>) {
    forall k :: 0 <= k < |vs| ==> ShowsItem(js, tokens, base + 7 * k, vs[k])
  }

  // Tokens with more behind them show the same slots.
  lemma ShowsItemsKept(js: string, a: seq<Token>, b: seq<Token>, base: nat, vs: seq<Values>)
    requires a <= b && ShowsItems(js, a, base, vs)
    ensures ShowsItems(js, b, base, vs)
  {
    forall k | 0 <= k < |vs| ensures ShowsItem(js, b, base + 7 * k, vs[k]) {
      assert ShowsItem(js, a, base + 7 * k, vs[k]);
    }
  }

  lemma FieldTexts(key: string, numeral: string, rest: Rows)
    ensures RowTexts(Row(KeyOf(key), NumberOf(numeral), rest)) == [key, numeral] + RowTexts(rest)
  {
    hide RowTexts;
    assert Texts(NumberOf(numeral)) == [numeral] && KeyTexts(KeyOf(key)) == [key];
    RowAndRestTexts(Row(KeyOf(key), NumberOf(numeral), rest));
  }

  lemma RowAndRestTexts(rows: Rows)
    requires rows.Row?
    ensures RowTexts(rows) == KeyTexts(rows.key) + Texts(rows.value) + RowTexts(rows.rest)
  {
    hide KeyTexts, Texts;
  }

  lemma NoTexts()
    ensures RowTexts(NoRows) == []
  {
  }

  lemma ItemTexts(v: Values)
    ensures |Texts(Item(v))| == 7
    ensures Texts(Item(v))[1..] == ["s", v.start, "e", v.end, "sp", v.setpoint]
  {
    hide RowTexts, KeyOf, NumberOf;
    var rows := Fields(v);
    FieldTexts("s", v.start, rows.rest);
    FieldTexts("e", v.end, rows.rest.rest);
    FieldTexts("sp", v.setpoint, NoRows);
    NoTexts();
  }

  lemma {:induction false} ItemsTexts(vs: seq<Values>, k: nat)
    ensures |RowTexts(Items(vs))| == 7 * |vs|
    ensures k < |vs| ==> RowTexts(Items(vs))[7 * k + 1..7 * k + 7]
                         == ["s", vs[k].start, "e", vs[k].end, "sp", vs[k].setpoint]
    decreases |vs|
  {
    hide Item, RowTexts, Texts;
    if vs == [] {
      NoTexts();
    } else {
      var later := RowTexts(Items(vs[1..]));
      RowAndRestTexts(Items(vs));
      ItemTexts(vs[0]);
      ItemsTexts(vs[1..], if k > 0 then k - 1 else 0);
      assert RowTexts(Items(vs)) == Texts(Item(vs[0])) + later;
      if 0 < k < |vs| {
        assert RowTexts(Items(vs))[7 * k + 1..7 * k + 7] == later[7 * (k - 1) + 1..7 * (k - 1) + 7];
      } else if k == 0 {
        assert RowTexts(Items(vs))[1..7] == Texts(Item(vs[0]))[1..];
      }
    }
  }

  lemma ItemCovered(js: string, tokens: seq<Token>, texts: seq<string>, n: nat, v: Values)
    requires Covers(js, tokens, texts) && n + 7 <= |texts|
    requires texts[n + 1..n + 7] == ["s", v.start, "e", v.end, "sp", v.setpoint]
    ensures ShowsItem(js, tokens, n, v)
  {
    var part := texts[n + 1..n + 7];
    assert texts[n + 1] == part[0] && texts[n + 2] == part[1] && texts[n + 3] == part[2];
    assert texts[n + 4] == part[3] && texts[n + 5] == part[4] && texts[n + 6] == part[5];
  }

  lemma PartOfPart(texts: seq<string>, base: nat, n: nat, i: nat, j: nat)
    requires base + n <= |texts| && i <= j <= n
    ensures texts[base..base + n][i..j] == texts[base + i..base + j]
  {
    var part := texts[base..base + n];
    assert |part[i..j]| == |texts[base + i..base + j]|;
    forall k | 0 <= k < j - i ensures part[i..j][k] == texts[base + i..base + j][k] {
      assert part[i..j][k] == part[i + k] == texts[base + i + k];
    }
  }

  // Slots whose texts stand from index `base` on are shown there.
  lemma ListCovered(js: string, tokens: seq<Token>, texts: seq<string>, base: nat, vs: seq<Values>)
    requires Covers(js, tokens, texts) && base + |RowTexts(Items(vs))| <= |texts|
    requires texts[base..base + |RowTexts(Items(vs))|] == RowTexts(Items(vs))
    ensures ShowsItems(js, tokens, base, vs)
  {
    hide Covers, Items, RowTexts, ShowsItem;
    var list := RowTexts(Items(vs));
    forall k | 0 <= k < |vs| ensures ShowsItem(js, tokens, base + 7 * k, vs[k]) {
      ItemsTexts(vs, k);
      PartOfPart(texts, base, |list|, 7 * k + 1, 7 * k + 7);
      ItemCovered(js, tokens, texts, base + 7 * k, vs[k]);
    }
  }

  lemma CoveredText(js: string, tokens: seq<Token>, texts: seq<string>, i: nat)
    requires Covers(js, tokens, texts) && i < |texts|
    ensures Text(js, tokens[i]) == texts[i]
  {
  }

  lemma DayTexts(name: string, vs: seq<Values>)
    ensures var texts := Texts(DayValue(name, vs));
            |texts| == 3 + 7 * |vs| && texts[1] == name && texts[3..] == RowTexts(Items(vs))
  {
    hide RowTexts, Items;
    var list := Box("", Array, "", Items(vs), "");
    RowAndRestTexts(Row(KeyOf(name), list, NoRows));
    NoTexts();
    ItemsTexts(vs, 0);
    assert Texts(list) == [Texts(list)[0]] + RowTexts(Items(vs));
  }

  lemma DayShown(js: string, name: string, vs: seq<Values>)
    requires js == Source(DayValue(name, vs))
    ensures var t := Tokens(DayValue(name, vs), 0);
            && |t| == 3 + 7 * |vs| && t[0].kind == Object && Text(js, t[1]) == name
            && ShowsItems(js, t, 3, vs)
  {
    WholeText(js);
    var day, t := DayValue(name, vs), Tokens(DayValue(name, vs), 0);
    assert t[0].kind == Object;
    hide TextAt, Covers, RowTexts, Texts, Items, Source, ShowsItems, Tokens, NamedList, Text;
    TokensShowTexts(js, 0, day);
    DayTexts(name, vs);
    CoveredText(js, t, Texts(day), 1);
    ListCovered(js, t, Texts(day), 3, vs);
    assert Covers(js, t, Texts(day));
    SameLength(js, t, Texts(day));
  }

  lemma SameLength(js: string, tokens: seq<Token>, texts: seq<string>)
    requires Covers(js, tokens, texts)
    ensures |tokens| == |texts|
  {
  }

  lemma WholeText(js: string)
    ensures TextAt(js, 0, js)
  {
  }

  lemma DayNameIsPlain(d: nat)
    requires d < 7
    ensures Plain(DayName(d))
  {
  }

  // The token layout theorem: jsmn finds 3 + 7n tokens in a posted day of n slots, never more
  // than 59, with the day's name in token 1 and the numbers of slot i in tokens 3 + 7i + 2, 4, 6.
  lemma PostedTokens(d: nat, slots: seq<Slot>, outside: nat -> Kind) returns (st: State)
    requires d < 7 && |slots| <= SLOTS
    ensures var js := Posted(d, slots);
            && Call(js, FRESH, MAX_TOKENS, outside) == Result(3 + 7 * |slots|, st)
            && |st.tokens| == 3 + 7 * |slots| <= 59
            && st.tokens[0].kind == Object && Text(js, st.tokens[1]) == DayName(d)
            && ShowsItems(js, st.tokens, 3, AllValues(slots))
  {
    hide DayValue, DayName, Posted, Parse, Plain, Numerals, ShowsItems, Tokens, Text;
    var name, vs := DayName(d), AllValues(slots);
    DayNameIsPlain(d);
    forall i | 0 <= i < |vs| ensures Numerals(vs[i]) {
      NumbersArePrinted(slots[i]);
    }
    DayIsProper(name, vs);
    PostedIsDay(d, slots);
    DayShown(Posted(d, slots), name, vs);
    var day := DayValue(name, vs);
    ValueIsTokenized(day, MAX_TOKENS, outside);
    st := State(|Posted(d, slots)|, Tokens(day, 0), -1, Nodes(day));
  }

  lemma NumbersArePrinted(s: Slot)
    ensures Numerals(ValuesOf(s))
  {
  }

  // ------------------------------------------------------------------ saving what was printed

  lemma SlotShown(js: string, t: seq<Token>, n: nat, s: Slot, atoi: string -> int)
    requires ReadsBack(atoi) && s.active == 1 && ShowsItem(js, t, n, ValuesOf(s))
    ensures n + 6 < |t| && SlotAt(js, t, n, atoi) == s
  {
  }

  lemma ShownSlot(js: string, t: seq<Token>, slots: seq<Slot>, k: nat, atoi: string -> int)
    requires k < |slots| && slots[k].active == 1 && ReadsBack(atoi)
    requires ShowsItems(js, t, 3, AllValues(slots))
    ensures 3 + 7 * k + 6 < |t| && SlotAt(js, t, 3 + 7 * k, atoi) == slots[k]
  {
    hide ShowsItem, SlotAt, ReadsBack;
    assert ShowsItem(js, t, 3 + 7 * k, AllValues(slots)[k]);
    SlotShown(js, t, 3 + 7 * k, slots[k], atoi);
  }

  // Storing the shown slots from slot k on.
  lemma {:induction false} SaveShownSlots(day: Day, js: string, t: seq<Token>, slots: seq<Slot>, k: nat,
                                          atoi: string -> int)
    requires |t| == MAX_TOKENS && k <= |slots| <= SLOTS && ReadsBack(atoi)
    requires ShowsItems(js, t, 3, AllValues(slots)) && forall i :: 0 <= i < |slots| ==> slots[i].active == 1
    requires forall i :: 0 <= i < k ==> day[i] == slots[i]
    ensures var r := SaveSlots(day, js, t, 3 + 7 * |slots|, 3 + 7 * k, k, atoi);
            && (forall i :: 0 <= i < |slots| ==> r[i] == slots[i])
            && (|slots| < SLOTS ==> r[|slots|] == day[|slots|].(active := 0))
            && (forall i :: |slots| < i < SLOTS ==> r[i] == day[i])
    decreases |slots| - k
  {
    hide ShowsItem, ShowsItems, SlotAt, ReadsBack, AllValues;
    if k < |slots| {
      ShownSlot(js, t, slots, k, atoi);
      SaveShownSlots(day[k := slots[k]], js, t, slots, k + 1, atoi);
    }
  }

  lemma SavedDayIsPrinted(day: Day, js: string, t: seq<Token>, slots: seq<Slot>, atoi: string -> int)
    requires |t| == MAX_TOKENS && |slots| <= SLOTS && ReadsBack(atoi)
    requires ShowsItems(js, t, 3, AllValues(slots)) && forall i :: 0 <= i < |slots| ==> slots[i].active == 1
    ensures ActivePrefix(SaveSlots(day, js, t, 3 + 7 * |slots|, 3, 0, atoi)) == slots
  {
    SaveShownSlots(day, js, t, slots, 0, atoi);
    var after := SaveSlots(day, js, t, 3 + 7 * |slots|, 3, 0, atoi);
    ActivePrefixIs(after, |slots|);
    assert after[..|slots|] == slots;
  }

  lemma FindDayByName(js: string, t: Token, d: nat)
    requires d < 7 && Text(js, t) == DayName(d)
    ensures FindDay(js, t.start) == d
  {
    assert 0 <= t.start && t.start + 3 <= |js| && js[t.start..t.start + 3] == DayName(d);
    var f := FindDay(js, t.start);
    assert DayName(f)[0] == DayName(d)[0] && DayName(f)[1] == DayName(d)[1] && DayName(f)[2] == DayName(d)[2];
  }

  // The schedule round trip: for any day with up to eight active slots and any 16-bit numbers,
  // printing the day, wrapping it in braces and saving the result through jsmn gives a day
  // with the same slots in use, and changes no other day; whatever was in the token array
  // and in the week before.
  lemma PrintThenSave(d: nat, day: Day, week: Week, arr: seq<Token>, outside: nat -> Kind, atoi: string -> int)
    requires d < 7 && ReadsBack(atoi)
    requires |arr| == MAX_TOKENS
    requires Call(Posted(d, ActivePrefix(day)), FRESH, MAX_TOKENS, outside).state.tokens <= arr
    ensures var js := Posted(d, ActivePrefix(day));
            var after := SaveTokens(week, js, arr, Call(js, FRESH, MAX_TOKENS, outside).code, atoi);
            && ActivePrefix(after[d]) == ActivePrefix(day)
            && forall e :: 0 <= e < 7 && e != d ==> after[e] == week[e]
  {
    hide Posted, SaveSlots, ReadsBack, Parse;
    var slots := ActivePrefix(day);
    ActiveSlots(day);
    var js := Posted(d, slots);
    var st := PostedTokens(d, slots, outside);
    FindDayByName(js, st.tokens[1], d);
    ShowsItemsKept(js, st.tokens, arr, 3, AllValues(slots));
    SavedDayIsPrinted(week[d], js, arr, slots, atoi);
  }

  lemma {:induction false} ActiveSlots(day: seq<Slot>)
    ensures |ActivePrefix(day)| <= |day|
    ensures forall i :: 0 <= i < |ActivePrefix(day)| ==> ActivePrefix(day)[i].active == 1
  {
    if day != [] && day[0].active == 1 {
      ActiveSlots(day[1..]);
    }
  }

  // ------------------------------------------------------------------ the printed week

  function ListOf(week: Week, d: nat): Json
    requires d < 7
  {
    Box("", Array, "", Items(AllValues(ActivePrefix(week[d]))), if d == 6 then "\n" else "")
  }

  function DayKey(d: nat): Leaf
    requires d < 7
  {
    Leaf(if d == 0 then "" else "\n", Str, DayName(d), "")
  }

  // The days from d on.
  function DayRows(week: Week, d: nat): Rows
    requires d <= 7
    decreases 7 - d
  {
    if d == 7 then NoRows else Row(Some(DayKey(d)), ListOf(week, d), DayRows(week, d + 1))
  }

  function WeekValue(week: Week): Json {
    Box("", Object, "", DayRows(week, 0), "")
  }

  lemma KeyAfter(lead: string, name: string)
    ensures KeySource(Some(Leaf(lead, Str, name, ""))) == lead + ("\"" + name + "\":")
  {
    assert LeafSource(Leaf(lead, Str, name, "")) == lead + ("\"" + name + "\"");
  }

  lemma ListBefore(rows: Rows, trail: string)
    ensures Source(Box("", Array, "", rows, trail)) == "[" + RowsSource(rows) + "]" + trail
  {
  }

  lemma JoinLine(lead: string, name: string, body: string, trail: string)
    ensures lead + ("\"" + name + "\":") + ("[" + body + "]" + trail)
         == lead + ("\"" + name + "\":[" + body + "]") + trail
  {
    BracketedText(name, body);
  }

  lemma DayLine(week: Week, d: nat)
    requires d < 7
    ensures KeySource(Some(DayKey(d))) + Source(ListOf(week, d))
         == (if d == 0 then "" else "\n") + DayText(DayName(d), ActivePrefix(week[d])) + (if d == 6 then "\n" else "")
  {
    hide Items, DayName, AllValues, ListText, RowsSource, KeySource, Source;
    var slots := ActivePrefix(week[d]);
    var vs := AllValues(slots);
    AllValuesLength(slots);
    assert vs[..|slots|] == vs;
    ItemsSource(vs, |slots|);
    var lead, trail := if d == 0 then "" else "\n", if d == 6 then "\n" else "";
    KeyAfter(lead, DayName(d));
    ListBefore(Items(vs), trail);
    JoinLine(lead, DayName(d), ListText(vs, |slots|), trail);
  }

  lemma AllValuesLength(slots: seq<Slot>)
    ensures |AllValues(slots)| == |slots|
  {
  }

  // The rows from d on are what is printed behind the first d days, but for its first line break.
  lemma {:induction false} RowsBehind(week: Week, d: nat)
    requires d <= 7
    ensures (if d == 0 then "" else DaysText(week, d)) + (if d == 7 then "" else RowsBreak(week, d))
         == DaysText(week, 7)
    decreases 7 - d
  {
    hide DayText, DayName, ActivePrefix, KeySource, Source, DaysText, DayRows;
    if d < 7 {
      RowsBehind(week, d + 1);
      DayLine(week, d);
      OneMoreDay(week, d);
    }
  }

  // The rows from d on, without the line break in front of the first.
  function RowsBreak(week: Week, d: nat): string
    requires d < 7
    decreases 7 - d
  {
    DayText(DayName(d), ActivePrefix(week[d])) + (if d < 6 then "," else "") + "\n"
    + if d == 6 then "" else RowsBreak(week, d + 1)
  }

  lemma OneMoreDay(week: Week, d: nat)
    requires d < 7
    ensures (if d == 0 then "" else DaysText(week, d)) + RowsBreak(week, d)
         == DaysText(week, d + 1) + if d == 6 then "" else RowsBreak(week, d + 1)
  {
    hide DayText, DayName, ActivePrefix;
  }

  lemma {:induction false} DayRowsSource(week: Week, d: nat)
    requires d < 7
    ensures RowsSource(DayRows(week, d)) == (if d == 0 then "" else "\n") + RowsBreak(week, d)
    decreases 7 - d
  {
    hide DayText, DayName, ActivePrefix, KeySource, Source, ListOf, DayKey, RowsSource, RowsBreak;
    DayLine(week, d);
    RowsSourceOnce(DayRows(week, d));
    RowsBreakOnce(week, d);
    var lead, line := if d == 0 then "" else "\n", DayText(DayName(d), ActivePrefix(week[d]));
    if d < 6 {
      DayRowsSource(week, d + 1);
      assert DayRows(week, d).rest.Row?;
      JoinRows(lead, line, RowsBreak(week, d + 1));
    } else {
      JoinRows(lead, line, "");
    }
  }

  lemma RowsBreakOnce(week: Week, d: nat)
    requires d < 7
    ensures RowsBreak(week, d)
         == DayText(DayName(d), ActivePrefix(week[d])) + (if d < 6 then "," else "") + "\n"
            + if d == 6 then "" else RowsBreak(week, d + 1)
  {
  }

  lemma JoinRows(lead: string, line: string, rest: string)
    ensures (lead + line + "") + ("," + ("\n" + rest)) == lead + (line + "," + "\n" + rest)
    ensures (lead + line + "\n") + "" == lead + (line + "" + "\n" + "")
  {
  }

  lemma RowsSourceOnce(rows: Rows)
    requires rows.Row?
    ensures RowsSource(rows)
         == (KeySource(rows.key) + Source(rows.value))
            + if rows.rest.NoRows? then "" else "," + RowsSource(rows.rest)
  {
    hide KeySource, Source;
  }

  lemma PrintedWeekIsValue(week: Week)
    ensures Source(WeekValue(week)) == "{" + DaysText(week, 7) + "}"
  {
    hide DayRows, DaysText, RowsBreak, RowsSource;
    RowsBehind(week, 0);
    DayRowsSource(week, 0);
  }

  lemma {:induction false} DayRowsAreProper(week: Week, d: nat)
    requires d <= 7
    ensures ProperRows(DayRows(week, d))
    decreases 7 - d
  {
    hide Items, ActivePrefix, DayName, Plain, Quotable;
    if d < 7 {
      DayRowsAreProper(week, d + 1);
      DayNameIsPlain(d);
      PlainIsQuotable(DayName(d));
      var slots := ActivePrefix(week[d]);
      forall i | 0 <= i < |AllValues(slots)| ensures Numerals(AllValues(slots)[i]) {
        NumbersArePrinted(slots[i]);
      }
      ItemsAreProper(AllValues(slots));
      assert ProperLeaf(DayKey(d)) && Proper(ListOf(week, d));
    }
  }

  // The tokens in front of day d: the object, and name, list and seven a slot for each day before.
  function FirstToken(week: Week, d: nat): nat
    requires d <= 7
  {
    if d == 0 then 1 else FirstToken(week, d - 1) + 2 + 7 * |ActivePrefix(week[d - 1])|
  }

  lemma DayRowTexts(week: Week, d: nat)
    requires d < 7
    ensures var vs := AllValues(ActivePrefix(week[d]));
            RowTexts(DayRows(week, d))
            == [DayName(d), Texts(ListOf(week, d))[0]] + RowTexts(Items(vs)) + RowTexts(DayRows(week, d + 1))
  {
    hide Items, ActivePrefix, DayName, RowTexts, RowsSource, AllValues;
    RowAndRestTexts(DayRows(week, d));
    var vs := AllValues(ActivePrefix(week[d]));
    assert Texts(ListOf(week, d)) == [Texts(ListOf(week, d))[0]] + RowTexts(Items(vs));
    assert KeyTexts(Some(DayKey(d))) == [DayName(d)];
  }

  // The texts of the rows from d on stand behind the tokens of the days before.
  lemma {:induction false} DayTextsAt(week: Week, d: nat)
    requires d <= 7
    ensures |Texts(WeekValue(week))| == FirstToken(week, d) + |RowTexts(DayRows(week, d))|
    ensures Texts(WeekValue(week))[FirstToken(week, d)..] == RowTexts(DayRows(week, d))
  {
    hide Items, ActivePrefix, DayName, RowTexts, RowsSource, AllValues, DayRows;
    var all := Texts(WeekValue(week));
    if d == 0 {
      assert all[1..] == RowTexts(DayRows(week, 0));
    } else {
      DayTextsAt(week, d - 1);
      DayRowTexts(week, d - 1);
      var vs := AllValues(ActivePrefix(week[d - 1]));
      AllValuesLength(ActivePrefix(week[d - 1]));
      ItemsTexts(vs, 0);
      var base, n := FirstToken(week, d - 1), 2 + 7 * |vs|;
      assert all[base..][n..] == all[base + n..];
    }
  }

  // What a client makes of the printed week: with room for all its nodes jsmn finds, for each day in
  // order, its name, the list and the three named numbers of each slot in use.
  ghost predicate ShowsDay(js: string, tokens: seq<Token>, week: Week, d: nat)
    requires d < 7
  {
    var n, slots := FirstToken(week, d), ActivePrefix(week[d]);
    && n + 1 < |tokens| && Names(Text(js, tokens[n]), d)
    && ShowsItems(js, tokens, n + 2, AllValues(slots))
  }

  lemma Slice(all: seq<string>, n: nat, i: nat, j: nat)
    requires n + j <= |all| && i <= j
    ensures all[n..][i..j] == all[n + i..n + j]
  {
  }

  lemma DayIsShown(js: string, tokens: seq<Token>, week: Week, d: nat)
    requires d < 7 && Covers(js, tokens, Texts(WeekValue(week)))
    ensures ShowsDay(js, tokens, week, d)
  {
    hide Items, ActivePrefix, RowTexts, AllValues, DayRows, Covers, ShowsItems, Texts, FirstToken, Text;
    var all, n, vs := Texts(WeekValue(week)), FirstToken(week, d), AllValues(ActivePrefix(week[d]));
    DayTextsAt(week, d);
    DayRowTexts(week, d);
    var list := RowTexts(Items(vs));
    assert all[n..][0] == all[n] == DayName(d);
    assert all[n..][2..2 + |list|] == list;
    Slice(all, n, 2, 2 + |list|);
    CoveredText(js, tokens, all, n);
    SameLength(js, tokens, all);
    ListCovered(js, tokens, all, n + 2, vs);
    assert Names(DayName(d), d);
  }

  lemma WeekIsShown(week: Week, room: nat, outside: nat -> Kind) returns (tokens: seq<Token>)
    requires FirstToken(week, 7) <= room
    ensures var js := "{" + DaysText(week, 7) + "}";
            && Call(js, FRESH, room, outside).code == FirstToken(week, 7) == |tokens|
            && Call(js, FRESH, room, outside).state.tokens == tokens
            && forall d :: 0 <= d < 7 ==> ShowsDay(js, tokens, week, d)
  {
    hide DaysText, DayRows, Source, Tokens, Texts, FirstToken, ShowsDay, Covers, RowTexts;
    var js, t := "{" + DaysText(week, 7) + "}", WeekValue(week);
    PrintedWeekIsValue(week);
    DayRowsAreProper(week, 0);
    WholeText(js);
    TokensShowTexts(js, 0, t);
    tokens := Tokens(t, 0);
    SameLength(js, tokens, Texts(t));
    DayTextsAt(week, 7);
    assert DayRows(week, 7) == NoRows by {
      NoDayLeft(week);
    }
    NoTexts();
    ValueIsTokenized(t, room, outside);
    forall d | 0 <= d < 7 ensures ShowsDay(js, tokens, week, d) {
      DayIsShown(js, tokens, week, d);
    }
  }

  lemma NoDayLeft(week: Week)
    ensures DayRows(week, 7) == NoRows
  {
  }
}
