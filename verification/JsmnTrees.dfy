// What jsmn (firmware/user/jsmn.c) makes of a well-formed text: for every JSON value, with blanks
// anywhere between its parts, the tokens are its nodes in preorder, each with its range and size.
module JsmnTrees {
  import opened Wrappers
  import opened JsmnModel
  import opened JsmnProofs

  // ------------------------------------------------------------------ text at a position

  ghost predicate TextAt(js: string, p: nat, s: string) {
    p + |s| <= |js| && forall i :: 0 <= i < |s| ==> js[p + i] == s[i]
  }

  lemma SplitText(js: string, p: nat, a: string, b: string)
    requires TextAt(js, p, a + b)
    ensures TextAt(js, p, a) && TextAt(js, p + |a|, b)
  {
    var s := a + b;
    assert forall i :: 0 <= i < |a| ==> s[i] == a[i];
    assert forall i :: 0 <= i < |b| ==> s[|a| + i] == b[i];
    forall i | 0 <= i < |b| ensures js[p + |a| + i] == b[i] {
      assert js[p + (|a| + i)] == s[|a| + i];
    }
  }

  lemma CharAt(js: string, p: nat, s: string, i: nat)
    requires TextAt(js, p, s) && i < |s|
    ensures p + i < |js| && js[p + i] == s[i]
  {
  }

  // ------------------------------------------------------------------ values

  // A string or primitive; `text` is what its token covers.
  datatype Leaf = Leaf(lead: string, kind: Kind, text: string, trail: string)

  // jsmn does not mind keys in an array or their absence in an object.
  datatype Json = Single(leaf: Leaf) | Box(lead: string, kind: Kind, gap: string, rows: Rows, trail: string)
  datatype Rows = NoRows | Row(key: Option<Leaf>, value: Json, rest: Rows)

  // White space of JSON.
  predicate Blanks(s: string) {
    forall i :: 0 <= i < |s| ==> s[i] in " \t\r\n"
  }

  // The inside of a string: any characters, and the escapes of JSON.
  predicate Quotable(s: string) {
    s == "" ||
    (if s[0] != '\\' then s[0] != '\0' && s[0] != '\"' && Quotable(s[1..])
     else if |s| >= 2 && s[1] in "\"\\/bfnrt" then Quotable(s[2..])
     else |s| >= 6 && s[1] == 'u' && (forall i :: 2 <= i < 6 ==> s[i] in "0123456789abcdefABCDEF") && Quotable(s[6..]))
  }

  // Not in quotes: printable ASCII without white space and without the characters that end it, and
  // not begun by one that means something else.
  predicate Bare(s: string) {
    s != "" && s[0] !in "{[\"" && forall i :: 0 <= i < |s| ==> ' ' < s[i] <= '~' && s[i] !in ":,]}"
  }

  predicate ProperLeaf(l: Leaf) {
    Blanks(l.lead) && Blanks(l.trail) && ((l.kind == Str && Quotable(l.text)) || (l.kind == Primitive && Bare(l.text)))
  }

  predicate Proper(t: Json) {
    match t
    case Single(leaf) => ProperLeaf(leaf)
    case Box(lead, kind, gap, rows, trail) =>
      Blanks(lead) && Blanks(gap) && Blanks(trail) && (kind == Object || kind == Array) && ProperRows(rows)
  }

  predicate ProperRows(r: Rows) {
    match r
    case NoRows => true
    case Row(key, value, rest) => (key.Some? ==> ProperLeaf(key.value)) && Proper(value) && ProperRows(rest)
  }

  // ------------------------------------------------------------------ their text

  function Quotes(l: Leaf): string {
    if l.kind == Str then "\"" else ""
  }

  function LeafSource(l: Leaf): string {
    l.lead + (Quotes(l) + (l.text + (Quotes(l) + l.trail)))
  }

  function Opener(kind: Kind): string {
    if kind == Object then "{" else "["
  }

  function Closer(kind: Kind): string {
    if kind == Object then "}" else "]"
  }

  function Source(t: Json): string {
    match t
    case Single(leaf) => LeafSource(leaf)
    case Box(lead, kind, gap, rows, trail) =>
      lead + (Opener(kind) + (gap + (RowsSource(rows) + (Closer(kind) + trail))))
  }

  function KeySource(key: Option<Leaf>): string {
    if key.None? then "" else LeafSource(key.value) + ":"
  }

  function RowsSource(r: Rows): string {
    match r
    case NoRows => ""
    case Row(key, value, rest) =>
      KeySource(key) + (Source(value) + if rest.NoRows? then "" else "," + RowsSource(rest))
  }

  // ------------------------------------------------------------------ their tokens

  function Length(r: Rows): nat {
    if r.NoRows? then 0 else 1 + Length(r.rest)
  }

  function KeyNodes(key: Option<Leaf>): nat {
    if key.None? then 0 else 1
  }

  function Nodes(t: Json): nat {
    if t.Single? then 1 else 1 + RowNodes(t.rows)
  }

  function RowNodes(r: Rows): nat {
    match r
    case NoRows => 0
    case Row(key, value, rest) => KeyNodes(key) + Nodes(value) + RowNodes(rest)
  }

  // The token of a leaf whose text begins at p.
  function LeafToken(l: Leaf, p: nat, size: nat): (t: Token)
    ensures !Open(t) && t.kind == l.kind
  {
    var start := p + |l.lead| + |Quotes(l)|;
    Token(l.kind, start, start + |l.text|, size)
  }

  // A key has one value.
  function KeyTokens(key: Option<Leaf>, p: nat): (r: seq<Token>)
    ensures |r| == KeyNodes(key) && forall i :: 0 <= i < |r| ==> !Open(r[i])
  {
    if key.None? then [] else [LeafToken(key.value, p, 1)]
  }

  // The tokens of a value whose text begins at p: a container comes before its parts, and its
  // size is the number of its rows.
  function Tokens(t: Json, p: nat): (r: seq<Token>)
    ensures |r| == Nodes(t) && forall i :: 0 <= i < |r| ==> !Open(r[i])
  {
    match t
    case Single(leaf) => [LeafToken(leaf, p, 0)]
    case Box(lead, kind, gap, rows, trail) =>
      [Token(kind, p + |lead|, p + |Source(t)| - |trail|, Length(rows))] + RowTokens(rows, p + |lead| + 1 + |gap|)
  }

  function RowTokens(r: Rows, p: nat): (s: seq<Token>)
    ensures |s| == RowNodes(r) && forall i :: 0 <= i < |s| ==> !Open(s[i])
  {
    match r
    case NoRows => []
    case Row(key, value, rest) =>
      var q := p + |KeySource(key)|;
      KeyTokens(key, p) + (Tokens(value, q) + RowTokens(rest, q + |Source(value)| + 1))
  }

  // ------------------------------------------------------------------ stretches of a run

  // The text, the room for tokens, and what a comma outside every container reads.
  datatype Run = Run(js: string, room: nat, outside: nat -> Kind)

  // From a the run reaches b.
  ghost predicate Leads(run: Run, a: State, b: State) {
    Parse(run.js, a, run.room, run.outside) == Parse(run.js, b, run.room, run.outside)
  }

  lemma OneStep(run: Run, st: State, next: State)
    requires !AtEnd(run.js, st.pos) && Step(run.js, st, run.room, run.outside) == More(next)
    ensures Leads(run, st, next)
  {
    hide Step;
    StepAdvances(run.js, st, run.room, run.outside);
  }

  lemma {:induction false} TakeBlanks(run: Run, st: State, s: string)
    requires Blanks(s) && TextAt(run.js, st.pos, s)
    ensures Leads(run, st, st.(pos := st.pos + |s|))
    decreases |s|
  {
    hide Parse;
    if s != "" {
      assert s == [s[0]] + s[1..];
      SplitText(run.js, st.pos, [s[0]], s[1..]);
      CharAt(run.js, st.pos, [s[0]], 0);
      assert ActionOf(run.js[st.pos]) == Space;
      OneStep(run, st, st.(pos := st.pos + 1));
      TakeBlanks(run, st.(pos := st.pos + 1), s[1..]);
    }
  }

  lemma TakeColon(run: Run, st: State)
    requires TextAt(run.js, st.pos, ":")
    ensures Leads(run, st, st.(pos := st.pos + 1, toksuper := |st.tokens| - 1))
  {
    CharAt(run.js, st.pos, ":", 0);
    assert ActionOf(run.js[st.pos]) == Colon;
    OneStep(run, st, st.(pos := st.pos + 1, toksuper := |st.tokens| - 1));
  }

  // The innermost open container is token `top`.
  ghost predicate OnTop(tokens: seq<Token>, top: nat) {
    top < |tokens| && Open(tokens[top]) && Container(tokens[top]) && forall j :: top < j < |tokens| ==> !Open(tokens[j])
  }

  lemma OnTopIsLastOpen(tokens: seq<Token>, top: nat)
    requires OnTop(tokens, top)
    ensures LastOpen(tokens, |tokens|) == top && LastOpenContainer(tokens, |tokens|) == top
  {
  }

  // A comma leaves the parser on the innermost open container.
  lemma TakeComma(run: Run, st: State, top: nat)
    requires TextAt(run.js, st.pos, ",") && OnTop(st.tokens, top)
    requires st.toksuper == top || (0 <= st.toksuper < |st.tokens| && !Container(st.tokens[st.toksuper]))
    ensures Leads(run, st, st.(pos := st.pos + 1, toksuper := top))
  {
    CharAt(run.js, st.pos, ",", 0);
    OnTopIsLastOpen(st.tokens, top);
    assert ActionOf(run.js[st.pos]) == Separator;
    OneStep(run, st, st.(pos := st.pos + 1, toksuper := top));
  }

  // ------------------------------------------------------------------ leaves

  lemma {:induction false} HexDigits(js: string, p: nat, n: nat)
    requires p + n <= |js| && forall i :: p <= i < p + n ==> Hex(js[i])
    ensures HexEnd(js, p, n) == Reached(p + n)
    decreases n
  {
    if n > 0 {
      HexDigits(js, p + 1, n - 1);
    }
  }

  lemma EscapeIs(c: char)
    ensures SimpleEscape(c) <==> c in "\"\\/bfnrt"
  {
  }

  lemma HexIs(c: char)
    ensures Hex(c) <==> c in "0123456789abcdefABCDEF"
  {
  }

  lemma {:induction false} QuotableEnd(js: string, p: nat, s: string)
    requires Quotable(s) && TextAt(js, p, s) && p + |s| < |js| && js[p + |s|] == '\"'
    ensures StringEnd(js, p) == Reached(p + |s|)
    decreases |s|
  {
    hide HexEnd, SimpleEscape, Hex, TextAt;
    if s != "" {
      CharAt(js, p, s, 0);
      if s[0] != '\\' {
        QuotableRest(js, p, s, 1);
        QuotableEnd(js, p + 1, s[1..]);
      } else {
        CharAt(js, p, s, 1);
        EscapeIs(s[1]);
        if SimpleEscape(s[1]) {
          QuotableRest(js, p, s, 2);
          QuotableEnd(js, p + 2, s[2..]);
        } else {
          QuotableRest(js, p, s, 6);
          FourDigits(js, p, s);
          QuotableEnd(js, p + 6, s[6..]);
        }
      }
    }
  }

  lemma QuotableRest(js: string, p: nat, s: string, n: nat)
    requires TextAt(js, p, s) && n <= |s|
    ensures TextAt(js, p + n, s[n..]) && p + n + |s[n..]| == p + |s|
  {
    assert s == s[..n] + s[n..];
    SplitText(js, p, s[..n], s[n..]);
  }

  lemma FourDigits(js: string, p: nat, s: string)
    requires TextAt(js, p, s) && |s| >= 6 && forall i :: 2 <= i < 6 ==> s[i] in "0123456789abcdefABCDEF"
    ensures HexEnd(js, p + 2, 4) == Reached(p + 6)
  {
    hide Hex, HexEnd;
    forall i | p + 2 <= i < p + 6 ensures Hex(js[i]) {
      CharAt(js, p, s, i - p);
      HexIs(js[i]);
    }
    HexDigits(js, p + 2, 4);
  }

  // Nothing that goes on with a primitive stands at p.
  predicate Stops(js: string, p: nat) {
    AtEnd(js, p) || EndsPrimitive(js[p])
  }

  lemma {:induction false} BareEnd(js: string, p: nat, n: nat)
    requires p + n <= |js| && Stops(js, p + n)
    requires forall i :: p <= i < p + n ==> Printable(js[i]) && !EndsPrimitive(js[i])
    ensures PrimitiveEnd(js, p) == Reached(p + n)
    decreases n
  {
    if n > 0 {
      BareEnd(js, p + 1, n - 1);
    }
  }

  lemma BlanksStop(js: string, p: nat, s: string)
    requires Blanks(s) && TextAt(js, p, s) && Stops(js, p + |s|)
    ensures Stops(js, p)
  {
    if s != "" {
      CharAt(js, p, s, 0);
    }
  }

  // A string without the blanks around it.
  lemma TakeString(run: Run, st: State, s: string)
    requires TextAt(run.js, st.pos, "\"") && TextAt(run.js, st.pos + 1, s) && TextAt(run.js, st.pos + 1 + |s|, "\"")
    requires Quotable(s) && |st.tokens| < run.room
    ensures Leads(run, st, Filled(st, Token(Str, st.pos + 1, st.pos + 1 + |s|, 0), st.pos + |s| + 2))
  {
    hide Quotable, TextAt, Filled;
    CharAt(run.js, st.pos, "\"", 0);
    CharAt(run.js, st.pos + 1 + |s|, "\"", 0);
    QuotableEnd(run.js, st.pos + 1, s);
    assert ActionOf(run.js[st.pos]) == Quote;
    OneStep(run, st, Filled(st, Token(Str, st.pos + 1, st.pos + 1 + |s|, 0), st.pos + |s| + 2));
  }

  lemma TakeBare(run: Run, st: State, s: string)
    requires TextAt(run.js, st.pos, s) && Bare(s) && Stops(run.js, st.pos + |s|) && |st.tokens| < run.room
    ensures Leads(run, st, Filled(st, Token(Primitive, st.pos, st.pos + |s|, 0), st.pos + |s|))
  {
    hide Filled;
    CharAt(run.js, st.pos, s, 0);
    forall i | st.pos <= i < st.pos + |s| ensures Printable(run.js[i]) && !EndsPrimitive(run.js[i]) {
      CharAt(run.js, st.pos, s, i - st.pos);
    }
    BareEnd(run.js, st.pos, |s|);
    assert ActionOf(run.js[st.pos]) == Value;
    OneStep(run, st, Filled(st, Token(Primitive, st.pos, st.pos + |s|, 0), st.pos + |s|));
  }

  // What a leaf leaves: one more token, counted in the super token.
  function AfterLeaf(st: State, l: Leaf): State {
    State(st.pos + |LeafSource(l)|, Bump(st.tokens, st.toksuper) + [LeafToken(l, st.pos, 0)], st.toksuper, st.count + 1)
  }

  lemma FilledLeaf(st: State, t: Token, p: nat)
    requires st.toksuper < |st.tokens|
    ensures Filled(st, t, p) == State(p, Bump(st.tokens, st.toksuper) + [t], st.toksuper, st.count + 1)
  {
  }

  lemma LeafParts(js: string, p: nat, l: Leaf) returns (start: nat, end: nat)
    requires TextAt(js, p, LeafSource(l))
    ensures start == p + |l.lead| + |Quotes(l)| && end == start + |l.text|
    ensures TextAt(js, p, l.lead) && TextAt(js, p + |l.lead|, Quotes(l)) && TextAt(js, start, l.text)
    ensures TextAt(js, end, Quotes(l)) && TextAt(js, end + |Quotes(l)|, l.trail)
    ensures end + |Quotes(l)| + |l.trail| == p + |LeafSource(l)|
  {
    hide TextAt, Quotes;
    var q := Quotes(l);
    start, end := p + |l.lead| + |q|, p + |l.lead| + |q| + |l.text|;
    SplitText(js, p, l.lead, q + (l.text + (q + l.trail)));
    SplitText(js, p + |l.lead|, q, l.text + (q + l.trail));
    SplitText(js, start, l.text, q + l.trail);
    SplitText(js, end, q, l.trail);
  }

  lemma TakeLeaf(run: Run, st: State, l: Leaf)
    requires ProperLeaf(l) && TextAt(run.js, st.pos, LeafSource(l)) && Stops(run.js, st.pos + |LeafSource(l)|)
    requires st.toksuper < |st.tokens| < run.room
    ensures Leads(run, st, AfterLeaf(st, l))
  {
    hide TextAt, Blanks, Quotable, Bare, Stops, Filled, Parse, LeafSource;
    var start, end := LeafParts(run.js, st.pos, l);
    TakeBlanks(run, st, l.lead);
    var a := st.(pos := st.pos + |l.lead|);
    var b := AfterLeaf(st, l).(pos := end + |Quotes(l)|);
    FilledLeaf(a, LeafToken(l, st.pos, 0), b.pos);
    if l.kind == Str {
      TakeString(run, a, l.text);
    } else {
      BlanksStop(run.js, end, l.trail);
      TakeBare(run, a, l.text);
    }
    TakeBlanks(run, b, l.trail);
  }

  // ------------------------------------------------------------------ containers

  // Which tokens are open is decided by their ranges.
  ghost predicate SameRanges(a: seq<Token>, b: seq<Token>, n: nat) {
    n <= |a| && n <= |b| && forall i :: 0 <= i < n ==> a[i].start == b[i].start && a[i].end == b[i].end
  }

  lemma {:induction false} SameLastOpen(a: seq<Token>, b: seq<Token>, n: nat)
    requires SameRanges(a, b, n)
    ensures LastOpen(a, n) == LastOpen(b, n)
  {
    if n > 0 {
      SameLastOpen(a, b, n - 1);
    }
  }

  lemma BumpKeepsRanges(tokens: seq<Token>, super: int)
    ensures SameRanges(Bump(tokens, super), tokens, |tokens|)
    ensures forall i :: 0 <= i < |tokens| ==> Bump(tokens, super)[i].kind == tokens[i].kind
  {
  }

  lemma TakeOpening(run: Run, st: State, kind: Kind)
    requires TextAt(run.js, st.pos, Opener(kind)) && |st.tokens| < run.room && (kind == Object || kind == Array)
    ensures Leads(run, st, OpenContainer(st, kind))
  {
    CharAt(run.js, st.pos, Opener(kind), 0);
    assert ActionOf(run.js[st.pos]) == Opening(kind);
    OneStep(run, st, OpenContainer(st, kind));
  }

  lemma BoxOnTop(before: seq<Token>, t: Token, parts: seq<Token>)
    requires Container(t) && Open(t) && forall i :: 0 <= i < |parts| ==> !Open(parts[i])
    ensures OnTop(before + ([t] + parts), |before|)
  {
    var all := before + ([t] + parts);
    assert all[|before|] == t;
    forall j | |before| < j < |all| ensures !Open(all[j]) {
      assert all[j] == parts[j - |before| - 1];
    }
  }

  lemma CloseTop(st: State, top: nat)
    requires OnTop(st.tokens, top)
    ensures var closed := st.tokens[top := st.tokens[top].(end := st.pos + 1)];
            CloseContainer(st, st.tokens[top].kind) == More(State(st.pos + 1, closed, LastOpen(closed, top), st.count))
  {
    OnTopIsLastOpen(st.tokens, top);
  }

  // before + [container] + parts, with the container closed.
  lemma TakeClosing(run: Run, st: State, before: seq<Token>, t: Token, parts: seq<Token>)
    requires TextAt(run.js, st.pos, Closer(t.kind)) && Container(t) && Open(t)
    requires st.tokens == before + ([t] + parts) && forall i :: 0 <= i < |parts| ==> !Open(parts[i])
    ensures Leads(run, st, State(st.pos + 1, before + ([t.(end := st.pos + 1)] + parts),
                                 LastOpen(before, |before|), st.count))
  {
    hide OnTop, Parse, LastOpen, CloseContainer;
    var top, closed := |before|, before + ([t.(end := st.pos + 1)] + parts);
    BoxOnTop(before, t, parts);
    CloseTop(st, top);
    assert st.tokens[top := t.(end := st.pos + 1)] == closed;
    SameLastOpen(closed, before, top);
    CharAt(run.js, st.pos, Closer(t.kind), 0);
    assert ActionOf(run.js[st.pos]) == Closing(t.kind);
    OneStep(run, st, State(st.pos + 1, closed, LastOpen(closed, top), st.count));
  }

  // ------------------------------------------------------------------ a whole value

  function SuperAfter(st: State, t: Json): int {
    if t.Single? then st.toksuper else LastOpen(st.tokens, |st.tokens|)
  }

  // What a value leaves: its tokens behind those before, itself counted in the super token.
  function After(st: State, t: Json): State {
    State(st.pos + |Source(t)|, Bump(st.tokens, st.toksuper) + Tokens(t, st.pos),
          SuperAfter(st, t), st.count + Nodes(t))
  }

  lemma BoxParts(js: string, p: nat, t: Json) returns (inside: nat, end: nat)
    requires t.Box? && TextAt(js, p, Source(t))
    ensures inside == p + |t.lead| + 1 + |t.gap| && end == inside + |RowsSource(t.rows)|
    ensures TextAt(js, p, t.lead) && TextAt(js, p + |t.lead|, Opener(t.kind)) && TextAt(js, p + |t.lead| + 1, t.gap)
    ensures TextAt(js, inside, RowsSource(t.rows)) && TextAt(js, end, Closer(t.kind)) && TextAt(js, end + 1, t.trail)
    ensures end + 1 + |t.trail| == p + |Source(t)|
  {
    hide TextAt, RowsSource;
    var rest := RowsSource(t.rows) + (Closer(t.kind) + t.trail);
    inside, end := p + |t.lead| + 1 + |t.gap|, p + |t.lead| + 1 + |t.gap| + |RowsSource(t.rows)|;
    SplitText(js, p, t.lead, Opener(t.kind) + (t.gap + rest));
    SplitText(js, p + |t.lead|, Opener(t.kind), t.gap + rest);
    SplitText(js, p + |t.lead| + 1, t.gap, rest);
    SplitText(js, inside, RowsSource(t.rows), Closer(t.kind) + t.trail);
    SplitText(js, end, Closer(t.kind), t.trail);
  }

  // From a state of which a container is on top and counts what comes, the rows between brackets
  // add their tokens and are counted.
  ghost predicate RowsDone(st: State, rows: Rows, top: nat, next: State)
    requires top < |st.tokens|
  {
    && next.pos == st.pos + |RowsSource(rows)| && next.count == st.count + RowNodes(rows)
    && next.tokens == st.tokens[top := st.tokens[top].(size := st.tokens[top].size + Length(rows))]
                      + RowTokens(rows, st.pos)
  }

  // From behind the opening bracket to behind the closing one.
  lemma TakeInside(run: Run, st: State, t: Token, rows: Rows, before: seq<Token>, end: nat)
    requires ProperRows(rows) && TextAt(run.js, st.pos, RowsSource(rows)) && end == st.pos + |RowsSource(rows)|
    requires TextAt(run.js, end, Closer(t.kind)) && Container(t) && Open(t) && t.size == 0
    requires st.tokens == before + [t] && st.toksuper == |before| && |st.tokens| + RowNodes(rows) <= run.room
    ensures Leads(run, st, State(end + 1,
                                 before + ([Token(t.kind, t.start, end + 1, Length(rows))] + RowTokens(rows, st.pos)),
                                 LastOpen(before, |before|), st.count + RowNodes(rows)))
    decreases rows, 5
  {
    hide TextAt, Parse, RowsSource, ProperRows, RowTokens;
    CloserStops(run.js, end, t.kind);
    var done := TakeRows(run, st, rows, |before|);
    var box, parts := t.(size := Length(rows)), RowTokens(rows, st.pos);
    assert done.tokens == before + ([box] + parts);
    TakeClosing(run, done, before, box, parts);
  }

  lemma TakeBox(run: Run, st: State, t: Json)
    requires t.Box? && Proper(t) && TextAt(run.js, st.pos, Source(t))
    requires st.toksuper < |st.tokens| && |st.tokens| + Nodes(t) <= run.room
    ensures Leads(run, st, After(st, t))
    decreases t, 0
  {
    hide TextAt, Blanks, Parse, RowsSource, ProperRows, RowTokens, Bump;
    var inside, end := BoxParts(run.js, st.pos, t);
    var before, open := Bump(st.tokens, st.toksuper), Token(t.kind, st.pos + |t.lead|, -1, 0);
    TakeBlanks(run, st, t.lead);
    TakeOpening(run, st.(pos := open.start), t.kind);
    var b := State(open.start + 1, before + [open], |before|, st.count + 1);
    TakeBlanks(run, b, t.gap);
    TakeInside(run, b.(pos := inside), open, t.rows, before, end);
    BumpKeepsRanges(st.tokens, st.toksuper);
    SameLastOpen(before, st.tokens, |before|);
    TakeBlanks(run, After(st, t).(pos := end + 1), t.trail);
  }

  lemma TakeValue(run: Run, st: State, t: Json)
    requires Proper(t) && TextAt(run.js, st.pos, Source(t)) && Stops(run.js, st.pos + |Source(t)|)
    requires st.toksuper < |st.tokens| && |st.tokens| + Nodes(t) <= run.room
    ensures Leads(run, st, After(st, t))
    decreases t, 1
  {
    hide TextAt, Parse, LeafSource, Stops, ProperLeaf;
    if t.Single? {
      TakeLeaf(run, st, t.leaf);
    } else {
      TakeBox(run, st, t);
    }
  }

  // A key and its colon make the key the super token.
  lemma TakeKey(run: Run, st: State, l: Leaf)
    requires ProperLeaf(l) && TextAt(run.js, st.pos, LeafSource(l) + ":")
    requires st.toksuper < |st.tokens| < run.room
    ensures Leads(run, st, State(st.pos + |LeafSource(l)| + 1, Bump(st.tokens, st.toksuper) + [LeafToken(l, st.pos, 0)],
                                 |st.tokens|, st.count + 1))
  {
    hide Parse, LeafSource, ProperLeaf;
    SplitText(run.js, st.pos, LeafSource(l), ":");
    CharAt(run.js, st.pos + |LeafSource(l)|, ":", 0);
    TakeLeaf(run, st, l);
    TakeColon(run, AfterLeaf(st, l));
  }

  // A value of the open container `top`, and a value with its key.
  ghost predicate RowDone(st: State, key: Option<Leaf>, value: Json, top: nat, next: State) {
    && next.pos == st.pos + |KeySource(key)| + |Source(value)| && next.count == st.count + KeyNodes(key) + Nodes(value)
    && next.tokens == Bump(st.tokens, top) + (KeyTokens(key, st.pos) + Tokens(value, st.pos + |KeySource(key)|))
    && OnTop(next.tokens, top)
    && (next.toksuper == top || (0 <= next.toksuper < |next.tokens| && !Container(next.tokens[next.toksuper])))
  }

  // Closed tokens behind, and one more in a size, leave the same container on top.
  lemma StillOnTop(tokens: seq<Token>, top: nat, more: seq<Token>)
    requires OnTop(tokens, top) && forall i :: 0 <= i < |more| ==> !Open(more[i])
    ensures OnTop(Bump(tokens, top) + more, top)
  {
    BumpKeepsRanges(tokens, top);
  }

  lemma TakePlainRow(run: Run, st: State, value: Json, top: nat)
    requires Proper(value) && TextAt(run.js, st.pos, Source(value)) && Stops(run.js, st.pos + |Source(value)|)
    requires OnTop(st.tokens, top) && st.toksuper == top && |st.tokens| + Nodes(value) <= run.room
    ensures Leads(run, st, After(st, value)) && RowDone(st, None, value, top, After(st, value))
    decreases value, 2
  {
    hide TextAt, Parse, Proper, Source, Stops, Tokens;
    TakeValue(run, st, value);
    OnTopIsLastOpen(st.tokens, top);
    StillOnTop(st.tokens, top, Tokens(value, st.pos));
  }

  lemma LeafIsNoContainer(l: Leaf, p: nat, size: nat)
    requires ProperLeaf(l)
    ensures !Container(LeafToken(l, p, size))
  {
  }

  lemma TakePair(run: Run, st: State, key: Leaf, value: Json, top: nat) returns (next: State)
    requires ProperLeaf(key) && Proper(value)
    requires TextAt(run.js, st.pos, KeySource(Some(key)))
    requires TextAt(run.js, st.pos + |KeySource(Some(key))|, Source(value))
    requires Stops(run.js, st.pos + |KeySource(Some(key))| + |Source(value)|)
    requires OnTop(st.tokens, top) && st.toksuper == top && |st.tokens| + 1 + Nodes(value) <= run.room
    ensures Leads(run, st, next) && RowDone(st, Some(key), value, top, next)
    decreases value, 2
  {
    hide TextAt, Parse, LeafSource, ProperLeaf, Proper, Source, Stops, Tokens, LeafToken;
    var unused, used := LeafToken(key, st.pos, 0), LeafToken(key, st.pos, 1);
    TakeKey(run, st, key);
    var keyed := Bump(st.tokens, top) + [unused];
    var a := State(st.pos + |KeySource(Some(key))|, keyed, |st.tokens|, st.count + 1);
    TakeValue(run, a, value);
    next := After(a, value);
    KeyIsUsed(key, st.pos);
    var parts := [used] + Tokens(value, a.pos);
    assert next.tokens == Bump(st.tokens, top) + parts;
    assert KeyTokens(Some(key), st.pos) == [used];
    StillOnTop(st.tokens, top, [unused]);
    OnTopIsLastOpen(keyed, top);
    StillOnTop(st.tokens, top, parts);
    LeafIsNoContainer(key, st.pos, 1);
    assert next.tokens[|st.tokens|] == used;
  }

  lemma KeyIsUsed(l: Leaf, p: nat)
    ensures LeafToken(l, p, 0).(size := 1) == LeafToken(l, p, 1) && LeafToken(l, p, 0).size == 0
  {
  }

  lemma CloserStops(js: string, p: nat, kind: Kind)
    requires TextAt(js, p, Closer(kind))
    ensures Stops(js, p)
  {
    CharAt(js, p, Closer(kind), 0);
  }

  lemma TakeRow(run: Run, st: State, key: Option<Leaf>, value: Json, top: nat) returns (next: State)
    requires (key.Some? ==> ProperLeaf(key.value)) && Proper(value)
    requires TextAt(run.js, st.pos, KeySource(key)) && TextAt(run.js, st.pos + |KeySource(key)|, Source(value))
    requires Stops(run.js, st.pos + |KeySource(key)| + |Source(value)|)
    requires OnTop(st.tokens, top) && st.toksuper == top && |st.tokens| + KeyNodes(key) + Nodes(value) <= run.room
    ensures Leads(run, st, next) && RowDone(st, key, value, top, next)
    decreases value, 3
  {
    hide TextAt, Parse, LeafSource, ProperLeaf, Proper, Source, Stops, RowDone, OnTop;
    if key.None? {
      TakePlainRow(run, st, value, top);
      next := After(st, value);
    } else {
      next := TakePair(run, st, key.value, value, top);
    }
  }

  // One row and then more of them.
  lemma MoreRows(tokens: seq<Token>, top: nat, row: seq<Token>, n: nat, later: seq<Token>)
    requires top < |tokens|
    ensures (Bump(tokens, top) + row)[top := tokens[top].(size := tokens[top].size + 1 + n)] + later
         == tokens[top := tokens[top].(size := tokens[top].size + (1 + n))] + (row + later)
  {
  }

  // The tokens of a row, begun at p, without those of the rows behind it.
  function FirstRow(rows: Rows, p: nat): seq<Token>
    requires rows.Row?
  {
    KeyTokens(rows.key, p) + Tokens(rows.value, p + |KeySource(rows.key)|)
  }

  lemma RowAndRestTokens(rows: Rows, p: nat)
    requires rows.Row?
    ensures RowTokens(rows, p)
         == FirstRow(rows, p) + RowTokens(rows.rest, p + |KeySource(rows.key)| + |Source(rows.value)| + 1)
  {
    hide KeySource, Source, Tokens, KeyTokens;
  }

  lemma RowAndRest(st: State, rows: Rows, top: nat, a: State, next: State)
    requires rows.Row? && rows.rest.Row? && top < |st.tokens| && RowDone(st, rows.key, rows.value, top, a)
    requires RowsDone(a.(pos := a.pos + 1, toksuper := top), rows.rest, top, next)
    ensures RowsDone(st, rows, top, next)
  {
    hide KeySource, Source, Tokens, KeyTokens, RowTokens, OnTop;
    RowAndRestTokens(rows, st.pos);
    MoreRows(st.tokens, top, FirstRow(rows, st.pos), Length(rows.rest), RowTokens(rows.rest, a.pos + 1));
    assert a.tokens[top] == Bump(st.tokens, top)[top];
  }

  lemma LastRow(st: State, rows: Rows, top: nat, next: State)
    requires rows.Row? && rows.rest.NoRows? && top < |st.tokens| && RowDone(st, rows.key, rows.value, top, next)
    ensures RowsDone(st, rows, top, next)
  {
    hide KeySource, Source, Tokens, KeyTokens, OnTop;
    RowAndRestTokens(rows, st.pos);
    assert FirstRow(rows, st.pos) + [] == FirstRow(rows, st.pos);
    assert Length(rows.rest) == 0 == RowNodes(rows.rest);
    assert Bump(st.tokens, top) == st.tokens[top := st.tokens[top].(size := st.tokens[top].size + 1)];
  }

  lemma RowPieces(js: string, p: nat, rows: Rows) returns (q: nat, r: nat)
    requires rows.Row? && TextAt(js, p, RowsSource(rows))
    ensures q == p + |KeySource(rows.key)| && r == q + |Source(rows.value)|
    ensures TextAt(js, p, KeySource(rows.key)) && TextAt(js, q, Source(rows.value))
    ensures rows.rest.Row? ==> TextAt(js, r, ",") && TextAt(js, r + 1, RowsSource(rows.rest))
    ensures r + (if rows.rest.Row? then 1 + |RowsSource(rows.rest)| else 0) == p + |RowsSource(rows)|
  {
    hide TextAt, KeySource, Source;
    var k, v := KeySource(rows.key), Source(rows.value);
    var tail := if rows.rest.NoRows? then "" else "," + RowsSource(rows.rest);
    q, r := p + |k|, p + |k| + |v|;
    SplitText(js, p, k, v + tail);
    SplitText(js, q, v, tail);
    if rows.rest.Row? {
      SplitText(js, r, ",", RowsSource(rows.rest));
    }
  }

  // A comma or the end of the rows stops a primitive.
  lemma RowParts(js: string, p: nat, rows: Rows) returns (q: nat, r: nat)
    requires rows.Row? && TextAt(js, p, RowsSource(rows)) && Stops(js, p + |RowsSource(rows)|)
    ensures q == p + |KeySource(rows.key)| && r == q + |Source(rows.value)|
    ensures TextAt(js, p, KeySource(rows.key)) && TextAt(js, q, Source(rows.value)) && Stops(js, r)
    ensures rows.rest.Row? ==> TextAt(js, r, ",") && TextAt(js, r + 1, RowsSource(rows.rest))
    ensures rows.rest.Row? ==> r + 1 + |RowsSource(rows.rest)| == p + |RowsSource(rows)|
  {
    hide TextAt, KeySource, Source, RowsSource;
    q, r := RowPieces(js, p, rows);
    if rows.rest.Row? {
      CharAt(js, r, ",", 0);
    }
  }

  lemma TakeRows(run: Run, st: State, rows: Rows, top: nat) returns (next: State)
    requires ProperRows(rows) && TextAt(run.js, st.pos, RowsSource(rows))
    requires Stops(run.js, st.pos + |RowsSource(rows)|)
    requires top < |st.tokens| && OnTop(st.tokens, top) && st.toksuper == top
    requires |st.tokens| + RowNodes(rows) <= run.room
    ensures Leads(run, st, next) && RowsDone(st, rows, top, next)
    decreases rows, 4
  {
    hide TextAt, Parse, ProperLeaf, Proper, Source, KeySource, RowsSource, Tokens, KeyTokens, Stops, RowsDone, OnTop;
    if rows.NoRows? {
      next := st;
      NoRowsDone(st, top);
    } else {
      var q, r := RowParts(run.js, st.pos, rows);
      next := TakeRow(run, st, rows.key, rows.value, top);
      if rows.rest.NoRows? {
        LastRow(st, rows, top, next);
      } else {
        var a := next;
        TakeComma(run, a, top);
        next := TakeRows(run, a.(pos := a.pos + 1, toksuper := top), rows.rest, top);
        RowAndRest(st, rows, top, a, next);
      }
    }
  }

  lemma NoRowsDone(st: State, top: nat)
    requires top < |st.tokens|
    ensures RowsDone(st, NoRows, top, st)
  {
  }

  // ------------------------------------------------------------------ one call

  lemma EndOfText(run: Run, t: Json)
    requires run.js == Source(t)
    ensures Parse(run.js, After(FRESH, t), run.room, run.outside) == Result(Nodes(t), After(FRESH, t))
    ensures After(FRESH, t) == State(|Source(t)|, Tokens(t, 0), -1, Nodes(t))
  {
    hide Source, Tokens;
    assert Bump([], -1) == [];
  }

  lemma {:induction false} LargerRunIsTheSame(js: string, st: State, room: nat, larger: nat, outside: nat -> Kind)
    requires room <= larger && Parse(js, st, room, outside).code != NOMEM
    ensures Parse(js, st, larger, outside) == Parse(js, st, room, outside)
    decreases |js| - st.pos
  {
    if !AtEnd(js, st.pos) {
      StepAdvances(js, st, room, outside);
      match Step(js, st, room, outside)
      case Stop(error) =>
      case More(next) => LargerRunIsTheSame(js, next, room, larger, outside);
    }
  }

  // The token theorem: the first call on the text of any value returns the number of its nodes and
  // exactly its tokens, if there is room for them all.
  lemma ValueIsTokenized(t: Json, room: nat, outside: nat -> Kind)
    requires Proper(t) && Nodes(t) <= room
    ensures Call(Source(t), FRESH, room, outside)
         == Result(Nodes(t), State(|Source(t)|, Tokens(t, 0), -1, Nodes(t)))
  {
    hide Proper, Source, Tokens, Parse;
    var run := Run(Source(t), room, outside);
    assert TextAt(run.js, 0, Source(t)) && Stops(run.js, |Source(t)|);
    TakeValue(run, FRESH, t);
    EndOfText(run, t);
  }

  // The exact room: a filling call runs out if and only if there are fewer tokens than nodes, and
  // the counting pass returns their number.
  lemma RoomForItsNodes(t: Json, room: nat, outside: nat -> Kind)
    requires Proper(t)
    ensures Call(Source(t), FRESH, room, outside).code == if Nodes(t) <= room then Nodes(t) else NOMEM
    ensures Count(Source(t), 0, 0) == Nodes(t)
  {
    hide Proper, Source, Tokens, Parse, Count;
    var js := Source(t);
    ValueIsTokenized(t, Nodes(t), outside);
    CountingPassSizesTheArray(js, Nodes(t), outside);
    FreshCall(js, room, outside);
    if Nodes(t) <= room {
      ValueIsTokenized(t, room, outside);
    } else if Call(js, FRESH, room, outside).code != NOMEM {
      LargerRunIsTheSame(js, FRESH, room, Nodes(t), outside);
      assert false;
    }
  }

  // ------------------------------------------------------------------ what the tokens show

  // The texts of the nodes, in preorder: strings without their quotes, containers with their brackets.
  function Texts(t: Json): (r: seq<string>)
    ensures |r| == Nodes(t)
  {
    match t
    case Single(leaf) => [leaf.text]
    case Box(lead, kind, gap, rows, trail) =>
      [Opener(kind) + (gap + (RowsSource(rows) + Closer(kind)))] + RowTexts(rows)
  }

  function KeyTexts(key: Option<Leaf>): (r: seq<string>)
    ensures |r| == KeyNodes(key)
  {
    if key.None? then [] else [key.value.text]
  }

  function RowTexts(r: Rows): (s: seq<string>)
    ensures |s| == RowNodes(r)
  {
    match r
    case NoRows => []
    case Row(key, value, rest) => KeyTexts(key) + (Texts(value) + RowTexts(rest))
  }

  // Token for token, the ranges cover the texts.
  ghost predicate Covers(js: string, tokens: seq<Token>, texts: seq<string>) {
    |tokens| == |texts| && forall i :: 0 <= i < |texts| ==> IsRange(js, tokens[i], texts[i])
  }

  ghost predicate IsRange(js: string, t: Token, text: string) {
    0 <= t.start <= t.end <= |js| && js[t.start..t.end] == text
  }

  lemma RangeAt(js: string, p: nat, text: string, t: Token)
    requires TextAt(js, p, text) && t.start == p && t.end == p + |text|
    ensures IsRange(js, t, text)
  {
  }

  lemma CoversBoth(js: string, a: seq<Token>, b: seq<Token>, x: seq<string>, y: seq<string>)
    requires Covers(js, a, x) && Covers(js, b, y)
    ensures Covers(js, a + b, x + y)
  {
  }

  lemma LeafIsCovered(js: string, p: nat, l: Leaf, size: nat)
    requires TextAt(js, p, LeafSource(l))
    ensures IsRange(js, LeafToken(l, p, size), l.text)
  {
    hide TextAt, LeafSource, Quotes;
    var start, end := LeafParts(js, p, l);
    RangeAt(js, start, l.text, LeafToken(l, p, size));
  }

  lemma JoinText(js: string, p: nat, a: string, b: string)
    requires TextAt(js, p, a) && TextAt(js, p + |a|, b)
    ensures TextAt(js, p, a + b)
  {
    forall i | 0 <= i < |a + b| ensures js[p + i] == (a + b)[i] {
      if i >= |a| {
        assert js[p + |a| + (i - |a|)] == b[i - |a|];
      }
    }
  }

  lemma BoxIsCovered(js: string, p: nat, t: Json)
    requires t.Box? && TextAt(js, p, Source(t))
    ensures IsRange(js, Tokens(t, p)[0], Texts(t)[0])
  {
    hide TextAt, RowsSource, RowTokens, RowTexts;
    var inside, end := BoxParts(js, p, t);
    JoinText(js, inside, RowsSource(t.rows), Closer(t.kind));
    JoinText(js, p + |t.lead| + 1, t.gap, RowsSource(t.rows) + Closer(t.kind));
    JoinText(js, p + |t.lead|, Opener(t.kind), t.gap + (RowsSource(t.rows) + Closer(t.kind)));
    RangeAt(js, p + |t.lead|, Texts(t)[0], Tokens(t, p)[0]);
  }

  lemma KeyIsCovered(js: string, p: nat, key: Option<Leaf>)
    requires TextAt(js, p, KeySource(key))
    ensures Covers(js, KeyTokens(key, p), KeyTexts(key))
  {
    hide TextAt, LeafSource, LeafToken;
    if key.Some? {
      SplitText(js, p, LeafSource(key.value), ":");
      LeafIsCovered(js, p, key.value, 1);
    }
  }

  // In the text of a value each of its tokens covers the text of its node.
  lemma TokensShowTexts(js: string, p: nat, t: Json)
    requires TextAt(js, p, Source(t))
    ensures Covers(js, Tokens(t, p), Texts(t))
    decreases t
  {
    hide TextAt, LeafSource, RowsSource, RowTokens, RowTexts;
    match t
    case Single(leaf) => LeafIsCovered(js, p, leaf, 0);
    case Box(lead, kind, gap, rows, trail) =>
      var inside, end := BoxParts(js, p, t);
      BoxIsCovered(js, p, t);
      RowsShowTexts(js, inside, rows);
      CoversBoth(js, [Tokens(t, p)[0]], RowTokens(rows, inside), [Texts(t)[0]], RowTexts(rows));
  }

  lemma RowsShowTexts(js: string, p: nat, rows: Rows)
    requires TextAt(js, p, RowsSource(rows))
    ensures Covers(js, RowTokens(rows, p), RowTexts(rows))
    decreases rows
  {
    hide TextAt, Source, KeySource, Tokens, KeyTokens, Texts, KeyTexts, Covers;
    match rows
    case NoRows => NothingCovered(js);
    case Row(key, value, rest) =>
      var q, r := RowPieces(js, p, rows);
      KeyIsCovered(js, p, key);
      TokensShowTexts(js, q, value);
      if rest.NoRows? {
        NothingCovered(js);
      } else {
        RowsShowTexts(js, r + 1, rest);
      }
      CoversBoth(js, Tokens(value, q), RowTokens(rest, r + 1), Texts(value), RowTexts(rest));
      CoversBoth(js, KeyTokens(key, p), Tokens(value, q) + RowTokens(rest, r + 1),
                 KeyTexts(key), Texts(value) + RowTexts(rest));
  }

  lemma NothingCovered(js: string)
    ensures Covers(js, [], [])
  {
  }
}
