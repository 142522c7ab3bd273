// The tokenizer of firmware/user/jsmn.c (non-strict, without parent links) as functions of
// the parser state.
module JsmnModel {

  datatype Kind = Primitive | Object | Array | Str

  // `end` is -1 while a container is open.
  datatype Token = Token(kind: Kind, start: int, end: int, size: nat)

  const NOMEM := -1
  const INVAL := -2
  const PART := -3

  // Parser fields and the tokens filled so far (toknext is their number); `count` is the
  // local counter of one call.
  datatype State = State(pos: nat, tokens: seq<Token>, toksuper: int, count: nat)

  const FRESH := State(0, [], -1, 0)

  predicate AtEnd(js: string, p: nat) {
    p >= |js| || js[p] == '\0'
  }

  predicate Blank(c: char) {
    c == '\t' || c == '\r' || c == '\n' || c == ' '
  }

  // ------------------------------------------------------------------ primitives and strings

  // A position reached, or an error code.
  datatype Scan = Reached(pos: nat) | Failed(error: int)

  predicate EndsPrimitive(c: char) {
    c == ':' || Blank(c) || c == ',' || c == ']' || c == '}'
  }

  predicate Printable(c: char) {
    32 <= c as int < 127
  }

  // Where the primitive running at p ends.
  function PrimitiveEnd(js: string, p: nat): (s: Scan)
    ensures s.Reached? ==> p <= s.pos
    ensures s.Reached? && !AtEnd(js, p) && !EndsPrimitive(js[p]) ==> p < s.pos
    ensures s.Failed? ==> s.error == INVAL
    decreases |js| - p
  {
    if AtEnd(js, p) || EndsPrimitive(js[p]) then Reached(p)
    else if !Printable(js[p]) then Failed(INVAL)
    else PrimitiveEnd(js, p + 1)
  }

  predicate Hex(c: char) {
    '0' <= c <= '9' || 'A' <= c <= 'F' || 'a' <= c <= 'f'
  }

  predicate SimpleEscape(c: char) {
    c == '\"' || c == '/' || c == '\\' || c == 'b' || c == 'f' || c == 'r' || c == 'n' || c == 't'
  }

  // After at most n hexadecimal digits from p.
  function HexEnd(js: string, p: nat, n: nat): (s: Scan)
    ensures s.Reached? ==> p <= s.pos
    ensures s.Failed? ==> s.error == INVAL
    decreases n
  {
    if n == 0 || AtEnd(js, p) then Reached(p)
    else if !Hex(js[p]) then Failed(INVAL)
    else HexEnd(js, p + 1, n - 1)
  }

  // The closing quote of the string running at p.
  function StringEnd(js: string, p: nat): (s: Scan)
    ensures s.Reached? ==> p <= s.pos < |js| && js[s.pos] == '\"'
    ensures s.Failed? ==> s.error == INVAL || s.error == PART
    decreases |js| - p
  {
    if AtEnd(js, p) then Failed(PART)
    else if js[p] == '\"' then Reached(p)
    else if js[p] == '\\' && p + 1 < |js| then
      if SimpleEscape(js[p + 1]) then StringEnd(js, p + 2)
      else if js[p + 1] == 'u' then
        var h := HexEnd(js, p + 2, 4);
        if h.Failed? then h else StringEnd(js, h.pos)
      else Failed(INVAL)
    else StringEnd(js, p + 1)
  }

  // ------------------------------------------------------------------ containers

  predicate Open(t: Token) {
    t.start != -1 && t.end == -1
  }

  predicate Container(t: Token) {
    t.kind == Object || t.kind == Array
  }

  // The backward scan: the last open token below n, or -1.
  function LastOpen(tokens: seq<Token>, n: nat): (i: int)
    requires n <= |tokens|
    ensures -1 <= i < n
    ensures i >= 0 ==> Open(tokens[i])
    ensures forall j :: i < j < n ==> !Open(tokens[j])
  {
    if n == 0 then -1 else if Open(tokens[n - 1]) then n - 1 else LastOpen(tokens, n - 1)
  }

  // The same scan looking at containers only.
  function LastOpenContainer(tokens: seq<Token>, n: nat): (i: int)
    requires n <= |tokens|
    ensures -1 <= i < n
    ensures i >= 0 ==> Container(tokens[i]) && Open(tokens[i])
    ensures forall j :: i < j < n ==> !(Container(tokens[j]) && Open(tokens[j]))
  {
    if n == 0 then -1
    else if Container(tokens[n - 1]) && Open(tokens[n - 1]) then n - 1
    else LastOpenContainer(tokens, n - 1)
  }

  function Bump(tokens: seq<Token>, super: int): (r: seq<Token>)
    ensures |r| == |tokens|
  {
    if 0 <= super < |tokens| then tokens[super := tokens[super].(size := tokens[super].size + 1)] else tokens
  }

  // ------------------------------------------------------------------ one character

  datatype Next = More(state: State) | Stop(error: int)

  // A finished string or primitive token; the parser goes on at `pos`.
  function Filled(st: State, t: Token, pos: nat): State {
    State(pos, Bump(st.tokens + [t], st.toksuper), st.toksuper, st.count + 1)
  }

  function OpenContainer(st: State, kind: Kind): State {
    State(st.pos + 1, Bump(st.tokens, st.toksuper) + [Token(kind, st.pos, -1, 0)], |st.tokens|, st.count + 1)
  }

  function CloseContainer(st: State, kind: Kind): Next {
    var i := LastOpen(st.tokens, |st.tokens|);
    if i == -1 || st.tokens[i].kind != kind then Stop(INVAL)
    else
      var closed := st.tokens[i := st.tokens[i].(end := st.pos + 1)];
      More(State(st.pos + 1, closed, LastOpen(closed, i + 1), st.count))
  }

  // A string (skip = 1: its closing quote is passed over) or primitive that ends at e.
  function FillToken(st: State, room: nat, kind: Kind, start: nat, e: Scan, skip: nat): Next {
    if e.Failed? then Stop(e.error)
    else if |st.tokens| >= room then Stop(NOMEM)
    else More(Filled(st, Token(kind, start, e.pos, 0), e.pos + skip))
  }

  function Comma(st: State, outside: Kind): State {
    var super := if 0 <= st.toksuper < |st.tokens| then st.tokens[st.toksuper].kind else outside;
    var i := LastOpenContainer(st.tokens, |st.tokens|);
    st.(pos := st.pos + 1,
        toksuper := if super != Array && super != Object && i != -1 then i else st.toksuper)
  }

  // What the main loop does with a character.
  datatype Action = Opening(kind: Kind) | Closing(kind: Kind) | Quote | Space | Colon | Separator | Value

  function ActionOf(c: char): Action {
    if c == '{' then Opening(Object)
    else if c == '[' then Opening(Array)
    else if c == '}' then Closing(Object)
    else if c == ']' then Closing(Array)
    else if c == '\"' then Quote
    else if Blank(c) then Space
    else if c == ':' then Colon
    else if c == ',' then Separator
    else Value
  }

  // One pass of the main loop with an array of `room` tokens.  `outside` is the kind a comma outside any
  // container reads in front of the array, at each position of the text.
  function Step(js: string, st: State, room: nat, outside: nat -> Kind): Next
    requires !AtEnd(js, st.pos)
  {
    match ActionOf(js[st.pos])
    case Opening(kind) => if |st.tokens| >= room then Stop(NOMEM) else More(OpenContainer(st, kind))
    case Closing(kind) => CloseContainer(st, kind)
    case Quote => FillToken(st, room, Str, st.pos + 1, StringEnd(js, st.pos + 1), 1)
    case Space => More(st.(pos := st.pos + 1))
    case Colon => More(st.(pos := st.pos + 1, toksuper := |st.tokens| - 1))
    case Separator => More(Comma(st, outside(st.pos)))
    case Value => FillToken(st, room, Primitive, st.pos, PrimitiveEnd(js, st.pos), 0)
  }

  // For characters that do not look in front of the array.
  const ANYTHING: nat -> Kind := p => Primitive

  lemma StepAdvances(js: string, st: State, room: nat, outside: nat -> Kind)
    requires !AtEnd(js, st.pos)
    ensures var n := Step(js, st, room, outside);
            && (n.More? ==> st.pos < n.state.pos)
            && (n.Stop? ==> n.error == NOMEM || n.error == INVAL || n.error == PART)
  {
  }

  // The local counter only travels along.
  ghost predicate ShiftsCount(n: Next, shifted: Next, c: nat) {
    if n.Stop? then shifted == n
    else c <= n.state.count && shifted == More(n.state.(count := n.state.count - c))
  }

  lemma CloseShiftsCount(st: State, kind: Kind, c: nat)
    requires c <= st.count
    ensures ShiftsCount(CloseContainer(st, kind), CloseContainer(st.(count := st.count - c), kind), c)
  {
  }

  lemma StepShiftsCount(js: string, st: State, room: nat, outside: nat -> Kind, c: nat)
    requires !AtEnd(js, st.pos) && c <= st.count
    ensures ShiftsCount(Step(js, st, room, outside), Step(js, st.(count := st.count - c), room, outside), c)
  {
    match ActionOf(js[st.pos])
    case Closing(kind) => CloseShiftsCount(st, kind, c);
    case _ =>
  }

  // ------------------------------------------------------------------ one call

  // The code returned and the state it leaves.
  datatype Result = Result(code: int, state: State)

  function Finish(st: State): Result {
    Result(if LastOpen(st.tokens, |st.tokens|) != -1 then PART else st.count, st)
  }

  // The main loop from st on.
  function Parse(js: string, st: State, room: nat, outside: nat -> Kind): Result
    decreases |js| - st.pos
  {
    if AtEnd(js, st.pos) then Finish(st)
    else
      StepAdvances(js, st, room, outside);
      match Step(js, st, room, outside)
      case Stop(error) => Result(error, st)
      case More(next) => Parse(js, next, room, outside)
  }

  // jsmn_parse
  function Call(js: string, st: State, room: nat, outside: nat -> Kind): Result {
    Parse(js, st.(count := 0), room, outside)
  }

  // ------------------------------------------------------------------ the counting pass

  // One pass of the main loop without a token array.
  datatype CountNext = CountMore(pos: nat, counted: nat) | CountStop(error: int)

  function CountStep(js: string, p: nat): (n: CountNext)
    requires !AtEnd(js, p)
    ensures n.CountMore? ==> p < n.pos
    ensures n.CountStop? ==> n.error == INVAL || n.error == PART
  {
    match ActionOf(js[p])
    case Opening(_) => CountMore(p + 1, 1)
    case Quote =>
      var e := StringEnd(js, p + 1);
      if e.Failed? then CountStop(e.error) else CountMore(e.pos + 1, 1)
    case Value =>
      var e := PrimitiveEnd(js, p);
      if e.Failed? then CountStop(e.error) else CountMore(e.pos, 1)
    case _ => CountMore(p + 1, 0)
  }

  // The main loop without a token array, from position p having counted n tokens.
  function Count(js: string, p: nat, n: nat): int
    decreases |js| - p
  {
    if AtEnd(js, p) then n
    else match CountStep(js, p)
      case CountStop(error) => error
      case CountMore(q, counted) => Count(js, q, n + counted)
  }
}
