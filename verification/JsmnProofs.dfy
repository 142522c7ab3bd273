// What the jsmn tokenizer guarantees (firmware/user/jsmn.c).
module JsmnProofs {
  import opened JsmnModel

  // ------------------------------------------------------------------ an explicit bracket stack

  // The indices of the open tokens, outermost first.
  ghost function OpenStack(tokens: seq<Token>): (s: seq<nat>)
    ensures forall i :: i in s ==> i < |tokens|
  {
    if tokens == [] then []
    else
      var n := |tokens| - 1;
      OpenStack(tokens[..n]) + if Open(tokens[n]) then [n] else []
  }

  function Top(stack: seq<nat>): int {
    if stack == [] then -1 else stack[|stack| - 1]
  }

  // The state of a tokenizer that keeps a stack of its open containers.
  datatype Stacked = Stacked(state: State, stack: seq<nat>)

  datatype StackedNext = MoreStacked(next: Stacked) | StopStacked(error: int)

  function KeepStack(n: Next, stack: seq<nat>): StackedNext {
    if n.Stop? then StopStacked(n.error) else MoreStacked(Stacked(n.state, stack))
  }

  // The same character by the textbook method: push on an opening bracket, pop on a closing
  // one, and let a comma return to the container on top.
  ghost function StackStep(js: string, k: Stacked, room: nat): (r: StackedNext)
    requires !AtEnd(js, k.state.pos) && forall i :: i in k.stack ==> i < |k.state.tokens|
    ensures r.MoreStacked? ==> k.state.pos < r.next.state.pos
    ensures r.MoreStacked? ==> forall i :: i in r.next.stack ==> i < |r.next.state.tokens|
  {
    var st := k.state;
    StepAdvances(js, st, room, ANYTHING);
    match ActionOf(js[st.pos])
    case Opening(kind) =>
      if |st.tokens| >= room then StopStacked(NOMEM)
      else MoreStacked(Stacked(OpenContainer(st, kind), k.stack + [|st.tokens|]))
    case Closing(kind) =>
      if k.stack == [] then StopStacked(INVAL)
      else
        var i := k.stack[|k.stack| - 1];
        var rest := k.stack[..|k.stack| - 1];
        assert i in k.stack && forall j :: j in rest ==> j in k.stack;
        if st.tokens[i].kind != kind then StopStacked(INVAL)
        else MoreStacked(Stacked(st.(pos := st.pos + 1, toksuper := Top(rest),
                                     tokens := st.tokens[i := st.tokens[i].(end := st.pos + 1)]), rest))
    case Separator =>
      var onContainer := 0 <= st.toksuper < |st.tokens| && Container(st.tokens[st.toksuper]);
      MoreStacked(Stacked(st.(pos := st.pos + 1,
                              toksuper := if onContainer || k.stack == [] then st.toksuper else Top(k.stack)), k.stack))
    case _ => KeepStack(Step(js, st, room, ANYTHING), k.stack)
  }

  lemma {:induction false} OpenStackOfConcat(a: seq<Token>, t: Token)
    ensures OpenStack(a + [t]) == OpenStack(a) + if Open(t) then [|a|] else []
  {
    assert (a + [t])[..|a|] == a;
  }

  lemma {:induction false} TopIsLastOpen(tokens: seq<Token>)
    ensures Top(OpenStack(tokens)) == LastOpen(tokens, |tokens|)
  {
    if tokens != [] {
      var n := |tokens| - 1;
      TopIsLastOpen(tokens[..n]);
      LastOpenOfPrefix(tokens, n, n);
    }
  }

  lemma {:induction false} LastOpenOfPrefix(tokens: seq<Token>, n: nat, m: nat)
    requires n <= m <= |tokens|
    ensures LastOpen(tokens, n) == LastOpen(tokens[..m], n)
  {
    if n > 0 {
      LastOpenOfPrefix(tokens, n - 1, m);
    }
  }

  lemma {:induction false} LastOpenSkips(tokens: seq<Token>, m: nat, n: nat)
    requires m <= n <= |tokens| && forall j :: m <= j < n ==> !Open(tokens[j])
    ensures LastOpen(tokens, n) == LastOpen(tokens, m)
  {
    if m < n {
      LastOpenSkips(tokens, m, n - 1);
    }
  }

  // Closing the last open token takes it off the stack.
  lemma {:induction false} CloseTop(tokens: seq<Token>, i: nat, t: Token)
    requires i < |tokens| && i == LastOpen(tokens, |tokens|) && !Open(t)
    ensures OpenStack(tokens) != []
    ensures OpenStack(tokens[i := t]) == OpenStack(tokens)[..|OpenStack(tokens)| - 1]
    ensures OpenStack(tokens)[|OpenStack(tokens)| - 1] == i
    ensures LastOpen(tokens[i := t], i + 1) == Top(OpenStack(tokens[i := t]))
    decreases |tokens|
  {
    var n := |tokens| - 1;
    var closed := tokens[i := t];
    if i == n {
      assert closed[..n] == tokens[..n];
    } else {
      assert closed[..n] == tokens[..n][i := t];
      LastOpenOfPrefix(tokens, n, n);
      CloseTop(tokens[..n], i, t);
    }
    TopIsLastOpen(closed);
    LastOpenSkips(closed, i + 1, |closed|);
  }

  lemma {:induction false} BumpKeepsStack(tokens: seq<Token>, super: int)
    ensures OpenStack(Bump(tokens, super)) == OpenStack(tokens)
  {
    if tokens != [] {
      var n := |tokens| - 1;
      if super == n {
        assert Bump(tokens, super)[..n] == tokens[..n];
      } else {
        assert Bump(tokens, super)[..n] == Bump(tokens[..n], super);
        BumpKeepsStack(tokens[..n], super);
      }
    }
  }

  // Every open token is a container, and toksuper is a token whenever one is open.
  ghost predicate Scannable(st: State) {
    && -1 <= st.toksuper < |st.tokens|
    && (forall i :: 0 <= i < |st.tokens| && Open(st.tokens[i]) ==> Container(st.tokens[i]))
    && (st.toksuper == -1 ==> OpenStack(st.tokens) == [])
  }

  lemma {:induction false} LastOpenIsContainer(tokens: seq<Token>, n: nat)
    requires n <= |tokens| && forall i :: 0 <= i < |tokens| && Open(tokens[i]) ==> Container(tokens[i])
    ensures LastOpenContainer(tokens, n) == LastOpen(tokens, n)
  {
    if n > 0 {
      LastOpenIsContainer(tokens, n - 1);
    }
  }

  lemma OpeningKeepsScannable(st: State, kind: Kind)
    requires Scannable(st) && (kind == Object || kind == Array)
    ensures Scannable(OpenContainer(st, kind))
    ensures OpenStack(OpenContainer(st, kind).tokens) == OpenStack(st.tokens) + [|st.tokens|]
  {
    BumpKeepsStack(st.tokens, st.toksuper);
    OpenStackOfConcat(Bump(st.tokens, st.toksuper), Token(kind, st.pos, -1, 0));
  }

  lemma FillingKeepsScannable(st: State, t: Token, pos: nat)
    requires Scannable(st) && !Open(t)
    ensures Scannable(Filled(st, t, pos))
    ensures OpenStack(Filled(st, t, pos).tokens) == OpenStack(st.tokens)
  {
    OpenStackOfConcat(st.tokens, t);
    BumpKeepsStack(st.tokens + [t], st.toksuper);
  }

  lemma ClosingKeepsScannable(st: State, i: nat)
    requires Scannable(st) && i < |st.tokens| && i == LastOpen(st.tokens, |st.tokens|)
    ensures var closed := st.tokens[i := st.tokens[i].(end := st.pos + 1)];
            var stack := OpenStack(st.tokens);
            && stack != [] && stack[|stack| - 1] == i
            && OpenStack(closed) == stack[..|stack| - 1]
            && LastOpen(closed, i + 1) == Top(stack[..|stack| - 1])
            && Scannable(State(st.pos + 1, closed, LastOpen(closed, i + 1), st.count))
  {
    CloseTop(st.tokens, i, st.tokens[i].(end := st.pos + 1));
  }

  // One step of the scanning tokenizer is one step of the stack tokenizer.
  ghost predicate Refines(js: string, st: State, room: nat, outside: nat -> Kind)
    requires !AtEnd(js, st.pos)
  {
    var n := Step(js, st, room, outside);
    && (n.More? ==> Scannable(n.state))
    && StackStep(js, Stacked(st, OpenStack(st.tokens)), room)
       == KeepStack(n, if n.More? then OpenStack(n.state.tokens) else [])
  }

  lemma OpeningRefines(js: string, st: State, room: nat, outside: nat -> Kind)
    requires !AtEnd(js, st.pos) && Scannable(st) && ActionOf(js[st.pos]).Opening?
    ensures Refines(js, st, room, outside)
  {
    OpeningKeepsScannable(st, ActionOf(js[st.pos]).kind);
  }

  lemma ClosingRefines(js: string, st: State, room: nat, outside: nat -> Kind)
    requires !AtEnd(js, st.pos) && Scannable(st) && ActionOf(js[st.pos]).Closing?
    ensures Refines(js, st, room, outside)
  {
    hide OpenStack, LastOpen, Container;
    var kind, i, stack := ActionOf(js[st.pos]).kind, LastOpen(st.tokens, |st.tokens|), OpenStack(st.tokens);
    TopIsLastOpen(st.tokens);
    if i == -1 {
      assert stack == [];
    } else {
      ClosingKeepsScannable(st, i);
      if st.tokens[i].kind == kind {
        var next := CloseContainer(st, kind).state;
        assert StackStep(js, Stacked(st, stack), room) == MoreStacked(Stacked(next, stack[..|stack| - 1]));
      }
    }
  }

  // Whatever a comma outside every container happens to read in front of the array.
  lemma CommaRefines(js: string, st: State, room: nat, outside: nat -> Kind)
    requires !AtEnd(js, st.pos) && Scannable(st) && ActionOf(js[st.pos]).Separator?
    ensures Refines(js, st, room, outside)
  {
    TopIsLastOpen(st.tokens);
    LastOpenIsContainer(st.tokens, |st.tokens|);
  }

  lemma FillRefines(st: State, room: nat, kind: Kind, start: nat, e: Scan, skip: nat)
    requires Scannable(st)
    ensures var n := FillToken(st, room, kind, start, e, skip);
            n.More? ==> Scannable(n.state) && OpenStack(n.state.tokens) == OpenStack(st.tokens)
  {
    if e.Reached? {
      FillingKeepsScannable(st, Token(kind, start, e.pos, 0), e.pos + skip);
    }
  }

  lemma StepRefinesStack(js: string, st: State, room: nat, outside: nat -> Kind)
    requires !AtEnd(js, st.pos) && Scannable(st)
    ensures Refines(js, st, room, outside)
  {
    match ActionOf(js[st.pos])
    case Opening(_) => OpeningRefines(js, st, room, outside);
    case Closing(_) => ClosingRefines(js, st, room, outside);
    case Separator => CommaRefines(js, st, room, outside);
    case Quote => FillRefines(st, room, Str, st.pos + 1, StringEnd(js, st.pos + 1), 1);
    case Value => FillRefines(st, room, Primitive, st.pos, PrimitiveEnd(js, st.pos), 0);
    case _ =>
  }

  // The whole run of the stack tokenizer.
  ghost function StackParse(js: string, k: Stacked, room: nat): Result
    requires forall i :: i in k.stack ==> i < |k.state.tokens|
    decreases |js| - k.state.pos
  {
    var st := k.state;
    if AtEnd(js, st.pos) then Result(if k.stack == [] then st.count else PART, st)
    else match StackStep(js, k, room)
      case StopStacked(error) => Result(error, st)
      case MoreStacked(next) => StackParse(js, next, room)
  }

  // The stack theorem: on every input and from every reachable state jsmn's backward scans
  // give the tokens, the super token and the result of the tokenizer with a stack.
  lemma {:induction false} ParseRefinesStack(js: string, st: State, room: nat, outside: nat -> Kind)
    requires Scannable(st)
    ensures Parse(js, st, room, outside) == StackParse(js, Stacked(st, OpenStack(st.tokens)), room)
    ensures Scannable(Parse(js, st, room, outside).state)
    decreases |js| - st.pos
  {
    if AtEnd(js, st.pos) {
      TopIsLastOpen(st.tokens);
    } else {
      StepAdvances(js, st, room, outside);
      StepRefinesStack(js, st, room, outside);
      match Step(js, st, room, outside)
      case Stop(error) =>
      case More(next) => ParseRefinesStack(js, next, room, outside);
    }
  }

  // ------------------------------------------------------------------ the shape of the tokens

  // What a token's range says about the text.
  ghost predicate Delimited(js: string, t: Token) {
    match t.kind
    case Object =>
      0 <= t.start < |js| && js[t.start] == '{' && (t.end != -1 ==> t.start < t.end <= |js| && js[t.end - 1] == '}')
    case Array =>
      0 <= t.start < |js| && js[t.start] == '[' && (t.end != -1 ==> t.start < t.end <= |js| && js[t.end - 1] == ']')
    case Str => 1 <= t.start <= t.end < |js| && js[t.start - 1] == '\"' && js[t.end] == '\"'
    case Primitive => 0 <= t.start < t.end <= |js|
  }

  // A later token lies inside an earlier one or after it.
  ghost predicate NestedOrAfter(a: Token, b: Token) {
    a.end == -1 || a.end <= b.start || (b.end != -1 && b.end <= a.end)
  }

  ghost predicate Inside(js: string, t: Token, pos: nat) {
    Delimited(js, t) && t.start < pos && t.end <= pos
  }

  ghost predicate AllInside(js: string, tokens: seq<Token>, pos: nat) {
    forall i :: 0 <= i < |tokens| ==> Inside(js, tokens[i], pos)
  }

  ghost predicate StartsIncrease(tokens: seq<Token>) {
    forall i, j :: 0 <= i < j < |tokens| ==> tokens[i].start < tokens[j].start
  }

  ghost predicate RangesNest(tokens: seq<Token>) {
    forall i, j :: 0 <= i < j < |tokens| ==> NestedOrAfter(tokens[i], tokens[j])
  }

  ghost predicate WellNested(js: string, st: State) {
    AllInside(js, st.tokens, st.pos) && StartsIncrease(st.tokens) && RangesNest(st.tokens)
  }

  lemma BumpKeepsRanges(tokens: seq<Token>, super: int, i: nat)
    requires i < |tokens|
    ensures Bump(tokens, super)[i] == tokens[i].(size := Bump(tokens, super)[i].size)
  {
  }

  ghost predicate SameRanges(a: seq<Token>, b: seq<Token>) {
    |a| == |b| && forall i :: 0 <= i < |a| ==> b[i] == a[i].(size := b[i].size)
  }

  lemma AppendKeepsInside(js: string, a: seq<Token>, b: seq<Token>, t: Token, p: nat, q: nat)
    requires AllInside(js, a, p) && SameRanges(a, b) && p < q && Inside(js, t, q)
    ensures AllInside(js, b + [t], q)
  {
    forall i | 0 <= i < |b + [t]| ensures Inside(js, (b + [t])[i], q) {
      if i < |b| {
        assert Inside(js, a[i], p);
      }
    }
  }

  lemma AppendKeepsOrder(js: string, a: seq<Token>, b: seq<Token>, t: Token, p: nat)
    requires AllInside(js, a, p) && StartsIncrease(a) && RangesNest(a) && SameRanges(a, b) && p <= t.start
    ensures StartsIncrease(b + [t]) && RangesNest(b + [t])
  {
    hide Delimited;
    forall i, j | 0 <= i < j < |b + [t]|
      ensures (b + [t])[i].start < (b + [t])[j].start && NestedOrAfter((b + [t])[i], (b + [t])[j])
    {
      assert Inside(js, a[i], p);
    }
  }

  // A new token past every other keeps the nesting.
  lemma AppendKeepsNesting(js: string, st: State, tokens: seq<Token>, t: Token, pos: nat)
    requires WellNested(js, st) && SameRanges(st.tokens, tokens) && st.pos < pos
    requires Delimited(js, t) && st.pos <= t.start < pos && t.end <= pos
    ensures WellNested(js, State(pos, tokens + [t], st.toksuper, st.count))
  {
    hide AllInside, StartsIncrease, RangesNest, Delimited, SameRanges;
    AppendKeepsInside(js, st.tokens, tokens, t, st.pos, pos);
    AppendKeepsOrder(js, st.tokens, tokens, t, st.pos);
  }

  lemma CloseKeepsInside(js: string, st: State, i: nat)
    requires AllInside(js, st.tokens, st.pos) && i < |st.tokens| && Open(st.tokens[i]) && Container(st.tokens[i])
    requires st.pos < |js| && js[st.pos] == (if st.tokens[i].kind == Object then '}' else ']')
    ensures AllInside(js, st.tokens[i := st.tokens[i].(end := st.pos + 1)], st.pos + 1)
  {
    var closed := st.tokens[i := st.tokens[i].(end := st.pos + 1)];
    forall j | 0 <= j < |closed| ensures Inside(js, closed[j], st.pos + 1) {
      assert Inside(js, st.tokens[j], st.pos);
    }
  }

  lemma CloseKeepsOrder(js: string, st: State, i: nat)
    requires AllInside(js, st.tokens, st.pos) && StartsIncrease(st.tokens) && RangesNest(st.tokens)
    requires i < |st.tokens| && i == LastOpen(st.tokens, |st.tokens|)
    ensures StartsIncrease(st.tokens[i := st.tokens[i].(end := st.pos + 1)])
    ensures RangesNest(st.tokens[i := st.tokens[i].(end := st.pos + 1)])
  {
    hide Delimited, LastOpen;
    var closed := st.tokens[i := st.tokens[i].(end := st.pos + 1)];
    forall j, k | 0 <= j < k < |closed|
      ensures closed[j].start < closed[k].start && NestedOrAfter(closed[j], closed[k])
    {
      assert NestedOrAfter(st.tokens[j], st.tokens[k]);
      assert Inside(js, st.tokens[j], st.pos) && Inside(js, st.tokens[k], st.pos);
      if j == i {
        StartedIsEnded(js, st, i, k);
      }
    }
  }

  // Behind the last open token every token has ended.
  lemma StartedIsEnded(js: string, st: State, i: nat, k: nat)
    requires AllInside(js, st.tokens, st.pos) && i < k < |st.tokens| && i == LastOpen(st.tokens, |st.tokens|)
    ensures st.tokens[k].end != -1
  {
    assert !Open(st.tokens[k]) && Inside(js, st.tokens[k], st.pos);
  }

  lemma CloseKeepsNesting(js: string, st: State, i: nat)
    requires WellNested(js, st) && i < |st.tokens| && i == LastOpen(st.tokens, |st.tokens|)
    requires st.pos < |js| && js[st.pos] == (if st.tokens[i].kind == Object then '}' else ']')
    requires Container(st.tokens[i])
    ensures WellNested(js, State(st.pos + 1, st.tokens[i := st.tokens[i].(end := st.pos + 1)], -1, 0))
  {
    hide AllInside, StartsIncrease, RangesNest;
    CloseKeepsInside(js, st, i);
    CloseKeepsOrder(js, st, i);
  }

  lemma FillKeepsNesting(js: string, st: State, t: Token, pos: nat)
    requires Scannable(st) && WellNested(js, st) && st.pos < pos
    requires Delimited(js, t) && st.pos <= t.start < pos && t.end <= pos
    ensures WellNested(js, Filled(st, t, pos))
  {
    forall k | 0 <= k < |st.tokens| {
      BumpKeepsRanges(st.tokens, st.toksuper, k);
    }
    assert Bump(st.tokens + [t], st.toksuper) == Bump(st.tokens, st.toksuper) + [t];
    AppendKeepsNesting(js, st, Bump(st.tokens, st.toksuper), t, pos);
  }

  lemma OpenKeepsNesting(js: string, st: State, kind: Kind)
    requires Scannable(st) && WellNested(js, st) && !AtEnd(js, st.pos)
    requires ActionOf(js[st.pos]) == Opening(kind)
    ensures WellNested(js, OpenContainer(st, kind))
  {
    forall k | 0 <= k < |st.tokens| {
      BumpKeepsRanges(st.tokens, st.toksuper, k);
    }
    AppendKeepsNesting(js, st, Bump(st.tokens, st.toksuper), Token(kind, st.pos, -1, 0), st.pos + 1);
  }

  lemma CloseContainerKeepsNesting(js: string, st: State, kind: Kind)
    requires !AtEnd(js, st.pos) && Scannable(st) && WellNested(js, st)
    requires ActionOf(js[st.pos]) == Closing(kind)
    ensures var n := CloseContainer(st, kind); n.More? ==> WellNested(js, n.state)
  {
    hide AllInside, StartsIncrease, RangesNest;
    var i := LastOpen(st.tokens, |st.tokens|);
    if i != -1 && st.tokens[i].kind == kind {
      CloseKeepsNesting(js, st, i);
    }
  }

  lemma QuoteKeepsNesting(js: string, st: State, room: nat)
    requires !AtEnd(js, st.pos) && Scannable(st) && WellNested(js, st)
    requires ActionOf(js[st.pos]).Quote?
    ensures var n := FillToken(st, room, Str, st.pos + 1, StringEnd(js, st.pos + 1), 1);
            n.More? ==> WellNested(js, n.state)
  {
    var e := StringEnd(js, st.pos + 1);
    if e.Reached? {
      FillKeepsNesting(js, st, Token(Str, st.pos + 1, e.pos, 0), e.pos + 1);
    }
  }

  lemma ValueKeepsNesting(js: string, st: State, room: nat)
    requires !AtEnd(js, st.pos) && Scannable(st) && WellNested(js, st)
    requires ActionOf(js[st.pos]).Value?
    ensures var n := FillToken(st, room, Primitive, st.pos, PrimitiveEnd(js, st.pos), 0);
            n.More? ==> WellNested(js, n.state)
  {
    var e := PrimitiveEnd(js, st.pos);
    PrimitiveInside(js, st.pos);
    if e.Reached? {
      FillKeepsNesting(js, st, Token(Primitive, st.pos, e.pos, 0), e.pos);
    }
  }

  lemma MovingKeepsNesting(js: string, st: State, next: State)
    requires WellNested(js, st) && next.tokens == st.tokens && st.pos <= next.pos
    ensures WellNested(js, next)
  {
  }

  lemma StepKeepsNesting(js: string, st: State, room: nat, outside: nat -> Kind)
    requires !AtEnd(js, st.pos) && Scannable(st) && WellNested(js, st)
    ensures var n := Step(js, st, room, outside); n.More? ==> WellNested(js, n.state)
  {
    hide WellNested, Scannable;
    match ActionOf(js[st.pos])
    case Opening(kind) => OpenKeepsNesting(js, st, kind);
    case Closing(kind) => CloseContainerKeepsNesting(js, st, kind);
    case Quote => QuoteKeepsNesting(js, st, room);
    case Value => ValueKeepsNesting(js, st, room);
    case _ => MovingKeepsNesting(js, st, Step(js, st, room, outside).state);
  }

  lemma {:induction false} PrimitiveInside(js: string, p: nat)
    ensures PrimitiveEnd(js, p).Reached? && p <= |js| ==> PrimitiveEnd(js, p).pos <= |js|
    decreases |js| - p
  {
    if !AtEnd(js, p) {
      PrimitiveInside(js, p + 1);
    }
  }

  // The shape theorem: on every input and with any room, token starts strictly increase, ranges
  // are nested or disjoint and delimited by what their kind says; and a successful parse leaves
  // nothing open, so every bracket is matched by its own kind.
  lemma {:induction false} ParseIsWellNested(js: string, st: State, room: nat, outside: nat -> Kind)
    requires Scannable(st) && WellNested(js, st)
    ensures var r := Parse(js, st, room, outside);
            && WellNested(js, r.state)
            && (r.code >= 0 ==> forall i :: 0 <= i < |r.state.tokens| ==> r.state.tokens[i].end != -1)
    decreases |js| - st.pos
  {
    if AtEnd(js, st.pos) {
      forall i | 0 <= i < |st.tokens| && LastOpen(st.tokens, |st.tokens|) == -1
        ensures st.tokens[i].end != -1
      {
        assert !Open(st.tokens[i]);
      }
    } else {
      StepAdvances(js, st, room, outside);
      StepRefinesStack(js, st, room, outside);
      StepKeepsNesting(js, st, room, outside);
      match Step(js, st, room, outside)
      case Stop(error) =>
      case More(next) => ParseIsWellNested(js, next, room, outside);
    }
  }

  lemma FreshIsWellFormed(js: string)
    ensures Scannable(FRESH) && WellNested(js, FRESH) && OpenStack(FRESH.tokens) == []
  {
  }

  // Both theorems for a first call: a fresh parser gives what a tokenizer with an empty stack
  // gives, and every token it leaves is in shape.
  lemma FreshCall(js: string, room: nat, outside: nat -> Kind)
    ensures var r := Call(js, FRESH, room, outside);
            && r == StackParse(js, Stacked(FRESH, []), room)
            && WellNested(js, r.state) && |r.state.tokens| <= room
            && (r.code >= 0 ==> r.code == |r.state.tokens|
                                && forall i :: 0 <= i < |r.state.tokens| ==> r.state.tokens[i].end != -1)
  {
    hide StackParse, Parse;
    FreshIsWellFormed(js);
    assert FRESH.(count := 0) == FRESH;
    ParseRefinesStack(js, FRESH, room, outside);
    ParseIsWellNested(js, FRESH, room, outside);
    ParseCountsTokens(js, FRESH, room, outside);
  }

  lemma {:induction false} ParseCountsTokens(js: string, st: State, room: nat, outside: nat -> Kind)
    requires |st.tokens| == st.count && |st.tokens| <= room
    ensures var r := Parse(js, st, room, outside);
            && |r.state.tokens| == r.state.count <= room
            && (r.code >= 0 ==> r.code == |r.state.tokens|)
    decreases |js| - st.pos
  {
    if !AtEnd(js, st.pos) {
      StepAdvances(js, st, room, outside);
      StepStaysInRoom(js, st, room, outside);
      match Step(js, st, room, outside)
      case Stop(error) =>
      case More(next) => ParseCountsTokens(js, next, room, outside);
    }
  }

  lemma StepStaysInRoom(js: string, st: State, room: nat, outside: nat -> Kind)
    requires !AtEnd(js, st.pos) && |st.tokens| <= room
    ensures var n := Step(js, st, room, outside);
            n.More? ==> |n.state.tokens| <= room && |n.state.tokens| - |st.tokens| == n.state.count - st.count
  {
  }

  // ------------------------------------------------------------------ resuming after NOMEM

  lemma BumpLength(st: State, room: nat, outside: nat -> Kind, js: string)
    requires !AtEnd(js, st.pos)
    ensures var n := Step(js, st, room, outside);
            n.More? ==> |n.state.tokens| - |st.tokens| == n.state.count - st.count
  {
  }

  lemma {:induction false} ParseShiftsCount(js: string, st: State, room: nat, outside: nat -> Kind, c: nat)
    requires c <= st.count
    ensures var r := Parse(js, st, room, outside);
            && c <= r.state.count
            && Parse(js, st.(count := st.count - c), room, outside)
               == Result(if r.code >= 0 then r.code - c else r.code, r.state.(count := r.state.count - c))
    decreases |js| - st.pos
  {
    hide Step;
    if !AtEnd(js, st.pos) {
      StepAdvances(js, st, room, outside);
      StepShiftsCount(js, st, room, outside, c);
      match Step(js, st, room, outside)
      case Stop(error) =>
      case More(next) => ParseShiftsCount(js, next, room, outside, c);
    }
  }

  // A run with more room passes through the state in which the smaller run stopped.
  lemma {:induction false} LargerRunPassesThrough(js: string, st: State, room: nat, larger: nat, outside: nat -> Kind)
    requires room <= larger && Parse(js, st, room, outside).code == NOMEM
    ensures var stopped := Parse(js, st, room, outside).state;
            && Parse(js, st, larger, outside) == Parse(js, stopped, larger, outside)
            && |stopped.tokens| - |st.tokens| == stopped.count - st.count
    decreases |js| - st.pos
  {
    if !AtEnd(js, st.pos) {
      StepAdvances(js, st, room, outside);
      BumpLength(st, room, outside, js);
      match Step(js, st, room, outside)
      case Stop(error) =>
      case More(next) =>
        assert Step(js, st, larger, outside) == More(next);
        LargerRunPassesThrough(js, next, room, larger, outside);
    }
  }

  // The resumption theorem: calling again after NOMEM with a larger array ends like one call
  // with the larger array, except that the count returned leaves out the tokens the first
  // call had filled.
  lemma ResumeAfterNomem(js: string, st: State, room: nat, larger: nat, outside: nat -> Kind)
    requires room <= larger && Call(js, st, room, outside).code == NOMEM
    ensures var first := Call(js, st, room, outside);
            var resumed := Call(js, first.state, larger, outside);
            var full := Call(js, st, larger, outside);
            && resumed.state.(count := 0) == full.state.(count := 0)
            && resumed.code == if full.code >= 0 then full.code - (|first.state.tokens| - |st.tokens|) else full.code
  {
    var first := Call(js, st, room, outside).state;
    LargerRunPassesThrough(js, st.(count := 0), room, larger, outside);
    ParseShiftsCount(js, first, larger, outside, first.count);
  }

  // ------------------------------------------------------------------ the counting pass

  // A filling step that goes on, and one that stops for lack of room, is a counting step.
  lemma StepCounts(js: string, st: State, room: nat, outside: nat -> Kind)
    requires !AtEnd(js, st.pos)
    ensures var n, c := Step(js, st, room, outside), CountStep(js, st.pos);
            && (n.More? ==> c == CountMore(n.state.pos, n.state.count - st.count))
            && (n == Stop(NOMEM) ==> |st.tokens| >= room && (c.CountMore? ==> c.counted == 1))
  {
  }

  lemma {:induction false} CountGrows(js: string, p: nat, n: nat)
    ensures Count(js, p, n) >= 0 ==> Count(js, p, n) >= n
    decreases |js| - p
  {
    if !AtEnd(js, p) && CountStep(js, p).CountMore? {
      CountGrows(js, CountStep(js, p).pos, n + CountStep(js, p).counted);
    }
  }

  // A filling run counts what the counting pass counts, up to the point where it stops; and
  // if the counting pass gets through, a run stops for lack of room only when it has to.
  lemma {:induction false} CountAgrees(js: string, st: State, room: nat, outside: nat -> Kind)
    requires |st.tokens| == st.count
    ensures var r := Parse(js, st, room, outside);
            var n := Count(js, st.pos, st.count);
            && (r.code >= 0 ==> n == r.code)
            && (r.code == NOMEM && n >= 0 ==> n > room)
    decreases |js| - st.pos
  {
    if !AtEnd(js, st.pos) {
      StepAdvances(js, st, room, outside);
      BumpLength(st, room, outside, js);
      StepCounts(js, st, room, outside);
      match Step(js, st, room, outside)
      case Stop(error) =>
        if error == NOMEM && CountStep(js, st.pos).CountMore? {
          CountGrows(js, CountStep(js, st.pos).pos, st.count + 1);
        }
      case More(next) => CountAgrees(js, next, room, outside);
    }
  }

  // The sizing theorem, for a fresh parser: the counting pass returns n whenever a filling
  // call returns n, and n tokens are always enough.
  lemma CountingPassSizesTheArray(js: string, room: nat, outside: nat -> Kind)
    ensures var r := Call(js, FRESH, room, outside);
            var n := Count(js, 0, 0);
            && (r.code >= 0 ==> n == r.code)
            && (0 <= n <= room ==> r.code != NOMEM)
  {
    CountAgrees(js, FRESH, room, outside);
  }
}
