// The tokenizer of firmware/user/jsmn.c as the program runs it: a parser object and an array
// of tokens filled in place.
module JsmnTokenizer {
  import opened JsmnModel

  // The main loop from st on, begun with a count, by its first step, begun without.
  lemma ParseOneStep(js: string, st: State, room: nat, outside: nat -> Kind, count: nat)
    requires !AtEnd(js, st.pos) && st.count == 0
    ensures var n := Step(js, st, room, outside);
            && (n.Stop? ==> n.error < 0)
            && (n.More? ==> st.pos < n.state.pos)
            && JsmnModel.Parse(js, st.(count := count), room, outside)
               == if n.Stop? then Result(n.error, st.(count := count))
                  else JsmnModel.Parse(js, n.state.(count := count + n.state.count), room, outside)
  {
    hide Step;
    StepAdvances(js, st, room, outside);
    StepAdvances(js, st.(count := count), room, outside);
    StepShiftsCount(js, st.(count := count), room, outside, count);
    assert st.(count := count).(count := 0) == st;
  }

  lemma CountOneStep(js: string, p: nat, count: nat)
    requires !AtEnd(js, p)
    ensures var n := CountStep(js, p);
            && (n.CountStop? ==> n.error < 0)
            && (n.CountMore? ==> p < n.pos)
            && Count(js, p, count) == if n.CountStop? then n.error else Count(js, n.pos, count + n.counted)
  {
    hide CountStep;
  }

  lemma StringStep(js: string, p: nat)
    requires !AtEnd(js, p)
    ensures js[p] == '\"' ==> StringEnd(js, p) == Reached(p)
    ensures js[p] != '\"' && !(js[p] == '\\' && p + 1 < |js|) ==> StringEnd(js, p) == StringEnd(js, p + 1)
    ensures js[p] == '\\' && p + 1 < |js| ==>
              var c := js[p + 1];
              var h := HexEnd(js, p + 2, 4);
              StringEnd(js, p) == if SimpleEscape(c) then StringEnd(js, p + 2)
                                  else if c != 'u' then Failed(INVAL)
                                  else if h.Failed? then h
                                  else StringEnd(js, h.pos)
  {
    hide HexEnd, SimpleEscape;
  }

  lemma StringRunsOut(js: string, p: nat)
    requires AtEnd(js, p)
    ensures StringEnd(js, p) == Failed(PART)
  {
  }

  class Tokenizer {
    var pos: nat
    var toknext: nat
    var toksuper: int

    // The parser's fields make sense for this array of tokens; without an array no token has
    // been filled.
    ghost predicate Valid(tokens: array?<Token>)
      reads this
    {
      && -1 <= toksuper < toknext
      && (if tokens == null then toknext == 0 else toknext <= tokens.Length)
    }

    ghost function View(tokens: array<Token>, count: nat): State
      requires toknext <= tokens.Length
      reads this, tokens
    {
      State(pos, tokens[..toknext], toksuper, count)
    }

    // jsmn_init
    constructor ()
      ensures forall t: array?<Token> :: Valid(t)
      ensures pos == 0 && toknext == 0 && toksuper == -1
    {
      pos, toknext, toksuper := 0, 0, -1;
    }

    // jsmn_alloc_token and jsmn_fill_token; false stands for a null pointer.
    method AddToken(tokens: array<Token>, t: Token) returns (ok: bool)
      requires toknext <= tokens.Length
      modifies this`toknext, tokens
      ensures ok == (old(toknext) < tokens.Length)
      ensures toknext == old(toknext) + if ok then 1 else 0
      ensures tokens[..toknext] == old(tokens[..toknext]) + if ok then [t] else []
    {
      if toknext >= tokens.Length {
        return false;
      }
      tokens[toknext] := t;
      toknext := toknext + 1;
      return true;
    }

    // What the two helper methods leave: on success one more token and the parser on the last
    // character it used; on failure everything as it was.
    twostate predicate FilledOne(tokens: array?<Token>, e: Scan, t: Token, last: int, r: int)
      requires old(Valid(tokens)) && Valid(tokens)
      reads this, tokens
    {
      && toksuper == old(toksuper)
      && r == (if e.Failed? then e.error
               else if tokens != null && old(toknext) >= tokens.Length then NOMEM else 0)
      && pos == (if r == 0 then last else old(pos))
      && (tokens != null ==> tokens[..toknext] == old(tokens[..toknext]) + if r == 0 then [t] else [])
    }

    // jsmn_parse_primitive
    method ParsePrimitive(js: string, tokens: array?<Token>) returns (r: int)
      requires Valid(tokens) && !AtEnd(js, pos) && ActionOf(js[pos]).Value?
      modifies this`pos, this`toknext, tokens
      ensures Valid(tokens)
      ensures var e := PrimitiveEnd(js, old(pos));
              FilledOne(tokens, e, Token(Primitive, old(pos), if e.Reached? then e.pos else 0, 0),
                        if e.Reached? then e.pos - 1 else 0, r)
    {
      var start := pos;
      while pos < |js| && js[pos] != '\0'
        invariant start <= pos && toknext == old(toknext)
        invariant pos == start ==> !AtEnd(js, pos) && !EndsPrimitive(js[pos])
        invariant tokens != null ==> unchanged(tokens)
        invariant PrimitiveEnd(js, start) == PrimitiveEnd(js, pos)
      {
        if EndsPrimitive(js[pos]) {
          break;
        }
        if js[pos] as int < 32 || js[pos] as int >= 127 {
          pos := start;
          return INVAL;
        }
        pos := pos + 1;
      }
      if tokens == null {
        pos := pos - 1;
        return 0;
      }
      var ok := AddToken(tokens, Token(Primitive, start, pos, 0));
      if !ok {
        pos := start;
        return NOMEM;
      }
      pos := pos - 1;
      return 0;
    }

    // The four digits after \u; leaves the parser behind the last digit taken.
    method SkipHex(js: string) returns (ok: bool)
      modifies this`pos
      ensures var h := HexEnd(js, old(pos), 4);
              ok == h.Reached? && (ok ==> pos == h.pos)
    {
      var i := 0;
      while i < 4 && pos < |js| && js[pos] != '\0'
        invariant 0 <= i <= 4 && old(pos) <= pos
        invariant HexEnd(js, old(pos), 4) == HexEnd(js, pos, 4 - i)
        decreases 4 - i
      {
        if !('0' <= js[pos] <= '9' || 'A' <= js[pos] <= 'F' || 'a' <= js[pos] <= 'f') {
          return false;
        }
        pos, i := pos + 1, i + 1;
      }
      return true;
    }

    // A backslash in a string and what it escapes; leaves the parser on the last character of it.
    method SkipEscape(js: string) returns (ok: bool)
      requires !AtEnd(js, pos) && js[pos] == '\\'
      modifies this`pos
      ensures ok ==> old(pos) <= pos && StringEnd(js, old(pos)) == StringEnd(js, pos + 1)
      ensures !ok ==> StringEnd(js, old(pos)) == Failed(INVAL)
    {
      hide HexEnd, StringEnd;
      StringStep(js, pos);
      if pos + 1 < |js| {
        pos := pos + 1;
        if SimpleEscape(js[pos]) {
        } else if js[pos] == 'u' {
          pos := pos + 1;
          ok := SkipHex(js);
          if !ok {
            return;
          }
          pos := pos - 1;
        } else {
          return false;
        }
      }
      return true;
    }

    // jsmn_parse_string
    method ParseString(js: string, tokens: array?<Token>) returns (r: int)
      requires Valid(tokens) && !AtEnd(js, pos) && js[pos] == '\"'
      modifies this`pos, this`toknext, tokens
      ensures Valid(tokens)
      ensures var e := StringEnd(js, old(pos) + 1);
              FilledOne(tokens, e, Token(Str, old(pos) + 1, if e.Reached? then e.pos else 0, 0),
                        if e.Reached? then e.pos else 0, r)
    {
      hide HexEnd, StringEnd;
      var start := pos;
      pos := pos + 1;
      while pos < |js| && js[pos] != '\0'
        invariant start < pos && toknext == old(toknext)
        invariant tokens != null ==> unchanged(tokens)
        invariant StringEnd(js, start + 1) == StringEnd(js, pos)
        decreases |js| - pos
      {
        StringStep(js, pos);
        var c := js[pos];
        if c == '\"' {
          if tokens == null {
            return 0;
          }
          var ok := AddToken(tokens, Token(Str, start + 1, pos, 0));
          if !ok {
            pos := start;
            return NOMEM;
          }
          return 0;
        }
        if c == '\\' {
          var ok := SkipEscape(js);
          if !ok {
            pos := start;
            return INVAL;
          }
        }
        pos := pos + 1;
      }
      StringRunsOut(js, pos);
      pos := start;
      return PART;
    }

    method CountIn(tokens: array?<Token>)
      requires Valid(tokens)
      modifies tokens
      ensures Valid(tokens)
      ensures tokens != null ==> tokens[..toknext] == Bump(old(tokens[..toknext]), toksuper)
    {
      if toksuper != -1 && tokens != null {
        tokens[toksuper] := tokens[toksuper].(size := tokens[toksuper].size + 1);
      }
    }

    // An opening bracket with an array to fill.
    method Open(tokens: array<Token>, kind: Kind) returns (ok: bool)
      requires Valid(tokens)
      modifies this`toknext, this`toksuper, tokens
      ensures Valid(tokens) && ok == (old(toknext) < tokens.Length)
      ensures var st := old(View(tokens, 0));
              View(tokens, 0) == if ok then OpenContainer(st, kind).(pos := pos, count := 0) else st
    {
      if toknext >= tokens.Length {
        return false;
      }
      CountIn(tokens);
      ok := AddToken(tokens, Token(kind, pos, -1, 0));
      toksuper := toknext - 1;
    }

    // The index of the last open token below n, or -1.
    method FindOpen(tokens: array<Token>, n: nat) returns (i: int)
      requires n <= toknext <= tokens.Length
      ensures i == LastOpen(tokens[..toknext], n)
    {
      i := n - 1;
      while i >= 0
        invariant -1 <= i < n
        invariant LastOpen(tokens[..toknext], n) == LastOpen(tokens[..toknext], i + 1)
      {
        if tokens[i].start != -1 && tokens[i].end == -1 {
          break;
        }
        i := i - 1;
      }
    }

    // A closing bracket with an array to search.
    method Close(tokens: array<Token>, kind: Kind) returns (ok: bool)
      requires Valid(tokens)
      modifies this`toksuper, tokens
      ensures Valid(tokens)
      ensures var n := CloseContainer(old(View(tokens, 0)), kind);
              && ok == n.More?
              && View(tokens, 0) == if ok then n.state.(pos := pos) else old(View(tokens, 0))
    {
      var i := FindOpen(tokens, toknext);
      if i == -1 || tokens[i].kind != kind {
        return false;
      }
      ghost var before := tokens[..toknext];
      tokens[i] := tokens[i].(end := pos + 1);
      assert tokens[..toknext] == before[i := before[i].(end := pos + 1)];
      toksuper := FindOpen(tokens, i + 1);
      return true;
    }

    // A comma goes back to the container it separates items of.  In front of the array there
    // is whatever `outside` says.
    method Separate(tokens: array<Token>, outside: Kind)
      requires Valid(tokens)
      modifies this`toksuper
      ensures Valid(tokens)
      ensures View(tokens, 0) == Comma(old(View(tokens, 0)), outside).(pos := pos)
    {
      var super := if toksuper == -1 then outside else tokens[toksuper].kind;
      if super != Array && super != Object {
        var i := toknext - 1;
        while i >= 0
          invariant -1 <= i < toknext
          invariant LastOpenContainer(tokens[..toknext], toknext) == LastOpenContainer(tokens[..toknext], i + 1)
        {
          if tokens[i].kind == Array || tokens[i].kind == Object {
            if tokens[i].start != -1 && tokens[i].end == -1 {
              toksuper := i;
              break;
            }
          }
          i := i - 1;
        }
      }
    }

    // A string or primitive: one more token, counted in its super token.
    method TakeValue(js: string, tokens: array?<Token>) returns (code: int)
      requires Valid(tokens) && !AtEnd(js, pos)
      requires ActionOf(js[pos]).Quote? || ActionOf(js[pos]).Value?
      modifies this`pos, this`toknext, tokens
      ensures Valid(tokens) && toksuper == old(toksuper)
      ensures tokens != null ==>
                (var n := Step(js, old(View(tokens, 0)), tokens.Length, ANYTHING);
                 && code == (if n.Stop? then n.error else 0)
                 && View(tokens, 0) == (if n.Stop? then old(View(tokens, 0)) else n.state.(pos := pos, count := 0))
                 && (n.More? ==> pos + 1 == n.state.pos))
      ensures tokens == null ==>
                (var n := CountStep(js, old(pos));
                 && code == (if n.CountStop? then n.error else 0)
                 && (n.CountMore? ==> pos + 1 == n.pos && n.counted == 1))
    {
      if js[pos] == '\"' {
        code := ParseString(js, tokens);
      } else {
        code := ParsePrimitive(js, tokens);
      }
      if code < 0 {
        return;
      }
      CountIn(tokens);
    }

    // The switch of the main loop on one character; `counted` is what it adds to the count.
    method TakeCharacter(js: string, tokens: array?<Token>, outside: nat -> Kind) returns (code: int, counted: nat)
      requires Valid(tokens) && !AtEnd(js, pos)
      modifies this, tokens
      ensures Valid(tokens)
      ensures tokens != null ==>
                (var n := Step(js, old(View(tokens, 0)), tokens.Length, outside);
                 && code == (if n.Stop? then n.error else 0)
                 && View(tokens, counted)
                 == (if n.Stop? then old(View(tokens, 0)).(count := counted) else n.state.(pos := pos))
                 && (n.More? ==> pos + 1 == n.state.pos))
      ensures tokens == null ==>
                (var n := CountStep(js, old(pos));
                 && code == (if n.CountStop? then n.error else 0)
                 && (n.CountMore? ==> pos + 1 == n.pos && counted == n.counted))
    {
      hide StringEnd, PrimitiveEnd, LastOpen, LastOpenContainer, Bump;
      code, counted := 0, 0;
      match ActionOf(js[pos])
      case Opening(kind) =>
        counted := 1;
        if tokens != null {
          var ok := Open(tokens, kind);
          if !ok {
            code := NOMEM;
          }
        }
      case Closing(kind) =>
        if tokens != null {
          var ok := Close(tokens, kind);
          if !ok {
            code := INVAL;
          }
        }
      case Quote =>
        code := TakeValue(js, tokens);
        counted := 1;
      case Space =>
      case Colon =>
        toksuper := toknext - 1;
      case Separator =>
        if tokens != null {
          Separate(tokens, outside(pos));
        }
      case Value =>
        code := TakeValue(js, tokens);
        counted := 1;
    }

    // One pass of the main loop: the character, and on to the next.
    method Advance(js: string, tokens: array?<Token>, outside: nat -> Kind, ghost count: nat)
      returns (code: int, counted: nat)
      requires Valid(tokens) && !AtEnd(js, pos)
      modifies this, tokens
      ensures Valid(tokens) && code <= 0 && (code == 0 ==> old(pos) < pos)
      ensures tokens != null ==>
                (JsmnModel.Parse(js, old(View(tokens, count)), tokens.Length, outside)
                 == if code < 0 then Result(code, View(tokens, count))
                    else JsmnModel.Parse(js, View(tokens, count + counted), tokens.Length, outside))
      ensures tokens == null ==>
                (Count(js, old(pos), count) == if code < 0 then code else Count(js, pos, count + counted))
    {
      hide JsmnModel.Parse, Count, Step, CountStep;
      ghost var p := pos;
      if tokens != null {
        ParseOneStep(js, View(tokens, 0), tokens.Length, outside, count);
      } else {
        CountOneStep(js, pos, count);
      }
      code, counted := TakeCharacter(js, tokens, outside);
      if code == 0 {
        pos := pos + 1;
      }
    }

    // jsmn_parse
    method Parse(js: string, tokens: array?<Token>, outside: nat -> Kind) returns (code: int)
      requires Valid(tokens)
      modifies this, tokens
      ensures Valid(tokens)
      ensures tokens != null ==>
                (var r := Call(js, old(View(tokens, 0)), tokens.Length, outside);
                 code == r.code && View(tokens, 0) == r.state.(count := 0))
      ensures tokens == null ==> code == Count(js, old(pos), 0)
    {
      hide Step, CountStep, LastOpen;
      var count := 0;
      while pos < |js| && js[pos] != '\0'
        invariant Valid(tokens)
        invariant tokens != null ==>
                    (Call(js, old(View(tokens, 0)), tokens.Length, outside)
                     == JsmnModel.Parse(js, View(tokens, count), tokens.Length, outside))
        invariant tokens == null ==> Count(js, old(pos), 0) == Count(js, pos, count)
        decreases |js| - pos
      {
        var r, counted := Advance(js, tokens, outside, count);
        if r < 0 {
          return r;
        }
        count := count + counted;
      }
      if tokens != null {
        var i := FindOpen(tokens, toknext);
        if i != -1 {
          return PART;
        }
      }
      return count;
    }
  }
}
