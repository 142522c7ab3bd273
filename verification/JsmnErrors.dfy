// Which strings and primitives jsmn (firmware/user/jsmn.c) accepts, and what its two errors mean:
// JSMN_ERROR_PART that more text could make the string valid, JSMN_ERROR_INVAL that none can.
module JsmnErrors {
  import opened JsmnModel
  import opened JsmnTrees

  // ------------------------------------------------------------------ strings

  lemma {:induction false} HexReached(js: string, p: nat, n: nat)
    requires HexEnd(js, p, n).Reached?
    ensures var q := HexEnd(js, p, n).pos;
            && q <= p + n && (q < p + n ==> AtEnd(js, q)) && (p < q ==> q <= |js|)
            && forall i :: p <= i < q && i < |js| ==> js[i] in "0123456789abcdefABCDEF"
    decreases n
  {
    hide Hex;
    if n > 0 && !AtEnd(js, p) {
      HexIs(js[p]);
      HexReached(js, p + 1, n - 1);
      forall i | p <= i < HexEnd(js, p, n).pos && i < |js| ensures js[i] in "0123456789abcdefABCDEF" {
        assert i == p || p + 1 <= i;
      }
    }
  }

  // A string that is accepted is one of JSON's, and ends at its first quote that is not escaped.
  lemma {:induction false} AcceptedIsQuotable(js: string, p: nat)
    requires StringEnd(js, p).Reached?
    ensures Quotable(js[p..StringEnd(js, p).pos])
    decreases |js| - p
  {
    hide HexEnd, SimpleEscape;
    var q := StringEnd(js, p).pos;
    var s := js[p..q];
    if p < q {
      if js[p] == '\\' && p + 1 < |js| {
        EscapeIs(js[p + 1]);
        if SimpleEscape(js[p + 1]) {
          AcceptedIsQuotable(js, p + 2);
          assert s[2..] == js[p + 2..q];
        } else {
          var h := HexEnd(js, p + 2, 4);
          HexReached(js, p + 2, 4);
          AcceptedIsQuotable(js, h.pos);
          assert h.pos == p + 6;
          assert s[6..] == js[p + 6..q];
          assert forall i :: 2 <= i < 6 ==> s[i] == js[p + i];
        }
      } else {
        AcceptedIsQuotable(js, p + 1);
        assert s[1..] == js[p + 1..q];
      }
    }
  }

  // The acceptance theorem: the string that starts at p ends at q if and only if a quote stands there
  // and what lies between is a string of JSON.
  lemma StringEndsExactly(js: string, p: nat, q: nat)
    requires p <= q
    ensures StringEnd(js, p) == Reached(q) <==> q < |js| && js[q] == '\"' && Quotable(js[p..q])
  {
    hide StringEnd, Quotable;
    if StringEnd(js, p) == Reached(q) {
      AcceptedIsQuotable(js, p);
    }
    if q < |js| && js[q] == '\"' && Quotable(js[p..q]) {
      QuotableEnd(js, p, js[p..q]);
    }
  }

  lemma {:induction false} HexStays(js: string, more: string, p: nat, n: nat)
    requires '\0' !in js && p <= |js|
    ensures HexEnd(js, p, n).Failed? ==> HexEnd(js + more, p, n).Failed?
    ensures HexEnd(js, p, n) == Reached(p + n) && p + n <= |js| ==> HexEnd(js + more, p, n) == Reached(p + n)
    decreases n
  {
    hide Hex;
    if n > 0 && p < |js| {
      assert (js + more)[p] == js[p];
      HexStays(js, more, p + 1, n - 1);
    }
  }

  // Text behind it changes neither where an accepted string ends nor that a string is invalid.
  lemma {:induction false} VerdictStays(js: string, more: string, p: nat)
    requires '\0' !in js && p <= |js| && StringEnd(js, p) != Failed(PART)
    ensures StringEnd(js + more, p) == StringEnd(js, p)
    decreases |js| - p
  {
    hide HexEnd, SimpleEscape;
    var all := js + more;
    assert all[p] == js[p];
    if js[p] == '\"' {
    } else if js[p] == '\\' && p + 1 < |js| {
      assert all[p + 1] == js[p + 1];
      if SimpleEscape(js[p + 1]) {
        VerdictStays(js, more, p + 2);
      } else if js[p + 1] == 'u' {
        HexStays(js, more, p + 2, 4);
        var h := HexEnd(js, p + 2, 4);
        if h.Reached? {
          HexReached(js, p + 2, 4);
          assert h.pos == p + 6;
          VerdictStays(js, more, p + 6);
        }
      }
    } else {
      assert p + 1 < |js|;
      VerdictStays(js, more, p + 1);
    }
  }

  lemma {:induction false} HexCompleted(js: string, zeros: string, p: nat, n: nat)
    requires '\0' !in js && p <= |js| && HexEnd(js, p, n).Reached? && HexEnd(js, p, n).pos == |js| <= p + n
    requires |zeros| >= p + n - |js| && forall i :: 0 <= i < p + n - |js| ==> zeros[i] == '0'
    ensures HexEnd(js + zeros, p, n) == Reached(p + n)
  {
    hide Hex, HexEnd;
    var all := js + zeros;
    HexReached(js, p, n);
    forall i | p <= i < p + n ensures Hex(all[i]) {
      HexIs(all[i]);
      assert all[i] == if i < |js| then js[i] else zeros[i - |js|];
    }
    HexDigits(all, p, n);
  }

  // A partial string can be completed.
  lemma {:induction false} PartIsCompletable(js: string, p: nat) returns (more: string)
    requires '\0' !in js && p <= |js| && StringEnd(js, p) == Failed(PART)
    ensures StringEnd(js + more, p).Reached?
    decreases |js| - p
  {
    hide HexEnd, SimpleEscape;
    if p == |js| {
      more := "\"";
      assert (js + more)[p] == '\"';
    } else if js[p] == '\\' && p + 1 == |js| {
      more := "n\"";
      EscapeIs('n');
      var all := js + more;
      assert all[p] == '\\' && all[p + 1] == 'n' && all[p + 2] == '\"';
    } else if js[p] == '\\' {
      if SimpleEscape(js[p + 1]) {
        more := PartIsCompletable(js, p + 2);
      } else {
        var h := HexEnd(js, p + 2, 4);
        HexReached(js, p + 2, 4);
        if h.pos == p + 6 && p + 6 <= |js| {
          more := PartIsCompletable(js, p + 6);
          HexStays(js, more, p + 2, 4);
        } else {
          more := "0000"[..p + 6 - |js|] + "\"";
          HexCompleted(js, more, p + 2, 4);
          assert (js + more)[p + 6] == '\"';
        }
      }
      assert (js + more)[p] == js[p] && (js + more)[p + 1] == js[p + 1];
    } else {
      more := PartIsCompletable(js, p + 1);
      assert (js + more)[p] == js[p];
    }
  }

  // The error theorem: a string that is not accepted is called partial if and only if some text
  // behind it would complete it; otherwise it is invalid, whatever comes.
  lemma StringErrorsExactly(js: string, p: nat)
    requires '\0' !in js && p <= |js| && StringEnd(js, p).Failed?
    ensures StringEnd(js, p) == Failed(PART) <==> exists more: string :: StringEnd(js + more, p).Reached?
    ensures StringEnd(js, p) == Failed(INVAL) <==> forall more: string :: StringEnd(js + more, p) == Failed(INVAL)
  {
    hide StringEnd;
    if StringEnd(js, p) == Failed(PART) {
      var more := PartIsCompletable(js, p);
      assert StringEnd(js + more, p).Reached?;
    } else {
      forall more: string ensures StringEnd(js + more, p) == Failed(INVAL) {
        VerdictStays(js, more, p);
      }
    }
  }

  // ------------------------------------------------------------------ primitives

  // A primitive ends at the first character that stops it, if everything before is printable.
  lemma {:induction false} PrimitiveEndsExactly(js: string, p: nat, q: nat)
    requires p <= q
    ensures PrimitiveEnd(js, p) == Reached(q) <==>
              && (q >= |js| || js[q] in "\0:\t\r\n ,]}") && (q > p ==> q <= |js|)
              && forall i :: p <= i < q && i < |js| ==> ' ' < js[i] <= '~' && js[i] !in ":,]}"
    decreases q - p
  {
    if p < q && p < |js| {
      PrimitiveEndsExactly(js, p + 1, q);
    }
  }
}
