// Which bit errors the CRC-8 of firmware/user/ds18b20.c notices: every odd number of them, and
// two of them exactly when they are not a multiple of 127 apart.
module CrcErrors {
  import opened Bits
  import opened Crc8

  // ------------------------------------------------------------------ the bits of a message

  // Bit k of a message, in transmission order.
  predicate BitAt(m: seq<bv8>, k: nat)
    requires k < 8 * |m|
  {
    Bit(m[k / 8], k % 8)
  }

  // The positions of the bits that are set, from position k on.
  ghost function SetBits(m: seq<bv8>, k: nat): (s: seq<nat>)
    requires k <= 8 * |m|
    ensures forall x :: x in s <==> k <= x < 8 * |m| && BitAt(m, x)
    ensures forall i, j :: 0 <= i < j < |s| ==> s[i] < s[j]
    decreases 8 * |m| - k
  {
    if k == 8 * |m| then []
    else
      var later := SetBits(m, k + 1);
      assert forall i :: 0 <= i < |later| ==> later[i] in later;
      if BitAt(m, k) then [k] + later else later
  }

  ghost function Weight(m: seq<bv8>): nat {
    |SetBits(m, 0)|
  }

  function One(up: bool): nat {
    if up then 1 else 0
  }

  ghost function ByteWeight(b: bv8): nat {
    One(Bit(b, 0)) + One(Bit(b, 1)) + One(Bit(b, 2)) + One(Bit(b, 3))
    + One(Bit(b, 4)) + One(Bit(b, 5)) + One(Bit(b, 6)) + One(Bit(b, 7))
  }

  lemma NextBit(m: seq<bv8>, j: nat)
    requires m != [] && j < 8
    ensures |SetBits(m, j)| == One(Bit(m[0], j)) + |SetBits(m, j + 1)|
  {
    hide Bit;
  }

  lemma LaterBit(m: seq<bv8>, k: nat)
    requires m != [] && k < 8 * |m[1..]|
    ensures BitAt(m, k + 8) == BitAt(m[1..], k)
  {
    assert (k + 8) / 8 == k / 8 + 1 && (k + 8) % 8 == k % 8;
  }

  lemma {:induction false} LaterBytes(m: seq<bv8>, k: nat)
    requires m != [] && k <= 8 * |m[1..]|
    ensures |SetBits(m, k + 8)| == |SetBits(m[1..], k)|
    decreases 8 * |m| - k
  {
    hide BitAt;
    if k < 8 * |m[1..]| {
      LaterBytes(m, k + 1);
      LaterBit(m, k);
    }
  }

  lemma WeightByBytes(m: seq<bv8>)
    requires m != []
    ensures Weight(m) == ByteWeight(m[0]) + Weight(m[1..])
  {
    hide Bit, SetBits;
    NextBit(m, 0);
    NextBit(m, 1);
    NextBit(m, 2);
    NextBit(m, 3);
    NextBit(m, 4);
    NextBit(m, 5);
    NextBit(m, 6);
    NextBit(m, 7);
    LaterBytes(m, 0);
  }

  // ------------------------------------------------------------------ odd errors

  function Down4(b: bv8): bv8 {
    b >> 4
  }

  function Down2(b: bv8): bv8 {
    b >> 2
  }

  function Down1(b: bv8): bv8 {
    b >> 1
  }

  // A byte and itself shifted down: the parity of a byte gathers in its lowest bit.
  ghost function Fold(down: bv8 -> bv8, b: bv8): bv8 {
    Plus(b, down(b))
  }

  predicate Low(b: bv8) {
    b & 1 == 1
  }

  ghost predicate Odd(b: bv8) {
    Low(Fold(Down1, Fold(Down2, Fold(Down4, b))))
  }

  lemma OddIsParity(b: bv8)
    ensures Odd(b) <==> ByteWeight(b) % 2 == 1
  {
  }

  lemma Down4OfSum(a: bv8, b: bv8)
    ensures Down4(Plus(a, b)) == Plus(Down4(a), Down4(b))
  {
  }

  lemma Down2OfSum(a: bv8, b: bv8)
    ensures Down2(Plus(a, b)) == Plus(Down2(a), Down2(b))
  {
  }

  lemma Down1OfSum(a: bv8, b: bv8)
    ensures Down1(Plus(a, b)) == Plus(Down1(a), Down1(b))
  {
  }

  lemma FoldOfSum(down: bv8 -> bv8, a: bv8, b: bv8)
    requires down(Plus(a, b)) == Plus(down(a), down(b))
    ensures Fold(down, Plus(a, b)) == Plus(Fold(down, a), Fold(down, b))
  {
    hide Plus;
    PlusRegroups();
    assert Plus(Plus(a, b), Plus(down(a), down(b))) == Plus(Plus(a, down(a)), Plus(b, down(b)));
  }

  lemma LowOfSum(a: bv8, b: bv8)
    ensures Low(Plus(a, b)) <==> Low(a) != Low(b)
  {
  }

  lemma OddOfSum(a: bv8, b: bv8)
    ensures Odd(Plus(a, b)) <==> Odd(a) != Odd(b)
  {
    hide Fold, Low, Plus, Down4, Down2, Down1;
    var a4, b4 := Fold(Down4, a), Fold(Down4, b);
    var a2, b2 := Fold(Down2, a4), Fold(Down2, b4);
    Down4OfSum(a, b);
    FoldOfSum(Down4, a, b);
    Down2OfSum(a4, b4);
    FoldOfSum(Down2, a4, b4);
    Down1OfSum(a2, b2);
    FoldOfSum(Down1, a2, b2);
    LowOfSum(Fold(Down1, a2), Fold(Down1, b2));
  }

  // The polynomial has an even number of terms, so a shift keeps the parity of the register.
  lemma ShiftKeepsParity(x: bv8)
    ensures Odd(ShiftBit(x)) == Odd(x)
  {
  }

  lemma {:induction false} ShiftsKeepParity(x: bv8, n: nat)
    ensures Odd(ShiftBits(x, n)) == Odd(x)
    decreases n
  {
    hide Odd, ShiftBit;
    if n > 0 {
      ShiftKeepsParity(x);
      ShiftsKeepParity(ShiftBit(x), n - 1);
    }
  }

  lemma CrcByByte(c: bv8, m: seq<bv8>)
    ensures Crc(c, m) == if m == [] then c else Crc(ShiftByte(Plus(c, m[0])), m[1..])
  {
    hide ShiftByte;
  }

  lemma {:induction false} CrcKeepsParity(c: bv8, m: seq<bv8>)
    ensures Odd(Crc(c, m)) <==> Odd(c) != (Weight(m) % 2 == 1)
    decreases |m|
  {
    hide Crc, Odd, Plus, ShiftBits, ByteWeight, Weight;
    CrcByByte(c, m);
    if m == [] {
      NoWeight();
    } else {
      WeightByBytes(m);
      OddIsParity(m[0]);
      OddOfSum(c, m[0]);
      ShiftsKeepParity(Plus(c, m[0]), 8);
      CrcKeepsParity(ShiftByte(Plus(c, m[0])), m[1..]);
    }
  }

  lemma NoWeight()
    ensures Weight([]) == 0
  {
  }

  lemma SumShows(a: bv8, d: bv8)
    ensures Plus(a, d) == a <==> d == 0
  {
  }

  lemma CrcWithError(crc: bv8, message: seq<bv8>, error: seq<bv8>)
    requires |message| == |error|
    ensures Crc(crc, Xor(message, error)) == Plus(Crc(crc, message), Crc(0, error))
  {
    CrcIsLinear(crc, 0, message, error);
    ZeroIsNeutral(crc);
  }

  // An error goes unnoticed exactly when its own CRC is 0.
  lemma NoticedByItsCrc(crc: bv8, message: seq<bv8>, error: seq<bv8>)
    requires |message| == |error|
    ensures Crc(crc, Xor(message, error)) == Crc(crc, message) <==> Crc(0, error) == 0
  {
    hide Crc, Plus;
    CrcWithError(crc, message, error);
    SumShows(Crc(crc, message), Crc(0, error));
  }

  // Every odd number of flipped bits changes the CRC, in a message of any length.
  lemma OddErrorsAreDetected(crc: bv8, message: seq<bv8>, error: seq<bv8>)
    requires |message| == |error| && Weight(error) % 2 == 1
    ensures Crc(crc, Xor(message, error)) != Crc(crc, message)
  {
    NoticedByItsCrc(crc, message, error);
    CrcKeepsParity(0, error);
  }

  // ------------------------------------------------------------------ two errors

  lemma NoShifts(c: bv8)
    ensures ShiftBits(c, 0) == c
  {
  }

  lemma {:induction false} ShiftsCompose(x: bv8, m: nat, n: nat)
    ensures ShiftBits(x, m + n) == ShiftBits(ShiftBits(x, m), n)
    decreases m
  {
    hide ShiftBit;
    if m > 0 {
      ShiftsCompose(ShiftBit(x), m - 1, n);
    }
  }

  lemma ShiftIsInjective(x: bv8, y: bv8)
    requires ShiftBit(x) == ShiftBit(y)
    ensures x == y
  {
  }

  lemma {:induction false} ShiftsAreInjective(x: bv8, y: bv8, n: nat)
    requires ShiftBits(x, n) == ShiftBits(y, n)
    ensures x == y
    decreases n
  {
    hide ShiftBit;
    if n > 0 {
      ShiftsAreInjective(ShiftBit(x), ShiftBit(y), n - 1);
      ShiftIsInjective(x, y);
    }
  }

  // n shifts bring the register 1 back.
  ghost predicate Returns(n: nat) {
    ShiftBits(1, n) == 1
  }

  lemma EightShifts(x: bv8, y: bv8, n: nat)
    requires ShiftBits(1, n) == x && EightBits(x) == y
    ensures ShiftBits(1, n + 8) == y
  {
    hide ShiftBits, EightBits;
    ShiftsCompose(1, n, 8);
    ShiftByteIsEightBits(x);
  }

  lemma Returns127()
    ensures Returns(127)
  {
    hide ShiftBits;
    NoShifts(1);
    EightShifts(1, 94, 0);
    EightShifts(94, 196, 8);
    EightShifts(196, 171, 16);
    EightShifts(171, 143, 24);
    EightShifts(143, 205, 32);
    EightShifts(205, 55, 40);
    EightShifts(55, 61, 48);
    EightShifts(61, 67, 56);
    EightShifts(67, 164, 64);
    EightShifts(164, 206, 72);
    EightShifts(206, 213, 80);
    EightShifts(213, 104, 88);
    EightShifts(104, 167, 96);
    EightShifts(167, 44, 104);
    EightShifts(44, 128, 112);
    ShiftsCompose(1, 120, 7);
    LastSevenShifts();
  }

  lemma LastSevenShifts()
    ensures ShiftBits(128, 7) == 1
  {
    assert ShiftBits(128, 7) == ShiftBits(64, 6) == ShiftBits(32, 5) == ShiftBits(16, 4);
    assert ShiftBits(16, 4) == ShiftBits(8, 3) == ShiftBits(4, 2) == ShiftBits(2, 1) == ShiftBits(1, 0);
  }

  // What is left of a number of shifts that return after another that do returns as well.
  lemma ReturnsAfter(m: nat, n: nat)
    requires Returns(m)
    ensures Returns(m + n) <==> Returns(n)
  {
    ShiftsCompose(1, m, n);
  }

  lemma {:induction false} ReturnsAfterAny(m: nat, q: nat, r: nat)
    requires Returns(m)
    ensures q * m + r >= 0 && (Returns(q * m + r) <==> Returns(r))
    decreases q
  {
    hide Returns;
    if q > 0 {
      ReturnsAfterAny(m, q - 1, r);
      assert q * m + r == m + ((q - 1) * m + r);
      ReturnsAfter(m, (q - 1) * m + r);
    }
  }

  // 127 is prime, so nothing less returns: otherwise one shift would.
  lemma {:induction false} NothingLessReturns(n: nat)
    requires 0 < n < 127
    ensures !Returns(n)
    decreases n
  {
    hide Returns;
    if n == 1 {
      OneDoesNotReturn();
    } else if Returns(n) {
      Returns127();
      ReturnsAfterAny(n, 127 / n, 127 % n);
      assert 127 / n * n + 127 % n == 127;
      NoDivisorOf127(n);
      NothingLessReturns(127 % n);
    }
  }

  lemma OneDoesNotReturn()
    ensures !Returns(1)
  {
    assert ShiftBits(1, 1) == ShiftBits(0x8C, 0);
  }

  lemma NoDivisorOf127(n: nat)
    requires 1 < n < 127
    ensures 127 % n != 0
  {
  }

  lemma ReturnsExactly(n: nat)
    ensures Returns(n) <==> n % 127 == 0
  {
    hide Returns;
    Returns127();
    ReturnsAfterAny(127, n / 127, n % 127);
    assert n / 127 * 127 + n % 127 == n;
    if n % 127 == 0 {
      ZeroReturns();
    } else {
      NothingLessReturns(n % 127);
    }
  }

  lemma ZeroReturns()
    ensures Returns(0)
  {
  }

  // n bytes of which only bit p is set.
  ghost function Impulse(n: nat, p: nat): (m: seq<bv8>)
    requires p < 8 * n
    ensures |m| == n
  {
    seq(n, i requires 0 <= i < n => if i == p / 8 then Mask(p % 8) else 0)
  }

  lemma MaskBits(i: nat, j: nat)
    requires i < 8 && j < 8
    ensures Bit(Mask(i), j) <==> i == j
    ensures !Bit(0, j)
  {
  }

  lemma ImpulseBits(n: nat, p: nat, k: nat)
    requires p < 8 * n && k < 8 * n
    ensures BitAt(Impulse(n, p), k) <==> k == p
  {
    hide Bit, Mask;
    MaskBits(p % 8, k % 8);
    assert k == 8 * (k / 8) + k % 8 && p == 8 * (p / 8) + p % 8;
  }

  function Zeros(n: nat): seq<bv8> {
    seq(n, _ => 0)
  }

  lemma {:induction false} CrcOfZeros(c: bv8, n: nat)
    ensures Crc(c, Zeros(n)) == ShiftBits(c, 8 * n)
    decreases n
  {
    hide ShiftBits;
    if n == 0 {
      NoShifts(c);
    } else {
      assert Zeros(n)[1..] == Zeros(n - 1);
      ZeroIsNeutral(c);
      CrcOfZeros(ShiftByte(c), n - 1);
      ShiftsCompose(c, 8, 8 * (n - 1));
    }
  }

  lemma {:induction false} MaskShiftsDown(j: nat)
    requires j < 8
    ensures ShiftBits(Mask(j), j) == 1
  {
    if j > 0 {
      MaskShiftsDown(j - 1);
      assert ShiftBit(Mask(j)) == Mask(j - 1);
    }
  }

  // The register after one set bit and the shifts behind it.
  lemma {:induction false} CrcOfImpulse(n: nat, p: nat)
    requires p < 8 * n
    ensures Crc(0, Impulse(n, p)) == ShiftBits(1, 8 * n - p)
    decreases n
  {
    hide ShiftBits, Mask;
    var m := Impulse(n, p);
    if p < 8 {
      assert m[0] == Mask(p) && m[1..] == Zeros(n - 1);
      ZeroIsNeutral(Mask(p));
      assert 0 ^ Mask(p) == Mask(p);
      CrcOfZeros(ShiftByte(Mask(p)), n - 1);
      ShiftsCompose(Mask(p), p, 8 - p);
      MaskShiftsDown(p);
      ShiftsCompose(1, 8 - p, 8 * (n - 1));
    } else {
      assert m[0] == 0 && m[1..] == Impulse(n - 1, p - 8);
      ZeroIsNeutral(0);
      ShiftByteIsInvertible(0);
      CrcOfImpulse(n - 1, p - 8);
    }
  }

  lemma SameBits(a: bv8, b: bv8)
    requires forall j: nat :: j < 8 ==> (Bit(a, j) <==> Bit(b, j))
    ensures a == b
  {
    assert Bit(a, 0) <==> Bit(b, 0);
    assert Bit(a, 1) <==> Bit(b, 1);
    assert Bit(a, 2) <==> Bit(b, 2);
    assert Bit(a, 3) <==> Bit(b, 3);
    assert Bit(a, 4) <==> Bit(b, 4);
    assert Bit(a, 5) <==> Bit(b, 5);
    assert Bit(a, 6) <==> Bit(b, 6);
    assert Bit(a, 7) <==> Bit(b, 7);
  }

  lemma SameMessage(a: seq<bv8>, b: seq<bv8>)
    requires |a| == |b| && forall k: nat :: k < 8 * |a| ==> (BitAt(a, k) <==> BitAt(b, k))
    ensures a == b
  {
    hide Bit;
    forall i | 0 <= i < |a| ensures a[i] == b[i] {
      forall j: nat | j < 8 ensures Bit(a[i], j) <==> Bit(b[i], j) {
        assert (8 * i + j) / 8 == i && (8 * i + j) % 8 == j;
        assert BitAt(a, 8 * i + j) <==> BitAt(b, 8 * i + j);
      }
      SameBits(a[i], b[i]);
    }
  }

  // Adding a message with one other bit set sets that bit.
  lemma AddedBits(n: nat, p: nat, q: nat, k: nat)
    requires p < 8 * n && q < 8 * n && p != q && k < 8 * n
    ensures BitAt(Xor(Impulse(n, p), Impulse(n, q)), k) <==> k == p || k == q
  {
    hide Bit, Mask, Impulse;
    ImpulseBits(n, p, k);
    ImpulseBits(n, q, k);
    BitOfSum(Impulse(n, p)[k / 8], Impulse(n, q)[k / 8], k % 8);
  }

  predicate Has(b: bv8, mask: bv8) {
    b & mask != 0
  }

  lemma BitIsMasked(b: bv8, j: nat)
    ensures Bit(b, j) == Has(b, Mask(j))
  {
  }

  lemma MaskedSum(a: bv8, b: bv8, mask: bv8)
    requires !Has(a, mask) || !Has(b, mask)
    ensures Has(Plus(a, b), mask) <==> Has(a, mask) || Has(b, mask)
  {
    if !Has(a, mask) {
      assert (a ^ b) & mask == (a & mask) ^ (b & mask);
    }
  }

  lemma BitOfSum(a: bv8, b: bv8, j: nat)
    requires !Bit(a, j) || !Bit(b, j)
    ensures Bit(Plus(a, b), j) <==> Bit(a, j) || Bit(b, j)
  {
    hide Bit, Has, Mask, Plus;
    BitIsMasked(a, j);
    BitIsMasked(b, j);
    BitIsMasked(Plus(a, b), j);
    MaskedSum(a, b, Mask(j));
  }

  lemma TwoImpulses(error: seq<bv8>, p: nat, q: nat)
    requires SetBits(error, 0) == [p, q]
    ensures p < q < 8 * |error| && error == Xor(Impulse(|error|, p), Impulse(|error|, q))
  {
    hide Impulse, BitAt;
    assert p in SetBits(error, 0) && q in SetBits(error, 0);
    assert SetBits(error, 0)[0] < SetBits(error, 0)[1];
    var n := |error|;
    var sum := Xor(Impulse(n, p), Impulse(n, q));
    forall k: nat | k < 8 * n ensures BitAt(error, k) <==> BitAt(sum, k) {
      AddedBits(n, p, q, k);
      assert k in SetBits(error, 0) <==> k in [p, q];
    }
    SameMessage(error, sum);
  }

  lemma CrcOfTwo(n: nat, p: nat, q: nat)
    requires p < q < 8 * n
    ensures Crc(0, Xor(Impulse(n, p), Impulse(n, q))) == Plus(ShiftBits(1, 8 * n - p), ShiftBits(1, 8 * n - q))
  {
    hide Crc, ShiftBits, Impulse;
    CrcWithError(0, Impulse(n, p), Impulse(n, q));
    CrcOfImpulse(n, p);
    CrcOfImpulse(n, q);
  }

  // Two registers are the same if and only if the shifts between them return.
  lemma SameRegister(x: bv8, between: nat, n: nat)
    ensures ShiftBits(x, between + n) == ShiftBits(x, n) <==> ShiftBits(x, between) == x
  {
    hide ShiftBits;
    ShiftsCompose(x, between, n);
    if ShiftBits(x, between + n) == ShiftBits(x, n) {
      ShiftsAreInjective(ShiftBits(x, between), x, n);
    }
  }

  lemma SumIsZero(a: bv8, b: bv8)
    ensures Plus(a, b) == 0 <==> a == b
  {
  }

  // Two flipped bits go unnoticed if and only if they are a multiple of 127 apart.
  lemma TwoErrorsExactly(crc: bv8, message: seq<bv8>, error: seq<bv8>, p: nat, q: nat)
    requires |message| == |error| && SetBits(error, 0) == [p, q]
    ensures p < q && (Crc(crc, Xor(message, error)) == Crc(crc, message) <==> (q - p) % 127 == 0)
  {
    hide Crc, ShiftBits, Impulse, Xor, Plus, SetBits;
    TwoImpulses(error, p, q);
    NoticedByItsCrc(crc, message, error);
    var n := |error|;
    CrcOfTwo(n, p, q);
    SumIsZero(ShiftBits(1, 8 * n - p), ShiftBits(1, 8 * n - q));
    SameRegister(1, q - p, 8 * n - q);
    ReturnsExactly(q - p);
  }

  // ------------------------------------------------------------------ up to three errors

  ghost predicate NoticesThree(crc: bv8, message: seq<bv8>) {
    forall error :: |error| == |message| && 1 <= Weight(error) <= 3
                    ==> Crc(crc, Xor(message, error)) != Crc(crc, message)
  }

  lemma ThreeAreNoticed(crc: bv8, message: seq<bv8>, error: seq<bv8>)
    requires |error| == |message| <= 15 && 1 <= Weight(error) <= 3
    ensures Crc(crc, Xor(message, error)) != Crc(crc, message)
  {
    hide Crc, Xor, SetBits;
    if Weight(error) == 2 {
      var p, q := SetBits(error, 0)[0], SetBits(error, 0)[1];
      assert SetBits(error, 0) == [p, q];
      assert q in SetBits(error, 0);
      TwoErrorsExactly(crc, message, error, p, q);
    } else {
      OddErrorsAreDetected(crc, message, error);
    }
  }

  lemma AscendingPair(s: seq<nat>, p: nat, q: nat)
    requires p < q && (forall x :: x in s <==> x == p || x == q)
    requires forall i, j :: 0 <= i < j < |s| ==> s[i] < s[j]
    ensures s == [p, q]
  {
    assert p in s && q in s;
    var i :| 0 <= i < |s| && s[i] == p;
    var j :| 0 <= j < |s| && s[j] == q;
    assert forall k :: 0 <= k < |s| ==> s[k] in s;
    assert s[0] == p;
    assert s[1] == q;
  }

  // In sixteen bytes there is room for two bits 127 apart.
  lemma SixteenBytes(crc: bv8, message: seq<bv8>)
    requires |message| >= 16
    ensures !NoticesThree(crc, message)
  {
    hide Crc, Impulse, BitAt;
    var n := |message|;
    var error := Xor(Impulse(n, 0), Impulse(n, 127));
    forall k: nat | k < 8 * n ensures BitAt(error, k) <==> k == 0 || k == 127 {
      AddedBits(n, 0, 127, k);
    }
    AscendingPair(SetBits(error, 0), 0, 127);
    TwoErrorsExactly(crc, message, error, 0, 127);
    assert |error| == |message| && Weight(error) == 2;
    assert Crc(crc, Xor(message, error)) == Crc(crc, message);
  }

  // Every error of up to three bits is noticed exactly in messages of up to fifteen bytes; a ROM
  // code has eight and a scratchpad nine.
  lemma ThreeErrorsExactly(crc: bv8, message: seq<bv8>)
    ensures NoticesThree(crc, message) <==> |message| <= 15
  {
    hide Crc, Xor, Weight;
    if |message| <= 15 {
      forall error | |error| == |message| && 1 <= Weight(error) <= 3
        ensures Crc(crc, Xor(message, error)) != Crc(crc, message)
      {
        ThreeAreNoticed(crc, message, error);
      }
    } else {
      SixteenBytes(crc, message);
    }
  }
}
