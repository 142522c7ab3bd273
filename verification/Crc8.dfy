// The two CRC computations of firmware/user/ds18b20.c: the 256-entry table used on the
// scratchpad (lines 60-94) and the bitwise loop used on ROM codes (lines 202-216).
module Crc8 {
  import opened Bits

  // One bit of the bitwise computation: shift, and subtract the polynomial if a 1 fell out.
  function ShiftBit(crc: bv8): bv8 {
    (crc >> 1) ^ (if crc & 1 == 1 then 0x8C else 0)
  }

  function ShiftBits(crc: bv8, n: nat): bv8
    decreases n, crc
  {
    if n == 0 then crc else ShiftBits(ShiftBit(crc), n - 1)
  }

  function ShiftByte(crc: bv8): bv8 {
    ShiftBits(crc, 8)
  }

  // The CRC register after a message, starting from crc.
  function Crc(crc: bv8, message: seq<bv8>): bv8
    decreases |message|
  {
    if message == [] then crc else Crc(ShiftByte(crc ^ message[0]), message[1..])
  }

  // ShiftByte written out.
  function EightBits(crc: bv8): bv8 {
    ShiftBit(ShiftBit(ShiftBit(ShiftBit(ShiftBit(ShiftBit(ShiftBit(ShiftBit(crc))))))))
  }

  lemma ShiftByteIsEightBits(x: bv8)
    ensures ShiftByte(x) == EightBits(x)
  {
    var x2 := ShiftBit(ShiftBit(x));
    var x4 := ShiftBit(ShiftBit(x2));
    var x6 := ShiftBit(ShiftBit(x4));
    assert ShiftBits(x, 8) == ShiftBits(ShiftBit(x), 7) == ShiftBits(x2, 6);
    assert ShiftBits(x2, 6) == ShiftBits(ShiftBit(x2), 5) == ShiftBits(x4, 4);
    assert ShiftBits(x4, 4) == ShiftBits(ShiftBit(x4), 3) == ShiftBits(x6, 2);
    assert ShiftBits(x6, 2) == ShiftBits(ShiftBit(x6), 1) == ShiftBits(ShiftBit(ShiftBit(x6)), 0);
  }

  // ------------------------------------------------------------------ the table

  function FirstRows(x: bv8): bv8 {
    if x < 16 then (
      match x
        case 0 => 0 case 1 => 94 case 2 => 188 case 3 => 226
        case 4 => 97 case 5 => 63 case 6 => 221 case 7 => 131
        case 8 => 194 case 9 => 156 case 10 => 126 case 11 => 32
        case 12 => 163 case 13 => 253 case 14 => 31 case _ => 65
    ) else (
      match x
        case 16 => 157 case 17 => 195 case 18 => 33 case 19 => 127
        case 20 => 252 case 21 => 162 case 22 => 64 case 23 => 30
        case 24 => 95 case 25 => 1 case 26 => 227 case 27 => 189
        case 28 => 62 case 29 => 96 case 30 => 130 case _ => 220
    )
  }

  lemma FirstRowsAreEightBits(x: bv8)
    requires 0 <= x <= 31
    ensures FirstRows(x) == EightBits(x)
  {
  }

  function SecondRows(x: bv8): bv8 {
    if x < 48 then (
      match x
        case 32 => 35 case 33 => 125 case 34 => 159 case 35 => 193
        case 36 => 66 case 37 => 28 case 38 => 254 case 39 => 160
        case 40 => 225 case 41 => 191 case 42 => 93 case 43 => 3
        case 44 => 128 case 45 => 222 case 46 => 60 case _ => 98
    ) else (
      match x
        case 48 => 190 case 49 => 224 case 50 => 2 case 51 => 92
        case 52 => 223 case 53 => 129 case 54 => 99 case 55 => 61
        case 56 => 124 case 57 => 34 case 58 => 192 case 59 => 158
        case 60 => 29 case 61 => 67 case 62 => 161 case _ => 255
    )
  }

  lemma SecondRowsAreEightBits(x: bv8)
    requires 32 <= x <= 63
    ensures SecondRows(x) == EightBits(x)
  {
  }

  function ThirdRows(x: bv8): bv8 {
    if x < 80 then (
      match x
        case 64 => 70 case 65 => 24 case 66 => 250 case 67 => 164
        case 68 => 39 case 69 => 121 case 70 => 155 case 71 => 197
        case 72 => 132 case 73 => 218 case 74 => 56 case 75 => 102
        case 76 => 229 case 77 => 187 case 78 => 89 case _ => 7
    ) else (
      match x
        case 80 => 219 case 81 => 133 case 82 => 103 case 83 => 57
        case 84 => 186 case 85 => 228 case 86 => 6 case 87 => 88
        case 88 => 25 case 89 => 71 case 90 => 165 case 91 => 251
        case 92 => 120 case 93 => 38 case 94 => 196 case _ => 154
    )
  }

  lemma ThirdRowsAreEightBits(x: bv8)
    requires 64 <= x <= 95
    ensures ThirdRows(x) == EightBits(x)
  {
  }

  function FourthRows(x: bv8): bv8 {
    if x < 112 then (
      match x
        case 96 => 101 case 97 => 59 case 98 => 217 case 99 => 135
        case 100 => 4 case 101 => 90 case 102 => 184 case 103 => 230
        case 104 => 167 case 105 => 249 case 106 => 27 case 107 => 69
        case 108 => 198 case 109 => 152 case 110 => 122 case _ => 36
    ) else (
      match x
        case 112 => 248 case 113 => 166 case 114 => 68 case 115 => 26
        case 116 => 153 case 117 => 199 case 118 => 37 case 119 => 123
        case 120 => 58 case 121 => 100 case 122 => 134 case 123 => 216
        case 124 => 91 case 125 => 5 case 126 => 231 case _ => 185
    )
  }

  lemma FourthRowsAreEightBits(x: bv8)
    requires 96 <= x <= 127
    ensures FourthRows(x) == EightBits(x)
  {
  }

  function FifthRows(x: bv8): bv8 {
    if x < 144 then (
      match x
        case 128 => 140 case 129 => 210 case 130 => 48 case 131 => 110
        case 132 => 237 case 133 => 179 case 134 => 81 case 135 => 15
        case 136 => 78 case 137 => 16 case 138 => 242 case 139 => 172
        case 140 => 47 case 141 => 113 case 142 => 147 case _ => 205
    ) else (
      match x
        case 144 => 17 case 145 => 79 case 146 => 173 case 147 => 243
        case 148 => 112 case 149 => 46 case 150 => 204 case 151 => 146
        case 152 => 211 case 153 => 141 case 154 => 111 case 155 => 49
        case 156 => 178 case 157 => 236 case 158 => 14 case _ => 80
    )
  }

  lemma FifthRowsAreEightBits(x: bv8)
    requires 128 <= x <= 159
    ensures FifthRows(x) == EightBits(x)
  {
  }

  function SixthRows(x: bv8): bv8 {
    if x < 176 then (
      match x
        case 160 => 175 case 161 => 241 case 162 => 19 case 163 => 77
        case 164 => 206 case 165 => 144 case 166 => 114 case 167 => 44
        case 168 => 109 case 169 => 51 case 170 => 209 case 171 => 143
        case 172 => 12 case 173 => 82 case 174 => 176 case _ => 238
    ) else (
      match x
        case 176 => 50 case 177 => 108 case 178 => 142 case 179 => 208
        case 180 => 83 case 181 => 13 case 182 => 239 case 183 => 177
        case 184 => 240 case 185 => 174 case 186 => 76 case 187 => 18
        case 188 => 145 case 189 => 207 case 190 => 45 case _ => 115
    )
  }

  lemma SixthRowsAreEightBits(x: bv8)
    requires 160 <= x <= 191
    ensures SixthRows(x) == EightBits(x)
  {
  }

  function SeventhRows(x: bv8): bv8 {
    if x < 208 then (
      match x
        case 192 => 202 case 193 => 148 case 194 => 118 case 195 => 40
        case 196 => 171 case 197 => 245 case 198 => 23 case 199 => 73
        case 200 => 8 case 201 => 86 case 202 => 180 case 203 => 234
        case 204 => 105 case 205 => 55 case 206 => 213 case _ => 139
    ) else (
      match x
        case 208 => 87 case 209 => 9 case 210 => 235 case 211 => 181
        case 212 => 54 case 213 => 104 case 214 => 138 case 215 => 212
        case 216 => 149 case 217 => 203 case 218 => 41 case 219 => 119
        case 220 => 244 case 221 => 170 case 222 => 72 case _ => 22
    )
  }

  lemma SeventhRowsAreEightBits(x: bv8)
    requires 192 <= x <= 223
    ensures SeventhRows(x) == EightBits(x)
  {
  }

  function EighthRows(x: bv8): bv8 {
    if x < 240 then (
      match x
        case 224 => 233 case 225 => 183 case 226 => 85 case 227 => 11
        case 228 => 136 case 229 => 214 case 230 => 52 case 231 => 106
        case 232 => 43 case 233 => 117 case 234 => 151 case 235 => 201
        case 236 => 74 case 237 => 20 case 238 => 246 case _ => 168
    ) else (
      match x
        case 240 => 116 case 241 => 42 case 242 => 200 case 243 => 150
        case 244 => 21 case 245 => 75 case 246 => 169 case 247 => 247
        case 248 => 182 case 249 => 232 case 250 => 10 case 251 => 84
        case 252 => 215 case 253 => 137 case 254 => 107 case _ => 53
    )
  }

  lemma EighthRowsAreEightBits(x: bv8)
    requires 224 <= x <= 255
    ensures EighthRows(x) == EightBits(x)
  {
  }

  // dscrc_table, as declared: two of its lines at a time.
  function Table(x: bv8): bv8 {
    if x < 32 then FirstRows(x)
    else if x < 64 then SecondRows(x)
    else if x < 96 then ThirdRows(x)
    else if x < 128 then FourthRows(x)
    else if x < 160 then FifthRows(x)
    else if x < 192 then SixthRows(x)
    else if x < 224 then SeventhRows(x)
    else EighthRows(x)
  }

  // Every entry of the table is eight steps of the bitwise computation.
  lemma TableIsShiftByte(x: bv8)
    ensures Table(x) == ShiftByte(x)
  {
    ShiftByteIsEightBits(x);
    if x < 32 {
      FirstRowsAreEightBits(x);
    } else if x < 64 {
      SecondRowsAreEightBits(x);
    } else if x < 96 {
      ThirdRowsAreEightBits(x);
    } else if x < 128 {
      FourthRowsAreEightBits(x);
    } else if x < 160 {
      FifthRowsAreEightBits(x);
    } else if x < 192 {
      SixthRowsAreEightBits(x);
    } else if x < 224 {
      SeventhRowsAreEightBits(x);
    } else {
      EighthRowsAreEightBits(x);
    }
  }

  // ------------------------------------------------------------------ the two computations

  // The register ow_crc updates through the table.
  class CrcRegister {
    var dowcrc: bv8

    method OwCrc(x: bv8) returns (crc: bv8)
      modifies this
      ensures crc == dowcrc == Crc(old(dowcrc), [x])
    {
      TableIsShiftByte(dowcrc ^ x);
      assert Crc(dowcrc, [x]) == ShiftByte(dowcrc ^ x);
      dowcrc := Table(dowcrc ^ x);
      crc := dowcrc;
    }

    // The scratchpad check of readDS: the register over the data bytes against the CRC byte.
    method ScratchpadIntact(data: seq<bv8>, crc: bv8) returns (ok: bool)
      modifies this
      ensures ok <==> Crc(0, data) == crc
    {
      dowcrc := 0;
      for i := 0 to |data|
        invariant Crc(0, data) == Crc(dowcrc, data[i..])
      {
        assert data[i..] == [data[i]] + data[i + 1..];
        var _ := OwCrc(data[i]);
      }
      ok := crc == dowcrc;
    }
  }

  // One round of the inner loop of crc8 on the register.
  function BitwiseRound(crc: bv8, inbyte: bv8): bv8 {
    if (crc ^ inbyte) & 1 != 0 then (crc >> 1) ^ 0x8C else crc >> 1
  }

  // Shifting the register and the input byte side by side shifts their sum.
  lemma RoundShiftsSum(crc: bv8, inbyte: bv8)
    ensures BitwiseRound(crc, inbyte) ^ (inbyte >> 1) == ShiftBit(crc ^ inbyte)
  {
  }

  lemma RoundIsOneShift(crc: bv8, inbyte: bv8, n: nat)
    requires n != 0
    ensures ShiftBits(BitwiseRound(crc, inbyte) ^ (inbyte >> 1), n - 1) == ShiftBits(crc ^ inbyte, n)
  {
    hide ShiftBit, BitwiseRound;
    RoundShiftsSum(crc, inbyte);
  }

  // When the whole byte has been shifted out, the register holds the result.
  lemma RoundsEnd(crc: bv8)
    ensures ShiftBits(crc ^ 0, 0) == crc
  {
    ZeroIsNeutral(crc);
  }

  lemma ZeroIsNeutral(x: bv8)
    ensures x ^ 0 == x
  {
  }

  ghost function ShiftedOut(x: bv8, n: nat): bv8
    decreases n, x
  {
    if n == 0 then x else ShiftedOut(x, n - 1) >> 1
  }

  lemma ByteIsShiftedOut(x: bv8)
    ensures ShiftedOut(x, 8) == 0
  {
    assert ShiftedOut(x, 3) == ShiftedOut(x, 2) >> 1 == ShiftedOut(x, 1) >> 1 >> 1;
    assert ShiftedOut(x, 6) == ShiftedOut(x, 5) >> 1 == ShiftedOut(x, 4) >> 1 >> 1;
    assert ShiftedOut(x, 4) == ShiftedOut(x, 3) >> 1;
    assert ShiftedOut(x, 8) == ShiftedOut(x, 7) >> 1 == ShiftedOut(x, 6) >> 1 >> 1;
  }

  // One input byte: shift the register and the byte side by side, eight times.
  method BitwiseByte(start: bv8, input: bv8) returns (crc: bv8)
    ensures crc == ShiftByte(start ^ input)
  {
    hide ShiftBit, ShiftBits, BitwiseRound;
    crc := start;
    var inbyte := input;
    var i := 8;
    while i != 0
      invariant 0 <= i <= 8
      invariant inbyte == ShiftedOut(input, 8 - i)
      invariant ShiftBits(crc ^ inbyte, i) == ShiftByte(start ^ input)
    {
      RoundIsOneShift(crc, inbyte, i);
      crc := BitwiseRound(crc, inbyte);
      inbyte := inbyte >> 1;
      i := i - 1;
    }
    ByteIsShiftedOut(input);
    RoundsEnd(crc);
  }

  // crc8: the bitwise loop; returns the value the table computation leaves in the register.
  method BitwiseCrc(addr: seq<bv8>) returns (crc: bv8)
    ensures crc == Crc(0, addr)
  {
    crc := 0;
    var n := 0;
    while n < |addr|
      invariant 0 <= n <= |addr|
      invariant Crc(0, addr) == Crc(crc, addr[n..])
    {
      assert addr[n..] == [addr[n]] + addr[n + 1..];
      crc := BitwiseByte(crc, addr[n]);
      n := n + 1;
    }
  }

  // ------------------------------------------------------------------ what the CRC detects

  function Xor(a: seq<bv8>, b: seq<bv8>): (c: seq<bv8>)
    requires |a| == |b|
    ensures |c| == |a|
  {
    seq(|a|, i requires 0 <= i < |a| => a[i] ^ b[i])
  }

  lemma ShiftBitIsLinear(a: bv8, b: bv8)
    ensures ShiftBit(a ^ b) == ShiftBit(a) ^ ShiftBit(b)
  {
  }

  ghost predicate Additive<T(!new)>(step: T -> T, plus: (T, T) -> T) {
    forall x, y :: step(plus(x, y)) == plus(step(x), step(y))
  }

  ghost function Times<T>(step: T -> T, x: T, n: nat): T {
    if n == 0 then x else Times(step, step(x), n - 1)
  }

  // Repeating an additive step is additive.
  lemma {:induction false} TimesIsAdditive<T(!new)>(step: T -> T, plus: (T, T) -> T, x: T, y: T, n: nat)
    requires Additive(step, plus)
    ensures Times(step, plus(x, y), n) == plus(Times(step, x, n), Times(step, y, n))
  {
    if n != 0 {
      TimesIsAdditive(step, plus, step(x), step(y), n - 1);
    }
  }

  function Plus(x: bv8, y: bv8): bv8 {
    x ^ y
  }

  lemma ShiftBitIsAdditive()
    ensures Additive(ShiftBit, Plus)
  {
    forall x, y ensures ShiftBit(Plus(x, y)) == Plus(ShiftBit(x), ShiftBit(y)) {
      ShiftBitIsLinear(x, y);
    }
  }

  lemma {:induction false} ShiftBitsIsTimes(x: bv8, n: nat)
    ensures ShiftBits(x, n) == Times(ShiftBit, x, n)
    decreases n
  {
    if n != 0 {
      ShiftBitsIsTimes(ShiftBit(x), n - 1);
    }
  }

  lemma EightTimesIsLinear(a: bv8, b: bv8)
    ensures Times(ShiftBit, a ^ b, 8) == Times(ShiftBit, a, 8) ^ Times(ShiftBit, b, 8)
  {
    hide Times, Additive, ShiftBit;
    ShiftBitIsAdditive();
    TimesIsAdditive(ShiftBit, Plus, a, b, 8);
    assert Plus(a, b) == a ^ b;
  }

  lemma ShiftByteIsLinear(a: bv8, b: bv8)
    ensures ShiftByte(a ^ b) == ShiftByte(a) ^ ShiftByte(b)
  {
    hide ShiftBits, Times, ShiftBit;
    ShiftBitsIsTimes(a, 8);
    ShiftBitsIsTimes(b, 8);
    ShiftBitsIsTimes(a ^ b, 8);
    EightTimesIsLinear(a, b);
  }

  lemma Regroup(a: bv8, b: bv8, x: bv8, y: bv8)
    ensures (a ^ b) ^ (x ^ y) == (a ^ x) ^ (b ^ y)
  {
  }

  // The same register walk over any kind of bytes, byte step and addition.
  ghost function Walk<T>(step: T -> T, plus: (T, T) -> T, crc: T, message: seq<T>): T
    decreases |message|
  {
    if message == [] then crc else Walk(step, plus, step(plus(crc, message[0])), message[1..])
  }

  ghost predicate Regroups<T(!new)>(plus: (T, T) -> T) {
    forall a, b, x, y :: plus(plus(a, b), plus(x, y)) == plus(plus(a, x), plus(b, y))
  }

  // A walk by an additive step is additive.
  lemma {:induction false} WalkIsAdditive<T(!new)>(step: T -> T, plus: (T, T) -> T, c: T, d: T,
                                                   a: seq<T>, b: seq<T>, sum: seq<T>)
    requires |a| == |b| == |sum| && (forall i :: 0 <= i < |a| ==> sum[i] == plus(a[i], b[i]))
    requires Additive(step, plus) && Regroups(plus)
    ensures Walk(step, plus, plus(c, d), sum) == plus(Walk(step, plus, c, a), Walk(step, plus, d, b))
    decreases |a|
  {
    if a != [] {
      assert plus(plus(c, d), sum[0]) == plus(plus(c, a[0]), plus(d, b[0]));
      WalkIsAdditive(step, plus, step(plus(c, a[0])), step(plus(d, b[0])), a[1..], b[1..], sum[1..]);
    }
  }

  lemma {:induction false} CrcIsWalk(c: bv8, a: seq<bv8>)
    ensures Crc(c, a) == Walk(ShiftByte, Plus, c, a)
    decreases |a|
  {
    if a != [] {
      CrcIsWalk(ShiftByte(c ^ a[0]), a[1..]);
    }
  }

  lemma ShiftByteIsAdditive()
    ensures Additive(ShiftByte, Plus)
  {
    forall x, y ensures ShiftByte(Plus(x, y)) == Plus(ShiftByte(x), ShiftByte(y)) {
      ShiftByteIsLinear(x, y);
    }
  }

  lemma PlusRegroups()
    ensures Regroups(Plus)
  {
    forall a, b, x, y ensures Plus(Plus(a, b), Plus(x, y)) == Plus(Plus(a, x), Plus(b, y)) {
      Regroup(a, b, x, y);
    }
  }

  // The CRC of a sum of messages is the sum of their CRCs.
  lemma CrcIsLinear(c: bv8, d: bv8, a: seq<bv8>, b: seq<bv8>)
    requires |a| == |b|
    ensures Crc(c ^ d, Xor(a, b)) == Crc(c, a) ^ Crc(d, b)
  {
    CrcIsWalk(c ^ d, Xor(a, b));
    CrcIsWalk(c, a);
    CrcIsWalk(d, b);
    ShiftByteIsAdditive();
    PlusRegroups();
    WalkIsAdditive(ShiftByte, Plus, c, d, a, b, Xor(a, b));
  }

  lemma {:induction false} CrcOfConcat(c: bv8, a: seq<bv8>, b: seq<bv8>)
    ensures Crc(c, a + b) == Crc(Crc(c, a), b)
    decreases |a|
  {
    if a == [] {
      assert a + b == b;
    } else {
      assert (a + b)[1..] == a[1..] + b;
      CrcOfConcat(ShiftByte(c ^ a[0]), a[1..], b);
    }
  }

  // A message followed by its own CRC leaves residue 0, and no other final byte does.
  lemma ResidueIsZero(message: seq<bv8>, crc: bv8)
    ensures Crc(0, message + [crc]) == 0 <==> crc == Crc(0, message)
  {
    CrcOfConcat(0, message, [crc]);
    var c := Crc(0, message);
    assert Crc(c, [crc]) == ShiftByte(c ^ crc);
    ShiftByteIsInvertible(c ^ crc);
    assert c ^ crc == 0 <==> c == crc;
  }

  lemma ShiftByteIsInvertible(x: bv8)
    ensures ShiftByte(x) == 0 <==> x == 0
  {
    ShiftByteIsEightBits(x);
  }

  lemma {:induction false} ZerosKeepDifference(c: bv8, zeros: seq<bv8>)
    requires c != 0 && forall i :: 0 <= i < |zeros| ==> zeros[i] == 0
    ensures Crc(c, zeros) != 0
    decreases |zeros|
  {
    if zeros != [] {
      assert c ^ zeros[0] == c;
      ShiftByteIsInvertible(c);
      ZerosKeepDifference(ShiftByte(c), zeros[1..]);
    }
  }

  // Bits from j up in one byte and below j in the next: a window of eight bits.
  lemma BurstOverTwoBytes(a: bv8, b: bv8, j: nat)
    requires j < 8 && (a != 0 || b != 0)
    requires a & (Mask(j) - 1) == 0 && b & !(Mask(j) - 1) == 0
    ensures ShiftByte(ShiftByte(a) ^ b) != 0
  {
    ShiftByteIsInvertible(ShiftByte(a) ^ b);
    ShiftByteIsEightBits(a);
  }

  // Every set bit of the error pattern lies within eight consecutive bits of the message,
  // numbered in transmission order.
  ghost predicate BurstAt(error: seq<bv8>, start: nat) {
    forall i, j :: 0 <= i < |error| && 0 <= j < 8 && Bit(error[i], j) ==> start <= 8 * i + j < start + 8
  }

  lemma {:induction false} BurstSurvivesPrefix(error: seq<bv8>, start: nat)
    requires BurstAt(error, start) && exists i :: 0 <= i < |error| && error[i] != 0
    ensures Crc(0, error) != 0
    decreases |error|
  {
    var rest := error[1..];
    if start >= 8 {
      // The burst begins in a later byte: this one is zero.
      assert error[0] == 0 by {
        ZeroByte(error[0]);
      }
      assert Crc(0, error) == Crc(0, rest) by {
        assert 0 ^ error[0] == 0 as bv8;
        ShiftByteIsInvertible(0);
      }
      forall i, j | 0 <= i < |rest| && 0 <= j < 8 && Bit(rest[i], j)
        ensures start - 8 <= 8 * i + j < start
      {
        assert Bit(error[i + 1], j);
      }
      var k :| 0 <= k < |error| && error[k] != 0;
      assert rest[k - 1] != 0;
      BurstSurvivesPrefix(rest, start - 8);
    } else {
      BurstInFirstBytes(error, start);
    }
  }

  lemma LaterBytesAreZero(error: seq<bv8>, start: nat, i: nat)
    requires start < 8 && BurstAt(error, start) && 2 <= i < |error|
    ensures error[i] == 0
  {
    ZeroByte(error[i]);
  }

  // The register after the first byte, and after the first two.
  lemma CrcOfFirst(error: seq<bv8>)
    requires error != []
    ensures Crc(0, error) == Crc(ShiftByte(error[0]), error[1..])
  {
    assert 0 ^ error[0] == error[0];
  }

  lemma CrcOfFirstTwo(error: seq<bv8>)
    requires |error| >= 2
    ensures Crc(0, error) == Crc(ShiftByte(ShiftByte(error[0]) ^ error[1]), error[2..])
  {
    hide ShiftByte;
    CrcOfFirst(error);
    assert error[1..][1..] == error[2..];
  }

  lemma CrcOfNothing(c: bv8)
    ensures Crc(c, []) == c
  {
  }

  lemma BurstInFirstBytes(error: seq<bv8>, start: nat)
    requires start < 8 && BurstAt(error, start) && exists i :: 0 <= i < |error| && error[i] != 0
    ensures Crc(0, error) != 0
  {
    hide Crc, ShiftByte, BurstAt, Bit;
    forall i | 2 <= i < |error| ensures error[i] == 0 {
      LaterBytesAreZero(error, start, i);
    }
    FirstBytesClear(error, start);
    var a := error[0];
    if |error| == 1 {
      ShiftByteIsInvertible(a);
      CrcOfFirst(error);
      CrcOfNothing(ShiftByte(a));
      assert error[1..] == [];
    } else {
      var b := error[1];
      BurstOverTwoBytes(a, b, start);
      CrcOfFirstTwo(error);
      ZerosKeepDifference(ShiftByte(ShiftByte(a) ^ b), error[2..]);
    }
  }

  lemma FirstBytesClear(error: seq<bv8>, start: nat)
    requires start < 8 && BurstAt(error, start) && error != []
    ensures error[0] & (Mask(start) - 1) == 0
    ensures |error| > 1 ==> error[1] & !(Mask(start) - 1) == 0
  {
    LowBitsClear(error[0], start);
    if |error| > 1 {
      HighBitsClear(error[1], start);
    }
  }

  lemma LowBitsClear(a: bv8, j: nat)
    requires j < 8 && forall i :: 0 <= i < j ==> !Bit(a, i)
    ensures a & (Mask(j) - 1) == 0
  {
    assert forall i :: 0 <= i < 8 ==> (i < j ==> !Bit(a, i));
    assert (0 < j ==> !Bit(a, 0)) && (1 < j ==> !Bit(a, 1)) && (2 < j ==> !Bit(a, 2)) && (3 < j ==> !Bit(a, 3));
    assert (4 < j ==> !Bit(a, 4)) && (5 < j ==> !Bit(a, 5)) && (6 < j ==> !Bit(a, 6));
  }

  lemma HighBitsClear(b: bv8, j: nat)
    requires j < 8 && forall i :: j <= i < 8 ==> !Bit(b, i)
    ensures b & !(Mask(j) - 1) == 0
  {
    assert (0 >= j ==> !Bit(b, 0)) && (1 >= j ==> !Bit(b, 1)) && (2 >= j ==> !Bit(b, 2)) && (3 >= j ==> !Bit(b, 3));
    assert (4 >= j ==> !Bit(b, 4)) && (5 >= j ==> !Bit(b, 5)) && (6 >= j ==> !Bit(b, 6)) && !Bit(b, 7);
  }

  lemma DifferenceShows(c: bv8, a: bv8, d: bv8)
    ensures c ^ 0 == c && (d != 0 ==> a ^ d != a)
  {
  }

  // Every non-zero error burst of at most eight bits changes the CRC, wherever it falls.
  lemma BurstIsDetected(crc: bv8, message: seq<bv8>, error: seq<bv8>, start: nat)
    requires |message| == |error| && BurstAt(error, start)
    requires exists i :: 0 <= i < |error| && error[i] != 0
    ensures Crc(crc, Xor(message, error)) != Crc(crc, message)
  {
    BurstSurvivesPrefix(error, start);
    CrcIsLinear(crc, 0, message, error);
    DifferenceShows(crc, Crc(crc, message), Crc(0, error));
  }
}
