// Single bits of a byte, counted from the least significant.
module Bits {

  // The mask with only bit j set; 0 once the bit has been shifted out of the byte.
  function Mask(j: nat): bv8 {
    if j == 0 then 1 else if j == 1 then 2 else if j == 2 then 4 else if j == 3 then 8
    else if j == 4 then 16 else if j == 5 then 32 else if j == 6 then 64
    else if j == 7 then 128 else 0
  }

  predicate Bit(b: bv8, j: nat) {
    b & Mask(j) != 0
  }

  lemma SetBit(b: bv8, i: nat, j: nat)
    requires i < 8 && j < 8
    ensures Bit(b | Mask(i), j) == (i == j || Bit(b, j))
  {
  }

  lemma ClearBit(b: bv8, i: nat, j: nat)
    requires i < 8 && j < 8
    ensures Bit(b & !Mask(i), j) == (i != j && Bit(b, j))
  {
  }

  lemma FirstMask()
    ensures Mask(0) == 1
  {
  }

  lemma ShiftMask(j: nat)
    requires j < 8
    ensures Mask(j) << 1 == Mask(j + 1)
    ensures Mask(j + 1) == 0 <==> j == 7
  {
  }

  lemma ZeroByte(b: bv8)
    ensures b == 0 <==> forall j :: 0 <= j < 8 ==> !Bit(b, j)
  {
    if forall j :: 0 <= j < 8 ==> !Bit(b, j) {
      assert !Bit(b, 0) && !Bit(b, 1) && !Bit(b, 2) && !Bit(b, 3);
      assert !Bit(b, 4) && !Bit(b, 5) && !Bit(b, 6) && !Bit(b, 7);
    }
  }
}
