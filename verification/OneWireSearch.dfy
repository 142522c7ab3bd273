// The ROM search of firmware/user/ds18b20.c over an abstract 1-Wire bus.
//
// `Search.DsSearch` is the bit-by-bit search as the driver writes it, with its byte and
// mask counters.  `Next` is the same call as a function of the search state.  What a run of
// calls enumerates is said in RomEnumeration.dfy.
module OneWireSearch {
  import opened Bits

  const ROM_BITS := 64

  // A ROM code in transmission order: bit 0 is the least significant bit of the family byte.
  type Rom = r: seq<bool> | |r| == ROM_BITS witness seq(ROM_BITS, _ => false)

  // ------------------------------------------------------------------ bits and bytes

  function RomOf(bytes: seq<bv8>): Rom
    requires |bytes| == 8
  {
    seq(ROM_BITS, k requires 0 <= k < ROM_BITS => Bit(bytes[k / 8], k % 8))
  }

  lemma RomBit(bytes: seq<bv8>, n: nat, j: nat)
    requires |bytes| == 8 && n < 8 && j < 8
    ensures RomOf(bytes)[8 * n + j] == Bit(bytes[n], j)
  {
    assert (8 * n + j) / 8 == n && (8 * n + j) % 8 == j;
  }

  // rom_byte |= mask or rom_byte &= ~mask
  function StoredByte(b: bv8, mask: bv8, v: bool): bv8 {
    if v then b | mask else b & !mask
  }

  // Storing bit j of byte n stores bit 8n + j of the ROM code and no other.
  lemma StoreRomBits(bytes: seq<bv8>, n: nat, j: nat, v: bool)
    requires |bytes| == 8 && n < 8 && j < 8
    ensures RomOf(bytes[n := StoredByte(bytes[n], Mask(j), v)]) == RomOf(bytes)[8 * n + j := v]
  {
    var b := StoredByte(bytes[n], Mask(j), v);
    forall i | 0 <= i < 8
      ensures Bit(b, i) == if i == j then v else Bit(bytes[n], i)
    {
      SetBit(bytes[n], j, i);
      ClearBit(bytes[n], j, i);
    }
    UpdateRomByte(bytes, n, j, b, v);
  }

  lemma UpdateRomByte(bytes: seq<bv8>, n: nat, j: nat, b: bv8, v: bool)
    requires |bytes| == 8 && n < 8 && j < 8
    requires forall i :: 0 <= i < 8 ==> Bit(b, i) == if i == j then v else Bit(bytes[n], i)
    ensures RomOf(bytes[n := b]) == RomOf(bytes)[8 * n + j := v]
  {
    var stored, updated := RomOf(bytes[n := b]), RomOf(bytes)[8 * n + j := v];
    forall k | 0 <= k < ROM_BITS
      ensures stored[k] == updated[k]
    {
      var q, i := k / 8, k % 8;
      RomBit(bytes, q, i);
      RomBit(bytes[n := b], q, i);
    }
  }

  predicate ZeroFamily(r: Rom) {
    forall j :: 0 <= j < 8 ==> !r[j]
  }

  lemma ZeroFirstByte(bytes: seq<bv8>)
    requires |bytes| == 8
    ensures bytes[0] == 0 <==> ZeroFamily(RomOf(bytes))
  {
    ZeroByte(bytes[0]);
    assert forall j :: 0 <= j < 8 ==> RomOf(bytes)[j] == Bit(bytes[0], j);
  }

  // ------------------------------------------------------------------ the bus

  // Wired-AND: the line is high only if every device still listening lets it float.
  predicate AllBits(active: set<Rom>, k: nat, v: bool)
    requires k < ROM_BITS
  {
    forall r | r in active :: r[k] == v
  }

  function Answering(active: set<Rom>, k: nat, v: bool): set<Rom>
    requires k < ROM_BITS
  {
    set r | r in active && r[k] == v
  }

  // A bit and its complement both read high only when nobody is listening.
  lemma BothBits(active: set<Rom>, k: nat)
    requires k < ROM_BITS
    ensures AllBits(active, k, true) && AllBits(active, k, false) <==> active == {}
  {
    if r :| r in active {
      assert r[k] == true || r[k] == false;
    }
  }

  class Bus {
    const devices: set<Rom>
    const presence: bool     // whether a presence pulse follows a reset
    var active: set<Rom>     // devices that have not been deselected
    var position: nat        // the ROM bit the devices send next
    var complement: bool     // whether they send it inverted

    constructor (devices: set<Rom>, presence: bool)
      ensures this.devices == devices && this.presence == presence
    {
      this.devices, this.presence := devices, presence;
      active, position, complement := {}, 0, false;
    }

    method Reset() returns (r: bool)
      modifies this
      ensures r == presence && active == {}
    {
      active := {};
      r := presence;
    }

    method SearchCommand()
      modifies this
      ensures active == devices && position == 0 && !complement
    {
      active, position, complement := devices, 0, false;
    }

    method ReadBit() returns (b: bool)
      requires position < ROM_BITS
      modifies this`complement
      ensures b == AllBits(active, position, !old(complement)) && complement == !old(complement)
    {
      b := AllBits(active, position, !complement);
      complement := !complement;
    }

    method WriteBit(v: bool)
      requires position < ROM_BITS
      modifies this
      ensures active == Answering(old(active), old(position), v)
      ensures position == old(position) + 1 && !complement
    {
      active := Answering(active, position, v);
      position, complement := position + 1, false;
    }
  }

  // ------------------------------------------------------------------ one call as a function

  datatype SearchState = SearchState(rom: Rom, lastDiscrepancy: nat, lastFamily: nat, lastDevice: bool)

  datatype Walk = Walk(rom: Rom, bits: nat, lastZero: nat, lastFamily: nat)

  // The bit loop from bit k on, with `active` the devices still listening.
  function Descend(active: set<Rom>, rom: Rom, lastDiscrepancy: nat, k: nat, lastZero: nat, lastFamily: nat): Walk
    requires k <= ROM_BITS
    decreases ROM_BITS - k, rom
  {
    if k == ROM_BITS || active == {} then Walk(rom, k, lastZero, lastFamily)
    else
      var conflict := !AllBits(active, k, true) && !AllBits(active, k, false);
      var direction :=
        if !conflict then AllBits(active, k, true)
        else if k + 1 < lastDiscrepancy then rom[k]
        else k + 1 == lastDiscrepancy;
      var zero := conflict && !direction;
      Descend(Answering(active, k, direction), rom[k := direction], lastDiscrepancy, k + 1,
              if zero then k + 1 else lastZero,
              if zero && k + 1 < 9 then k + 1 else lastFamily)
  }

  lemma DescendEnds(active: set<Rom>, rom: Rom, lastDiscrepancy: nat, k: nat, lastZero: nat, lastFamily: nat)
    requires k <= ROM_BITS && (k == ROM_BITS || active == {})
    ensures Descend(active, rom, lastDiscrepancy, k, lastZero, lastFamily) == Walk(rom, k, lastZero, lastFamily)
  {
  }

  // One turn of the bit loop, for the two bits read from the bus.
  lemma DescendOnce(active: set<Rom>, rom: Rom, lastDiscrepancy: nat, k: nat, lastZero: nat, lastFamily: nat,
                    bit: bool, complement: bool, direction: bool)
    requires k < ROM_BITS && active != {}
    requires bit == AllBits(active, k, true) && complement == AllBits(active, k, false)
    requires direction == if bit != complement then bit
                          else if k + 1 < lastDiscrepancy then rom[k] else k + 1 == lastDiscrepancy
    ensures var zero := bit == complement && !direction;
            var newZero, newFamily := if zero then k + 1 else lastZero, if zero && k + 1 < 9 then k + 1 else lastFamily;
            Descend(active, rom, lastDiscrepancy, k, lastZero, lastFamily) ==
            Descend(Answering(active, k, direction), rom[k := direction], lastDiscrepancy, k + 1, newZero, newFamily)
  {
    BothBits(active, k);
    hide AllBits, Answering;
  }

  datatype Outcome = Outcome(state: SearchState, found: bool)

  function Restart(rom: Rom): Outcome {
    Outcome(SearchState(rom, 0, 0, false), false)
  }

  // One call of ds_search.
  function Next(devices: set<Rom>, presence: bool, st: SearchState): Outcome {
    if st.lastDevice || !presence then Restart(st.rom)
    else
      var w := Descend(devices, st.rom, st.lastDiscrepancy, 0, 0, st.lastFamily);
      if w.bits < ROM_BITS || ZeroFamily(w.rom) then Restart(w.rom)
      else Outcome(SearchState(w.rom, w.lastZero, w.lastFamily, w.lastZero == 0), true)
  }

  // ------------------------------------------------------------------ the driver

  class Search {
    const romNo: array<bv8>
    var lastDiscrepancy: nat
    var lastFamilyDiscrepancy: nat
    var lastDeviceFlag: bool

    ghost predicate Valid()
      reads this
    {
      romNo.Length == 8
    }

    ghost function View(): SearchState
      requires Valid()
      reads this, romNo
    {
      SearchState(RomOf(romNo[..]), lastDiscrepancy, lastFamilyDiscrepancy, lastDeviceFlag)
    }

    constructor ()
      ensures Valid() && fresh(romNo)
    {
      romNo := new bv8[8];
      lastDiscrepancy, lastFamilyDiscrepancy, lastDeviceFlag := 0, 0, false;
    }

    method ResetSearch()
      requires Valid()
      modifies this, romNo
      ensures Valid()
      ensures View() == SearchState(seq(ROM_BITS, _ => false), 0, 0, false)
    {
      lastDiscrepancy, lastDeviceFlag, lastFamilyDiscrepancy := 0, false, 0;
      forall i | 0 <= i < 8 {
        romNo[i] := 0;
      }
      assert RomOf(romNo[..]) == seq(ROM_BITS, _ => false);
    }

    // Store one bit of the ROM code being assembled.
    method StoreRomBit(byteNumber: nat, ghost j: nat, mask: bv8, v: bool)
      requires Valid() && byteNumber < 8 && j < 8 && mask == Mask(j)
      modifies romNo
      ensures RomOf(romNo[..]) == old(RomOf(romNo[..]))[8 * byteNumber + j := v]
    {
      StoreRomBits(romNo[..], byteNumber, j, v);
      ghost var before := romNo[..];
      romNo[byteNumber] := StoredByte(romNo[byteNumber], mask, v);
      assert romNo[..] == before[byteNumber := romNo[byteNumber]];
    }

    // Whether the bit being searched was 1 on the previous pass.
    method PreviousBit(byteNumber: nat, ghost j: nat, mask: bv8) returns (v: bool)
      requires Valid() && byteNumber < 8 && j < 8 && mask == Mask(j)
      ensures v == RomOf(romNo[..])[8 * byteNumber + j]
    {
      RomBit(romNo[..], byteNumber, j);
      v := romNo[byteNumber] & mask > 0;
    }

    // The direction to take at a bit, and the last bit at which 0 was picked from a conflict.
    method ChooseDirection(idBit: bool, cmpIdBit: bool, byteNumber: nat, ghost j: nat, mask: bv8,
                           idBitNumber: nat, lastZero: nat)
      returns (direction: bool, newLastZero: nat)
      requires Valid() && byteNumber < 8 && j < 8 && mask == Mask(j) && idBitNumber == 8 * byteNumber + j + 1
      modifies this`lastFamilyDiscrepancy
      ensures direction == if idBit != cmpIdBit then idBit
                           else if idBitNumber < lastDiscrepancy then RomOf(romNo[..])[idBitNumber - 1]
                           else idBitNumber == lastDiscrepancy
      ensures var zero := idBit == cmpIdBit && !direction;
              && newLastZero == (if zero then idBitNumber else lastZero)
              && lastFamilyDiscrepancy == if zero && idBitNumber < 9 then idBitNumber else old(lastFamilyDiscrepancy)
    {
      hide RomOf;
      newLastZero := lastZero;
      if idBit != cmpIdBit {
        direction := idBit;
      } else {
        if idBitNumber < lastDiscrepancy {
          direction := PreviousBit(byteNumber, j, mask);
        } else {
          direction := idBitNumber == lastDiscrepancy;
        }
        if !direction {
          newLastZero := idBitNumber;
          if newLastZero < 9 {
            lastFamilyDiscrepancy := newLastZero;
          }
        }
      }
    }

    // One turn of the bit loop: one bit, its complement, the direction written back.
    // Nobody answers exactly if both read high.
    method SearchBit(bus: Bus, byteNumber: nat, ghost j: nat, mask: bv8, idBitNumber: nat, lastZero: nat)
      returns (answered: bool, newLastZero: nat)
      requires Valid() && byteNumber < 8 && j < 8 && mask == Mask(j) && idBitNumber == 8 * byteNumber + j + 1
      requires bus.position == idBitNumber - 1 && !bus.complement
      modifies this`lastFamilyDiscrepancy, romNo, bus
      ensures answered ==> bus.position == idBitNumber && !bus.complement
      ensures Descend(old(bus.active), old(RomOf(romNo[..])), lastDiscrepancy, idBitNumber - 1, lastZero,
                      old(lastFamilyDiscrepancy))
           == if answered then
                Descend(bus.active, RomOf(romNo[..]), lastDiscrepancy, idBitNumber, newLastZero, lastFamilyDiscrepancy)
              else Walk(RomOf(romNo[..]), idBitNumber - 1, newLastZero, lastFamilyDiscrepancy)
    {
      hide Descend, AllBits, Answering, RomOf, ZeroFamily, Mask;
      ghost var was, rom, family := bus.active, RomOf(romNo[..]), lastFamilyDiscrepancy;
      var idBit := bus.ReadBit();
      var cmpIdBit := bus.ReadBit();
      BothBits(was, idBitNumber - 1);
      if idBit && cmpIdBit {
        DescendEnds(was, rom, lastDiscrepancy, idBitNumber - 1, lastZero, family);
        return false, lastZero;
      }
      var direction;
      direction, newLastZero := ChooseDirection(idBit, cmpIdBit, byteNumber, j, mask, idBitNumber, lastZero);
      DescendOnce(was, rom, lastDiscrepancy, idBitNumber - 1, lastZero, family, idBit, cmpIdBit, direction);
      StoreRomBit(byteNumber, j, mask, direction);
      bus.WriteBit(direction);
      answered := true;
    }

    // The bit loop, with its byte and mask counters.
    method SearchBits(bus: Bus) returns (idBitNumber: nat, lastZero: nat)
      requires Valid() && !lastDeviceFlag
      requires bus.active == bus.devices && bus.position == 0 && !bus.complement
      modifies this`lastFamilyDiscrepancy, romNo, bus
      ensures 1 <= idBitNumber
      ensures Walk(RomOf(romNo[..]), idBitNumber - 1, lastZero, lastFamilyDiscrepancy)
           == Descend(bus.devices, old(RomOf(romNo[..])), lastDiscrepancy, 0, 0, old(lastFamilyDiscrepancy))
    {
      hide Descend, AllBits, Answering, RomOf, ZeroFamily, Mask;
      FirstMask();
      var byteNumber, mask := 0, 1 as bv8;
      idBitNumber, lastZero := 1, 0;
      ghost var j := 0;
      while byteNumber < 8
        invariant 0 <= byteNumber <= 8 && 0 <= j < 8 && mask == Mask(j)
        invariant byteNumber == 8 ==> j == 0
        invariant idBitNumber == 8 * byteNumber + j + 1
        invariant bus.position == idBitNumber - 1 && !bus.complement
        invariant Descend(bus.devices, old(RomOf(romNo[..])), lastDiscrepancy, 0, 0, old(lastFamilyDiscrepancy))
               == Descend(bus.active, RomOf(romNo[..]), lastDiscrepancy, idBitNumber - 1, lastZero,
                          lastFamilyDiscrepancy)
        decreases 64 - idBitNumber
      {
        var answered;
        answered, lastZero := SearchBit(bus, byteNumber, j, mask, idBitNumber, lastZero);
        if !answered {
          return;
        }
        ShiftMask(j);
        idBitNumber, mask, j := idBitNumber + 1, mask << 1, j + 1;
        if mask == 0 {
          byteNumber, mask, j := byteNumber + 1, 1, 0;
        }
      }
      DescendEnds(bus.active, RomOf(romNo[..]), lastDiscrepancy, 64, lastZero, lastFamilyDiscrepancy);
    }

    method DsSearch(bus: Bus, newAddr: array<bv8>) returns (found: bool)
      requires Valid() && newAddr.Length == 8 && newAddr != romNo
      modifies this, romNo, bus, newAddr
      ensures Valid()
      ensures Outcome(View(), found) == Next(bus.devices, bus.presence, old(View()))
      // A missing presence pulse returns before the address is copied out.
      ensures newAddr[..] == if old(lastDeviceFlag) || bus.presence then romNo[..] else old(newAddr[..])
    {
      found := false;
      if !lastDeviceFlag {
        var present := bus.Reset();
        if !present {
          lastDiscrepancy, lastDeviceFlag, lastFamilyDiscrepancy := 0, false, 0;
          return;
        }
        bus.SearchCommand();

        var idBitNumber, lastZero := SearchBits(bus);
        if !(idBitNumber < 65) {
          lastDiscrepancy := lastZero;
          if lastDiscrepancy == 0 {
            lastDeviceFlag := true;
          }
          found := true;
        }
      }

      ZeroFirstByte(romNo[..]);
      if !found || romNo[0] == 0 {
        lastDiscrepancy, lastDeviceFlag, lastFamilyDiscrepancy := 0, false, 0;
        found := false;
      }
      forall i | 0 <= i < 8 {
        newAddr[i] := romNo[i];
      }
      assert newAddr[..] == romNo[..];
    }
  }
}
