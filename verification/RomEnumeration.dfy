// What a run of ds_search calls returns (firmware/user/ds18b20.c:376-386 and 431-548).
//
// The call remembers only the last ROM code and one bit index.  `Remembers` says what that
// pair stands for; `EnumeratesInOrder` is the consequence for any number of calls.
module RomEnumeration {
  import opened OneWireSearch

  // Least-significant-bit-first lexicographic order: a and b split at bit k.
  ghost predicate SplitsAt(a: Rom, b: Rom, k: nat) {
    k < ROM_BITS && a[..k] == b[..k] && !a[k] && b[k]
  }

  ghost predicate Less(a: Rom, b: Rom) {
    exists k :: SplitsAt(a, b, k)
  }

  lemma LessIsAsymmetric(a: Rom, b: Rom)
    requires Less(a, b)
    ensures a != b && !Less(b, a)
  {
    var k: nat :| SplitsAt(a, b, k);
    forall m: nat
      ensures !SplitsAt(b, a, m)
    {
    }
  }

  // ------------------------------------------------------------------ one descent

  // The devices that agree with rom on its first k bits.
  ghost function Sharing(devices: set<Rom>, rom: Rom, k: nat): set<Rom>
    requires k <= ROM_BITS
  {
    set r | r in devices && r[..k] == rom[..k]
  }

  // rom takes the 0 branch at bit k while some device takes the 1 branch.
  ghost predicate Branch(devices: set<Rom>, rom: Rom, k: nat) {
    exists s :: s in devices && SplitsAt(rom, s, k)
  }

  // lastZero - 1 is the deepest 0 branch above bit k; 0 when there is none.
  ghost predicate DeepestBranch(devices: set<Rom>, rom: Rom, k: nat, lastZero: nat) {
    && lastZero <= k
    && (lastZero > 0 ==> Branch(devices, rom, lastZero - 1))
    && forall q :: lastZero <= q < k ==> !Branch(devices, rom, q)
  }

  lemma SharingNext(devices: set<Rom>, rom: Rom, k: nat, v: bool)
    requires k < ROM_BITS
    ensures Answering(Sharing(devices, rom, k), k, v) == Sharing(devices, rom[k := v], k + 1)
  {
    var next := rom[k := v];
    forall r: Rom
      ensures r[..k + 1] == next[..k + 1] <==> r[..k] == rom[..k] && r[k] == v
    {
      assert r[..k + 1] == r[..k] + [r[k]];
      assert next[..k + 1] == rom[..k] + [v];
    }
  }

  lemma BranchReadsPrefix(devices: set<Rom>, a: Rom, b: Rom, k: nat)
    requires k < ROM_BITS && a[..k + 1] == b[..k + 1]
    ensures Branch(devices, a, k) == Branch(devices, b, k)
  {
    assert a[..k] == a[..k + 1][..k] && b[..k] == b[..k + 1][..k];
    assert a[k] == a[..k + 1][k] && b[k] == b[..k + 1][k];
    forall s ensures SplitsAt(a, s, k) == SplitsAt(b, s, k) {}
  }

  // Choosing bit k keeps the branches above it, and adds one exactly for a contested 0.
  lemma ExtendBranches(devices: set<Rom>, rom: Rom, k: nat, v: bool, lastZero: nat)
    requires k < ROM_BITS && DeepestBranch(devices, rom, k, lastZero)
    ensures DeepestBranch(devices, rom[k := v], k + 1, if Branch(devices, rom[k := v], k) then k + 1 else lastZero)
  {
    var next := rom[k := v];
    forall q | 0 <= q < k
      ensures Branch(devices, next, q) == Branch(devices, rom, q)
    {
      assert next[..q + 1] == rom[..q + 1];
      BranchReadsPrefix(devices, next, rom, q);
    }
  }

  lemma Contested(devices: set<Rom>, rom: Rom, k: nat)
    requires k < ROM_BITS && Sharing(devices, rom, k) != {}
    ensures Branch(devices, rom[k := false], k) <==> !AllBits(Sharing(devices, rom, k), k, false)
    ensures !Branch(devices, rom[k := true], k)
    ensures Sharing(devices, rom, k) != {} ==>
              !(AllBits(Sharing(devices, rom, k), k, true) && AllBits(Sharing(devices, rom, k), k, false))
  {
    var zero := rom[k := false];
    assert zero[..k] == rom[..k];
    forall s | s in devices
      ensures SplitsAt(zero, s, k) <==> s in Sharing(devices, rom, k) && s[k]
    {
    }
    BothBits(Sharing(devices, rom, k), k);
  }

  // Below the remembered bit the search always prefers 0, so it ends at the least device
  // under the prefix it came with, and lastZero is its deepest open branch.
  lemma {:induction false} DescendToLeast(devices: set<Rom>, rom: Rom, lastDiscrepancy: nat, k: nat,
                                          lastZero: nat, lastFamily: nat)
    requires lastDiscrepancy <= k <= ROM_BITS
    requires Sharing(devices, rom, k) != {}
    requires DeepestBranch(devices, rom, k, lastZero)
    ensures var w := Descend(Sharing(devices, rom, k), rom, lastDiscrepancy, k, lastZero, lastFamily);
            && w.bits == ROM_BITS
            && w.rom in Sharing(devices, rom, k)
            && DeepestBranch(devices, w.rom, ROM_BITS, w.lastZero)
            && forall s :: s in Sharing(devices, rom, k) ==> s == w.rom || Less(w.rom, s)
    decreases ROM_BITS - k
  {
    var here := Sharing(devices, rom, k);
    if k == ROM_BITS {
      forall s | s in here ensures s == rom {
        assert s == s[..k] && rom == rom[..k];
      }
    } else {
      Contested(devices, rom, k);
      var direction := AllBits(here, k, true);
      var next := rom[k := direction];
      SharingNext(devices, rom, k, direction);
      var left := Sharing(devices, next, k + 1);
      assert left != {} by {
        var r :| r in here && r[k] == direction;
        assert r in Answering(here, k, direction);
      }
      ExtendBranches(devices, rom, k, direction, lastZero);
      var zero := Branch(devices, next, k);
      DescendToLeast(devices, next, lastDiscrepancy, k + 1, if zero then k + 1 else lastZero,
                     if zero && k + 1 < 9 then k + 1 else lastFamily);
      var w := Descend(here, rom, lastDiscrepancy, k, lastZero, lastFamily);
      assert w.rom in left && w.rom in here;
      assert w.rom[k] == direction && w.rom[..k] == rom[..k];
      forall s | s in here ensures s == w.rom || Less(w.rom, s) {
        if s[k] == direction {
          assert s in left;
        } else {
          assert SplitsAt(w.rom, s, k);
        }
      }
    }
  }

  // Above the remembered bit the search retraces the last ROM code; at that bit it turns to 1.
  lemma {:induction false} DescendPastBranch(devices: set<Rom>, rom: Rom, lastDiscrepancy: nat, k: nat,
                                             lastZero: nat, lastFamily: nat)
    requires k < lastDiscrepancy <= ROM_BITS
    requires rom in devices && Branch(devices, rom, lastDiscrepancy - 1)
    requires DeepestBranch(devices, rom, k, lastZero)
    ensures var w := Descend(Sharing(devices, rom, k), rom, lastDiscrepancy, k, lastZero, lastFamily);
            var turned := Sharing(devices, rom[lastDiscrepancy - 1 := true], lastDiscrepancy);
            && w.bits == ROM_BITS
            && w.rom in turned
            && DeepestBranch(devices, w.rom, ROM_BITS, w.lastZero)
            && forall s :: s in turned ==> s == w.rom || Less(w.rom, s)
    decreases lastDiscrepancy - k
  {
    var here := Sharing(devices, rom, k);
    assert rom in here;
    Contested(devices, rom, k);
    var turn := k + 1 == lastDiscrepancy;
    var direction := rom[k] || turn;
    var next := rom[k := direction];
    SharingNext(devices, rom, k, direction);
    ExtendBranches(devices, rom, k, direction, lastZero);
    if turn {
      assert rom[k := false] == rom;
      var other :| other in devices && SplitsAt(rom, other, k);
      assert other in Answering(here, k, true);
      DescendToLeast(devices, next, lastDiscrepancy, k + 1, lastZero, lastFamily);
    } else {
      assert next == rom;
      var zero := Branch(devices, next, k);
      DescendPastBranch(devices, rom, lastDiscrepancy, k + 1, if zero then k + 1 else lastZero,
                        if zero && k + 1 < 9 then k + 1 else lastFamily);
    }
  }

  // ------------------------------------------------------------------ one call

  ghost predicate Fresh(st: SearchState) {
    st.lastDiscrepancy == 0 && !st.lastDevice
  }

  ghost predicate NoZeroFamily(devices: set<Rom>) {
    forall r :: r in devices ==> !ZeroFamily(r)
  }

  // What the search state stands for after a reported device: the bit index is the deepest
  // branch the reported ROM code took as 0, and the flag says there is none left.
  ghost predicate Remembers(devices: set<Rom>, st: SearchState) {
    && st.rom in devices
    && DeepestBranch(devices, st.rom, ROM_BITS, st.lastDiscrepancy)
    && st.lastDevice == (st.lastDiscrepancy == 0)
  }

  ghost predicate IsLeast(devices: set<Rom>, r: Rom) {
    r in devices && forall s :: s in devices ==> s == r || Less(r, s)
  }

  // r is the next device after a.
  ghost predicate IsSuccessor(devices: set<Rom>, a: Rom, r: Rom) {
    r in devices && Less(a, r) && forall s :: s in devices && Less(a, s) ==> s == r || Less(r, s)
  }

  lemma FirstCall(devices: set<Rom>, st: SearchState)
    requires devices != {} && Fresh(st)
    ensures var o := Next(devices, true, st);
            if NoZeroFamily(devices)
            then o.found && Remembers(devices, o.state) && IsLeast(devices, o.state.rom)
            else !o.found && Fresh(o.state)
  {
    assert Sharing(devices, st.rom, 0) == devices;
    DescendToLeast(devices, st.rom, 0, 0, 0, st.lastFamily);
    var w := Descend(devices, st.rom, 0, 0, 0, st.lastFamily);
    if !NoZeroFamily(devices) {
      var z :| z in devices && ZeroFamily(z);
      if z != w.rom {
        var k: nat :| SplitsAt(w.rom, z, k);
        assert k >= 8;
        assert forall j :: 0 <= j < 8 ==> w.rom[..k][j] == z[..k][j];
      }
    }
  }

  lemma NextCall(devices: set<Rom>, st: SearchState)
    requires Remembers(devices, st) && !st.lastDevice && NoZeroFamily(devices)
    ensures var o := Next(devices, true, st);
            o.found && Remembers(devices, o.state) && IsSuccessor(devices, st.rom, o.state.rom)
  {
    var p := st.lastDiscrepancy - 1;
    assert Sharing(devices, st.rom, 0) == devices;
    DescendPastBranch(devices, st.rom, p + 1, 0, 0, st.lastFamily);
    var w := Descend(devices, st.rom, p + 1, 0, 0, st.lastFamily);
    var turn := st.rom[p := true];
    assert w.rom[p] == w.rom[..p + 1][p] == turn[..p + 1][p];
    assert w.rom[..p] == w.rom[..p + 1][..p] == turn[..p + 1][..p] == st.rom[..p];
    assert SplitsAt(st.rom, w.rom, p) by {
      var s :| s in devices && SplitsAt(st.rom, s, p);
    }
    forall s | s in devices && Less(st.rom, s)
      ensures s == w.rom || Less(w.rom, s)
    {
      LaterIsBeyond(devices, st.rom, w.rom, p, s);
    }
  }

  // A device past the one last found is beyond the one found next, if it does not share its turn.
  lemma LaterIsBeyond(devices: set<Rom>, last: Rom, found: Rom, p: nat, s: Rom)
    requires p < ROM_BITS && s in devices && Less(last, s)
    requires forall q :: p < q < ROM_BITS ==> !Branch(devices, last, q)
    requires !last[p] && found[..p] == last[..p] && found[p]
    requires forall r :: r in Sharing(devices, last[p := true], p + 1) ==> r == found || Less(found, r)
    ensures s == found || Less(found, s)
  {
    var turn := last[p := true];
    var q: nat :| SplitsAt(last, s, q);
    assert Branch(devices, last, q);
    if q < p {
      assert found[..q] == found[..p][..q] && found[q] == found[..p][q];
      assert last[..q] == last[..p][..q] && last[q] == last[..p][q];
      assert SplitsAt(found, s, q);
    } else {
      assert s[..p + 1] == s[..p] + [s[p]] && turn[..p + 1] == last[..p] + [true];
      assert s in Sharing(devices, turn, p + 1);
    }
  }

  // The flag is raised exactly at the greatest device.
  lemma LastDeviceIsGreatest(devices: set<Rom>, st: SearchState)
    requires Remembers(devices, st)
    ensures st.lastDevice <==> forall s :: s in devices ==> !Less(st.rom, s)
  {
    if s :| s in devices && Less(st.rom, s) {
      var q: nat :| SplitsAt(st.rom, s, q);
      assert Branch(devices, st.rom, q);
    }
  }

  // ------------------------------------------------------------------ runs of calls

  // The search state before call n, counting calls from 0.
  ghost function StateBefore(devices: set<Rom>, st: SearchState, n: nat): SearchState {
    if n == 0 then st else Next(devices, true, StateBefore(devices, st, n - 1)).state
  }

  ghost function Call(devices: set<Rom>, st: SearchState, n: nat): Outcome {
    Next(devices, true, StateBefore(devices, st, n))
  }

  // `list` names each device once, in ascending order.
  ghost predicate Listing(devices: set<Rom>, list: seq<Rom>) {
    && (forall r :: r in list <==> r in devices)
    && (forall i, j :: 0 <= i < j < |list| ==> Less(list[i], list[j]))
  }

  lemma LeastIsListedFirst(devices: set<Rom>, list: seq<Rom>, r: Rom)
    requires Listing(devices, list) && IsLeast(devices, r)
    ensures |list| > 0 && list[0] == r
  {
    var m :| 0 <= m < |list| && list[m] == r;
    if m > 0 {
      LessIsAsymmetric(list[0], r);
    }
  }

  lemma SuccessorIsListedNext(devices: set<Rom>, list: seq<Rom>, i: nat, r: Rom)
    requires Listing(devices, list) && i < |list| && IsSuccessor(devices, list[i], r)
    ensures i + 1 < |list| && list[i + 1] == r
  {
    var m :| 0 <= m < |list| && list[m] == r;
    LessIsAsymmetric(list[i], r);
    if m > i + 1 {
      LessIsAsymmetric(list[i + 1], r);
    }
  }

  // The first pass: call m returns the m-th device, and the flag is raised by the last one.
  lemma {:induction false} FirstPass(devices: set<Rom>, list: seq<Rom>, st: SearchState, m: nat)
    requires Listing(devices, list) && NoZeroFamily(devices) && Fresh(st)
    requires m < |list|
    ensures var o := Call(devices, st, m);
            && o.found && o.state.rom == list[m]
            && Remembers(devices, o.state)
            && (o.state.lastDevice <==> m + 1 == |list|)
  {
    hide Next, Remembers, NoZeroFamily, Less;
    var o := Call(devices, st, m);
    if m == 0 {
      assert list[0] in devices;
      FirstCall(devices, st);
      LeastIsListedFirst(devices, list, o.state.rom);
    } else {
      FirstPass(devices, list, st, m - 1);
      NextCall(devices, Call(devices, st, m - 1).state);
      SuccessorIsListedNext(devices, list, m - 1, o.state.rom);
    }
    LastDeviceIsGreatest(devices, o.state);
    if m + 1 < |list| {
      assert list[m + 1] in devices && Less(list[m], list[m + 1]);
    } else {
      forall s | s in devices ensures !Less(list[m], s) {
        var i :| 0 <= i < |list| && list[i] == s;
        if Less(list[m], s) {
          LessIsAsymmetric(list[m], s);
        }
      }
    }
  }

  lemma {:induction false} StatesCompose(devices: set<Rom>, st: SearchState, a: nat, b: nat)
    ensures StateBefore(devices, StateBefore(devices, st, a), b) == StateBefore(devices, st, a + b)
  {
    if b > 0 {
      StatesCompose(devices, st, a, b - 1);
    }
  }

  // One pass leaves the search ready for the next.
  lemma PassEnds(devices: set<Rom>, list: seq<Rom>, st: SearchState)
    requires Listing(devices, list) && NoZeroFamily(devices) && Fresh(st) && |list| > 0
    ensures Fresh(StateBefore(devices, st, |list| + 1))
  {
    hide Listing, NoZeroFamily, Remembers, Descend;
    FirstPass(devices, list, st, |list| - 1);
  }

  // Every pass takes |devices| + 1 calls and leaves the search ready for the next.
  lemma {:induction false} PassesRepeat(devices: set<Rom>, list: seq<Rom>, st: SearchState, pass: nat)
    requires Listing(devices, list) && NoZeroFamily(devices) && Fresh(st)
    requires |list| > 0
    ensures Fresh(StateBefore(devices, st, pass * (|list| + 1)))
  {
    hide Listing, NoZeroFamily, Next, Fresh;
    if pass == 0 {
      assert StateBefore(devices, st, 0) == st;
    } else {
      var start := (pass - 1) * (|list| + 1);
      PassesRepeat(devices, list, st, pass - 1);
      PassEnds(devices, list, StateBefore(devices, st, start));
      StatesCompose(devices, st, start, |list| + 1);
      assert start + (|list| + 1) == pass * (|list| + 1);
    }
  }

  // The enumeration theorem.  On any bus of devices with non-zero family bytes, from any state
  // reset_search may leave, the calls of every pass return each device once in ascending order,
  // then one failure, and then start over.
  lemma EnumeratesInOrder(devices: set<Rom>, list: seq<Rom>, st: SearchState, pass: nat, m: nat)
    requires Listing(devices, list) && NoZeroFamily(devices) && Fresh(st)
    requires |list| > 0 && m <= |list|
    ensures var o := Call(devices, st, pass * (|list| + 1) + m);
            && (o.found <==> m < |list|)
            && (o.found ==> o.state.rom == list[m])
            && (!o.found ==> o.state == SearchState(o.state.rom, 0, 0, false))
  {
    var start := pass * (|list| + 1);
    PassesRepeat(devices, list, st, pass);
    var again := StateBefore(devices, st, start);
    StatesCompose(devices, st, start, m);
    if m < |list| {
      FirstPass(devices, list, again, m);
    } else {
      FirstPass(devices, list, again, m - 1);
    }
  }

  // The family-byte condition is exact: with one zero family byte on the bus no call ever
  // reports anything, because that device is always found first and the search restarts.
  lemma {:induction false} ZeroFamilyBlocksSearch(devices: set<Rom>, st: SearchState, n: nat)
    requires devices != {} && !NoZeroFamily(devices) && Fresh(st)
    ensures !Call(devices, st, n).found && Fresh(Call(devices, st, n).state)
  {
    if n > 0 {
      ZeroFamilyBlocksSearch(devices, st, n - 1);
    }
    FirstCall(devices, StateBefore(devices, st, n));
  }

  // An empty bus, or one that gives no presence pulse, reports nothing from any state.
  lemma NothingToFind(devices: set<Rom>, presence: bool, st: SearchState)
    requires devices == {} || !presence
    ensures var o := Next(devices, presence, st);
            !o.found && o.state == SearchState(o.state.rom, 0, 0, false)
  {
  }

  // ------------------------------------------------------------------ every bus has a listing

  lemma {:induction false} LeastExists(devices: set<Rom>) returns (r: Rom)
    requires devices != {}
    ensures IsLeast(devices, r)
  {
    var st := SearchState(seq(ROM_BITS, _ => false), 0, 0, false);
    assert Sharing(devices, st.rom, 0) == devices;
    DescendToLeast(devices, st.rom, 0, 0, 0, 0);
    r := Descend(devices, st.rom, 0, 0, 0, 0).rom;
  }

  lemma {:induction false} ListingExists(devices: set<Rom>)
    ensures exists list :: Listing(devices, list) && |list| == |devices|
    decreases |devices|
  {
    if devices == {} {
      assert Listing(devices, []);
    } else {
      var r := LeastExists(devices);
      ListingExists(devices - {r});
      var rest :| Listing(devices - {r}, rest) && |rest| == |devices - {r}|;
      var list := [r] + rest;
      assert forall s :: s in list <==> s == r || s in rest;
      forall i, j | 0 <= i < j < |list|
        ensures Less(list[i], list[j])
      {
        assert list[j] == rest[j - 1] && rest[j - 1] in rest;
      }
    }
  }

  // The order decides the listing: there is one only.
  lemma {:induction false} ListingIsUnique(devices: set<Rom>, a: seq<Rom>, b: seq<Rom>)
    requires Listing(devices, a) && Listing(devices, b)
    ensures a == b
    decreases |a|
  {
    ListsNothing(devices, a);
    ListsNothing(devices, b);
    if a != [] {
      ListedFirst(devices, a, b);
      RestIsListed(devices, a);
      RestIsListed(devices, b);
      ListingIsUnique(devices - {a[0]}, a[1..], b[1..]);
    }
  }

  lemma ListsNothing(devices: set<Rom>, list: seq<Rom>)
    requires Listing(devices, list)
    ensures list == [] <==> devices == {}
  {
    if list != [] {
      assert list[0] in devices;
    } else {
      assert forall r :: r in devices ==> r in list;
    }
  }

  lemma ListedFirst(devices: set<Rom>, a: seq<Rom>, b: seq<Rom>)
    requires Listing(devices, a) && Listing(devices, b) && a != [] && b != []
    ensures a[0] == b[0]
  {
    assert a[0] in devices && b[0] in devices;
    var i :| 0 <= i < |b| && b[i] == a[0];
    var j :| 0 <= j < |a| && a[j] == b[0];
    if i > 0 && j > 0 {
      LessIsAsymmetric(a[0], b[0]);
    }
  }

  lemma RestIsListed(devices: set<Rom>, list: seq<Rom>)
    requires Listing(devices, list) && list != []
    ensures Listing(devices - {list[0]}, list[1..])
  {
    hide Less;
    forall r
      ensures r in list[1..] <==> r in devices - {list[0]}
    {
      if r in list[1..] {
        var i :| 1 <= i < |list| && list[i] == r;
        LessIsAsymmetric(list[0], list[i]);
      }
    }
  }
}
