// The circular byte buffer of firmware/user/ringbuf.c, refining a bounded sequence.
module RingBuffer {
  import opened Bytes

  // n bytes of d from index r on, going on at the start of d when its end is reached.
  ghost function Window(d: seq<Byte>, r: nat, n: nat): (w: seq<Byte>)
    requires r < |d| && n <= |d|
    ensures |w| == n
  {
    if r + n <= |d| then d[r..r + n] else d[r..] + d[..r + n - |d|]
  }

  function Advance(r: nat, n: nat, size: nat): nat {
    if r + n < size then r + n else r + n - size
  }

  lemma WindowAt(d: seq<Byte>, r: nat, n: nat, k: nat)
    requires r < |d| && n <= |d| && k < n
    ensures Window(d, r, n)[k] == d[Advance(r, k, |d|)]
  {
  }

  lemma WindowGet(d: seq<Byte>, r: nat, n: nat)
    requires r < |d| && 0 < n <= |d|
    ensures Window(d, r, n) == [d[r]] + Window(d, Advance(r, 1, |d|), n - 1)
  {
    hide Window;
    var next := Advance(r, 1, |d|);
    WindowAt(d, r, n, 0);
    forall k | 1 <= k < n
      ensures Window(d, r, n)[k] == Window(d, next, n - 1)[k - 1]
    {
      WindowAt(d, r, n, k);
      WindowAt(d, next, n - 1, k - 1);
    }
  }

  lemma WindowPut(d: seq<Byte>, r: nat, n: nat, c: Byte)
    requires r < |d| && n < |d|
    ensures Window(d[Advance(r, n, |d|) := c], r, n + 1) == Window(d, r, n) + [c]
  {
    hide Window;
    var e := d[Advance(r, n, |d|) := c];
    WindowAt(e, r, n + 1, n);
    forall k | 0 <= k < n
      ensures Window(e, r, n + 1)[k] == Window(d, r, n)[k]
    {
      WindowAt(e, r, n + 1, k);
      WindowAt(d, r, n, k);
    }
  }

  class Ring {
    const data: array<Byte>
    var readIndex: nat
    var writeIndex: nat
    var fillCount: nat

    ghost predicate Valid()
      reads this
    {
      && readIndex < data.Length
      && fillCount <= data.Length
      && writeIndex == Advance(readIndex, fillCount, data.Length)
    }

    // The bytes waiting, oldest first.
    ghost function Contents(): (c: seq<Byte>)
      requires Valid()
      reads this, data
      ensures |c| == fillCount
    {
      Window(data[..], readIndex, fillCount)
    }

    constructor (buf: array<Byte>)
      requires buf.Length > 0
      ensures Valid() && data == buf && Contents() == []
    {
      data := buf;
      readIndex, writeIndex, fillCount := 0, 0, 0;
    }

    method Put(c: Byte) returns (r: int)
      requires Valid()
      modifies this, data
      ensures Valid()
      ensures r == if |old(Contents())| < data.Length then 0 else -1
      ensures Contents() == if r == 0 then old(Contents()) + [c] else old(Contents())
    {
      if fillCount >= data.Length {
        return -1;
      }
      hide Window;
      WindowPut(data[..], readIndex, fillCount, c);
      fillCount := fillCount + 1;
      data[writeIndex] := c;
      writeIndex := writeIndex + 1;
      if writeIndex >= data.Length {
        writeIndex := 0;
      }
      return 0;
    }

    method Get() returns (r: int, c: Byte)
      requires Valid()
      modifies this
      ensures Valid()
      ensures r == if old(Contents()) != [] then 0 else -1
      ensures r == 0 ==> old(Contents()) == [c] + Contents()
      ensures r == -1 ==> Contents() == []
    {
      if fillCount <= 0 {
        return -1, 0;
      }
      hide Window;
      WindowGet(data[..], readIndex, fillCount);
      fillCount := fillCount - 1;
      c := data[readIndex];
      readIndex := readIndex + 1;
      if readIndex >= data.Length {
        readIndex := 0;
      }
      r := 0;
    }
  }

  // RINGBUF_Init: refuses a missing buffer and buffers of fewer than two bytes.
  method Init(buf: array?<Byte>, size: int) returns (r: int, ring: Ring?)
    requires buf != null ==> size <= buf.Length && (size >= 2 ==> size == buf.Length)
    ensures r == if buf == null || size < 2 then -1 else 0
    ensures r == -1 ==> ring == null
    ensures r == 0 ==> ring != null && fresh(ring) && ring.Valid() && ring.data == buf && ring.Contents() == []
  {
    if buf == null || size < 2 {
      return -1, null;
    }
    ring := new Ring(buf);
    r := 0;
  }
}
