// The outbound message queue of firmware/user/mqueue.c and the eviction loop shared by
// MQTT_Publish and MQTT_Subscribe (firmware/user/mqtt.c:411-417 and 439-445).
module MessageQueue {
  import opened Bytes
  import opened RingBuffer
  import opened Framing

  const QUEUE_BUFFER_SIZE := 512
  const MQTT_BUF_SIZE := 255

  // ------------------------------------------------------------------ runs of puts and gets

  datatype Op =
    | Put(message: Message)
    | Get(isBegin: bool, limit: nat)

  // The ring together with a record of what went in and out.
  datatype Ledger = Ledger(content: seq<Byte>, accepted: seq<Message>, delivered: seq<(Message, nat)>)

  function Step(l: Ledger, size: nat, op: Op): Ledger {
    match op
    case Put(m) =>
      l.(content := AfterPut(l.content, size, m),
         accepted := if Fits(l.content, size, m) then l.accepted + [m] else l.accepted)
    case Get(isBegin, limit) =>
      var got := AfterGet(l.content, isBegin, limit);
      l.(content := got.rest,
         delivered := if got.message.Some? then l.delivered + [(got.message.value, limit)] else l.delivered)
  }

  function Run(l: Ledger, size: nat, ops: seq<Op>): Ledger
    decreases |ops|
  {
    if ops == [] then l else Step(Run(l, size, ops[..|ops| - 1]), size, ops[|ops| - 1])
  }

  // Delivered messages are the accepted ones in order, each cut to its reader's buffer, and
  // the rest of the accepted ones are exactly those still decodable from the ring.
  ghost predicate InOrder(l: Ledger, size: nat) {
    && Framed(l.content) && |l.content| <= size
    && |l.delivered| <= |l.accepted|
    && (forall i :: 0 <= i < |l.delivered| ==> l.delivered[i].0 == Cut(l.accepted[i], l.delivered[i].1))
    && Pending(l.content) == l.accepted[|l.delivered|..]
  }

  lemma StepKeepsOrder(l: Ledger, size: nat, op: Op)
    requires InOrder(l, size)
    ensures InOrder(Step(l, size, op), size)
  {
    hide AfterPut, AfterGet, Fits, Framed, Pending, FirstEnd;
    match op
    case Put(m) =>
      PutQueuesAllOrNothing(l.content, size, m);
    case Get(isBegin, limit) =>
      GetTakesOldest(l.content, isBegin, limit);
      EmptyRingHoldsNothing();
  }

  // The queue theorem: over every interleaving of puts, refused puts and gets, delivery is
  // first-in first-out, byte-exact, at most once, and loses nothing that was accepted.
  lemma {:induction false} QueueIsFifo(size: nat, ops: seq<Op>)
    ensures InOrder(Run(Ledger([], [], []), size, ops), size)
    decreases |ops|
  {
    if ops != [] {
      QueueIsFifo(size, ops[..|ops| - 1]);
      StepKeepsOrder(Run(Ledger([], [], []), size, ops[..|ops| - 1]), size, ops[|ops| - 1]);
    }
  }

  // ------------------------------------------------------------------ eviction

  ghost function Ends(content: seq<Byte>): nat
    decreases |content|
  {
    if content == [] then 0 else (if content[0] == END then 1 else 0) + Ends(content[1..])
  }

  lemma {:induction false} EndsOfConcat(a: seq<Byte>, b: seq<Byte>)
    ensures Ends(a + b) == Ends(a) + Ends(b)
    decreases |a|
  {
    if a == [] {
      assert a + b == b;
    } else {
      assert (a + b)[1..] == a[1..] + b;
      EndsOfConcat(a[1..], b);
    }
  }

  lemma {:induction false} NoEnds(a: seq<Byte>)
    requires END !in a
    ensures Ends(a) == 0
    decreases |a|
  {
    if a != [] {
      NoEnds(a[1..]);
    }
  }

  lemma {:induction false} EndsAfterFirst(content: seq<Byte>)
    ensures var e := FirstEnd(content); e < |content| ==> Ends(content) == 1 + Ends(content[e + 1..])
    decreases |content|
  {
    var e := FirstEnd(content);
    if 0 < e < |content| {
      EndsAfterFirst(content[1..]);
      assert content[1..][e..] == content[e + 1..];
    }
  }

  // A refused put leaves the END count alone and the next get removes one END.
  lemma EvictionProgress(content: seq<Byte>, size: nat, m: Message, isBegin: bool)
    requires Framed(content) && |content| <= size && !Fits(content, size, m)
    ensures var full := AfterPut(content, size, m);
            var got := AfterGet(full, isBegin, MQTT_BUF_SIZE);
            && Framed(full) && Framed(got.rest) && |got.rest| <= size
            && (got.message.Some? ==> Ends(got.rest) < Ends(content))
  {
    var full := AfterPut(content, size, m);
    PutQueuesAllOrNothing(content, size, m);
    GetTakesOldest(full, isBegin, MQTT_BUF_SIZE);
    var tail := Unfinished(content, size, m);
    NoEnds(tail);
    EndsOfConcat(content, tail);
    EndsAfterFirst(full);
  }

  datatype Enqueued = Enqueued(content: seq<Byte>, ok: bool)

  // Put, and while the put is refused drop the oldest message and try again.
  ghost function AfterEnqueue(content: seq<Byte>, size: nat, m: Message): Enqueued
    requires Framed(content) && |content| <= size
    decreases Ends(content)
  {
    var full := AfterPut(content, size, m);
    if Fits(content, size, m) then Enqueued(full, true)
    else
      EvictionProgress(content, size, m, false);
      var got := AfterGet(full, false, MQTT_BUF_SIZE);
      if got.message.None? then Enqueued(got.rest, false) else AfterEnqueue(got.rest, size, m)
  }

  lemma IsBeginIsIrrelevant(content: seq<Byte>, isBegin: bool)
    requires Framed(content)
    ensures AfterGet(content, isBegin, MQTT_BUF_SIZE) == AfterGet(content, false, MQTT_BUF_SIZE)
  {
    GetTakesOldest(content, isBegin, MQTT_BUF_SIZE);
  }

  // On rings below 65535 bytes a put that succeeds is not mistaken for a refused one.
  lemma SuccessIsNotMinusOne(content: seq<Byte>, size: nat, m: Message)
    requires size < 0xFFFF && Fits(content, size, m)
    ensures AsI16(|Frame(m)|) != -1
  {
  }

  // The loop of MQTT_Publish and MQTT_Subscribe; `isBegin` stands for the value the parser
  // local of each get happens to start with.
  method Enqueue(rb: Ring, message: Message, isBegin: bool) returns (ok: bool)
    requires rb.Valid() && Framed(rb.Contents())
    requires rb.data.Length < 0xFFFF && |message| <= 0x7FFF
    modifies rb, rb.data
    ensures rb.Valid()
    ensures Enqueued(rb.Contents(), ok) == AfterEnqueue(old(rb.Contents()), rb.data.Length, message)
  {
    hide AsI16, Fits, AfterPut, AfterGet, Framed, Pending;
    ghost var size := rb.data.Length;
    ghost var start := AfterEnqueue(rb.Contents(), size, message);
    ghost var before := rb.Contents();
    var dataBuffer := new Byte[MQTT_BUF_SIZE];
    PutQueuesAllOrNothing(before, size, message);
    if Fits(before, size, message) {
      SuccessIsNotMinusOne(before, size, message);
    }
    var r := AddRb(rb, message);
    while r == -1
      invariant rb.Valid() && Framed(before) && |before| <= size
      invariant rb.Contents() == AfterPut(before, size, message)
      invariant r == -1 <==> !Fits(before, size, message)
      invariant AfterEnqueue(before, size, message) == start
      decreases Ends(before)
    {
      EvictionProgress(before, size, message, isBegin);
      IsBeginIsIrrelevant(AfterPut(before, size, message), isBegin);
      var g, _ := ParseRb(rb, dataBuffer, MQTT_BUF_SIZE, isBegin);
      if g == -1 {
        return false;
      }
      before := rb.Contents();
      PutQueuesAllOrNothing(before, size, message);
      if Fits(before, size, message) {
        SuccessIsNotMinusOne(before, size, message);
      }
      r := AddRb(rb, message);
    }
    return true;
  }

  // The lengths of the pieces an eviction can free: the content cut after each END.
  ghost function Segments(content: seq<Byte>): seq<nat>
    decreases |content|
  {
    var e := FirstEnd(content);
    if e == |content| then [] else [e + 1] + Segments(content[e + 1..])
  }

  lemma {:induction false} FirstEndOfConcat(content: seq<Byte>, tail: seq<Byte>)
    requires END !in tail
    ensures FirstEnd(content + tail) == if FirstEnd(content) < |content| then FirstEnd(content) else |content| + |tail|
  {
    if content == [] {
      assert content + tail == tail;
    } else {
      assert (content + tail)[1..] == content[1..] + tail;
      FirstEndOfConcat(content[1..], tail);
    }
  }

  lemma FirstSegment(content: seq<Byte>)
    ensures var e := FirstEnd(content);
            Segments(content) == if e == |content| then [] else [e + 1] + Segments(content[e + 1..])
  {
    hide FirstEnd;
  }

  lemma DropOfConcat(content: seq<Byte>, tail: seq<Byte>, n: nat)
    requires n <= |content|
    ensures (content + tail)[n..] == content[n..] + tail
  {
  }

  lemma {:induction false} SegmentsIgnoreOpenTail(content: seq<Byte>, tail: seq<Byte>)
    requires END !in tail
    ensures Segments(content + tail) == Segments(content)
    decreases |content|
  {
    hide FirstEnd, Segments;
    FirstEndOfConcat(content, tail);
    FirstSegment(content);
    FirstSegment(content + tail);
    var e := FirstEnd(content);
    if e < |content| {
      SegmentsIgnoreOpenTail(content[e + 1..], tail);
      DropOfConcat(content, tail, e + 1);
    }
  }

  ghost predicate HasRoom(pieces: seq<nat>, n: nat) {
    exists i :: 0 <= i < |pieces| && n <= pieces[i]
  }

  // The first piece with room for n bytes, or the number of pieces.
  ghost function FirstWithRoom(pieces: seq<nat>, n: nat): (k: nat)
    ensures k <= |pieces|
    ensures forall i :: 0 <= i < k ==> pieces[i] < n
    ensures k < |pieces| ==> pieces[k] >= n
  {
    if pieces == [] || pieces[0] >= n then 0 else 1 + FirstWithRoom(pieces[1..], n)
  }

  // One round of eviction on a ring whose put was refused frees exactly the first piece.
  lemma EvictOne(content: seq<Byte>, size: nat, m: Message)
    requires Framed(content) && |content| <= size && !Fits(content, size, m)
    ensures var got := AfterGet(AfterPut(content, size, m), false, MQTT_BUF_SIZE);
            && (got.message.None? <==> Segments(content) == [])
            && (got.message.None? ==> got.rest == [])
            && (got.message.Some? ==>
                  && Framed(got.rest) && |got.rest| <= size
                  && Room(got.rest, size) == Segments(content)[0]
                  && Segments(got.rest) == Segments(content)[1..]
                  && Pending(content) != []
                  && Pending(got.rest) == Pending(content)[1..]
                  && Ends(got.rest) < Ends(content))
  {
    var tail := Unfinished(content, size, m);
    PutQueuesAllOrNothing(content, size, m);
    EvictionProgress(content, size, m, false);
    GetTakesOldest(content + tail, false, MQTT_BUF_SIZE);
    FirstEndOfConcat(content, tail);
    SegmentsIgnoreOpenTail(content, tail);
  }

  lemma FitsRoom(content: seq<Byte>, size: nat, m: Message)
    ensures Fits(content, size, m) <==> |Frame(m)| <= Room(content, size)
  {
  }

  // After the first refused put every later attempt finds exactly the piece just evicted free.
  lemma {:induction false} EvictionOutcome(content: seq<Byte>, size: nat, m: Message)
    requires Framed(content) && |content| <= size && !Fits(content, size, m)
    ensures var r := AfterEnqueue(content, size, m);
            var k := FirstWithRoom(Segments(content), |Frame(m)|);
            if k == |Segments(content)| then r == Enqueued([], false)
            else && r.ok && Framed(r.content) && k < |Pending(content)|
                 && Pending(r.content) == Pending(content)[k + 1..] + [m]
    decreases Ends(content)
  {
    hide AfterPut, AfterGet, Framed, Pending, Segments, Frame, Fits, Room, Ends;
    EvictOne(content, size, m);
    FitsRoom(content, size, m);
    var got := AfterGet(AfterPut(content, size, m), false, MQTT_BUF_SIZE);
    FitsRoom(got.rest, size, m);
    if got.message.Some? {
      if Fits(got.rest, size, m) {
        PutQueuesAllOrNothing(got.rest, size, m);
      } else {
        EvictionOutcome(got.rest, size, m);
        var k := FirstWithRoom(Segments(got.rest), |Frame(m)|);
        assert k < |Segments(got.rest)| ==> Pending(content)[1..][k + 1..] == Pending(content)[k + 2..];
      }
    }
  }

  // The eviction theorem.  Enqueueing succeeds exactly when the frame fits the free space or
  // some piece of the ring.  It drops the messages up to the first such piece and no other,
  // keeps the rest in order and adds the new one last; when it fails the ring is left empty.
  lemma EnqueueOutcome(content: seq<Byte>, size: nat, m: Message)
    requires Framed(content) && |content| <= size
    ensures var r := AfterEnqueue(content, size, m);
            var pieces := Segments(content);
            var k := if Fits(content, size, m) then 0 else FirstWithRoom(pieces, |Frame(m)|) + 1;
            && (r.ok <==> Fits(content, size, m) || HasRoom(pieces, |Frame(m)|))
            && (r.ok ==> k <= |Pending(content)| && Pending(r.content) == Pending(content)[k..] + [m])
            && (!r.ok ==> r.content == [])
  {
    if Fits(content, size, m) {
      PutQueuesAllOrNothing(content, size, m);
      assert Pending(content)[0..] == Pending(content);
    } else {
      EvictionOutcome(content, size, m);
    }
  }

  // Whatever the outcome, the ring stays framed and within its size.
  lemma {:induction false} EnqueueKeepsFramed(content: seq<Byte>, size: nat, m: Message)
    requires Framed(content) && |content| <= size
    ensures var r := AfterEnqueue(content, size, m); Framed(r.content) && |r.content| <= size
    decreases Ends(content)
  {
    PutQueuesAllOrNothing(content, size, m);
    if !Fits(content, size, m) {
      EvictionProgress(content, size, m, false);
      var got := AfterGet(AfterPut(content, size, m), false, MQTT_BUF_SIZE);
      if got.message.Some? {
        EnqueueKeepsFramed(got.rest, size, m);
      }
    }
  }

  // The client's ring, when empty, takes any message its 255-byte output buffer can hold.
  lemma EmptyRingTakesAnyMessage(m: Message)
    requires |m| <= MQTT_BUF_SIZE
    ensures AfterEnqueue([], QUEUE_BUFFER_SIZE, m) == Enqueued(Frame(m), true)
  {
    StuffLength(m);
    assert [] + Frame(m) == Frame(m);
  }

  // ------------------------------------------------------------------ losing everything

  // k times the frame of one message.
  ghost function Frames(a: Message, k: nat): seq<Byte> {
    if k == 0 then [] else Frames(a, k - 1) + Frame(a)
  }

  lemma {:induction false} FramesFromFront(a: Message, k: nat)
    requires k > 0
    ensures Frames(a, k) == Frame(a) + Frames(a, k - 1)
  {
    hide Frame;
    if k == 1 {
      assert [] + Frame(a) == Frame(a) + [];
    } else {
      FramesFromFront(a, k - 1);
      assert Frame(a) + Frames(a, k - 2) + Frame(a) == Frame(a) + (Frames(a, k - 2) + Frame(a));
    }
  }

  lemma FrameIsOneSegment(a: Message, rest: seq<Byte>)
    ensures Segments(Frame(a) + rest) == [|Frame(a)|] + Segments(rest)
  {
    var body := Frame(a)[..|Frame(a)| - 1];
    FramePart(a, |body|);
    assert Frame(a) + rest == body + ([END] + rest);
    EndBehind(body, [END] + rest);
    assert (Frame(a) + rest)[|Frame(a)|..] == rest;
  }

  lemma {:induction false} EndBehind(body: seq<Byte>, rest: seq<Byte>)
    requires END !in body && rest != [] && rest[0] == END
    ensures FirstEnd(body + rest) == |body|
  {
    if body == [] {
      assert body + rest == rest;
    } else {
      assert (body + rest)[1..] == body[1..] + rest;
      EndBehind(body[1..], rest);
    }
  }

  lemma {:induction false} SegmentsOfFrames(a: Message, k: nat)
    ensures Segments(Frames(a, k)) == seq(k, _ => |Frame(a)|)
  {
    hide Frame;
    if k == 0 {
      assert FirstEnd([]) == 0;
    } else {
      SegmentsOfFrames(a, k - 1);
      FramesFromFront(a, k);
      FrameIsOneSegment(a, Frames(a, k - 1));
    }
  }

  // k puts of one message, with room for all of them.
  lemma {:induction false} PutsQueueFrames(a: Message, k: nat, size: nat)
    requires k * |Frame(a)| <= size
    ensures var l := Run(Ledger([], [], []), size, seq(k, _ => Put(a)));
            && l.content == Frames(a, k) && |l.content| == k * |Frame(a)|
            && Pending(l.content) == seq(k, _ => a)
  {
    hide Frame, Pending;
    var ops: seq<Op> := seq(k, _ => Put(a));
    if k == 0 {
      EmptyRingHoldsNothing();
    } else {
      var earlier: seq<Op> := seq(k - 1, _ => Put(a));
      assert k * |Frame(a)| == (k - 1) * |Frame(a)| + |Frame(a)|;
      PutsQueueFrames(a, k - 1, size);
      assert ops[..k - 1] == earlier;
      QueueIsFifo(size, earlier);
      PutQueuesAllOrNothing(Frames(a, k - 1), size, a);
    }
  }

  lemma EmptyRingHoldsNothing()
    ensures Pending([]) == []
  {
  }

  // A ring of k equal short messages refuses every longer one that does not fit the space left,
  // and loses all k of them over it, although an empty ring would take it.
  lemma ShortMessagesAreLost(a: Message, k: nat, size: nat, m: Message)
    requires k * |Frame(a)| <= size && size - k * |Frame(a)| < |Frame(m)| <= size && |Frame(a)| < |Frame(m)|
    ensures var l := Run(Ledger([], [], []), size, seq(k, _ => Put(a)));
            && Framed(l.content) && |l.content| <= size && Pending(l.content) == seq(k, _ => a)
            && AfterEnqueue(l.content, size, m) == Enqueued([], false)
            && AfterEnqueue([], size, m).ok
  {
    hide Frame, Pending;
    PutsQueueFrames(a, k, size);
    QueueIsFifo(size, seq(k, _ => Put(a)));
    SegmentsOfFrames(a, k);
    EvictionOutcome(Frames(a, k), size, m);
  }

  // On the client's ring: 128 ping responses fill it, and any message of three bytes or more
  // then drops them all and is not queued either.
  lemma EvictionMayLoseEverything(m: Message)
    requires 3 <= |m| <= MQTT_BUF_SIZE
    ensures var l := Run(Ledger([], [], []), QUEUE_BUFFER_SIZE, seq(128, _ => Put([0xD0, 0])));
            && Framed(l.content) && |l.content| <= QUEUE_BUFFER_SIZE && |Pending(l.content)| == 128
            && AfterEnqueue(l.content, QUEUE_BUFFER_SIZE, m) == Enqueued([], false)
            && AfterEnqueue([], QUEUE_BUFFER_SIZE, m).ok
  {
    var a: Message := [0xD0, 0];
    assert |Frame(a)| == 4 by {
      assert a[1..] == [0] && a[1..][1..] == [];
      assert Stuff(a[1..]) == [0];
    }
    StuffLength(m);
    ShortMessagesAreLost(a, 128, QUEUE_BUFFER_SIZE, m);
  }
}
