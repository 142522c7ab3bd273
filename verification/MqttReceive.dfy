// Unpacking one received TCP segment into PUBLISH deliveries (firmware/user/mqtt.c:101-252).
module MqttReceive {
  import opened Bytes
  import opened Wrappers
  import opened MqttMessage

  const IN_BUFFER_SIZE := 255     // MQTT_BUF_SIZE

  // One call of the data callback; a part the decoder cannot find is a null pointer.
  datatype Delivery = Delivery(topic: Option<seq<Byte>>, payload: Option<seq<Byte>>)

  predicate Accepted(segment: seq<Byte>) {
    0 < |segment| < IN_BUFFER_SIZE
  }

  predicate HoldsPublish(segment: seq<Byte>) {
    Accepted(segment) && TypeOf(segment) == PUBLISH
  }

  function Deliver(message: seq<Byte>): Delivery {
    Delivery(PublishTopic(message), PublishData(message))
  }

  // message_length is a 16-bit field.
  function MessageLength(segment: seq<Byte>): nat {
    TotalLength(segment) % 0x10000
  }

  // What is left to unpack after one packet, if the loop goes on.
  function NextPart(segment: seq<Byte>): Option<seq<Byte>> {
    if HoldsPublish(segment) && MessageLength(segment) < |segment| then Some(segment[MessageLength(segment)..])
    else None
  }

  // The loop gets through the segment: no packet it reaches has a length that 16 bits turn
  // into zero.
  predicate Progresses(segment: seq<Byte>)
    decreases |segment|
  {
    var rest := NextPart(segment);
    rest.None? || (MessageLength(segment) > 0 && Progresses(rest.value))
  }

  function Deliveries(segment: seq<Byte>): seq<Delivery>
    requires Progresses(segment)
    decreases |segment|
  {
    if !HoldsPublish(segment) then []
    else
      var rest := NextPart(segment);
      [Deliver(segment)] + if rest.None? then [] else Deliveries(rest.value)
  }

  // The part of the segment the loop works on after n rounds, if it is still running.
  function PartAfter(segment: seq<Byte>, n: nat): Option<seq<Byte>> {
    if n == 0 then Some(segment)
    else
      var part := PartAfter(segment, n - 1);
      if part.None? then None else NextPart(part.value)
  }

  lemma {:induction false} StuckForever(segment: seq<Byte>, n: nat)
    requires NextPart(segment) == Some(segment)
    ensures PartAfter(segment, n) == Some(segment)
  {
    if n > 0 {
      StuckForever(segment, n - 1);
    }
  }

  lemma {:induction false} OneRoundLater(segment: seq<Byte>, n: nat)
    ensures PartAfter(segment, n + 1)
         == (if NextPart(segment).None? then None else PartAfter(NextPart(segment).value, n))
    decreases n
  {
    if n > 0 {
      OneRoundLater(segment, n - 1);
    } else {
      assert PartAfter(segment, 0) == Some(segment);
    }
  }

  // The loop ends exactly on the segments that make progress, within one round a byte.
  lemma {:induction false} LoopEnds(segment: seq<Byte>, n: nat)
    requires n > |segment|
    ensures Progresses(segment) <==> PartAfter(segment, n).None?
    decreases |segment|
  {
    var rest := NextPart(segment);
    if rest.Some? {
      if MessageLength(segment) == 0 {
        StuckForever(segment, n);
      } else {
        LoopEnds(rest.value, n - 1);
        OneRoundLater(segment, n - 1);
      }
    } else {
      OneRoundLater(segment, n - 1);
    }
  }

  // A packet that announces 65532 bytes after its 4-byte header.
  lemma ALengthOf65536Stalls(n: nat)
    ensures var segment: seq<Byte> := [0x30, 0xFC, 0xFF, 0x03];
            !Progresses(segment) && PartAfter(segment, n) == Some(segment)
  {
    var segment: seq<Byte> := [0x30, 0xFC, 0xFF, 0x03];
    assert FieldEnd(segment, 1) == 4 by {
      assert FieldEnd(segment, 3) == 4;
    }
    var field := segment[1..4];
    assert field[2..] == [0x03] && field[1..][1..] == field[2..] && field[2..][1..] == [];
    assert LengthValue(field[2..]) == 3;
    assert LengthValue(field[1..]) == 127 + 128 * 3;
    assert TotalLength(segment) == 65536;
    assert segment[0..] == segment;
    StuckForever(segment, n);
  }

  // ------------------------------------------------------------------ well-formed segments

  function Packets(ps: seq<Publish>): seq<Byte>
    requires forall p :: p in ps ==> WellFormed(p)
  {
    if ps == [] then [] else Wire(ps[0]) + Packets(ps[1..])
  }

  function Contents(ps: seq<Publish>): seq<Delivery> {
    if ps == [] then [] else [Delivery(Some(ps[0].topic), Some(ps[0].payload))] + Contents(ps[1..])
  }

  lemma DeliverOne(p: Publish, rest: seq<Byte>)
    requires WellFormed(p) && Accepted(Wire(p) + rest)
    requires (p.payload != [] || rest != []) && Progresses(rest)
    ensures Progresses(Wire(p) + rest)
    ensures Deliveries(Wire(p) + rest) == [Delivery(Some(p.topic), Some(p.payload))] + Deliveries(rest)
  {
    hide Wire, WellFormed, TypeOf, QosOf, RetainOf, PublishTopic, PublishData, TotalLength;
    var segment := Wire(p) + rest;
    PublishDecodes(p, rest);
    assert MessageLength(segment) == |Wire(p)|;
    if rest != [] {
      assert segment[|Wire(p)|..] == rest;
    }
  }

  lemma PacketsAreNotEmpty(ps: seq<Publish>)
    requires ps != [] && forall p :: p in ps ==> WellFormed(p)
    ensures |Wire(ps[0])| > 0 && |Packets(ps)| > 0
  {
    hide WellFormed;
  }

  // A segment of fewer than 255 bytes that starts with well-formed PUBLISH packets, none with
  // an empty payload at the very end, delivers exactly their topics and payloads, in order,
  // and then whatever the bytes behind them deliver.
  lemma {:induction false} SegmentDelivers(ps: seq<Publish>, rest: seq<Byte>)
    requires forall p :: p in ps ==> WellFormed(p)
    requires |Packets(ps) + rest| < IN_BUFFER_SIZE && Progresses(rest)
    requires ps != [] ==> ps[|ps| - 1].payload != [] || rest != []
    ensures Progresses(Packets(ps) + rest)
    ensures Deliveries(Packets(ps) + rest) == Contents(ps) + Deliveries(rest)
    decreases |ps|
  {
    hide TotalLength, PublishTopic, PublishData, WellFormed, Wire, Progresses, Deliveries;
    if ps == [] {
      assert Packets(ps) + rest == rest;
      assert Contents(ps) + Deliveries(rest) == Deliveries(rest);
    } else {
      var later := Packets(ps[1..]) + rest;
      PacketsAreNotEmpty(ps);
      if ps[1..] != [] {
        PacketsAreNotEmpty(ps[1..]);
      }
      assert Packets(ps) + rest == Wire(ps[0]) + later;
      SegmentDelivers(ps[1..], rest);
      DeliverOne(ps[0], later);
      assert [Delivery(Some(ps[0].topic), Some(ps[0].payload))] + (Contents(ps[1..]) + Deliveries(rest))
          == Contents(ps) + Deliveries(rest);
    }
  }

  // A lone PUBLISH with an empty payload reaches the callback without its payload, and at
  // QoS 0 without its topic.
  lemma EmptyPayloadAtTheEnd(p: Publish)
    requires WellFormed(p) && p.payload == [] && |Wire(p)| < IN_BUFFER_SIZE
    ensures Progresses(Wire(p))
    ensures Deliveries(Wire(p)) == [Delivery(if Qos(p) == 0 then None else Some(p.topic), None)]
  {
    hide TotalLength, PublishTopic, PublishData, WellFormed;
    PublishDecodes(p, []);
    assert Wire(p) + [] == Wire(p);
  }

  // One round of the loop.
  lemma OneRound(data: seq<Byte>)
    requires Progresses(data)
    ensures !HoldsPublish(data) ==> Deliveries(data) == []
    ensures HoldsPublish(data) ==>
              var next := MessageLength(data);
              if next < |data|
              then && 0 < next && Progresses(data[next..])
                   && Deliveries(data) == [Deliver(data)] + Deliveries(data[next..])
              else Deliveries(data) == [Deliver(data)]
  {
    hide TotalLength, PublishTopic, PublishData, MessageLength, HoldsPublish, Deliver;
  }

  // READPACKET: unpack, deliver, and go back for the next packet.
  method Unpack(pdata: seq<Byte>) returns (delivered: seq<Delivery>)
    requires Progresses(pdata)
    ensures delivered == Deliveries(pdata)
  {
    hide TotalLength, PublishTopic, PublishData, Progresses, Deliveries;
    delivered := [];
    var data, len := pdata, |pdata|;
    var again := true;
    while again
      invariant len == |data| && Progresses(data)
      invariant Deliveries(pdata) == delivered + if again then Deliveries(data) else []
      decreases if again then 1 + len else 0
    {
      OneRound(data);
      again := false;
      if 0 < len < IN_BUFFER_SIZE && TypeOf(data) == PUBLISH {
        var total := GetTotalLength(data);
        var messageLength := total % 0x10000;
        var topic := GetPublishTopic(data);
        var payload := GetPublishData(data);
        ghost var before := delivered;
        delivered := delivered + [Delivery(topic, payload)];
        if messageLength < len {
          ghost var rest := Deliveries(data[messageLength..]);
          assert before + ([Deliver(data)] + rest) == delivered + rest;
          len := len - messageLength;
          data := data[messageLength..];
          again := true;
        }
      }
    }
  }
}
