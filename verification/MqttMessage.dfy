// The MQTT 3.1 message encoder and decoders of firmware/user/mqtt_msg.c and mqtt_msg.h.
//
// The format is that of MQTT 3.1.1, section 2.2 (fixed header, Remaining Length) and
// section 3.3 (PUBLISH).
module MqttMessage {
  import opened Bytes
  import opened Wrappers

  const HEADER_SIZE := 3      // MQTT_MAX_FIXED_HEADER_SIZE
  const CONNECT := 1
  const CONNACK := 2
  const PUBLISH := 3
  const PINGREQ := 12

  // ------------------------------------------------------------------ the wire format

  // Two bytes, most significant first.
  function U16(n: int): (b: seq<Byte>)
    ensures |b| == 2
  {
    [n / 256 % 256, n % 256]
  }

  function StringField(s: seq<Byte>): (f: seq<Byte>)
    ensures |f| == |s| + 2
  {
    U16(|s|) + s
  }

  function FirstByte(kind: int, dup: int, qos: int, retain: int): Byte {
    kind % 16 * 16 + dup % 2 * 8 + qos % 4 * 2 + retain % 2
  }

  // The Remaining Length field, seven bits a byte, least significant first.
  function LengthValue(field: seq<Byte>): nat {
    if field == [] then 0
    else field[0] % 128 + 128 * LengthValue(field[1..])
  }

  predicate IsLengthField(field: seq<Byte>) {
    && 1 <= |field| <= 4
    && field[|field| - 1] < 128
    && forall i :: 0 <= i < |field| - 1 ==> field[i] >= 128
  }

  // A PUBLISH packet as MQTT defines it; `flags` holds DUP, QoS and RETAIN.
  datatype Publish = Publish(flags: int, lengthField: seq<Byte>, topic: seq<Byte>, id: seq<Byte>, payload: seq<Byte>)

  function Qos(p: Publish): int {
    p.flags / 2 % 4
  }

  function Body(p: Publish): seq<Byte> {
    StringField(p.topic) + p.id + p.payload
  }

  predicate WellFormed(p: Publish) {
    && 0 <= p.flags < 16
    && IsLengthField(p.lengthField) && LengthValue(p.lengthField) == |Body(p)|
    && 0 < |p.topic| <= 0xFFFF
    && |p.id| == if Qos(p) > 0 then 2 else 0
  }

  function Wire(p: Publish): seq<Byte>
    requires WellFormed(p)
  {
    [(PUBLISH * 16 + p.flags) as Byte] + p.lengthField + Body(p)
  }

  // ------------------------------------------------------------------ decoding

  function TypeOf(buffer: seq<Byte>): nat
    requires buffer != []
  {
    buffer[0] / 16
  }

  function QosOf(buffer: seq<Byte>): nat
    requires buffer != []
  {
    buffer[0] / 2 % 4
  }

  function RetainOf(buffer: seq<Byte>): nat
    requires buffer != []
  {
    buffer[0] % 2
  }

  // Where the length field that reaches position i ends.
  function FieldEnd(buffer: seq<Byte>, i: nat): (e: nat)
    ensures i <= e && (i <= |buffer| ==> e <= |buffer|)
    decreases |buffer| - i
  {
    if i >= |buffer| then i
    else if buffer[i] < 128 then i + 1
    else FieldEnd(buffer, i + 1)
  }

  function FieldValue(buffer: seq<Byte>): nat {
    if buffer == [] then 0 else LengthValue(buffer[1..FieldEnd(buffer, 1)])
  }

  function TotalLength(buffer: seq<Byte>): nat {
    FieldValue(buffer) + FieldEnd(buffer, 1)
  }

  function ReadU16(buffer: seq<Byte>, i: nat): nat
    requires i + 1 < |buffer|
  {
    256 * (buffer[i] as int) + buffer[i + 1]
  }

  function PublishTopic(buffer: seq<Byte>): Option<seq<Byte>> {
    var i := FieldEnd(buffer, 1);
    if i + 2 >= |buffer| then None
    else
      var topicLength := ReadU16(buffer, i);
      if i + 2 + topicLength >= |buffer| then None
      else Some(buffer[i + 2..i + 2 + topicLength])
  }

  // Where the payload starts, when the decoder gets that far.
  function DataStart(buffer: seq<Byte>): (s: Option<nat>)
    ensures s.Some? ==> s.value <= |buffer|
  {
    var i := FieldEnd(buffer, 1);
    if i + 2 >= |buffer| then None
    else
      var j := i + 2 + ReadU16(buffer, i);
      if j >= |buffer| then None
      else if QosOf(buffer) == 0 then Some(j)
      else if j + 2 >= |buffer| then None
      else Some(j + 2)
  }

  function PublishData(buffer: seq<Byte>): Option<seq<Byte>> {
    var start := DataStart(buffer);
    var total := TotalLength(buffer);
    if start.None? || total < start.value then None
    else Some(buffer[start.value..if total <= |buffer| then total else |buffer|])
  }

  function Weight(n: nat): (w: nat)
    ensures w > 0
  {
    if n == 0 then 1 else 128 * Weight(n - 1)
  }

  lemma {:induction false} ValueOfConcat(a: seq<Byte>, b: seq<Byte>)
    ensures LengthValue(a + b) == LengthValue(a) + Weight(|a|) * LengthValue(b)
  {
    if a == [] {
      assert a + b == b;
    } else {
      assert (a + b)[1..] == a[1..] + b;
      ValueOfConcat(a[1..], b);
      Scaled(LengthValue(a[1..]), Weight(|a| - 1), LengthValue(b));
      assert LengthValue(a + b) == a[0] % 128 + 128 * LengthValue(a[1..] + b);
    }
  }

  lemma Scaled(x: int, w: int, y: int)
    ensures 128 * (x + w * y) == 128 * x + (128 * w) * y
  {
  }

  lemma NextDigit(buffer: seq<Byte>, i: nat)
    requires 1 <= i < |buffer|
    ensures LengthValue(buffer[1..i + 1]) == LengthValue(buffer[1..i]) + buffer[i] % 128 * Weight(i - 1)
  {
    assert buffer[1..i + 1] == buffer[1..i] + [buffer[i]];
    ValueOfConcat(buffer[1..i], [buffer[i]]);
    assert [buffer[i]][1..] == [];
    assert LengthValue([buffer[i]]) == buffer[i] % 128;
  }

  // The loop at the head of every decoder: the length field's value and where it ends.
  method ReadLength(buffer: seq<Byte>) returns (totlen: nat, i: nat)
    ensures i == FieldEnd(buffer, 1)
    ensures totlen == FieldValue(buffer)
  {
    totlen, i := 0, 1;
    var weight: nat := 1;
    var ended := false;
    while i < |buffer| && !ended
      invariant 1 <= i && (i <= |buffer| || buffer == [])
      invariant ended ==> i == FieldEnd(buffer, 1)
      invariant !ended ==> FieldEnd(buffer, i) == FieldEnd(buffer, 1)
      invariant !ended ==> weight == Weight(i - 1)
      invariant totlen == if buffer == [] then 0 else LengthValue(buffer[1..i])
      decreases |buffer| - i, !ended
    {
      NextDigit(buffer, i);
      totlen := totlen + (buffer[i] as int) % 128 * weight;
      ended := buffer[i] < 128;
      weight, i := 128 * weight, i + 1;
    }
  }

  // mqtt_get_total_length
  method GetTotalLength(buffer: seq<Byte>) returns (totlen: nat)
    ensures totlen == TotalLength(buffer)
  {
    var i;
    totlen, i := ReadLength(buffer);
    totlen := totlen + i;
  }

  // mqtt_get_publish_topic
  method GetPublishTopic(buffer: seq<Byte>) returns (topic: Option<seq<Byte>>)
    ensures topic == PublishTopic(buffer)
  {
    var _, i := ReadLength(buffer);
    if i + 2 >= |buffer| {
      return None;
    }
    var topiclen := ReadU16(buffer, i);
    i := i + 2;
    if i + topiclen >= |buffer| {
      return None;
    }
    return Some(buffer[i..i + topiclen]);
  }

  // mqtt_get_publish_data
  method GetPublishData(buffer: seq<Byte>) returns (data: Option<seq<Byte>>)
    ensures data == PublishData(buffer)
  {
    var totlen, i := ReadLength(buffer);
    totlen := totlen + i;
    if i + 2 >= |buffer| {
      return None;
    }
    var topiclen := ReadU16(buffer, i);
    i := i + 2;
    if i + topiclen >= |buffer| {
      return None;
    }
    i := i + topiclen;
    if QosOf(buffer) > 0 {
      if i + 2 >= |buffer| {
        return None;
      }
      i := i + 2;
    }
    if totlen < i {
      return None;
    }
    if totlen <= |buffer| {
      return Some(buffer[i..totlen]);
    }
    return Some(buffer[i..|buffer|]);
  }

  lemma {:induction false} FieldEndOf(head: Byte, field: seq<Byte>, rest: seq<Byte>, i: nat)
    requires IsLengthField(field) && 1 <= i <= |field|
    ensures FieldEnd([head] + field + rest, i) == 1 + |field|
    decreases |field| - i
  {
    var buffer := [head] + field + rest;
    assert buffer[i] == field[i - 1];
    if i < |field| {
      FieldEndOf(head, field, rest, i + 1);
    }
  }

  // Where the parts of a packet lie.
  lemma HeaderLayout(p: Publish, tail: seq<Byte>)
    requires WellFormed(p)
    ensures var buffer := Wire(p) + tail;
            && FieldEnd(buffer, 1) == 1 + |p.lengthField|
            && TotalLength(buffer) == |Wire(p)|
  {
    var head: Byte := PUBLISH * 16 + p.flags;
    var buffer := Wire(p) + tail;
    assert buffer == [head] + p.lengthField + (Body(p) + tail);
    FieldEndOf(head, p.lengthField, Body(p) + tail, 1);
    assert buffer[1..1 + |p.lengthField|] == p.lengthField;
  }

  lemma BodyLayout(p: Publish, head: seq<Byte>, tail: seq<Byte>)
    requires |p.topic| <= 0xFFFF
    ensures var buffer := head + Body(p) + tail;
            var t := |head| + 2;
            var d := t + |p.topic| + |p.id|;
            && |buffer| == d + |p.payload| + |tail|
            && ReadU16(buffer, |head|) == |p.topic|
            && buffer[t..t + |p.topic|] == p.topic
            && buffer[d..d + |p.payload|] == p.payload
  {
    var buffer := head + Body(p) + tail;
    assert buffer == head + U16(|p.topic|) + (p.topic + p.id + p.payload + tail);
    assert buffer[|head|] == U16(|p.topic|)[0] && buffer[|head| + 1] == U16(|p.topic|)[1];
  }

  lemma WireParts(p: Publish)
    requires WellFormed(p)
    ensures Wire(p) == [(PUBLISH * 16 + p.flags) as Byte] + p.lengthField + Body(p)
    ensures |Body(p)| == 2 + |p.topic| + |p.id| + |p.payload|
  {
  }

  // Where the decoders look for the parts.
  lemma PartsFound(p: Publish, tail: seq<Byte>)
    requires WellFormed(p)
    ensures var buffer, i := Wire(p) + tail, 1 + |p.lengthField|;
            var d := i + 2 + |p.topic| + |p.id|;
            && buffer[0] == PUBLISH * 16 + p.flags && |buffer| == d + |p.payload| + |tail|
            && FieldEnd(buffer, 1) == i && TotalLength(buffer) == |Wire(p)| == d + |p.payload|
            && ReadU16(buffer, i) == |p.topic| && buffer[i + 2..i + 2 + |p.topic|] == p.topic
            && buffer[d..d + |p.payload|] == p.payload
  {
    hide TotalLength, ReadU16, LengthValue, IsLengthField, Body, Wire;
    var head := [(PUBLISH * 16 + p.flags) as Byte] + p.lengthField;
    WireParts(p);
    assert (Wire(p) + tail)[0] == head[0];
    HeaderLayout(p, tail);
    BodyLayout(p, head, tail);
  }

  // The decoders on any well-formed PUBLISH followed by anything.  They find the length, the
  // topic and the payload, with the exact exception of an empty payload at the very end.
  lemma PublishDecodes(p: Publish, tail: seq<Byte>)
    requires WellFormed(p)
    ensures var buffer := Wire(p) + tail;
            var lost := p.payload == [] && tail == [];
            && TypeOf(buffer) == PUBLISH && QosOf(buffer) == Qos(p) && RetainOf(buffer) == p.flags % 2
            && TotalLength(buffer) == |Wire(p)|
            && PublishTopic(buffer) == (if lost && Qos(p) == 0 then None else Some(p.topic))
            && PublishData(buffer) == (if lost then None else Some(p.payload))
  {
    hide TotalLength, ReadU16, LengthValue, IsLengthField, Body, Wire, FieldEnd;
    PartsFound(p, tail);
  }

  lemma PrefixParts(p: Publish, n: nat)
    requires WellFormed(p) && n < |Wire(p)|
    ensures var buffer, i := Wire(p)[..n], 1 + |p.lengthField|;
            && (n > 0 ==> QosOf(buffer) == Qos(p))
            && (n < i ==> FieldEnd(buffer, 1) >= n)
            && (n >= i ==> FieldEnd(buffer, 1) == i && TotalLength(buffer) == |Wire(p)|)
            && (n > i + 2 ==> ReadU16(buffer, i) == |p.topic|)
  {
    hide TotalLength, LengthValue, Body;
    var wire, buffer, i := Wire(p), Wire(p)[..n], 1 + |p.lengthField|;
    assert wire + [] == wire;
    PartsFound(p, []);
    if n >= i {
      SameField(wire, buffer, 1);
      SameTotal(wire, buffer);
    } else {
      CutField(p, n, 1);
    }
  }

  // A field that ends inside a prefix ends there in the whole as well.
  lemma {:induction false} SameField(wire: seq<Byte>, buffer: seq<Byte>, i: nat)
    requires buffer <= wire && FieldEnd(wire, i) <= |buffer|
    ensures FieldEnd(buffer, i) == FieldEnd(wire, i)
    decreases |wire| - i
  {
    if i < |buffer| && buffer[i] >= 128 {
      SameField(wire, buffer, i + 1);
    }
  }

  lemma SameTotal(wire: seq<Byte>, buffer: seq<Byte>)
    requires buffer != [] && buffer <= wire && FieldEnd(buffer, 1) == FieldEnd(wire, 1) <= |buffer|
    ensures TotalLength(buffer) == TotalLength(wire)
  {
    assert buffer[1..FieldEnd(buffer, 1)] == wire[1..FieldEnd(wire, 1)];
  }

  lemma {:induction false} CutField(p: Publish, n: nat, i: nat)
    requires WellFormed(p) && n < 1 + |p.lengthField| && 1 <= i
    ensures n < |Wire(p)| && FieldEnd(Wire(p)[..n], i) >= n
    decreases n - i
  {
    hide LengthValue, Body;
    if i < n {
      assert Wire(p)[i] == p.lengthField[i - 1];
      CutField(p, n, i + 1);
    }
  }

  // The decoders on a PUBLISH that has not arrived whole: the topic is found as soon as more than it
  // is there, and of the payload what is there.
  lemma PrefixDecodes(p: Publish, n: nat)
    requires WellFormed(p) && n < |Wire(p)|
    ensures var buffer, topicEnd := Wire(p)[..n], 3 + |p.lengthField| + |p.topic|;
            && PublishTopic(buffer) == (if n > topicEnd then Some(p.topic) else None)
            && PublishData(buffer) == if n > topicEnd + |p.id| then Some(p.payload[..n - topicEnd - |p.id|]) else None
  {
    hide TotalLength, ReadU16, LengthValue, IsLengthField, Body, Wire, FieldEnd;
    var wire, buffer := Wire(p), Wire(p)[..n];
    var i, topicEnd := 1 + |p.lengthField|, 3 + |p.lengthField| + |p.topic|;
    var start := topicEnd + |p.id|;
    assert wire + [] == wire;
    PartsFound(p, []);
    PrefixParts(p, n);
    if n > topicEnd {
      assert buffer[i + 2..topicEnd] == wire[i + 2..topicEnd];
    }
    if n > start {
      assert buffer[start..n] == wire[start..start + |p.payload|][..n - start];
    }
  }

  // ------------------------------------------------------------------ encoding

  // What fini_message puts in front of a body of n bytes; the second length byte is cut to
  // eight bits.
  function LengthBytes(n: nat): seq<Byte> {
    if n > 127 then [128 + n % 128, n / 128 % 256] else [n]
  }

  function FixedHeader(kind: int, dup: int, qos: int, retain: int, n: nat): (h: seq<Byte>)
    ensures |h| == (if n > 127 then HEADER_SIZE else HEADER_SIZE - 1)
    ensures h[0] / 16 == kind % 16
  {
    [FirstByte(kind, dup, qos, retain)] + LengthBytes(n)
  }

  lemma SplitBytes(b: seq<Byte>, from: nat, middle: nat, end: nat)
    requires from <= middle <= end <= |b|
    ensures b[from..end] == b[from..middle] + b[middle..end]
  {
  }

  // Two length bytes say the length exactly up to 16383; a longer body is announced wrongly.
  lemma LengthBytesAreRight(n: nat)
    requires n <= 0xFFFF
    ensures IsLengthField(LengthBytes(n)) && LengthValue(LengthBytes(n)) == n <==> n <= 16383
  {
    var field := LengthBytes(n);
    if n <= 127 {
      assert field[1..] == [];
    } else {
      assert field[1..] == [(n / 128 % 256) as Byte] && field[1..][1..] == [];
      assert LengthValue(field[1..]) == n / 128 % 256 % 128;
      assert LengthValue(field) == n % 128 + 128 * (n / 128 % 256 % 128);
      HighDigit(n / 128, n % 128);
    }
  }

  lemma HighDigit(high: nat, low: nat)
    requires 0 < high < 512 && low < 128
    ensures high % 256 < 128 && low + 128 * (high % 256 % 128) == low + 128 * high <==> high < 128
  {
  }

  // The next message id: 1, 2, ..., 65535, 1, ...
  function NextId(id: int): int {
    id % 0xFFFF + 1
  }

  // The PUBLISH that mqtt_msg_publish means to build, and the bytes it does build: none when
  // there is no topic or no room.
  function PublishFor(topic: seq<Byte>, id: int, data: seq<Byte>, qos: int, retain: int): Publish {
    Publish(qos % 4 * 2 + retain % 2, LengthBytes(|StringField(topic) + IdField(id, qos) + data|),
            topic, IdField(id, qos), data)
  }

  function IdField(id: int, qos: int): (f: seq<Byte>)
    ensures |f| == if qos > 0 then 2 else 0
  {
    if qos > 0 then U16(id) else []
  }

  lemma BodyFor(topic: seq<Byte>, id: int, data: seq<Byte>, qos: int, retain: int)
    ensures Body(PublishFor(topic, id, data, qos, retain)) == StringField(topic) + IdField(id, qos) + data
  {
    hide StringField, LengthBytes;
  }

  predicate HasRoom(size: nat, p: Publish) {
    p.topic != [] && HEADER_SIZE + |Body(p)| <= size
  }

  // Whether an id is used up, which happens even when there is no room for it.
  predicate TakesId(size: nat, topic: seq<Byte>, qos: int) {
    topic != [] && HEADER_SIZE + |StringField(topic)| <= size && qos > 0
  }

  // A finished message: header and body when it is wanted and there is room, and else nothing.
  function Finished(size: nat, wanted: bool, kind: int, qos: int, retain: int, body: seq<Byte>): (m: seq<Byte>)
    ensures |m| <= size && (m != [] ==> TypeOf(m) == kind % 16)
  {
    if wanted && HEADER_SIZE + |body| <= size then FixedHeader(kind, 0, qos, retain, |body|) + body else []
  }

  function PublishMessage(size: nat, topic: seq<Byte>, id: int, data: seq<Byte>, qos: int, retain: int): (m: seq<Byte>)
    ensures |m| <= size && (m != [] ==> TypeOf(m) == PUBLISH)
  {
    hide Body, PublishFor, Finished, TypeOf;
    Finished(size, topic != [], PUBLISH, qos, retain, Body(PublishFor(topic, id, data, qos, retain)))
  }

  datatype ConnectInfo = ConnectInfo(clientId: seq<Byte>, username: seq<Byte>, password: seq<Byte>,
                                     willTopic: seq<Byte>, willMessage: seq<Byte>,
                                     keepalive: U32, willQos: int, willRetain: bool, cleanSession: bool)

  // flags |= bit, where bit is a power of two.
  function Or(flags: Byte, bit: Byte): Byte
    requires bit in {2, 4, 16, 32, 64, 128}
  {
    if flags / bit % 2 == 1 then flags else flags + bit
  }

  // The connect flags as the code sets them: the will QoS goes to bits 4 and 5.
  function ConnectFlags(info: ConnectInfo): Byte {
    var will := info.willTopic != [];
    (if info.username != [] then 128 else 0)
    + (if info.password != [] then 64 else 0)
    + (if will && (info.willRetain || info.willQos / 2 % 2 == 1) then 32 else 0)
    + (if will && info.willQos % 2 == 1 then 16 else 0)
    + (if will then 4 else 0)
    + (if info.cleanSession then 2 else 0)
  }

  // The will's share of the flags, in the order the code sets it.
  function WithWill(flags: Byte, info: ConnectInfo): Byte {
    var f1 := Or(flags, 4);
    var f2 := if info.willRetain then Or(f1, 32) else f1;
    var f3 := if info.willQos % 2 == 1 then Or(f2, 16) else f2;
    if info.willQos / 2 % 2 == 1 then Or(f3, 32) else f3
  }

  // What section 3.1.2 of MQTT 3.1.1 reads in the flags.
  function WillQosIn(flags: Byte): int {
    flags / 8 % 4
  }

  predicate WillRetainIn(flags: Byte) {
    flags / 32 % 2 == 1
  }

  const MAGIC: seq<Byte> := [77, 81, 73, 115, 100, 112]     // "MQIsdp"
  const FLAGS_AT := 9

  function VariableHeader(flags: Byte, keepalive: int): (h: seq<Byte>)
    ensures |h| == 12
  {
    U16(6) + MAGIC + [3, flags] + U16(keepalive)
  }

  // An optional field is left out when it is empty.
  function OptionalField(s: seq<Byte>): seq<Byte> {
    if s == [] then [] else StringField(s)
  }

  function WillFields(info: ConnectInfo): seq<Byte> {
    if info.willTopic == [] then [] else StringField(info.willTopic) + StringField(info.willMessage)
  }

  function WithOptional(flags: Byte, s: seq<Byte>, bit: Byte): Byte
    requires bit in {2, 4, 16, 32, 64, 128}
  {
    if s == [] then flags else Or(flags, bit)
  }

  function WillFlags(info: ConnectInfo): Byte {
    var clean: Byte := if info.cleanSession then 2 else 0;
    if info.willTopic == [] then clean else WithWill(clean, info)
  }

  // The flags the code arrives at, one after another, are the ones ConnectFlags lists.
  lemma FlagsInOrder(info: ConnectInfo)
    ensures WithOptional(WithOptional(WillFlags(info), info.username, 128), info.password, 64) == ConnectFlags(info)
  {
    hide Or;
    var clean: Byte := if info.cleanSession then 2 else 0;
    var high := info.willRetain || info.willQos / 2 % 2 == 1;
    var low := info.willQos % 2 == 1;
    if info.willTopic != [] {
      WillBits(clean, info);
    }
    LoginBits(if info.willTopic == [] then clean
              else clean + 4 + (if high then 32 else 0) + (if low then 16 else 0), info);
  }

  lemma WillBits(clean: Byte, info: ConnectInfo)
    requires clean == 0 || clean == 2
    ensures WithWill(clean, info)
         == clean + 4 + (if info.willRetain || info.willQos / 2 % 2 == 1 then 32 else 0)
            + (if info.willQos % 2 == 1 then 16 else 0)
  {
  }

  lemma LoginBits(flags: Byte, info: ConnectInfo)
    requires flags < 64
    ensures WithOptional(WithOptional(flags, info.username, 128), info.password, 64)
         == flags + (if info.username != [] then 128 else 0) + (if info.password != [] then 64 else 0)
  {
  }

  lemma FlagsUpdate(was: Byte, flags: Byte, keepalive: int, fields: seq<Byte>)
    ensures (VariableHeader(was, keepalive) + fields)[FLAGS_AT := flags] == VariableHeader(flags, keepalive) + fields
  {
  }

  function ClientFields(info: ConnectInfo): seq<Byte> {
    StringField(info.clientId) + WillFields(info)
  }

  function LoginFields(info: ConnectInfo): seq<Byte> {
    OptionalField(info.username) + OptionalField(info.password)
  }

  function ConnectBody(info: ConnectInfo): seq<Byte> {
    VariableHeader(ConnectFlags(info), info.keepalive) + (ClientFields(info) + LoginFields(info))
  }

  function ConnectMessage(size: nat, info: ConnectInfo): seq<Byte> {
    Finished(size, info.clientId != [], CONNECT, 0, 0, ConnectBody(info))
  }

  // The room a string that is left out when empty takes.
  function OptionalSize(s: seq<Byte>): nat {
    if s == [] then 0 else 2 + |s|
  }

  // The room building a CONNECT takes: the longest header, 12 bytes and the strings.
  function ConnectSize(info: ConnectInfo): nat {
    HEADER_SIZE + 12 + 2 + |info.clientId|
    + (if info.willTopic == [] then 0 else 2 + |info.willTopic| + 2 + |info.willMessage|)
    + OptionalSize(info.username) + OptionalSize(info.password)
  }

  // So a CONNECT is built exactly when there is a client id and that much room.
  lemma ConnectNeedsItsSize(size: nat, info: ConnectInfo)
    ensures ConnectMessage(size, info) != [] <==> info.clientId != [] && ConnectSize(info) <= size
  {
    hide FirstByte, ConnectFlags;
  }

  lemma ConnectIsRecognised(size: nat, info: ConnectInfo)
    ensures var m := ConnectMessage(size, info);
            |m| <= size && (m != [] ==> TypeOf(m) == CONNECT)
  {
    hide ConnectBody, Finished, TypeOf;
  }

  // MQTT keeps the will QoS in bits 3 and 4, one below where the code puts it: a broker reads
  // the will that was asked for exactly when its QoS is 0.
  lemma WillQosIsMisplaced(info: ConnectInfo)
    requires info.willTopic != [] && 0 <= info.willQos < 4
    ensures WillQosIn(ConnectFlags(info)) == info.willQos <==> info.willQos == 0
    ensures WillQosIn(ConnectFlags(info)) == 2 * (info.willQos % 2)
    ensures WillRetainIn(ConnectFlags(info)) == info.willRetain <==> info.willRetain || info.willQos < 2
  {
  }

  // What building a message leaves in the first byte of the buffer: its own first byte when it
  // has the long header, and otherwise what was there.
  function FirstInBuffer(before: Byte, message: seq<Byte>): Byte {
    if |message| > HEADER_SIZE + 127 then message[0] else before
  }

  class Connection {
    const buffer: array<Byte>
    var start: nat          // message.data, as an offset into the buffer
    var length: nat         // message.length
    var messageId: int

    ghost predicate Valid()
      reads this
    {
      && HEADER_SIZE <= buffer.Length <= 0xFFFF
      && 0 <= messageId <= 0xFFFF
      && start <= 1 && start + length <= buffer.Length
    }

    // The finished message.
    ghost function Message(): seq<Byte>
      requires Valid()
      reads this, buffer
    {
      buffer[start..start + length]
    }

    // A message under construction: its bytes go after the space for the longest header.
    ghost predicate Building()
      reads this
    {
      Valid() && start == 0 && HEADER_SIZE <= length
    }

    ghost function Built(): seq<Byte>
      requires Building()
      reads this, buffer
    {
      buffer[HEADER_SIZE..length]
    }

    // mqtt_msg_init
    constructor (buffer: array<Byte>)
      requires HEADER_SIZE <= buffer.Length <= 0xFFFF
      ensures Valid() && this.buffer == buffer && length == 0 && messageId == 0
    {
      this.buffer := buffer;
      start, length, messageId := 0, 0, 0;
    }

    method InitMessage()
      requires Valid()
      modifies this`start, this`length
      ensures Building() && Built() == []
    {
      start, length := 0, HEADER_SIZE;
    }

    method FailMessage()
      requires Valid()
      modifies this`start, this`length
      ensures Valid() && start == 0 && Message() == []
    {
      start, length := 0, 0;
    }

    // memcpy to the end of the message.
    method AppendBytes(bytes: seq<Byte>)
      requires Building() && length + |bytes| <= buffer.Length
      modifies this`length, buffer
      ensures Building() && Built() == old(Built()) + bytes
      ensures buffer[0] == old(buffer[0])
    {
      forall k | 0 <= k < |bytes| {
        buffer[length + k] := bytes[k];
      }
      length := length + |bytes|;
    }

    method AppendU16(n: int)
      requires Building() && length + 2 <= buffer.Length
      modifies this`length, buffer
      ensures Building() && length == old(length) + 2
      ensures Built() == old(Built()) + U16(n)
      ensures buffer[0] == old(buffer[0])
    {
      buffer[length] := n / 256 % 256;
      length := length + 1;
      buffer[length] := n % 256;
      length := length + 1;
    }

    method AppendString(s: seq<Byte>) returns (r: int)
      requires Building()
      modifies this`length, buffer
      ensures Building()
      ensures r == if old(length) + |s| + 2 <= buffer.Length then |s| + 2 else -1
      ensures Built() == if r == -1 then old(Built()) else old(Built()) + StringField(s)
      ensures buffer[0] == old(buffer[0])
    {
      if length + |s| + 2 > buffer.Length {
        return -1;
      }
      ghost var before := Built();
      AppendU16(|s|);
      AppendBytes(s);
      assert before + U16(|s|) + s == before + StringField(s);
      return |s| + 2;
    }

    method AppendMessageId(id: int) returns (r: int)
      requires Building() && 0 <= id <= 0xFFFF
      modifies this`length, this`messageId, buffer
      ensures Building()
      ensures messageId == if id == 0 then NextId(old(messageId)) else old(messageId)
      ensures r == if old(length) + 2 > buffer.Length then 0 else if id == 0 then messageId else id
      ensures Built() == if r == 0 then old(Built()) else old(Built()) + U16(r)
      ensures buffer[0] == old(buffer[0])
    {
      var newId := id;
      while newId == 0
        invariant 0 <= messageId <= 0xFFFF && 0 <= newId <= 0xFFFF
        invariant newId != 0 ==> newId == if id == 0 then NextId(old(messageId)) else id
        invariant newId != 0 ==> messageId == if id == 0 then newId else old(messageId)
        invariant newId == 0 ==> id == 0
        invariant newId == 0 ==> messageId == old(messageId) || (messageId == 0 && old(messageId) == 0xFFFF)
        invariant length == old(length) && buffer[..] == old(buffer[..])
        decreases if newId != 0 then 0 else if messageId == 0xFFFF then 2 else 1
      {
        messageId := if messageId == 0xFFFF then 0 else messageId + 1;
        newId := messageId;
      }
      if length + 2 > buffer.Length {
        return 0;
      }
      AppendU16(newId);
      return newId;
    }

    // A body of up to 127 bytes gets its two header bytes right in front of it, a longer one
    // three.
    method FiniMessage(kind: int, dup: int, qos: int, retain: int)
      requires Building()
      modifies this`start, this`length, buffer
      ensures Valid()
      ensures Message() == FixedHeader(kind, dup, qos, retain, |old(Built())|) + old(Built())
      ensures buffer[0] == if |old(Built())| > 127 then FirstByte(kind, dup, qos, retain) else old(buffer[0])
      ensures start == if |old(Built())| > 127 then 0 else 1
    {
      hide FirstByte;
      ghost var body := Built();
      var remainingLength := length - HEADER_SIZE;
      if remainingLength > 127 {
        buffer[0] := FirstByte(kind, dup, qos, retain);
        buffer[1] := 128 + remainingLength % 128;
        buffer[2] := remainingLength / 128 % 256;
        start, length := 0, remainingLength + 3;
      } else {
        buffer[1] := FirstByte(kind, dup, qos, retain);
        buffer[2] := remainingLength;
        start, length := 1, remainingLength + 2;
      }
      assert buffer[start..3] == FixedHeader(kind, dup, qos, retain, |body|);
      assert buffer[3..start + length] == body;
      SplitBytes(buffer[..], start, 3, start + length);
    }

    // A CONNECT under construction: its variable header and some of its payload fields.
    ghost predicate Connecting(flags: Byte, keepalive: int, fields: seq<Byte>)
      reads this, buffer
    {
      Building() && Built() == VariableHeader(flags, keepalive) + fields
    }

    method SetFlags(flags: Byte, ghost was: Byte, ghost keepalive: int, ghost fields: seq<Byte>)
      requires Connecting(was, keepalive, fields)
      modifies buffer
      ensures Connecting(flags, keepalive, fields)
      ensures buffer[0] == old(buffer[0])
    {
      FlagsUpdate(was, flags, keepalive, fields);
      buffer[HEADER_SIZE + FLAGS_AT] := flags;
    }

    method AppendField(s: seq<Byte>, ghost flags: Byte, ghost keepalive: int, ghost fields: seq<Byte>)
      returns (ok: bool)
      requires Connecting(flags, keepalive, fields)
      modifies this`length, buffer
      ensures ok == (HEADER_SIZE + 12 + |fields + StringField(s)| <= buffer.Length)
      ensures Connecting(flags, keepalive, if ok then fields + StringField(s) else fields)
      ensures buffer[0] == old(buffer[0])
    {
      hide VariableHeader;
      var r := AppendString(s);
      ok := r >= 0;
      ghost var header := VariableHeader(flags, keepalive);
      assert header + fields + StringField(s) == header + (fields + StringField(s));
    }

    // A field of the payload that is present when it is not empty, and its flag.
    method AppendOptional(s: seq<Byte>, flags: Byte, bit: Byte, ghost keepalive: int, ghost fields: seq<Byte>)
      returns (ok: bool, newFlags: Byte)
      requires Connecting(flags, keepalive, fields) && bit in {2, 4, 16, 32, 64, 128}
      requires HEADER_SIZE + 12 + |fields| <= buffer.Length
      modifies this`length, buffer
      ensures Building()
      ensures ok == (HEADER_SIZE + 12 + |fields + OptionalField(s)| <= buffer.Length)
      ensures ok ==> newFlags == WithOptional(flags, s, bit)
      ensures ok ==> Connecting(newFlags, keepalive, fields + OptionalField(s))
      ensures buffer[0] == old(buffer[0])
    {
      newFlags := flags;
      if s == [] {
        assert fields + OptionalField(s) == fields;
        return true, flags;
      }
      ok := AppendField(s, flags, keepalive, fields);
      if ok {
        newFlags := Or(flags, bit);
        SetFlags(newFlags, flags, keepalive, fields + StringField(s));
      }
    }

    // The will.
    method AppendWill(info: ConnectInfo, flags: Byte, ghost keepalive: int, ghost fields: seq<Byte>)
      returns (ok: bool, newFlags: Byte)
      requires Connecting(flags, keepalive, fields)
      requires HEADER_SIZE + 12 + |fields| <= buffer.Length
      modifies this`length, buffer
      ensures Building()
      ensures ok == (HEADER_SIZE + 12 + |fields + WillFields(info)| <= buffer.Length)
      ensures ok ==> newFlags == (if info.willTopic == [] then flags else WithWill(flags, info))
      ensures ok ==> Connecting(newFlags, keepalive, fields + WillFields(info))
      ensures buffer[0] == old(buffer[0])
    {
      newFlags := flags;
      if info.willTopic == [] {
        assert fields + WillFields(info) == fields;
        return true, flags;
      }
      ghost var topic := StringField(info.willTopic);
      assert fields + topic + StringField(info.willMessage) == fields + WillFields(info);
      ok := AppendField(info.willTopic, flags, keepalive, fields);
      if !ok {
        return;
      }
      ok := AppendField(info.willMessage, flags, keepalive, fields + topic);
      if !ok {
        return;
      }
      newFlags := Or(newFlags, 4);
      if info.willRetain {
        newFlags := Or(newFlags, 32);
      }
      if info.willQos % 2 == 1 {
        newFlags := Or(newFlags, 16);
      }
      if info.willQos / 2 % 2 == 1 {
        newFlags := Or(newFlags, 32);
      }
      SetFlags(newFlags, flags, keepalive, fields + WillFields(info));
    }

    // The user name and the password.
    method AppendLogin(info: ConnectInfo, flags: Byte, ghost keepalive: int, ghost fields: seq<Byte>) returns (ok: bool)
      requires Connecting(flags, keepalive, fields)
      requires HEADER_SIZE + 12 + |fields| <= buffer.Length
      requires flags == WillFlags(info)
      modifies this`length, buffer
      ensures Building()
      ensures ok == (HEADER_SIZE + 12 + |fields + LoginFields(info)| <= buffer.Length)
      ensures ok ==> Connecting(ConnectFlags(info), keepalive, fields + LoginFields(info))
      ensures buffer[0] == old(buffer[0])
    {
      FlagsInOrder(info);
      ghost var name, password := OptionalField(info.username), OptionalField(info.password);
      assert fields + name + password == fields + LoginFields(info);
      var newFlags;
      ok, newFlags := AppendOptional(info.username, flags, 128, keepalive, fields);
      if !ok { return; }
      ok, newFlags := AppendOptional(info.password, newFlags, 64, keepalive, fields + name);
    }

    // The client id and the will.
    method AppendClient(info: ConnectInfo, flags: Byte) returns (ok: bool, newFlags: Byte)
      requires Connecting(flags, info.keepalive, []) && flags == if info.cleanSession then 2 else 0
      requires info.clientId != []
      modifies this`length, buffer
      ensures Building()
      ensures ok == (HEADER_SIZE + 12 + |ClientFields(info)| <= buffer.Length)
      ensures ok ==> newFlags == WillFlags(info) && Connecting(newFlags, info.keepalive, ClientFields(info))
      ensures buffer[0] == old(buffer[0])
    {
      newFlags := flags;
      assert [] + StringField(info.clientId) == StringField(info.clientId);
      ok := AppendField(info.clientId, flags, info.keepalive, []);
      if !ok { return; }
      ok, newFlags := AppendWill(info, flags, info.keepalive, StringField(info.clientId));
    }

    // The body of a CONNECT.
    method BuildConnect(info: ConnectInfo) returns (ok: bool)
      requires Building() && Built() == []
      modifies this`length, buffer
      ensures Building()
      ensures ok == (info.clientId != [] && HEADER_SIZE + |ConnectBody(info)| <= buffer.Length)
      ensures ok ==> Built() == ConnectBody(info)
      ensures buffer[0] == old(buffer[0])
    {
      if length + 12 > buffer.Length {
        return false;
      }
      var flags: Byte := if info.cleanSession then Or(0, 2) else 0;
      ghost var header := VariableHeader(flags, info.keepalive);
      assert [] + header == header + [];
      AppendBytes(VariableHeader(flags, info.keepalive));
      if info.clientId == [] {
        return false;
      }
      ok, flags := AppendClient(info, flags);
      if !ok { return; }
      ok := AppendLogin(info, flags, info.keepalive, ClientFields(info));
    }

    // mqtt_msg_connect; an empty string stands for a null pointer as well.
    method Connect(info: ConnectInfo)
      requires Valid()
      modifies this, buffer
      ensures Valid() && messageId == old(messageId)
      ensures Message() == ConnectMessage(buffer.Length, info)
      ensures buffer[0] == FirstInBuffer(old(buffer[0]), Message())
      ensures buffer[start] == if Message() != [] then Message()[0] else old(buffer[0])
    {
      InitMessage();
      var ok := BuildConnect(info);
      if !ok {
        FailMessage();
        return;
      }
      FiniMessage(CONNECT, 0, 0, 0);
    }

    // The topic and the id of a PUBLISH.
    method BuildPublishHead(topic: seq<Byte>, qos: int) returns (ok: bool, id: int)
      requires Building() && Built() == []
      modifies this`length, this`messageId, buffer
      ensures Building()
      ensures var next := NextId(old(messageId));
              && ok == (topic != [] && HEADER_SIZE + |StringField(topic) + IdField(next, qos)| <= buffer.Length)
              && (ok ==> Built() == StringField(topic) + IdField(next, qos))
              && messageId == (if TakesId(buffer.Length, topic, qos) then next else old(messageId))
              && (ok ==> id == if qos > 0 then next else 0)
      ensures buffer[0] == old(buffer[0])
    {
      hide StringField;
      if topic == [] {
        return false, 0;
      }
      var r := AppendString(topic);
      if r < 0 {
        return false, 0;
      }
      assert Built() == StringField(topic);
      if qos > 0 {
        id := AppendMessageId(0);
        ok := id != 0;
      } else {
        assert StringField(topic) + [] == StringField(topic);
        ok, id := true, 0;
      }
    }

    // The body of a PUBLISH.
    method BuildPublish(topic: seq<Byte>, data: seq<Byte>, qos: int) returns (ok: bool, id: int)
      requires Building() && Built() == []
      modifies this`length, this`messageId, buffer
      ensures Building()
      ensures var p := PublishFor(topic, NextId(old(messageId)), data, qos, 0);
              && ok == HasRoom(buffer.Length, p)
              && (ok ==> Built() == Body(p))
      ensures messageId == if TakesId(buffer.Length, topic, qos) then NextId(old(messageId)) else old(messageId)
      ensures ok ==> id == if qos > 0 then messageId else 0
      ensures buffer[0] == old(buffer[0])
    {
      hide StringField, IdField, Body, LengthBytes;
      BodyFor(topic, NextId(messageId), data, qos, 0);
      ok, id := BuildPublishHead(topic, qos);
      if !ok {
        return;
      }
      if length + |data| > buffer.Length {
        return false, id;
      }
      AppendBytes(data);
    }

    // mqtt_msg_publish; the empty topic stands for the null pointer as well.
    method Publish(topic: seq<Byte>, data: seq<Byte>, qos: int, retain: int) returns (id: int)
      requires Valid()
      modifies this, buffer
      ensures Valid()
      ensures Message() == PublishMessage(buffer.Length, topic, NextId(old(messageId)), data, qos, retain)
      ensures messageId == if TakesId(buffer.Length, topic, qos) then NextId(old(messageId)) else old(messageId)
      ensures Message() != [] ==> id == if qos > 0 then messageId else 0
      ensures buffer[0] == FirstInBuffer(old(buffer[0]), Message())
    {
      InitMessage();
      var ok;
      ok, id := BuildPublish(topic, data, qos);
      if !ok {
        FailMessage();
        return;
      }
      FiniMessage(PUBLISH, 0, qos, retain);
    }

    // mqtt_msg_pingreq
    method PingReq()
      requires Valid()
      modifies this`start, this`length, buffer
      ensures Valid() && Message() == [PINGREQ * 16, 0]
      ensures buffer[0] == old(buffer[0])
    {
      InitMessage();
      FiniMessage(PINGREQ, 0, 0, 0);
    }
  }

  // A PUBLISH is built if and only if there is a topic and room for it.
  lemma PublishNeedsItsSize(size: nat, topic: seq<Byte>, id: int, data: seq<Byte>, qos: int, retain: int)
    ensures PublishMessage(size, topic, id, data, qos, retain) != []
       <==> topic != [] && 5 + |topic| + (if qos > 0 then 2 else 0) + |data| <= size
    ensures HasRoom(size, PublishFor(topic, id, data, qos, retain))
       <==> PublishMessage(size, topic, id, data, qos, retain) != []
  {
  }

  // What is built is a PUBLISH as MQTT defines it exactly when its length is at most 16383.
  lemma BuiltPublishIsWellFormed(size: nat, topic: seq<Byte>, id: int, data: seq<Byte>, qos: int, retain: int)
    requires size <= 0xFFFF && 0 <= qos < 4 && 0 <= retain < 2
    requires PublishMessage(size, topic, id, data, qos, retain) != []
    ensures var p := PublishFor(topic, id, data, qos, retain);
            && Qos(p) == qos && p.flags % 2 == retain
            && (WellFormed(p) <==> |Body(p)| <= 16383)
            && (WellFormed(p) ==> Wire(p) == PublishMessage(size, topic, id, data, qos, retain))
  {
    hide LengthValue, IsLengthField;
    var p := PublishFor(topic, id, data, qos, retain);
    LengthBytesAreRight(|Body(p)|);
    assert p.lengthField == LengthBytes(|Body(p)|);
  }

  // Then decoding it, whatever follows it in the buffer, gives back what went in.
  lemma PublishRoundTrip(size: nat, topic: seq<Byte>, id: int, data: seq<Byte>, qos: int, retain: int, tail: seq<Byte>)
    requires size <= 0xFFFF && 0 <= qos < 4 && 0 <= retain < 2
    requires PublishMessage(size, topic, id, data, qos, retain) != []
    requires |Body(PublishFor(topic, id, data, qos, retain))| <= 16383
    requires data != [] || tail != []
    ensures var message := PublishMessage(size, topic, id, data, qos, retain);
            var buffer := message + tail;
            && buffer != []
            && TypeOf(buffer) == PUBLISH && QosOf(buffer) == qos && RetainOf(buffer) == retain
            && TotalLength(buffer) == |message|
            && PublishTopic(buffer) == Some(topic)
            && PublishData(buffer) == Some(data)
  {
    hide WellFormed, PublishMessage, HasRoom, Body, Wire, TotalLength, PublishTopic, PublishData;
    hide TypeOf, QosOf, RetainOf, Qos;
    BuiltPublishIsWellFormed(size, topic, id, data, qos, retain);
    PublishDecodes(PublishFor(topic, id, data, qos, retain), tail);
  }

  // ------------------------------------------------------------------ message ids

  function IdAfter(id: int, n: nat): int {
    if n == 0 then id else NextId(IdAfter(id, n - 1))
  }

  lemma {:induction false} IdFormula(id: int, n: nat)
    requires 0 <= id <= 0xFFFF && n > 0
    ensures IdAfter(id, n) == (id + n - 1) % 0xFFFF + 1
  {
    if n > 1 {
      IdFormula(id, n - 1);
      OneMore(id + n - 2);
    } else {
      assert IdAfter(id, 0) == id;
    }
  }

  lemma OneMore(a: nat)
    ensures NextId(a % 0xFFFF + 1) == (a + 1) % 0xFFFF + 1
  {
    var q, r := a / 0xFFFF, a % 0xFFFF;
    assert a + 1 == 0xFFFF * q + (r + 1);
    if r == 0xFFFE {
      assert a + 1 == 0xFFFF * (q + 1);
    }
  }

  lemma EqualRemainders(a: nat, b: nat)
    requires a <= b
    ensures a % 0xFFFF == b % 0xFFFF <==> (b - a) % 0xFFFF == 0
  {
    assert b - a == 0xFFFF * (b / 0xFFFF - a / 0xFFFF) + (b % 0xFFFF - a % 0xFFFF);
  }

  // No id is ever zero, and one is not used again before all 65535 have been.
  lemma IdsDoNotRepeat(id: int, m: nat, n: nat)
    requires 0 <= id <= 0xFFFF && 0 < m < n
    ensures 1 <= IdAfter(id, n) <= 0xFFFF
    ensures IdAfter(id, m) == IdAfter(id, n) <==> (n - m) % 0xFFFF == 0
  {
    hide IdAfter;
    IdFormula(id, m);
    IdFormula(id, n);
    EqualRemainders(id + m - 1, id + n - 1);
  }

  // One call of mqtt_msg_publish on a buffer.
  datatype Call = Call(topic: seq<Byte>, data: seq<Byte>, qos: int, retain: int)

  // The last id assigned after these calls.
  function IdOf(size: nat, id: int, calls: seq<Call>): int {
    if calls == [] then id
    else
      var call, before := calls[|calls| - 1], IdOf(size, id, calls[..|calls| - 1]);
      if TakesId(size, call.topic, call.qos) then NextId(before) else before
  }

  // What call i builds.
  function MessageOf(size: nat, id: int, calls: seq<Call>, i: nat): seq<Byte>
    requires i < |calls|
  {
    var call := calls[i];
    PublishMessage(size, call.topic, NextId(IdOf(size, id, calls[..i])), call.data, call.qos, call.retain)
  }

  // The two bytes in front of the payload.
  function IdBytes(m: seq<Byte>, data: seq<Byte>): seq<Byte>
    requires |m| >= |data| + 2
  {
    m[|m| - |data| - 2..|m| - |data|]
  }

  lemma {:induction false} IdsAreCounted(size: nat, id: int, calls: seq<Call>, i: nat, j: nat) returns (n: nat)
    requires i < j <= |calls| && TakesId(size, calls[i].topic, calls[i].qos)
    ensures 0 < n <= j - i && IdOf(size, id, calls[..j]) == IdAfter(IdOf(size, id, calls[..i]), n)
    decreases j
  {
    hide TakesId, NextId;
    assert calls[..j][..j - 1] == calls[..j - 1];
    if i == j - 1 {
      n := 1;
      assert IdAfter(IdOf(size, id, calls[..i]), 0) == IdOf(size, id, calls[..i]);
    } else {
      n := IdsAreCounted(size, id, calls, i, j - 1);
      if TakesId(size, calls[j - 1].topic, calls[j - 1].qos) {
        n := n + 1;
      }
    }
  }

  lemma {:induction false} IdsStayInRange(size: nat, id: int, calls: seq<Call>)
    requires 0 <= id <= 0xFFFF
    ensures 0 <= IdOf(size, id, calls) <= 0xFFFF
    decreases |calls|
  {
    if calls != [] {
      IdsStayInRange(size, id, calls[..|calls| - 1]);
    }
  }

  lemma IdStandsInFront(size: nat, call: Call, id: int)
    requires PublishMessage(size, call.topic, id, call.data, call.qos, call.retain) != [] && call.qos > 0
    ensures var m := PublishMessage(size, call.topic, id, call.data, call.qos, call.retain);
            |m| >= |call.data| + 2 && IdBytes(m, call.data) == U16(id)
    ensures TakesId(size, call.topic, call.qos)
  {
    hide TypeOf, StringField, LengthBytes;
    PublishNeedsItsSize(size, call.topic, id, call.data, call.qos, call.retain);
    BodyFor(call.topic, id, call.data, call.qos, call.retain);
    var body := StringField(call.topic) + U16(id) + call.data;
    var header := FixedHeader(PUBLISH, 0, call.qos, call.retain, |body|);
    assert header + body == header + StringField(call.topic) + U16(id) + call.data;
  }

  // Over any run of calls, two messages of QoS above 0 that are built within 65535 calls carry
  // different ids, neither of them 0, whatever calls in between failed.
  lemma RecentIdsDiffer(size: nat, id: int, calls: seq<Call>, i: nat, j: nat)
    requires 0 <= id <= 0xFFFF && i < j < |calls| && j - i < 65535
    requires calls[i].qos > 0 && MessageOf(size, id, calls, i) != []
    requires calls[j].qos > 0 && MessageOf(size, id, calls, j) != []
    ensures var a, b := MessageOf(size, id, calls, i), MessageOf(size, id, calls, j);
            && |a| >= |calls[i].data| + 2 && |b| >= |calls[j].data| + 2
            && IdBytes(a, calls[i].data) != IdBytes(b, calls[j].data) && IdBytes(b, calls[j].data) != [0, 0]
  {
    hide PublishMessage, TakesId, IdAfter, NextId;
    var before, later := IdOf(size, id, calls[..i]), IdOf(size, id, calls[..j]);
    IdsStayInRange(size, id, calls[..i]);
    IdStandsInFront(size, calls[i], NextId(before));
    IdStandsInFront(size, calls[j], NextId(later));
    var n := IdsAreCounted(size, id, calls, i, j);
    OneAndNext(before, n);
    IdsDoNotRepeat(before, 1, n + 1);
    U16Differ(NextId(before), NextId(later));
  }

  lemma OneAndNext(id: int, n: nat)
    ensures IdAfter(id, 1) == NextId(id) && IdAfter(id, n + 1) == NextId(IdAfter(id, n))
    ensures 1 <= NextId(id) <= 0xFFFF
  {
    assert IdAfter(id, 0) == id;
  }

  lemma U16Differ(a: int, b: int)
    requires 1 <= a <= 0xFFFF && 1 <= b <= 0xFFFF && a != b
    ensures U16(a) != U16(b) && U16(b) != [0, 0]
  {
    assert U16(a)[0] == a / 256 % 256 && U16(a)[1] == a % 256;
    assert U16(b)[0] == b / 256 % 256 && U16(b)[1] == b % 256;
  }
}
