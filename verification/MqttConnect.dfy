// What a broker reads in the CONNECT that firmware/user/mqtt_msg.c builds.  The reader follows
// section 3.1 of MQTT 3.1, which the code announces by the name MQIsdp and level 3.
module MqttConnect {
  import opened Bytes
  import opened Wrappers
  import opened MqttMessage

  datatype Will = Will(topic: seq<Byte>, message: seq<Byte>)

  datatype Seen = Seen(clientId: seq<Byte>, will: Option<Will>, username: Option<seq<Byte>>,
                       password: Option<seq<Byte>>, keepalive: nat, cleanSession: bool)

  // ------------------------------------------------------------------ the reader

  datatype Text = Text(value: seq<Byte>, next: nat)

  // A string behind its length, most significant byte first.
  function ReadText(m: seq<Byte>, i: nat): Option<Text> {
    if i + 2 > |m| then None
    else
      var end := i + 2 + 256 * m[i] as int + m[i + 1] as int;
      if end > |m| then None else Some(Text(m[i + 2..end], end))
  }

  // A string that is there only if its flag is set.
  datatype Maybe = Maybe(value: Option<seq<Byte>>, next: nat)

  function ReadIf(flag: bool, m: seq<Byte>, i: nat): Option<Maybe> {
    if !flag then Some(Maybe(None, i))
    else
      var t := ReadText(m, i);
      if t.None? then None else Some(Maybe(Some(t.value.value), t.value.next))
  }

  // The Remaining Length of a message of at most two length bytes, and where it ends.
  datatype Remaining = Remaining(length: nat, next: nat)

  function ReadRemaining(m: seq<Byte>): Option<Remaining> {
    if |m| >= 2 && m[1] < 128 then Some(Remaining(m[1], 2))
    else if |m| >= 3 && m[2] < 128 then Some(Remaining(m[1] as int - 128 + 128 * m[2] as int, 3))
    else None
  }

  // "MQIsdp", level 3.
  predicate IsProtocol(m: seq<Byte>) {
    && |m| == 9 && m[0] == 0 && m[1] == 6
    && m[2] == 'M' as int && m[3] == 'Q' as int && m[4] == 'I' as int
    && m[5] == 's' as int && m[6] == 'd' as int && m[7] == 'p' as int
    && m[8] == 3
  }

  // The strings of the payload, from position i, for the connect flags.
  function ReadStrings(m: seq<Byte>, flags: Byte, keepalive: nat, i: nat): Option<Seen> {
    var id := ReadText(m, i);
    if id.None? then None
    else
      var will := flags / 4 % 2 == 1;
      var topic := ReadIf(will, m, id.value.next);
      if topic.None? then None
      else
        var message := ReadIf(will, m, topic.value.next);
        if message.None? then None
        else
          var username := ReadIf(flags / 128 == 1, m, message.value.next);
          if username.None? then None
          else
            var password := ReadIf(flags / 64 % 2 == 1, m, username.value.next);
            if password.None? || password.value.next != |m| then None
            else
              Some(Seen(id.value.value,
                        if topic.value.value.Some? && message.value.value.Some?
                        then Some(Will(topic.value.value.value, message.value.value.value)) else None,
                        username.value.value, password.value.value, keepalive, flags / 2 % 2 == 1))
  }

  function ReadConnect(m: seq<Byte>): Option<Seen> {
    var remaining := ReadRemaining(m);
    if remaining.None? || m[0] != 0x10 then None
    else
      var i := remaining.value.next;
      if remaining.value.length != |m| - i || i + 12 > |m| || !IsProtocol(m[i..i + 9]) then None
      else ReadStrings(m, m[i + 9], 256 * m[i + 10] as int + m[i + 11] as int, i + 12)
  }

  // ------------------------------------------------------------------ what it reads

  function Optional(s: seq<Byte>): Option<seq<Byte>> {
    if s == [] then None else Some(s)
  }

  // All that was asked for, except that only 16 bits of the keepalive are sent.
  function Asked(info: ConnectInfo): Seen {
    Seen(info.clientId, if info.willTopic == [] then None else Some(Will(info.willTopic, info.willMessage)),
         Optional(info.username), Optional(info.password), info.keepalive % 0x10000, info.cleanSession)
  }

  lemma FieldIsRead(m: seq<Byte>, i: nat, s: seq<Byte>, rest: seq<Byte>)
    requires i <= |m| && m[i..] == StringField(s) + rest && |s| <= 0xFFFF
    ensures ReadText(m, i) == Some(Text(s, i + 2 + |s|)) && m[i + 2 + |s|..] == rest
  {
    var tail := m[i..];
    assert tail[0] == |s| / 256 % 256 && tail[1] == |s| % 256;
    assert m[i] == tail[0] && m[i + 1] == tail[1];
    assert tail[2..2 + |s|] == s && tail[2 + |s|..] == rest;
    assert m[i + 2..i + 2 + |s|] == tail[2..2 + |s|];
  }

  lemma OptionalIsRead(m: seq<Byte>, i: nat, s: seq<Byte>, rest: seq<Byte>)
    requires i <= |m| && m[i..] == OptionalField(s) + rest && |s| <= 0xFFFF
    ensures ReadIf(s != [], m, i) == Some(Maybe(Optional(s), i + |OptionalField(s)|))
    ensures i + |OptionalField(s)| <= |m| && m[i + |OptionalField(s)|..] == rest
  {
    if s != [] {
      FieldIsRead(m, i, s, rest);
    }
  }

  // The two strings of the will, or neither.
  lemma WillIsRead(m: seq<Byte>, i: nat, info: ConnectInfo, rest: seq<Byte>)
    requires i <= |m| && m[i..] == WillFields(info) + rest
    requires info.willTopic != [] ==> |info.willTopic| <= 0xFFFF && |info.willMessage| <= 0xFFFF
    ensures var will := info.willTopic != [];
            var topic := ReadIf(will, m, i);
            && topic.Some? && topic.value.value == (if will then Some(info.willTopic) else None)
            && var message := ReadIf(will, m, topic.value.next);
               && message == Some(Maybe(if will then Some(info.willMessage) else None, i + |WillFields(info)|))
    ensures i + |WillFields(info)| <= |m| && m[i + |WillFields(info)|..] == rest
  {
    if info.willTopic != [] {
      var message := StringField(info.willMessage) + rest;
      assert m[i..] == StringField(info.willTopic) + message;
      FieldIsRead(m, i, info.willTopic, message);
      FieldIsRead(m, i + 2 + |info.willTopic|, info.willMessage, rest);
    }
  }

  // The flags announce exactly the strings that are there.
  lemma FlagsAnnounce(info: ConnectInfo)
    ensures var flags := ConnectFlags(info);
            && (flags / 4 % 2 == 1 <==> info.willTopic != []) && (flags / 128 == 1 <==> info.username != [])
            && (flags / 64 % 2 == 1 <==> info.password != []) && (flags / 2 % 2 == 1 <==> info.cleanSession)
  {
  }

  lemma StringsAreRead(m: seq<Byte>, i: nat, info: ConnectInfo, keepalive: nat)
    requires i <= |m| && m[i..] == ClientFields(info) + LoginFields(info)
    requires info.willTopic != [] ==> |info.willTopic| <= 0xFFFF && |info.willMessage| <= 0xFFFF
    requires |info.clientId| <= 0xFFFF && |info.username| <= 0xFFFF && |info.password| <= 0xFFFF
    ensures ReadStrings(m, ConnectFlags(info), keepalive, i) == Some(Asked(info).(keepalive := keepalive))
  {
    hide ConnectFlags, StringField, OptionalField, WillFields, ReadText, ReadIf;
    FlagsAnnounce(info);
    var login := OptionalField(info.username) + (OptionalField(info.password) + []);
    assert m[i..] == StringField(info.clientId) + (WillFields(info) + login);
    FieldIsRead(m, i, info.clientId, WillFields(info) + login);
    var j := i + 2 + |info.clientId|;
    WillIsRead(m, j, info, login);
    var k := j + |WillFields(info)|;
    OptionalIsRead(m, k, info.username, OptionalField(info.password) + []);
    OptionalIsRead(m, k + |OptionalField(info.username)|, info.password, []);
  }

  lemma HeaderIsRead(n: nat, body: seq<Byte>)
    requires n == |body| <= 16383
    ensures var m := FixedHeader(CONNECT, 0, 0, 0, n) + body;
            var i := |m| - n;
            m[0] == 0x10 && m[i..] == body && ReadRemaining(m) == Some(Remaining(n, i))
  {
    HeaderBytes(n);
    hide FixedHeader, ReadRemaining;
    if n <= 127 {
      ShortIsRead(n, body);
    } else {
      LongIsRead(n % 128, n / 128, body);
    }
  }

  lemma HeaderBytes(n: nat)
    requires n <= 16383
    ensures FixedHeader(CONNECT, 0, 0, 0, n) == if n <= 127 then [0x10, n] else [0x10, 128 + n % 128, n / 128]
  {
    FirstByteOfConnect();
    LengthBytesOf(n);
    hide FirstByte, LengthBytes;
  }

  lemma FirstByteOfConnect()
    ensures FirstByte(CONNECT, 0, 0, 0) == 0x10
  {
  }

  lemma LengthBytesOf(n: nat)
    requires n <= 16383
    ensures LengthBytes(n) == if n <= 127 then [n] else [128 + n % 128, n / 128]
  {
    assert n / 128 < 128;
  }

  lemma ShortIsRead(n: Byte, body: seq<Byte>)
    requires n < 128
    ensures var m := [0x10, n] + body; m[2..] == body && ReadRemaining(m) == Some(Remaining(n, 2))
  {
  }

  lemma LongIsRead(low: Byte, high: Byte, body: seq<Byte>)
    requires low < 128 && high < 128
    ensures var m := [0x10, (128 + low as int) as Byte, high] + body;
            m[3..] == body && ReadRemaining(m) == Some(Remaining(low as int + 128 * high as int, 3))
  {
  }

  // The CONNECT theorem: every CONNECT that is built, up to a body of 16383 bytes, is read back as
  // what was asked for.
  lemma ConnectIsRead(size: nat, info: ConnectInfo)
    requires ConnectMessage(size, info) != [] && size <= 16386
    ensures ReadConnect(ConnectMessage(size, info)) == Some(Asked(info))
  {
    hide FixedHeader, ClientFields, LoginFields, ConnectFlags, ReadStrings, ReadRemaining;
    var body := ConnectBody(info);
    StringsAreShort(info);
    HeaderIsRead(|body|, body);
    var m := ConnectMessage(size, info);
    var i := |m| - |body|;
    VariableHeaderIsRead(ConnectFlags(info), info.keepalive);
    var fields := ClientFields(info) + LoginFields(info);
    HeaderThenFields(m, i, VariableHeader(ConnectFlags(info), info.keepalive), fields);
    StringsAreRead(m, i + 12, info, info.keepalive % 0x10000);
  }

  lemma HeaderThenFields(m: seq<Byte>, i: nat, header: seq<Byte>, fields: seq<Byte>)
    requires i <= |m| && m[i..] == header + fields && |header| == 12
    ensures m[i..i + 9] == header[..9] && m[i + 12..] == fields
    ensures m[i + 9] == header[9] && m[i + 10] == header[10] && m[i + 11] == header[11]
  {
    var tail := m[i..];
    assert forall k :: 0 <= k < |tail| ==> tail[k] == m[i + k];
  }

  lemma VariableHeaderIsRead(flags: Byte, keepalive: nat)
    ensures var h := VariableHeader(flags, keepalive);
            IsProtocol(h[..9]) && h[9] == flags && 256 * h[10] as int + h[11] as int == keepalive % 0x10000
  {
    TwoBytes(keepalive);
    assert U16(6) == [0, 6] && U16(keepalive) == [keepalive / 256 % 256, keepalive % 256];
    hide U16;
  }

  lemma TwoBytes(n: nat)
    ensures 256 * (n / 256 % 256) + n % 256 == n % 0x10000
  {
    var q := n / 256;
    assert n == 0x10000 * (q / 256) + (256 * (q % 256) + n % 256);
  }

  lemma StringsAreShort(info: ConnectInfo)
    ensures |info.clientId| + |info.username| + |info.password| <= |ConnectBody(info)|
    ensures info.willTopic != [] ==> |info.willTopic| + |info.willMessage| <= |ConnectBody(info)|
  {
    hide ConnectFlags;
  }

  // The keepalive is read as it was set if and only if it is at most 65535.
  lemma KeepaliveExactly(size: nat, info: ConnectInfo)
    requires ConnectMessage(size, info) != [] && size <= 16386
    ensures var seen := ReadConnect(ConnectMessage(size, info));
            seen.Some? && (seen.value.keepalive == info.keepalive <==> info.keepalive <= 65535)
  {
    hide ReadConnect, ConnectMessage;
    ConnectIsRead(size, info);
  }
}
