// The MQTT client of firmware/user/mqtt.c as a state machine over its callbacks.
module MqttClient {
  import opened Bytes
  import opened Wrappers
  import opened RingBuffer
  import opened Framing
  import Queue = MessageQueue
  import Codec = MqttMessage
  import opened MqttReceive

  const SEND_TIMEOUT := 5          // MQTT_SEND_TIMOUT
  const RECONNECT_TIMEOUT := 5     // MQTT_RECONNECT_TIMEOUT
  const OUT_BUFFER_SIZE := 255     // MQTT_BUF_SIZE

  datatype ConnState = WifiInit | TcpReconnectReq | TcpReconnect | TcpConnecting | ConnectSending | Data

  datatype Config = Config(info: Codec.ConnectInfo, security: bool, hostIsIp: bool)

  // The client, with the bytes waiting in its outbound ring and the first byte of its output
  // buffer.
  datatype State = State(connState: ConnState, pendingType: int, keepAliveTick: U32, reconnectTick: U32,
                         sendTimeout: U32, content: seq<Byte>, firstByte: Byte)

  // What the client does to the world.
  datatype Output =
    | Dial | Lookup | HangUp
    | SendConnect(message: Message) | SendPing(message: Message) | SendQueued(message: Message)
    | OnConnected | OnDisconnected | OnPublished | OnData(delivery: Delivery)

  datatype Next = Next(state: State, outputs: seq<Output>)

  const INITIAL := State(WifiInit, 0, 0, 0, 0, [], 0)

  // A PINGREQ on its way.
  const PING := SendPing([0xC0, 0])

  // Nothing leaves a client configured for TLS: those calls are commented out.
  function IfPlain(c: Config, o: Output): seq<Output> {
    if c.security then [] else [o]
  }

  function Increment(n: U32): U32 {
    if n == 0xFFFF_FFFF then 0 else n + 1
  }

  // ------------------------------------------------------------------ the callbacks

  // MQTT_Connect
  function AfterConnect(c: Config, s: State): Next {
    Next(s.(connState := TcpConnecting, keepAliveTick := 0, reconnectTick := 0),
         if c.hostIsIp then IfPlain(c, Dial) else [Lookup])
  }

  // mqtt_dns_found: whether there is an address, and whether it is the first one.
  function AfterDnsFound(c: Config, s: State, found: bool, first: bool): Next {
    if !found then Next(s.(connState := TcpReconnectReq), [])
    else if first then Next(s.(connState := TcpConnecting), IfPlain(c, Dial))
    else Next(s, [])
  }

  // The CONNECT of the configuration fits the output buffer.
  predicate ConnectFits(c: Config) {
    c.info.clientId != [] && Codec.ConnectSize(c.info) <= OUT_BUFFER_SIZE
  }

  // mqtt_tcpclient_connect_cb; the type is read back from the buffer even when the CONNECT did
  // not fit in it.
  function AfterConnected(c: Config, s: State): Next {
    var message := Codec.ConnectMessage(OUT_BUFFER_SIZE, c.info);
    Next(s.(connState := ConnectSending, sendTimeout := SEND_TIMEOUT,
            pendingType := if message == [] then s.firstByte / 16 else Codec.TypeOf(message),
            firstByte := Codec.FirstInBuffer(s.firstByte, message)),
         IfPlain(c, SendConnect(message)))
  }

  function DataCalls(ds: seq<Delivery>): seq<Output> {
    seq(|ds|, i requires 0 <= i < |ds| => OnData(ds[i]))
  }

  predicate HoldsConnack(segment: seq<Byte>) {
    Accepted(segment) && Codec.TypeOf(segment) == Codec.CONNACK
  }

  // mqtt_tcpclient_recv
  function AfterReceived(c: Config, s: State, segment: seq<Byte>): Next
    requires Progresses(segment)
  {
    if s.connState == ConnectSending && HoldsConnack(segment) then
      if s.pendingType != Codec.CONNECT then Next(s, IfPlain(c, HangUp))
      else Next(s.(connState := Data), [OnConnected])
    else if s.connState == Data then Next(s, DataCalls(Deliveries(segment)))
    else Next(s, [])
  }

  // mqtt_tcpclient_sent_cb
  function AfterSent(s: State): Next {
    Next(s.(sendTimeout := 0), if s.connState == Data && s.pendingType == Codec.PUBLISH then [OnPublished] else [])
  }

  // mqtt_timer, once a second.
  function AfterTick(c: Config, s: State): Next {
    var ticks := Increment(s.keepAliveTick);
    var waited := Increment(s.reconnectTick);
    var next :=
      if s.connState == Data then
        if ticks > c.info.keepalive
        then Next(s.(keepAliveTick := 0, pendingType := Codec.PINGREQ, sendTimeout := SEND_TIMEOUT),
                  IfPlain(c, PING))
        else Next(s.(keepAliveTick := ticks), [])
      else if s.connState == TcpReconnectReq then
        if waited > RECONNECT_TIMEOUT then Next(s.(reconnectTick := 0, connState := TcpReconnect), [])
        else Next(s.(reconnectTick := waited), [])
      else Next(s, []);
    var left := next.state.sendTimeout;
    next.(state := next.state.(sendTimeout := if left > 0 then left - 1 else left))
  }

  // mqtt_tcpclient_discon_cb
  function AfterDisconnected(s: State): Next {
    Next(s.(connState := TcpReconnectReq), [OnDisconnected])
  }

  // mqtt_tcpclient_recon_cb
  function AfterReconnectCb(s: State): Next {
    Next(s.(connState := TcpReconnectReq), [])
  }

  // MQTT_Task; `isBegin` and `stale` are what the parser and the message buffer, both
  // uninitialised locals, happen to hold.
  function AfterTask(c: Config, s: State, isBegin: bool, stale: int): Next {
    match s.connState
    case TcpReconnect => AfterConnect(c, s)
    case Data =>
      if s.content == [] || s.sendTimeout != 0 then Next(s, [])
      else
        var got := AfterGet(s.content, isBegin, OUT_BUFFER_SIZE);
        if got.message.None? then Next(s.(content := got.rest), [])
        else
          var m := got.message.value;
          Next(s.(content := got.rest, sendTimeout := SEND_TIMEOUT,
                  pendingType := if m == [] then stale else Codec.TypeOf(m)),
               IfPlain(c, SendQueued(m)))
    case _ => Next(s, [])
  }

  // What is in the ring is framed and fits.
  ghost predicate Sound(s: State) {
    Framed(s.content) && |s.content| <= Queue.QUEUE_BUFFER_SIZE
  }

  // A message built in the output buffer and queued, older ones making room for it.
  ghost function AfterQueued(s: State, m: Message): Next
    requires Sound(s)
  {
    Next(s.(content := Queue.AfterEnqueue(s.content, Queue.QUEUE_BUFFER_SIZE, m).content,
            firstByte := Codec.FirstInBuffer(s.firstByte, m)), [])
  }

  // A reply built in the output buffer and queued if there is room.
  function AfterAcknowledged(s: State, m: Message): Next {
    Next(s.(content := AfterPut(s.content, Queue.QUEUE_BUFFER_SIZE, m),
            firstByte := Codec.FirstInBuffer(s.firstByte, m)), [])
  }

  // ------------------------------------------------------------------ runs

  datatype Event =
    | Connect
    | DnsFound(found: bool, first: bool)
    | Connected
    | Received(segment: seq<Byte>)
    | Sent
    | Tick
    | Disconnected
    | ReconnectCb
    | Task(isBegin: bool, stale: int)
    | Queued(message: Message)          // MQTT_Publish, MQTT_Subscribe
    | Acknowledged(message: Message)    // a reply queued without eviction

  // A message the encoders build for the queue.
  predicate Encoded(m: Message) {
    |m| <= OUT_BUFFER_SIZE && (m != [] ==> Codec.TypeOf(m) != Codec.CONNECT)
  }

  predicate Possible(e: Event) {
    match e
    case Received(segment) => Progresses(segment)
    case Queued(m) => Encoded(m)
    case Acknowledged(m) => Encoded(m)
    case _ => true
  }

  ghost function Step(c: Config, s: State, e: Event): (n: Next)
    requires Sound(s) && Possible(e)
    ensures Sound(n.state)
  {
    match e
    case Connect => AfterConnect(c, s)
    case DnsFound(found, first) => AfterDnsFound(c, s, found, first)
    case Connected => AfterConnected(c, s)
    case Received(segment) => AfterReceived(c, s, segment)
    case Sent => AfterSent(s)
    case Tick => AfterTick(c, s)
    case Disconnected => AfterDisconnected(s)
    case ReconnectCb => AfterReconnectCb(s)
    case Task(isBegin, stale) =>
      GetTakesOldest(s.content, isBegin, OUT_BUFFER_SIZE);
      ScanStopsAtFirstEnd(s.content, Parser(false, isBegin, []), OUT_BUFFER_SIZE);
      AfterTask(c, s, isBegin, stale)
    case Queued(m) =>
      Queue.EnqueueKeepsFramed(s.content, Queue.QUEUE_BUFFER_SIZE, m);
      AfterQueued(s, m)
    case Acknowledged(m) =>
      PutQueuesAllOrNothing(s.content, Queue.QUEUE_BUFFER_SIZE, m);
      AfterAcknowledged(s, m)
  }

  ghost function Run(c: Config, s: State, events: seq<Event>): (n: Next)
    requires Sound(s) && forall e :: e in events ==> Possible(e)
    ensures Sound(n.state)
    decreases |events|
  {
    if events == [] then Next(s, [])
    else
      var before := Run(c, s, events[..|events| - 1]);
      var last := Step(c, before.state, events[|events| - 1]);
      Next(last.state, before.outputs + last.outputs)
  }

  // ------------------------------------------------------------------ the client itself

  class Client {
    const config: Config
    const rb: Ring                           // msgQueue
    const connection: Codec.Connection       // mqtt_state.mqtt_connection
    var connState: ConnState
    var pendingType: int
    var keepAliveTick: U32
    var reconnectTick: U32
    var sendTimeout: U32
    ghost var outputs: seq<Output>

    ghost predicate Valid()
      reads this, rb, rb.data, connection
    {
      && rb.Valid() && rb.data.Length == Queue.QUEUE_BUFFER_SIZE && Framed(rb.Contents())
      && connection.Valid() && connection.buffer.Length == OUT_BUFFER_SIZE
      && connection.buffer != rb.data
    }

    ghost function View(): (s: State)
      requires Valid()
      reads this, rb, rb.data, connection, connection.buffer
      ensures Sound(s)
    {
      State(connState, pendingType, keepAliveTick, reconnectTick, sendTimeout, rb.Contents(), connection.buffer[0])
    }

    // MQTT_InitClient
    constructor (config: Config, rb: Ring, connection: Codec.Connection)
      requires rb.Valid() && rb.data.Length == Queue.QUEUE_BUFFER_SIZE && rb.Contents() == []
      requires connection.Valid() && connection.buffer.Length == OUT_BUFFER_SIZE && connection.buffer != rb.data
      requires connection.buffer[0] == 0
      ensures this.config == config && this.rb == rb && this.connection == connection
      ensures Valid() && View() == INITIAL && outputs == []
    {
      this.config, this.rb, this.connection := config, rb, connection;
      connState, pendingType := WifiInit, 0;
      keepAliveTick, reconnectTick, sendTimeout := 0, 0, 0;
      outputs := [];
    }

    method Connect()
      requires Valid()
      modifies this
      ensures Valid() && View() == AfterConnect(config, old(View())).state
      ensures outputs == old(outputs) + AfterConnect(config, old(View())).outputs
    {
      keepAliveTick, reconnectTick := 0, 0;
      outputs := outputs + if config.hostIsIp then IfPlain(config, Dial) else [Lookup];
      connState := TcpConnecting;
    }

    method DnsFound(found: bool, first: bool)
      requires Valid()
      modifies this
      ensures Valid() && View() == AfterDnsFound(config, old(View()), found, first).state
      ensures outputs == old(outputs) + AfterDnsFound(config, old(View()), found, first).outputs
    {
      if !found {
        connState := TcpReconnectReq;
        return;
      }
      if first {
        outputs := outputs + IfPlain(config, Dial);
        connState := TcpConnecting;
      }
    }

    // mqtt_tcpclient_connect_cb
    method Connected()
      requires Valid()
      modifies this, connection, connection.buffer
      ensures Valid() && View() == AfterConnected(config, old(View())).state
      ensures outputs == old(outputs) + AfterConnected(config, old(View())).outputs
      ensures pendingType == Codec.CONNECT <==> ConnectFits(config) || old(connection.buffer[0]) / 16 == Codec.CONNECT
    {
      hide Codec.ConnectMessage, Codec.ConnectSize, Framed;
      Codec.ConnectIsRecognised(OUT_BUFFER_SIZE, config.info);
      Codec.ConnectNeedsItsSize(OUT_BUFFER_SIZE, config.info);
      connection.Connect(config.info);
      assert connection.Message() != [] ==> connection.Message()[0] == connection.buffer[connection.start];
      pendingType := connection.buffer[connection.start] / 16;
      sendTimeout := SEND_TIMEOUT;
      outputs := outputs + IfPlain(config, SendConnect(connection.Message()));
      connState := ConnectSending;
    }

    method Received(segment: seq<Byte>)
      requires Valid() && Progresses(segment)
      modifies this
      ensures Valid() && View() == AfterReceived(config, old(View()), segment).state
      ensures outputs == old(outputs) + AfterReceived(config, old(View()), segment).outputs
    {
      hide Progresses, Deliveries, Codec.TypeOf;
      match connState
      case ConnectSending =>
        if 0 < |segment| < IN_BUFFER_SIZE && Codec.TypeOf(segment) == Codec.CONNACK {
          if pendingType != Codec.CONNECT {
            outputs := outputs + IfPlain(config, HangUp);
          } else {
            connState := Data;
            outputs := outputs + [OnConnected];
          }
        }
      case Data =>
        var delivered := Unpack(segment);
        outputs := outputs + DataCalls(delivered);
      case _ =>
    }

    method SentCb()
      requires Valid()
      modifies this
      ensures Valid() && View() == AfterSent(old(View())).state
      ensures outputs == old(outputs) + AfterSent(old(View())).outputs
    {
      sendTimeout := 0;
      if connState == Data && pendingType == Codec.PUBLISH {
        outputs := outputs + [OnPublished];
      }
    }

    // mqtt_timer
    method Timer()
      requires Valid()
      modifies this, connection, connection.buffer
      ensures Valid() && View() == AfterTick(config, old(View())).state
      ensures outputs == old(outputs) + AfterTick(config, old(View())).outputs
    {
      if connState == Data {
        keepAliveTick := Increment(keepAliveTick);
        if keepAliveTick > config.info.keepalive {
          connection.PingReq();
          assert connection.Message()[0] == connection.buffer[connection.start];
          pendingType := connection.buffer[connection.start] / 16;
          sendTimeout := SEND_TIMEOUT;
          outputs := outputs + IfPlain(config, SendPing(connection.Message()));
          keepAliveTick := 0;
        }
      } else if connState == TcpReconnectReq {
        reconnectTick := Increment(reconnectTick);
        if reconnectTick > RECONNECT_TIMEOUT {
          reconnectTick := 0;
          connState := TcpReconnect;
        }
      }
      if sendTimeout > 0 {
        sendTimeout := sendTimeout - 1;
      }
    }

    method DisconnectedCb()
      requires Valid()
      modifies this
      ensures Valid() && View() == AfterDisconnected(old(View())).state
      ensures outputs == old(outputs) + AfterDisconnected(old(View())).outputs
    {
      connState := TcpReconnectReq;
      outputs := outputs + [OnDisconnected];
    }

    method ReconnectedCb()
      requires Valid()
      modifies this
      ensures Valid() && View() == AfterReconnectCb(old(View())).state
      ensures outputs == old(outputs) + AfterReconnectCb(old(View())).outputs
    {
      connState := TcpReconnectReq;
    }

    // QUEUE_Gets
    method TakeMessage(isBegin: bool) returns (message: Option<Message>)
      requires Valid()
      modifies rb
      ensures Valid()
      ensures var got := AfterGet(old(rb.Contents()), isBegin, OUT_BUFFER_SIZE);
              message == got.message && rb.Contents() == got.rest
    {
      hide AfterGet;
      GetTakesOldest(rb.Contents(), isBegin, OUT_BUFFER_SIZE);
      var dataBuffer := new Byte[OUT_BUFFER_SIZE];
      var r, dataLen := ParseRb(rb, dataBuffer, OUT_BUFFER_SIZE, isBegin);
      message := if r == 0 then Some(dataBuffer[..dataLen]) else None;
    }

    // The sending branch of MQTT_Task.
    method SendNext(isBegin: bool, stale: int)
      requires Valid() && connState == Data
      modifies this, rb
      ensures Valid() && View() == AfterTask(config, old(View()), isBegin, stale).state
      ensures outputs == old(outputs) + AfterTask(config, old(View()), isBegin, stale).outputs
    {
      hide AfterGet, Framed;
      if rb.fillCount <= 0 || sendTimeout != 0 {
        return;
      }
      var message := TakeMessage(isBegin);
      if message.Some? {
        pendingType := if message.value == [] then stale else message.value[0] / 16;
        sendTimeout := SEND_TIMEOUT;
        outputs := outputs + IfPlain(config, SendQueued(message.value));
      }
    }

    // MQTT_Task
    method Task(isBegin: bool, stale: int)
      requires Valid()
      modifies this, rb
      ensures Valid() && View() == AfterTask(config, old(View()), isBegin, stale).state
      ensures outputs == old(outputs) + AfterTask(config, old(View()), isBegin, stale).outputs
    {
      hide AfterGet, Framed;
      match connState
      case TcpReconnect =>
        Connect();
        connState := TcpConnecting;
      case Data => SendNext(isBegin, stale);
      case _ =>
    }

    // MQTT_Publish: encode, and queue what was encoded.
    method Publish(topic: seq<Byte>, data: seq<Byte>, qos: int, retain: int, isBegin: bool) returns (ok: bool)
      requires Valid()
      modifies rb, rb.data, connection, connection.buffer
      ensures Valid()
      ensures var id := Codec.NextId(old(connection.messageId));
              var m := Codec.PublishMessage(OUT_BUFFER_SIZE, topic, id, data, qos, retain);
              && View() == (if m == [] then old(View()) else AfterQueued(old(View()), m).state)
              && connection.messageId == (if Codec.TakesId(OUT_BUFFER_SIZE, topic, qos)
                                          then Codec.NextId(old(connection.messageId)) else old(connection.messageId))
              && ok == (m != [] && Queue.AfterEnqueue(old(View()).content, Queue.QUEUE_BUFFER_SIZE, m).ok)
    {
      hide Queue.AfterEnqueue, Framed;
      var _ := connection.Publish(topic, data, qos, retain);
      if connection.length == 0 {
        return false;
      }
      var message := connection.buffer[connection.start..connection.start + connection.length];
      Queue.EnqueueKeepsFramed(rb.Contents(), Queue.QUEUE_BUFFER_SIZE, message);
      ok := Queue.Enqueue(rb, message, isBegin);
    }
  }
}
