// What holds over every run of the MQTT client.
module MqttClientRuns {
  import opened Bytes
  import opened Framing
  import Queue = MessageQueue
  import Codec = MqttMessage
  import opened MqttReceive
  import opened MqttClient

  ghost predicate AllPossible(events: seq<Event>) {
    forall e :: e in events ==> Possible(e)
  }

  // The run up to its last event, and that event.
  ghost function Before(c: Config, s: State, events: seq<Event>): Next
    requires Sound(s) && AllPossible(events) && events != []
  {
    Run(c, s, events[..|events| - 1])
  }

  function Last(events: seq<Event>): Event
    requires events != []
  {
    events[|events| - 1]
  }

  // ------------------------------------------------------------------ connecting

  // The type a connecting client remembers is CONNECT.
  predicate ReadsConnect(c: Config, s: State) {
    ConnectFits(c) || s.firstByte / 16 == Codec.CONNECT
  }

  // A CONNACK in a segment short enough for the receive buffer.
  ghost predicate IsConnack(segment: seq<Byte>) {
    0 < |segment| < 255 && 0x20 <= segment[0] < 0x30
  }

  lemma ConnackIs(segment: seq<Byte>)
    ensures IsConnack(segment) <==> HoldsConnack(segment)
  {
  }

  // What one event can do to the connection.
  lemma ConnectionSteps(c: Config, s: State, e: Event)
    requires Sound(s) && Possible(e)
    ensures var n := Step(c, s, e);
            && (n.state.connState == ConnectSending ==>
                  if e.Connected? then n.state.pendingType == Codec.CONNECT <==> ReadsConnect(c, s)
                  else s.connState == ConnectSending && n.state.pendingType == s.pendingType)
            && (n.state.connState == Data ==>
                  || s.connState == Data
                  || (s.connState == ConnectSending && s.pendingType == Codec.CONNECT
                      && e.Received? && IsConnack(e.segment)))
            && (OnConnected in n.outputs ==> n.state.connState == Data)
            && (HangUp in n.outputs ==> s.connState == ConnectSending && s.pendingType != Codec.CONNECT)
  {
    hide Progresses, Deliveries, AfterGet, Codec.TypeOf, Codec.ConnectMessage, Codec.ConnectSize, Codec.FirstInBuffer,
      Queue.AfterEnqueue, AfterPut;
    if e.Received? {
      ConnackIs(e.segment);
    }
    Codec.ConnectIsRecognised(OUT_BUFFER_SIZE, c.info);
    Codec.ConnectNeedsItsSize(OUT_BUFFER_SIZE, c.info);
  }

  // Only a CONNECT with the long header makes the first byte of the buffer show a CONNECT.
  lemma FirstByteSteps(c: Config, s: State, e: Event)
    requires Sound(s) && Possible(e) && !ConnectFits(c) && s.firstByte / 16 != Codec.CONNECT
    ensures Step(c, s, e).state.firstByte / 16 != Codec.CONNECT
  {
    hide Progresses, Deliveries, AfterGet, Codec.ConnectMessage, Codec.ConnectSize, Queue.AfterEnqueue, AfterPut;
    Codec.ConnectNeedsItsSize(OUT_BUFFER_SIZE, c.info);
  }

  lemma LastStep(c: Config, s: State, events: seq<Event>)
    requires Sound(s) && AllPossible(events) && events != []
    ensures var before := Before(c, s, events);
            var last := Step(c, before.state, Last(events));
            && Run(c, s, events) == Next(last.state, before.outputs + last.outputs)
  {
  }

  // While it waits for the broker's answer a client whose CONNECT fits its buffer remembers
  // having sent it, so the branch that hangs up on an unexpected CONNACK is never taken.
  lemma {:induction false} PendingConnect(c: Config, events: seq<Event>)
    requires AllPossible(events) && ConnectFits(c)
    ensures var n := Run(c, INITIAL, events);
            && (n.state.connState == ConnectSending ==> n.state.pendingType == Codec.CONNECT)
            && HangUp !in n.outputs
    decreases |events|
  {
    hide Step;
    if events != [] {
      PendingConnect(c, events[..|events| - 1]);
      LastStep(c, INITIAL, events);
      ConnectionSteps(c, Before(c, INITIAL, events).state, Last(events));
    }
  }

  // One whose CONNECT does not fit never gets into a session, whatever happens: it remembers the
  // type of the last long message, and that is never a CONNECT.
  lemma {:induction false} NoSessionWithoutConnect(c: Config, events: seq<Event>)
    requires AllPossible(events) && !ConnectFits(c)
    ensures var n := Run(c, INITIAL, events);
            && n.state.connState != Data && OnConnected !in n.outputs
            && (n.state.connState == ConnectSending ==> n.state.pendingType != Codec.CONNECT)
            && n.state.firstByte / 16 != Codec.CONNECT
    decreases |events|
  {
    hide Step, ConnectFits;
    if events != [] {
      NoSessionWithoutConnect(c, events[..|events| - 1]);
      LastStep(c, INITIAL, events);
      ConnectionSteps(c, Before(c, INITIAL, events).state, Last(events));
      FirstByteSteps(c, Before(c, INITIAL, events).state, Last(events));
    }
  }

  // From any state, a connection and then a CONNACK open a session exactly when the CONNECT fits
  // or the first byte of the buffer already shows one; otherwise the client hangs up.
  lemma HangsUpExactlyWithoutConnect(c: Config, s: State, segment: seq<Byte>)
    requires Sound(s) && Progresses(segment) && IsConnack(segment)
    ensures var waiting := Step(c, s, Connected).state;
            var n := Step(c, waiting, Received(segment));
            && (n.state.connState == Data <==> ReadsConnect(c, s))
            && n.outputs == if ReadsConnect(c, s) then [OnConnected] else IfPlain(c, HangUp)
  {
    hide Progresses, Deliveries, Codec.ConnectMessage, Codec.ConnectSize, Codec.FirstInBuffer;
    Codec.ConnectIsRecognised(OUT_BUFFER_SIZE, c.info);
    Codec.ConnectNeedsItsSize(OUT_BUFFER_SIZE, c.info);
  }

  const CONNACK_SEGMENT: seq<Byte> := [0x20, 2, 0, 0]

  lemma ConnackIsTaken()
    ensures Progresses(CONNACK_SEGMENT) && IsConnack(CONNACK_SEGMENT)
  {
  }

  ghost predicate ReachesSession(c: Config, events: seq<Event>) {
    AllPossible(events) && Run(c, INITIAL, events).state.connState == Data
  }

  // So a client can get into a session if and only if its CONNECT fits its buffer.
  lemma SessionNeedsConnect(c: Config)
    ensures (exists events :: ReachesSession(c, events)) <==> ConnectFits(c)
  {
    hide ConnectFits, Progresses;
    if ConnectFits(c) {
      ConnackIsTaken();
      FirstConnection(c);
      assert ReachesSession(c, [Connected, Received(CONNACK_SEGMENT)]);
    } else {
      forall events | AllPossible(events) ensures !ReachesSession(c, events) {
        NoSessionWithoutConnect(c, events);
      }
    }
  }

  function ConnectSent(c: Config): Output {
    SendConnect(Codec.ConnectMessage(OUT_BUFFER_SIZE, c.info))
  }

  // The first connection of a fresh client, answered by a CONNACK.
  lemma FirstConnection(c: Config)
    requires Progresses(CONNACK_SEGMENT)
    ensures var events := [Connected, Received(CONNACK_SEGMENT)];
            && AllPossible(events)
            && (Run(c, INITIAL, events).state.connState == Data <==> ConnectFits(c))
            && Run(c, INITIAL, events).outputs
               == IfPlain(c, ConnectSent(c)) + if ConnectFits(c) then [OnConnected] else IfPlain(c, HangUp)
  {
    hide ConnectFits, Progresses, Step;
    var events := [Connected, Received(CONNACK_SEGMENT)];
    ConnackIsTaken();
    HangsUpExactlyWithoutConnect(c, INITIAL, CONNACK_SEGMENT);
    assert events[..1] == [Connected] && events[..1][..0] == [];
    assert Run(c, INITIAL, []) == Next(INITIAL, []);
    LastStep(c, INITIAL, [Connected]);
    LastStep(c, INITIAL, events);
    ConnectingSends(c, INITIAL);
  }

  lemma ConnectingSends(c: Config, s: State)
    requires Sound(s)
    ensures Step(c, s, Connected).outputs == IfPlain(c, ConnectSent(c))
  {
  }

  // A client id of more than 238 bytes is such a configuration: the client sends an empty message
  // and hangs up on the answer.
  lemma LongClientIdNeverConnects(c: Config)
    requires |c.info.clientId| > 238 && !c.security
    ensures !ConnectFits(c)
    ensures Progresses(CONNACK_SEGMENT) && AllPossible([Connected, Received(CONNACK_SEGMENT)])
    ensures Run(c, INITIAL, [Connected, Received(CONNACK_SEGMENT)]).outputs == [SendConnect([]), HangUp]
  {
    hide Run, AllPossible;
    ConnackIsTaken();
    FirstConnection(c);
    Codec.ConnectNeedsItsSize(OUT_BUFFER_SIZE, c.info);
  }

  ghost function ConnStateAfter(c: Config, events: seq<Event>, n: nat): ConnState
    requires AllPossible(events) && n <= |events|
  {
    Run(c, INITIAL, events[..n]).state.connState
  }

  // The session the client is in was opened by event i, a TCP connection, and confirmed by
  // event j, a CONNACK; between and after them it never left the session.
  ghost predicate Session(c: Config, events: seq<Event>, i: nat, j: nat)
    requires AllPossible(events)
  {
    && i < j < |events|
    && events[i].Connected? && events[j].Received? && IsConnack(events[j].segment)
    && Run(c, INITIAL, events[..j]).state.pendingType == Codec.CONNECT
    && (forall k :: i < k <= j ==> ConnStateAfter(c, events, k) == ConnectSending)
    && (forall k :: j < k <= |events| ==> ConnStateAfter(c, events, k) == Data)
  }

  // A connection on which the broker has not answered yet.
  ghost predicate Opening(c: Config, events: seq<Event>, i: nat)
    requires AllPossible(events)
  {
    && i < |events| && events[i].Connected?
    && (forall k :: i < k <= |events| ==> ConnStateAfter(c, events, k) == ConnectSending)
  }

  lemma PrefixStates(c: Config, events: seq<Event>, k: nat)
    requires AllPossible(events) && events != [] && k < |events|
    ensures ConnStateAfter(c, events[..|events| - 1], k) == ConnStateAfter(c, events, k)
  {
    assert events[..|events| - 1][..k] == events[..k];
  }

  lemma NothingYet(c: Config, s: State)
    requires Sound(s)
    ensures Run(c, s, []) == Next(s, [])
  {
  }

  lemma OpeningStarts(c: Config, events: seq<Event>)
    requires AllPossible(events) && events != [] && Last(events).Connected?
    requires Run(c, INITIAL, events).state.connState == ConnectSending
    ensures Opening(c, events, |events| - 1)
  {
    hide Step, Run;
    assert events[..|events|] == events;
  }

  lemma OpeningGoesOn(c: Config, events: seq<Event>, i: nat)
    requires AllPossible(events) && events != []
    requires Opening(c, events[..|events| - 1], i)
    requires !Last(events).Connected? && Run(c, INITIAL, events).state.connState == ConnectSending
    ensures Opening(c, events, i)
  {
    hide Step;
    LastStep(c, INITIAL, events);
    ConnectionSteps(c, Before(c, INITIAL, events).state, Last(events));
    forall k | i < k <= |events| ensures ConnStateAfter(c, events, k) == ConnectSending {
      if k < |events| {
        PrefixStates(c, events, k);
      } else {
        assert events[..k] == events;
      }
    }
  }

  lemma SessionStarts(c: Config, events: seq<Event>, i: nat)
    requires AllPossible(events) && events != []
    requires Opening(c, events[..|events| - 1], i)
    requires Run(c, INITIAL, events).state.connState == Data
    ensures Session(c, events, i, |events| - 1)
  {
    hide Step;
    LastStep(c, INITIAL, events);
    ConnectionSteps(c, Before(c, INITIAL, events).state, Last(events));
    var before := events[..|events| - 1];
    assert before[..|before|] == before;
    assert ConnStateAfter(c, before, |before|) == ConnectSending;
    assert events[..|events| - 1] == before;
    assert events[..|events|] == events;
    forall k | i < k < |events| ensures ConnStateAfter(c, events, k) == ConnectSending {
      PrefixStates(c, events, k);
    }
  }

  lemma SessionGoesOn(c: Config, events: seq<Event>, i: nat, j: nat)
    requires AllPossible(events) && events != []
    requires Session(c, events[..|events| - 1], i, j)
    requires Run(c, INITIAL, events).state.connState == Data
    ensures Session(c, events, i, j)
  {
    assert events[..|events| - 1][..j] == events[..j];
    forall k | i < k <= |events|
      ensures ConnStateAfter(c, events, k) == if k <= j then ConnectSending else Data
    {
      if k < |events| {
        PrefixStates(c, events, k);
      } else {
        assert events[..k] == events;
      }
    }
  }

  // The client is in a session only between a CONNACK that answered its own CONNECT and the
  // first event that ends the connection.
  lemma {:induction false} SessionsAreOpenedByConnack(c: Config, events: seq<Event>)
    requires AllPossible(events)
    ensures var connState := Run(c, INITIAL, events).state.connState;
            && (connState == ConnectSending ==> exists i :: Opening(c, events, i))
            && (connState == Data ==> exists i, j :: Session(c, events, i, j))
    decreases |events|
  {
    hide Step, Run, Opening, Session;
    if events == [] {
      NothingYet(c, INITIAL);
    } else {
      var before := events[..|events| - 1];
      SessionsAreOpenedByConnack(c, before);
      LastStep(c, INITIAL, events);
      ConnectionSteps(c, Run(c, INITIAL, before).state, Last(events));
      var was := Run(c, INITIAL, before).state.connState;
      var now := Run(c, INITIAL, events).state.connState;
      if now == ConnectSending && Last(events).Connected? {
        OpeningStarts(c, events);
        assert Opening(c, events, |events| - 1);
      } else if now == ConnectSending {
        var i :| Opening(c, before, i);
        OpeningGoesOn(c, events, i);
      } else if now == Data && was == Data {
        var i, j :| Session(c, before, i, j);
        SessionGoesOn(c, events, i, j);
      } else if now == Data {
        var i :| Opening(c, before, i);
        SessionStarts(c, events, i);
        assert Session(c, events, i, |events| - 1);
      }
    }
  }

  // ------------------------------------------------------------------ keeping alive

  // Timer ticks that find the client in a session.
  ghost function SessionTicks(c: Config, s: State, events: seq<Event>): nat
    requires Sound(s) && AllPossible(events)
    decreases |events|
  {
    if events == [] then 0
    else
      SessionTicks(c, s, events[..|events| - 1])
      + if Last(events).Tick? && Before(c, s, events).state.connState == Data then 1 else 0
  }

  // The client dials again, which restarts the count.
  ghost predicate Redials(c: Config, s: State, events: seq<Event>)
    requires Sound(s) && AllPossible(events)
    decreases |events|
  {
    events != []
    && (|| Redials(c, s, events[..|events| - 1])
        || Last(events).Connect?
        || (Last(events).Task? && Before(c, s, events).state.connState == TcpReconnect))
  }

  ghost function Pings(outputs: seq<Output>): nat {
    multiset(outputs)[PING]
  }

  lemma TickSteps(c: Config, s: State, e: Event)
    requires Sound(s) && Possible(e) && !c.security && c.info.keepalive < 0xFFFF_FFFF
    requires s.keepAliveTick <= c.info.keepalive
    requires !e.Connect? && !(e.Task? && s.connState == TcpReconnect)
    ensures var n := Step(c, s, e);
            && n.state.keepAliveTick <= c.info.keepalive
            && (if e.Tick? && s.connState == Data then 1 else 0) + s.keepAliveTick
               == (c.info.keepalive + 1) * Pings(n.outputs) + n.state.keepAliveTick
  {
    hide Progresses, Deliveries, AfterGet, Codec.TypeOf, Codec.ConnectMessage, Codec.FirstInBuffer,
      Queue.AfterEnqueue, AfterPut, Framed;
    var n := Step(c, s, e);
    if e.Received? {
      assert PING !in n.outputs;
    }
    assert n.outputs == [PING] || PING !in n.outputs;
  }

  lemma {:induction false} CountNeverExceedsKeepalive(c: Config, events: seq<Event>)
    requires AllPossible(events) && c.info.keepalive < 0xFFFF_FFFF
    ensures Run(c, INITIAL, events).state.keepAliveTick <= c.info.keepalive
    decreases |events|
  {
    hide Progresses, Deliveries, AfterGet, Codec.TypeOf, Codec.ConnectMessage, Codec.FirstInBuffer,
      Queue.AfterEnqueue, AfterPut, Framed;
    if events != [] {
      CountNeverExceedsKeepalive(c, events[..|events| - 1]);
      LastStep(c, INITIAL, events);
    }
  }

  lemma NoPings()
    ensures Pings([]) == 0
  {
  }

  lemma PingsOfConcat(a: seq<Output>, b: seq<Output>)
    ensures Pings(a + b) == Pings(a) + Pings(b)
  {
    assert multiset(a + b) == multiset(a) + multiset(b);
  }

  lemma Distributes(k: int, x: int, y: int)
    ensures k * (x + y) == k * x + k * y
  {
  }

  // Over any stretch of any run in which the client does not dial again, the ticks spent in a
  // session are exactly accounted for by PINGREQs, one for every keepalive + 1 of them.
  lemma {:induction false} TicksArePingedAway(c: Config, s: State, events: seq<Event>)
    requires Sound(s) && AllPossible(events) && !c.security && c.info.keepalive < 0xFFFF_FFFF
    requires s.keepAliveTick <= c.info.keepalive && !Redials(c, s, events)
    ensures var n := Run(c, s, events);
            && n.state.keepAliveTick <= c.info.keepalive
            && SessionTicks(c, s, events) + s.keepAliveTick
               == (c.info.keepalive + 1) * Pings(n.outputs) + n.state.keepAliveTick
    decreases |events|
  {
    hide Step, Pings;
    NoPings();
    if events != [] {
      TicksArePingedAway(c, s, events[..|events| - 1]);
      LastStep(c, s, events);
      var before := Before(c, s, events);
      var last := Step(c, before.state, Last(events));
      TickSteps(c, before.state, Last(events));
      PingsOfConcat(before.outputs, last.outputs);
      Distributes(c.info.keepalive + 1, Pings(before.outputs), Pings(last.outputs));
    }
  }

  // So no keepalive + 1 session ticks of a run go by without a PINGREQ.
  lemma PingsOnTime(c: Config, before: seq<Event>, events: seq<Event>)
    requires AllPossible(before) && AllPossible(events) && !c.security && c.info.keepalive < 0xFFFF_FFFF
    requires !Redials(c, Run(c, INITIAL, before).state, events)
    requires SessionTicks(c, Run(c, INITIAL, before).state, events) > c.info.keepalive
    ensures PING in Run(c, Run(c, INITIAL, before).state, events).outputs
  {
    hide Step;
    hide Run;
    var s := Run(c, INITIAL, before).state;
    CountNeverExceedsKeepalive(c, before);
    TicksArePingedAway(c, s, events);
    assert Pings(Run(c, s, events).outputs) != 0;
  }

  lemma LargestKeepaliveSteps(c: Config, s: State, e: Event)
    requires Sound(s) && Possible(e) && c.info.keepalive == 0xFFFF_FFFF
    ensures var n := Step(c, s, e);
            && PING !in n.outputs
            && (!e.Connect? && !(e.Task? && s.connState == TcpReconnect) ==>
                  n.state.keepAliveTick
                  == (s.keepAliveTick + if e.Tick? && s.connState == Data then 1 else 0) % 0x1_0000_0000)
  {
    hide Progresses, Deliveries, AfterGet, Codec.TypeOf, Codec.ConnectMessage, Codec.FirstInBuffer,
      Queue.AfterEnqueue, AfterPut, Framed;
  }

  // With the largest keepalive the 32-bit counter wraps round to 0 before it is exceeded.
  lemma {:induction false} LargestKeepaliveNeverPings(c: Config, events: seq<Event>)
    requires AllPossible(events) && c.info.keepalive == 0xFFFF_FFFF
    ensures var n := Run(c, INITIAL, events);
            && PING !in n.outputs
            && (!Redials(c, INITIAL, events) ==>
                  n.state.keepAliveTick == SessionTicks(c, INITIAL, events) % 0x1_0000_0000)
    decreases |events|
  {
    hide Step, Possible;
    if events != [] {
      var before, last := events[..|events| - 1], Last(events);
      LargestKeepaliveNeverPings(c, before);
      LastStep(c, INITIAL, events);
      LargestKeepaliveSteps(c, Run(c, INITIAL, before).state, last);
      WrapsOnceMore(SessionTicks(c, INITIAL, before));
    }
  }

  lemma WrapsOnceMore(n: nat)
    ensures (n % 0x1_0000_0000 + 1) % 0x1_0000_0000 == (n + 1) % 0x1_0000_0000
    ensures n % 0x1_0000_0000 % 0x1_0000_0000 == n % 0x1_0000_0000
  {
  }

  // ------------------------------------------------------------------ one message in flight

  function Ticks(events: seq<Event>): nat {
    if events == [] then 0 else Ticks(events[..|events| - 1]) + if Last(events).Tick? then 1 else 0
  }

  function QueuedSends(outputs: seq<Output>): seq<Message> {
    if outputs == [] then []
    else
      var last := outputs[|outputs| - 1];
      QueuedSends(outputs[..|outputs| - 1]) + if last.SendQueued? then [last.message] else []
  }

  lemma {:induction false} SendsOfConcat(a: seq<Output>, b: seq<Output>)
    ensures QueuedSends(a + b) == QueuedSends(a) + QueuedSends(b)
    decreases |b|
  {
    if b == [] {
      assert a + b == a;
    } else {
      assert (a + b)[..|a + b| - 1] == a + b[..|b| - 1];
      SendsOfConcat(a, b[..|b| - 1]);
    }
  }

  lemma {:induction false} NoSends(outputs: seq<Output>)
    requires forall o :: o in outputs ==> !o.SendQueued?
    ensures QueuedSends(outputs) == []
  {
    if outputs != [] {
      NoSends(outputs[..|outputs| - 1]);
    }
  }

  lemma OneSend(o: Output)
    ensures QueuedSends([o]) == if o.SendQueued? then [o.message] else []
  {
    assert [o][..0] == [];
  }

  // A queued message leaves only when no send is outstanding, and then one is.
  lemma SendSteps(c: Config, s: State, e: Event)
    requires Sound(s) && Possible(e) && s.sendTimeout <= SEND_TIMEOUT
    ensures var n := Step(c, s, e);
            && n.state.sendTimeout <= SEND_TIMEOUT
            && |QueuedSends(n.outputs)| <= 1
            && (QueuedSends(n.outputs) != [] ==> s.sendTimeout == 0 && n.state.sendTimeout == SEND_TIMEOUT && e.Task?)
            && (!e.Sent? ==> n.state.sendTimeout >= s.sendTimeout - if e.Tick? then 1 else 0)
  {
    hide Progresses, Deliveries, AfterGet, Codec.TypeOf, Codec.ConnectMessage, Codec.FirstInBuffer,
      Queue.AfterEnqueue, AfterPut, Framed;
    var n := Step(c, s, e);
    if |n.outputs| == 1 {
      OneSend(n.outputs[0]);
      assert n.outputs == [n.outputs[0]];
    }
    if e.Received? {
      NoSends(n.outputs);
    }
  }

  // Between two queued messages there is an acknowledgement from the TCP stack or five ticks.
  lemma {:induction false} OneMessageInFlight(c: Config, s: State, events: seq<Event>)
    requires Sound(s) && AllPossible(events)
    requires s.sendTimeout <= SEND_TIMEOUT
    requires Sent !in events && Ticks(events) < SEND_TIMEOUT
    ensures var n := Run(c, s, events);
            && n.state.sendTimeout <= SEND_TIMEOUT
            && |QueuedSends(n.outputs)| <= 1
            && (QueuedSends(n.outputs) != [] ==> n.state.sendTimeout >= SEND_TIMEOUT - Ticks(events))
    decreases |events|
  {
    hide Step;
    if events != [] {
      OneMessageInFlight(c, s, events[..|events| - 1]);
      LastStep(c, s, events);
      var before := Before(c, s, events);
      SendSteps(c, before.state, Last(events));
      SendsOfConcat(before.outputs, Step(c, before.state, Last(events)).outputs);
    }
  }

  // ------------------------------------------------------------------ what is sent

  // a, in order, with some of b's elements left out.
  predicate IsSubsequence(a: seq<Message>, b: seq<Message>) {
    if a == [] then true
    else if b == [] then false
    else
      || IsSubsequence(a, b[..|b| - 1])
      || (a[|a| - 1] == b[|b| - 1] && IsSubsequence(a[..|a| - 1], b[..|b| - 1]))
  }

  lemma {:induction false} SubsequenceOfMore(a: seq<Message>, b: seq<Message>, more: seq<Message>)
    requires IsSubsequence(a, b)
    ensures IsSubsequence(a, b + more)
    decreases |more|
  {
    if more == [] {
      assert b + more == b;
    } else {
      SubsequenceOfMore(a, b, more[..|more| - 1]);
      assert (b + more)[..|b + more| - 1] == b + more[..|more| - 1];
    }
  }

  lemma SubsequenceExtends(a: seq<Message>, b: seq<Message>, m: Message)
    requires IsSubsequence(a, b)
    ensures IsSubsequence(a + [m], b + [m])
  {
    assert (a + [m])[..|a|] == a && (b + [m])[..|b|] == b;
  }

  // The messages the queue has accepted.
  ghost function AcceptedBy(c: Config, events: seq<Event>): seq<Message>
    requires AllPossible(events)
    decreases |events|
  {
    if events == [] then []
    else
      AcceptedBy(c, events[..|events| - 1])
      + Added(Before(c, INITIAL, events).state, Last(events))
  }

  // Accepted messages leave the queue from the front, sent or dropped.
  ghost predicate Served(accepted: seq<Message>, waiting: seq<Message>, sent: seq<Message>) {
    && |waiting| <= |accepted|
    && accepted[|accepted| - |waiting|..] == waiting
    && IsSubsequence(sent, accepted[..|accepted| - |waiting|])
    && forall m :: m in accepted ==> |m| <= OUT_BUFFER_SIZE
  }

  lemma DropFromFront(accepted: seq<Message>, waiting: seq<Message>, sent: seq<Message>, k: nat)
    requires Served(accepted, waiting, sent) && k <= |waiting|
    ensures Served(accepted, waiting[k..], sent)
  {
    var n := |accepted| - |waiting|;
    assert accepted[..n + k] == accepted[..n] + accepted[n..n + k];
    SubsequenceOfMore(sent, accepted[..n], accepted[n..n + k]);
  }

  lemma Accept(accepted: seq<Message>, waiting: seq<Message>, sent: seq<Message>, m: Message)
    requires Served(accepted, waiting, sent) && |m| <= OUT_BUFFER_SIZE
    ensures Served(accepted + [m], waiting + [m], sent)
  {
    var n := |accepted| - |waiting|;
    assert (accepted + [m])[..n] == accepted[..n];
    assert (accepted + [m])[n..] == waiting + [m];
  }

  lemma SendFirst(accepted: seq<Message>, waiting: seq<Message>, sent: seq<Message>)
    requires Served(accepted, waiting, sent) && waiting != []
    ensures Served(accepted, waiting[1..], sent + [waiting[0]])
    ensures |waiting[0]| <= OUT_BUFFER_SIZE
  {
    var n := |accepted| - |waiting|;
    assert accepted[..n + 1] == accepted[..n] + [waiting[0]];
    SubsequenceExtends(sent, accepted[..n], waiting[0]);
    assert accepted[n] == waiting[0];
  }

  // How one event serves the queue: it adds at most one message at the back, and takes some
  // from the front, of which only the very first can be sent.
  ghost function Added(s: State, e: Event): seq<Message>
    requires Sound(s)
  {
    match e
    case Queued(m) => if Queue.AfterEnqueue(s.content, Queue.QUEUE_BUFFER_SIZE, m).ok then [m] else []
    case Acknowledged(m) => if Fits(s.content, Queue.QUEUE_BUFFER_SIZE, m) then [m] else []
    case _ => []
  }

  ghost predicate Serves(waiting: seq<Message>, added: seq<Message>, after: seq<Message>, sent: seq<Message>) {
    exists k :: 0 <= k <= |waiting| && after == waiting[k..] + added
      && (sent == [] || (k == 1 && added == [] && sent == [waiting[0]]))
  }

  lemma GetServes(content: seq<Byte>, isBegin: bool)
    requires Framed(content)
    requires forall m :: m in Pending(content) ==> |m| <= OUT_BUFFER_SIZE
    ensures var got := AfterGet(content, isBegin, OUT_BUFFER_SIZE);
            && Serves(Pending(content), [], Pending(got.rest), [])
            && (got.message.Some? ==> Serves(Pending(content), [], Pending(got.rest), [got.message.value]))
  {
    hide AfterGet, Pending;
    var waiting := Pending(content);
    GetTakesOldest(content, isBegin, OUT_BUFFER_SIZE);
    Queue.EmptyRingHoldsNothing();
    if waiting == [] {
      assert waiting[0..] + [] == [];
    } else {
      assert waiting[0] in waiting;
      assert waiting[1..] == waiting[1..] + [];
    }
  }

  lemma TaskServes(c: Config, s: State, e: Event)
    requires Sound(s) && e.Task?
    requires forall m :: m in Pending(s.content) ==> |m| <= OUT_BUFFER_SIZE
    ensures var n := Step(c, s, e);
            && Serves(Pending(s.content), [], Pending(n.state.content), QueuedSends(n.outputs))
  {
    hide Progresses, Deliveries, AfterGet, Codec.TypeOf, Queue.AfterEnqueue, AfterPut, Pending, Serves;
    var n := Step(c, s, e);
    GetServes(s.content, e.isBegin);
    if n.outputs != [] {
      OneSend(n.outputs[0]);
      assert n.outputs == [n.outputs[0]];
    }
    NothingServed(Pending(s.content));
  }

  lemma NothingServed(waiting: seq<Message>)
    ensures Serves(waiting, [], waiting, [])
  {
    assert waiting == waiting[0..] + [];
  }

  lemma QueuedServes(s: State, m: Message)
    requires Sound(s)
    ensures Serves(Pending(s.content), Added(s, Queued(m)), Pending(AfterQueued(s, m).state.content), [])
  {
    hide Queue.AfterEnqueue, Pending, Framed, Fits, Queue.HasRoom, Codec.FirstInBuffer;
    var waiting := Pending(s.content);
    Queue.EnqueueOutcome(s.content, Queue.QUEUE_BUFFER_SIZE, m);
    if Added(s, Queued(m)) == [] {
      Queue.EmptyRingHoldsNothing();
      assert [] == waiting[|waiting|..] + [];
    }
  }

  lemma AcknowledgedServes(s: State, m: Message)
    requires Sound(s)
    ensures Serves(Pending(s.content), Added(s, Acknowledged(m)), Pending(AfterAcknowledged(s, m).state.content), [])
  {
    hide AfterPut, Pending, Framed, Fits, Codec.FirstInBuffer;
    var waiting := Pending(s.content);
    PutQueuesAllOrNothing(s.content, Queue.QUEUE_BUFFER_SIZE, m);
    assert waiting[0..] == waiting;
  }

  lemma NothingSent()
    ensures QueuedSends([]) == []
  {
  }

  lemma StepServes(c: Config, s: State, e: Event)
    requires Sound(s) && Possible(e)
    requires forall m :: m in Pending(s.content) ==> |m| <= OUT_BUFFER_SIZE
    ensures var n := Step(c, s, e);
            Serves(Pending(s.content), Added(s, e), Pending(n.state.content), QueuedSends(n.outputs))
  {
    hide Progresses, Deliveries, AfterGet, Codec.TypeOf, Codec.ConnectMessage, Codec.FirstInBuffer,
      Queue.AfterEnqueue, AfterPut, Pending, Serves, QueuedSends, Framed, Fits;
    var n := Step(c, s, e);
    NothingSent();
    match e
    case Task(_, _) => TaskServes(c, s, e);
    case Queued(m) => QueuedServes(s, m);
    case Acknowledged(m) => AcknowledgedServes(s, m);
    case _ =>
      NoSends(n.outputs);
      NothingServed(Pending(s.content));
  }

  lemma ServedOn(accepted: seq<Message>, waiting: seq<Message>, sent: seq<Message>,
                 added: seq<Message>, after: seq<Message>, now: seq<Message>)
    requires Served(accepted, waiting, sent) && Serves(waiting, added, after, now)
    requires |added| <= 1 && forall m :: m in added ==> |m| <= OUT_BUFFER_SIZE
    ensures Served(accepted + added, after, sent + now)
  {
    hide Served;
    var k :| 0 <= k <= |waiting| && after == waiting[k..] + added
      && (now == [] || (k == 1 && added == [] && now == [waiting[0]]));
    if now == [] {
      assert sent + now == sent;
      DropFromFront(accepted, waiting, sent, k);
      if added == [] {
        assert accepted + added == accepted && after == waiting[k..];
      } else {
        assert added == [added[0]];
        Accept(accepted, waiting[k..], sent, added[0]);
      }
    } else {
      assert accepted + added == accepted;
      assert after == waiting[1..] && now == [waiting[0]];
      SendFirst(accepted, waiting, sent);
    }
  }

  // The order theorem: over every run, the messages that leave the client are messages its
  // queue accepted, byte-exact, each at most once and in the order they were queued; what the
  // queue still holds are the last ones accepted.
  lemma {:induction false} SentInOrder(c: Config, events: seq<Event>)
    requires AllPossible(events)
    ensures var n := Run(c, INITIAL, events);
            Served(AcceptedBy(c, events), Pending(n.state.content), QueuedSends(n.outputs))
    decreases |events|
  {
    hide Step;
    hide Pending;
    if events == [] {
      Queue.EmptyRingHoldsNothing();
    } else {
      var earlier := events[..|events| - 1];
      SentInOrder(c, earlier);
      LastStep(c, INITIAL, events);
      var before := Before(c, INITIAL, events);
      var last := Step(c, before.state, Last(events));
      assert Possible(Last(events));
      assert forall m :: m in Pending(before.state.content) ==> m in AcceptedBy(c, earlier);
      StepServes(c, before.state, Last(events));
      SendsOfConcat(before.outputs, last.outputs);
      ServedOn(AcceptedBy(c, earlier), Pending(before.state.content), QueuedSends(before.outputs),
               Added(before.state, Last(events)), Pending(last.state.content), QueuedSends(last.outputs));
    }
  }

  // ------------------------------------------------------------------ reconnecting

  lemma {:induction false} WaitIsBounded(c: Config, events: seq<Event>)
    requires AllPossible(events)
    ensures Run(c, INITIAL, events).state.reconnectTick <= RECONNECT_TIMEOUT
    decreases |events|
  {
    hide Step;
    if events != [] {
      WaitIsBounded(c, events[..|events| - 1]);
      LastStep(c, INITIAL, events);
      WaitSteps(c, Before(c, INITIAL, events).state, Last(events));
    }
  }

  // Events that take the client out of its wait: the application dials, a late answer to a
  // lookup, or a connection made after all.
  predicate EndsWait(e: Event) {
    e.Connect? || e.DnsFound? || e.Connected?
  }

  lemma WaitSteps(c: Config, s: State, e: Event)
    requires Sound(s) && Possible(e) && s.reconnectTick <= RECONNECT_TIMEOUT
    ensures var n := Step(c, s, e);
            && n.state.reconnectTick <= RECONNECT_TIMEOUT
            && (s.connState == TcpReconnectReq && !EndsWait(e) ==>
                  && NoDial(n.outputs)
                  && if e.Tick? && s.reconnectTick == RECONNECT_TIMEOUT
                     then n.state.connState == TcpReconnect && n.state.reconnectTick == 0
                     else n.state.connState == TcpReconnectReq
                          && n.state.reconnectTick == s.reconnectTick + if e.Tick? then 1 else 0)
            && (s.connState == TcpReconnect && !EndsWait(e) && !e.Task? && !e.Disconnected? && !e.ReconnectCb? ==>
                  n.state.connState == TcpReconnect && NoDial(n.outputs))
            && (s.connState == TcpReconnect && e.Task? ==>
                  n.state.connState == TcpConnecting && n.outputs == DialOf(c))
  {
    hide Progresses, Deliveries, AfterGet, Codec.TypeOf, Codec.ConnectMessage, Codec.FirstInBuffer,
      Queue.AfterEnqueue, AfterPut;
  }

  predicate NoDial(outputs: seq<Output>) {
    Dial !in outputs && Lookup !in outputs
  }

  function DialOf(c: Config): seq<Output> {
    if c.hostIsIp then IfPlain(c, Dial) else [Lookup]
  }

  // A client that waits to reconnect counts every tick, whatever else happens, and does not dial.
  lemma {:induction false} WaitsForTicks(c: Config, s: State, events: seq<Event>)
    requires Sound(s) && AllPossible(events) && s.connState == TcpReconnectReq
    requires forall e :: e in events ==> !EndsWait(e)
    requires s.reconnectTick + Ticks(events) <= RECONNECT_TIMEOUT
    ensures var n := Run(c, s, events);
            && n.state.connState == TcpReconnectReq
            && n.state.reconnectTick == s.reconnectTick + Ticks(events)
            && NoDial(n.outputs)
    decreases |events|
  {
    hide Step;
    if events != [] {
      WaitsForTicks(c, s, events[..|events| - 1]);
      LastStep(c, s, events);
      assert Last(events) in events;
      WaitSteps(c, Before(c, s, events).state, Last(events));
    }
  }

  // Events that leave a client that is ready to dial as it is.
  predicate LeavesReady(e: Event) {
    !EndsWait(e) && !e.Task? && !e.Disconnected? && !e.ReconnectCb?
  }

  lemma {:induction false} StaysReady(c: Config, s: State, events: seq<Event>)
    requires Sound(s) && AllPossible(events) && s.connState == TcpReconnect && s.reconnectTick <= RECONNECT_TIMEOUT
    requires forall e :: e in events ==> LeavesReady(e)
    ensures Run(c, s, events).state.connState == TcpReconnect && NoDial(Run(c, s, events).outputs)
    ensures Run(c, s, events).state.reconnectTick <= RECONNECT_TIMEOUT
    decreases |events|
  {
    hide Step;
    if events != [] {
      StaysReady(c, s, events[..|events| - 1]);
      LastStep(c, s, events);
      assert Last(events) in events;
      WaitSteps(c, Before(c, s, events).state, Last(events));
    }
  }

  // The reconnection theorem, from any reachable state that waits: through any other events, the
  // client does not dial before the tick that takes the count past RECONNECT_TIMEOUT, and the
  // next MQTT_Task after that tick does.
  lemma Reconnects(c: Config, before: seq<Event>, waiting: seq<Event>, ready: seq<Event>, isBegin: bool, stale: int)
    requires AllPossible(before) && AllPossible(waiting) && AllPossible(ready)
    requires Run(c, INITIAL, before).state.connState == TcpReconnectReq
    requires (forall e :: e in waiting ==> !EndsWait(e)) && (forall e :: e in ready ==> LeavesReady(e))
    requires Run(c, INITIAL, before).state.reconnectTick + Ticks(waiting) == RECONNECT_TIMEOUT
    ensures var s := Run(c, INITIAL, before).state;
            var late := Run(c, s, waiting);
            var ticked := Step(c, late.state, Tick);
            var idle := Run(c, ticked.state, ready);
            var dialled := Step(c, idle.state, Task(isBegin, stale));
            && NoDial(late.outputs) && NoDial(ticked.outputs) && NoDial(idle.outputs)
            && ticked.state.connState == TcpReconnect
            && dialled.state.connState == TcpConnecting && dialled.outputs == DialOf(c)
  {
    hide Step, Run;
    var s := Run(c, INITIAL, before).state;
    WaitIsBounded(c, before);
    WaitsForTicks(c, s, waiting);
    var late := Run(c, s, waiting).state;
    WaitSteps(c, late, Tick);
    StaysReady(c, Step(c, late, Tick).state, ready);
    WaitSteps(c, Run(c, Step(c, late, Tick).state, ready).state, Task(isBegin, stale));
  }
}
