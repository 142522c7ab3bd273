// How the MQTT client of firmware/user/mqtt.c gets its connection, and gets it back.
module MqttDialling {
  import opened Framing
  import Codec = MqttMessage
  import opened MqttReceive
  import opened MqttClient
  import opened MqttClientRuns

  // ------------------------------------------------------------------ a lost connection

  // What the loss of a connection, or an attempt that failed, looks like.
  predicate Loses(e: Event) {
    e.Disconnected? || e.ReconnectCb? || (e.DnsFound? && !e.found)
  }

  function TickTimes(k: nat): seq<Event> {
    seq(k, _ => Tick)
  }

  lemma LossStarts(c: Config, s: State, e: Event)
    requires Sound(s) && Loses(e)
    ensures var n := Step(c, s, e);
            && n.state.connState == TcpReconnectReq && n.state.reconnectTick == s.reconnectTick
            && n.outputs == if e.Disconnected? then [OnDisconnected] else []
  {
    hide Framed;
  }

  lemma OneTick(c: Config, s: State)
    requires Sound(s) && s.reconnectTick <= 5 && (s.connState == TcpReconnectReq || s.connState == TcpReconnect)
    ensures var n := Step(c, s, Tick);
            && n.outputs == []
            && if s.connState == TcpReconnectReq && s.reconnectTick < 5
               then n.state.connState == TcpReconnectReq && n.state.reconnectTick == s.reconnectTick + 1
               else n.state.connState == TcpReconnect && n.state.reconnectTick <= 5
  {
    hide Framed;
  }

  lemma {:induction false} TicksPass(c: Config, s: State, k: nat)
    requires Sound(s) && s.reconnectTick <= 5 && s.connState == TcpReconnectReq
    ensures AllPossible(TickTimes(k))
    ensures var n := Run(c, s, TickTimes(k));
            && n.outputs == []
            && if s.reconnectTick + k <= 5
               then n.state.connState == TcpReconnectReq && n.state.reconnectTick == s.reconnectTick + k
               else n.state.connState == TcpReconnect && n.state.reconnectTick <= 5
  {
    hide Step;
    if k == 0 {
      NothingYet(c, s);
    } else {
      TicksPass(c, s, k - 1);
      assert TickTimes(k)[..k - 1] == TickTimes(k - 1);
      LastStep(c, s, TickTimes(k));
      OneTick(c, Run(c, s, TickTimes(k - 1)).state);
    }
  }

  // What dialling does: connect to an address, or ask for it.
  function Dials(c: Config): seq<Output> {
    if !c.hostIsIp then [Lookup] else if c.security then [] else [Dial]
  }

  lemma TaskDials(c: Config, s: State, isBegin: bool, stale: int)
    requires Sound(s) && s.connState == TcpReconnect
    ensures var n := Step(c, s, Task(isBegin, stale));
            n.state.connState == TcpConnecting && n.outputs == Dials(c)
  {
    hide Framed, AfterGet;
  }

  // The theorem about lost connections: whatever state a run has led to, after a disconnection, a
  // failed attempt or a failed lookup six ticks and a call of MQTT_Task dial again.
  lemma LostConnectionIsDialledAgain(c: Config, before: seq<Event>, e: Event, isBegin: bool, stale: int)
    requires AllPossible(before) && Loses(e)
    ensures AllPossible(TickTimes(6))
    ensures var s := Step(c, Run(c, INITIAL, before).state, e);
            var waited := Run(c, s.state, TickTimes(6));
            var n := Step(c, waited.state, Task(isBegin, stale));
            && s.outputs + waited.outputs + n.outputs
               == (if e.Disconnected? then [OnDisconnected] else []) + Dials(c)
            && n.state.connState == TcpConnecting
  {
    hide Run, Step;
    var s := Run(c, INITIAL, before).state;
    WaitIsBounded(c, before);
    LossStarts(c, s, e);
    TicksPass(c, Step(c, s, e).state, 6);
    TaskDials(c, Run(c, Step(c, s, e).state, TickTimes(6)).state, isBegin, stale);
  }

  // ------------------------------------------------------------------ dialling by name

  // A client with a name asks for the address first, connects when it has the first answer and does
  // nothing with later ones; one with an address connects at once.
  lemma ConnectionIsMade(c: Config, s: State)
    requires Sound(s) && !c.security
    ensures var asked := Step(c, s, Connect);
            var found := Step(c, asked.state, DnsFound(true, true));
            var again := Step(c, found.state, DnsFound(true, false));
            && asked.state.connState == TcpConnecting && asked.outputs == Dials(c)
            && (!c.hostIsIp ==> asked.outputs == [Lookup] && found.outputs == [Dial] && again.outputs == []
                                && asked.state == found.state == again.state)
  {
    hide Framed;
  }

  // An answer that comes late, whatever has happened since, connects as well.
  lemma LateAnswerConnects(c: Config, s: State)
    requires Sound(s) && !c.security
    ensures var n := Step(c, s, DnsFound(true, true));
            n.outputs == [Dial] && n.state == s.(connState := TcpConnecting)
  {
    hide Framed;
  }

  // An attempt to connect, by the application or by MQTT_Task.
  predicate Attempts(s: State, e: Event) {
    e.Connect? || (e.Task? && s.connState == TcpReconnect)
  }

  lemma AttemptStartsCounts(c: Config, s: State, e: Event)
    requires Sound(s) && Attempts(s, e)
    ensures var n := Step(c, s, e).state; n.keepAliveTick == 0 == n.reconnectTick
  {
    hide Framed, AfterGet;
  }

  // An attempt that is lost again is followed by the whole wait: five ticks are not enough.
  lemma EveryAttemptWaits(c: Config, s: State, attempt: Event, loss: Event)
    requires Sound(s) && Attempts(s, attempt) && Possible(attempt) && Loses(loss)
    ensures AllPossible(TickTimes(5)) && AllPossible(TickTimes(6))
    ensures var lost := Step(c, Step(c, s, attempt).state, loss).state;
            && Run(c, lost, TickTimes(5)).state.connState == TcpReconnectReq
            && Run(c, lost, TickTimes(6)).state.connState == TcpReconnect
  {
    hide Run, Step;
    AttemptStartsCounts(c, s, attempt);
    var dialled := Step(c, s, attempt).state;
    LossStarts(c, dialled, loss);
    TicksPass(c, Step(c, dialled, loss).state, 5);
    TicksPass(c, Step(c, dialled, loss).state, 6);
  }

  // ------------------------------------------------------------------ counting from there

  lemma OnlyZero(k: int, d: int)
    requires k > 0 && -k < k * d < k
    ensures d == 0
  {
  }

  lemma Quotient(n: nat, k: nat, pings: nat, left: nat)
    requires n == k * pings + left && left < k
    ensures pings == n / k
  {
    var q := n / k;
    assert n == k * q + n % k;
    assert k * (pings - q) == k * pings - k * q;
    OnlyZero(k, pings - q);
  }

  // The exact number of PINGREQs: from an attempt on, one for every keepalive + 1 ticks that the
  // client spends in a session.
  lemma PingsExactly(c: Config, s: State, attempt: Event, events: seq<Event>)
    requires Sound(s) && Attempts(s, attempt) && Possible(attempt)
    requires AllPossible(events) && !c.security && c.info.keepalive < 0xFFFF_FFFF
    requires !Redials(c, Step(c, s, attempt).state, events)
    ensures var dialled := Step(c, s, attempt).state;
            Pings(Run(c, dialled, events).outputs) == SessionTicks(c, dialled, events) / (c.info.keepalive + 1)
  {
    hide Run, Step, Pings;
    AttemptStartsCounts(c, s, attempt);
    var dialled := Step(c, s, attempt).state;
    TicksArePingedAway(c, dialled, events);
    var n := Run(c, dialled, events);
    Quotient(SessionTicks(c, dialled, events), c.info.keepalive + 1, Pings(n.outputs), n.state.keepAliveTick);
  }

  // A fresh client has no ticks behind it either.
  lemma FreshCounts(c: Config, events: seq<Event>, loss: Event)
    requires AllPossible(events) && !c.security && c.info.keepalive < 0xFFFF_FFFF && !Redials(c, INITIAL, events)
    requires Loses(loss)
    ensures Pings(Run(c, INITIAL, events).outputs) == SessionTicks(c, INITIAL, events) / (c.info.keepalive + 1)
    ensures AllPossible(TickTimes(5))
    ensures Run(c, Step(c, INITIAL, loss).state, TickTimes(5)).state.connState == TcpReconnectReq
  {
    hide Run, Step, Pings;
    TicksArePingedAway(c, INITIAL, events);
    var n := Run(c, INITIAL, events);
    Quotient(SessionTicks(c, INITIAL, events), c.info.keepalive + 1, Pings(n.outputs), n.state.keepAliveTick);
    LossStarts(c, INITIAL, loss);
    TicksPass(c, Step(c, INITIAL, loss).state, 5);
  }

  // ------------------------------------------------------------------ nothing else moves it

  // The events that change the state of the connection, in the states in which they do.
  predicate Moves(s: State, e: Event) {
    || e.Connect? || e.Connected? || Loses(e) || (e.DnsFound? && e.first)
    || (e.Received? && s.connState == ConnectSending)
    || (e.Tick? && s.connState == TcpReconnectReq) || (e.Task? && s.connState == TcpReconnect)
  }

  lemma OnlyMovesMove(c: Config, s: State, e: Event)
    requires Sound(s) && Possible(e) && !Moves(s, e)
    ensures var n := Step(c, s, e).state; n.connState == s.connState && n.reconnectTick == s.reconnectTick
  {
    hide Progresses, Deliveries, AfterGet, Codec.TypeOf, Codec.ConnectMessage, Codec.FirstInBuffer, AfterPut, Framed;
  }

  // An attempt to connect is not timed: over any run of ticks, tasks and other events that are not
  // its success or its failure the client goes on waiting for it, and so does a broker's answer.
  lemma {:induction false} AttemptsAreNotTimed(c: Config, s: State, events: seq<Event>)
    requires Sound(s) && AllPossible(events) && s.connState in {WifiInit, TcpConnecting, ConnectSending, Data}
    requires forall e :: e in events ==> e.Tick? || e.Task? || e.Sent? || e.Queued? || e.Acknowledged?
    ensures Run(c, s, events).state.connState == s.connState
    decreases |events|
  {
    hide Step;
    if events != [] {
      AttemptsAreNotTimed(c, s, events[..|events| - 1]);
      LastStep(c, s, events);
      assert Last(events) in events;
      OnlyMovesMove(c, Before(c, s, events).state, Last(events));
    }
  }
}
