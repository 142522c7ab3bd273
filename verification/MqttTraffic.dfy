// What passes through an MQTT session of firmware/user/mqtt.c: the queue is emptied, message by
// message, and what the broker publishes reaches the data callback.
module MqttTraffic {
  import opened Bytes
  import opened Wrappers
  import opened Framing
  import Broker = MqttConnect
  import Codec = MqttMessage
  import opened MqttReceive
  import opened MqttClient
  import opened MqttClientRuns

  // ------------------------------------------------------------------ one message

  // A client in a session over plain TCP, whose waiting messages all fit the message buffer.
  ghost predicate InSession(c: Config, s: State) {
    Sound(s) && !c.security && s.connState == Data && forall m :: m in Pending(s.content) ==> |m| <= 255
  }

  lemma ReachableFits(c: Config, events: seq<Event>)
    requires AllPossible(events)
    ensures forall m :: m in Pending(Run(c, INITIAL, events).state.content) ==> |m| <= 255
  {
    hide Run, Pending, AcceptedBy;
    SentInOrder(c, events);
    var accepted, waiting := AcceptedBy(c, events), Pending(Run(c, INITIAL, events).state.content);
    forall m | m in waiting ensures |m| <= 255 {
      var i :| 0 <= i < |waiting| && waiting[i] == m;
      assert accepted[|accepted| - |waiting| + i] == m;
    }
  }

  // The type MQTT_Task reads in the message it has taken; an empty one leaves its buffer as it was.
  function TypeSent(m: Message, stale: int): int {
    if m == [] then stale else m[0] / 16
  }

  // With no send outstanding, MQTT_Task sends the oldest message and waits for its callback.
  lemma TaskSends(c: Config, s: State, isBegin: bool, stale: int)
    requires InSession(c, s) && s.sendTimeout == 0 && Pending(s.content) != []
    ensures var n := Step(c, s, Task(isBegin, stale));
            && n.outputs == [SendQueued(Pending(s.content)[0])]
            && n.state == s.(content := n.state.content, sendTimeout := 5,
                             pendingType := TypeSent(Pending(s.content)[0], stale))
            && Pending(n.state.content) == Pending(s.content)[1..] && InSession(c, n.state)
  {
    hide AfterGet, Pending, Framed;
    GetTakesOldest(s.content, isBegin, OUT_BUFFER_SIZE);
    EmptyHoldsNothing(s.content);
    var waiting := Pending(s.content);
    assert waiting[0] in waiting;
    assert Cut(waiting[0], OUT_BUFFER_SIZE) == waiting[0];
    assert forall m :: m in waiting[1..] ==> m in waiting;
  }

  lemma EmptyHoldsNothing(content: seq<Byte>)
    ensures Pending(content) != [] ==> content != []
  {
  }

  // With no whole message waiting it throws away what is in the ring: the beginnings of frames that
  // found no room.
  lemma TaskClearsRemains(c: Config, s: State, isBegin: bool, stale: int)
    requires InSession(c, s) && s.sendTimeout == 0 && Pending(s.content) == []
    ensures Step(c, s, Task(isBegin, stale)) == Next(s.(content := []), [])
  {
    hide AfterGet, Pending, Framed;
    GetTakesOldest(s.content, isBegin, OUT_BUFFER_SIZE);
  }

  // It sends nothing while a send is outstanding.
  lemma TaskWaits(c: Config, s: State, isBegin: bool, stale: int)
    requires InSession(c, s) && s.sendTimeout > 0
    ensures Step(c, s, Task(isBegin, stale)) == Next(s, [])
  {
    hide AfterGet, Framed;
  }

  // The sent callback ends the wait, and reports a PUBLISH.
  lemma SentFrees(c: Config, s: State)
    requires InSession(c, s)
    ensures Step(c, s, Sent) == Next(s.(sendTimeout := 0), if s.pendingType == 3 then [OnPublished] else [])
  {
    hide Framed;
  }

  // ------------------------------------------------------------------ draining the queue

  // Rounds of MQTT_Task and the sent callback.
  function Rounds(tasks: seq<(bool, int)>): seq<Event> {
    if tasks == [] then []
    else Rounds(tasks[..|tasks| - 1]) + [Task(tasks[|tasks| - 1].0, tasks[|tasks| - 1].1), Sent]
  }

  // What should be seen of them: the first messages in order, each PUBLISH reported when it is out.
  function Drained(messages: seq<Message>, tasks: seq<(bool, int)>): seq<Output>
    requires |tasks| <= |messages|
  {
    if tasks == [] then []
    else
      var k := |tasks| - 1;
      Drained(messages, tasks[..k]) + [SendQueued(messages[k])]
      + if TypeSent(messages[k], tasks[k].1) == 3 then [OnPublished] else []
  }

  lemma {:induction false} RoundsArePossible(tasks: seq<(bool, int)>)
    ensures AllPossible(Rounds(tasks))
  {
    if tasks != [] {
      RoundsArePossible(tasks[..|tasks| - 1]);
    }
  }

  lemma TwoSteps(c: Config, s: State, events: seq<Event>, e: Event, f: Event)
    requires Sound(s) && AllPossible(events) && Possible(e) && Possible(f)
    ensures AllPossible(events + [e, f])
    ensures var a := Run(c, s, events);
            var b := Step(c, a.state, e);
            var d := Step(c, b.state, f);
            Run(c, s, events + [e, f]) == Next(d.state, a.outputs + b.outputs + d.outputs)
  {
    hide Step;
    var all := events + [e, f];
    assert all[..|all| - 1] == events + [e];
    assert (events + [e])[..|events|] == events;
    LastStep(c, s, events + [e]);
    LastStep(c, s, all);
  }

  lemma OneRound(c: Config, s: State, isBegin: bool, stale: int)
    requires InSession(c, s) && s.sendTimeout == 0 && Pending(s.content) != []
    ensures var sent := Step(c, s, Task(isBegin, stale));
            var n := Step(c, sent.state, Sent);
            && sent.outputs == [SendQueued(Pending(s.content)[0])]
            && n.outputs == (if TypeSent(Pending(s.content)[0], stale) == 3 then [OnPublished] else [])
            && InSession(c, n.state) && n.state.sendTimeout == 0
            && Pending(n.state.content) == Pending(s.content)[1..]
  {
    hide Step, Pending, Framed, TypeSent;
    TaskSends(c, s, isBegin, stale);
    SentFrees(c, Step(c, s, Task(isBegin, stale)).state);
  }

  // The drain theorem: from any state in a session with no send outstanding, rounds of MQTT_Task
  // and the sent callback send exactly the waiting messages, in order.
  lemma {:induction false} QueueDrains(c: Config, s: State, tasks: seq<(bool, int)>)
    requires Sound(s) && InSession(c, s) && s.sendTimeout == 0 && |tasks| <= |Pending(s.content)|
    ensures AllPossible(Rounds(tasks))
    ensures var n := Run(c, s, Rounds(tasks));
            && n.outputs == Drained(Pending(s.content), tasks)
            && InSession(c, n.state) && n.state.sendTimeout == 0
            && Pending(n.state.content) == Pending(s.content)[|tasks|..]
    decreases |tasks|
  {
    hide Step, Pending, Framed, TypeSent, InSession;
    RoundsArePossible(tasks);
    if tasks == [] {
      NothingYet(c, s);
    } else {
      var k := |tasks| - 1;
      QueueDrains(c, s, tasks[..k]);
      TwoSteps(c, s, Rounds(tasks[..k]), Task(tasks[k].0, tasks[k].1), Sent);
      var a := Run(c, s, Rounds(tasks[..k])).state;
      assert Pending(a.content)[0] == Pending(s.content)[k];
      OneRound(c, a, tasks[k].0, tasks[k].1);
    }
  }

  lemma RoundSends(earlier: seq<Output>, m: Message, report: seq<Output>)
    requires forall o :: o in report ==> !o.SendQueued?
    ensures QueuedSends(earlier + [SendQueued(m)] + report) == QueuedSends(earlier) + [m]
  {
    SendsOfConcat(earlier, [SendQueued(m)]);
    SendsOfConcat(earlier + [SendQueued(m)], report);
    OneSend(SendQueued(m));
    NoSends(report);
  }

  lemma {:induction false} DrainedSends(messages: seq<Message>, tasks: seq<(bool, int)>)
    requires |tasks| <= |messages|
    ensures QueuedSends(Drained(messages, tasks)) == messages[..|tasks|]
  {
    hide TypeSent, QueuedSends;
    if tasks == [] {
      NoSends([]);
    } else {
      var k := |tasks| - 1;
      DrainedSends(messages, tasks[..k]);
      RoundSends(Drained(messages, tasks[..k]), messages[k],
                 if TypeSent(messages[k], tasks[k].1) == 3 then [OnPublished] else []);
      assert messages[..|tasks|] == messages[..k] + [messages[k]];
    }
  }

  // So from every reachable state in a session as many rounds as messages send the whole queue.
  lemma WholeQueueIsSent(c: Config, before: seq<Event>, tasks: seq<(bool, int)>)
    requires AllPossible(before) && !c.security
    requires Run(c, INITIAL, before).state.connState == Data && Run(c, INITIAL, before).state.sendTimeout == 0
    requires |tasks| == |Pending(Run(c, INITIAL, before).state.content)|
    ensures AllPossible(Rounds(tasks))
    ensures var s := Run(c, INITIAL, before).state;
            var n := Run(c, s, Rounds(tasks));
            QueuedSends(n.outputs) == Pending(s.content) && Pending(n.state.content) == []
  {
    hide Run, Pending;
    var s := Run(c, INITIAL, before).state;
    ReachableFits(c, before);
    QueueDrains(c, s, tasks);
    DrainedSends(Pending(s.content), tasks);
  }

  // ------------------------------------------------------------------ waiting for the callback

  // Nothing queued leaves before the callback or the last tick of the time that is left.
  lemma {:induction false} NothingOvertakes(c: Config, s: State, events: seq<Event>)
    requires Sound(s) && AllPossible(events) && Sent !in events
    requires Ticks(events) < s.sendTimeout <= 5
    ensures var n := Run(c, s, events);
            QueuedSends(n.outputs) == [] && s.sendTimeout - Ticks(events) <= n.state.sendTimeout <= 5
    decreases |events|
  {
    hide Step;
    if events == [] {
      NothingYet(c, s);
      NoSends([]);
    } else {
      NothingOvertakes(c, s, events[..|events| - 1]);
      LastStep(c, s, events);
      var before := Before(c, s, events);
      SendSteps(c, before.state, Last(events));
      SendsOfConcat(before.outputs, Step(c, before.state, Last(events)).outputs);
    }
  }

  // After a CONNECT five ticks, or the callback, go by before a queued message leaves, and after a
  // PINGREQ four more.
  lemma ConnectAndPingAreOutstanding(c: Config, s: State, e: Event)
    requires Sound(s) && !c.security && Possible(e)
    ensures var n := Step(c, s, e);
            && (e.Connected? ==> n.state.sendTimeout == 5)
            && (PING in n.outputs ==> n.state.sendTimeout == 4)
  {
    hide Progresses, Deliveries, AfterGet, Codec.TypeOf, Codec.ConnectMessage, Codec.FirstInBuffer, AfterPut, Framed;
    if e.Received? {
      assert PING !in Step(c, s, e).outputs;
    }
  }

  // Events that neither send nor report a send.
  predicate Bystander(e: Event) {
    !e.Connected? && !e.Sent? && !e.Task?
  }

  lemma TimeoutSteps(c: Config, s: State, e: Event)
    requires Sound(s) && Possible(e) && Bystander(e) && !c.security
    ensures var n := Step(c, s, e);
            PING !in n.outputs ==>
              n.state.sendTimeout == if e.Tick? && s.sendTimeout > 0 then s.sendTimeout - 1 else s.sendTimeout
  {
    hide Progresses, Deliveries, AfterGet, Codec.TypeOf, Codec.FirstInBuffer, AfterPut, Framed;
  }

  // The time left runs down with the ticks, in a session and out of it.
  lemma {:induction false} TimeoutRunsDown(c: Config, s: State, events: seq<Event>)
    requires Sound(s) && AllPossible(events) && !c.security && (forall e :: e in events ==> Bystander(e))
    requires PING !in Run(c, s, events).outputs
    ensures var left := s.sendTimeout - Ticks(events);
            Run(c, s, events).state.sendTimeout == if left > 0 then left else 0
    decreases |events|
  {
    hide Step;
    if events == [] {
      NothingYet(c, s);
    } else {
      LastStep(c, s, events);
      TimeoutRunsDown(c, s, events[..|events| - 1]);
      assert Last(events) in events;
      TimeoutSteps(c, Before(c, s, events).state, Last(events));
    }
  }

  // A lost callback delays the next message by five ticks and no more.
  lemma SendsAfterFiveTicks(c: Config, s: State, events: seq<Event>, isBegin: bool, stale: int)
    requires Sound(s) && InSession(c, s) && s.sendTimeout <= 5 && !c.security
    requires AllPossible(events) && (forall e :: e in events ==> Bystander(e)) && Ticks(events) >= 5
    requires var n := Run(c, s, events); PING !in n.outputs && InSession(c, n.state)
    requires Pending(Run(c, s, events).state.content) != []
    ensures var n := Run(c, s, events).state;
            Step(c, n, Task(isBegin, stale)).outputs == [SendQueued(Pending(n.content)[0])]
  {
    hide Run, Step, Pending, InSession;
    TimeoutRunsDown(c, s, events);
    TaskSends(c, Run(c, s, events).state, isBegin, stale);
  }

  // ------------------------------------------------------------------ what the broker publishes

  // The data callback's calls, in order.
  function Heard(outputs: seq<Output>): seq<Delivery> {
    if outputs == [] then []
    else
      var last := outputs[|outputs| - 1];
      Heard(outputs[..|outputs| - 1]) + if last.OnData? then [last.delivery] else []
  }

  // What the segments below 255 bytes that arrive in a session hold.
  ghost function Published(c: Config, s: State, events: seq<Event>): seq<Delivery>
    requires Sound(s) && AllPossible(events)
    decreases |events|
  {
    if events == [] then []
    else
      assert Possible(Last(events));
      Published(c, s, events[..|events| - 1])
      + if Last(events).Received? && |Last(events).segment| < 255 && Before(c, s, events).state.connState == Data
        then Deliveries(Last(events).segment) else []
  }

  lemma {:induction false} HeardOfConcat(a: seq<Output>, b: seq<Output>)
    ensures Heard(a + b) == Heard(a) + Heard(b)
    decreases |b|
  {
    if b == [] {
      assert a + b == a;
    } else {
      assert (a + b)[..|a + b| - 1] == a + b[..|b| - 1];
      HeardOfConcat(a, b[..|b| - 1]);
    }
  }

  lemma {:induction false} HeardAll(outputs: seq<Output>, ds: seq<Delivery>)
    requires |outputs| == |ds| && forall i :: 0 <= i < |ds| ==> outputs[i] == OnData(ds[i])
    ensures Heard(outputs) == ds
    decreases |ds|
  {
    if ds != [] {
      HeardAll(outputs[..|ds| - 1], ds[..|ds| - 1]);
    }
  }

  lemma {:induction false} HeardNothing(outputs: seq<Output>)
    requires forall o :: o in outputs ==> !o.OnData?
    ensures Heard(outputs) == []
  {
    if outputs != [] {
      HeardNothing(outputs[..|outputs| - 1]);
    }
  }

  lemma NothingBeyondTheBuffer(segment: seq<Byte>)
    requires Progresses(segment) && |segment| >= 255
    ensures Deliveries(segment) == []
  {
  }

  lemma StepHears(c: Config, s: State, e: Event)
    requires Sound(s) && Possible(e)
    ensures Heard(Step(c, s, e).outputs)
         == if e.Received? && |e.segment| < 255 && s.connState == Data then Deliveries(e.segment) else []
  {
    hide Progresses, Deliveries, AfterGet, Codec.TypeOf, Codec.ConnectMessage, Codec.FirstInBuffer, AfterPut, Framed,
      Heard;
    var outputs := Step(c, s, e).outputs;
    if e.Received? && s.connState == Data {
      if |e.segment| >= 255 {
        NothingBeyondTheBuffer(e.segment);
      }
      HeardAll(outputs, Deliveries(e.segment));
    } else {
      HeardNothing(outputs);
    }
  }

  // Over every run the data callback gets what the segments of the sessions hold, and no more.
  lemma {:induction false} EverythingIsHeard(c: Config, s: State, events: seq<Event>)
    requires Sound(s) && AllPossible(events)
    ensures Heard(Run(c, s, events).outputs) == Published(c, s, events)
    decreases |events|
  {
    hide Step, Deliveries, Progresses;
    if events == [] {
      NothingYet(c, s);
    } else {
      EverythingIsHeard(c, s, events[..|events| - 1]);
      LastStep(c, s, events);
      var before := Before(c, s, events);
      StepHears(c, before.state, Last(events));
      HeardOfConcat(before.outputs, Step(c, before.state, Last(events)).outputs);
    }
  }

  lemma {:induction false} ContentsAt(ps: seq<Codec.Publish>, i: nat)
    requires i < |ps|
    ensures |Contents(ps)| == |ps| && Contents(ps)[i] == Delivery(Some(ps[i].topic), Some(ps[i].payload))
  {
    if i > 0 {
      ContentsAt(ps[1..], i - 1);
    } else if |ps| > 1 {
      ContentsAt(ps[1..], 0);
    }
  }

  // The data theorem: whenever a segment of fewer than 255 bytes that starts with well-formed
  // PUBLISH packets arrives in a session, the callback's next calls get their topics and payloads.
  lemma PublishesAreHeard(c: Config, before: seq<Event>, ps: seq<Codec.Publish>, rest: seq<Byte>)
    requires AllPossible(before) && Run(c, INITIAL, before).state.connState == Data
    requires forall p :: p in ps ==> Codec.WellFormed(p)
    requires |Packets(ps) + rest| < 255 && Progresses(rest)
    requires ps != [] ==> ps[|ps| - 1].payload != [] || rest != []
    ensures AllPossible(before + [Received(Packets(ps) + rest)])
    ensures var was := Heard(Run(c, INITIAL, before).outputs);
            var heard := Heard(Run(c, INITIAL, before + [Received(Packets(ps) + rest)]).outputs);
            && |heard| >= |was| + |ps| && heard[..|was|] == was
            && forall i :: 0 <= i < |ps| ==>
                 heard[|was| + i] == Delivery(topic := Some(ps[i].topic), payload := Some(ps[i].payload))
  {
    hide Run, Deliveries, Progresses, Codec.WellFormed, Packets, Heard;
    var segment := Packets(ps) + rest;
    SegmentDelivers(ps, rest);
    var events := before + [Received(segment)];
    assert events[..|events| - 1] == before;
    EverythingIsHeard(c, INITIAL, before);
    EverythingIsHeard(c, INITIAL, events);
    var was := Published(c, INITIAL, before);
    assert Published(c, INITIAL, events) == was + Deliveries(segment);
    forall i | 0 <= i < |ps|
      ensures |Contents(ps)| == |ps| && Contents(ps)[i] == Delivery(Some(ps[i].topic), Some(ps[i].payload))
    {
      ContentsAt(ps, i);
    }
    if ps == [] {
      assert Contents(ps) == [];
    } else {
      ContentsAt(ps, 0);
    }
  }

  // ------------------------------------------------------------------ what else is seen

  // Each callback and each call to the SDK has its one cause.
  predicate Caused(s: State, e: Event, o: Output) {
    match o
    case Dial | Lookup => e.Connect? || e.DnsFound? || (e.Task? && s.connState == TcpReconnect)
    case HangUp | OnConnected => e.Received? && s.connState == ConnectSending
    case OnData(_) => e.Received? && s.connState == Data
    case SendConnect(_) => e.Connected?
    case SendPing(_) => e.Tick? && s.connState == Data
    case SendQueued(_) => e.Task? && s.connState == Data
    case OnDisconnected => e.Disconnected?
    case OnPublished => e.Sent? && s.connState == Data
  }

  // Over plain TCP a disconnection is always reported, and once; nothing is seen without its cause.
  lemma OutputsHaveCauses(c: Config, s: State, e: Event)
    requires Sound(s) && Possible(e)
    ensures forall o :: o in Step(c, s, e).outputs ==> Caused(s, e, o)
    ensures e.Disconnected? ==> Step(c, s, e).outputs == [OnDisconnected]
  {
    hide Progresses, Deliveries, AfterGet, Codec.TypeOf, Codec.ConnectMessage, Codec.FirstInBuffer, AfterPut, Framed;
  }

  // What a client for TLS does: it looks names up and tells the application.
  predicate Silent(o: Output) {
    o.Lookup? || o.OnConnected? || o.OnDisconnected? || o.OnPublished? || o.OnData?
  }

  lemma SecureStepIsSilent(c: Config, s: State, e: Event)
    requires Sound(s) && Possible(e) && c.security
    ensures forall o :: o in Step(c, s, e).outputs ==> Silent(o)
  {
    hide Progresses, Deliveries, AfterGet, Codec.TypeOf, Codec.ConnectMessage, Codec.FirstInBuffer, AfterPut, Framed;
  }

  // A client for TLS neither dials nor sends anything, over any run: those calls are commented out.
  lemma {:induction false} SecureClientIsSilent(c: Config, events: seq<Event>)
    requires AllPossible(events) && c.security
    ensures forall o :: o in Run(c, INITIAL, events).outputs ==> Silent(o)
    decreases |events|
  {
    hide Step;
    if events != [] {
      SecureClientIsSilent(c, events[..|events| - 1]);
      LastStep(c, INITIAL, events);
      SecureStepIsSilent(c, Before(c, INITIAL, events).state, Last(events));
    }
  }

  // The last thing sent to the broker, if anything has been.
  function LastSent(outputs: seq<Output>): Option<Output> {
    if outputs == [] then None
    else
      var last := outputs[|outputs| - 1];
      if last.SendConnect? || last.SendPing? || last.SendQueued? then Some(last)
      else LastSent(outputs[..|outputs| - 1])
  }

  // The pending type is that of the last thing sent.
  predicate Remembered(c: Config, o: Option<Output>, pendingType: int) {
    match o
    case Some(SendConnect(_)) => ConnectFits(c) ==> pendingType == 1
    case Some(SendPing(_)) => pendingType == 12
    case Some(SendQueued(m)) => m != [] ==> pendingType == m[0] / 16
    case _ => true
  }

  lemma {:induction false} LastSentOfConcat(a: seq<Output>, b: seq<Output>)
    ensures LastSent(a + b) == if LastSent(b).Some? then LastSent(b) else LastSent(a)
    decreases |b|
  {
    if b == [] {
      assert a + b == a;
    } else {
      assert (a + b)[..|a + b| - 1] == a + b[..|b| - 1];
      LastSentOfConcat(a, b[..|b| - 1]);
    }
  }

  lemma {:induction false} NothingSentAtAll(outputs: seq<Output>)
    requires forall o :: o in outputs ==> !o.SendConnect? && !o.SendPing? && !o.SendQueued?
    ensures LastSent(outputs) == None
  {
    if outputs != [] {
      NothingSentAtAll(outputs[..|outputs| - 1]);
    }
  }

  lemma OneSent(o: Output)
    requires o.SendConnect? || o.SendPing? || o.SendQueued?
    ensures LastSent([o]) == Some(o)
  {
  }

  lemma StepRemembers(c: Config, s: State, e: Event)
    requires Sound(s) && Possible(e) && !c.security
    ensures var n := Step(c, s, e);
            && Remembered(c, LastSent(n.outputs), n.state.pendingType)
            && (LastSent(n.outputs) == None ==> n.state.pendingType == s.pendingType)
  {
    hide Progresses, Deliveries, AfterGet, Codec.ConnectMessage, Codec.FirstInBuffer, AfterPut, Framed, LastSent;
    Codec.ConnectIsRecognised(OUT_BUFFER_SIZE, c.info);
    Codec.ConnectNeedsItsSize(OUT_BUFFER_SIZE, c.info);
    hide Codec.ConnectSize;
    var n := Step(c, s, e);
    if e.Connected? || (e.Tick? && n.outputs != []) || (e.Task? && s.connState == Data && n.outputs != []) {
      OneSent(n.outputs[0]);
      assert n.outputs == [n.outputs[0]];
    } else {
      NothingSentAtAll(n.outputs);
    }
  }

  // Over every run of a plain client the type it remembers is that of the last thing it sent, so
  // the published callback reports exactly the PUBLISH messages.
  lemma {:induction false} LastSentIsRemembered(c: Config, events: seq<Event>)
    requires AllPossible(events) && !c.security
    ensures var n := Run(c, INITIAL, events);
            Remembered(c, LastSent(n.outputs), n.state.pendingType)
    decreases |events|
  {
    hide Step, Remembered, LastSent;
    if events == [] {
      NothingSentAtAll([]);
      NothingRemembered(c);
    } else {
      LastSentIsRemembered(c, events[..|events| - 1]);
      LastStep(c, INITIAL, events);
      var before := Before(c, INITIAL, events);
      StepRemembers(c, before.state, Last(events));
      LastSentOfConcat(before.outputs, Step(c, before.state, Last(events)).outputs);
    }
  }

  lemma NothingRemembered(c: Config)
    ensures Remembered(c, None, 0)
  {
  }

  // What a broker makes of a CONNECT on its way, and of a PINGREQ.
  ghost predicate Readable(c: Config, o: Output) {
    match o
    case SendConnect(m) =>
      if ConnectFits(c) then Broker.ReadConnect(m) == Some(Broker.Asked(c.info)) else m == []
    case SendPing(m) => m == [0xC0, 0]
    case _ => true
  }

  lemma StepIsReadable(c: Config, s: State, e: Event)
    requires Sound(s) && Possible(e)
    ensures forall o :: o in Step(c, s, e).outputs ==> Readable(c, o)
  {
    hide Progresses, Deliveries, AfterGet, Codec.TypeOf, Codec.ConnectMessage, Codec.ConnectSize, Codec.FirstInBuffer,
      AfterPut, Framed, Broker.ReadConnect, Broker.Asked;
    Codec.ConnectNeedsItsSize(OUT_BUFFER_SIZE, c.info);
    if ConnectFits(c) {
      Broker.ConnectIsRead(OUT_BUFFER_SIZE, c.info);
    }
  }

  // Over every run each CONNECT that leaves the client is read by the broker as what was asked for,
  // if it fits the buffer, and is empty if it does not.
  lemma {:induction false} ConnectsAreRead(c: Config, events: seq<Event>)
    requires AllPossible(events)
    ensures forall o :: o in Run(c, INITIAL, events).outputs ==> Readable(c, o)
    decreases |events|
  {
    hide Step, Readable;
    if events != [] {
      ConnectsAreRead(c, events[..|events| - 1]);
      LastStep(c, INITIAL, events);
      StepIsReadable(c, Before(c, INITIAL, events).state, Last(events));
    }
  }
}
