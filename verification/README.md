# Verified models of the relay and thermostat firmware

A Dafny model of the parts of the Three Channel WiFi Relay/Thermostat Board firmware
(ESP8266, C) that carry real protocol or algorithmic content, with proofs about them.
`dafny verify dfyconfig.toml` checks everything.

| file | what it models |
|---|---|
| `Bits.dfy`, `Bytes.dfy`, `Wrappers.dfy` | bit vectors, bytes as integers, optional values |
| `OneWireSearch.dfy`, `RomEnumeration.dfy` | the 1-Wire bus as a set of ROM codes, `ds_search`, and what a run of calls enumerates |
| `Crc8.dfy`, `CrcErrors.dfy` | the table and the bitwise CRC-8, their equality and which errors they detect |
| `RingBuffer.dfy`, `Framing.dfy`, `MessageQueue.dfy` | the byte ring, byte-stuffed frames in it, the message queue and its eviction loop |
| `MqttMessage.dfy`, `MqttConnect.dfy`, `MqttReceive.dfy` | the MQTT encoder and decoders, a reader of CONNECT, and the loop that unpacks a TCP segment |
| `MqttClient.dfy`, `MqttClientRuns.dfy`, `MqttTraffic.dfy`, `MqttDialling.dfy` | the client's callbacks as a state machine, what holds over every run, what it sends and hears, when it dials and pings |
| `ConfigFlash.dfy` | the two-slot configuration with its commit flag, under power failures |
| `PwmSchedule.dfy`, `PwmTimer.dfy`, `PwmWave.dfy`, `PwmRuns.dfy` | building a PWM schedule, walking it from the interrupt and the double buffer, the waveform of one period, runs of periods and stops |
| `JsmnModel.dfy`, `JsmnTokenizer.dfy`, `JsmnProofs.dfy`, `JsmnTrees.dfy`, `JsmnErrors.dfy` | the jsmn tokenizer as a function, as the in-place code, what it guarantees, the tokens of a JSON value, and what its two errors mean |
| `Schedule.dfy`, `ScheduleRoundTrip.dfy` | printing the week and saving a day, and both through jsmn |
| `EspFs.dfy` | the read-only file image: writer, reader, round trip |
| `Template.dfy` | the streaming template expander and the meaning of a template |
| `Calendar.dfy` | year, month, day and weekday of a time |

The code that changes state is modelled by classes and loops in its own form; each method is
proved equal to a function of the old state, and the theorems are about those functions. The
hardware and the SDK appear as parameters (what a power failure leaves in a sector, whether a
presence pulse is seen) or as events (a timer tick, a received segment) and as a list of
outputs. The number of PWM channels, 1 in the sources, is arbitrary.

## Where the code departs from what one would expect

Each of these is modelled as the code has it, with the exact condition under which the
expected property holds.

- A device with a zero family byte makes every search fail (`RomEnumeration.ZeroFamilyBlocksSearch`).
- The parser's `isBegin` is never initialised; it does not matter, because the ring always
  is a run of complete or unfinished frames (`Framing.GetTakesOldest`).
- A frame end that strays behind a frame reports the last message once more
  (`Framing.LineIsParsed`).
- Eviction can empty the queue and still refuse a message that an empty ring would take
  (`MessageQueue.EnqueueOutcome`, `MessageQueue.ShortMessagesAreLost`).
- The encoder announces bodies above 16383 bytes wrongly; the client's 255-byte buffer never
  gets there (`MqttMessage.BuiltPublishIsWellFormed`).
- Only the low 16 bits of the keepalive are sent (`MqttConnect.KeepaliveExactly`).
- The will QoS is put one bit too high in the CONNECT flags (`MqttMessage.WillQosIsMisplaced`).
- An empty payload at the end of a segment is delivered as a null pointer
  (`MqttReceive.EmptyPayloadAtTheEnd`).
- The receive loop does not advance over a packet that announces a multiple of 65536 bytes
  (`MqttReceive.LoopEnds`).
- When the CONNECT does not fit its buffer the client sends an empty message and remembers the
  type in the first byte of that buffer. From a fresh start this is never a CONNECT, so such a
  client hangs up on the CONNACK and never gets into a session
  (`MqttClientRuns.SessionNeedsConnect`, `MqttClientRuns.LongClientIdNeverConnects`).
- A second `pwm_start` within one period overwrites the schedule being walked
  (`PwmTimer.SecondStartOverwrites`).
- The 16-bit tick fields hold a period only from 77 Hz up (`PwmWave.FrequencyIsKept`). The
  firmware runs at 50 Hz, where half duty keeps the pin high all the time (`PwmWave.AtFiftyHertz`).
- jsmn reads the token in front of the array on a comma outside every container; the theorems
  hold for whatever it finds there (`JsmnProofs.CommaRefines`).
- At the first second of a month the calendar reports the day after the last of the month
  before, and its leap rule has a 29 February 2100 (`Calendar.DateIsRight`,
  `Calendar.WeekdayIsRight`).
- An empty file is left out of the image (`EspFs.ImageWriter.HandleFile`).

## Model

| member | source | states |
|---|---|---|
| `OneWireSearch.Bus.ReadBit` | firmware/user/ds18b20.c:154-174 | a bus read is the AND of the current bit, or of its complement, over the devices still listening; nobody listening reads 1 |
| `OneWireSearch.Bus.WriteBit` | firmware/user/ds18b20.c:123-148 | a written direction bit silences exactly the devices whose bit differs |
| `OneWireSearch.Search.ResetSearch` | firmware/user/ds18b20.c:376-386 | the whole search state, ROM bytes included, is cleared |
| `OneWireSearch.Search.StoreRomBit` | firmware/user/ds18b20.c:499-504 | setting or clearing with the byte mask changes exactly one of the 64 ROM bits |
| `OneWireSearch.Search.SearchBits` | firmware/user/ds18b20.c:463-522 | the byte and mask loop walks the device tree bit by bit: same ROM bits, bit counter, last zero and last family zero as the recursive descent over the set of listening devices |
| `OneWireSearch.Search.DsSearch` | firmware/user/ds18b20.c:431-548 | one call has the result and the new state of the abstract search step; the address is copied out except when no presence pulse is seen |
| `RomEnumeration.DescendToLeast` | firmware/user/ds18b20.c:463-522 | below the remembered bit the descent ends at the least device sharing the ROM prefix, and last_zero is its deepest branch taken as 0 |
| `RomEnumeration.DescendPastBranch` | firmware/user/ds18b20.c:480-497 | above the remembered bit the descent retraces the previous ROM code, turns to 1 at the remembered bit and ends at the least device beyond it |
| `RomEnumeration.FirstCall` | firmware/user/ds18b20.c:431-548 | the first call after a reset returns the least device, unless some device has a zero family byte, when it fails |
| `RomEnumeration.NextCall` | firmware/user/ds18b20.c:431-548 | every later call returns the immediate successor of the last device in least-significant-bit-first order |
| `RomEnumeration.LastDeviceIsGreatest` | firmware/user/ds18b20.c:530-532 | the last-device flag is raised exactly at the greatest device |
| `RomEnumeration.PassesRepeat` | firmware/user/ds18b20.c:538-545 | after every |devices| + 1 calls the search is fresh again |
| `RomEnumeration.EnumeratesInOrder` | firmware/user/ds18b20.c:431-548 | on any bus without zero family bytes every pass of calls, of any number of passes, lists each device exactly once in ascending order, then fails once and clears the search |
| `RomEnumeration.ZeroFamilyBlocksSearch` | firmware/user/ds18b20.c:538-545 | with a zero family byte on the bus no call ever succeeds: the condition of the enumeration theorem is needed |
| `RomEnumeration.NothingToFind` | firmware/user/ds18b20.c:470-472 | an empty bus and a bus that gives no presence pulse are never reported to hold a device |
| `RomEnumeration.ListingExists` | firmware/user/ds18b20.c:431-548 | every finite set of ROM codes has the ascending listing the enumeration theorem speaks of |
| `RomEnumeration.ListingIsUnique` | firmware/user/ds18b20.c:431-548 | and only one: what a pass reports is decided by the devices |
| `Crc8.TableIsShiftByte` | firmware/user/ds18b20.c:60-76 | each of the 256 table entries is the eight-fold shift of its index by the polynomial |
| `Crc8.CrcRegister.OwCrc` | firmware/user/ds18b20.c:91-94 | one table lookup moves the register as the CRC of one more byte |
| `Crc8.CrcRegister.ScratchpadIntact` | firmware/user/ds18b20.c:253-261 | nine bytes are accepted exactly when the ninth is the CRC of the first eight |
| `Crc8.BitwiseByte` | firmware/user/ds18b20.c:207-213 | the inner bit loop is one CRC byte step |
| `Crc8.BitwiseCrc` | firmware/user/ds18b20.c:202-216 | the bitwise CRC of any message is the table CRC of it |
| `Crc8.CrcIsLinear` | firmware/user/ds18b20.c:91-94 | the CRC of the XOR of two messages is the XOR of their CRCs |
| `Crc8.CrcOfConcat` | firmware/user/ds18b20.c:91-94 | the CRC of two messages in a row is the CRC of the second begun with that of the first |
| `Crc8.ResidueIsZero` | firmware/user/ds18b20.c:253-261 | a message followed by a byte has residue 0 if and only if the byte is its CRC |
| `Crc8.BurstIsDetected` | firmware/user/ds18b20.c:202-216 | every non-zero error pattern within eight consecutive bits, anywhere in a message of any length, changes the CRC |
| `CrcErrors.OddErrorsAreDetected` | firmware/user/ds18b20.c:202-216 | every odd number of flipped bits, in a message of any length, changes the CRC |
| `CrcErrors.ReturnsExactly` | firmware/user/ds18b20.c:207-213 | n shifts bring the register 1 back if and only if n is a multiple of 127 |
| `CrcErrors.TwoErrorsExactly` | firmware/user/ds18b20.c:202-216 | two flipped bits, in a message of any length, go unnoticed if and only if they are a multiple of 127 apart |
| `CrcErrors.ThreeErrorsExactly` | firmware/user/ds18b20.c:253-261 | every error of one to three bits is noticed if and only if the message has at most fifteen bytes; ROM codes have eight, scratchpads nine |
| `RingBuffer.Ring.Put` | firmware/user/ringbuf.c:32-46 | a put appends to the bounded queue of bytes, or refuses and changes nothing exactly when it is full |
| `RingBuffer.Ring.Get` | firmware/user/ringbuf.c:53-67 | a get removes the oldest byte, or refuses exactly when there is none |
| `RingBuffer.Init` | firmware/user/ringbuf.c:16-25 | a missing buffer and one below two bytes are refused; otherwise the ring starts empty |
| `Framing.AddRb` | firmware/user/proto.c:106-128 | a put into a ring of any size appends as much of the stuffed frame as fits, and returns its length as a signed 16-bit number exactly when all of it did |
| `Framing.FrameBytes` | firmware/user/proto.c:106-128 | a frame is the literal bytes 7E, the message, 7F, with 7D in front of each of the three and the bit of 20 flipped by XOR |
| `Framing.ProtoParser.ParseOne` | firmware/user/proto.c:13-47 | one byte moves the parser as the abstract parser step, whatever isBegin started as |
| `Framing.ProtoParser.Parse` | firmware/user/proto.c:49-55 | the loop over a received buffer calls back with exactly the messages of the abstract parser run |
| `Framing.LineIsParsed` | firmware/user/proto.c:13-55 | on a line of frames with anything but frame starts between them, from any earlier state, every frame reports its message once, cut to the buffer, and every stray frame end reports the last one again |
| `Framing.ParseRb` | firmware/user/proto.c:56-69 | a get consumes up to and including the first frame end and yields what the parser collected, or consumes everything and fails |
| `Framing.DecodeStuffed` | firmware/user/proto.c:106-128 | unstuffing a stuffed message gives the message back |
| `Framing.DecodeFrame` | firmware/user/proto.c:15-44 | behind any bytes at all, a complete frame decodes to exactly its message: nothing of an unfinished frame is spliced in |
| `Framing.PutQueuesAllOrNothing` | firmware/user/proto.c:106-128 | a put keeps the ring a run of frames, and adds the whole message or none of it to what a reader will see |
| `Framing.GetTakesOldest` | firmware/user/proto.c:56-69 | on such a ring a get returns the oldest complete message, whatever isBegin started as, and leaves the others |
| `Framing.UnframedContentDependsOnIsBegin` | firmware/user/proto.c:3-11 | on a ring that is not a run of frames the uninitialised isBegin changes the answer |
| `MessageQueue.StepKeepsOrder` | firmware/user/mqueue.c:42-51 | a put, refused or not, and a get keep the queue order invariant |
| `MessageQueue.QueueIsFifo` | firmware/user/mqueue.c:42-51 | over every interleaving of puts, refused puts and gets, the delivered messages are the accepted ones, in order, each once, cut only to the reader's buffer, and the rest are exactly what the ring still decodes to |
| `MessageQueue.EvictionProgress` | firmware/user/mqtt.c:411-417 | each round of the eviction loop removes a frame end, so it terminates |
| `MessageQueue.Enqueue` | firmware/user/mqtt.c:411-417 | the eviction loop, for any isBegin, has the abstract outcome |
| `MessageQueue.EvictionOutcome` | firmware/user/mqtt.c:411-417 | after a refused put, each further attempt finds exactly one segment of the ring free, in turn |
| `MessageQueue.EnqueueOutcome` | firmware/user/mqtt.c:411-417 | queueing succeeds if and only if the frame fits the free space or some segment between frame ends; it drops exactly the messages up to the first such segment and appends the new one, and on failure the ring is empty |
| `MessageQueue.EnqueueKeepsFramed` | firmware/user/mqtt.c:439-445 | whatever the outcome, the ring stays a run of frames within its size |
| `MessageQueue.EmptyRingTakesAnyMessage` | firmware/user/mqtt.c:52 | an empty 512-byte ring takes any message of up to 255 bytes |
| `MessageQueue.ShortMessagesAreLost` | firmware/user/mqtt.c:411-417 | a ring that puts have filled with equal short messages refuses every longer one that does not fit the space left, and loses all of them over it, though an empty ring would take it |
| `MessageQueue.EvictionMayLoseEverything` | firmware/user/mqtt.c:52 | on the client's 512 bytes: 128 queued ping responses are all lost to any message of three bytes or more, which is refused as well |
| `MqttMessage.ReadLength` | firmware/user/mqtt_msg.c:136-145 | the decoding loop finds the end and the value of the Remaining Length field |
| `MqttMessage.GetTotalLength` | firmware/user/mqtt_msg.c:131-148 | the total length is the field's value plus where the field ends |
| `MqttMessage.GetPublishTopic` | firmware/user/mqtt_msg.c:150-177 | the topic, or nothing when the buffer ends too early |
| `MqttMessage.GetPublishData` | firmware/user/mqtt_msg.c:179-220 | the payload, cut to the packet or to the buffer, or nothing when the buffer ends too early |
| `MqttMessage.PublishDecodes` | firmware/user/mqtt_msg.c:131-220 | on every well-formed PUBLISH, with a length field of one to four bytes and anything behind it, the decoders give type, QoS, retain, length, topic and payload; the one exception, an empty payload at the very end, is exact |
| `MqttMessage.PrefixDecodes` | firmware/user/mqtt_msg.c:150-220 | on every proper prefix of a well-formed PUBLISH: the topic once more than it has arrived, and of the payload what has arrived |
| `MqttMessage.LengthBytesAreRight` | firmware/user/mqtt_msg.c:104-118 | the one or two length bytes written are a correct Remaining Length if and only if the body is at most 16383 bytes |
| `MqttMessage.Connection.AppendString` | firmware/user/mqtt_msg.c:58-69 | a length-prefixed string is appended inside the buffer, or refused exactly when it does not fit |
| `MqttMessage.Connection.AppendMessageId` | firmware/user/mqtt_msg.c:71-85 | ids run 1 to 65535 and round again, never 0, and are used up even when there is no room |
| `MqttMessage.Connection.FiniMessage` | firmware/user/mqtt_msg.c:100-121 | header and body become one contiguous message on both sides of the 127/128 boundary |
| `MqttMessage.Connection.Publish` | firmware/user/mqtt_msg.c:343-367 | the finished bytes are a header and body exactly when there is a topic and room, and the empty message otherwise |
| `MqttMessage.PublishNeedsItsSize` | firmware/user/mqtt_msg.c:343-367 | a PUBLISH is built if and only if there is a topic and room for five bytes, the topic, the id if there is one and the payload |
| `MqttMessage.BuiltPublishIsWellFormed` | firmware/user/mqtt_msg.c:343-367 | what is built is a PUBLISH as MQTT defines it if and only if its body is at most 16383 bytes |
| `MqttMessage.PublishRoundTrip` | firmware/user/mqtt_msg.c:343-367 | decoding what was built, with anything behind it, gives back type, QoS, retain, length, topic and payload |
| `MqttMessage.IdsDoNotRepeat` | firmware/user/mqtt_msg.c:75-76 | two ids are equal if and only if they are a multiple of 65535 assignments apart |
| `MqttMessage.RecentIdsDiffer` | firmware/user/mqtt_msg.c:71-85 | over any run of publish calls, failed ones among them, two messages of QoS above 0 built fewer than 65535 calls apart carry different id bytes, and never 0 |
| `MqttMessage.Connection.Connect` | firmware/user/mqtt_msg.c:280-341 | the CONNECT built is the one that ConnectIsRead reads back, or empty when there is no client id or no room |
| `MqttMessage.ConnectNeedsItsSize` | firmware/user/mqtt_msg.c:280-341 | a CONNECT is built if and only if there is a client id and room for the longest header, twelve bytes and the strings with their lengths |
| `MqttMessage.ConnectIsRecognised` | firmware/user/mqtt_msg.c:280-341 | a CONNECT is either the empty message or no longer than the buffer and of type CONNECT |
| `MqttMessage.Connection.PingReq` | firmware/user/mqtt_msg.c:437-441 | the two bytes of a PINGREQ, and the first byte of the buffer untouched |
| `MqttMessage.WillQosIsMisplaced` | firmware/user/mqtt_msg.c:318-321 | a broker reads the will QoS that was asked for if and only if it is 0, and the retain flag if and only if it was set or the QoS is below 2 |
| `MqttConnect.ConnectIsRead` | firmware/user/mqtt_msg.c:280-341 | a reader of MQTT 3.1 with literal protocol name, level and flag bits gets back client id, will, user name, password and keepalive from every CONNECT built, up to a body of 16383 bytes |
| `MqttConnect.KeepaliveExactly` | firmware/user/mqtt_msg.c:296-297 | the keepalive is read as it was set if and only if it is at most 65535 |
| `MqttReceive.LoopEnds` | firmware/user/mqtt.c:228-243 | the READPACKET loop ends if and only if no packet it reaches has a length that 16 bits turn into 0, and then within one round a byte |
| `MqttReceive.ALengthOf65536Stalls` | firmware/user/mqtt.h:56 | a concrete 4-byte segment on which the loop never moves |
| `MqttReceive.SegmentDelivers` | firmware/user/mqtt.c:134-252 | a segment below 255 bytes that starts with any number of well-formed PUBLISH packets delivers exactly their topics and payloads in order, then what the bytes behind them deliver |
| `MqttReceive.EmptyPayloadAtTheEnd` | firmware/user/mqtt.c:101-114 | a lone PUBLISH with an empty payload reaches the callback without payload, and at QoS 0 without topic |
| `MqttReceive.Unpack` | firmware/user/mqtt.c:134-252 | the loop makes exactly these deliveries |
| `MqttClient.Client.Connect` | firmware/user/mqtt.c:588-623 | dialling resets both tick counters and enters TCP_CONNECTING |
| `MqttClient.Client.DnsFound` | firmware/user/mqtt.c:62-97 | no address asks for a reconnection; a first address dials; a later one changes nothing |
| `MqttClient.Client.Connected` | firmware/user/mqtt.c:337-366 | the connection callback sends CONNECT and remembers the type read back, which is CONNECT if and only if the CONNECT fits the buffer or the first byte of the buffer already shows type 1 |
| `MqttClient.Client.Received` | firmware/user/mqtt.c:124-253 | a CONNACK opens a session or hangs up according to the pending type; in a session the segment is unpacked and delivered, as EverythingIsHeard and PublishesAreHeard say |
| `MqttClient.Client.SentCb` | firmware/user/mqtt.c:260-272 | the send timeout is cleared and a PUBLISH in a session is reported |
| `MqttClient.Client.Timer` | firmware/user/mqtt.c:274-314 | one tick moves the keepalive count, the reconnection wait and the send timeout |
| `MqttClient.Client.Task` | firmware/user/mqtt.c:450-490 | MQTT_Task has the output and the new state of the abstract step that TaskSends, TaskWaits and LostConnectionIsDialledAgain describe |
| `MqttClient.Client.Publish` | firmware/user/mqtt.c:397-420 | publishing queues exactly the encoded message, evicting if need be; a message that cannot be encoded changes nothing |
| `MqttClientRuns.PendingConnect` | firmware/user/mqtt.c:142-161 | when the CONNECT fits its buffer: over every run, waiting for CONNACK implies a pending CONNECT and the client never hangs up |
| `MqttClientRuns.NoSessionWithoutConnect` | firmware/user/mqtt.c:337-366 | when it does not: over every run the client is never in a session, and while it waits for CONNACK the type it remembers is not CONNECT |
| `MqttClientRuns.SessionNeedsConnect` | firmware/user/mqtt.c:142-161 | some run reaches a session if and only if the CONNECT fits the buffer |
| `MqttClientRuns.HangsUpExactlyWithoutConnect` | firmware/user/mqtt.c:144-158 | from any state, a connection followed by a CONNACK opens a session if and only if the CONNECT fits or the first byte of the buffer already shows type 1, and otherwise hangs up |
| `MqttClientRuns.LongClientIdNeverConnects` | firmware/user/mqtt.c:337-366 | a fresh client whose client id is longer than 238 bytes sends an empty message and hangs up on the CONNACK |
| `MqttClientRuns.SessionsAreOpenedByConnack` | firmware/user/mqtt.c:142-161 | over every run, a client in a session is in one that a TCP connection began and a CONNACK confirmed, and it was waiting and then in session at every moment since |
| `MqttClientRuns.TicksArePingedAway` | firmware/user/mqtt.c:278-302 | over any stretch of a run without dialling again, session ticks equal keepalive + 1 times the PINGREQs, up to the change of the counter |
| `MqttClientRuns.PingsOnTime` | firmware/user/mqtt.c:278-302 | from any reachable state, more than keepalive session ticks never go by without a PINGREQ |
| `MqttClientRuns.LargestKeepaliveNeverPings` | firmware/user/mqtt.c:279-280 | with a keepalive of 2^32 - 1 the counter wraps and no PINGREQ is ever sent: the condition is needed |
| `MqttClientRuns.OneMessageInFlight` | firmware/user/mqtt.c:465-484 | without a sent callback and within fewer than five ticks at most one queued message leaves the client |
| `MqttClientRuns.SentInOrder` | firmware/user/mqtt.c:397-490 | over every run of all callbacks, the messages sent are accepted ones, byte-exact, each at most once, in the order queued; the queue holds the last ones accepted |
| `MqttClientRuns.WaitIsBounded` | firmware/user/mqtt.c:304-311 | over every run the reconnection count stays at most RECONNECT_TIMEOUT |
| `MqttClientRuns.WaitsForTicks` | firmware/user/mqtt.c:304-311 | a waiting client counts every tick and does not dial, whatever other events come in between |
| `MqttClientRuns.Reconnects` | firmware/user/mqtt.c:304-464 | from any reachable state waiting to reconnect, over any interleaving of other events, nothing is dialled before the tick that takes the count past RECONNECT_TIMEOUT, and the first MQTT_Task after it dials |
| `MqttTraffic.TaskSends` | firmware/user/mqtt.c:465-485 | in a session with no send outstanding MQTT_Task sends exactly the oldest message and takes it off the queue |
| `MqttTraffic.TaskClearsRemains` | firmware/user/mqtt.c:465-469 | with no whole message waiting MQTT_Task empties the ring of unfinished frames and sends nothing |
| `MqttTraffic.TaskWaits` | firmware/user/mqtt.c:466-468 | while a send is outstanding MQTT_Task does nothing |
| `MqttTraffic.QueueDrains` | firmware/user/mqtt.c:260-272 | from any state in a session with no send outstanding, k rounds of MQTT_Task and the sent callback send exactly the k oldest messages, in order |
| `MqttTraffic.WholeQueueIsSent` | firmware/user/mqtt.c:450-490 | from every reachable session state as many rounds as messages empty the queue, sending all of it |
| `MqttTraffic.NothingOvertakes` | firmware/user/mqtt.c:465-468 | nothing queued leaves before the sent callback or the last tick of the time left |
| `MqttTraffic.ConnectAndPingAreOutstanding` | firmware/user/mqtt.c:289-354 | a CONNECT holds the queue back for five ticks and a PINGREQ for four |
| `MqttTraffic.TimeoutRunsDown` | firmware/user/mqtt.c:312-313 | over any run without sends the time left is what it was less the ticks, never below 0 |
| `MqttTraffic.SendsAfterFiveTicks` | firmware/user/mqtt.c:312-313 | a lost sent callback delays the next message by five ticks and no more |
| `MqttTraffic.EverythingIsHeard` | firmware/user/mqtt.c:101-114 | over every run the data callback gets, in order, what the segments of the sessions hold, and nothing else |
| `MqttTraffic.PublishesAreHeard` | firmware/user/mqtt.c:101-114 | after every run, a segment below 255 bytes that starts with well-formed PUBLISH packets makes the next calls of the data callback get exactly their topics and payloads, in order |
| `MqttTraffic.OutputsHaveCauses` | firmware/user/mqtt.c:316-335 | a disconnection is reported once and always; no output without its cause |
| `MqttTraffic.SecureClientIsSilent` | firmware/user/mqtt.c:291-297 | a TLS client, whose sending calls are commented out, sends nothing over any run |
| `MqttTraffic.LastSentIsRemembered` | firmware/user/mqtt.c:470-471 | over every run the pending type is that of the last thing sent, so the published callback reports exactly PUBLISH messages |
| `MqttTraffic.ConnectsAreRead` | firmware/user/mqtt.c:348-360 | over every run each CONNECT that leaves the client is read back as what was asked for, if it fits the buffer, and is empty if not |
| `MqttDialling.LostConnectionIsDialledAgain` | firmware/user/mqtt.c:304-464 | from every reachable state, a lost connection, a failed attempt or a failed lookup, then six ticks and an MQTT_Task dial again, and nothing else leaves in between |
| `MqttDialling.ConnectionIsMade` | firmware/user/mqtt.c:588-623 | a client with a host name looks it up, dials on the first answer and ignores later ones; one with an address dials at once |
| `MqttDialling.LateAnswerConnects` | firmware/user/mqtt.c:62-97 | a first answer that comes late dials as well, whatever has happened since |
| `MqttDialling.EveryAttemptWaits` | firmware/user/mqtt.c:304-311 | every attempt that is lost again is followed by the whole wait: five ticks are not enough, six are |
| `MqttDialling.PingsExactly` | firmware/user/mqtt.c:278-302 | from an attempt on the number of PINGREQs is exactly the session ticks divided by keepalive + 1 |
| `MqttDialling.FreshCounts` | firmware/user/mqtt.c:520-586 | a fresh client counts its PINGREQs and its first wait from zero in the same way |
| `MqttDialling.AttemptsAreNotTimed` | firmware/user/mqtt.c:456-489 | an attempt to connect has no timeout: over any run of ticks and tasks the client goes on waiting |
| `ConfigFlash.Chip.Save` | firmware/user/config.c:45-67 | erase and write of the spare slot, then of the flag, under a power failure in any of the four operations that leaves anything at all in the sector |
| `ConfigFlash.Chip.Load` | firmware/user/config.c:72-89 | the slot the flag selects, or the defaults, saved, when it is unmarked or they are asked for |
| `ConfigFlash.SaveIsAtomic` | firmware/user/config.c:45-67 | the next boot reads the old configuration or the new one, and the new one once the save is complete |
| `ConfigFlash.NeverMixedNeverOlder` | firmware/user/config.c:45-89 | over every run of saves and boots with power failing anywhere, the flash shows one configuration ever begun, whole, and none older than the last completed save |
| `ConfigFlash.ShownNeverGoesBack` | firmware/user/config.c:45-89 | what the flash shows never goes back to an earlier save |
| `ConfigFlash.NeverFallsBackAgain` | firmware/user/config.c:85 | once a marked configuration is shown no later boot falls back to the defaults unless told to |
| `ConfigFlash.InterruptedDefaults` | firmware/user/config.c:273-276 | a boot that loses power while saving the defaults is repeated by the next, or the defaults are in place |
| `ConfigFlash.FirstBootSettles` | firmware/user/config.c:85-279 | a boot without a marked configuration, or told to, puts the defaults in place if power lasts, and every later boot finds them and writes nothing |
| `PwmSchedule.TicksAreFivePerMicrosecond` | firmware/user/pwm.c:40-45 | every branch of the tick conversion is five ticks a microsecond |
| `PwmTimer.PulseWithinPeriod` | firmware/user/pwm.c:97-103 | in the 16-bit fields no duty is no tick and full duty the whole period, for every period; any duty is at most the period as long as the period itself does not wrap |
| `PwmSchedule.InsertSort` | firmware/user/pwm.c:61-85 | the result is sorted and a permutation |
| `PwmSchedule.Combine` | firmware/user/pwm.c:112-124 | strictly increasing times with, at every time, exactly the pins set and cleared there before |
| `PwmSchedule.Differences` | firmware/user/pwm.c:126-129 | the times become differences whose running sums are the times |
| `PwmTimer.Built` | firmware/user/pwm.c:95-144 | sorting, merging, differencing and the last two steps make a schedule with positive loads that sum to the longest 16-bit time and masks that raise at the period and end each pulse |
| `PwmTimer.BuildSchedule` | firmware/user/pwm.c:95-144 | steps 1 to 6, in place, make such a schedule for every period the 16-bit field can hold, any number of channels and any duties |
| `PwmTimer.Pwm.SetFreq` | firmware/user/pwm.c:192-204 | the frequency is clamped to 1..500 and the period is never 0 |
| `PwmTimer.Pwm.SetDuty` | firmware/user/pwm.c:174-184 | exactly one duty changes, to the clamped value |
| `PwmTimer.Pwm.PwmStart` | firmware/user/pwm.c:87-165 | the buffer not last filled gets the schedule for the current duties, with times wrapped to 16 bits; a stopped timer starts on it |
| `PwmTimer.Pwm.Interrupted` | firmware/user/pwm.c:256-285 | the handler moves to the next entry, and at a period end to the buffer last filled |
| `PwmWave.InterruptOpensPeriod` | firmware/user/pwm.c:261-276 | the interrupt at a period end gives the pins their starting levels and loads the first entry of the schedule last filled |
| `PwmWave.PeriodIsExact` | firmware/user/pwm.c:256-285 | for all 16-bit times a period lasts exactly the longest time of its schedule and drives every pin for an exactly given number of ticks; that is the period and the pulse asked for when no pulse is above the period, zero, full and equal duties alike |
| `PwmWave.PeriodSettles` | firmware/user/pwm.c:256-285 | after one whole period of a schedule the pins follow it, whatever levels they had at its start |
| `PwmWave.ConstantLevels` | firmware/user/pwm.c:274-276 | a schedule of one entry stops the timer with each pin at the level its duty asks for |
| `PwmTimer.WalkedBufferIsNeverWritten` | firmware/user/pwm.c:92-93 | over every run with at most one pwm_start a period, the schedule being walked changes only at a period end or when the timer is stopped |
| `PwmTimer.SecondStartOverwrites` | firmware/user/pwm.c:92-93 | with the timer running, pwm_start spares the schedule being walked if and only if it is the first of the period |
| `PwmTimer.StartWaitsForPeriodEnd` | firmware/user/pwm.c:160-164 | inside a period pwm_start commutes with the interrupt |
| `PwmTimer.StartWhenStopped` | firmware/user/pwm.c:146-158 | pwm_start on a stopped timer begins such a run |
| `PwmWave.FrequencyIsKept` | firmware/user/pwm.c:203 | a running period lasts 5 * (1000000 / f) ticks if and only if f is at least 77 Hz, and then every pin is high for exactly its share |
| `PwmWave.AtFiftyHertz` | firmware/user/user_main.c:561 | at the 50 Hz this firmware sets, with half duty, the period is 50195 ticks instead of 100000 and the pin is never lowered |
| `PwmRuns.StartIsDeferred` | firmware/user/pwm.c:87-165 | pwm_start while an earlier entry of a period is running and the interrupts after it give the same state as pwm_start while a later one is running |
| `PwmRuns.StartAsks` | firmware/user/pwm.c:87-165 | from 77 Hz up what pwm_start builds is a schedule of the kind the run theorem is about, for any duties |
| `PwmRuns.PeriodEnds` | firmware/user/pwm.c:261-276 | the interrupt at any period end begins a proper period of the schedule last filled, or puts the timer to rest with every pin at its level |
| `PwmRuns.EveryPeriodIsExact` | firmware/user/pwm.c:87-285 | over any number of periods and stops, with at most one pwm_start at any point of each: every period is exact for the duties of the last pwm_start before it, a stopped timer holds its levels, and the first period after a stop or a cold start has the right length and the high times FirstHigh |
| `JsmnTokenizer.Tokenizer.AddToken` | firmware/user/jsmn.c:10-34 | a token is taken from the array, or none when it is full |
| `JsmnTokenizer.Tokenizer.ParsePrimitive` | firmware/user/jsmn.c:39-83 | the primitive ends where the abstract scan ends it, or the position is restored |
| `JsmnTokenizer.Tokenizer.ParseString` | firmware/user/jsmn.c:88-150 | the string ends where the abstract scan ends it, escapes and hex digits included, or the position is restored |
| `JsmnTokenizer.Tokenizer.Close` | firmware/user/jsmn.c:186-231 | a closing bracket closes the last open token if its type matches |
| `JsmnTokenizer.Tokenizer.Parse` | firmware/user/jsmn.c:155-302 | the nested loops over the token array have the result and the state of the abstract tokenizer, whatever each comma outside a container finds in front of the array |
| `JsmnProofs.StepRefinesStack` | firmware/user/jsmn.c:162-292 | one character by backward scans is one character by an explicit bracket stack |
| `JsmnProofs.ParseRefinesStack` | firmware/user/jsmn.c:155-302 | on every input and from every reachable state the backward scans give the tokens, super token and result of a tokenizer with a stack, and toksuper is a token whenever a container is open |
| `JsmnProofs.ParseIsWellNested` | firmware/user/jsmn.c:155-302 | token starts strictly increase, ranges are nested or disjoint and delimited by their kind's characters, and success leaves nothing open |
| `JsmnProofs.FreshCall` | firmware/user/jsmn.c:155-302 | both theorems for the first call of a fresh parser, whose result on success is the number of tokens, all closed |
| `JsmnTrees.ValueIsTokenized` | firmware/user/jsmn.c:155-302 | for every JSON value, with blanks and escapes, the first call on its text gives exactly its nodes in preorder with their kinds, ranges and sizes: rows of a container, one for a key, none for other leaves |
| `JsmnTrees.RoomForItsNodes` | firmware/user/jsmn.c:155-302 | a call on the text of a value runs out of tokens if and only if it has fewer than the value has nodes, and the counting pass returns their number |
| `JsmnTrees.TokensShowTexts` | firmware/user/jsmn.c:155-302 | each of those tokens covers exactly the text of its node |
| `JsmnErrors.StringEndsExactly` | firmware/user/jsmn.c:88-150 | a string ends at q if and only if an unescaped quote stands there and what lies between is a JSON string with the eight simple and the hex escapes |
| `JsmnErrors.StringErrorsExactly` | firmware/user/jsmn.c:88-150 | a string that is not accepted is PART if and only if some text behind it would complete it, and INVAL if and only if none would |
| `JsmnErrors.PrimitiveEndsExactly` | firmware/user/jsmn.c:39-83 | a primitive ends at the first of the literal stop characters, if every character before is printable |
| `JsmnProofs.LargerRunPassesThrough` | firmware/user/jsmn.c:173-175 | a run with more room passes through the state in which a smaller one ran out |
| `JsmnProofs.ResumeAfterNomem` | firmware/user/jsmn.c:102-109 | calling again after NOMEM with a larger array ends like one call with it, and the count returned leaves out exactly the tokens already filled |
| `JsmnProofs.CountAgrees` | firmware/user/jsmn.c:170-171 | filling and counting agree at every point |
| `JsmnProofs.CountingPassSizesTheArray` | firmware/user/jsmn.c:155-302 | the counting pass returns n whenever a filling call does, and n tokens never run out |
| `Schedule.AtoiReadsBack` | firmware/user/cgithermostat.c:220 | converting a 16-bit number to text and back is the identity |
| `Schedule.PrintSlots` | firmware/user/cgithermostat.c:248-252 | the inner printing loop writes exactly the slots in use, separated by commas |
| `Schedule.PrintWeek` | firmware/user/cgithermostat.c:244-255 | the printing branch writes the seven days under the literal names mon to sun, in order, with commas between them |
| `Schedule.StoreSlots` | firmware/user/cgithermostat.c:212-237 | the slot loop stores three numbers and a mark for each seven tokens, at most eight, and ends the list |
| `Schedule.ScheduleStore.Save` | firmware/user/cgithermostat.c:176-237 | a post is saved exactly when it parses to an object whose second token is one of the literal names mon to sun; then only that day changes, its slots being the numbers of tokens 3 + 7k + 2, 4 and 6 with a mark each and a cleared mark behind them; otherwise the week is unchanged |
| `ScheduleRoundTrip.PostedTokens` | firmware/user/cgithermostat.c:181-184 | a posted day of n slots is exactly 3 + 7n tokens, at most 59, with the name and each number where the save looks for it |
| `ScheduleRoundTrip.WeekIsShown` | firmware/user/cgithermostat.c:244-255 | jsmn on the printed week of any numbers finds every day under its literal name, with the keys s, e, sp and the numbers of its slots in use, and nothing else |
| `ScheduleRoundTrip.SavedDayIsPrinted` | firmware/user/cgithermostat.c:213-237 | saving the tokens of a printed day gives its slots back |
| `ScheduleRoundTrip.PrintThenSave` | firmware/user/cgithermostat.c:176-255 | for any day and any 16-bit numbers, printing it, wrapping it in braces and saving it through jsmn gives a day with the same slots in use and changes no other day |
| `EspFs.ImageWriter.HandleFile` | firmware/mkespfsimage/main.c:81-131 | header, padded name, data and zero padding are written, and nothing for an empty file |
| `EspFs.ImageWriter.FinishArchive` | firmware/mkespfsimage/main.c:134-143 | the last header is written |
| `EspFs.ImageWriter.WriteImage` | firmware/mkespfsimage/main.c:178-202 | the files in order, under their names without a leading dot and slash, and the last header |
| `EspFs.ListedPathIsFound` | firmware/mkespfsimage/main.c:185-187 | a file listed as ./name is stored under the name that opening /name looks up |
| `EspFs.BytesOfWord` | firmware/user/espfs.c:90-95 | shifting a little-endian word by its byte offset gives that byte |
| `EspFs.MemcpyAligned` | firmware/user/espfs.c:86-98 | aligned word reads copy exactly the bytes asked for, at every alignment |
| `EspFs.EspFsOpen` | firmware/user/espfs.c:102-167 | the walk over headers finds what the abstract search finds |
| `EspFs.SearchStep` | firmware/user/espfs.c:115-166 | one header of an image is recognised, its name compared exactly, and the next header found |
| `EspFs.ArchiveRoundTrip` | firmware/user/espfs.c:102-167 | in the image of any files, with anything behind it, opening a name without its leading slashes finds the content of the first non-empty file so named, and the end of the image if and only if there is none |
| `EspFs.ListedFileOpens` | firmware/mkespfsimage/main.c:178-202 | from listing to reading: opening /name on the image made of any listed paths finds the content of the file listed as ./name, if it is not empty and not listed before |
| `EspFs.EspFsFile.Read` | firmware/user/espfs.c:170-185 | a read returns the next bytes of the content, as many as asked for or as are left |
| `EspFs.ReadsConcatenate` | firmware/user/espfs.c:170-185 | reads of any sizes concatenate to the content, up to the bytes asked for |
| `Template.TplData.TakeTokenByte` | firmware/user/httpdespfs.c:139-156 | inside a token a byte is collected up to 63, and a percent sign ends it |
| `Template.TplData.ExpandChunk` | firmware/user/httpdespfs.c:123-160 | the run-collecting loop sends and calls exactly what the byte-by-byte expander emits, and ends in its mode |
| `Template.TplData.Serve` | firmware/user/httpdespfs.c:90-171 | the calls that serve a file emit its expansion and one last callback, in one call more than whole chunks |
| `Template.ExpandOfConcat` | firmware/user/httpdespfs.c:123-160 | the expander may be stopped and resumed between any two bytes |
| `Template.ChunksDoNotMatter` | firmware/user/httpdespfs.c:123-160 | expanding any chunks in turn is expanding the file at once |
| `Template.ReadThenWrite` | firmware/user/httpdespfs.c:128-156 | every file is the source of the page read from it |
| `Template.WriteThenRead` | firmware/user/httpdespfs.c:128-156 | every page is read back from its source: a file has exactly one reading |
| `Template.TemplateMeaning` | firmware/user/httpdespfs.c:123-160 | over any chunks, a template expands to the meaning of its pieces: text, percent signs, and names cut to 63 bytes; an unfinished token is dropped |
| `Calendar.GetYear` | firmware/user/time_utils.c:20-27 | the year loop splits the time into whole years and at most one year of seconds |
| `Calendar.GetMonth` | firmware/user/time_utils.c:29-37 | the month loop stays inside the calendar array and splits off whole months |
| `Calendar.LocalDate` | firmware/user/thermostat.c:54-58 | the reported date counts the right day, possibly as the day after the last of a month |
| `Calendar.JulianDayCountsDays` | firmware/user/thermostat.c:16-26 | the weekday formula is the day count plus a constant, one less from March 2100 on |
| `Calendar.WeekdayIsRight` | firmware/user/thermostat.c:16-26 | over every 32-bit time the weekday is (t / 86400 + 3) mod 7 if and only if t is at most 2 March 2100, 00:00:00 |
| `Calendar.OneDateForADay` | firmware/user/time_utils.c:20-37 | different dates have different day numbers |
| `Calendar.DateIsRight` | firmware/user/time_utils.c:20-37 | over every 32-bit time the reported date is the civil date if and only if it is before March 2100 and not the first second of a month, the epoch aside |

## Left out

- RingBuffer.Ring.Put: is one step; the comments in the source ask for atomicity between interrupt and main code, which is not modelled.
- MqttMessage.ReadLength: adds up a length field of more than four bytes, which MQTT does not allow and on which the C shift overflows, without bound.
- MqttReceive.Unpack: does not model the acknowledgements queued for QoS 1 and 2 or the ids read for them; `mqtt_get_id` skips the two id bytes of a PUBLISH before reading, so those ids are not the packet's. In a run they appear as `Acknowledged` events with any message.
- MqttMessage.Connection.Publish: takes the topic and payload as byte sequences; a null topic is the empty one.
- MqttClient.Client.Received: leaves out the log messages, and the replies that a segment makes the client queue: those to PUBLISH at QoS 1 and 2, PUBREC, PUBREL and PINGREQ (mqtt.c:179-220). In a run they appear as `Acknowledged` events with any message.
- MqttClient.Client.Connected: reads the pending message id nowhere, as nothing but log messages depends on it.
- ConfigFlash.Chip.Save: assumes that what a failed operation leaves in a sector reads the same at every later boot, and that a sector holds its content until it is erased.
- PwmTimer.Pwm.PwmStart: has pin sets and counters of any size; the code's 16-bit masks hold pins 0 to 15, and its int8 and uint8 counters would do for more channels than that.
- PwmRuns.EveryPeriodIsExact: is about schedules in which no pulse is above the period, which StartAsks gives from 77 Hz up; below that PeriodIsExact and PeriodSettles describe each period.
- Schedule.ScheduleStore.Save: takes the conversion `atoi` as a parameter, of which the round trip needs only that it reads 16-bit numbers back (AtoiReadsBack shows one that does); it does not model the fixed-size text buffers, the flash save that follows, or what a token left unset holds.
- ScheduleRoundTrip.PrintThenSave: is about one printed day in braces, the form the save path expects; the printed week is read back by WeekIsShown, but never posted as a whole.
- EspFs.EspFsOpen: covers uncompressed files; reading outside the image is reported as a broken image, and length fields above the signed range, which the writer never produces, are taken as unsigned. Heatshrink's sources are not part of this model.
- EspFs.ImageWriter.WriteImage: starts from the listed names and their content; opening and mapping the files is not modelled.
- Template.TplData.Serve: assumes that every `httpdSend` finds room in the response buffer; opening the file in the first call and a connection that is closed halfway are not modelled.
- The unsubscribe message, which is sent with the type of a subscribe, and the subscribe, acknowledgement and ping response encoders: they add only simpler uses of the same helpers.
- `ds_init`, whose device count falls through a switch, and the polling of the sensors.
- GPIO, I2C, SPI and UART timing, sensor scaling, the OLED display, the HTTP request parser, the captive DNS server, base64 and the CGI form handlers.
- Delays, Wi-Fi and lwIP: the SDK appears only through the events and outputs of the client.
