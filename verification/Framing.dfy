// The byte-stuffed framing of firmware/user/proto.c.
//
// A frame is 0x7E, the stuffed message, 0x7F; bytes 0x7D..0x7F inside a message are sent as
// 0x7D followed by the byte with bit 5 flipped.
module Framing {
  import opened Bytes
  import opened RingBuffer
  import opened Wrappers

  const ESCAPE: Byte := 0x7D
  const BEGIN: Byte := 0x7E
  const END: Byte := 0x7F

  type Message = seq<Byte>

  // ------------------------------------------------------------------ encoding

  predicate Reserved(b: Byte) {
    b == ESCAPE || b == BEGIN || b == END
  }

  function StuffByte(b: Byte): seq<Byte> {
    if Reserved(b) then [ESCAPE, Flip(b)] else [b]
  }

  function Stuff(m: Message): seq<Byte> {
    if m == [] then [] else StuffByte(m[0]) + Stuff(m[1..])
  }

  function Frame(m: Message): (f: seq<Byte>)
    ensures |f| >= 2
  {
    [BEGIN] + Stuff(m) + [END]
  }

  // The bytes of a frame: the message between 0x7E and 0x7F, with 0x7D in front of the flipped byte
  // wherever one of the three occurs in it.
  lemma {:induction false} FrameBytes(m: Message, b: Byte)
    ensures Frame([]) == [0x7E, 0x7F]
    ensures Frame(m + [b]) == Frame(m)[..|Frame(m)| - 1]
                              + (if 0x7D <= b <= 0x7F then [0x7D, ((b as bv8) ^ 0x20) as Byte] else [b]) + [0x7F]
  {
    FlipIsXor(b);
    StuffOneMore(m, b);
  }

  lemma {:induction false} StuffOneMore(m: Message, b: Byte)
    ensures Stuff(m + [b]) == Stuff(m) + StuffByte(b)
    decreases |m|
  {
    hide StuffByte;
    if m == [] {
      assert (m + [b])[1..] == [];
    } else {
      assert (m + [b])[1..] == m[1..] + [b];
      StuffOneMore(m[1..], b);
    }
  }

  lemma {:induction false} StuffLength(m: Message)
    ensures |m| <= |Stuff(m)| <= 2 * |m|
  {
    if m != [] {
      StuffLength(m[1..]);
    }
  }

  lemma {:induction false} StuffHasNoDelimiter(m: Message)
    ensures BEGIN !in Stuff(m) && END !in Stuff(m)
  {
    if m != [] {
      StuffHasNoDelimiter(m[1..]);
    }
  }

  function Room(content: seq<Byte>, size: nat): nat
  {
    if |content| <= size then size - |content| else 0
  }

  // As much of `bytes` as the ring has room for.
  function Clip(content: seq<Byte>, size: nat, bytes: seq<Byte>): seq<Byte> {
    if |bytes| <= Room(content, size) then content + bytes
    else content + bytes[..Room(content, size)]
  }

  predicate Fits(content: seq<Byte>, size: nat, m: Message) {
    |Frame(m)| <= Room(content, size)
  }

  function AfterPut(content: seq<Byte>, size: nat, m: Message): seq<Byte> {
    Clip(content, size, Frame(m))
  }

  lemma ClipMore(content: seq<Byte>, size: nat, a: seq<Byte>, b: seq<Byte>)
    requires |content| <= size
    ensures |a| <= Room(content, size) ==> Clip(content + a, size, b) == Clip(content, size, a + b)
    ensures |a| > Room(content, size) ==> Clip(content, size, a + b) == Clip(content, size, a)
  {
    var room := Room(content, size);
    if |a| > room {
      assert (a + b)[..room] == a[..room];
    } else {
      assert (content + a) + b == content + (a + b);
      if |a + b| > room {
        assert content + (a + b)[..room] == (content + a) + b[..room - |a|];
      }
    }
  }

  // One message byte: the escape and the flipped byte, or the byte itself.
  method AddByte(rb: Ring, b: Byte) returns (r: int)
    requires rb.Valid()
    modifies rb, rb.data
    ensures rb.Valid()
    ensures rb.Contents() == Clip(old(rb.Contents()), rb.data.Length, StuffByte(b))
    ensures r == if |StuffByte(b)| <= Room(old(rb.Contents()), rb.data.Length) then |StuffByte(b)| else -1
  {
    if b == 0x7D || b == 0x7E || b == 0x7F {
      ClipMore(rb.Contents(), rb.data.Length, [ESCAPE], [Flip(b)]);
      assert StuffByte(b) == [ESCAPE] + [Flip(b)];
      var s := rb.Put(0x7D);
      if s == -1 { return -1; }
      s := rb.Put(Flip(b));
      if s == -1 { return -1; }
      return 2;
    }
    var s := rb.Put(b);
    if s == -1 { return -1; }
    return 1;
  }

  lemma NextStuffed(m: Message, n: nat, sent: seq<Byte>)
    requires n < |m|
    ensures sent + Stuff(m[n..]) == (sent + StuffByte(m[n])) + Stuff(m[n + 1..])
  {
    assert m[n..][1..] == m[n + 1..];
  }

  // The bytes of the packet, one after another until one is refused.
  method AddBytes(rb: Ring, packet: Message) returns (r: int)
    requires rb.Valid()
    modifies rb, rb.data
    ensures rb.Valid()
    ensures rb.Contents() == Clip(old(rb.Contents()), rb.data.Length, Stuff(packet))
    ensures r == if |Stuff(packet)| <= Room(old(rb.Contents()), rb.data.Length) then |Stuff(packet)| else -1
  {
    ghost var before, size := rb.Contents(), rb.data.Length;
    ghost var sent := [];
    r := 0;
    var n := 0;
    while n < |packet|
      invariant 0 <= n <= |packet|
      invariant rb.Valid() && r == |sent| <= Room(before, size)
      invariant sent + Stuff(packet[n..]) == Stuff(packet)
      invariant rb.Contents() == before + sent
    {
      ghost var b, rest := StuffByte(packet[n]), Stuff(packet[n + 1..]);
      NextStuffed(packet, n, sent);
      ClipMore(before, size, sent, b);
      ClipMore(before, size, sent + b, rest);
      var s := AddByte(rb, packet[n]);
      if s == -1 { return -1; }
      sent := sent + b;
      r, n := r + s, n + 1;
    }
    assert sent == Stuff(packet);
  }

  // The value of a 16-bit count returned as a signed 16-bit number.
  function AsI16(n: nat): (r: int)
    ensures -0x8000 <= r < 0x8000 && (n - r) % 0x10000 == 0
  {
    var w := n % 0x10000;
    if w < 0x8000 then w else w - 0x10000
  }

  // PROTO_AddRb, whose packet length is a signed 16-bit number.
  method AddRb(rb: Ring, packet: Message) returns (r: int)
    requires rb.Valid() && |packet| <= 0x7FFF
    modifies rb, rb.data
    ensures rb.Valid()
    ensures rb.Contents() == AfterPut(old(rb.Contents()), rb.data.Length, packet)
    ensures r == if Fits(old(rb.Contents()), rb.data.Length, packet) then AsI16(|Frame(packet)|) else -1
  {
    hide Stuff;
    ClipMore(rb.Contents(), rb.data.Length, [BEGIN], Stuff(packet) + [END]);
    assert Frame(packet) == [BEGIN] + (Stuff(packet) + [END]);
    var s := rb.Put(BEGIN);
    if s == -1 { return -1; }
    ClipMore(rb.Contents(), rb.data.Length, Stuff(packet), [END]);
    var n := AddBytes(rb, packet);
    if n == -1 { return -1; }
    s := rb.Put(END);
    if s == -1 { return -1; }
    return AsI16(n + 2);
  }

  // ------------------------------------------------------------------ the parser

  datatype Parser = Parser(escaped: bool, begun: bool, data: Message)

  // One byte through PROTO_ParseByte; `done` is its zero result.
  datatype Parsed = Parsed(parser: Parser, done: bool)

  function ParseByte(p: Parser, b: Byte, limit: nat): Parsed {
    if b == ESCAPE then Parsed(p.(escaped := true), false)
    else if b == BEGIN then Parsed(Parser(false, true, []), false)
    else if b == END then Parsed(p.(begun := false), true)
    else if !p.begun then Parsed(p, false)
    else
      var v := if p.escaped then Flip(b) else b;
      Parsed(Parser(false, true, if |p.data| < limit then p.data + [v] else p.data), false)
  }

  // What a parser that is given the bytes one by one hands to its callback.
  datatype Fed = Fed(parser: Parser, messages: seq<Message>)

  function Feed(p: Parser, bytes: seq<Byte>, limit: nat): Fed {
    if bytes == [] then Fed(p, [])
    else
      var before := Feed(p, bytes[..|bytes| - 1], limit);
      var one := ParseByte(before.parser, bytes[|bytes| - 1], limit);
      Fed(one.parser, if one.done then before.messages + [one.parser.data] else before.messages)
  }

  // Bytes taken until a frame ends, or all of them.
  datatype Got = Got(message: Option<Message>, rest: seq<Byte>)

  function Scan(content: seq<Byte>, p: Parser, limit: nat): Got
    decreases |content|
  {
    if content == [] then Got(None, [])
    else
      var parsed := ParseByte(p, content[0], limit);
      if parsed.done then Got(Some(parsed.parser.data), content[1..])
      else Scan(content[1..], parsed.parser, limit)
  }

  lemma ScanOne(c: Byte, rest: seq<Byte>, p: Parser, limit: nat)
    ensures var parsed := ParseByte(p, c, limit);
            Scan([c] + rest, p, limit) ==
            if parsed.done then Got(Some(parsed.parser.data), rest) else Scan(rest, parsed.parser, limit)
  {
    assert ([c] + rest)[1..] == rest;
  }

  lemma ScanNothing(p: Parser, limit: nat)
    ensures Scan([], p, limit) == Got(None, [])
  {
  }

  // PROTO_ParseRb; its parser is a local whose isBegin field is never set, so it is a parameter.
  function AfterGet(content: seq<Byte>, isBegin: bool, limit: nat): Got {
    Scan(content, Parser(false, isBegin, []), limit)
  }

  class ProtoParser {
    const buf: array<Byte>
    const bufSize: nat
    var dataLen: nat
    var isEsc: bool
    var isBegin: bool

    ghost predicate Valid()
      reads this
    {
      dataLen <= bufSize <= buf.Length
    }

    ghost function View(): Parser
      requires Valid()
      reads this, buf
    {
      Parser(isEsc, isBegin, buf[..dataLen])
    }

    // PROTO_Init leaves isBegin as it finds it.
    constructor (buf: array<Byte>, bufSize: nat, isBegin: bool)
      requires bufSize <= buf.Length
      ensures Valid() && this.buf == buf && this.bufSize == bufSize
      ensures View() == Parser(false, isBegin, [])
    {
      this.buf, this.bufSize, this.isBegin := buf, bufSize, isBegin;
      dataLen, isEsc := 0, false;
    }

    method ParseOne(b: Byte) returns (r: int)
      requires Valid()
      modifies this, buf
      ensures Valid()
      ensures Parsed(View(), r == 0) == ParseByte(old(View()), b, bufSize)
    {
      var value := b;
      r := -1;
      if value == 0x7D {
        isEsc := true;
      } else if value == 0x7E {
        dataLen, isEsc, isBegin := 0, false, true;
      } else if value == 0x7F {
        isBegin := false;
        r := 0;
      } else if isBegin {
        if isEsc {
          value := Flip(value);
          isEsc := false;
        }
        if dataLen < bufSize {
          buf[dataLen] := value;
          dataLen := dataLen + 1;
        }
      }
    }

    // PROTO_Parse; what the callback sees in the buffer is collected in `messages`.
    method Parse(bytes: seq<Byte>) returns (messages: seq<Message>)
      requires Valid()
      modifies this, buf
      ensures Valid()
      ensures Fed(View(), messages) == Feed(old(View()), bytes, bufSize)
    {
      hide ParseByte;
      messages := [];
      for i := 0 to |bytes|
        invariant Valid()
        invariant Fed(View(), messages) == Feed(old(View()), bytes[..i], bufSize)
      {
        assert bytes[..i + 1][..i] == bytes[..i];
        var done := ParseOne(bytes[i]);
        if done == 0 {
          messages := messages + [buf[..dataLen]];
        }
      }
      assert bytes[..|bytes|] == bytes;
    }
  }

  // PROTO_ParseRb
  method ParseRb(rb: Ring, bufOut: array<Byte>, maxBufLen: nat, isBegin: bool) returns (r: int, len: nat)
    requires rb.Valid() && bufOut != rb.data && maxBufLen <= bufOut.Length
    modifies rb, bufOut
    ensures rb.Valid()
    ensures var got := AfterGet(old(rb.Contents()), isBegin, maxBufLen);
            && rb.Contents() == got.rest
            && r == (if got.message.Some? then 0 else -1)
            && (r == 0 ==> len <= maxBufLen && bufOut[..len] == got.message.value)
  {
    hide ParseByte, Scan, Ring.Contents;
    ghost var before := rb.Contents();
    var proto := new ProtoParser(bufOut, maxBufLen, isBegin);
    var s, c := rb.Get();
    while s == 0
      invariant rb.Valid() && proto.Valid() && proto.buf == bufOut && proto.bufSize == maxBufLen
      invariant fresh(proto)
      invariant s == 0 || s == -1
      invariant s == -1 ==> rb.Contents() == []
      invariant AfterGet(before, isBegin, maxBufLen)
             == Scan(if s == 0 then [c] + rb.Contents() else [], proto.View(), maxBufLen)
      decreases s, rb.fillCount
    {
      ScanOne(c, rb.Contents(), proto.View(), maxBufLen);
      var done := proto.ParseOne(c);
      if done == 0 {
        return 0, proto.dataLen;
      }
      s, c := rb.Get();
    }
    ScanNothing(proto.View(), maxBufLen);
    return -1, 0;
  }

  // ------------------------------------------------------------------ a parser on a line

  // A frame, and what comes behind it before the next frame begins.
  datatype Piece = Piece(message: Message, stray: seq<Byte>)

  function Line(pieces: seq<Piece>): seq<Byte> {
    if pieces == [] then []
    else
      var last := pieces[|pieces| - 1];
      Line(pieces[..|pieces| - 1]) + (Frame(last.message) + last.stray)
  }

  // The first `limit` bytes of a message.
  function Cut(m: Message, limit: nat): Message {
    if |m| <= limit then m else m[..limit]
  }

  // Every frame reports its message, and so does every END that strays behind it.
  function Reported(pieces: seq<Piece>, limit: nat): seq<Message> {
    if pieces == [] then []
    else
      var last := pieces[|pieces| - 1];
      var message := Cut(last.message, limit);
      Reported(pieces[..|pieces| - 1], limit) + [message] + seq(multiset(last.stray)[END], _ => message)
  }

  lemma {:induction false} FeedConcat(p: Parser, a: seq<Byte>, b: seq<Byte>, limit: nat)
    ensures var first := Feed(p, a, limit);
            var second := Feed(first.parser, b, limit);
            Feed(p, a + b, limit) == Fed(second.parser, first.messages + second.messages)
    decreases |b|
  {
    hide ParseByte;
    if b == [] {
      assert a + b == a;
    } else {
      assert (a + b)[..|a + b| - 1] == a + b[..|b| - 1];
      FeedConcat(p, a, b[..|b| - 1], limit);
    }
  }

  lemma {:induction false} FeedByte(p: Parser, b: Byte, limit: nat)
    ensures var one := ParseByte(p, b, limit);
            Feed(p, [b], limit) == Fed(one.parser, if one.done then [one.parser.data] else [])
  {
    hide ParseByte;
    assert [b][..0] == [];
  }

  lemma FeedNothing(p: Parser, limit: nat)
    ensures Feed(p, [], limit) == Fed(p, []) && Stuff([]) == []
  {
  }

  lemma {:induction false} FeedStuffed(m: Message, limit: nat)
    ensures Feed(Parser(false, true, []), Stuff(m), limit) == Fed(Parser(false, true, Cut(m, limit)), [])
    decreases |m|
  {
    hide Stuff, StuffByte, Feed, ParseByte;
    var p := Parser(false, true, []);
    if m == [] {
      FeedNothing(p, limit);
    } else {
      var some, b := m[..|m| - 1], m[|m| - 1];
      assert m == some + [b];
      FeedStuffed(some, limit);
      StuffOneMore(some, b);
      FeedConcat(p, Stuff(some), StuffByte(b), limit);
      FeedStuffedByte(Cut(some, limit), b, limit);
    }
  }

  lemma {:induction false} FeedStuffedByte(data: Message, b: Byte, limit: nat)
    ensures Feed(Parser(false, true, data), StuffByte(b), limit)
         == Fed(Parser(false, true, if |data| < limit then data + [b] else data), [])
  {
    var p := Parser(false, true, data);
    if Reserved(b) {
      assert StuffByte(b) == [ESCAPE] + [Flip(b)];
      FeedConcat(p, [ESCAPE], [Flip(b)], limit);
      FeedByte(p, ESCAPE, limit);
      FeedByte(p.(escaped := true), Flip(b), limit);
    } else {
      FeedByte(p, b, limit);
    }
  }

  lemma {:induction false} FeedFrame(p: Parser, m: Message, limit: nat)
    ensures Feed(p, Frame(m), limit) == Fed(Parser(false, false, Cut(m, limit)), [Cut(m, limit)])
  {
    hide Stuff;
    FeedConcat(p, [BEGIN] + Stuff(m), [END], limit);
    FeedConcat(p, [BEGIN], Stuff(m), limit);
    FeedByte(p, BEGIN, limit);
    FeedStuffed(m, limit);
    FeedByte(Parser(false, true, Cut(m, limit)), END, limit);
  }

  lemma {:induction false} FeedStray(p: Parser, stray: seq<Byte>, limit: nat)
    requires !p.begun && BEGIN !in stray
    ensures Feed(p, stray, limit).messages == seq(multiset(stray)[END], _ => p.data)
    ensures !Feed(p, stray, limit).parser.begun && Feed(p, stray, limit).parser.data == p.data
    decreases |stray|
  {
    if stray != [] {
      assert stray == stray[..|stray| - 1] + [stray[|stray| - 1]];
      FeedStray(p, stray[..|stray| - 1], limit);
    }
  }

  // A parser kept on a line, whatever it has seen before, reports the message of every frame, in order
  // and cut to its buffer.  Outside frames it takes nothing in, but every END there reports the last
  // message once more.
  lemma {:induction false} LineIsParsed(p: Parser, pieces: seq<Piece>, limit: nat)
    requires forall i :: 0 <= i < |pieces| ==> BEGIN !in pieces[i].stray
    ensures Feed(p, Line(pieces), limit).messages == Reported(pieces, limit)
    decreases |pieces|
  {
    hide Feed, ParseByte, Stuff;
    if pieces == [] {
      FeedNothing(p, limit);
    } else {
      var rest, last := pieces[..|pieces| - 1], pieces[|pieces| - 1];
      LineIsParsed(p, rest, limit);
      var q := Feed(p, Line(rest), limit).parser;
      FeedConcat(p, Line(rest), Frame(last.message) + last.stray, limit);
      FeedConcat(q, Frame(last.message), last.stray, limit);
      FeedFrame(q, last.message, limit);
      FeedStray(Parser(false, false, Cut(last.message, limit)), last.stray, limit);
    }
  }

  // ------------------------------------------------------------------ what the ring holds

  // A ring that only frames are put into: it starts with a frame, and so does whatever
  // follows an END.
  ghost predicate Framed(content: seq<Byte>) {
    && (content != [] ==> content[0] == BEGIN)
    && forall i :: 0 <= i < |content| - 1 && content[i] == END ==> content[i + 1] == BEGIN
  }

  // The messages a reader with an unlimited buffer takes from the content, oldest first.
  ghost function Decode(content: seq<Byte>, p: Parser): seq<Message>
    decreases |content|
  {
    if content == [] then []
    else if content[0] == END then [p.data] + Decode(content[1..], Parser(false, false, []))
    else Decode(content[1..], ParseByte(p, content[0], |p.data| + 1).parser)
  }

  const IDLE := Parser(false, false, [])

  ghost function Pending(content: seq<Byte>): seq<Message> {
    Decode(content, IDLE)
  }

  // Appending bytes without an END completes no message.
  lemma {:induction false} DecodeOpenTail(content: seq<Byte>, p: Parser, tail: seq<Byte>)
    requires END !in tail
    ensures Decode(content + tail, p) == Decode(content, p)
    decreases |content| + |tail|
  {
    if content == [] {
      assert content + tail == tail;
      if tail != [] {
        assert [] + tail[1..] == tail[1..];
        DecodeOpenTail([], ParseByte(p, tail[0], |p.data| + 1).parser, tail[1..]);
      }
    } else {
      assert (content + tail)[1..] == content[1..] + tail;
      var next := if content[0] == END then IDLE else ParseByte(p, content[0], |p.data| + 1).parser;
      DecodeOpenTail(content[1..], next, tail);
    }
  }

  lemma DecodeOneStuffed(b: Byte, rest: seq<Byte>, sofar: Message)
    ensures Decode(StuffByte(b) + rest, Parser(false, true, sofar)) == Decode(rest, Parser(false, true, sofar + [b]))
  {
    var p := Parser(false, true, sofar);
    var all := StuffByte(b) + rest;
    if Reserved(b) {
      assert all[1..][1..] == rest;
      var escaped := p.(escaped := true);
      assert ParseByte(p, all[0], |sofar| + 1).parser == escaped;
      assert ParseByte(escaped, all[1], |sofar| + 1).parser == Parser(false, true, sofar + [b]);
      assert Decode(all, p) == Decode(all[1..], escaped);
    } else {
      assert all[1..] == rest;
    }
  }

  // Once a frame has begun, the stuffed message followed by END decodes to what was stuffed.
  lemma {:induction false} DecodeStuffed(m: Message, sofar: Message)
    ensures Decode(Stuff(m) + [END], Parser(false, true, sofar)) == [sofar + m]
    decreases |m|
  {
    hide StuffByte;
    if m == [] {
      assert Stuff(m) + [END] == [END];
      assert sofar + m == sofar;
    } else {
      assert Stuff(m) + [END] == StuffByte(m[0]) + (Stuff(m[1..]) + [END]);
      DecodeOneStuffed(m[0], Stuff(m[1..]) + [END], sofar);
      DecodeStuffed(m[1..], sofar + [m[0]]);
      assert sofar + [m[0]] + m[1..] == sofar + m;
    }
  }

  lemma FrameAlone(p: Parser, m: Message)
    ensures Decode(Frame(m), p) == [m]
  {
    hide Stuff;
    assert Frame(m)[0] == BEGIN && Frame(m)[1..] == Stuff(m) + [END];
    DecodeStuffed(m, []);
    assert [] + m == m;
  }

  function NextParser(p: Parser, b: Byte): Parser {
    if b == END then IDLE else ParseByte(p, b, |p.data| + 1).parser
  }

  lemma DecodeByte(b: Byte, rest: seq<Byte>, p: Parser)
    ensures Decode([b] + rest, p) == (if b == END then [p.data] else []) + Decode(rest, NextParser(p, b))
  {
    assert ([b] + rest)[1..] == rest;
  }

  // A complete frame adds exactly its message at the end, whatever the bytes before it were:
  // the BEGIN drops an unfinished frame, so nothing is spliced.
  lemma {:induction false} DecodeFrame(content: seq<Byte>, p: Parser, m: Message)
    ensures Decode(content + Frame(m), p) == Decode(content, p) + [m]
    decreases |content|
  {
    hide Decode, Frame, NextParser;
    if content == [] {
      assert content + Frame(m) == Frame(m);
      FrameAlone(p, m);
      DecodeNothing(p);
    } else {
      var b, rest := content[0], content[1..];
      DecodeFrame(rest, NextParser(p, b), m);
      DecodeByte(b, rest, p);
      DecodeByte(b, rest + Frame(m), p);
      assert content == [b] + rest && content + Frame(m) == [b] + (rest + Frame(m));
    }
  }

  lemma DecodeNothing(p: Parser)
    ensures Decode([], p) == []
  {
  }

  lemma FramePart(m: Message, n: nat)
    requires n < |Frame(m)|
    ensures END !in Frame(m)[..n]
  {
    StuffHasNoDelimiter(m);
    assert Frame(m)[..n] == ([BEGIN] + Stuff(m))[..n];
  }

  // What a put adds: a frame or the beginning of one.
  lemma AddedPart(content: seq<Byte>, size: nat, m: Message)
    requires |content| <= size
    ensures var after := AfterPut(content, size, m);
            var n := if Fits(content, size, m) then |Frame(m)| else Room(content, size);
            n <= |Frame(m)| && after == content + Frame(m)[..n] && |after| <= size
  {
    hide Frame;
    assert Frame(m)[..|Frame(m)|] == Frame(m);
  }

  lemma FrameBegins(m: Message, n: nat)
    requires n <= |Frame(m)|
    ensures n > 0 ==> Frame(m)[..n][0] == BEGIN
    ensures forall k :: 0 <= k < n - 1 ==> Frame(m)[..n][k] != END
  {
    var f := Frame(m);
    FramePart(m, |f| - 1);
    var body := f[..|f| - 1];
    forall k | 0 <= k < n - 1 ensures f[..n][k] != END {
      assert f[..n][k] == body[k];
    }
  }

  // A put keeps the ring framed, and queues the whole message or none of it.
  lemma PutQueuesAllOrNothing(content: seq<Byte>, size: nat, m: Message)
    requires Framed(content) && |content| <= size
    ensures var after := AfterPut(content, size, m);
            && Framed(after) && |after| <= size
            && Pending(after) == Pending(content) + if Fits(content, size, m) then [m] else []
  {
    hide Frame, AfterPut, Fits, Decode;
    var n := if Fits(content, size, m) then |Frame(m)| else Room(content, size);
    AddedPart(content, size, m);
    FrameBegins(m, n);
    if Fits(content, size, m) {
      DecodeFrame(content, IDLE, m);
      assert Frame(m)[..n] == Frame(m);
    } else {
      RefusedIsShorter(content, size, m);
      FramePart(m, n);
      DecodeOpenTail(content, IDLE, Frame(m)[..n]);
    }
  }

  lemma RefusedIsShorter(content: seq<Byte>, size: nat, m: Message)
    requires !Fits(content, size, m)
    ensures Room(content, size) < |Frame(m)|
  {
  }

  // A refused put adds an unfinished frame and no END.
  ghost function Unfinished(content: seq<Byte>, size: nat, m: Message): (tail: seq<Byte>)
    requires !Fits(content, size, m)
    ensures END !in tail
    ensures AfterPut(content, size, m) == content + tail
  {
    FramePart(m, Room(content, size));
    Frame(m)[..Room(content, size)]
  }

  // The parser with a bounded buffer keeps the first `limit` bytes of the message.
  lemma {:induction false} ScanDecodes(content: seq<Byte>, p: Parser, q: Parser, limit: nat)
    requires p == q.(data := Cut(q.data, limit))
    ensures var got := Scan(content, p, limit);
            && (got.message.None? <==> END !in content)
            && (got.message.None? ==> got.rest == [] && Decode(content, q) == [])
            && (got.message.Some? ==>
                  && Decode(content, q) != []
                  && got.message.value == Cut(Decode(content, q)[0], limit)
                  && Decode(content, q)[1..] == Pending(got.rest))
    decreases |content|
  {
    if content != [] && content[0] != END {
      var p1 := ParseByte(p, content[0], limit).parser;
      var q1 := ParseByte(q, content[0], |q.data| + 1).parser;
      ScanDecodes(content[1..], p1, q1, limit);
    }
  }

  // The bytes a get removes: up to and including the first END, or everything.
  ghost function FirstEnd(content: seq<Byte>): (n: nat)
    ensures n <= |content| && END !in content[..n]
    ensures n < |content| ==> content[n] == END
  {
    if content == [] || content[0] == END then 0 else 1 + FirstEnd(content[1..])
  }

  lemma {:induction false} ScanStopsAtFirstEnd(content: seq<Byte>, p: Parser, limit: nat)
    ensures var e := FirstEnd(content);
            Scan(content, p, limit).rest == if e < |content| then content[e + 1..] else []
    decreases |content|
  {
    if content != [] && content[0] != END {
      ScanStopsAtFirstEnd(content[1..], ParseByte(p, content[0], limit).parser, limit);
    }
  }

  // On a framed ring a get returns the oldest complete message, byte-exact up to the caller's
  // buffer, and leaves the others; the uninitialised isBegin makes no difference.
  lemma GetTakesOldest(content: seq<Byte>, isBegin: bool, limit: nat)
    requires Framed(content)
    ensures var got := AfterGet(content, isBegin, limit);
            && Framed(got.rest)
            && got == AfterGet(content, !isBegin, limit)
            && got.rest == (if FirstEnd(content) < |content| then content[FirstEnd(content) + 1..] else [])
            && (got.message.Some? <==> FirstEnd(content) < |content|)
            && if Pending(content) == [] then got == Got(None, [])
               else got.message == Some(Cut(Pending(content)[0], limit)) && Pending(got.rest) == Pending(content)[1..]
  {
    var p := Parser(false, isBegin, []);
    ScanDecodes(content, IDLE, IDLE, limit);
    ScanStopsAtFirstEnd(content, p, limit);
    assert FirstEnd(content) == |content| <==> END !in content;
    if content != [] {
      var other := p.(begun := !isBegin);
      assert ParseByte(p, BEGIN, limit) == ParseByte(IDLE, BEGIN, limit) == ParseByte(other, BEGIN, limit);
    }
  }

  // Without the invariant the initial isBegin does matter: a byte left over in front of an END
  // is dropped or returned according to it.
  lemma UnframedContentDependsOnIsBegin()
    ensures !Framed([0x41, END])
    ensures AfterGet([0x41, END], true, 1).message == Some([0x41])
    ensures AfterGet([0x41, END], false, 1).message == Some([])
  {
    var content := [0x41, END];
    assert content[1..] == [END];
    assert Scan([END], Parser(false, true, [0x41]), 1) == Got(Some([0x41]), [END][1..]);
    assert Scan([END], Parser(false, false, []), 1) == Got(Some([]), [END][1..]);
    assert ParseByte(Parser(false, true, []), 0x41, 1).parser == Parser(false, true, [0x41]);
  }
}
