// The streaming template expander of firmware/user/httpdespfs.c: %name% asks the page's
// callback for a value, %% is a percent sign, everything else is sent as it is.
module Template {
  import opened Bytes
  import opened Wrappers

  const PERCENT: Byte := 0x25
  const TOKEN_SIZE := 64
  const CHUNK := 1024

  type Text = seq<Byte>

  // What the client sees, one byte or callback at a time.
  datatype Item = Raw(byte: Byte) | Field(name: Text) | End

  // What one call does; a Send is one httpdSend.
  datatype Output = Send(bytes: Text) | Callback(name: Text) | LastCallback

  function Raws(bytes: Text): (r: seq<Item>)
    ensures |r| == |bytes|
  {
    seq(|bytes|, i requires 0 <= i < |bytes| => Raw(bytes[i]))
  }

  function Items(outputs: seq<Output>): seq<Item> {
    if outputs == [] then []
    else
      Items(outputs[..|outputs| - 1]) + ItemsOf(outputs[|outputs| - 1])
  }

  // ------------------------------------------------------------------ one byte at a time

  // Between bytes the expander is in ordinary text or has collected part of a token.
  datatype Mode = InText | InToken(name: Text)

  // As much of a name as the token buffer holds.
  function Kept(name: Text): Text {
    if |name| < TOKEN_SIZE then name else name[..TOKEN_SIZE - 1]
  }

  function NextMode(m: Mode, b: Byte): Mode {
    match m
    case InText => if b == PERCENT then InToken([]) else InText
    case InToken(name) => if b == PERCENT then InText else InToken(Kept(name + [b]))
  }

  function Emitted(m: Mode, b: Byte): seq<Item> {
    match m
    case InText => if b == PERCENT then [] else [Raw(b)]
    case InToken(name) =>
      if b != PERCENT then []
      else if name == [] then [Raw(PERCENT)]
      else [Field(name)]
  }

  function ModeAfter(m: Mode, bytes: Text): Mode {
    if bytes == [] then m else NextMode(ModeAfter(m, bytes[..|bytes| - 1]), bytes[|bytes| - 1])
  }

  function Expand(m: Mode, bytes: Text): seq<Item> {
    if bytes == [] then []
    else
      var before := bytes[..|bytes| - 1];
      Expand(m, before) + Emitted(ModeAfter(m, before), bytes[|bytes| - 1])
  }

  // A chunk boundary makes no difference, wherever it falls.
  lemma {:induction false} ExpandOfConcat(m: Mode, a: Text, b: Text)
    ensures ModeAfter(m, a + b) == ModeAfter(ModeAfter(m, a), b)
    ensures Expand(m, a + b) == Expand(m, a) + Expand(ModeAfter(m, a), b)
    decreases |b|
  {
    hide Emitted, NextMode;
    if b == [] {
      assert a + b == a;
    } else {
      assert (a + b)[..|a + b| - 1] == a + b[..|b| - 1];
      ExpandOfConcat(m, a, b[..|b| - 1]);
    }
  }

  function Joined(chunks: seq<Text>): Text {
    if chunks == [] then [] else Joined(chunks[..|chunks| - 1]) + chunks[|chunks| - 1]
  }

  // The chunks expanded one after another, each from the mode the one before ended in.
  function ExpandEach(m: Mode, chunks: seq<Text>): seq<Item> {
    if chunks == [] then []
    else
      var before := chunks[..|chunks| - 1];
      ExpandEach(m, before) + Expand(ModeAfter(m, Joined(before)), chunks[|chunks| - 1])
  }

  lemma {:induction false} ChunksDoNotMatter(m: Mode, chunks: seq<Text>)
    ensures ExpandEach(m, chunks) == Expand(m, Joined(chunks))
  {
    if chunks != [] {
      ChunksDoNotMatter(m, chunks[..|chunks| - 1]);
      ExpandOfConcat(m, Joined(chunks[..|chunks| - 1]), chunks[|chunks| - 1]);
    }
  }

  function ItemsOf(o: Output): seq<Item> {
    match o
    case Send(bytes) => Raws(bytes)
    case Callback(name) => [Field(name)]
    case LastCallback => [End]
  }

  lemma {:induction false} ItemsOfConcat(a: seq<Output>, b: seq<Output>)
    ensures Items(a + b) == Items(a) + Items(b)
    decreases |b|
  {
    hide ItemsOf;
    if b == [] {
      assert a + b == a;
    } else {
      assert (a + b)[..|a + b| - 1] == a + b[..|b| - 1];
      ItemsOfConcat(a, b[..|b| - 1]);
    }
  }

  lemma EmptyRuns(m: Mode)
    ensures Raws([]) == [] && Items([]) == [] && Expand(m, []) == [] && ModeAfter(m, []) == m
  {
  }

  lemma NextByte(m: Mode, buff: Text, x: nat)
    requires x < |buff|
    ensures ModeAfter(m, buff[..x + 1]) == NextMode(ModeAfter(m, buff[..x]), buff[x])
    ensures Expand(m, buff[..x + 1]) == Expand(m, buff[..x]) + Emitted(ModeAfter(m, buff[..x]), buff[x])
  {
    assert buff[..x + 1][..x] == buff[..x];
  }

  lemma LongerRun(buff: Text, e: nat, sp: nat)
    requires e + sp < |buff|
    ensures Raws(buff[e..e + sp + 1]) == Raws(buff[e..e + sp]) + [Raw(buff[e + sp])]
  {
  }

  lemma LastItem(out: seq<Output>)
    ensures Items(out + [LastCallback]) == Items(out) + [End]
  {
    assert (out + [LastCallback])[..|out|] == out;
  }

  function Sent(out: seq<Output>, bytes: Text): (r: seq<Output>)
    ensures Items(r) == Items(out) + Raws(bytes)
  {
    assert (out + [Send(bytes)])[..|out|] == out;
    out + [Send(bytes)]
  }

  // ------------------------------------------------------------------ the expander itself

  class TplData {
    const token: array<Byte>
    var tokenPos: int

    ghost predicate Valid()
      reads this
    {
      token.Length == TOKEN_SIZE && -1 <= tokenPos < TOKEN_SIZE
    }

    ghost function Mode(): Mode
      requires Valid()
      reads this, token
    {
      if tokenPos == -1 then InText else InToken(token[..tokenPos])
    }

    constructor ()
      ensures Valid() && fresh(token) && Mode() == InText
    {
      token := new Byte[TOKEN_SIZE];
      tokenPos := -1;
    }

    // A byte inside a token.
    method TakeTokenByte(c: Byte, ghost was: Mode) returns (out: seq<Output>)
      requires Valid() && tokenPos != -1 && was == Mode()
      modifies this, token
      ensures Valid() && Mode() == NextMode(was, c)
      ensures Items(out) == Emitted(was, c)
    {
      out := [];
      if c == PERCENT {
        if tokenPos == 0 {
          out := [Send([PERCENT])];
          assert Raws([PERCENT]) == [Raw(PERCENT)];
        } else {
          out := [Callback(token[..tokenPos])];
        }
        tokenPos := -1;
        assert out[..0] == [];
      } else if tokenPos < TOKEN_SIZE - 1 {
        token[tokenPos] := c;
        tokenPos := tokenPos + 1;
      }
    }

    // The loop of cgiEspFsTemplate over one chunk; text is sent in runs of sp bytes from e.
    method ExpandChunk(buff: Text) returns (out: seq<Output>)
      requires Valid()
      modifies this, token
      ensures Valid() && Mode() == ModeAfter(old(Mode()), buff)
      ensures Items(out) == Expand(old(Mode()), buff)
    {
      hide Expand, ModeAfter, Items;
      ghost var start := Mode();
      EmptyRuns(start);
      out := [];
      var e, sp, x := 0, 0, 0;
      assert buff[..0] == [];
      while x < |buff|
        invariant Valid() && 0 <= x <= |buff| && 0 <= sp && 0 <= e <= x && e + sp <= x
        invariant tokenPos == -1 ==> e + sp == x
        invariant tokenPos != -1 ==> sp == 0
        invariant Mode() == ModeAfter(start, buff[..x])
        invariant Items(out) + Raws(buff[e..e + sp]) == Expand(start, buff[..x])
      {
        NextByte(start, buff, x);
        ghost var was := Mode();
        if tokenPos == -1 {
          if buff[x] == PERCENT {
            if sp != 0 {
              out := Sent(out, buff[e..e + sp]);
            }
            sp := 0;
            tokenPos := 0;
          } else {
            LongerRun(buff, e, sp);
            sp := sp + 1;
          }
        } else {
          var more := TakeTokenByte(buff[x], was);
          ItemsOfConcat(out, more);
          out := out + more;
          if buff[x] == PERCENT {
            e := x + 1;
          }
        }
        x := x + 1;
      }
      assert buff[..x] == buff;
      if sp != 0 {
        out := Sent(out, buff[e..e + sp]);
      }
    }

    // The calls of cgiEspFsTemplate that serve one file: 1024 bytes each until a short read.
    method Serve(file: Text) returns (out: seq<Output>, calls: nat)
      requires Valid() && Mode() == InText
      modifies this, token
      ensures Valid()
      ensures Items(out) == Expand(InText, file) + [End]
      ensures calls == |file| / 1024 + 1
    {
      hide Expand, ModeAfter, Items;
      EmptyRuns(InText);
      out, calls := [], 0;
      var pos, len := 0, CHUNK;
      assert file[..0] == [];
      while len == CHUNK
        invariant Valid() && 0 <= pos <= |file|
        invariant Mode() == ModeAfter(InText, file[..pos]) && Items(out) == Expand(InText, file[..pos])
        invariant if len == CHUNK then pos == CHUNK * calls else pos == |file| && calls == |file| / CHUNK + 1
        decreases len == CHUNK, |file| - pos
      {
        len := if |file| - pos < CHUNK then |file| - pos else CHUNK;
        var buff := file[pos..pos + len];
        ExpandOfConcat(InText, file[..pos], buff);
        assert file[..pos] + buff == file[..pos + len];
        var more := ExpandChunk(buff);
        ItemsOfConcat(out, more);
        out, pos, calls := out + more, pos + len, calls + 1;
      }
      assert file[..pos] == file;
      LastItem(out);
      out := out + [LastCallback];
    }
  }

  // ------------------------------------------------------------------ what a template means

  // A template read as a list of pieces, and the token it ends inside of, if it does.
  datatype Piece = Plain(byte: Byte) | Escaped | Named(name: Text)

  datatype Page = Page(pieces: seq<Piece>, open: Option<Text>)

  predicate ValidPiece(p: Piece) {
    match p
    case Plain(b) => b != PERCENT
    case Escaped => true
    case Named(name) => name != [] && PERCENT !in name
  }

  predicate ValidPage(page: Page) {
    (forall p :: p in page.pieces ==> ValidPiece(p)) && (page.open.Some? ==> PERCENT !in page.open.value)
  }

  function PieceSource(p: Piece): Text {
    match p
    case Plain(b) => [b]
    case Escaped => [0x25, 0x25]
    case Named(name) => [0x25] + name + [0x25]
  }

  function PiecesSource(ps: seq<Piece>): Text {
    if ps == [] then [] else PiecesSource(ps[..|ps| - 1]) + PieceSource(ps[|ps| - 1])
  }

  function Source(page: Page): Text {
    PiecesSource(page.pieces) + if page.open.Some? then [PERCENT] + page.open.value else []
  }

  function Meaning(ps: seq<Piece>): seq<Item> {
    if ps == [] then []
    else
      Meaning(ps[..|ps| - 1]) + match ps[|ps| - 1]
                                case Plain(b) => [Raw(b)]
                                case Escaped => [Raw(0x25)]
                                case Named(name) => [Field(if |name| <= 63 then name else name[..63])]
  }

  function ReadByte(page: Page, b: Byte): Page {
    match page.open
    case None => if b == PERCENT then page.(open := Some([])) else page.(pieces := page.pieces + [Plain(b)])
    case Some(name) =>
      if b != PERCENT then page.(open := Some(name + [b]))
      else Page(page.pieces + [if name == [] then Escaped else Named(name)], None)
  }

  function Read(file: Text): Page {
    if file == [] then Page([], None) else ReadByte(Read(file[..|file| - 1]), file[|file| - 1])
  }

  // Every file is a template, with exactly one reading.
  lemma {:induction false} ReadThenWrite(file: Text)
    ensures ValidPage(Read(file)) && Source(Read(file)) == file
  {
    hide ReadByte, ValidPage, Source;
    if file == [] {
      EmptyPage();
    } else {
      var before, b := file[..|file| - 1], file[|file| - 1];
      ReadThenWrite(before);
      WriteByte(Read(before), b);
      assert before + [b] == file;
    }
  }

  lemma EmptyPage()
    ensures ValidPage(Page([], None)) && Source(Page([], None)) == []
  {
  }

  lemma WriteByte(page: Page, b: Byte)
    requires ValidPage(page)
    ensures ValidPage(ReadByte(page, b)) && Source(ReadByte(page, b)) == Source(page) + [b]
  {
    var after := ReadByte(page, b);
    if |after.pieces| > |page.pieces| {
      assert after.pieces[..|page.pieces|] == page.pieces;
    }
  }

  lemma ReadOneMore(file: Text, b: Byte)
    ensures Read(file + [b]) == ReadByte(Read(file), b)
  {
    assert (file + [b])[..|file|] == file;
  }

  lemma {:induction false} ReadOpen(ps: seq<Piece>, name: Text)
    requires PERCENT !in name
    requires Read(PiecesSource(ps)) == Page(ps, None)
    ensures Read(PiecesSource(ps) + ([PERCENT] + name)) == Page(ps, Some(name))
    decreases |name|
  {
    hide Read, PiecesSource;
    if name == [] {
      ReadOneMore(PiecesSource(ps), PERCENT);
      assert PiecesSource(ps) + ([PERCENT] + name) == PiecesSource(ps) + [PERCENT];
    } else {
      var before, b := name[..|name| - 1], name[|name| - 1];
      ReadOpen(ps, before);
      ReadOneMore(PiecesSource(ps) + ([PERCENT] + before), b);
      assert before + [b] == name;
      assert PiecesSource(ps) + ([PERCENT] + before) + [b] == PiecesSource(ps) + ([PERCENT] + name);
    }
  }

  lemma ReadPiece(ps: seq<Piece>, p: Piece)
    requires ValidPiece(p) && Read(PiecesSource(ps)) == Page(ps, None)
    ensures Read(PiecesSource(ps) + PieceSource(p)) == Page(ps + [p], None)
  {
    hide Read, PiecesSource;
    var source := PiecesSource(ps);
    match p
    case Plain(b) => ReadOneMore(source, b);
    case Escaped =>
      ReadOpen(ps, []);
      ReadOneMore(source + ([PERCENT] + []), PERCENT);
      assert source + ([PERCENT] + []) + [PERCENT] == source + PieceSource(p);
    case Named(name) =>
      ReadOpen(ps, name);
      ReadOneMore(source + ([PERCENT] + name), PERCENT);
      assert source + ([PERCENT] + name) + [PERCENT] == source + PieceSource(p);
  }

  lemma {:induction false} WritePiecesThenRead(ps: seq<Piece>)
    requires forall p :: p in ps ==> ValidPiece(p)
    ensures Read(PiecesSource(ps)) == Page(ps, None)
  {
    hide ValidPiece, PieceSource, Read;
    if ps == [] {
      ReadNothing();
    } else {
      var before, last := ps[..|ps| - 1], ps[|ps| - 1];
      WritePiecesThenRead(before);
      ReadPiece(before, last);
      assert before + [last] == ps;
    }
  }

  lemma ReadNothing()
    ensures Read([]) == Page([], None)
  {
  }

  lemma WriteThenRead(page: Page)
    requires ValidPage(page)
    ensures Read(Source(page)) == page
  {
    WritePiecesThenRead(page.pieces);
    if page.open.Some? {
      ReadOpen(page.pieces, page.open.value);
    } else {
      assert Source(page) == PiecesSource(page.pieces);
    }
  }

  lemma {:induction false} ExpandFollowsReading(file: Text)
    ensures Expand(InText, file) == Meaning(Read(file).pieces)
    ensures ModeAfter(InText, file) == match Read(file).open
                                       case None => InText
                                       case Some(name) => InToken(Kept(name))
  {
    if file != [] {
      var before, b := file[..|file| - 1], file[|file| - 1];
      ExpandFollowsReading(before);
      var page, after := Read(before), Read(file);
      if |after.pieces| > |page.pieces| {
        assert after.pieces[..|page.pieces|] == page.pieces;
      }
    }
  }

  // The meaning of a template: its pieces, in order, whatever the chunks, and an unfinished
  // token at the end is dropped.
  lemma TemplateMeaning(page: Page, chunks: seq<Text>)
    requires ValidPage(page) && Joined(chunks) == Source(page)
    ensures ExpandEach(InText, chunks) == Meaning(page.pieces)
  {
    ChunksDoNotMatter(InText, chunks);
    WriteThenRead(page);
    ExpandFollowsReading(Source(page));
  }
}
