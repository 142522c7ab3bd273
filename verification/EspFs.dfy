// The read-only file image: the writer of firmware/mkespfsimage/main.c and the reader of
// firmware/user/espfs.c, for files stored without compression.
module EspFs {
  import opened Bytes

  const HEADER := 16                // sizeof(EspFsHeader)
  const NAME_BUFFER := 256
  const FLAG_LASTFILE: Byte := 1
  const COMPRESS_NONE: Byte := 0
  const MAGIC: seq<Byte> := [0x45, 0x53, 0x66, 0x73]       // "ESfs"
  const DOT: Byte := 0x2E
  const SLASH: Byte := 0x2F

  type Data = seq<Byte>

  // ------------------------------------------------------------------ numbers in the image

  function Le16(n: nat): (b: Data)
    ensures |b| == 2
  {
    [n % 256, n / 256 % 256]
  }

  function Le32(n: nat): (b: Data)
    ensures |b| == 4
  {
    [n % 256, n / 0x100 % 256, n / 0x1_0000 % 256, n / 0x100_0000 % 256]
  }

  function Word(b0: Byte, b1: Byte, b2: Byte, b3: Byte): nat {
    (b0 as int) + 0x100 * (b1 as int) + 0x1_0000 * (b2 as int) + 0x100_0000 * (b3 as int)
  }

  function ReadLe16(flash: Data, p: nat): nat
    requires p + 2 <= |flash|
  {
    (flash[p] as int) + 0x100 * (flash[p + 1] as int)
  }

  // The word at p, as the flash bus delivers it.
  function ReadLe32(flash: Data, p: nat): nat
    requires p + 4 <= |flash|
  {
    Word(flash[p], flash[p + 1], flash[p + 2], flash[p + 3])
  }

  lemma WordOfBytes(n: nat)
    requires n < 0x1_0000_0000
    ensures Word(n % 256, n / 0x100 % 256, n / 0x1_0000 % 256, n / 0x100_0000 % 256) == n
  {
    var q1, d0 := n / 0x100, n % 0x100;
    var q2, d1 := q1 / 0x100, q1 % 0x100;
    var q3, d2 := q2 / 0x100, q2 % 0x100;
    assert n == 0x1_0000 * q2 + (0x100 * d1 + d0);
    assert n == 0x100_0000 * q3 + (0x1_0000 * d2 + 0x100 * d1 + d0);
    assert n / 0x1_0000 == q2 && n / 0x100_0000 == q3;
  }

  lemma ReadsBack32(n: nat, flash: Data, p: nat)
    requires n < 0x1_0000_0000 && p + 4 <= |flash| && flash[p..p + 4] == Le32(n)
    ensures ReadLe32(flash, p) == n
  {
    hide Word;
    WordOfBytes(n);
    var field := flash[p..p + 4];
    assert flash[p] == field[0] && flash[p + 1] == field[1] && flash[p + 2] == field[2] && flash[p + 3] == field[3];
  }

  lemma ReadsBack16(n: nat, flash: Data, p: nat)
    requires n < 0x1_0000 && p + 2 <= |flash| && flash[p..p + 2] == Le16(n)
    ensures ReadLe16(flash, p) == n
  {
    assert flash[p] == Le16(n)[0] && flash[p + 1] == Le16(n)[1];
  }

  function RoundUp(n: nat): (r: nat)
    ensures n <= r < n + 4 && r % 4 == 0
  {
    if n % 4 != 0 then n + 4 - n % 4 else n
  }

  lemma RoundUpMoves(a: nat, b: nat)
    requires a % 4 == 0
    ensures RoundUp(a + b) == a + RoundUp(b)
  {
  }

  lemma RoundUpGrows(a: nat, b: nat)
    requires a <= b
    ensures RoundUp(a) <= RoundUp(b)
  {
  }

  function Zeros(n: nat): (z: Data)
    ensures |z| == n
  {
    seq(n, _ => 0)
  }

  // ------------------------------------------------------------------ the writer

  // A file and the bytes that happen to follow its name in the writer's memory.
  datatype File = File(name: Data, beyond: Data, data: Data)

  predicate Storable(f: File) {
    && |f.name| < NAME_BUFFER && 0 !in f.name
    && |f.beyond| == RoundUp(|f.name| + 1) - |f.name| - 1
    && |f.data| < 0x8000_0000
  }

  function Header(flags: Byte, nameLen: nat, fileLen: nat): (h: Data)
    ensures |h| == HEADER
  {
    MAGIC + [flags, COMPRESS_NONE] + Le16(nameLen) + Le32(fileLen) + Le32(fileLen)
  }

  function NameField(f: File): Data {
    f.name + [0] + f.beyond
  }

  function Padding(n: nat): (p: Data)
    ensures |p| < 4 && (n + |p|) % 4 == 0 && forall i :: 0 <= i < |p| ==> p[i] == 0
  {
    Zeros(RoundUp(n) - n)
  }

  function Entry(f: File): Data {
    Header(0, |NameField(f)|, |f.data|) + NameField(f) + f.data + Padding(|f.data|)
  }

  const LAST_ENTRY := Header(FLAG_LASTFILE, 0, 0)

  // An empty file cannot be mapped into the writer's memory and is left out.
  function FileBytes(f: File): Data {
    if f.data == [] then [] else Entry(f)
  }

  function Entries(files: seq<File>): Data {
    if files == [] then [] else FileBytes(files[0]) + Entries(files[1..])
  }

  lemma NextEntries(files: seq<File>, x: nat)
    requires x < |files|
    ensures Entries(files[x..]) == FileBytes(files[x]) + Entries(files[x + 1..])
  {
    hide FileBytes;
    assert files[x..][0] == files[x] && files[x..][1..] == files[x + 1..];
  }

  lemma NoEntries(files: seq<File>)
    ensures Entries(files[|files|..]) == []
  {
  }

  function Image(files: seq<File>): Data {
    Entries(files) + LAST_ENTRY
  }

  // A leading dot and then a leading slash are left out of the stored name.
  function RealName(path: Data): Data {
    var p := if path != [] && path[0] == DOT then path[1..] else path;
    if p != [] && p[0] == SLASH then p[1..] else p
  }

  function Stored(f: File): File {
    f.(name := RealName(f.name))
  }

  function AllStored(listed: seq<File>): (files: seq<File>)
    ensures |files| == |listed|
  {
    seq(|listed|, i requires 0 <= i < |listed| => Stored(listed[i]))
  }

  class ImageWriter {
    var output: Data

    constructor ()
      ensures output == []
    {
      output := [];
    }

    // handleFile; the percentage it returns is 100 for a file stored as it is.
    method HandleFile(f: File)
      requires Storable(f)
      modifies this
      ensures output == old(output) + FileBytes(f)
    {
      hide Header, Padding;
      if f.data == [] {
        return;
      }
      var nameLen := |f.name| + 1;
      if nameLen % 4 != 0 {
        nameLen := nameLen + 4 - nameLen % 4;
      }
      ghost var before := output;
      output := output + Header(0, nameLen, |f.data|);
      output := output + (f.name + [0] + f.beyond)[..nameLen];
      assert NameField(f)[..nameLen] == NameField(f);
      output := output + f.data;
      Pad(|f.data|);
      ghost var head, rest := Header(0, nameLen, |f.data|) + NameField(f) + f.data, Padding(|f.data|);
      assert before + head + rest == before + (head + rest);
    }

    // Zero bytes up to the 32-bit boundary.
    method Pad(size: nat)
      modifies this
      ensures output == old(output) + Padding(size)
    {
      var csize := size;
      assert output + Zeros(0) == output;
      while csize % 4 != 0
        invariant size <= csize <= RoundUp(size)
        invariant output == old(output) + Zeros(csize - size)
        decreases RoundUp(size) - csize
      {
        output := output + [0];
        csize := csize + 1;
      }
    }

    method FinishArchive()
      modifies this
      ensures output == old(output) + LAST_ENTRY
    {
      output := output + Header(FLAG_LASTFILE, 0, 0);
    }

    // The loop of main over the listed regular files, whose names here are still paths.
    method WriteImage(listed: seq<File>)
      requires forall f :: f in listed ==> Storable(Stored(f))
      requires output == []
      modifies this
      ensures output == Image(AllStored(listed))
    {
      hide FileBytes, Entries, Header, Storable, Stored;
      ghost var files := AllStored(listed);
      assert files[0..] == files;
      var x := 0;
      while x < |listed|
        invariant 0 <= x <= |listed|
        invariant output + Entries(files[x..]) == Entries(files)
      {
        assert listed[x] in listed;
        NextEntries(files, x);
        HandleFile(Stored(listed[x]));
        x := x + 1;
      }
      NoEntries(files);
      assert output + [] == output;
      FinishArchive();
    }
  }

  // ------------------------------------------------------------------ the reader

  // (w >> 8 * b) cut to a byte.
  function ByteOfWord(w: nat, b: nat): Byte
    requires b < 4
  {
    if b == 0 then w % 256
    else if b == 1 then w / 0x100 % 256
    else if b == 2 then w / 0x1_0000 % 256
    else w / 0x100_0000 % 256
  }

  lemma BytesOfWord(b0: Byte, b1: Byte, b2: Byte, b3: Byte)
    ensures ByteOfWord(Word(b0, b1, b2, b3), 0) == b0
    ensures ByteOfWord(Word(b0, b1, b2, b3), 1) == b1
    ensures ByteOfWord(Word(b0, b1, b2, b3), 2) == b2
    ensures ByteOfWord(Word(b0, b1, b2, b3), 3) == b3
  {
    var w, high := Word(b0, b1, b2, b3), (b3 as int) * 0x100 + b2 as int;
    assert w / 0x1_0000 == high by {
      assert w == 0x1_0000 * high + ((b1 as int) * 0x100 + b0 as int);
    }
    assert w / 0x100_0000 == b3 as int;
    assert w / 0x100 == 0x100 * high + b1 as int;
  }

  lemma AlignedByte(flash: Data, src: nat)
    requires RoundUp(src + 1) <= |flash|
    ensures src - src % 4 + 4 <= |flash|
    ensures ByteOfWord(ReadLe32(flash, src - src % 4), src % 4) == flash[src]
  {
    hide ByteOfWord, Word;
    var a := src - src % 4;
    assert a + src % 4 == src;
    BytesOfWord(flash[a], flash[a + 1], flash[a + 2], flash[a + 3]);
  }

  // memcpyAligned: reads whole aligned words only, and copies exactly the bytes asked for.
  method MemcpyAligned(dst: array<Byte>, flash: Data, from: nat, len: nat)
    requires len <= dst.Length && RoundUp(from + len) <= |flash|
    modifies dst
    ensures dst[..len] == flash[from..from + len]
    ensures dst[len..] == old(dst[len..])
  {
    hide ByteOfWord, ReadLe32, RoundUp;
    var src, x := from, 0;
    while x < len
      invariant 0 <= x <= len && src == from + x
      invariant forall i :: 0 <= i < x ==> dst[i] == flash[from + i]
      invariant forall i :: x <= i < dst.Length ==> dst[i] == old(dst[i])
    {
      RoundUpGrows(src + 1, from + len);
      AlignedByte(flash, src);
      var b := src % 4;
      var w := ReadLe32(flash, src - b);
      dst[x] := ByteOfWord(w, b);
      src, x := src + 1, x + 1;
    }
  }

  function Stripped(fileName: Data): Data {
    if fileName != [] && fileName[0] == SLASH then Stripped(fileName[1..]) else fileName
  }

  // strcmp(namebuf, name) == 0
  predicate NameMatches(flash: Data, p: nat, name: Data) {
    && |name| < NAME_BUFFER && p + |name| < |flash|
    && flash[p..p + |name|] == name && flash[p + |name|] == 0
  }

  datatype Opened =
    | Found(header: nat, start: nat)
    | EndOfImage
    | Broken

  predicate HasMagic(flash: Data, p: nat)
    requires p + HEADER <= |flash|
  {
    flash[p..p + 4] == MAGIC
  }

  function NextHeader(flash: Data, p: nat): (q: nat)
    requires p + HEADER <= |flash|
    ensures q >= p + HEADER
  {
    RoundUp(p + HEADER + ReadLe16(flash, p + 6) + ReadLe32(flash, p + 8))
  }

  // The search for a name, from the header at p on.
  function OpenAt(flash: Data, p: nat, name: Data): Opened
    decreases |flash| - p
  {
    if p + HEADER > |flash| || !HasMagic(flash, p) then Broken
    else if flash[p + 4] % 2 == FLAG_LASTFILE then EndOfImage
    else if NameMatches(flash, p + HEADER, name) then
      if flash[p + 5] == COMPRESS_NONE then Found(p, p + HEADER + ReadLe16(flash, p + 6)) else Broken
    else OpenAt(flash, NextHeader(flash, p), name)
  }

  function Open(flash: Data, fileName: Data): Opened {
    OpenAt(flash, 0, Stripped(fileName))
  }

  // ------------------------------------------------------------------ finding files

  lemma Part(flash: Data, p: nat, whole: Data, i: nat, j: nat)
    requires p + |whole| <= |flash| && flash[p..p + |whole|] == whole && i <= j <= |whole|
    ensures flash[p + i..p + j] == whole[i..j]
  {
    forall k | i <= k < j ensures flash[p + k] == whole[k] {
      assert flash[p..p + |whole|][k] == whole[k];
    }
  }

  lemma HeaderFields(flags: Byte, nameLen: nat, fileLen: nat)
    ensures var h := Header(flags, nameLen, fileLen);
            && h[0..4] == MAGIC && h[4] == flags && h[5] == COMPRESS_NONE
            && h[6..8] == Le16(nameLen) && h[8..12] == h[12..16] == Le32(fileLen)
  {
  }

  // A header read back from the flash.
  lemma HeaderReadsBack(flash: Data, p: nat, flags: Byte, nameLen: nat, fileLen: nat)
    requires nameLen < 0x1_0000 && fileLen < 0x1_0000_0000
    requires p + HEADER <= |flash| && flash[p..p + HEADER] == Header(flags, nameLen, fileLen)
    ensures HasMagic(flash, p) && flash[p + 4] == flags && flash[p + 5] == COMPRESS_NONE
    ensures ReadLe16(flash, p + 6) == nameLen && ReadLe32(flash, p + 8) == ReadLe32(flash, p + 12) == fileLen
  {
    hide Header, ReadLe16, ReadLe32, Le16, Le32;
    var h := Header(flags, nameLen, fileLen);
    HeaderFields(flags, nameLen, fileLen);
    Part(flash, p, h, 0, 4);
    Part(flash, p, h, 6, 8);
    Part(flash, p, h, 8, 12);
    Part(flash, p, h, 12, 16);
    assert flash[p..p + HEADER][4] == h[4] && flash[p..p + HEADER][5] == h[5];
    ReadsBack16(nameLen, flash, p + 6);
    ReadsBack32(fileLen, flash, p + 8);
    ReadsBack32(fileLen, flash, p + 12);
  }

  lemma EntryParts(f: File)
    requires Storable(f)
    ensures var entry, n := Entry(f), HEADER + |NameField(f)|;
            && |entry| == n + RoundUp(|f.data|) && n % 4 == 0 && |NameField(f)| <= NAME_BUFFER && |f.data| < 0x8000_0000
            && entry[0..HEADER] == Header(0, |NameField(f)|, |f.data|)
            && entry[HEADER..n] == NameField(f)
            && entry[n..n + |f.data|] == f.data
  {
    hide Header;
  }

  // What the search makes of one entry of an image.
  lemma EntryFields(flash: Data, p: nat, f: File)
    requires Storable(f) && p % 4 == 0 && p + |Entry(f)| <= |flash| && flash[p..p + |Entry(f)|] == Entry(f)
    ensures p + HEADER <= |flash| && HasMagic(flash, p)
    ensures flash[p + 4] == 0 && flash[p + 5] == COMPRESS_NONE
    ensures ReadLe16(flash, p + 6) == |NameField(f)|
    ensures ReadLe32(flash, p + 8) == ReadLe32(flash, p + 12) == |f.data|
    ensures NextHeader(flash, p) == p + |Entry(f)|
    ensures flash[p + HEADER..p + HEADER + |NameField(f)|] == NameField(f)
    ensures var start := p + HEADER + |NameField(f)|; flash[start..start + |f.data|] == f.data
  {
    hide ReadLe16, ReadLe32, Header, Storable, Padding, Entry, NameField, RoundUp;
    var entry, h, name := Entry(f), Header(0, |NameField(f)|, |f.data|), NameField(f);
    EntryParts(f);
    RoundUpMoves(p + HEADER + |name|, |f.data|);
    Part(flash, p, entry, 0, HEADER);
    Part(flash, p, entry, HEADER, HEADER + |name|);
    Part(flash, p, entry, HEADER + |name|, HEADER + |name| + |f.data|);
    HeaderReadsBack(flash, p, 0, |name|, |f.data|);
  }

  // A string in memory ends at its first zero byte.
  lemma SameString(memory: Data, a: Data, b: Data)
    requires 0 !in a && 0 !in b && |a| < |memory| && |b| < |memory|
    requires memory[..|a|] == a && memory[|a|] == 0 && memory[..|b|] == b && memory[|b|] == 0
    ensures a == b
  {
    assert |a| <= |b| by {
      assert forall k :: 0 <= k < |a| ==> memory[k] != 0;
    }
    assert forall k :: 0 <= k < |b| ==> memory[k] != 0;
  }

  lemma EntryName(flash: Data, p: nat, f: File, name: Data)
    requires Storable(f) && 0 !in name && p + |NameField(f)| <= |flash|
    requires flash[p..p + |NameField(f)|] == NameField(f)
    ensures NameMatches(flash, p, name) <==> name == f.name
  {
    var field, n := NameField(f), |f.name|;
    Part(flash, p, field, 0, n);
    assert field[0..n] == f.name;
    assert flash[p..p + |field|][n] == 0;
    if NameMatches(flash, p, name) {
      SameString(flash[p..], name, f.name);
    }
  }

  // The first stored file of a name, or the number of files.
  function FirstNamed(files: seq<File>, name: Data): (k: nat)
    ensures k <= |files|
    ensures k < |files| ==> files[k].name == name && files[k].data != []
    ensures forall i :: 0 <= i < k ==> files[i].name != name || files[i].data == []
  {
    if files == [] || (files[0].name == name && files[0].data != []) then 0 else 1 + FirstNamed(files[1..], name)
  }

  // What opening a name should find: the file's own header and content.
  ghost predicate Finds(flash: Data, r: Opened, content: Data) {
    && r.Found?
    && r.header % 4 == 0 && r.header + 16 <= r.start && r.start % 4 == 0
    && RoundUp(r.start + |content|) <= |flash|
    && flash[r.header] == 'E' as int && flash[r.header + 1] == 'S' as int
    && flash[r.header + 2] == 'f' as int && flash[r.header + 3] == 's' as int
    && flash[r.header + 4] == 0 == flash[r.header + 5]
    && ReadLe32(flash, r.header + 8) == ReadLe32(flash, r.header + 12) == |content|
    && flash[r.start..r.start + |content|] == content
  }

  // What a read needs to know of it.
  lemma FoundFile(flash: Data, r: Opened, content: Data)
    requires Finds(flash, r, content)
    ensures r.header + 16 <= r.start && r.start % 4 == 0 && RoundUp(r.start + |content|) <= |flash|
    ensures ReadLe32(flash, r.header + 8) == |content| && flash[r.start..r.start + |content|] == content
  {
  }

  lemma LastEntryEnds(flash: Data, p: nat, name: Data)
    requires p + HEADER <= |flash| && flash[p..p + HEADER] == LAST_ENTRY
    ensures OpenAt(flash, p, name) == EndOfImage
  {
    HeaderReadsBack(flash, p, FLAG_LASTFILE, 0, 0);
  }

  // The search from where the entries of `files` start.
  lemma {:induction false} SearchFrom(flash: Data, p: nat, files: seq<File>, name: Data)
    requires forall f :: f in files ==> Storable(f)
    requires 0 !in name && p % 4 == 0
    requires p + |Image(files)| <= |flash| && flash[p..p + |Image(files)|] == Image(files)
    ensures var k := FirstNamed(files, name);
            if k == |files| then OpenAt(flash, p, name) == EndOfImage
            else Finds(flash, OpenAt(flash, p, name), files[k].data)
    decreases |files|
  {
    hide Header, Entry, Storable, Finds, NextHeader, NameMatches, OpenAt, Image, FirstNamed;
    FirstNamedFromFront(files, name);
    if files == [] {
      EmptyImage();
      LastEntryEnds(flash, p, name);
    } else {
      ImageFromFront(files);
      if files[0].data == [] {
        SearchFrom(flash, p, files[1..], name);
      } else {
        Halves(flash, p, Entry(files[0]), Image(files[1..]));
        SearchStep(flash, p, files[0], name);
        if name != files[0].name {
          SearchFrom(flash, p + |Entry(files[0])|, files[1..], name);
        }
      }
    }
  }

  lemma FirstNamedFromFront(files: seq<File>, name: Data)
    ensures FirstNamed(files, name)
         == if files == [] || (files[0].name == name && files[0].data != []) then 0
            else 1 + FirstNamed(files[1..], name)
  {
  }

  lemma EmptyImage()
    ensures Image([]) == LAST_ENTRY
  {
  }

  lemma ImageFromFront(files: seq<File>)
    requires files != []
    ensures Image(files) == if files[0].data == [] then Image(files[1..]) else Entry(files[0]) + Image(files[1..])
  {
    hide Entry;
    var rest, last := Entries(files[1..]), LAST_ENTRY;
    assert Entry(files[0]) + rest + last == Entry(files[0]) + (rest + last);
    assert [] + rest == rest;
  }

  lemma Halves(flash: Data, p: nat, a: Data, b: Data)
    requires p + |a + b| <= |flash| && flash[p..p + |a + b|] == a + b
    ensures flash[p..p + |a|] == a && flash[p + |a|..p + |a| + |b|] == b
  {
    var whole := a + b;
    assert whole[0..|a|] == a && whole[|a|..|whole|] == b;
    Part(flash, p, whole, 0, |a|);
    Part(flash, p, whole, |a|, |whole|);
  }

  lemma SearchStep(flash: Data, p: nat, f: File, name: Data)
    requires Storable(f) && 0 !in name && p % 4 == 0
    requires p + |Entry(f)| <= |flash| && flash[p..p + |Entry(f)|] == Entry(f)
    ensures |Entry(f)| % 4 == 0
    ensures if name == f.name then Finds(flash, OpenAt(flash, p, name), f.data)
            else OpenAt(flash, p, name) == OpenAt(flash, p + |Entry(f)|, name)
  {
    hide Header, Entry, NameField, ReadLe16, ReadLe32, NextHeader, NameMatches, HasMagic, Storable, RoundUp, Finds;
    EntryParts(f);
    EntryFields(flash, p, f);
    EntryName(flash, p + HEADER, f, name);
    if name == f.name {
      var start := p + HEADER + |NameField(f)|;
      FoundEntry(flash, p, f, start);
      assert OpenAt(flash, p, name) == Found(p, start);
    }
  }

  lemma MagicBytes(flash: Data, p: nat)
    requires p + HEADER <= |flash| && HasMagic(flash, p)
    ensures flash[p] == 'E' as int && flash[p + 1] == 'S' as int
    ensures flash[p + 2] == 'f' as int && flash[p + 3] == 's' as int
  {
    var magic := flash[p..p + 4];
    assert flash[p] == magic[0] && flash[p + 1] == magic[1] && flash[p + 2] == magic[2] && flash[p + 3] == magic[3];
  }

  lemma FoundEntry(flash: Data, p: nat, f: File, start: nat)
    requires Storable(f) && p % 4 == 0
    requires p + |Entry(f)| <= |flash| && flash[p..p + |Entry(f)|] == Entry(f)
    requires start == p + HEADER + |NameField(f)|
    ensures Finds(flash, Found(p, start), f.data)
  {
    hide Header, Entry, NameField, ReadLe16, ReadLe32, NextHeader, HasMagic, Storable, RoundUp, Finds;
    EntryParts(f);
    EntryFields(flash, p, f);
    RoundUpMoves(start, |f.data|);
    FoundFields(flash, p, start, f.data);
  }

  lemma FoundFields(flash: Data, p: nat, start: nat, content: Data)
    requires p % 4 == 0 && p + 16 <= start && start % 4 == 0 && RoundUp(start + |content|) <= |flash|
    requires HasMagic(flash, p) && flash[p + 4] == 0 == flash[p + 5]
    requires ReadLe32(flash, p + 8) == ReadLe32(flash, p + 12) == |content|
    requires flash[start..start + |content|] == content
    ensures Finds(flash, Found(p, start), content)
  {
    hide HasMagic, ReadLe32, RoundUp;
    MagicBytes(flash, p);
  }

  // The archive theorem: in an image of any files, followed by anything, opening a name
  // without its leading slashes finds the content of the first non-empty file so named, and
  // the end of the image exactly when there is none.
  lemma ArchiveRoundTrip(files: seq<File>, beyond: Data, fileName: Data)
    requires forall f :: f in files ==> Storable(f)
    requires 0 !in fileName
    ensures var k := FirstNamed(files, Stripped(fileName));
            var r := Open(Image(files) + beyond, fileName);
            if k == |files| then r == EndOfImage
            else Finds(Image(files) + beyond, r, files[k].data)
  {
    hide Image;
    StrippedHasNoNul(fileName);
    var flash := Image(files) + beyond;
    assert flash[0..0 + |Image(files)|] == Image(files);
    SearchFrom(flash, 0, files, Stripped(fileName));
  }

  lemma {:induction false} StrippedHasNoNul(fileName: Data)
    requires 0 !in fileName
    ensures 0 !in Stripped(fileName)
    ensures Stripped(fileName) == [] || Stripped(fileName)[0] != SLASH
  {
    if fileName != [] && fileName[0] == SLASH {
      StrippedHasNoNul(fileName[1..]);
    }
  }

  // The name under which ./name is stored is what a request for /name is looked up by.
  lemma ListedPathIsFound(name: Data)
    requires name == [] || name[0] != 0x2F
    ensures RealName([0x2E, 0x2F] + name) == name
    ensures Stripped([0x2F] + name) == name
  {
    var path, asked := [DOT, SLASH] + name, [SLASH] + name;
    assert path[1..] == asked && asked[1..] == name;
    assert Stripped(name) == name;
  }

  // A path as the writer's input lists it: ./ and a name that does not start with a slash.
  ghost predicate Listed(path: Data) {
    |path| >= 2 && path[0] == '.' as int && path[1] == '/' as int && (|path| == 2 || path[2] != '/' as int)
  }

  // From the list of files to the reader: opening /name on the image made of any list of paths
  // finds the content of the file listed as ./name, if it is not empty and not listed before.
  lemma ListedFileOpens(listed: seq<File>, k: nat, beyond: Data)
    requires forall i :: 0 <= i < |listed| ==> Listed(listed[i].name) && Storable(Stored(listed[i]))
    requires k < |listed| && Listed(listed[k].name) && listed[k].data != []
    requires forall i :: 0 <= i < k ==> listed[i].name != listed[k].name
    ensures var flash := Image(AllStored(listed)) + beyond;
            Finds(flash, Open(flash, listed[k].name[1..]), listed[k].data)
  {
    hide Image, Open, Finds;
    var files, name := AllStored(listed), listed[k].name[2..];
    forall i | 0 <= i < |listed|
      ensures files[i].name == listed[i].name[2..] && files[i].data == listed[i].data && Storable(files[i])
      ensures listed[i].name == [0x2E, 0x2F] + listed[i].name[2..]
    {
      ListedPathIsFound(listed[i].name[2..]);
    }
    ListedPathIsFound(name);
    assert listed[k].name[1..] == [0x2F] + name;
    assert Storable(files[k]) && 0 !in name;
    ArchiveRoundTrip(files, beyond, [0x2F] + name);
    assert FirstNamed(files, name) == k;
  }

  // ------------------------------------------------------------------ reading

  // An open file.
  class EspFsFile {
    const header: nat
    const posStart: nat
    var posComp: nat
    var posDecomp: nat

    constructor (header: nat, start: nat)
      ensures this.header == header && posStart == start && posComp == start && posDecomp == 0
    {
      this.header, posStart, posComp, posDecomp := header, start, start, 0;
    }

    // The file is open on `content`, of which `done` bytes have been read.
    ghost predicate Reading(flash: Data, content: Data, done: nat)
      reads this
    {
      && Finds(flash, Found(header, posStart), content)
      && done <= |content| && posComp == posStart + done && posDecomp == done
    }

    // espFsRead
    method Read(flash: Data, buff: array<Byte>, len: nat, ghost content: Data, ghost done: nat) returns (n: nat)
      requires Reading(flash, content, done) && len <= buff.Length
      modifies this`posComp, this`posDecomp, buff
      ensures n == (if len <= |content| - done then len else |content| - done)
      ensures Reading(flash, content, done + n)
      ensures buff[..n] == content[done..done + n] && buff[n..] == old(buff[n..])
    {
      hide ReadLe32, RoundUp, Finds;
      FoundFile(flash, Found(header, posStart), content);
      var flen := ReadLe32(flash, header + 8);
      var toRead := flen - (posComp - posStart);
      n := len;
      if n > toRead {
        n := toRead;
      }
      RoundUpGrows(posComp + n, posStart + |content|);
      MemcpyAligned(buff, flash, posComp, n);
      Part(flash, posStart, content, done, done + n);
      posDecomp := posDecomp + n;
      posComp := posComp + n;
    }
  }

  // What reads of the given sizes return, one after another.
  function Reads(content: Data, done: nat, lens: seq<nat>): seq<Data>
    requires done <= |content|
    decreases |lens|
  {
    if lens == [] then []
    else
      var n := if lens[0] <= |content| - done then lens[0] else |content| - done;
      [content[done..done + n]] + Reads(content, done + n, lens[1..])
  }

  function Concat(parts: seq<Data>): Data {
    if parts == [] then [] else parts[0] + Concat(parts[1..])
  }

  function Sum(lens: seq<nat>): nat {
    if lens == [] then 0 else lens[0] + Sum(lens[1..])
  }

  // Reads of any sizes concatenate to the content, up to as many bytes as were asked for.
  lemma {:induction false} ReadsConcatenate(content: Data, done: nat, lens: seq<nat>)
    requires done <= |content|
    ensures Concat(Reads(content, done, lens))
         == content[done..if done + Sum(lens) <= |content| then done + Sum(lens) else |content|]
    decreases |lens|
  {
    if lens != [] {
      var n := if lens[0] <= |content| - done then lens[0] else |content| - done;
      ReadsConcatenate(content, done + n, lens[1..]);
      var part := content[done..done + n];
      assert ([part] + Reads(content, done + n, lens[1..]))[1..] == Reads(content, done + n, lens[1..]);
    }
  }

  // espFsOpen
  method EspFsOpen(flash: Data, fileName: Data) returns (r: Opened, file: EspFsFile?)
    ensures r == Open(flash, fileName)
    ensures r.Found? <==> file != null
    ensures file != null ==> fresh(file) && file.header == r.header
    ensures file != null ==> file.posStart == file.posComp == r.start && file.posDecomp == 0
  {
    hide NameMatches, HasMagic, NextHeader, ReadLe16, ReadLe32;
    var name := fileName;
    while name != [] && name[0] == SLASH
      invariant Stripped(name) == Stripped(fileName)
    {
      name := name[1..];
    }
    var p := 0;
    while p + HEADER <= |flash|
      invariant OpenAt(flash, p, name) == Open(flash, fileName)
      decreases |flash| - p
    {
      if !HasMagic(flash, p) {
        return Broken, null;
      }
      if flash[p + 4] % 2 == FLAG_LASTFILE {
        return EndOfImage, null;
      }
      if NameMatches(flash, p + HEADER, name) {
        if flash[p + 5] != COMPRESS_NONE {
          return Broken, null;
        }
        var start := p + HEADER + ReadLe16(flash, p + 6);
        file := new EspFsFile(p, start);
        return Found(p, start), file;
      }
      p := NextHeader(flash, p);
    }
    return Broken, null;
  }
}
