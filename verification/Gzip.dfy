/** The gzip container around the compressed stream, and the theorem the whole
    program is about: what it writes decompresses to what it read. */
module Gzip {
  import opened Bits
  import opened Inflate
  import opened Tokens
  import opened BitWriting
  import opened Blocks
  import opened Crc
  import opened Hashing
  import opened Windows
  import opened Coding
  import opened Deflating
  import opened Buffers
  import opened Sending
  import opened DynamicTrees

  // ----- a decompressor for RFC 1952 files

  const HEADER_SIZE: nat := 10

  function LongAt(file: seq<Byte>, p: nat): nat
    requires p + 4 <= |file|
  {
    FromBits(BytesBits(file[p..p + 4]))
  }

  function Crc32(data: seq<Byte>): Word {
    0xffff_ffff - CrcOf(0xffff_ffff, data)
  }

  /** One member with no optional header fields: magic, method, flags; the compressed
      blocks; CRC-32 and length modulo 2^32, both of which must be right; nothing more. */
  function Gunzip(file: seq<Byte>): Option<seq<Byte>> {
    if |file| < HEADER_SIZE || file[0] != 0x1f || file[1] != 0x8b || file[2] != 8 || file[3] != 0 then None
    else
      var (pos, data) :- Decode(BytesBits(file), 8 * HEADER_SIZE, []);
      var p := AlignUp(pos) / 8;
      if |file| != p + 8 || LongAt(file, p) != Crc32(data) || LongAt(file, p + 4) != U32(|data|) then None
      else Some(data)
  }

  lemma CrcMore(c: Word, s: seq<Byte>, b: Byte)
    ensures CrcOf(c, s + [b]) == CrcByte(CrcOf(c, s), b) && CrcOf(c, []) == c
  {
    hide CrcByte;
    assert (s + [b])[..|s|] == s;
  }

  /** Two values of the checksum that its start and its complement have to give. */
  lemma CrcChecks()
    ensures Crc32([]) == 0 && Crc32([0xff, 0xff, 0xff, 0xff]) == 0xffff_ffff
  {
    hide CrcByte;
    Cancelled(0xffff_ffff, 0xff);
    Cancelled(0xff_ffff, 0xff);
    Cancelled(0xffff, 0xff);
    Cancelled(0xff, 0xff);
    CrcMore(0xffff_ffff, [], 0xff);
    CrcMore(0xffff_ffff, [0xff], 0xff);
    CrcMore(0xffff_ffff, [0xff, 0xff], 0xff);
    CrcMore(0xffff_ffff, [0xff, 0xff, 0xff], 0xff);
    hide CrcOf;
    assert [] + [0xff] == [0xff] && [0xff] + [0xff] == [0xff, 0xff] && [0xff, 0xff] + [0xff] == [0xff, 0xff, 0xff];
    assert [0xff, 0xff, 0xff] + [0xff] == [0xff, 0xff, 0xff, 0xff];
  }

  lemma {:induction false} FromBitsConcat(a: seq<bool>, b: seq<bool>)
    ensures FromBits(a + b) == FromBits(a) + Pow2(|a|) * FromBits(b)
  {
    if a == [] {
      assert a + b == b;
    } else {
      FromBitsConcat(a[1..], b);
      assert (a + b)[1..] == a[1..] + b;
      DoubleProduct(Pow2(|a| - 1), FromBits(b));
    }
  }

  lemma DoubleProduct(p: nat, v: nat)
    ensures 2 * (p * v) == (2 * p) * v
  {
  }

  lemma {:induction false} BytesValue(s: seq<Byte>)
    requires s != []
    ensures FromBits(BytesBits(s)) == s[0] + 256 * FromBits(BytesBits(s[1..]))
  {
    ByteReads(s[0]);
    Pow2Values();
    FromBitsConcat(ToBits(s[0], 8), BytesBits(s[1..]));
  }

  /** Four bytes as a number, the least significant first. */
  function LittleEndian(a: nat, b: nat, c: nat, d: nat): nat {
    a + 0x100 * b + 0x1_0000 * c + 0x100_0000 * d
  }

  lemma LongValue(file: seq<Byte>, p: nat)
    requires p + 4 <= |file|
    ensures LongAt(file, p) == LittleEndian(file[p], file[p + 1], file[p + 2], file[p + 3])
  {
    var s := file[p..p + 4];
    BytesValue(s);
    BytesValue(s[1..]);
    BytesValue(s[2..]);
    BytesValue(s[3..]);
    assert s[1..][1..] == s[2..] && s[2..][1..] == s[3..] && s[3..][1..] == [];
    hide FromBits, BytesBits;
    assert BytesBits([]) == [] && FromBits([]) == 0;
  }

  /** What decompresses has the form of RFC 1952: the four bytes of the header that matter
      here, and at the end the CRC and the length modulo 2^32, low bytes first. */
  lemma FileLayout(file: seq<Byte>, data: seq<Byte>)
    requires Gunzip(file) == Some(data)
    ensures |file| >= 18 && file[..4] == [0x1f, 0x8b, 8, 0]
    ensures var t := file[|file| - 8..];
            && LittleEndian(t[0], t[1], t[2], t[3]) == Crc32(data)
            && LittleEndian(t[4], t[5], t[6], t[7]) == |data| % 0x1_0000_0000
  {
    hide Decode, LongAt, Crc32, BytesBits, LittleEndian;
    var p := |file| - 8;
    assert p >= HEADER_SIZE by {
      var d := Decode(BytesBits(file), 8 * HEADER_SIZE, []);
      assert d.value.0 > 8 * HEADER_SIZE;
    }
    LongValue(file, p);
    LongValue(file, p + 4);
  }

  lemma LongReads(file: seq<Byte>, p: nat, n: Word)
    requires p + 4 <= |file| && file[p..p + 4] == LongBytes(n)
    ensures LongAt(file, p) == n
  {
    Pow2Values();
    hide Pow2, ToBits, FromBits, BytesBits, LongBytes;
    LongBytesBits(n);
    FromToBits(n, 32);
  }

  lemma PrefixBits(a: seq<Byte>, b: seq<Byte>)
    ensures BytesBits(a) <= BytesBits(a + b)
  {
    BytesBitsConcat(a, b);
  }

  lemma {:induction false} BytesFromBits(a: seq<Byte>, b: seq<Byte>)
    requires BytesBits(a) <= BytesBits(b)
    ensures a <= b
  {
    if a != [] {
      var x, y := ToBits(a[0], 8), ToBits(b[0], 8);
      var p, q := BytesBits(a[1..]), BytesBits(b[1..]);
      assert (x + p)[..8] == x && (y + q)[..8] == (x + p)[..8] == y;
      ByteReads(a[0]);
      ByteReads(b[0]);
      assert (x + p)[8..] == p && (y + q)[8..] == q;
      BytesFromBits(a[1..], b[1..]);
      assert a == [a[0]] + a[1..] && b == [b[0]] + b[1..];
    }
  }

  /** Header, finished stream and trailer make a file that decompresses. */
  lemma FileDecompresses(header: seq<Byte>, stream: seq<Byte>, mid: seq<bool>, data: seq<Byte>)
    requires |header| == HEADER_SIZE && header[0] == 0x1f && header[1] == 0x8b && header[2] == 8 && header[3] == 0
    requires Finished(BytesBits(header), BytesBits(stream), mid, data)
    ensures Gunzip(stream + LongBytes(Crc32(data)) + LongBytes(U32(|data|))) == Some(data)
  {
    hide Decode, BytesBits, LongBytes, Pad, AlignUp, LongAt, CrcOf;
    var crc, size := LongBytes(Crc32(data)), LongBytes(U32(|data|));
    var file := stream + crc + size;
    assert file == stream + (crc + size);
    BytesFromBits(header, stream);
    PrefixBits(stream, crc + size);
    assert Decode(BytesBits(file), 8 * HEADER_SIZE, []) == Some((|mid|, data));
    PadAlign(mid);
    assert AlignUp(|mid|) == 8 * |stream|;
    LongReads(file, |stream|, Crc32(data));
    LongReads(file, |stream| + 4, U32(|data|));
  }

  /** The first ten bytes: magic, method 8, no flags, no time, and the operating system. */
  lemma HeaderBytes(h: seq<Byte>)
    requires h == LongBytes(0x00088b1f) + LongBytes(0) + WordBytes(0x300)
    ensures h == [0x1f, 0x8b, 8, 0, 0, 0, 0, 0, 0, 3] && |h| == HEADER_SIZE
  {
    hide LongBytes, WordBytes, Low, Shr;
    MagicBytes();
    ZeroBytes();
  }

  lemma ZeroBytes()
    ensures LongBytes(0) == [0, 0, 0, 0] && WordBytes(0x300) == [0, 3]
  {
    hide LongBytes, WordBytes, Low, Shr, Pow2;
    Pow2Values();
    ShlMul(0, 16);
    LowShrUnique(0, 0, 16);
    ShlMul(0, 8);
    LowShrUnique(0, 0, 8);
    ShlMul(3, 8);
    LowShrUnique(0, 3, 8);
    LongBytesSplit(0);
    WordBytesIs(0);
    WordBytesIs(0x300);
  }

  lemma WordBytesIs(w: nat)
    requires w < 0x1_0000 && Low(w, 8) < 256 && Shr(w, 8) < 256
    ensures WordBytes(w) == [Low(w, 8), Shr(w, 8)]
  {
  }

  lemma MagicBytes()
    ensures LongBytes(0x00088b1f) == [0x1f, 0x8b, 8, 0]
  {
    hide LongBytes, Low, Shr, Pow2;
    MagicWords();
    LongBytesSplit(0x00088b1f);
  }

  lemma MagicWords()
    ensures Low(0x00088b1f, 16) == 0x8b1f && Shr(0x00088b1f, 16) == 8
    ensures Low(0x8b1f, 8) == 0x1f && Shr(0x8b1f, 8) == 0x8b && Low(8, 8) == 8 && Shr(8, 8) == 0
  {
    hide *;
    Pow2Values();
    ShlMul(8, 16);
    LowShrUnique(0x8b1f, 8, 16);
    ShlMul(0x8b, 8);
    LowShrUnique(0x1f, 0x8b, 8);
    ShlMul(0, 8);
    LowShrUnique(8, 0, 8);
  }

  lemma StartBits(w: BitWriter)
    requires w.Valid() && w.biValid == 0
    ensures w.Sent() == BytesBits(w.Bytes()) && Emitted(w.Sent(), w.Sent(), [])
  {
    hide BytesBits, Emitted;
    NoBits(w.biBuf);
    EmittedStart(w.Sent());
  }

  /** The loop of deflate can start. */
  lemma ReadyToDeflate(d: Deflater, head: seq<bool>)
    requires d.Apart() && d.win.Valid() && d.coder.Valid() && d.coder.tokens == []
    requires d.win.inserted == d.win.strstart == d.win.blockStart == d.win.base == 0
    requires (d.win.eofile || d.win.lookahead >= MIN_LOOKAHEAD) && (d.win.lookahead > 0 ==> d.win.Hashed())
    requires head == d.coder.w.Sent() && Emitted(head, head, [])
    ensures d.Between(head, false, MIN_MATCH - 1)
  {
    hide Window.Valid, Window.Hashed, Emitted, Kept, Hash2;
    d.NotAwaiting(MIN_MATCH - 1);
    assert d.win.data[..0] == [];
    CoveredNone(d.win.data, 0);
    assert d.Sent(head, 0);
  }

  /** The header up to the time stamp. */
  method WriteMagic(w: BitWriter)
    requires w.Valid()
    modifies w`outcnt, w`file, w.outbuf
    ensures w.Valid() && w.BufferValid() && w.biValid == old(w.biValid)
    ensures w.Bytes() == old(w.Bytes()) + LongBytes(0x00088b1f) + LongBytes(0)
  {
    hide LongBytes, Pow2;
    w.Put32(0x00088b1f);
    w.Put32(0);
  }

  /** The rest of the header: flags and operating system. */
  method WriteFlags(coder: Coder)
    requires coder.Valid()
    modifies coder.w`outcnt, coder.w`file, coder.w.outbuf
    ensures coder.Valid() && coder.w.Valid() && coder.w.BufferValid()
    ensures coder.w.Bytes() == old(coder.w.Bytes()) + WordBytes(0x300)
  {
    hide Buffered, Tallied, Constants.Valid, WordBytes, Pow2, Trees.Apart;
    coder.w.Put16(0x300);
  }

  method NewWindow(source: seq<Byte>, supply: nat -> int) returns (win: Window)
    ensures fresh(win) && fresh(win.window) && fresh(win.head) && fresh(win.prev)
    ensures win.Zeroed() && win.rest == source && win.supply == supply && win.Shape()
  {
    hide *;
    var crcTable := FillTable();
    win := new Window(source, supply, crcTable[..]);
  }

  /** The output with the first words of the header, and the tables of the coder. */
  method NewCoder() returns (coder: Coder)
    ensures coder.Valid() && coder.tokens == [] && fresh(coder) && fresh(coder.w) && fresh(coder.w.outbuf)
    ensures fresh(coder.trees.Repr) && fresh(coder.lBuf) && fresh(coder.dBuf) && fresh(coder.flagBuf)
    ensures coder.w.BufferValid() && coder.w.biValid == 0 && coder.w.Bytes() == LongBytes(0x00088b1f) + LongBytes(0)
  {
    hide *;
    var w := new BitWriter();
    WriteMagic(w);
    assert [] + LongBytes(0x00088b1f) == LongBytes(0x00088b1f);
    coder := new Coder(w);
  }

  /** zip, up to the call of deflate: the tables, the first input, and the header. */
  method SetUp(source: seq<Byte>, supply: nat -> int) returns (d: Deflater, ghost header: seq<Byte>)
    ensures fresh(d) && d.Apart() && fresh(d.CoderRepr) && fresh(d.WindowRepr)
    ensures d.Between(BytesBits(header), false, MIN_MATCH - 1) && d.win.data + d.win.rest == source && d.win.supply == supply
    ensures header == [0x1f, 0x8b, 8, 0, 0, 0, 0, 0, 0, 3] && |header| == HEADER_SIZE
  {
    hide *;
    var win := NewWindow(source, supply);
    var coder := NewCoder();
    win.LmInit();
    WriteFlags(coder);
    d := new Deflater(win, coder);
    d.ApartParts();
    var w := coder.w;
    header := w.Bytes();
    HeaderBytes(header);
    StartBits(w);
    ReadyToDeflate(d, w.Sent());
  }

  lemma DoneParts(d: Deflater, head: seq<bool>, mid: seq<bool>)
    requires d.Done(head, mid) && d.win.Valid() && d.Place() == |d.win.data|
    ensures d.Apart() && d.coder.w.BufferValid() && Finished(head, BytesBits(d.coder.w.Bytes()), mid, d.win.data)
    ensures 0xffff_ffff - d.win.crc == Crc32(d.win.data) && d.win.isize == U32(|d.win.data|)
    ensures d.win.eofile ==> d.win.rest == [] || FailsWithin(d.win.supply, |d.win.data|)
  {
    hide Finished, Window.Chained, Window.Shows;
    assert d.win.data[..|d.win.data|] == d.win.data;
  }

  /** One of the first reads fails. */
  ghost predicate FailsWithin(supply: nat -> int, n: nat) {
    exists k: nat :: k <= n && supply(k) < 0
  }

  /** What is in the file is what was read: all of the input, or what came before a read
      that failed. */
  ghost predicate Recovers(file: seq<Byte>, source: seq<Byte>, supply: nat -> int) {
    var data := Gunzip(file);
    data.Some? && data.value <= source && (data.value == source || FailsWithin(supply, |data.value|))
  }

  /** pack_gzip and zip: reads the input, piece by piece as the reads deliver it, and writes
      a gzip file; a read that fails is taken for the end of the input. */
  method PackGzip(source: seq<Byte>, supply: nat -> int) returns (file: seq<Byte>)
    ensures Recovers(file, source, supply)
    ensures [0x1f, 0x8b, 8, 0, 0, 0, 0, 0, 0, 3] <= file
  {
    hide *;
    ghost var header;
    var d;
    d, header := SetUp(source, supply);
    var mid := d.Deflate(BytesBits(header));
    DoneParts(d, BytesBits(header), mid);
    d.ApartParts();
    var w := d.coder.w;
    ghost var stream := w.Bytes();
    w.Put32(0xffff_ffff - d.win.crc);
    w.Put32(d.win.isize);
    file := WriteOut(w);
    FileDecompresses(header, stream, mid, d.win.data);
    HeaderFirst(header, stream, mid, d.win.data, file);
    assert d.win.data + d.win.rest == source;
    RecoversFrom(file, source, supply, d.win.data);
  }

  lemma HeaderFirst(header: seq<Byte>, stream: seq<Byte>, mid: seq<bool>, data: seq<Byte>, file: seq<Byte>)
    requires Finished(BytesBits(header), BytesBits(stream), mid, data)
    requires file == stream + LongBytes(Crc32(data)) + LongBytes(U32(|data|))
    ensures header <= file
  {
    hide BytesBits, Decode, LongBytes, Pad, Crc32;
    BytesFromBits(header, stream);
  }

  lemma RecoversFrom(file: seq<Byte>, source: seq<Byte>, supply: nat -> int, data: seq<Byte>)
    requires Gunzip(file) == Some(data) && data <= source && (data == source || FailsWithin(supply, |data|))
    ensures Recovers(file, source, supply)
  {
    hide Gunzip;
  }

  /** The last flush_outbuf. */
  method WriteOut(w: BitWriter) returns (file: seq<Byte>)
    requires w.BufferValid()
    modifies w`outcnt, w`file
    ensures file == old(w.Bytes())
  {
    w.FlushOutbuf();
    file := w.file;
  }
}
