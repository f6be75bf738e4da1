/** The output side of the compressor: a 32-bit bit buffer in front of a byte
    buffer in front of the file. */
module BitWriting {
  import opened Bits

  const OUTBUFSIZ: nat := 8192
  const BUF_SIZE: nat := 32

  /** `s` filled up with zero bits to a byte boundary. */
  function Pad(s: seq<bool>): (r: seq<bool>)
    ensures |r| % 8 == 0 && s <= r && |r| < |s| + 8
  {
    s + Zeros(PadCount(|s|))
  }

  function PadCount(n: nat): nat {
    (8 - n % 8) % 8
  }

  function WordBytes(w: nat): (r: seq<Byte>)
    requires w < 0x1_0000
    ensures |r| == 2
  {
    WordByteBounds(w);
    [Low(w, 8), Shr(w, 8)]
  }

  lemma WordByteBounds(w: nat)
    requires w < 0x1_0000
    ensures Low(w, 8) < 256 && Shr(w, 8) < 256
  {
    Pow2Values();
    ShrLess(w, 8, 8);
  }

  function LongBytes(n: nat): (r: seq<Byte>)
    requires n < 0x1_0000_0000
    ensures |r| == 4
  {
    LongWordBounds(n);
    WordBytes(Low(n, 16)) + WordBytes(Shr(n, 16))
  }

  lemma LongWordBounds(n: nat)
    requires n < 0x1_0000_0000
    ensures Low(n, 16) < 0x1_0000 && Shr(n, 16) < 0x1_0000
  {
    Pow2Values();
    ShrLess(n, 16, 16);
  }

  lemma WordBytesBits(w: nat)
    requires w < 0x1_0000
    ensures BytesBits(WordBytes(w)) == ToBits(w, 16)
  {
    ToBitsSplit(w, 8, 8);
    var b := WordBytes(w);
    BytesBitsSnoc([b[0]], b[1]);
    BytesBitsSnoc([], b[0]);
  }

  lemma LongBytesBits(n: nat)
    requires n < 0x1_0000_0000
    ensures BytesBits(LongBytes(n)) == ToBits(n, 32)
  {
    LongWordBounds(n);
    hide *;
    ToBitsSplit(n, 16, 16);
    WordBytesBits(Low(n, 16));
    WordBytesBits(Shr(n, 16));
    LongBytesSplit(n);
    BytesBitsConcat(WordBytes(Low(n, 16)), WordBytes(Shr(n, 16)));
  }

  lemma LongBytesSplit(n: nat)
    requires n < 0x1_0000_0000 && Low(n, 16) < 0x1_0000 && Shr(n, 16) < 0x1_0000
    ensures LongBytes(n) == WordBytes(Low(n, 16)) + WordBytes(Shr(n, 16))
  {
  }

  // ----- what send_bits does to the two numbers in the bit buffer

  lemma {:induction false} LowShl(v: nat, j: nat, k: nat)
    ensures Low(Shl(v, j), j + k) == Shl(Low(v, k), j)
    decreases j
  {
    if j > 0 {
      LowShl(v, j - 1, k);
      assert Shl(v, j) / 2 == Shl(v, j - 1);
    }
  }

  lemma {:induction false} ShlLess(v: nat, j: nat, k: nat)
    requires v < Pow2(k)
    ensures Shl(v, j) + Pow2(j) <= Pow2(j + k)
    decreases j
  {
    if j > 0 {
      ShlLess(v, j - 1, k);
    }
  }

  /** `buf | (value << valid)`, cut to 32 bits, appends the low bits of `value`. */
  lemma OrAppends(buf: nat, valid: nat, value: nat, k: nat)
    requires buf < Pow2(valid) && valid + k == BUF_SIZE
    ensures var n := BitOr(buf, Low(Shl(value, valid), BUF_SIZE));
            n < 0x1_0000_0000 && ToBits(n, BUF_SIZE) == ToBits(buf, valid) + ToBits(Low(value, k), k)
  {
    Pow2Values();
    LowShl(value, valid, k);
    BitOrDisjoint(buf, Low(value, k), valid);
    ToBitsConcat(buf, valid, Low(value, k), k);
    ShlLess(Low(value, k), valid, k);
  }

  /** When everything fits, the new buffer is simply the longer bit string. */
  lemma OrFits(buf: nat, valid: nat, value: nat, length: nat)
    requires buf < Pow2(valid) && value < Pow2(length) && valid + length <= BUF_SIZE
    ensures var n := BitOr(buf, Low(Shl(value, valid), BUF_SIZE));
            n < Pow2(valid + length) && ToBits(n, valid + length) == ToBits(buf, valid) + ToBits(value, length)
  {
    hide *;
    ShlLess(value, valid, length);
    Pow2Mono(valid + length, BUF_SIZE);
    LowSmall(Shl(value, valid), BUF_SIZE);
    BitOrDisjoint(buf, value, valid);
    ToBitsConcat(buf, valid, value, length);
  }

  // ----- what bi_windup writes

  function WindupBytes(bits: nat, cnt: int): (r: seq<Byte>)
    decreases cnt
  {
    if cnt <= 0 then [] else [bits % 256] + WindupBytes(bits / 256, cnt - 8)
  }

  lemma {:induction false} WindupBits(bits: nat, cnt: nat)
    requires bits < Pow2(cnt)
    ensures BytesBits(WindupBytes(bits, cnt)) == ToBits(bits, cnt) + Zeros(PadCount(cnt))
    decreases cnt
  {
    hide *;
    PadCounts(cnt);
    if cnt == 0 {
      WindupNone(bits);
    } else if cnt < 8 {
      WindupLast(bits, cnt);
    } else {
      WindupByte(bits, cnt);
      WindupBits(bits / 256, cnt - 8);
      Assoc(ToBits(bits % 256, 8), ToBits(bits / 256, cnt - 8), Zeros(PadCount(cnt)));
    }
  }

  lemma PadCounts(n: nat)
    ensures PadCount(0) == 0
    ensures 0 < n < 8 ==> PadCount(n) == 8 - n
    ensures 8 <= n ==> PadCount(n) == PadCount(n - 8)
  {
  }

  lemma WindupNone(bits: nat)
    ensures BytesBits(WindupBytes(bits, 0)) == ToBits(bits, 0) + Zeros(0)
  {
  }

  lemma WindupLast(bits: nat, cnt: nat)
    requires bits < Pow2(cnt) && 0 < cnt < 8
    ensures BytesBits(WindupBytes(bits, cnt)) == ToBits(bits, cnt) + Zeros(8 - cnt)
  {
    assert bits < 256 by {
      Pow2Values();
      Pow2Mono(cnt, 8);
    }
    WindupOne(bits, cnt);
    hide *;
    LowSmall(bits, cnt);
    ToBitsSplit(bits, cnt, 8 - cnt);
    ToBitsZero(8 - cnt);
    BytesBitsOne(bits);
  }

  lemma WindupOne(bits: nat, cnt: nat)
    requires bits < 256 && 0 < cnt < 8
    ensures WindupBytes(bits, cnt) == [bits]
  {
    assert WindupBytes(bits / 256, cnt - 8) == [];
  }

  lemma BytesBitsOne(b: Byte)
    ensures BytesBits([b]) == ToBits(b, 8)
  {
    BytesBitsSnoc([], b);
    assert [] + [b] == [b];
    assert BytesBits([]) == [];
  }

  lemma WindupByte(bits: nat, cnt: nat)
    requires bits < Pow2(cnt) && cnt >= 8
    ensures bits / 256 < Pow2(cnt - 8)
    ensures ToBits(bits, cnt) == ToBits(bits % 256, 8) + ToBits(bits / 256, cnt - 8)
    ensures BytesBits(WindupBytes(bits, cnt)) == ToBits(bits % 256, 8) + BytesBits(WindupBytes(bits / 256, cnt - 8))
  {
    ShrDiv(bits, 8);
    assert Pow2(8) == 256 by { Pow2Values(); }
    ShrLess(bits, 8, cnt - 8);
    ToBitsSplit(bits, 8, cnt - 8);
    assert ([bits % 256] + WindupBytes(bits / 256, cnt - 8))[1..] == WindupBytes(bits / 256, cnt - 8);
  }

  lemma PadAfterBytes(bytes: seq<bool>, tail: seq<bool>)
    requires |bytes| % 8 == 0
    ensures Pad(bytes + tail) == bytes + (tail + Zeros(PadCount(|tail|)))
  {
    hide Zeros;
    assert PadCount(|bytes + tail|) == PadCount(|tail|) by {
      assert |bytes + tail| % 8 == |tail| % 8;
    }
    hide PadCount;
    Assoc(bytes, tail, Zeros(PadCount(|tail|)));
  }

  class BitWriter {
    const outbuf: array<Byte>
    var outcnt: nat
    var biBuf: nat
    var biValid: nat
    var file: seq<Byte>  // everything handed to write() so far

    ghost predicate BufferValid()
      reads this
    {
      outbuf.Length == OUTBUFSIZ && outcnt < OUTBUFSIZ
    }

    ghost predicate Valid()
      reads this
    {
      BufferValid() && biValid < BUF_SIZE && biBuf < Pow2(biValid)
    }

    /** All whole bytes produced so far. */
    ghost function Bytes(): seq<Byte>
      requires BufferValid()
      reads this, outbuf
    {
      file + outbuf[..outcnt]
    }

    /** All bits produced so far: the compressed stream, as section 3.1.1 reads it. */
    ghost function Sent(): seq<bool>
      requires Valid()
      reads this, outbuf
    {
      BytesBits(Bytes()) + ToBits(biBuf, biValid)
    }

    constructor ()
      ensures Valid() && fresh(outbuf) && Bytes() == [] && Sent() == [] && biValid == 0
    {
      outbuf := new Byte[OUTBUFSIZ];
      outcnt, biBuf, biValid, file := 0, 0, 0, [];
    }

    method FlushOutbuf()
      requires outbuf.Length == OUTBUFSIZ && outcnt <= OUTBUFSIZ
      modifies this`outcnt, this`file
      ensures BufferValid() && outcnt == 0
      ensures Bytes() == old(file + outbuf[..outcnt])
    {
      if outcnt == 0 {
        return;
      }
      file := file + outbuf[..outcnt];
      outcnt := 0;
    }

    method Put8(c: Byte)
      requires BufferValid()
      modifies this`outcnt, this`file, outbuf
      ensures BufferValid() && Bytes() == old(Bytes()) + [c]
    {
      outbuf[outcnt] := c;
      outcnt := outcnt + 1;
      assert file + outbuf[..outcnt] == old(Bytes()) + [c];
      if outcnt == OUTBUFSIZ {
        FlushOutbuf();
      }
    }

    /** Two bytes, low byte first; the buffer may fill up after either one. */
    method Put16(w: nat)
      requires BufferValid() && w < 0x1_0000
      modifies this`outcnt, this`file, outbuf
      ensures BufferValid() && Bytes() == old(Bytes()) + WordBytes(w)
    {
      WordByteBounds(w);
      outbuf[outcnt] := Low(w, 8);
      var hi := Shr(w, 8);
      if outcnt < OUTBUFSIZ - 2 {
        outbuf[outcnt + 1] := hi;
        outcnt := outcnt + 2;
        assert outbuf[..outcnt] == old(outbuf[..outcnt]) + WordBytes(w);
        return;
      }
      outcnt := outcnt + 1;
      assert file + outbuf[..outcnt] == old(Bytes()) + [Low(w, 8)];
      if outcnt == OUTBUFSIZ {
        FlushOutbuf();
      }
      Put8(hi);
    }

    method Put32(n: nat)
      requires BufferValid() && n < 0x1_0000_0000
      modifies this`outcnt, this`file, outbuf
      ensures BufferValid() && Bytes() == old(Bytes()) + LongBytes(n)
    {
      LongWordBounds(n);
      Put16(Low(n, 16));
      Put16(Shr(n, 16));
    }

    /** Appends `length` bits of `value` to the stream. */
    method SendBits(value: nat, length: nat)
      requires Valid() && length <= 16 && value < Pow2(length)
      modifies this`outcnt, this`file, this`biBuf, this`biValid, outbuf
      ensures Valid() && Sent() == old(Sent()) + ToBits(value, length)
    {
      hide Low, Shl, Shr, BitOr, ToBits, BytesBits, Pow2, LongBytes;
      ghost var bytes, held := Bytes(), ToBits(biBuf, biValid);
      ghost var k := BUF_SIZE - biValid;
      var newBuf := BitOr(biBuf, Low(Shl(value, biValid), BUF_SIZE));
      var newLength := length + biValid;
      if newLength >= BUF_SIZE {
        OrAppends(biBuf, biValid, value, k);
        ToBitsSplit(value, k, length - k);
        ShrLess(value, k, length - k);
        var rest := Shr(value, BUF_SIZE - biValid);
        Put32(newBuf);
        LongBytesBits(newBuf);
        BytesBitsConcat(bytes, LongBytes(newBuf));
        newBuf := rest;
        newLength := newLength - BUF_SIZE;
      } else {
        OrFits(biBuf, biValid, value, length);
      }
      biBuf := newBuf;
      biValid := newLength;
    }

    /** Writes out the bits of an incomplete byte. */
    method BiWindup()
      requires Valid()
      modifies this`outcnt, this`file, this`biBuf, this`biValid, outbuf
      ensures Valid() && biValid == 0 && biBuf == 0 && Sent() == Pad(old(Sent()))
      ensures BytesBits(Bytes()) == Sent()
    {
      hide BytesBits, ToBits, Pow2;
      var bits, cnt: int := biBuf, biValid;
      ghost var bytes := Bytes();
      ghost var all := WindupBytes(bits, cnt);
      while cnt > 0
        invariant BufferValid() && Bytes() + WindupBytes(bits, cnt) == bytes + all
        invariant biBuf == old(biBuf) && biValid == old(biValid)
        decreases cnt
      {
        ghost var before := Bytes();
        Put8(bits % 256);
        assert before + WindupBytes(bits, cnt) == Bytes() + WindupBytes(bits / 256, cnt - 8);
        bits := bits / 256;
        cnt := cnt - 8;
      }
      assert Bytes() == bytes + all by {
        assert WindupBytes(bits, cnt) == [];
      }
      WindupBits(biBuf, biValid);
      BytesBitsConcat(bytes, all);
      PadAfterBytes(BytesBits(bytes), ToBits(biBuf, biValid));
      biBuf := 0;
      biValid := 0;
      NoBits(0);
      assert Bytes() == bytes + all;
    }

    /** Aligns, then writes LEN, its complement and the bytes of a stored block. */
    method CopyBlock(buf: array<Byte>, start: nat, len: nat)
      requires Valid() && buf != outbuf && start + len <= buf.Length && len < 0x1_0000
      modifies this`outcnt, this`file, this`biBuf, this`biValid, outbuf
      ensures Valid()
      ensures Sent() == Pad(old(Sent())) + ToBits(len, 16) + ToBits(65535 - len, 16)
                        + BytesBits(buf[start..start + len])
    {
      hide Low, Shl, Shr, BitOr, ToBits, BytesBits, Pow2, LongBytes, Pad;
      BiWindup();
      ghost var aligned := Bytes();
      StoredHeader(len);
      var v := BitOr(Low(len, 16), Low(Shl(0xffff_ffff - len, 16), 32));
      Put32(v);
      LongBytesBits(v);
      BytesBitsConcat(aligned, LongBytes(v));
      ghost var headed := Bytes();
      for i := 0 to len
        invariant BufferValid() && biValid == 0 && biBuf == 0
        invariant Bytes() == headed + buf[start..start + i]
      {
        Put8(buf[start + i]);
        assert buf[start..start + i + 1] == buf[start..start + i] + [buf[start + i]];
      }
      BytesBitsConcat(headed, buf[start..start + len]);
      NoBits(0);
    }
  }

  lemma NoBits(v: nat)
    ensures ToBits(v, 0) == [] && Pow2(0) == 1
  {
  }

  /** The length word and its complement, from the C expression. */
  lemma StoredHeader(len: nat)
    requires len < 0x1_0000
    ensures var v := BitOr(Low(len, 16), Low(Shl(0xffff_ffff - len, 16), 32));
            v < 0x1_0000_0000 && ToBits(v, 32) == ToBits(len, 16) + ToBits(65535 - len, 16)
  {
    hide BitOr, Low, Shl, ToBits, Pow2;
    LengthWordFits(len);
    LowSmall(len, 16);
    OrAppends(len, 16, 0xffff_ffff - len, 16);
    Complement(len);
  }

  lemma LengthWordFits(len: nat)
    requires len < 0x1_0000
    ensures len < Pow2(16)
  {
    Pow2Values();
  }

  lemma Complement(len: nat)
    requires len < 0x1_0000
    ensures Low(0xffff_ffff - len, 16) == 65535 - len
  {
    Pow2Values();
    ShlMul(65535, 16);
    LowShrUnique(65535 - len, 65535, 16);
  }
}
