/** How the pending tokens lie in l_buf, d_buf and flag_buf. */
module Buffers {
  import opened Bits
  import opened Tokens

  const LIT_BUFSIZE: nat := 0x2000

  function Matches(ts: seq<Token>): (n: nat)
    ensures n <= |ts|
  {
    if ts == [] then 0 else Matches(ts[..|ts| - 1]) + (if ts[|ts| - 1].Match? then 1 else 0)
  }

  /** One bit per token: is it a match? */
  function Flags(ts: seq<Token>): (b: seq<bool>)
    ensures |b| == |ts| && forall i :: 0 <= i < |ts| ==> b[i] == ts[i].Match?
  {
    seq(|ts|, i requires 0 <= i < |ts| => ts[i].Match?)
  }

  function Least(a: nat, b: nat): nat {
    if a < b then a else b
  }

  /** The flags of the `j`-th group of eight tokens, as a byte. */
  function FlagByte(ts: seq<Token>, j: nat): nat
    requires 8 * j <= |ts|
  {
    FromBits(Flags(ts)[8 * j..Least(8 * j + 8, |ts|)])
  }

  ghost predicate Stored(t: Token, lc: nat, dists: seq<nat>, k: nat) {
    WellFormed(t)
    && match t
       case Lit(b) => lc == b
       case Match(len, dist) => lc + MIN_MATCH == len && k < |dists| && dists[k] + 1 == dist
  }

  /** The three buffers hold the tokens `ts`. */
  ghost predicate Buffered(ts: seq<Token>, lBuf: seq<Byte>, dBuf: seq<nat>, flagBuf: seq<Byte>,
                           lastLit: nat, lastDist: nat, lastFlags: nat, flags: nat, flagBit: nat)
  {
    |lBuf| == LIT_BUFSIZE && |dBuf| == LIT_BUFSIZE && |flagBuf| == LIT_BUFSIZE / 8
    && lastLit == |ts| < LIT_BUFSIZE && lastDist == Matches(ts) && 8 * lastFlags <= |ts| < 8 * lastFlags + 8
    && flags == FlagByte(ts, lastFlags) && flagBit == Pow2(|ts| - 8 * lastFlags)
    && StoredAll(ts, lBuf, dBuf) && Grouped(ts, flagBuf, lastFlags)
  }

  /** The literals, lengths and distances of the tokens are in the first two buffers. */
  ghost predicate StoredAll(ts: seq<Token>, lBuf: seq<Byte>, dBuf: seq<nat>)
    requires |ts| <= |lBuf|
  {
    forall i :: 0 <= i < |ts| ==> Stored(ts[i], lBuf[i], dBuf, Matches(ts[..i]))
  }

  /** The flags of the first `n` groups of eight are in the third. */
  ghost predicate Grouped(ts: seq<Token>, flagBuf: seq<Byte>, n: nat)
    requires 8 * n <= |ts| && n <= |flagBuf|
  {
    forall j :: 0 <= j < n ==> flagBuf[j] == FlagByte(ts, j)
  }

  lemma {:induction false} FromBitsSnoc(b: seq<bool>, x: bool)
    ensures FromBits(b + [x]) == FromBits(b) + (if x then Pow2(|b|) else 0)
  {
    if b == [] {
      assert [x][1..] == [];
      assert b + [x] == [x];
    } else {
      FromBitsSnoc(b[1..], x);
      assert (b + [x])[1..] == b[1..] + [x];
    }
  }

  lemma {:induction false} FromBitsAt(b: seq<bool>, k: nat)
    requires k < |b|
    ensures Shr(FromBits(b), k) == FromBits(b[k..]) && (Shr(FromBits(b), k) % 2 == 1 <==> b[k])
    decreases k
  {
    if k > 0 {
      FromBitsAt(b[1..], k - 1);
      assert b[1..][k - 1..] == b[k..];
    } else {
      assert b[0..] == b;
    }
  }

  lemma FlagByteBound(ts: seq<Token>, j: nat)
    requires 8 * j <= |ts|
    ensures FlagByte(ts, j) < 256 && FlagByte(ts, j) < Pow2(Least(8 * j + 8, |ts|) - 8 * j)
  {
    var n := Least(8 * j + 8, |ts|) - 8 * j;
    Pow2Values();
    Pow2Mono(n, 8);
  }

  lemma FlagByteOld(ts: seq<Token>, t: Token, j: nat)
    requires 8 * j + 8 <= |ts|
    ensures FlagByte(ts + [t], j) == FlagByte(ts, j)
  {
    assert Flags(ts + [t])[8 * j..8 * j + 8] == Flags(ts)[8 * j..8 * j + 8];
  }

  /** A new token's flag goes above the flags already in the byte. */
  lemma FlagByteNew(ts: seq<Token>, t: Token, j: nat)
    requires 8 * j <= |ts| < 8 * j + 8
    ensures FlagByte(ts + [t], j) == if t.Match? then BitOr(FlagByte(ts, j), Pow2(|ts| - 8 * j)) else FlagByte(ts, j)
  {
    var b := Flags(ts)[8 * j..];
    LastGroup(ts, t, j);
    hide FlagByte, Flags;
    FromBitsSnoc(b, t.Match?);
    ShlOne(|b|);
    BitOrDisjoint(FromBits(b), 1, |b|);
  }

  lemma LastGroup(ts: seq<Token>, t: Token, j: nat)
    requires 8 * j <= |ts| < 8 * j + 8
    ensures FlagByte(ts, j) == FromBits(Flags(ts)[8 * j..])
    ensures FlagByte(ts + [t], j) == FromBits(Flags(ts)[8 * j..] + [t.Match?])
  {
    hide FromBits;
    assert Flags(ts)[8 * j..|ts|] == Flags(ts)[8 * j..];
    assert Flags(ts + [t])[8 * j..|ts| + 1] == Flags(ts)[8 * j..] + [t.Match?];
  }

  lemma FlagByteNone(ts: seq<Token>, j: nat)
    requires |ts| == 8 * j
    ensures FlagByte(ts, j) == 0 && Pow2(0) == 1
  {
    assert Flags(ts)[|ts|..|ts|] == [];
  }

  lemma MatchesSnoc(ts: seq<Token>, t: Token)
    ensures Matches(ts + [t]) == Matches(ts) + (if t.Match? then 1 else 0)
    ensures forall i :: 0 <= i <= |ts| ==> (ts + [t])[..i] == ts[..i]
  {
    assert (ts + [t])[..|ts|] == ts;
  }

  lemma {:induction false} MatchesPrefix(ts: seq<Token>, i: nat)
    requires i <= |ts|
    ensures Matches(ts[..i]) <= Matches(ts)
    ensures i < |ts| ==> Matches(ts[..i + 1]) == Matches(ts[..i]) + (if ts[i].Match? then 1 else 0)
    ensures i < |ts| && ts[i].Match? ==> Matches(ts[..i]) < Matches(ts)
    decreases |ts|
  {
    if i < |ts| {
      assert ts[..i + 1][..i] == ts[..i];
      var r := ts[..|ts| - 1];
      if i < |r| {
        MatchesPrefix(r, i);
        assert r[..i] == ts[..i] && r[..i + 1] == ts[..i + 1];
      } else {
        assert r == ts[..i];
        assert ts[..i + 1] == ts;
      }
    } else {
      assert ts[..i] == ts;
    }
  }

  lemma BufferedNone(lBuf: seq<Byte>, dBuf: seq<nat>, flagBuf: seq<Byte>)
    requires |lBuf| == LIT_BUFSIZE && |dBuf| == LIT_BUFSIZE && |flagBuf| == LIT_BUFSIZE / 8
    ensures Buffered([], lBuf, dBuf, flagBuf, 0, 0, 0, 0, 1)
  {
    FlagByteNone([], 0);
  }

  /** Storing one more token, the flags of which do not fill their byte. */
  lemma BufferToken(ts: seq<Token>, t: Token, lBuf: seq<Byte>, dBuf: seq<nat>, flagBuf: seq<Byte>,
                    lastLit: nat, lastDist: nat, lastFlags: nat, flags: nat, flagBit: nat,
                    lBuf': seq<Byte>, dBuf': seq<nat>, flags': nat, lc: Byte)
    requires Buffered(ts, lBuf, dBuf, flagBuf, lastLit, lastDist, lastFlags, flags, flagBit)
    requires WellFormed(t) && lastLit + 1 < LIT_BUFSIZE && lastDist < LIT_BUFSIZE
    requires lBuf' == lBuf[lastLit := lc] && lc == (if t.Lit? then t.b else t.len - MIN_MATCH)
    requires dBuf' == if t.Match? then dBuf[lastDist := t.dist - 1] else dBuf
    requires flags' == if t.Match? then BitOr(flags, flagBit) else flags
    requires lastLit + 1 != 8 * lastFlags + 8
    ensures Buffered(ts + [t], lBuf', dBuf', flagBuf, lastLit + 1, lastDist + (if t.Match? then 1 else 0),
                     lastFlags, flags', flagBit * 2)
  {
    hide FlagByte, Pow2, BitOr, WellFormed, Matches, StoredAll, Grouped;
    BufferStored(ts, t, lBuf, dBuf, lBuf', dBuf', lc);
    CountSnoc(ts, t);
    FlagByteNew(ts, t, lastFlags);
    GroupsKept(ts, t, flagBuf, lastFlags);
    NextPow2(|ts| - 8 * lastFlags);
  }

  /** Storing one more token, which completes a byte of flags. */
  lemma BufferEighth(ts: seq<Token>, t: Token, lBuf: seq<Byte>, dBuf: seq<nat>, flagBuf: seq<Byte>,
                    lastLit: nat, lastDist: nat, lastFlags: nat, flags: nat, flagBit: nat,
                    lBuf': seq<Byte>, dBuf': seq<nat>, flags': nat, lc: Byte)
    requires Buffered(ts, lBuf, dBuf, flagBuf, lastLit, lastDist, lastFlags, flags, flagBit)
    requires WellFormed(t) && lastLit + 1 < LIT_BUFSIZE && lastDist < LIT_BUFSIZE
    requires lBuf' == lBuf[lastLit := lc] && lc == (if t.Lit? then t.b else t.len - MIN_MATCH)
    requires dBuf' == if t.Match? then dBuf[lastDist := t.dist - 1] else dBuf
    requires flags' == if t.Match? then BitOr(flags, flagBit) else flags
    requires lastLit + 1 == 8 * lastFlags + 8
    ensures flags' < 256 && lastFlags < |flagBuf|
    ensures Buffered(ts + [t], lBuf', dBuf', flagBuf[lastFlags := flags'], lastLit + 1,
                     lastDist + (if t.Match? then 1 else 0), lastFlags + 1, 0, 1)
  {
    hide FlagByte, Pow2, BitOr, WellFormed, Matches, StoredAll, Grouped;
    BufferStored(ts, t, lBuf, dBuf, lBuf', dBuf', lc);
    CountSnoc(ts, t);
    FlagByteNew(ts, t, lastFlags);
    FlagByteBound(ts + [t], lastFlags);
    FlagByteNone(ts + [t], lastFlags + 1);
    EighthFlags(ts, t, flagBuf, flags', lastFlags);
  }

  lemma EighthFlags(ts: seq<Token>, t: Token, flagBuf: seq<Byte>, flags: Byte, n: nat)
    requires |ts| == 8 * n + 7 && n < |flagBuf| && Grouped(ts, flagBuf, n) && flags == FlagByte(ts + [t], n)
    ensures Grouped(ts + [t], flagBuf[n := flags], n + 1)
  {
    hide FlagByte;
    OldGroups(ts, t, n);
  }

  lemma GroupsKept(ts: seq<Token>, t: Token, flagBuf: seq<Byte>, n: nat)
    requires 8 * n <= |ts| && n <= |flagBuf| && Grouped(ts, flagBuf, n)
    ensures Grouped(ts + [t], flagBuf, n)
  {
    hide FlagByte;
    OldGroups(ts, t, n);
  }

  lemma CountSnoc(ts: seq<Token>, t: Token)
    ensures Matches(ts + [t]) == Matches(ts) + (if t.Match? then 1 else 0)
  {
    MatchesSnoc(ts, t);
  }

  lemma OldGroups(ts: seq<Token>, t: Token, n: nat)
    requires 8 * n <= |ts|
    ensures forall j :: 0 <= j < n ==> FlagByte(ts + [t], j) == FlagByte(ts, j)
  {
    forall j | 0 <= j < n ensures FlagByte(ts + [t], j) == FlagByte(ts, j) {
      FlagByteOld(ts, t, j);
    }
  }

  lemma BufferStored(ts: seq<Token>, t: Token, lBuf: seq<Byte>, dBuf: seq<nat>, lBuf': seq<Byte>, dBuf': seq<nat>, lc: Byte)
    requires |ts| < |lBuf| && Matches(ts) < |dBuf| && WellFormed(t) && StoredAll(ts, lBuf, dBuf)
    requires lBuf' == lBuf[|ts| := lc] && lc == (if t.Lit? then t.b else t.len - MIN_MATCH)
    requires dBuf' == if t.Match? then dBuf[Matches(ts) := t.dist - 1] else dBuf
    ensures StoredAll(ts + [t], lBuf', dBuf')
  {
    hide Matches, WellFormed, Stored;
    var ts' := ts + [t];
    forall i | 0 <= i < |ts'| ensures Stored(ts'[i], lBuf'[i], dBuf', Matches(ts'[..i])) {
      if i < |ts| {
        MatchesPrefix(ts, i);
        Prefix(ts, t, i);
        StoredStill(ts[i], lBuf[i], dBuf, dBuf', Matches(ts[..i]), Matches(ts));
      } else {
        Prefix(ts, t, i);
        StoredNew(t, lc, dBuf, dBuf', Matches(ts));
      }
    }
  }

  lemma Prefix(ts: seq<Token>, t: Token, i: nat)
    requires i <= |ts|
    ensures (ts + [t])[..i] == ts[..i] && ts[..|ts|] == ts && (i < |ts| ==> (ts + [t])[i] == ts[i])
  {
  }

  /** A token that is stored stays so when a distance is written behind its own. */
  lemma StoredStill(t: Token, lc: nat, dBuf: seq<nat>, dBuf': seq<nat>, k: nat, n: nat)
    requires Stored(t, lc, dBuf, k) && (t.Match? ==> k < n)
    requires |dBuf| == |dBuf'| && forall i :: 0 <= i < |dBuf| && i != n ==> dBuf'[i] == dBuf[i]
    ensures Stored(t, lc, dBuf', k)
  {
    hide WellFormed;
  }

  lemma StoredNew(t: Token, lc: nat, dBuf: seq<nat>, dBuf': seq<nat>, n: nat)
    requires WellFormed(t) && n < |dBuf| && lc == (if t.Lit? then t.b else t.len - MIN_MATCH)
    requires dBuf' == if t.Match? then dBuf[n := t.dist - 1] else dBuf
    ensures Stored(t, lc, dBuf', n)
  {
  }

  lemma NextPow2(k: nat)
    ensures Pow2(k + 1) == 2 * Pow2(k)
  {
  }
}
