/** The input side of the compressor: a sliding window over the input, hash chains
    of earlier positions, and the search for the longest match. */
module Windows {
  import opened Bits
  import opened Tokens
  import opened Crc
  import opened Hashing

  const WSIZE: nat := 0x8000
  const WINDOW_SIZE: nat := 2 * WSIZE
  const MIN_LOOKAHEAD: nat := MAX_MATCH + MIN_MATCH + 1
  const MAX_DIST: nat := WSIZE - MIN_LOOKAHEAD
  const MAX_CHAIN_LENGTH: nat := 128
  const GOOD_MATCH: nat := 8
  const NICE_MATCH: nat := 128
  const CRC_START: Word := 0xffff_ffff

  // ----- hash chains

  function HashAt(win: seq<Byte>, q: nat): nat
    requires q + 2 < |win|
  {
    Hash3(win[q], win[q + 1], win[q + 2])
  }

  /** An entry of head or prev: none, or an earlier position with the hash `h`. */
  ghost predicate Link(win: seq<Byte>, q: nat, below: nat, h: nat) {
    q == 0 || (q < below && q + 2 < |win| && HashAt(win, q) == h)
  }

  /** The chains of the positions below `ins`; only the last WSIZE of them have links. */
  ghost predicate Chains(win: seq<Byte>, head: seq<nat>, prev: seq<nat>, ins: nat) {
    |head| == HASH_SIZE && |prev| == WSIZE && ins + 2 <= |win|
    && (forall h: nat :: h < HASH_SIZE ==> Link(win, head[h], ins, h))
    && (forall p: nat :: p < ins <= p + WSIZE ==> Link(win, prev[p % WSIZE], p, HashAt(win, p)))
  }

  lemma SlotsApart(p: nat, q: nat)
    requires p < q < p + WSIZE
    ensures p % WSIZE != q % WSIZE
  {
  }

  /** Inserting a position puts it at the head of its chain; the slot it takes
      belonged to a position that is out of reach now. */
  lemma InsertChains(win: seq<Byte>, head: seq<nat>, prev: seq<nat>, ins: nat)
    requires Chains(win, head, prev, ins) && ins + 2 < |win|
    ensures var h := HashAt(win, ins);
            Link(win, head[h], ins, h) && Chains(win, head[h := ins], prev[ins % WSIZE := head[h]], ins + 1)
  {
    hide HashAt;
    var h := HashAt(win, ins);
    HashSmall(win, ins);
    var prev' := prev[ins % WSIZE := head[h]];
    forall p: nat | p < ins + 1 <= p + WSIZE ensures Link(win, prev'[p % WSIZE], p, HashAt(win, p)) {
      if p < ins {
        SlotsApart(p, ins);
      }
    }
  }

  lemma HashSmall(win: seq<Byte>, q: nat)
    requires q + 2 < |win|
    ensures HashAt(win, q) < HASH_SIZE
  {
  }

  function Slid(m: nat): nat {
    if m >= WSIZE then m - WSIZE else 0
  }

  /** The upper half of the window has become the lower half. */
  ghost predicate Moved(win: seq<Byte>, win': seq<Byte>) {
    WINDOW_SIZE <= |win| == |win'| && forall i :: 0 <= i < WSIZE ==> win'[i] == win[i + WSIZE]
  }

  ghost predicate AllSlid(a: seq<nat>, a': seq<nat>) {
    |a'| == |a| && forall i :: 0 <= i < |a| ==> a'[i] == Slid(a[i])
  }

  lemma MovedSizes(win: seq<Byte>, win': seq<Byte>)
    requires Moved(win, win')
    ensures WINDOW_SIZE <= |win| == |win'|
  {
  }

  lemma MovedAt(win: seq<Byte>, win': seq<Byte>, i: nat)
    requires Moved(win, win') && i < WSIZE
    ensures win'[i] == win[i + WSIZE]
  {
  }

  /** Moving the upper half of the window down keeps the chains. */
  lemma SlideChains(win: seq<Byte>, head: seq<nat>, prev: seq<nat>, win': seq<Byte>, head': seq<nat>, prev': seq<nat>, ins: nat)
    requires Chains(win, head, prev, ins) && WSIZE <= ins && ins + 2 <= WINDOW_SIZE <= |win| == |win'|
    requires Moved(win, win') && AllSlid(head, head') && AllSlid(prev, prev')
    ensures Chains(win', head', prev', ins - WSIZE)
  {
    hide HashAt;
    forall h: nat | h < HASH_SIZE ensures Link(win', head'[h], ins - WSIZE, h) {
      SlideLink(win, win', head[h], ins, ins, h);
    }
    forall p: nat | p < ins - WSIZE <= p + WSIZE ensures Link(win', prev'[p % WSIZE], p, HashAt(win', p)) {
      var s := p % WSIZE;
      assert (p + WSIZE) % WSIZE == s;
      SlideHash(win, win', p);
      SlideLink(win, win', prev[s], p + WSIZE, ins, HashAt(win, p + WSIZE));
    }
  }

  lemma SlideHash(win: seq<Byte>, win': seq<Byte>, q: nat)
    requires WINDOW_SIZE <= |win| == |win'| && q + 2 < WSIZE
    requires Moved(win, win')
    ensures HashAt(win', q) == HashAt(win, q + WSIZE)
  {
    hide Hash3;
  }

  lemma SlideLink(win: seq<Byte>, win': seq<Byte>, q: nat, below: nat, ins: nat, h: nat)
    requires WINDOW_SIZE <= |win| == |win'| && ins + 2 <= WINDOW_SIZE && WSIZE <= below <= ins
    requires Moved(win, win')
    requires Link(win, q, below, h)
    ensures Link(win', Slid(q), below - WSIZE, h)
  {
    hide HashAt;
    if q > WSIZE {
      SlideHash(win, win', q - WSIZE);
    }
  }

  /** Reading more input behind the hashed bytes keeps the chains. */
  lemma ReadChains(win: seq<Byte>, head: seq<nat>, prev: seq<nat>, win': seq<Byte>, ins: nat)
    requires Chains(win, head, prev, ins) && |win| == |win'|
    requires ins > 0 ==> forall i :: 0 <= i < ins + 2 ==> win'[i] == win[i]
    ensures Chains(win', head, prev, ins)
  {
    hide Hash3;
    forall q: nat | q < ins ensures HashAt(win', q) == HashAt(win, q) {
    }
  }

  // ----- matches in the input

  /** The `len` bytes at `pos` also stand `dist` bytes earlier. */
  ghost predicate MatchAt(data: seq<Byte>, pos: nat, dist: nat, len: nat) {
    1 <= dist <= pos && pos + len <= |data| && forall k :: pos <= k < pos + len ==> data[k] == data[k - dist]
  }

  /** A slide changes both ends of a distance alike, even when one wraps around. */
  lemma SlideDistance(s: int, m: Word)
    ensures U32(s - WSIZE - U32(m - WSIZE)) == U32(s - m)
  {
    if m < WSIZE {
      assert U32(m - WSIZE) == m - WSIZE + 0x1_0000_0000;
      U32Wrap(s - m);
    } else {
      assert U32(m - WSIZE) == m - WSIZE;
    }
  }

  lemma U32Wrap(x: int)
    ensures U32(x - 0x1_0000_0000) == U32(x)
  {
  }

  /** The running hash is the hash of the three bytes, and ready for the next. */
  lemma HashStep(win: seq<Byte>, h: nat, s: nat)
    requires s + 2 < |win| && Kept(h) == Kept(Hash2(win[s], win[s + 1]))
    ensures UpdateHash(h, win[s + 2]) == HashAt(win, s)
    ensures Kept(UpdateHash(h, win[s + 2])) == Kept(Hash2(win[s + 1], win[s + 2]))
  {
    KeptDecides(h, Hash2(win[s], win[s + 1]), win[s + 2]);
    HashForgets(UpdateHash(0, win[s]), 0, win[s + 1], win[s + 2]);
    hide UpdateHash, Kept;
  }

  /** Bytes read behind those already shown. */
  lemma ShownMore(win: seq<Byte>, win': seq<Byte>, data: seq<Byte>, data': seq<Byte>, base: nat, start: nat, n: nat)
    requires start + n <= |win| == |win'| && base + start == |data| && |data'| == |data| + n && data <= data'
    requires win[..start] == data[base..] && (forall i :: 0 <= i < start ==> win'[i] == win[i])
    requires n > 0 ==> win'[start..start + n] == data'[|data|..]
    ensures win'[..start + n] == data'[base..]
  {
    assert win'[..start] == win[..start];
    assert data' == data + data'[|data|..];
    assert data'[base..] == data[base..] + data'[|data|..];
    assert win'[..start + n] == win'[..start] + win'[start..start + n];
  }

  /** Bytes that go from what is still to be read to what has been read. */
  lemma TakeRest(data: seq<Byte>, rest: seq<Byte>, k: nat)
    requires k <= |rest|
    ensures (data + rest[..k]) + rest[k..] == data + rest && data <= data + rest[..k] && (data + rest[..k])[|data|..] == rest[..k]
  {
  }

  /** What is shown after the upper half has moved down. */
  lemma ShownDown(win: seq<Byte>, win': seq<Byte>, data: seq<Byte>, base: nat, n: nat)
    requires WINDOW_SIZE <= |win| == |win'| && n <= WSIZE && base + WSIZE + n == |data| && win[..WSIZE + n] == data[base..]
    requires Moved(win, win')
    ensures win'[..n] == data[base + WSIZE..]
  {
    assert win[..WSIZE + n][WSIZE..] == data[base..][WSIZE..] == data[base + WSIZE..];
    forall i | 0 <= i < n ensures win'[..n][i] == win[..WSIZE + n][WSIZE..][i] {
    }
  }

  lemma ChainSizes(win: seq<Byte>, head: seq<nat>, prev: seq<nat>, ins: nat)
    requires Chains(win, head, prev, ins)
    ensures |head| == HASH_SIZE && |prev| == WSIZE && forall h: nat :: h < HASH_SIZE ==> head[h] <= ins
  {
    hide HashAt;
  }

  /** The positions on a chain from `q` on, at most `n` and, but for the first, above a limit. */
  function Visited(prev: seq<nat>, q: nat, limit: nat, n: nat): seq<nat>
    requires |prev| == WSIZE && n >= 1
    decreases n
  {
    var next := prev[q % WSIZE];
    if n == 1 || next <= limit then [q] else [q] + Visited(prev, next, limit, n - 1)
  }

  ghost predicate Follows(prev: seq<nat>, a: nat, b: nat, limit: nat) {
    |prev| == 0x8000 && b == prev[a % 0x8000] && b > limit
  }

  ghost predicate ChainFrom(prev: seq<nat>, v: seq<nat>, limit: nat) {
    forall i {:trigger v[i]} :: 0 < i < |v| ==> Follows(prev, v[i - 1], v[i], limit)
  }

  /** Each position is what prev holds for the one before and is above the limit; the chain is
      left after `n` of them, or where prev goes to the limit or below. */
  lemma {:induction false} VisitedIs(prev: seq<nat>, q: nat, limit: nat, n: nat)
    requires |prev| == WSIZE && n >= 1
    ensures var v := Visited(prev, q, limit, n);
            && 1 <= |v| <= n && v[0] == q && ChainFrom(prev, v, limit)
            && (|v| == n || prev[v[|v| - 1] % 0x8000] <= limit)
    decreases n
  {
    var next := prev[q % WSIZE];
    if n > 1 && next > limit {
      VisitedIs(prev, next, limit, n - 1);
      ChainMore(prev, q, Visited(prev, next, limit, n - 1), limit);
    }
  }

  lemma ChainMore(prev: seq<nat>, q: nat, v: seq<nat>, limit: nat)
    requires v != [] && ChainFrom(prev, v, limit) && Follows(prev, q, v[0], limit)
    ensures ChainFrom(prev, [q] + v, limit)
  {
    hide Follows;
    var w := [q] + v;
    forall i | 0 < i < |w| ensures Follows(prev, w[i - 1], w[i], limit) {
      assert w[i] == v[i - 1] && (i > 1 ==> w[i - 1] == v[i - 2]);
    }
  }

  /** One position more has been visited. */
  lemma VisitOne(seen: seq<nat>, prev: seq<nat>, q: nat, limit: nat, n: nat)
    requires |prev| == WSIZE && n >= 1
    ensures var all := seen + Visited(prev, q, limit, n);
            seen + [q] <= all
            && if n == 1 || prev[q % WSIZE] <= limit then all == seen + [q]
               else all == (seen + [q]) + Visited(prev, prev[q % WSIZE], limit, n - 1)
  {
    var next := prev[q % WSIZE];
    if n > 1 && next > limit {
      assert seen + ([q] + Visited(prev, next, limit, n - 1)) == (seen + [q]) + Visited(prev, next, limit, n - 1);
    }
  }

  class Window {
    const window: array<Byte>
    const prev: array<nat>
    const head: array<nat>
    const crcTable: seq<Word>
    var strstart: nat
    var lookahead: nat
    var blockStart: int
    var insH: nat
    var matchStart: Word
    var prevLength: nat
    var eofile: bool
    var isize: Word
    var crc: Word
    const supply: nat -> int      // what each read does: it fails, or delivers at most so many bytes
    var rest: seq<Byte>          // what the input file still holds
    var calls: nat               // how many reads there have been
    ghost var data: seq<Byte>    // what has been read
    ghost var base: nat          // the place of window[0] in it
    ghost var inserted: nat      // positions below are in the hash chains

    ghost predicate Shape() {
      window.Length == WINDOW_SIZE + MAX_MATCH && prev.Length == WSIZE && head.Length == HASH_SIZE && prev != head
      && CrcTable(crcTable)
    }

    /** The hash chains are in order. */
    ghost predicate Chained()
      reads `inserted, window, head, prev
    {
      Shape() && Chains(window[..], head[..], prev[..], inserted)
    }

    /** The window shows the end of what has been read. */
    ghost predicate Shows()
      reads `strstart, `lookahead, `base, `data, window
    {
      strstart + lookahead <= WINDOW_SIZE <= window.Length && base + strstart + lookahead == |data|
      && window[..strstart + lookahead] == data[base..]
    }

    ghost predicate Totals()
      reads `crc, `isize, `data
    {
      crc == CrcOf(CRC_START, data) && isize == U32(|data|)
    }

    ghost predicate Valid()
      reads `strstart, `lookahead, `base, `data, `crc, `isize, `eofile, `calls, `rest, `inserted, window, head, prev
    {
      Chained() && Shows() && Totals() && InputState() && inserted <= strstart + 1
    }

    /** ins_h is ready for the next position to be inserted. */
    ghost predicate Hashed()
      reads `insH, `inserted, window
    {
      inserted + 1 < window.Length && Kept(insH) == Kept(Hash2(window[inserted], window[inserted + 1]))
    }

    // ----- reading

    /** Some read so far has failed. */
    ghost predicate Failed()
      reads `calls
    {
      exists k: nat :: k < calls && supply(k) < 0
    }

    /** The input has ended, or every read so far has delivered something. */
    ghost predicate InputState()
      reads `eofile, `calls, `rest, `data
    {
      (eofile && !Failed() ==> rest == []) && calls <= |data| + (if eofile then 1 else 0)
    }

    /** A read that does not fail delivers at least one byte, and no more than are wanted
        and there are. */
    function Delivered(r: nat, size: nat): (k: nat)
      requires 0 < size && rest != []
      reads `rest
      ensures 1 <= k <= size && k <= |rest|
    {
      var most := if |rest| < size then |rest| else size;
      if r == 0 then 1 else if r < most then r else most
    }

    /** What read() puts into the buffer. */
    method CopyIn(start: nat, k: nat)
      requires start + k <= window.Length && k <= |rest|
      modifies window
      ensures window[start..start + k] == rest[..k]
      ensures forall i :: 0 <= i < window.Length && (i < start || start + k <= i) ==> window[i] == old(window[i])
    {
      for i := 0 to k
        invariant window[start..start + i] == rest[..i]
        invariant forall i :: 0 <= i < window.Length && (i < start || start + k <= i) ==> window[i] == old(window[i])
      {
        window[start + i] := rest[i];
      }
    }

    /** file_read: 0 at the end of the input, -1 on error, otherwise any number of
        bytes up to `size`. */
    method FileRead(start: nat, size: nat) returns (n: int)
      requires Shape() && Totals() && !eofile && InputState() && 0 < size && start + size <= window.Length
      modifies this`rest, this`calls, this`data, this`crc, this`isize, window
      ensures -1 <= n <= size && |data| == |old(data)| + (if n < 0 then 0 else n)
      ensures Totals() && old(data) <= data && data + rest == old(data + rest)
      ensures if n <= 0 then calls <= |data| + 1 && (!Failed() ==> rest == []) else calls <= |data|
      ensures old(Failed()) ==> Failed()
      ensures n > 0 ==> window[start..start + n] == data[|old(data)|..] && |rest| < |old(rest)|
      ensures forall i :: 0 <= i < window.Length && (i < start || start + size <= i) ==> window[i] == old(window[i])
    {
      hide CrcOf, CrcTable, U32;
      var r := supply(calls);
      calls := calls + 1;
      if r < 0 {
        return -1;
      }
      if rest == [] {
        return 0;
      }
      var k := Delivered(r, size);
      CopyIn(start, k);
      crc := BlockEndian0(crc, window, start, k, crcTable);
      isize := U32(isize + k);
      CrcConcat(CRC_START, data, rest[..k]);
      U32Add(|data|, k);
      TakeRest(data, rest, k);
      data := data + rest[..k];
      rest := rest[k..];
      return k;
    }

    /** A file about to be compressed. */
    constructor (source: seq<Byte>, supply: nat -> int, crcTable: seq<Word>)
      requires CrcTable(crcTable)
      ensures Zeroed() && rest == source && this.supply == supply && Shape() && fresh(window) && fresh(head) && fresh(prev)
    {
      window, prev, head := new Byte[WINDOW_SIZE + MAX_MATCH], new nat[WSIZE](_ => 0), new nat[HASH_SIZE](_ => 0);
      this.crcTable := crcTable;
      strstart, lookahead, blockStart, insH, matchStart, prevLength, eofile, isize, crc := 0, 0, 0, 0, 0, 0, false, 0, CRC_START;
      this.supply := supply;
      rest, calls, data, base, inserted := source, 0, [], 0, 0;
    }

    ghost predicate Zeroed()
      reads this
    {
      strstart == lookahead == blockStart == insH == matchStart == isize == base == inserted == 0 && !eofile && calls == 0
      && crc == CRC_START && data == []
    }

    method ClearHeads()
      requires head.Length == HASH_SIZE
      modifies head
      ensures forall i :: 0 <= i < HASH_SIZE ==> head[i] == 0
    {
      for h := 0 to HASH_SIZE
        invariant forall i :: 0 <= i < h ==> head[i] == 0
      {
        head[h] := 0;
      }
    }

    /** lm_init: empty hash chains, the first bytes of the input, and their hash. */
    method LmInit()
      requires Zeroed() && Shape()
      modifies this, window, head, prev
      ensures Valid() && inserted == strstart == blockStart == base == 0 && data + rest == old(rest)
      ensures eofile || lookahead >= MIN_LOOKAHEAD
      ensures lookahead > 0 ==> Hashed()
    {
      hide HashAt, CrcOf, CrcTable, U32, UpdateHash, InputState, Failed, Valid, Hashed, Totals, Chains;
      ClearHeads();
      ZeroTotals();
      var n := FileRead(0, 2 * WSIZE);
      if n == 0 || n == -1 {
        eofile := true;
        InputIs();
        lookahead := 0;
        StartValid();
        return;
      }
      lookahead := n;
      InputIs();
      assert window[..n] == data[0..];
      StartValid();
      FillWindowIfNeeded();
      StartHash();
    }

    /** With empty chains nothing can be wrong in them. */
    lemma StartValid()
      requires Shape() && Totals() && InputState() && forall i :: 0 <= i < HASH_SIZE ==> head[i] == 0
      requires inserted == strstart == base == 0 && lookahead == |data| <= WINDOW_SIZE && window[..lookahead] == data
      ensures Valid()
    {
      hide HashAt, CrcOf, CrcTable, InputState, Totals;
    }

    lemma ZeroTotals()
      requires Zeroed()
      ensures Totals() && InputState()
    {
    }

    /** The hash of the first MIN_MATCH - 1 bytes. */
    method StartHash()
      requires Valid() && inserted == 0 && insH == 0
      modifies this`insH
      ensures Valid() && Hashed()
    {
      hide HashAt, CrcOf, CrcTable, U32, UpdateHash, Chains, Shows, Totals, Kept;
      for j := 0 to MIN_MATCH - 1
        invariant Valid()
        invariant j == 0 ==> insH == 0
        invariant j == 1 ==> insH == UpdateHash(0, window[0])
        invariant j == 2 ==> insH == Hash2(window[0], window[1])
      {
        insH := UpdateHash(insH, window[j]);
      }
    }

    /** INSERT_STRING: the previous position with the same hash, or 0. */
    method InsertString(s: nat) returns (hashHead: nat)
      requires Chained() && Hashed() && s == inserted < WINDOW_SIZE
      modifies this`insH, this`inserted, head, prev
      ensures Chained() && Hashed() && inserted == s + 1 && hashHead <= s
      ensures window.Length > s + 2 && Link(window[..], hashHead, s, HashAt(window[..], s))
    {
      hide HashAt, CrcOf, CrcTable, U32, Chains, Kept, Hash2, UpdateHash;
      ghost var win, head0, prev0 := window[..], head[..], prev[..];
      ghost var before := insH;
      insH := UpdateHash(insH, window[s + MIN_MATCH - 1]);
      HashStep(win, before, s);
      ChainSizes(win, head0, prev0, s);
      hashHead := head[insH];
      prev[s % WSIZE] := hashHead;
      head[insH] := s;
      InsertChains(win, head0, prev0, s);
      assert head[..] == head0[insH := s] && prev[..] == prev0[s % WSIZE := hashHead];
      inserted := s + 1;
    }

    /** Inserts the string at strstart. */
    method InsertHere() returns (hashHead: nat)
      requires Valid() && Hashed() && inserted == strstart && lookahead > 0
      modifies this`insH, this`inserted, head, prev
      ensures Valid() && Hashed() && inserted == strstart + 1
      ensures window.Length > strstart + 2 && Link(window[..], hashHead, strstart, HashAt(window[..], strstart))
    {
      hide Chained, Totals, Hashed, HashAt, Link;
      hashHead := InsertString(strstart);
    }

    /** All that has been read and not dealt with is in the window. */
    lemma DataEnd()
      requires Valid()
      ensures base + strstart + lookahead == |data|
    {
      hide Chained, Totals;
    }

    /** One byte on: the string at strstart has been dealt with. */
    method Advance()
      requires Valid() && inserted == strstart + 1 && lookahead > 0
      modifies this`strstart, this`lookahead
      ensures Valid() && inserted == strstart == old(strstart) + 1 && lookahead == old(lookahead) - 1
    {
      hide Chained, Totals;
      strstart := strstart + 1;
      lookahead := lookahead - 1;
    }

    /** The do loop of deflate: inserts all strings up to the end of a match that
        began at strstart - 1. */
    method SkipMatch()
      requires Valid() && Hashed() && inserted == strstart + 1 && MIN_MATCH <= prevLength <= lookahead + 1
      modifies this`strstart, this`lookahead, this`prevLength, this`insH, this`inserted, head, prev
      ensures Valid() && Hashed() && inserted == strstart == old(strstart) + old(prevLength) - 1
      ensures strstart + lookahead == old(strstart + lookahead)
    {
      hide Valid, Totals, Hashed, HashAt, Link, InputState, Chains, Failed;
      ValidParts();
      ghost var end := strstart + lookahead;
      lookahead := lookahead - (prevLength - 1);
      prevLength := prevLength - 2;
      while true
        invariant Chained() && Hashed() && Totals() && inserted == strstart + 1 && prevLength >= 1
        invariant strstart + prevLength + 1 + lookahead == end && strstart + prevLength == old(strstart) + old(prevLength) - 2
        decreases prevLength
      {
        strstart := strstart + 1;
        var hashHead := InsertString(strstart);
        prevLength := prevLength - 1;
        if prevLength == 0 {
          break;
        }
      }
      strstart := strstart + 1;
      ValidFrom();
    }

    /** The places in the input that a slide must not change. */
    ghost predicate SamePlaces(base0: nat, strstart0: nat, block0: int, match0: Word)
      reads `base, `strstart, `blockStart, `matchStart
    {
      base + strstart == base0 + strstart0 && base + blockStart == base0 + block0
      && U32(strstart - 1 - matchStart) == U32(strstart0 - 1 - match0)
    }

    /** Moves the upper half of the window to the lower half. */
    method Slide()
      requires Valid() && inserted == strstart >= WSIZE + MAX_DIST && lookahead >= 2
      modifies this`strstart, this`blockStart, this`matchStart, this`base, this`inserted, window, head, prev
      ensures Valid() && inserted == strstart == old(strstart) - WSIZE && SamePlaces(old(base), old(strstart), old(blockStart), old(matchStart))
      ensures window[strstart] == old(window[strstart]) && window[strstart + 1] == old(window[strstart + 1])
    {
      hide HashAt, CrcOf, CrcTable, Chains, U32, Valid, Totals, InputState, Shows, Failed, Slid, Moved, AllSlid, SamePlaces;
      Bounds();
      ValidParts();
      ghost var win0 := window[..];
      SlideBytes();
      matchStart := U32(matchStart - WSIZE);
      strstart := strstart - WSIZE;
      blockStart := blockStart - WSIZE;
      SlideTables(win0);
      MovedAt(win0, window[..], strstart);
      MovedAt(win0, window[..], strstart + 1);
      inserted := inserted - WSIZE;
      base := base + WSIZE;
      MovedPlaces(old(base), old(strstart), old(blockStart), old(matchStart));
      ValidDown(win0, old(base), old(strstart));
    }

    method SlideBytes()
      requires window.Length == WINDOW_SIZE + MAX_MATCH
      modifies window
      ensures Moved(old(window[..]), window[..])
    {
      forall i | 0 <= i < WSIZE {
        window[i] := window[i + WSIZE];
      }
    }

    lemma MovedPlaces(base0: nat, strstart0: nat, block0: int, match0: Word)
      requires base == base0 + WSIZE && strstart == strstart0 - WSIZE && blockStart == block0 - WSIZE && matchStart == U32(match0 - WSIZE)
      ensures SamePlaces(base0, strstart0, block0, match0)
    {
      SlideDistance(strstart0 - 1, match0);
    }

    lemma ValidDown(win: seq<Byte>, base0: nat, strstart0: nat)
      requires Shape() && Totals() && Chains(window[..], head[..], prev[..], inserted) && InputState() && inserted <= strstart + 1
      requires Moved(win, window[..]) && base == base0 + WSIZE && strstart == strstart0 - WSIZE
      requires strstart0 + lookahead <= WINDOW_SIZE <= |win| && base0 + strstart0 + lookahead == |data|
      requires win[..strstart0 + lookahead] == data[base0..]
      ensures Valid()
    {
      hide Totals, Chains, InputState, Moved;
      MovedSizes(win, window[..]);
      ShownDown(win, window[..], data, base0, strstart + lookahead);
      ValidFrom();
    }

    /** head and prev follow the window. */
    method SlideTables(ghost win: seq<Byte>)
      requires Shape() && Chains(win, head[..], prev[..], inserted) && Moved(win, window[..])
      requires WSIZE <= inserted && inserted + 2 <= WINDOW_SIZE
      modifies head, prev
      ensures window[..] == old(window[..]) && Chains(window[..], head[..], prev[..], inserted - WSIZE)
    {
      hide Moved, AllSlid, Chains;
      ghost var head0, prev0 := head[..], prev[..];
      MovedSizes(win, window[..]);
      SlideHeads();
      assert prev[..] == prev0;
      SlidePrevs();
      assert AllSlid(head0, head[..]);
      SlideChains(win, head0, prev0, window[..], head[..], prev[..], inserted);
    }

    method SlideHeads()
      modifies head
      ensures AllSlid(old(head[..]), head[..])
    {
      for n := 0 to head.Length
        invariant forall h :: 0 <= h < n ==> head[h] == Slid(old(head[h]))
        invariant forall h :: n <= h < head.Length ==> head[h] == old(head[h])
      {
        var m := head[n];
        head[n] := if m >= WSIZE then m - WSIZE else 0;
      }
    }

    method SlidePrevs()
      modifies prev
      ensures AllSlid(old(prev[..]), prev[..])
    {
      for n := 0 to prev.Length
        invariant forall h :: 0 <= h < n ==> prev[h] == Slid(old(prev[h]))
        invariant forall h :: n <= h < prev.Length ==> prev[h] == old(prev[h])
      {
        var m := prev[n];
        prev[n] := if m >= WSIZE then m - WSIZE else 0;
      }
    }

    /** fill_window: slides if the window is almost full, then reads more. */
    method FillWindow()
      requires Valid() && inserted == strstart && lookahead < MIN_LOOKAHEAD && !eofile && (strstart == 0 || lookahead >= 2)
      modifies this, window, head, prev
      ensures Valid() && inserted == strstart && SamePlaces(old(base), old(strstart), old(blockStart), old(matchStart))
      ensures insH == old(insH) && prevLength == old(prevLength)
      ensures old(data) <= data && data + rest == old(data + rest) && (old(Failed()) ==> Failed())
      ensures lookahead >= old(lookahead) && (eofile || |rest| < |old(rest)|) && strstart <= old(strstart)
      ensures old(strstart) > 0 ==> strstart > 0
      ensures old(lookahead) >= 2 ==> window[strstart] == old(window[strstart]) && window[strstart + 1] == old(window[strstart + 1])
    {
      hide Shows, Totals, Chains, U32, CrcTable;
      Room();
      var more := WINDOW_SIZE - lookahead - strstart;
      if strstart >= WSIZE + MAX_DIST {
        Slide();
        more := more + WSIZE;
      }
      if !eofile {
        ReadMore(more);
      }
    }

    lemma Room()
      requires Valid() && lookahead < MIN_LOOKAHEAD
      ensures strstart + lookahead <= WINDOW_SIZE
      ensures strstart < WSIZE + MAX_DIST ==> WINDOW_SIZE - lookahead - strstart >= 2
    {
      hide Totals, Chains, CrcTable;
    }

    /** The second half of fill_window. */
    method ReadMore(more: nat)
      requires Valid() && inserted == strstart && !eofile && (strstart == 0 || lookahead >= 2)
      requires more + lookahead + strstart == WINDOW_SIZE && more > 0
      modifies this`lookahead, this`eofile, this`rest, this`calls, this`data, this`crc, this`isize, window
      ensures Valid() && old(data) <= data && data + rest == old(data + rest) && (old(Failed()) ==> Failed())
      ensures lookahead >= old(lookahead) && (eofile || |rest| < |old(rest)|)
      ensures old(lookahead) >= 2 ==> window[strstart] == old(window[strstart]) && window[strstart + 1] == old(window[strstart + 1])
    {
      hide *;
      Bounds();
      ValidParts();
      ghost var win0, data0 := window[..], data;
      var start := strstart + lookahead;
      var n := FileRead(start, more);
      ReadChains(win0, head[..], prev[..], window[..], inserted);
      ShownMore(win0, window[..], data0, data, base, start, if n < 0 then 0 else n);
      if n == 0 || n == -1 {
        eofile := true;
      } else {
        lookahead := lookahead + n;
      }
      InputIs();
      ValidFrom();
    }

    lemma ValidParts()
      requires Valid()
      ensures Shape() && Totals() && Chains(window[..], head[..], prev[..], inserted)
      ensures strstart + lookahead <= WINDOW_SIZE <= window.Length && base + strstart + lookahead == |data|
      ensures window[..strstart + lookahead] == data[base..] && InputState() && inserted <= strstart + 1
    {
    }

    lemma InputIs()
      requires if eofile then calls <= |data| + 1 && (!Failed() ==> rest == []) else calls <= |data|
      ensures InputState()
    {
    }

    lemma ValidFrom()
      requires Shape() && Totals() && Chains(window[..], head[..], prev[..], inserted)
      requires strstart + lookahead <= WINDOW_SIZE <= window.Length && base + strstart + lookahead == |data|
      requires window[..strstart + lookahead] == data[base..] && InputState() && inserted <= strstart + 1
      ensures Valid()
    {
    }

    /** Both users fill the window with the same loop. */
    method FillWindowIfNeeded()
      requires Valid() && inserted == strstart && (strstart == 0 || lookahead >= 2 || eofile)
      modifies this, window, head, prev
      ensures Valid() && inserted == strstart && SamePlaces(old(base), old(strstart), old(blockStart), old(matchStart))
      ensures insH == old(insH) && prevLength == old(prevLength)
      ensures old(data) <= data && data + rest == old(data + rest) && (old(Failed()) ==> Failed())
      ensures lookahead >= old(lookahead) && (eofile || lookahead >= MIN_LOOKAHEAD) && (old(strstart) > 0 ==> strstart > 0)
      ensures old(Hashed()) && old(lookahead >= 2 || eofile) ==> Hashed()
    {
      hide Valid, Chains, U32, Hash2, Kept;
      while lookahead < MIN_LOOKAHEAD && !eofile
        invariant Valid() && inserted == strstart && (strstart == 0 || lookahead >= 2 || eofile)
        invariant SamePlaces(old(base), old(strstart), old(blockStart), old(matchStart))
        invariant insH == old(insH) && prevLength == old(prevLength)
        invariant old(data) <= data && data + rest == old(data + rest) && (old(Failed()) ==> Failed())
        invariant lookahead >= old(lookahead) && (old(eofile) ==> eofile) && (old(strstart) > 0 ==> strstart > 0)
        invariant old(Hashed()) && old(lookahead >= 2 || eofile) ==> Hashed()
        decreases !eofile, |rest|
      {
        Bounds();
        FillWindow();
        Bounds();
      }
    }

    lemma Bounds()
      requires Valid()
      ensures window.Length == WINDOW_SIZE + MAX_MATCH && strstart + lookahead <= WINDOW_SIZE && inserted <= strstart + 1
    {
      hide Totals, Chains, CrcTable;
    }

    // ----- longest_match

    /** A position on the chain of `s` that a match may start at. */
    ghost predicate Candidate(q: nat, s: nat)
      reads window
    {
      0 < q < s && s - q <= MAX_DIST && s + 2 < window.Length && HashAt(window[..], q) == HashAt(window[..], s)
    }

    lemma FirstCandidate(q: nat, s: nat)
      requires s + 2 < window.Length && Link(window[..], q, s, HashAt(window[..], s)) && q != 0 && s - q <= MAX_DIST
      ensures Candidate(q, s)
    {
      hide HashAt;
    }

    /** Following prev from a candidate, as long as it stays above the limit. */
    lemma NextCandidate(q: nat, s: nat)
      requires Valid() && inserted == s + 1 && s < WINDOW_SIZE && Candidate(q, s)
      ensures var next := prev[q % WSIZE];
              next < q && (next > 0 && next + MAX_DIST > s ==> Candidate(next, s))
    {
      hide HashAt, Totals, Shows, CrcTable;
      assert q < inserted <= q + WSIZE;
      assert Link(window[..], prev[..][q % WSIZE], q, HashAt(window[..], q));
    }

    /** On a chain, equal first two bytes mean equal third bytes: skipping that comparison is safe. */
    lemma ThirdByte(q: nat, s: nat)
      requires Candidate(q, s) && window[q] == window[s] && window[q + 1] == window[s + 1]
      ensures Same(q, s, 3)
    {
      hide Hash3;
      HashDecides(window[s], window[s + 1], window[s + 2], window[q + 2]);
    }

    /** `n` equal bytes at `m` and `s`. */
    ghost predicate Same(m: nat, s: nat, n: nat)
      reads window
    {
      m <= s && s + n <= window.Length && forall k :: s <= k < s + n ==> window[k] == window[k - s + m]
    }

    /** The comparison of longest_match, eight bytes between tests for the end. */
    method Compare(scan0: nat, match0: nat) returns (len: nat)
      requires match0 < scan0 && scan0 + MAX_MATCH < window.Length && Same(match0, scan0, 3)
      ensures 3 <= len <= MAX_MATCH && Same(match0, scan0, len)
      ensures len < MAX_MATCH ==> window[scan0 + len] != window[match0 + len]
    {
      var strend := scan0 + MAX_MATCH;
      var scan, m := scan0 + 2, match0 + 2;
      ghost var groups := 0;
      while true
        invariant groups <= 31 && scan == scan0 + 2 + 8 * groups && m - match0 == scan - scan0
        invariant Same(match0, scan0, scan - scan0 + 1)
        decreases 32 - groups
      {
        var n := 0;
        while n < 8
          invariant 0 <= n <= 8 && scan == scan0 + 2 + 8 * groups + n && m - match0 == scan - scan0
          invariant Same(match0, scan0, scan - scan0 + 1)
        {
          scan := scan + 1;
          m := m + 1;
          if window[scan] != window[m] {
            return MAX_MATCH - (strend - scan);
          }
          n := n + 1;
        }
        groups := groups + 1;
        if scan >= strend {
          return MAX_MATCH - (strend - scan);
        }
      }
    }

    /** A match found for `strstart`. */
    ghost predicate Found(start: nat, len: nat)
      reads window, `strstart
    {
      0 < start < strstart && strstart - start <= MAX_DIST && 3 <= len <= MAX_MATCH && Same(start, strstart, len)
    }

    lemma IsFound(len: nat)
      requires 0 < matchStart < strstart && strstart - matchStart <= MAX_DIST && 3 <= len <= MAX_MATCH && Same(matchStart, strstart, len)
      ensures Found(matchStart, len)
    {
    }

    /** The string at `q` agrees with the current one for more than `n` bytes. */
    ghost predicate Longer(q: nat, n: nat)
      reads window, `strstart
    {
      n < MAX_MATCH && Same(q, strstart, n + 1)
    }

    /** `n` is the length of the best match among these positions, if it is more than
        prev_length, and match_start is the nearest of that length. */
    ghost predicate BestOf(seen: seq<nat>, n: nat)
      reads window, `strstart, `prevLength, `matchStart
    {
      (forall q :: q in seen ==> !Longer(q, n))
      && (n > prevLength ==> matchStart in seen && forall q :: q in seen && q > matchStart ==> !Same(q, strstart, n))
    }

    /** The last position looked at is not better. */
    lemma NotBetter(seen: seq<nat>, n: nat, q: nat)
      requires BestOf(seen, n) && !Longer(q, n) && forall x :: x in seen ==> x > q
      ensures BestOf(seen + [q], n)
    {
      hide Longer, Same;
    }

    /** The last position looked at is better than those before. */
    lemma Better(seen: seq<nat>, n: nat, n': nat)
      requires (forall q :: q in seen ==> !Longer(q, n) && q > matchStart) && prevLength <= n < n' <= MAX_MATCH
      requires matchStart < strstart && strstart + MAX_MATCH < window.Length && Same(matchStart, strstart, n')
      requires n' < MAX_MATCH ==> window[strstart + n'] != window[matchStart + n']
      ensures BestOf(seen + [matchStart], n')
    {
      forall q | q in seen ensures !Same(q, strstart, n') && !Longer(q, n') {
        if Same(q, strstart, n') {
          assert Same(q, strstart, n + 1);
        }
        assert !Longer(q, n);
      }
    }

    /** Four bytes that have to agree if a match is to become longer. */
    lemma QuickReject(q: nat, n: nat)
      requires 1 <= n && q < strstart && strstart + n < window.Length
      requires window[q + n] != window[strstart + n] || window[q + n - 1] != window[strstart + n - 1]
               || window[q] != window[strstart] || window[q + 1] != window[strstart + 1]
      ensures !Longer(q, n)
    {
      AgreeAt(q, n, n);
      AgreeAt(q, n, n - 1);
      AgreeAt(q, n, 0);
      AgreeAt(q, n, 1);
    }

    lemma AgreeAt(q: nat, n: nat, k: nat)
      requires q < strstart && k <= n && strstart + n < window.Length
      ensures Longer(q, n) ==> window[strstart + k] == window[q + k]
    {
      assert window[(strstart + k) - strstart + q] == window[q + k];
    }

    lemma NoLonger(q: nat, n: nat, len: nat)
      requires q < strstart && len <= n <= MAX_MATCH && strstart + MAX_MATCH < window.Length
      requires len < MAX_MATCH ==> window[strstart + len] != window[q + len]
      ensures !Longer(q, n)
    {
      AgreeAt(q, n, len);
    }

    /** How many positions longest_match looks at. */
    function ChainLimit(): (n: nat)
      reads `prevLength
      ensures n >= 1
    {
      if prevLength >= GOOD_MATCH then MAX_CHAIN_LENGTH / 4 else MAX_CHAIN_LENGTH
    }

    function Oldest(): nat
      reads `strstart
    {
      if strstart > MAX_DIST then strstart - MAX_DIST else 0
    }

    lemma LimitsAre()
      ensures ChainLimit() == if prevLength >= GOOD_MATCH then MAX_CHAIN_LENGTH / 4 else MAX_CHAIN_LENGTH
      ensures Oldest() == if strstart > MAX_DIST then strstart - MAX_DIST else 0
    {
    }

    /** At most 128 positions, or 32 if there is a good match already, and none further back
        than 32506 bytes. */
    lemma SearchLimits()
      ensures ChainLimit() == if prevLength >= 8 then 32 else 128
      ensures Oldest() == if strstart > 32506 then strstart - 32506 else 0
      ensures NICE_MATCH == 128
    {
    }

    /** longest_match: the longest match among the positions on the hash chain that it
        visits, or prev_length if none is longer; it stops early only at a match that is
        long enough. */
    method LongestMatch(curMatch0: nat) returns (bestLen: nat, ghost seen: seq<nat>)
      requires Valid() && inserted == strstart + 1 && strstart < WINDOW_SIZE && Candidate(curMatch0, strstart)
      requires 1 <= prevLength <= MAX_MATCH
      modifies this`matchStart
      ensures prevLength <= bestLen <= MAX_MATCH
      ensures bestLen == prevLength ==> matchStart == old(matchStart)
      ensures bestLen > prevLength ==> Found(matchStart, bestLen)
      ensures BestOf(seen, bestLen) && prev.Length == WSIZE && seen <= Visited(prev[..], curMatch0, Oldest(), ChainLimit())
      ensures seen == Visited(prev[..], curMatch0, Oldest(), ChainLimit()) || (bestLen > prevLength && bestLen >= NICE_MATCH)
      ensures bestLen > prevLength && bestLen >= NICE_MATCH ==> seen != [] && matchStart == seen[|seen| - 1]
    {
      hide HashAt, Valid, Candidate, Found, Same, BestOf, Longer, Visited, ChainLimit, Oldest;
      Bounds();
      PrevSize();
      LimitsAre();
      var chainLength := MAX_CHAIN_LENGTH;
      var curMatch: nat := curMatch0;
      var scan := strstart;
      bestLen := prevLength;
      var limit := if strstart > MAX_DIST then strstart - MAX_DIST else 0;
      var scanEnd1, scanEnd := window[scan + bestLen - 1], window[scan + bestLen];
      if prevLength >= GOOD_MATCH {
        chainLength := chainLength / 4;
      }
      seen := [];
      ghost var all := Visited(prev[..], curMatch, limit, chainLength);
      NothingSeen();
      while true
        invariant Candidate(curMatch, strstart) && prevLength <= bestLen <= MAX_MATCH && chainLength >= 1
        invariant scanEnd1 == window[scan + bestLen - 1] && scanEnd == window[scan + bestLen]
        invariant bestLen == prevLength ==> matchStart == old(matchStart)
        invariant bestLen > prevLength ==> Found(matchStart, bestLen) && bestLen < NICE_MATCH
        invariant BestOf(seen, bestLen) && (forall q :: q in seen ==> q > curMatch)
        invariant seen + Visited(prev[..], curMatch, limit, chainLength) == all
        decreases curMatch
      {
        CandidateBounds(curMatch, strstart);
        VisitOne(seen, prev[..], curMatch, limit, chainLength);
        var len := Examine(curMatch, bestLen, scanEnd1, scanEnd, seen);
        seen := seen + [curMatch];
        if len > bestLen {
          bestLen := len;
          if len >= NICE_MATCH {
            break;
          }
          scanEnd1, scanEnd := window[scan + bestLen - 1], window[scan + bestLen];
        }
        NextCandidate(curMatch, strstart);
        curMatch := prev[curMatch % WSIZE];
        if curMatch <= limit {
          break;
        }
        chainLength := chainLength - 1;
        if chainLength == 0 {
          break;
        }
      }
    }

    /** One position of the chain: a longer match there, or the best length so far. */
    method Examine(curMatch: nat, bestLen: nat, scanEnd1: Byte, scanEnd: Byte, ghost seen: seq<nat>) returns (len: nat)
      requires Valid() && strstart < WINDOW_SIZE && Candidate(curMatch, strstart) && 1 <= prevLength <= bestLen <= MAX_MATCH
      requires WINDOW_SIZE + MAX_MATCH == window.Length
      requires scanEnd1 == window[strstart + bestLen - 1] && scanEnd == window[strstart + bestLen]
      requires BestOf(seen, bestLen) && (forall q :: q in seen ==> q > curMatch)
      modifies this`matchStart
      ensures bestLen <= len <= MAX_MATCH && BestOf(seen + [curMatch], len)
      ensures if len == bestLen then matchStart == old(matchStart) else matchStart == curMatch && Found(matchStart, len)
    {
      hide HashAt, Valid, Candidate, Found, Same, BestOf, Longer;
      CandidateBounds(curMatch, strstart);
      len := bestLen;
      if window[curMatch + bestLen] == scanEnd && window[curMatch + bestLen - 1] == scanEnd1
         && window[curMatch] == window[strstart] && window[curMatch + 1] == window[strstart + 1]
      {
        ThirdByte(curMatch, strstart);
        var found := Compare(strstart, curMatch);
        if found > bestLen {
          NoneLonger(seen, bestLen);
          matchStart := curMatch;
          IsFound(found);
          Better(seen, bestLen, found);
          len := found;
        } else {
          NoLonger(curMatch, bestLen, found);
          NotBetter(seen, bestLen, curMatch);
        }
      } else {
        QuickReject(curMatch, bestLen);
        NotBetter(seen, bestLen, curMatch);
      }
    }

    lemma NothingSeen()
      ensures BestOf([], prevLength)
    {
    }

    lemma NoneLonger(seen: seq<nat>, n: nat)
      requires BestOf(seen, n)
      ensures forall q :: q in seen ==> !Longer(q, n)
    {
      hide Longer, Same;
    }

    lemma CandidateBounds(q: nat, s: nat)
      requires Candidate(q, s)
      ensures 0 < q < s && s - q <= MAX_DIST
    {
    }

    lemma PrevSize()
      requires Valid()
      ensures prev.Length == WSIZE
    {
      hide Totals, Chains, CrcTable;
    }
  }
}
