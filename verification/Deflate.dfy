/** deflate: lazy matching, from the window to the coder. */
module Deflating {
  import opened Bits
  import opened Inflate
  import opened Tokens
  import opened BitWriting
  import opened Blocks
  import opened Buffers
  import opened Coding
  import opened Windows

  const MAX_LAZY_MATCH: nat := 16
  const TOO_FAR: nat := 4096

  // ----- tokens that stand for a stretch of the input

  /** The tokens expand to the input from `from` to `to`; matches are short enough and
      near enough. */
  ghost predicate Covered(data: seq<Byte>, from: nat, to: nat, ts: seq<Token>) {
    from <= to <= |data| && Meaningful(data[..from], ts) && Expand(data[..from], ts) == data[..to]
    && forall i :: 0 <= i < |ts| && ts[i].Match? ==> MIN_MATCH <= ts[i].len <= MAX_MATCH && 1 <= ts[i].dist <= MAX_DIST
  }

  lemma CoveredNone(data: seq<Byte>, p: nat)
    requires p <= |data|
    ensures Covered(data, p, p, [])
  {
  }

  lemma CoveredParts(data: seq<Byte>, from: nat, to: nat, ts: seq<Token>)
    requires Covered(data, from, to, ts)
    ensures from <= to <= |data| && Meaningful(data[..from], ts) && Expand(data[..from], ts) == data[..to]
    ensures |Expand(data[..from], ts)| == |data[..from]| + (to - from)
  {
  }

  lemma CoveredLater(data: seq<Byte>, data': seq<Byte>, from: nat, to: nat, ts: seq<Token>)
    requires Covered(data, from, to, ts) && data <= data'
    ensures Covered(data', from, to, ts)
  {
    hide Meaningful, Expand;
    assert data'[..from] == data[..from] && data'[..to] == data[..to];
  }

  lemma CoveredLit(data: seq<Byte>, from: nat, to: nat, ts: seq<Token>, b: Byte)
    requires Covered(data, from, to, ts) && to < |data| && b == data[to]
    ensures Covered(data, from, to + 1, ts + [TokenOf(0, b)])
  {
    hide Meaningful, Expand;
    ExpandSnoc(data[..from], ts, Lit(b));
    assert data[..to] + [b] == data[..to + 1];
  }

  /** Copying byte by byte, overlaps included, reproduces the input at a match. */
  lemma {:induction false} CopyIsInput(data: seq<Byte>, p: nat, dist: nat, len: nat)
    requires MatchAt(data, p, dist, len)
    ensures CopyMatch(data[..p], len, dist) == data[..p + len]
    decreases len
  {
    if len > 0 {
      assert data[..p] + [data[p]] == data[..p + 1];
      CopyIsInput(data, p + 1, dist, len - 1);
    }
  }

  lemma CoveredMatch(data: seq<Byte>, from: nat, to: nat, ts: seq<Token>, dist: nat, len: nat)
    requires Covered(data, from, to, ts) && MatchAt(data, to, dist, len) && dist <= MAX_DIST && MIN_MATCH <= len <= MAX_MATCH
    ensures Covered(data, from, to + len, ts + [TokenOf(dist, len - MIN_MATCH)])
  {
    hide Meaningful, Expand;
    CopyIsInput(data, to, dist, len);
    ExpandSnoc(data[..from], ts, Match(len, dist));
  }

  /** What is left of a match one byte further on still is none of our business: matches
      stay matches when more input arrives. */
  ghost predicate Awaiting(data: seq<Byte>, pos: int, dist: nat, len: nat) {
    len >= MIN_MATCH ==> pos >= 0 && MatchAt(data, pos, dist, len) && dist <= MAX_DIST
  }

  /** The whole stream is there: it decodes to `data`, whatever follows it. */
  ghost predicate Finished(head: seq<bool>, sent: seq<bool>, mid: seq<bool>, data: seq<Byte>) {
    head <= sent == Pad(mid) && forall bits :: sent <= bits ==> Decode(bits, |head|, []) == Some((|mid|, data))
  }

  lemma FinishedFrom(head: seq<bool>, before: seq<bool>, out: seq<Byte>, mid: seq<bool>, data: seq<Byte>)
    requires Emitted(head, before, out) && BlockDecodes(before, mid, out, data, true) && before <= mid
    ensures Finished(head, Pad(mid), mid, data)
  {
    assert head <= before;
    hide Emitted, BlockDecodes, Decode, Pad;
    PrefixTrans(head, before, mid);
    PrefixTrans(head, mid, Pad(mid));
    forall bits | Pad(mid) <= bits ensures Decode(bits, |head|, []) == Some((|mid|, data)) {
      PrefixTrans(mid, Pad(mid), bits);
      EmittedFinal(head, before, out, mid, data, bits);
    }
  }

  /** What the window shows of the input, cut between two of its positions. */
  lemma PartOfWindow(shown: seq<Byte>, data: seq<Byte>, base: nat, n: nat, i: nat, j: nat)
    requires i <= j <= n <= |shown| && base + n == |data| && shown[..n] == data[base..]
    ensures data[..base + j] == data[..base + i] + shown[i..j]
  {
    SliceOfPrefix(shown, n, i, j);
    SliceOfSuffix(data, base, i, j);
    assert data[..base + j] == data[..base + i] + data[base + i..base + j];
  }

  lemma SliceOfPrefix(s: seq<Byte>, n: nat, i: nat, j: nat)
    requires i <= j <= n <= |s|
    ensures s[..n][i..j] == s[i..j]
  {
  }

  lemma SliceOfSuffix(s: seq<Byte>, b: nat, i: nat, j: nat)
    requires i <= j && b + j <= |s|
    ensures s[b..][i..j] == s[b + i..b + j]
  {
  }

  lemma TokenIs(dist: nat, lc: Byte)
    requires dist <= 32768
    ensures TokenOf(dist, lc) == if dist == 0 then Lit(lc) else Match(lc + 3, dist)
  {
  }

  /** How many bytes of a match count: not those behind the input, and no three bytes that
      are too far back. */
  function Counting(best: nat, lookahead: nat, dist: nat): nat {
    var l := if best > lookahead then lookahead else best;
    if l == 3 && dist > 4096 then 2 else l
  }

  /** The tokens are one more, or a block has just been ended with it. */
  predicate Added(before: seq<Token>, more: seq<Token>, now: seq<Token>) {
    now == before + more || now == []
  }

  lemma AddedOne(before: seq<Token>, t: Token, now: seq<Token>)
    requires now == [] || now == before + [t]
    ensures Added(before, [t], now)
  {
  }

  class Deflater {
    const win: Window
    const coder: Coder

    ghost const CoderRepr: set<object>   // the coder's memory
    ghost const WindowRepr: set<object>  // the window's

    ghost predicate Apart() {
      CoderRepr == coder.trees.Repr + {coder, coder.w, coder.w.outbuf, coder.lBuf, coder.dBuf, coder.flagBuf}
      && WindowRepr == {win, win.window, win.head, win.prev}
      && WindowRepr !! CoderRepr && coder.trees.fcL in coder.trees.Repr && coder.trees.fcD in coder.trees.Repr
    }

    /** Where the current block begins in the input. */
    ghost function BlockAt(): int
      reads win`base, win`blockStart
    {
      win.base + win.blockStart
    }

    ghost function Place(): nat
      reads win`base, win`strstart
    {
      win.base + win.strstart
    }

    constructor (win: Window, coder: Coder)
      requires coder.Valid()
      requires {win, win.window, win.head, win.prev}
               !! coder.trees.Repr + {coder, coder.w, coder.w.outbuf, coder.lBuf, coder.dBuf, coder.flagBuf}
      ensures this.win == win && this.coder == coder && Apart()
    {
      this.win := win;
      this.coder := coder;
      CoderRepr := coder.trees.Repr + {coder, coder.w, coder.w.outbuf, coder.lBuf, coder.dBuf, coder.flagBuf};
      WindowRepr := {win, win.window, win.head, win.prev};
    }

    /** The blocks sent so far decode to the input up to `p`. */
    ghost predicate Sent(head: seq<bool>, p: int)
      reads win`data, CoderRepr
    {
      Apart() && coder.Valid() && 0 <= p <= |win.data| && Emitted(head, coder.w.Sent(), win.data[..p])
    }

    /** And the tokens of the current block cover the input from there up to `to`. */
    ghost predicate Coded(head: seq<bool>, to: nat)
      reads win`base, win`blockStart, win`data, CoderRepr
    {
      Apart() && Sent(head, BlockAt()) && Covered(win.data, BlockAt(), to, coder.tokens)
    }

    /** All of the input up to here has been sent. */
    ghost predicate Done(head: seq<bool>, mid: seq<bool>)
      reads win`base, win`strstart, win`data, CoderRepr
    {
      Apart() && coder.Valid() && Place() <= |win.data| && Finished(head, coder.w.Sent(), mid, win.data[..Place()])
      && BytesBits(coder.w.Bytes()) == coder.w.Sent() && coder.w.biValid == 0
    }

    /** A stored block finds its bytes in the window, as long as block_start has not gone negative. */
    lemma StoredInput()
      requires win.Valid() && 0 <= BlockAt() && win.blockStart <= win.strstart
      ensures win.strstart <= win.window.Length && Place() <= |win.data|
      ensures win.blockStart >= 0 ==>
                win.data[..Place()] == win.data[..BlockAt()] + win.window[win.blockStart..win.strstart]
    {
      hide Window.Chained, Window.Totals;
      if win.blockStart >= 0 {
        var shown, n := win.window[..], win.strstart + win.lookahead;
        PartOfWindow(shown, win.data, win.base, n, win.blockStart, win.strstart);
      }
    }

    /** FLUSH_BLOCK */
    method Flush(eof: bool, ghost head: seq<bool>) returns (ghost mid: seq<bool>)
      requires Apart() && win.Valid() && Coded(head, Place())
      modifies CoderRepr
      ensures coder.Valid() && coder.tokens == []
      ensures !eof ==> Sent(head, Place())
      ensures eof ==> Done(head, mid)
    {
      hide *;
      CoderAt(head, Place());
      ghost var before, out := coder.w.Sent(), win.data[..BlockAt()];
      CoveredParts(win.data, BlockAt(), Place(), coder.tokens);
      Places();
      StoredInput();
      ApartParts();
      mid := coder.FlushBlock(win.window, win.blockStart, win.strstart - win.blockStart, eof, out);
      if eof {
        FinishedFrom(head, before, out, mid, win.data[..Place()]);
        DoneFrom(head, mid);
      } else {
        EmittedBlock(head, before, out, mid, win.data[..Place()]);
        SentFrom(head, Place());
      }
    }

    lemma SentFrom(head: seq<bool>, p: nat)
      requires Apart() && coder.Valid() && p <= |win.data| && Emitted(head, coder.w.Sent(), win.data[..p])
      ensures Sent(head, p)
    {
    }

    lemma DoneFrom(head: seq<bool>, mid: seq<bool>)
      requires Apart() && coder.Valid() && Place() <= |win.data| && Finished(head, coder.w.Sent(), mid, win.data[..Place()])
      requires BytesBits(coder.w.Bytes()) == coder.w.Sent() && coder.w.biValid == 0
      ensures Done(head, mid)
    {
    }

    lemma Places()
      ensures BlockAt() == win.base + win.blockStart && Place() == win.base + win.strstart
    {
    }

    lemma ApartParts()
      requires Apart()
      ensures win.window != coder.w.outbuf && win.window != coder.lBuf && win.window != coder.flagBuf
      ensures win.window !in {coder.w.outbuf, coder.lBuf, coder.flagBuf}
      ensures CoderRepr == coder.trees.Repr + {coder, coder.w, coder.w.outbuf, coder.lBuf, coder.dBuf, coder.flagBuf}
      ensures coder.trees.fcL in coder.trees.Repr && coder.trees.fcD in coder.trees.Repr
      ensures WindowRepr == {win, win.window, win.head, win.prev}
      ensures win !in CoderRepr && win.window !in CoderRepr && win.prev !in CoderRepr && win.head !in CoderRepr
    {
    }

    /** A block that the tokens fill is flushed, and the next one begins here. */
    method FlushIf(flush: bool, ghost head: seq<bool>)
      requires Apart() && win.Valid() && Coded(head, Place()) && (!flush ==> coder.lastLit < LIT_BUFSIZE - 1)
      modifies CoderRepr, win`blockStart
      ensures Coded(head, Place()) && coder.lastLit < LIT_BUFSIZE - 1
      ensures coder.tokens == if flush then [] else old(coder.tokens)
    {
      hide *;
      if flush {
        ApartParts();
        var mid := Flush(false, head);
        win.blockStart := win.strstart;
        NextBlock(head);
      }
    }

    lemma NextBlock(head: seq<bool>)
      requires Apart() && coder.Valid() && coder.tokens == [] && win.blockStart == win.strstart && Sent(head, Place())
      ensures Coded(head, Place()) && coder.lastLit < LIT_BUFSIZE - 1
    {
      hide Emitted;
      CoveredNone(win.data, Place());
    }

    /** ct_tally, for a literal or a match at `to`. */
    method Tally(dist: nat, lc: Byte, ghost head: seq<bool>, ghost to: nat) returns (flush: bool)
      requires Apart() && Coded(head, to) && coder.lastLit < LIT_BUFSIZE - 1 && dist <= MAX_DIST
      requires if dist == 0 then to < |win.data| && lc == win.data[to]
               else MatchAt(win.data, to, dist, lc + MIN_MATCH) && lc + MIN_MATCH <= MAX_MATCH
      modifies CoderRepr
      ensures Coded(head, to + (if dist == 0 then 1 else lc + MIN_MATCH)) && (!flush ==> coder.lastLit < LIT_BUFSIZE - 1)
      ensures coder.tokens == old(coder.tokens) + [if dist == 0 then Lit(lc) else Match(lc + 3, dist)]
    {
      hide *;
      CoderAt(head, to);
      Limits();
      ApartParts();
      ghost var ts := coder.tokens;
      flush := coder.CtTally(dist, lc, win.strstart, win.blockStart);
      TokenIs(dist, lc);
      CoderSizes();
      if dist == 0 {
        CoveredLit(win.data, BlockAt(), to, ts, lc);
        CodedFrom(head, to + 1);
      } else {
        CoveredMatch(win.data, BlockAt(), to, ts, dist, lc + MIN_MATCH);
        CodedFrom(head, to + lc + MIN_MATCH);
      }
    }

    lemma CoderAt(head: seq<bool>, to: nat)
      requires Coded(head, to)
      ensures coder.Valid() && coder.w.Valid() && 0 <= BlockAt() <= to <= |win.data|
      ensures Emitted(head, coder.w.Sent(), win.data[..BlockAt()]) && Covered(win.data, BlockAt(), to, coder.tokens)
    {
      hide Emitted, Expand, Meaningful;
    }

    lemma CoderSizes()
      requires coder.Valid()
      ensures coder.w.Valid() && coder.lastLit < LIT_BUFSIZE
    {
    }

    lemma CodedFrom(head: seq<bool>, to: nat)
      requires Apart() && coder.Valid() && 0 <= BlockAt() <= |win.data| && Emitted(head, coder.w.Sent(), win.data[..BlockAt()])
      requires Covered(win.data, BlockAt(), to, coder.tokens)
      ensures Coded(head, to)
    {
      hide Emitted;
    }

    /** The search of one step: a match longer than the one before, or nothing of interest. There
        is no search if the match before is good enough or the first candidate too far back; the
        longest match is cut at the end of the input, and three bytes too far back do not count. */
    method FindMatch(hashHead: nat) returns (matchLength: nat, ghost best: nat, ghost seen: seq<nat>)
      requires win.Valid() && win.inserted == win.strstart + 1 && win.lookahead > 0 && 1 <= win.prevLength <= MAX_MATCH
      requires win.strstart + 2 < win.window.Length
      requires Link(win.window[..], hashHead, win.strstart, HashAt(win.window[..], win.strstart))
      modifies win`matchStart
      ensures 1 <= matchLength <= MAX_MATCH
      ensures matchLength > win.prevLength ==>
                Awaiting(win.data, Place(), U32(win.strstart - win.matchStart), matchLength)
      ensures Searched(hashHead) ==>
                win.prevLength <= best && win.BestOf(seen, best) && win.prev.Length == WSIZE
                && seen <= Visited(win.prev[..], hashHead, win.Oldest(), win.ChainLimit())
                && (seen == Visited(win.prev[..], hashHead, win.Oldest(), win.ChainLimit()) || (best > win.prevLength && best >= NICE_MATCH))
                && matchLength == Counting(best, win.lookahead, U32(win.strstart - win.matchStart))
      ensures !Searched(hashHead) ==> matchLength == 2 && win.matchStart == old(win.matchStart)
    {
      hide *;
      Limits();
      SearchedIs(hashHead);
      best, seen := 0, [];
      matchLength := MIN_MATCH - 1;
      if hashHead != 0 && win.prevLength < MAX_LAZY_MATCH && win.strstart - hashHead <= MAX_DIST {
        win.FirstCandidate(hashHead, win.strstart);
        win.Bounds();
        matchLength, seen := win.LongestMatch(hashHead);
        best := matchLength;
        CountingIs(best, win.lookahead, U32(win.strstart - win.matchStart));
        if matchLength > win.lookahead {
          matchLength := win.lookahead;
        }
        if matchLength == MIN_MATCH && U32(win.strstart - win.matchStart) > TOO_FAR {
          matchLength := matchLength - 1;
        }
        if matchLength > win.prevLength {
          FoundInInput(best, matchLength);
        }
      } else {
        NotAwaiting(matchLength);
      }
    }

    ghost predicate Searched(hashHead: nat)
      reads win`prevLength, win`strstart
    {
      hashHead != 0 && win.prevLength < 16 && win.strstart - hashHead <= 32506
    }

    lemma SearchedIs(hashHead: nat)
      ensures Searched(hashHead)
         <==> hashHead != 0 && win.prevLength < MAX_LAZY_MATCH && win.strstart - hashHead <= MAX_DIST
    {
    }

    lemma CountingIs(best: nat, lookahead: nat, dist: nat)
      ensures var l := if best > lookahead then lookahead else best;
              Counting(best, lookahead, dist) == if l == MIN_MATCH && dist > TOO_FAR then l - 1 else l
    {
    }

    lemma Limits()
      ensures MIN_MATCH == 3 && MAX_MATCH == 258 && WINDOW_SIZE == 65536 && MAX_DIST == 32506 && LIT_BUFSIZE == 8192
      ensures MIN_LOOKAHEAD == 262
    {
    }

    lemma NotAwaiting(len: nat)
      requires len < MIN_MATCH
      ensures forall pos, dist :: Awaiting(win.data, pos, dist, len)
    {
    }

    /** A match in the window, cut to the bytes that are really there, is one in the input. */
    lemma FoundInInput(best: nat, len: nat)
      requires win.Valid() && win.Found(win.matchStart, best) && len <= best && len <= win.lookahead
      ensures Awaiting(win.data, Place(), U32(win.strstart - win.matchStart), len)
    {
      hide Window.Chained, Window.Totals;
      var data, p, d := win.data, Place(), win.strstart - win.matchStart;
      var n := win.strstart + win.lookahead;
      assert U32(d) == d;
      forall k | p <= k < p + len ensures data[k] == data[k - d] {
        var i := k - win.base;
        assert win.window[i] == win.window[..n][i] == data[win.base..][i];
        assert win.window[i - d] == win.window[..n][i - d] == data[win.base..][i - d];
      }
    }

    // ----- the loop

    /** Everything up to strstart is tokens, except the byte before it if `avail`; that byte
        may begin a match of `len` bytes that is still on offer. */
    ghost predicate Settled(head: seq<bool>, avail: bool, len: nat)
      reads WindowRepr, CoderRepr
    {
      Apart() && win.inserted == win.strstart && coder.lastLit < LIT_BUFSIZE - 1
      && 1 <= len <= MAX_MATCH && (len >= MIN_MATCH ==> avail) && (avail ==> win.strstart >= 1)
      && Awaiting(win.data, Place() - 1, U32(win.strstart - 1 - win.matchStart), len)
      && Coded(head, Place() - (if avail then 1 else 0)) && win.Valid()
    }

    /** The head of the loop: there is enough to look at, or no more input. */
    ghost predicate Between(head: seq<bool>, avail: bool, len: nat)
      reads WindowRepr, CoderRepr
    {
      Settled(head, avail, len) && (win.lookahead > 0 ==> win.Hashed()) && (win.eofile || win.lookahead >= MIN_LOOKAHEAD)
    }

    lemma SettledParts(head: seq<bool>, avail: bool, len: nat)
      requires Settled(head, avail, len)
      ensures Apart() && win.Valid() && win.inserted == win.strstart && coder.lastLit < LIT_BUFSIZE - 1
      ensures 1 <= len <= MAX_MATCH && (len >= MIN_MATCH ==> avail) && (avail ==> win.strstart >= 1)
      ensures avail ==> Coded(head, Place() - 1)
      ensures !avail ==> Coded(head, Place())
      ensures Awaiting(win.data, Place() - 1, U32(win.strstart - 1 - win.matchStart), len)
    {
      hide Window.Valid, Coded, Awaiting;
    }

    lemma SettledFrom(head: seq<bool>, avail: bool, len: nat)
      requires Apart() && win.Valid() && win.inserted == win.strstart && coder.lastLit < LIT_BUFSIZE - 1
      requires 1 <= len <= MAX_MATCH && (len >= MIN_MATCH ==> avail) && (avail ==> win.strstart >= 1)
      requires avail ==> Coded(head, Place() - 1)
      requires !avail ==> Coded(head, Place())
      requires Awaiting(win.data, Place() - 1, U32(win.strstart - 1 - win.matchStart), len)
      ensures Settled(head, avail, len)
    {
      hide Window.Valid, Coded, Awaiting;
    }

    lemma AwaitedMatch(pos: nat, dist: nat, len: nat)
      requires win.Valid() && Awaiting(win.data, pos, dist, len) && len >= MIN_MATCH && pos + 1 == Place()
      ensures MatchAt(win.data, pos, dist, len) && 1 <= dist <= MAX_DIST && len <= win.lookahead + 1
    {
      win.DataEnd();
      hide Window.Valid;
    }

    /** The match before is as good as the one here: it becomes a token, and its strings
        are inserted. */
    method TakeMatch(prevMatch: Word, ghost head: seq<bool>)
      requires Apart() && win.Valid() && win.Hashed() && win.inserted == win.strstart + 1 && coder.lastLit < LIT_BUFSIZE - 1
      requires Place() >= 1 && Coded(head, Place() - 1) && MIN_MATCH <= win.prevLength <= MAX_MATCH
      requires Awaiting(win.data, Place() - 1, U32(win.strstart - 1 - prevMatch), win.prevLength)
      modifies CoderRepr, win`strstart, win`lookahead, win`prevLength, win`insH, win`inserted, win`blockStart, win.head, win.prev
      ensures win.Valid() && win.Hashed() && win.inserted == win.strstart > old(win.strstart)
      ensures Coded(head, Place()) && coder.lastLit < LIT_BUFSIZE - 1
      ensures old(win.lookahead) <= win.lookahead + (MAX_MATCH - 1)
      ensures win.strstart == old(win.strstart) + old(win.prevLength) - 1
      ensures Added(old(coder.tokens), [Match(old(win.prevLength), U32(old(win.strstart) - 1 - prevMatch))], coder.tokens)
    {
      hide *;
      Limits();
      ApartParts();
      Places();
      ghost var dist := U32(win.strstart - 1 - prevMatch);
      ghost var len := win.prevLength;
      ghost var pos := Place() - 1;
      AwaitedMatch(pos, U32(win.strstart - 1 - prevMatch), win.prevLength);
      var flush := Tally(U32(win.strstart - 1 - prevMatch), win.prevLength - MIN_MATCH, head, pos);
      ghost var end := pos + win.prevLength;
      assert Coded(head, end);
      win.SkipMatch();
      Places();
      assert Coded(head, end);
      assert Place() == end;
      FlushIf(flush, head);
      AddedOne(old(coder.tokens), Match(len, dist), coder.tokens);
    }

    /** deflate, after lm_init and ct_init. */
    method Deflate(ghost head: seq<bool>) returns (ghost mid: seq<bool>)
      requires Between(head, false, MIN_MATCH - 1)
      modifies WindowRepr, CoderRepr
      ensures Done(head, mid) && win.Valid() && win.eofile && Place() == |win.data|
      ensures win.data + win.rest == old(win.data + win.rest)
    {
      hide *;
      Limits();
      var matchAvailable := false;
      var matchLength: nat := MIN_MATCH - 1;
      while win.lookahead != 0
        invariant Between(head, matchAvailable, matchLength)
        invariant win.data + win.rest == old(win.data + win.rest)
        decreases |win.data + win.rest| - Place()
      {
        matchAvailable, matchLength := Step(matchAvailable, matchLength, head);
      }
      BetweenParts(head, matchAvailable, matchLength);
      SettledParts(head, matchAvailable, matchLength);
      ApartParts();
      mid := Finish(matchAvailable, matchLength, head);
    }

    /** One step of the loop. */
    method Step(avail: bool, matchLength0: nat, ghost head: seq<bool>) returns (avail': bool, matchLength: nat)
      requires Between(head, avail, matchLength0) && win.lookahead > 0
      modifies WindowRepr, CoderRepr
      ensures Between(head, avail', matchLength)
      ensures win.data + win.rest == old(win.data + win.rest) && old(Place()) < Place() <= |win.data + win.rest|
    {
      hide *;
      BetweenParts(head, avail, matchLength0);
      SettledParts(head, avail, matchLength0);
      ApartParts();
      Limits();
      Places();
      ghost var found;
      avail', matchLength, found := Act(avail, matchLength0, head);
      Places();
      Refill(avail', matchLength, head);
    }

    lemma BetweenParts(head: seq<bool>, avail: bool, len: nat)
      requires Between(head, avail, len)
      ensures Settled(head, avail, len) && (win.lookahead > 0 ==> win.Hashed()) && (win.eofile || win.lookahead >= MIN_LOOKAHEAD)
    {
    }

    /** The byte before this position becomes a literal, if it has been kept waiting. */
    method LiteralIf(avail: bool, ghost head: seq<bool>)
      requires Apart() && win.Valid() && coder.lastLit < LIT_BUFSIZE - 1 && (avail ==> win.strstart >= 1 && Place() >= 1)
      requires Coded(head, Place() - (if avail then 1 else 0))
      modifies CoderRepr, win`blockStart
      ensures Coded(head, Place()) && coder.lastLit < LIT_BUFSIZE - 1
      ensures !avail ==> coder.tokens == old(coder.tokens)
      ensures avail ==> Place() >= 1 && Place() <= |win.data| && Added(old(coder.tokens), [Lit(win.data[Place() - 1])], coder.tokens)
    {
      hide *;
      if avail {
        Limits();
        ApartParts();
        LastByte();
        var flush := Tally(0, win.window[win.strstart - 1], head, Place() - 1);
        FlushIf(flush, head);
        AddedOne(old(coder.tokens), Lit(win.data[Place() - 1]), coder.tokens);
      }
    }

    /** The match of the byte before is taken. */
    method TakePending(prevMatch: Word, ghost head: seq<bool>)
      requires Apart() && win.Valid() && win.Hashed() && win.inserted == win.strstart + 1 && coder.lastLit < LIT_BUFSIZE - 1
      requires Place() >= 1 && Coded(head, Place() - 1) && MIN_MATCH <= win.prevLength <= MAX_MATCH
      requires Awaiting(win.data, Place() - 1, U32(win.strstart - 1 - prevMatch), win.prevLength)
      modifies CoderRepr, win`strstart, win`lookahead, win`prevLength, win`insH, win`inserted, win`blockStart, win.head, win.prev
      ensures Settled(head, false, 2) && win.Hashed() && win.strstart == old(win.strstart) + old(win.prevLength) - 1
      ensures win.strstart > old(win.strstart) && old(win.lookahead) <= win.lookahead + (MAX_MATCH - 1)
      ensures Added(old(coder.tokens), [Match(old(win.prevLength), U32(old(win.strstart) - 1 - prevMatch))], coder.tokens)
    {
      hide *;
      Limits();
      TakeMatch(prevMatch, head);
      NotAwaiting(2);
      SettledFrom(head, false, 2);
    }

    /** The byte before goes out as a literal, if it has not gone, and the next step decides
        about the one here. */
    method WaitForNext(avail: bool, matchLength: nat, ghost head: seq<bool>)
      requires Apart() && win.Valid() && win.inserted == win.strstart + 1 && win.lookahead > 0 && coder.lastLit < LIT_BUFSIZE - 1
      requires (avail ==> win.strstart >= 1 && Place() >= 1) && Coded(head, Place() - (if avail then 1 else 0))
      requires 1 <= matchLength <= MAX_MATCH && Awaiting(win.data, Place(), U32(win.strstart - win.matchStart), matchLength)
      modifies CoderRepr, win`blockStart, win`strstart, win`lookahead
      ensures Settled(head, true, matchLength) && win.strstart == old(win.strstart) + 1 && win.lookahead == old(win.lookahead) - 1
      ensures !avail ==> coder.tokens == old(coder.tokens)
      ensures avail ==> 1 <= old(Place()) <= |win.data| && Added(old(coder.tokens), [Lit(win.data[old(Place()) - 1])], coder.tokens)
    {
      hide *;
      ApartParts();
      Places();
      LiteralIf(avail, head);
      win.Advance();
      Places();
      SettledFrom(head, true, matchLength);
    }

    /** The body of the loop up to its last statement. */
    method Act(avail: bool, matchLength0: nat, ghost head: seq<bool>)
      returns (avail': bool, matchLength: nat, ghost found: nat)
      requires Settled(head, avail, matchLength0) && win.lookahead > 0 && win.Hashed()
      requires win.eofile || win.lookahead >= MIN_LOOKAHEAD
      modifies CoderRepr, win`strstart, win`lookahead, win`prevLength, win`matchStart, win`insH, win`inserted, win`blockStart,
               win.head, win.prev
      ensures Settled(head, avail', matchLength) && win.Hashed() && win.strstart > old(win.strstart)
      ensures win.lookahead >= 2 || win.eofile
      ensures var take := matchLength0 >= 3 && found <= matchLength0;
              avail' == !take && matchLength == (if take then 2 else found)
              && win.strstart == old(win.strstart) + (if take then matchLength0 - 1 else 1)
      ensures matchLength0 >= 3 && found <= matchLength0 ==>
                Added(old(coder.tokens), [Match(matchLength0, U32(old(win.strstart) - 1 - old(win.matchStart)))], coder.tokens)
      ensures !(matchLength0 >= 3 && found <= matchLength0) ==>
                (if avail then 1 <= old(Place()) <= |win.data| && Added(old(coder.tokens), [Lit(win.data[old(Place()) - 1])], coder.tokens)
                 else coder.tokens == old(coder.tokens))
    {
      hide *;
      Limits();
      SettledParts(head, avail, matchLength0);
      ApartParts();
      Places();
      var hashHead := win.InsertHere();
      win.prevLength := matchLength0;
      var prevMatch := win.matchStart;
      ghost var best, seen;
      matchLength, best, seen := FindMatch(hashHead);
      found := matchLength;
      if win.prevLength >= MIN_MATCH && matchLength <= win.prevLength {
        TakePending(prevMatch, head);
        avail' := false;
        matchLength := MIN_MATCH - 1;
      } else {
        if matchLength < MIN_MATCH {
          NotAwaiting(matchLength);
        }
        WaitForNext(avail, matchLength, head);
        avail' := true;
      }
    }

    lemma LastByte()
      requires win.Valid() && win.strstart >= 1
      ensures win.strstart <= win.window.Length && 1 <= Place() <= |win.data|
      ensures win.window[win.strstart - 1] == win.data[Place() - 1]
    {
      hide Window.Chained, Window.Totals;
      var n := win.strstart + win.lookahead;
      assert win.window[win.strstart - 1] == win.window[..n][win.strstart - 1] == win.data[win.base..][win.strstart - 1];
    }

    /** fill_window_if_needed, seen from deflate. */
    method Refill(avail: bool, len: nat, ghost head: seq<bool>)
      requires Settled(head, avail, len) && win.Hashed() && (win.lookahead >= 2 || win.eofile)
      modifies WindowRepr
      ensures Between(head, avail, len) && Place() == old(Place()) <= |win.data|
      ensures win.data + win.rest == old(win.data + win.rest)
    {
      hide *;
      SettledParts(head, avail, len);
      ApartParts();
      Places();
      ghost var data0, to := win.data, Place() - (if avail then 1 else 0);
      CoderAt(head, to);
      win.FillWindowIfNeeded();
      SameParts(old(win.base), old(win.strstart), old(win.blockStart), old(win.matchStart));
      Places();
      win.DataEnd();
      StillCoded(head, to, data0);
      StillAwaiting(data0, Place() - 1, U32(win.strstart - 1 - win.matchStart), len);
      SettledFrom(head, avail, len);
      BetweenFrom(head, avail, len);
    }

    lemma SameParts(base: nat, strstart: nat, block: int, match_: Word)
      requires win.SamePlaces(base, strstart, block, match_)
      ensures win.base + win.strstart == base + strstart && win.base + win.blockStart == base + block
      ensures U32(win.strstart - 1 - win.matchStart) == U32(strstart - 1 - match_)
    {
    }

    lemma StillCoded(head: seq<bool>, to: nat, data0: seq<Byte>)
      requires Apart() && coder.Valid() && 0 <= BlockAt() <= |data0| && Emitted(head, coder.w.Sent(), data0[..BlockAt()])
      requires Covered(data0, BlockAt(), to, coder.tokens) && data0 <= win.data
      ensures Coded(head, to)
    {
      hide Emitted, Expand, Meaningful;
      CoveredLater(data0, win.data, BlockAt(), to, coder.tokens);
      assert data0[..BlockAt()] == win.data[..BlockAt()];
    }

    lemma StillAwaiting(data0: seq<Byte>, pos: int, dist: nat, len: nat)
      requires Awaiting(data0, pos, dist, len) && data0 <= win.data
      ensures Awaiting(win.data, pos, dist, len)
    {
    }

    lemma BetweenFrom(head: seq<bool>, avail: bool, len: nat)
      requires Settled(head, avail, len) && win.Hashed() && (win.eofile || win.lookahead >= MIN_LOOKAHEAD)
      ensures Between(head, avail, len)
    {
    }

    /** The last block. */
    method Finish(avail: bool, ghost matchLength: nat, ghost head: seq<bool>) returns (ghost mid: seq<bool>)
      requires Between(head, avail, matchLength) && win.lookahead == 0
      modifies CoderRepr
      ensures Done(head, mid) && win.Valid() && win.eofile && Place() == |win.data|
    {
      hide *;
      Limits();
      BetweenParts(head, avail, matchLength);
      SettledParts(head, avail, matchLength);
      ApartParts();
      Places();
      win.DataEnd();
      if avail {
        LastByte();
        var flush := Tally(0, win.window[win.strstart - 1], head, Place() - 1);
      }
      mid := Flush(true, head);
    }
  }
}
