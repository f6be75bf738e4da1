/** The divisor increments of factor: how they are packed, how they are unpacked,
    and that they skip only numbers divisible by 2, 3, 5, 7 or 11. */
module Wheels {
  import opened Bits

  const ROWS: nat := 23
  const ROW_SIZE: nat := 21
  const WHEEL_START: nat := 5
  const WHEEL_SIZE: nat := 5 + 24 * 20

  /** One packed word: 21 even increments. */
  datatype Row = Row(a: nat, b: nat, c: nat, d: nat, e: nat, f: nat, g: nat, h: nat, i: nat, j: nat, k: nat, l: nat, m: nat, n: nat, o: nat, p: nat, q: nat, r: nat, s: nat, t: nat, u: nat)

  /** packed_wheel, before packing */
  function RowData(i: nat): Row
    requires i < ROWS
  {
    if i == 0 then Row(2, 4, 2, 4, 2, 4, 6, 2, 6, 4, 2, 4, 6, 6, 2, 6, 4, 2, 6, 4, 6)
    else if i == 1 then Row(8, 4, 2, 4, 2, 4, 14, 4, 6, 2, 10, 2, 6, 6, 4, 2, 4, 6, 2, 10, 2)
    else if i == 2 then Row(4, 2, 12, 10, 2, 4, 2, 4, 6, 2, 6, 4, 6, 6, 6, 2, 6, 4, 2, 6, 4)
    else if i == 3 then Row(6, 8, 4, 2, 4, 6, 8, 6, 10, 2, 4, 6, 2, 6, 6, 4, 2, 4, 6, 2, 6)
    else if i == 4 then Row(4, 2, 6, 10, 2, 10, 2, 4, 2, 4, 6, 8, 4, 2, 4, 12, 2, 6, 4, 2, 6)
    else if i == 5 then Row(4, 6, 12, 2, 4, 2, 4, 8, 6, 4, 6, 2, 4, 6, 2, 6, 10, 2, 4, 6, 2)
    else if i == 6 then Row(6, 4, 2, 4, 2, 10, 2, 10, 2, 4, 6, 6, 2, 6, 6, 4, 6, 6, 2, 6, 4)
    else if i == 7 then Row(2, 6, 4, 6, 8, 4, 2, 6, 4, 8, 6, 4, 6, 2, 4, 6, 8, 6, 4, 2, 10)
    else if i == 8 then Row(2, 6, 4, 2, 4, 2, 10, 2, 10, 2, 4, 2, 4, 8, 6, 4, 2, 4, 6, 6, 2)
    else if i == 9 then Row(6, 4, 8, 4, 6, 8, 4, 2, 4, 2, 4, 8, 6, 4, 6, 6, 6, 2, 6, 6, 4)
    else if i == 10 then Row(2, 4, 6, 2, 6, 4, 2, 4, 2, 10, 2, 10, 2, 6, 4, 6, 2, 6, 4, 2, 4)
    else if i == 11 then Row(6, 6, 8, 4, 2, 6, 10, 8, 4, 2, 4, 2, 4, 8, 10, 6, 2, 4, 8, 6, 6)
    else if i == 12 then Row(4, 2, 4, 6, 2, 6, 4, 6, 2, 10, 2, 10, 2, 4, 2, 4, 6, 2, 6, 4, 2)
    else if i == 13 then Row(4, 6, 6, 2, 6, 6, 6, 4, 6, 8, 4, 2, 4, 2, 4, 8, 6, 4, 8, 4, 6)
    else if i == 14 then Row(2, 6, 6, 4, 2, 4, 6, 8, 4, 2, 4, 2, 10, 2, 10, 2, 4, 2, 4, 6, 2)
    else if i == 15 then Row(10, 2, 4, 6, 8, 6, 4, 2, 6, 4, 6, 8, 4, 6, 2, 4, 8, 6, 4, 6, 2)
    else if i == 16 then Row(4, 6, 2, 6, 6, 4, 6, 6, 2, 6, 6, 4, 2, 10, 2, 10, 2, 4, 2, 4, 6)
    else if i == 17 then Row(2, 6, 4, 2, 10, 6, 2, 6, 4, 2, 6, 4, 6, 8, 4, 2, 4, 2, 12, 6, 4)
    else if i == 18 then Row(6, 2, 4, 6, 2, 12, 4, 2, 4, 8, 6, 4, 2, 4, 2, 10, 2, 10, 6, 2, 4)
    else if i == 19 then Row(6, 2, 6, 4, 2, 4, 6, 6, 2, 6, 4, 2, 10, 6, 8, 6, 4, 2, 4, 8, 6)
    else if i == 20 then Row(4, 6, 2, 4, 6, 2, 6, 6, 6, 4, 6, 2, 6, 4, 2, 4, 2, 10, 12, 2, 4)
    else if i == 21 then Row(2, 10, 2, 6, 4, 2, 4, 6, 6, 2, 10, 2, 6, 4, 14, 4, 2, 4, 2, 4, 8)
    else Row(6, 4, 6, 2, 4, 6, 2, 6, 6, 4, 2, 4, 6, 2, 6, 4, 2, 4, 12, 2, 12)
  }

  function Entry(r: Row, j: nat): nat
    requires j < ROW_SIZE
  {
    if j == 0 then r.a
    else if j == 1 then r.b
    else if j == 2 then r.c
    else if j == 3 then r.d
    else if j == 4 then r.e
    else if j == 5 then r.f
    else if j == 6 then r.g
    else if j == 7 then r.h
    else if j == 8 then r.i
    else if j == 9 then r.j
    else if j == 10 then r.k
    else if j == 11 then r.l
    else if j == 12 then r.m
    else if j == 13 then r.n
    else if j == 14 then r.o
    else if j == 15 then r.p
    else if j == 16 then r.q
    else if j == 17 then r.r
    else if j == 18 then r.s
    else if j == 19 then r.t
    else r.u
  }

  predicate OddFactor(n: nat) {
    n % 3 == 0 || n % 5 == 0 || n % 7 == 0 || n % 11 == 0
  }

  /** From an odd `a`, an even step over numbers that all have a small factor. */
  predicate Skips(a: nat, gap: nat) {
    2 <= gap <= 14 && gap % 2 == 0
    && (gap > 2 ==> OddFactor(a + 2)) && (gap > 4 ==> OddFactor(a + 4)) && (gap > 6 ==> OddFactor(a + 6))
    && (gap > 8 ==> OddFactor(a + 8)) && (gap > 10 ==> OddFactor(a + 10)) && (gap > 12 ==> OddFactor(a + 12))
  }

  /** Seven sound steps from `s` to `t`. */
  predicate Third(s: nat, a: nat, b: nat, c: nat, d: nat, e: nat, f: nat, g: nat, t: nat) {
    Skips(s, a) && Skips(s + a, b) && Skips(s + a + b, c) && Skips(s + a + b + c, d)
    && Skips(s + a + b + c + d, e) && Skips(s + a + b + c + d + e, f) && Skips(s + a + b + c + d + e + f, g) && s + a + b + c + d + e + f + g == t
  }

  /** The first, the second and the last seven steps of a row are sound. */
  predicate First(s: nat, t: nat, r: Row) {
    Third(s, r.a, r.b, r.c, r.d, r.e, r.f, r.g, t)
  }

  predicate Second(s: nat, t: nat, r: Row) {
    Third(s, r.h, r.i, r.j, r.k, r.l, r.m, r.n, t)
  }

  predicate Last(s: nat, t: nat, r: Row) {
    Third(s, r.o, r.p, r.q, r.r, r.s, r.t, r.u, t)
  }

  /** A row of sound steps from `s` by way of `m` and `n` to `e`. */
  predicate Sound(s: nat, m: nat, n: nat, e: nat, r: Row) {
    First(s, m, r) && Second(m, n, r) && Last(n, e, r)
  }

  /** Where the rows start. */
  function Start(i: nat): nat
    requires i <= ROWS
  {
    [5, 89, 193, 293, 397, 499, 601, 701, 809, 901, 1007, 1097, 1213, 1303, 1409, 1501, 1609, 1709, 1811, 1913, 2017, 2117, 2221, 2323][i]
  }

  lemma Row0First() ensures First(5, 29, RowData(0)) {}

  lemma Row0Second() ensures Second(29, 59, RowData(0)) {}

  lemma Row0Last() ensures Last(59, 89, RowData(0)) {}

  lemma Row1First() ensures First(89, 127, RowData(1)) {}

  lemma Row1Second() ensures Second(127, 163, RowData(1)) {}

  lemma Row1Last() ensures Last(163, 193, RowData(1)) {}

  lemma Row2First() ensures First(193, 229, RowData(2)) {}

  lemma Row2Second() ensures Second(229, 263, RowData(2)) {}

  lemma Row2Last() ensures Last(263, 293, RowData(2)) {}

  lemma Row3First() ensures First(293, 331, RowData(3)) {}

  lemma Row3Second() ensures Second(331, 367, RowData(3)) {}

  lemma Row3Last() ensures Last(367, 397, RowData(3)) {}

  lemma Row4First() ensures First(397, 433, RowData(4)) {}

  lemma Row4Second() ensures Second(433, 463, RowData(4)) {}

  lemma Row4Last() ensures Last(463, 499, RowData(4)) {}

  lemma Row5First() ensures First(499, 533, RowData(5)) {}

  lemma Row5Second() ensures Second(533, 569, RowData(5)) {}

  lemma Row5Last() ensures Last(569, 601, RowData(5)) {}

  lemma Row6First() ensures First(601, 631, RowData(6)) {}

  lemma Row6Second() ensures Second(631, 667, RowData(6)) {}

  lemma Row6Last() ensures Last(667, 701, RowData(6)) {}

  lemma Row7First() ensures First(701, 733, RowData(7)) {}

  lemma Row7Second() ensures Second(733, 769, RowData(7)) {}

  lemma Row7Last() ensures Last(769, 809, RowData(7)) {}

  lemma Row8First() ensures First(809, 839, RowData(8)) {}

  lemma Row8Second() ensures Second(839, 871, RowData(8)) {}

  lemma Row8Last() ensures Last(871, 901, RowData(8)) {}

  lemma Row9First() ensures First(901, 941, RowData(9)) {}

  lemma Row9Second() ensures Second(941, 971, RowData(9)) {}

  lemma Row9Last() ensures Last(971, 1007, RowData(9)) {}

  lemma Row10First() ensures First(1007, 1033, RowData(10)) {}

  lemma Row10Second() ensures Second(1033, 1069, RowData(10)) {}

  lemma Row10Last() ensures Last(1069, 1097, RowData(10)) {}

  lemma Row11First() ensures First(1097, 1139, RowData(11)) {}

  lemma Row11Second() ensures Second(1139, 1171, RowData(11)) {}

  lemma Row11Last() ensures Last(1171, 1213, RowData(11)) {}

  lemma Row12First() ensures First(1213, 1241, RowData(12)) {}

  lemma Row12Second() ensures Second(1241, 1277, RowData(12)) {}

  lemma Row12Last() ensures Last(1277, 1303, RowData(12)) {}

  lemma Row13First() ensures First(1303, 1339, RowData(13)) {}

  lemma Row13Second() ensures Second(1339, 1369, RowData(13)) {}

  lemma Row13Last() ensures Last(1369, 1409, RowData(13)) {}

  lemma Row14First() ensures First(1409, 1439, RowData(14)) {}

  lemma Row14Second() ensures Second(1439, 1471, RowData(14)) {}

  lemma Row14Last() ensures Last(1471, 1501, RowData(14)) {}

  lemma Row15First() ensures First(1501, 1541, RowData(15)) {}

  lemma Row15Second() ensures Second(1541, 1577, RowData(15)) {}

  lemma Row15Last() ensures Last(1577, 1609, RowData(15)) {}

  lemma Row16First() ensures First(1609, 1643, RowData(16)) {}

  lemma Row16Second() ensures Second(1643, 1679, RowData(16)) {}

  lemma Row16Last() ensures Last(1679, 1709, RowData(16)) {}

  lemma Row17First() ensures First(1709, 1741, RowData(17)) {}

  lemma Row17Second() ensures Second(1741, 1777, RowData(17)) {}

  lemma Row17Last() ensures Last(1777, 1811, RowData(17)) {}

  lemma Row18First() ensures First(1811, 1847, RowData(18)) {}

  lemma Row18Second() ensures Second(1847, 1877, RowData(18)) {}

  lemma Row18Last() ensures Last(1877, 1913, RowData(18)) {}

  lemma Row19First() ensures First(1913, 1943, RowData(19)) {}

  lemma Row19Second() ensures Second(1943, 1979, RowData(19)) {}

  lemma Row19Last() ensures Last(1979, 2017, RowData(19)) {}

  lemma Row20First() ensures First(2017, 2047, RowData(20)) {}

  lemma Row20Second() ensures Second(2047, 2081, RowData(20)) {}

  lemma Row20Last() ensures Last(2081, 2117, RowData(20)) {}

  lemma Row21First() ensures First(2117, 2147, RowData(21)) {}

  lemma Row21Second() ensures Second(2147, 2183, RowData(21)) {}

  lemma Row21Last() ensures Last(2183, 2221, RowData(21)) {}

  lemma Row22First() ensures First(2221, 2251, RowData(22)) {}

  lemma Row22Second() ensures Second(2251, 2281, RowData(22)) {}

  lemma Row22Last() ensures Last(2281, 2323, RowData(22)) {}

  lemma RowSound(i: nat) returns (m: nat, n: nat)
    requires i < ROWS
    ensures Sound(Start(i), m, n, Start(i + 1), RowData(i))
  {
    Starts();
    hide RowData, Start, First, Second, Last;
    if i == 0 { Row0First(); Row0Second(); Row0Last(); m, n := 29, 59; }
    else if i == 1 { Row1First(); Row1Second(); Row1Last(); m, n := 127, 163; }
    else if i == 2 { Row2First(); Row2Second(); Row2Last(); m, n := 229, 263; }
    else if i == 3 { Row3First(); Row3Second(); Row3Last(); m, n := 331, 367; }
    else if i == 4 { Row4First(); Row4Second(); Row4Last(); m, n := 433, 463; }
    else if i == 5 { Row5First(); Row5Second(); Row5Last(); m, n := 533, 569; }
    else if i == 6 { Row6First(); Row6Second(); Row6Last(); m, n := 631, 667; }
    else if i == 7 { Row7First(); Row7Second(); Row7Last(); m, n := 733, 769; }
    else if i == 8 { Row8First(); Row8Second(); Row8Last(); m, n := 839, 871; }
    else if i == 9 { Row9First(); Row9Second(); Row9Last(); m, n := 941, 971; }
    else if i == 10 { Row10First(); Row10Second(); Row10Last(); m, n := 1033, 1069; }
    else if i == 11 { Row11First(); Row11Second(); Row11Last(); m, n := 1139, 1171; }
    else if i == 12 { Row12First(); Row12Second(); Row12Last(); m, n := 1241, 1277; }
    else if i == 13 { Row13First(); Row13Second(); Row13Last(); m, n := 1339, 1369; }
    else if i == 14 { Row14First(); Row14Second(); Row14Last(); m, n := 1439, 1471; }
    else if i == 15 { Row15First(); Row15Second(); Row15Last(); m, n := 1541, 1577; }
    else if i == 16 { Row16First(); Row16Second(); Row16Last(); m, n := 1643, 1679; }
    else if i == 17 { Row17First(); Row17Second(); Row17Last(); m, n := 1741, 1777; }
    else if i == 18 { Row18First(); Row18Second(); Row18Last(); m, n := 1847, 1877; }
    else if i == 19 { Row19First(); Row19Second(); Row19Last(); m, n := 1943, 1979; }
    else if i == 20 { Row20First(); Row20Second(); Row20Last(); m, n := 2047, 2081; }
    else if i == 21 { Row21First(); Row21Second(); Row21Last(); m, n := 2147, 2183; }
    else if i == 22 { Row22First(); Row22Second(); Row22Last(); m, n := 2251, 2281; }
  }

  lemma Starts()
    ensures ROWS == 23 && Start(0) == 5 && Start(1) == 89 && Start(2) == 193 && Start(3) == 293 && Start(4) == 397 && Start(5) == 499 && Start(6) == 601 && Start(7) == 701 && Start(8) == 809 && Start(9) == 901 && Start(10) == 1007 && Start(11) == 1097 && Start(12) == 1213 && Start(13) == 1303 && Start(14) == 1409 && Start(15) == 1501 && Start(16) == 1609 && Start(17) == 1709 && Start(18) == 1811 && Start(19) == 1913 && Start(20) == 2017 && Start(21) == 2117 && Start(22) == 2221 && Start(23) == 2323
  {
  }

  // ----- positions

  /** The number reached after `j` steps of a row from `s`. */
  function PosIn(r: Row, s: nat, j: nat): nat
    requires j <= ROW_SIZE
  {
    if j == 0 then s else PosIn(r, s, j - 1) + Entry(r, j - 1)
  }

  lemma Steps1(s: nat, p: nat, t: nat, r: Row)
    requires PosIn(r, s, 0) == p && Third(p, r.a, r.b, r.c, r.d, r.e, r.f, r.g, t)
    ensures forall j: nat :: 0 <= j < 7 ==> Skips(PosIn(r, s, j), Entry(r, j))
    ensures PosIn(r, s, 7) == t
  {
    hide Skips;
    assert PosIn(r, s, 1) == p + r.a;
    assert PosIn(r, s, 2) == p + r.a + r.b;
    assert PosIn(r, s, 3) == p + r.a + r.b + r.c;
    assert PosIn(r, s, 4) == p + r.a + r.b + r.c + r.d;
    assert PosIn(r, s, 5) == p + r.a + r.b + r.c + r.d + r.e;
    assert PosIn(r, s, 6) == p + r.a + r.b + r.c + r.d + r.e + r.f;
  }

  lemma Steps2(s: nat, p: nat, t: nat, r: Row)
    requires PosIn(r, s, 7) == p && Third(p, r.h, r.i, r.j, r.k, r.l, r.m, r.n, t)
    ensures forall j: nat :: 7 <= j < 14 ==> Skips(PosIn(r, s, j), Entry(r, j))
    ensures PosIn(r, s, 14) == t
  {
    hide Skips;
    assert PosIn(r, s, 8) == p + r.h;
    assert PosIn(r, s, 9) == p + r.h + r.i;
    assert PosIn(r, s, 10) == p + r.h + r.i + r.j;
    assert PosIn(r, s, 11) == p + r.h + r.i + r.j + r.k;
    assert PosIn(r, s, 12) == p + r.h + r.i + r.j + r.k + r.l;
    assert PosIn(r, s, 13) == p + r.h + r.i + r.j + r.k + r.l + r.m;
  }

  lemma Steps3(s: nat, p: nat, t: nat, r: Row)
    requires PosIn(r, s, 14) == p && Third(p, r.o, r.p, r.q, r.r, r.s, r.t, r.u, t)
    ensures forall j: nat :: 14 <= j < 21 ==> Skips(PosIn(r, s, j), Entry(r, j))
    ensures PosIn(r, s, 21) == t
  {
    hide Skips;
    assert PosIn(r, s, 15) == p + r.o;
    assert PosIn(r, s, 16) == p + r.o + r.p;
    assert PosIn(r, s, 17) == p + r.o + r.p + r.q;
    assert PosIn(r, s, 18) == p + r.o + r.p + r.q + r.r;
    assert PosIn(r, s, 19) == p + r.o + r.p + r.q + r.r + r.s;
    assert PosIn(r, s, 20) == p + r.o + r.p + r.q + r.r + r.s + r.t;
  }

  lemma SoundStep(s: nat, m: nat, n: nat, e: nat, r: Row, j: nat)
    requires Sound(s, m, n, e, r) && j < ROW_SIZE
    ensures Skips(PosIn(r, s, j), Entry(r, j)) && PosIn(r, s, ROW_SIZE) == e
  {
    hide Third, Skips, Entry;
    assert PosIn(r, s, 0) == s;
    Steps1(s, s, m, r);
    Steps2(s, m, n, r);
    Steps3(s, n, e, r);
    hide PosIn;
  }

  /** The number reached before increment `w` of the wheel, the first time around. */
  function Position(w: nat): nat
    requires 2 <= w <= WHEEL_SIZE
  {
    if w == WHEEL_SIZE then Start(ROWS) else PosIn(RowData((w - 2) / ROW_SIZE), Start((w - 2) / ROW_SIZE), (w - 2) % ROW_SIZE)
  }

  function Gap(w: nat): nat
    requires 2 <= w < WHEEL_SIZE
  {
    Entry(RowData((w - 2) / ROW_SIZE), (w - 2) % ROW_SIZE)
  }

  lemma WheelStep(w: nat)
    requires 2 <= w < WHEEL_SIZE
    ensures Skips(Position(w), Gap(w)) && Position(w + 1) == Position(w) + Gap(w)
  {
    hide *;
    RowSize();
    var i, j := (w - 2) / ROW_SIZE, (w - 2) % ROW_SIZE;
    NextStep(w, i, j);
    var m, n := RowSound(i);
    SoundStep(Start(i), m, n, Start(i + 1), RowData(i), j);
    PositionIs(w, i, j);
  }

  lemma RowSize()
    ensures ROW_SIZE == 21 && WHEEL_SIZE == 485 && ROWS == 23
  {
  }

  lemma PositionIs(w: nat, i: nat, j: nat)
    requires 2 <= w < WHEEL_SIZE && i == (w - 2) / ROW_SIZE && j == (w - 2) % ROW_SIZE && i < ROWS
    ensures j < ROW_SIZE && Position(w) == PosIn(RowData(i), Start(i), j) && Gap(w) == Entry(RowData(i), j)
    ensures PosIn(RowData(i), Start(i), ROW_SIZE) == Start(i + 1) ==>
              Position(w + 1) == PosIn(RowData(i), Start(i), j) + Entry(RowData(i), j)
  {
    hide *;
    RowSize();
    NextStep(w, i, j);
    PositionAt(w);
    GapAt(w);
    PositionAt(w + 1);
    PosNext(RowData(i), Start(i), j);
    PosFirst(RowData(if i + 1 < ROWS then i + 1 else 0), Start(i + 1));
  }

  lemma PositionAt(w: nat)
    requires 2 <= w <= WHEEL_SIZE
    ensures w == WHEEL_SIZE ==> Position(w) == Start(ROWS)
    ensures w < WHEEL_SIZE ==> (w - 2) / ROW_SIZE < ROWS && (w - 2) % ROW_SIZE < ROW_SIZE
    ensures w < WHEEL_SIZE ==>
              Position(w) == PosIn(RowData((w - 2) / ROW_SIZE), Start((w - 2) / ROW_SIZE), (w - 2) % ROW_SIZE)
  {
    hide RowData, Start, PosIn;
  }

  lemma GapAt(w: nat)
    requires 2 <= w < WHEEL_SIZE
    ensures (w - 2) / ROW_SIZE < ROWS && (w - 2) % ROW_SIZE < ROW_SIZE
    ensures Gap(w) == Entry(RowData((w - 2) / ROW_SIZE), (w - 2) % ROW_SIZE)
  {
    hide RowData, Entry;
  }

  lemma PosNext(r: Row, s: nat, j: nat)
    requires j < ROW_SIZE
    ensures PosIn(r, s, j + 1) == PosIn(r, s, j) + Entry(r, j)
  {
    hide Entry;
  }

  lemma PosFirst(r: Row, s: nat)
    ensures PosIn(r, s, 0) == s
  {
  }

  lemma NextStep(w: nat, i: nat, j: nat)
    requires 2 <= w < WHEEL_SIZE && i == (w - 2) / ROW_SIZE && j == (w - 2) % ROW_SIZE
    ensures i < ROWS
    ensures j + 1 < ROW_SIZE ==> (w - 1) / ROW_SIZE == i && (w - 1) % ROW_SIZE == j + 1
    ensures j + 1 == ROW_SIZE ==> (w - 1) / ROW_SIZE == i + 1 && (w - 1) % ROW_SIZE == 0
    ensures j + 1 == ROW_SIZE && i + 1 == ROWS <==> w + 1 == WHEEL_SIZE
  {
  }

  /** The wheel starts with 2, 3, 5, 7, 11, 13, and a full turn adds 2 * 3 * 5 * 7 * 11. */
  lemma WheelTurn()
    ensures Position(2) == 5 && Position(3) == 7 && Position(4) == 11 && Position(WHEEL_START) == 13
    ensures Position(WHEEL_SIZE) == 13 + 2310
  {
    var r := RowData(0);
    assert PosIn(r, 5, 1) == 7 && PosIn(r, 5, 2) == 11 && PosIn(r, 5, 3) == 13;
  }

  // ----- packing and unpacking

  /** What is packed from entry `j` on, three bits an entry: the macro P. */
  function Packed(r: Row, j: nat): nat
    requires j <= ROW_SIZE
    decreases ROW_SIZE - j
  {
    if j == ROW_SIZE then 0 else Entry(r, j) + 8 * Packed(r, j + 1)
  }

  ghost predicate EvenRow(r: Row) {
    forall j: nat :: j < ROW_SIZE ==> 0 < Entry(r, j) <= 14 && Entry(r, j) % 2 == 0
  }

  lemma {:induction false} PackedEven(r: Row, j: nat)
    requires EvenRow(r) && j <= ROW_SIZE
    ensures Packed(r, j) % 2 == 0
  {
    hide Entry;
  }

  lemma RowEven(i: nat)
    requires i < ROWS
    ensures EvenRow(RowData(i))
  {
    hide Entry, RowData, Start, PosIn, Sound;
    var m, n := RowSound(i);
    forall j: nat | j < ROW_SIZE ensures 0 < Entry(RowData(i), j) <= 14 && Entry(RowData(i), j) % 2 == 0 {
      SoundStep(Start(i), m, n, Start(i + 1), RowData(i), j);
    }
  }

  /** `v & 0xe` */
  function Field(v: nat): nat {
    2 * (v / 2 % 8)
  }

  lemma FieldOf(e: nat, rest: nat, junk: nat)
    requires e <= 14 && e % 2 == 0 && rest % 2 == 0 && junk < 2
    ensures var v := e + 8 * rest + junk; Field(v) == e && rest <= v / 8 < rest + 2
  {
    var k, h, v := rest / 2, e / 2, e + 8 * rest + junk;
    DivUnique(v, 2, 8 * k + h, junk);
    DivUnique(8 * k + h, 8, k, h);
    DivUnique(v, 8, if e < 8 then rest else rest + 1, if e < 8 then e + junk else e + junk - 8);
  }

  lemma PackedFrom(r: Row, j: nat)
    requires j <= ROW_SIZE
    ensures Packed(r, j) == if j == ROW_SIZE then 0 else Entry(r, j) + 8 * Packed(r, j + 1)
    ensures forall v :: 0 <= v < 2 ==> Field(v) == 0
  {
    hide Entry;
  }

  lemma EvenEntry(r: Row, j: nat)
    requires EvenRow(r) && j < ROW_SIZE
    ensures 0 < Entry(r, j) <= 14 && Entry(r, j) % 2 == 0
  {
    hide Entry;
  }

  /** A large entry leaves a bit behind when it is shifted out, which the mask ignores. */
  lemma UnpackStep(r: Row, j: nat, v: nat, junk: nat)
    requires EvenRow(r) && j <= ROW_SIZE && v == Packed(r, j) + junk && junk < 2
    ensures j == ROW_SIZE ==> Field(v) == 0
    ensures j < ROW_SIZE ==> Field(v) == Entry(r, j) > 0 && Packed(r, j + 1) <= v / 8 < Packed(r, j + 1) + 2
  {
    hide *;
    PackedFrom(r, j);
    if j < ROW_SIZE {
      EvenEntry(r, j);
      PackedEven(r, j + 1);
      FieldOf(Entry(r, j), Packed(r, j + 1), junk);
    }
  }

  /** wheel_tab after unpack_wheel */
  ghost predicate WheelTable(tab: seq<nat>) {
    |tab| == WHEEL_SIZE && tab[0] == 1 && tab[1] == 2 && forall w :: 2 <= w < WHEEL_SIZE ==> tab[w] == Gap(w)
  }

  /** unpack_wheel */
  method UnpackWheel() returns (tab: array<nat>)
    ensures fresh(tab) && WheelTable(tab[..])
  {
    hide Gap, Entry, RowData, Packed, Field, EvenRow;
    tab := new nat[WHEEL_SIZE];
    tab[0] := 1;
    tab[1] := 2;
    var p := 2;
    for i := 0 to ROWS
      invariant p == 2 + ROW_SIZE * i && tab[0] == 1 && tab[1] == 2
      invariant forall w :: 2 <= w < p ==> tab[w] == Gap(w)
    {
      var v := Packed(RowData(i), 0);
      RowEven(i);
      ghost var j := 0;
      UnpackStep(RowData(i), 0, v, 0);
      while Field(v) != 0
        invariant j <= ROW_SIZE && p == 2 + ROW_SIZE * i + j && tab[0] == 1 && tab[1] == 2
        invariant Packed(RowData(i), j) <= v < Packed(RowData(i), j) + 2
        invariant Field(v) != 0 <==> j < ROW_SIZE
        invariant forall w :: 2 <= w < p ==> tab[w] == Gap(w)
        decreases ROW_SIZE - j
      {
        UnpackStep(RowData(i), j, v, v - Packed(RowData(i), j));
        GapIs(p, i, j);
        tab[p] := Field(v);
        p := p + 1;
        v := v / 8;
        j := j + 1;
        UnpackStep(RowData(i), j, v, v - Packed(RowData(i), j));
      }
    }
  }

  lemma GapIs(w: nat, i: nat, j: nat)
    requires i < ROWS && j < ROW_SIZE && w == 2 + ROW_SIZE * i + j
    ensures 2 <= w < WHEEL_SIZE && Gap(w) == Entry(RowData(i), j)
  {
    assert (w - 2) / ROW_SIZE == i && (w - 2) % ROW_SIZE == j;
  }

  // ----- what the wheel skips

  predicate SmallFactor(n: nat) {
    n % 2 == 0 || OddFactor(n)
  }

  lemma SkipsMeans(a: nat, gap: nat, n: nat)
    requires Skips(a, gap) && a % 2 == 1 && a < n < a + gap
    ensures SmallFactor(n)
  {
    hide OddFactor;
    if n % 2 == 1 {
      assert n == a + 2 || n == a + 4 || n == a + 6 || n == a + 8 || n == a + 10 || n == a + 12;
    }
  }

  lemma ModShift(n: nat, m: nat, k: nat)
    requires m > 0
    ensures (n + m * k) % m == n % m
  {
    assert n + m * k == (n / m + k) * m + n % m;
    DivUnique(n + m * k, m, n / m + k, n % m);
  }

  lemma SmallFactorPeriod(n: nat, q: nat)
    ensures SmallFactor(n + 2310 * q) == SmallFactor(n)
  {
    ModShift(n, 2, 1155 * q);
    ModShift(n, 3, 770 * q);
    ModShift(n, 5, 462 * q);
    ModShift(n, 7, 330 * q);
    ModShift(n, 11, 210 * q);
  }

  /** The divisor `f` is at increment `w` of some turn of the wheel. */
  ghost predicate OnWheel(w: nat, f: nat) {
    w < WHEEL_SIZE
    && (w == 0 ==> f == 2) && (w == 1 ==> f == 3)
    && (w >= 2 ==> exists q: nat :: (w < WHEEL_START ==> q == 0) && f == Position(w) + 2310 * q && Position(w) % 2 == 1)
  }
}
