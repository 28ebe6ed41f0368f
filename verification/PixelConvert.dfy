/** Conversion of packed pixels, directly and through tables: src/AmigaOS-4/video_convert.cpp. Words are
    big-endian and char is unsigned, as on the PowerPC. */
module PixelConvert {
  import opened Machine
  import opened Buffers
  import opened Arithmetic

  // ---- One byte of packed pixels ----

  datatype Depth = One | Two | Four

  function PerByte(d: Depth): (k: nat)
    ensures k >= 1
  {
    match d case One => 8 case Two => 4 case Four => 2
  }

  /** The pixels of a byte, the leftmost in the highest bits. */
  function Unpack(d: Depth, b: byte): (r: seq<byte>)
    ensures |r| == PerByte(d)
  {
    match d
    case One => [b / 128, b / 64 % 2, b / 32 % 2, b / 16 % 2, b / 8 % 2, b / 4 % 2, b / 2 % 2, b % 2]
    case Two => [b / 64, b / 16 % 4, b / 4 % 4, b % 4]
    case Four => [b / 16, b % 16]
  }

  function Unpacked(d: Depth, row: seq<byte>): (r: seq<byte>)
    ensures |r| == PerByte(d) * |row|
  {
    if row == [] then [] else Unpacked(d, row[..|row| - 1]) + Unpack(d, row[|row| - 1])
  }

  // ---- Masks and shifts ----

  /** (v & mask) >> shift, stored in a char. */
  function Masked(v: nat, mask: nat, shift: nat): byte { (And(v, mask) / Pow2(shift) % 0x100) as byte }

  /** A mask of w bits from bit k on and a shift by k take a field of v. */
  lemma MaskTakesField(v: nat, w: nat, k: nat, mask: nat)
    requires mask == (Pow2(w) - 1) * Pow2(k) && Pow2(w) <= 0x100
    ensures Masked(v, mask, k) as int == v / Pow2(k) % Pow2(w)
  {
    hide And, Pow2;
    var f := v / Pow2(k) % Pow2(w);
    AndField(v, w, k, mask);
    MulNat(f, Pow2(k));
    DivModUnique(f * Pow2(k), Pow2(k), f, 0);
  }

  lemma Powers()
    ensures Pow2(0) == 1 && Pow2(1) == 2 && Pow2(2) == 4 && Pow2(3) == 8 && Pow2(4) == 0x10 && Pow2(5) == 0x20
    ensures Pow2(6) == 0x40 && Pow2(7) == 0x80 && Pow2(8) == 0x100 && Pow2(9) == 0x200 && Pow2(10) == 0x400
    ensures Pow2(11) == 0x800 && Pow2(12) == 0x1000 && Pow2(13) == 0x2000 && Pow2(14) == 0x4000
  {
    assert Pow2(3) == 8 && Pow2(6) == 0x40 && Pow2(9) == 0x200 && Pow2(12) == 0x1000;
  }

  /** The masks and shifts of the direct loops, and of init_lookup_1bit_to_8bit_8pixels. */
  function MaskedByte(d: Depth, v: nat): (r: seq<byte>)
    ensures |r| == PerByte(d)
  {
    match d
    case One =>
      [Masked(v, 0x80, 7), Masked(v, 0x40, 6), Masked(v, 0x20, 5), Masked(v, 0x10, 4),
       Masked(v, 0x08, 3), Masked(v, 0x04, 2), Masked(v, 0x02, 1), Masked(v, 0x01, 0)]
    case Two => [Masked(v, 0xC0, 6), Masked(v, 0x30, 4), Masked(v, 0x0C, 2), Masked(v, 0x03, 0)]
    case Four => [Masked(v, 0xF0, 4), Masked(v, 0x0F, 0)]
  }

  /** The masks and shifts of init_lookup_2bit_to_8bit_8pixels, on the word itself. */
  function MaskedWord(n: nat): (r: seq<byte>)
    ensures |r| == 8
  {
    [Masked(n, 0xC000, 14), Masked(n, 0x3000, 12), Masked(n, 0x0C00, 10), Masked(n, 0x0300, 8),
     Masked(n, 0x00C0, 6), Masked(n, 0x0030, 4), Masked(n, 0x000C, 2), Masked(n, 0x0003, 0)]
  }

  lemma MaskedOne(b: byte)
    ensures MaskedByte(One, b as nat) == Unpack(One, b)
  {
    hide Masked, Pow2;
    Powers();
    var v := b as nat;
    MaskTakesField(v, 1, 7, 0x80);
    MaskTakesField(v, 1, 6, 0x40);
    MaskTakesField(v, 1, 5, 0x20);
    MaskTakesField(v, 1, 4, 0x10);
    MaskTakesField(v, 1, 3, 0x08);
    MaskTakesField(v, 1, 2, 0x04);
    MaskTakesField(v, 1, 1, 0x02);
    MaskTakesField(v, 1, 0, 0x01);
  }

  lemma MaskedTwo(b: byte)
    ensures MaskedByte(Two, b as nat) == Unpack(Two, b)
  {
    hide Masked, Pow2;
    Powers();
    var v := b as nat;
    MaskTakesField(v, 2, 6, 0xC0);
    MaskTakesField(v, 2, 4, 0x30);
    MaskTakesField(v, 2, 2, 0x0C);
    MaskTakesField(v, 2, 0, 0x03);
    TopField(v);
  }

  lemma MaskedFour(b: byte)
    ensures MaskedByte(Four, b as nat) == Unpack(Four, b)
  {
    hide Masked, Pow2;
    Powers();
    var v := b as nat;
    MaskTakesField(v, 4, 4, 0xF0);
    MaskTakesField(v, 4, 0, 0x0F);
  }

  /** The direct loops take the pixels of each byte. */
  lemma MaskedByteIs(d: Depth, b: byte)
    ensures MaskedByte(d, b as nat) == Unpack(d, b)
  {
    hide MaskedByte, Unpack;
    MaskedOne(b);
    MaskedTwo(b);
    MaskedFour(b);
  }

  /** Dividing twice is dividing by the product. */
  lemma DivDiv(a: nat, p: nat, q: nat, pq: nat)
    requires p >= 1 && q >= 1 && pq == p * q
    ensures a / p / q == a / pq
  {
    var x, r := a / p, a % p;
    var y, t := x / q, x % q;
    DivModOf(a, p);
    DivModOf(x, q);
    assert a == (y * q + t) * p + r == y * pq + (t * p + r);
    TimesBelow(t, p, q, r);
    DivModUnique(a, pq, y, t * p + r);
  }

  lemma TimesBelow(t: nat, p: nat, q: nat, r: nat)
    requires t < q && r < p
    ensures 0 <= t * p + r < p * q && p * q >= 1
  {
    assert p * q == t * p + (q - t) * p;
    MulAtLeast(q - t, p);
    MulNat(t, p);
  }

  lemma FourMore(x: nat, y: nat)
    ensures (4 * x + y) % 4 == y % 4
  {
    DivModOf(y, 4);
    DivModUnique(4 * x + y, 4, x + y / 4, y % 4);
  }

  lemma LowField6(h: nat, l: nat)
    ensures (0x100 * h + l) / 0x40 % 4 == l / 0x40 % 4
  {
    DivModOf(l, 0x40);
    DivModUnique(0x100 * h + l, 0x40, 4 * h + l / 0x40, l % 0x40);
    FourMore(h, l / 0x40);
  }

  lemma LowField4(h: nat, l: nat)
    ensures (0x100 * h + l) / 0x10 % 4 == l / 0x10 % 4
  {
    DivModOf(l, 0x10);
    DivModUnique(0x100 * h + l, 0x10, 0x10 * h + l / 0x10, l % 0x10);
    FourMore(4 * h, l / 0x10);
  }

  lemma LowField2(h: nat, l: nat)
    ensures (0x100 * h + l) / 4 % 4 == l / 4 % 4
  {
    DivModOf(l, 4);
    DivModUnique(0x100 * h + l, 4, 0x40 * h + l / 4, l % 4);
    FourMore(0x10 * h, l / 4);
  }

  /** Two-bit fields of a word are those of its two bytes. */
  lemma HighFields(n: nat)
    ensures n / 0x4000 == n / 0x100 / 0x40 && n / 0x1000 == n / 0x100 / 0x10 && n / 0x400 == n / 0x100 / 4
  {
    DivDiv(n, 0x100, 0x40, 0x4000);
    DivDiv(n, 0x100, 0x10, 0x1000);
    DivDiv(n, 0x100, 4, 0x400);
  }

  lemma LowFields(n: nat, h: nat, l: nat)
    requires n == 0x100 * h + l
    ensures n / 0x40 % 4 == l / 0x40 % 4 && n / 0x10 % 4 == l / 0x10 % 4 && n / 4 % 4 == l / 4 % 4 && n % 4 == l % 4
  {
    LowField6(h, l);
    LowField4(h, l);
    LowField2(h, l);
    FourMore(0x40 * h, l);
  }

  lemma TopField(b: nat)
    requires b < 0x100
    ensures b / 0x40 % 4 == b / 0x40
  {
  }

  /** The word masks take the pixels of the word's two bytes: the table loop agrees with the direct one. */
  lemma MaskedWordIs(n: nat)
    requires n < TWO16
    ensures MaskedWord(n) == WordEntry(Two, n)
  {
    hide Masked, Pow2;
    Powers();
    HighFields(n);
    DivModOf(n, 0x100);
    LowFields(n, n / 0x100, n % 0x100);
    TopField(n / 0x100);
    TopField(n % 0x100);
    MaskTakesField(n, 2, 14, 0xC000);
    MaskTakesField(n, 2, 12, 0x3000);
    MaskTakesField(n, 2, 10, 0x0C00);
    MaskTakesField(n, 2, 8, 0x0300);
    MaskTakesField(n, 2, 6, 0x00C0);
    MaskTakesField(n, 2, 4, 0x0030);
    MaskTakesField(n, 2, 2, 0x000C);
    MaskTakesField(n, 2, 0, 0x0003);
  }

  // ---- Rows ----

  lemma {:induction false} UnpackedNext(d: Depth, row: seq<byte>, n: nat)
    requires n < |row|
    ensures Unpacked(d, row[..n + 1]) == Unpacked(d, row[..n]) + Unpack(d, row[n])
  {
    assert row[..n + 1][..n] == row[..n];
  }

  lemma {:induction false} UnpackedTwo(d: Depth, row: seq<byte>, n: nat)
    requires n + 2 <= |row|
    ensures Unpacked(d, row[..n + 2]) == Unpacked(d, row[..n]) + (Unpack(d, row[n]) + Unpack(d, row[n + 1]))
  {
    hide Unpack, Unpacked;
    UnpackedNext(d, row, n);
    UnpackedNext(d, row, n + 1);
  }

  // ---- Stores of a group of pixels ----

  method StoreGroup(to: array<byte>, at: nat, p: seq<byte>)
    requires at + |p| <= to.Length
    modifies to
    ensures to[..] == Overwrite(old(to[..]), at, p)
  {
    Put(to, at, p);
  }

  lemma GroupJoins(b0: seq<byte>, b1: seq<byte>, b2: seq<byte>, done: seq<byte>, p: seq<byte>)
    requires |done| + |p| <= |b0| && b1 == Overwrite(b0, 0, done) && b2 == Overwrite(b1, |done|, p)
    ensures b2 == Overwrite(b0, 0, done + p)
  {
    OverwriteTwice(b0, 0, done, p);
  }

  // ---- Direct conversion ----

  /** The loop of the three conversions below. */
  method ConvertBytes(d: Depth, from: array<byte>, to: array<byte>, bytes: nat)
    requires from != to && bytes <= from.Length && bytes * PerByte(d) <= to.Length
    modifies to
    ensures to[..] == Overwrite(old(to[..]), 0, Unpacked(d, from[..bytes]))
  {
    hide Overwrite, Unpacked, Unpack, MaskedByte;
    ghost var b0 := to[..];
    StartsEmpty(d, from[..], b0);
    var n := 0;
    while n < bytes
      invariant 0 <= n <= bytes
      invariant to[..] == Overwrite(b0, 0, Unpacked(d, from[..n]))
    {
      ghost var b1 := to[..];
      RoomFor(n, bytes, PerByte(d));
      UnpackedNext(d, from[..], n);
      assert from[..][..n] == from[..n] && from[..][..n + 1] == from[..n + 1];
      MaskedByteIs(d, from[n]);
      StoreGroup(to, n * PerByte(d), MaskedByte(d, from[n] as nat));
      GroupJoins(b0, b1, to[..], Unpacked(d, from[..n]), Unpack(d, from[n]));
      n := n + 1;
    }
  }

  /** convert_1bit_to_8bit, convert_2bit_to_8bit and convert_4bit_to_8bit. */
  method ConvertDirect(d: Depth, from: array<byte>, to: array<byte>, pixels: nat)
    requires from != to && pixels / PerByte(d) <= from.Length && pixels / PerByte(d) * PerByte(d) <= to.Length
    modifies to
    ensures to[..] == Overwrite(old(to[..]), 0, Unpacked(d, from[..pixels / PerByte(d)]))
  {
    hide Overwrite, Unpacked;
    var bytes := pixels / PerByte(d);
    ConvertBytes(d, from, to, bytes);
  }

  lemma StartsEmpty(d: Depth, row: seq<byte>, b0: seq<byte>)
    ensures Unpacked(d, row[..0]) == [] && Overwrite(b0, 0, []) == b0
  {
  }

  lemma RoomFor(n: nat, units: nat, k: nat)
    requires n < units
    ensures n * k + k == (n + 1) * k <= units * k
  {
    assert units * k == (n + 1) * k + (units - n - 1) * k;
  }

  // ---- Tables ----

  /** What the table entry for a byte, or for a word of two bytes, must hold. */
  function ByteEntry(n: nat): (r: seq<byte>)
    requires n < 0x100
    ensures |r| == 8
  {
    Unpack(One, n as byte)
  }

  function WordEntry(d: Depth, n: nat): (r: seq<byte>)
    requires n < TWO16
    ensures |r| == 2 * PerByte(d)
  {
    Unpack(d, (n / 0x100) as byte) + Unpack(d, (n % 0x100) as byte)
  }

  /** The first `count` entries of a table of words are right. */
  ghost predicate WordTable(d: Depth, table: seq<byte>, count: nat) {
    && count <= TWO16 && |table| == 2 * PerByte(d) * TWO16
    && forall n :: 0 <= n < count ==> EntryOf(d, table, n) == WordEntry(d, n)
  }

  function EntryOf(d: Depth, table: seq<byte>, n: nat): seq<byte> {
    var k := 2 * PerByte(d);
    if k * n + k <= |table| then table[k * n..k * n + k] else []
  }

  ghost predicate ByteTable(table: seq<byte>, count: nat) {
    |table| == 8 * 0x100 && forall n :: 0 <= n < count && n < 0x100 ==> ByteEntryOf(table, n) == ByteEntry(n)
  }

  function ByteEntryOf(table: seq<byte>, n: nat): seq<byte> { if 8 * n + 8 <= |table| then table[8 * n..8 * n + 8] else [] }

  /** init_lookup_1bit_to_8bit_8pixels. */
  method InitLookup1() returns (table: array<byte>)
    ensures fresh(table) && ByteTable(table[..], 0x100)
  {
    hide Unpack, Overwrite, MaskedByte;
    table := new byte[8 * 0x100](_ => 0);
    var n := 0;
    while n < 0x100
      invariant 0 <= n <= 0x100 && ByteTable(table[..], n)
    {
      ghost var was := table[..];
      MaskedByteIs(One, n as byte);
      StoreGroup(table, 8 * n, MaskedByte(One, n));
      NextByteEntry(was, table[..], n);
      n := n + 1;
    }
  }

  lemma NextByteEntry(was: seq<byte>, now: seq<byte>, n: nat)
    requires n < 0x100 && ByteTable(was, n) && now == Overwrite(was, 8 * n, ByteEntry(n))
    ensures ByteTable(now, n + 1)
  {
    hide Unpack, Overwrite;
    forall m | 0 <= m <= n
      ensures ByteEntryOf(now, m) == ByteEntry(m)
    {
      if m < n {
        assert ByteEntryOf(was, m) == ByteEntry(m);
        assert now[8 * m..8 * m + 8] == was[8 * m..8 * m + 8];
      }
    }
  }

  lemma OtherEntry(d: Depth, was: seq<byte>, now: seq<byte>, n: nat, m: nat)
    requires m < n < TWO16 && 2 * PerByte(d) * n + 2 * PerByte(d) <= |was|
    requires now == Overwrite(was, 2 * PerByte(d) * n, WordEntry(d, n))
    ensures EntryOf(d, now, m) == EntryOf(d, was, m)
  {
    hide WordEntry, Overwrite;
    var k := 2 * PerByte(d);
    RoomFor(m, n, k);
    assert now[k * m..k * m + k] == was[k * m..k * m + k];
  }

  lemma NextWordEntry(d: Depth, was: seq<byte>, now: seq<byte>, n: nat)
    requires n < TWO16 && WordTable(d, was, n) && 2 * PerByte(d) * n + 2 * PerByte(d) <= |was|
    requires now == Overwrite(was, 2 * PerByte(d) * n, WordEntry(d, n))
    ensures WordTable(d, now, n + 1)
  {
    hide WordEntry, Overwrite, PerByte;
    forall m | 0 <= m <= n
      ensures EntryOf(d, now, m) == WordEntry(d, m)
    {
      if m < n {
        assert EntryOf(d, was, m) == WordEntry(d, m);
        OtherEntry(d, was, now, n, m);
      }
    }
  }

  /** init_lookup_2bit_to_8bit_8pixels and init_lookup_4bit_to_8bit_4pixels: the 16-bit counter runs
      until it is zero again. */
  method InitLookupWords(d: Depth) returns (table: array<byte>)
    requires d != One
    ensures fresh(table) && WordTable(d, table[..], TWO16)
  {
    hide WordEntry, Overwrite, EntryOf, Unpack;
    var k := 2 * PerByte(d);
    table := new byte[k * TWO16](_ => 0);
    var n := 0;
    ghost var rounds := 0;
    while true
      invariant 0 <= rounds < TWO16 && n == rounds && WordTable(d, table[..], rounds) && table.Length == k * TWO16
      decreases TWO16 - rounds
    {
      ghost var was := table[..];
      RoomFor(n, TWO16, k);
      StoreWord(table, d, k * n, n);
      NextWordEntry(d, was, table[..], n);
      n := (n + 1) % TWO16;
      rounds := rounds + 1;
      if n == 0 {
        break;
      }
    }
  }

  /** One round of the loops: for two bits the masks are on the word, for four on its bytes in memory. */
  method StoreWord(table: array<byte>, d: Depth, at: nat, n: nat)
    requires d != One && n < TWO16 && at + 2 * PerByte(d) <= table.Length
    modifies table
    ensures table[..] == Overwrite(old(table[..]), at, WordEntry(d, n))
  {
    hide Unpack, Overwrite, MaskedByte, MaskedWord;
    ghost var b0 := table[..];
    if d == Two {
      MaskedWordIs(n);
      StoreGroup(table, at, MaskedWord(n));
    } else {
      var high, low := (n / 0x100) as byte, (n % 0x100) as byte;
      MaskedByteIs(d, high);
      MaskedByteIs(d, low);
      StoreGroup(table, at, MaskedByte(d, high as nat));
      StoreGroup(table, at + PerByte(d), MaskedByte(d, low as nat));
      OverwriteTwice(b0, at, Unpack(d, high), Unpack(d, low));
    }
  }

  // ---- Conversion through tables ----

  /** convert_1bit_to_8bit_8pixels: eight bytes at a time. */
  method ConvertTable1(table: array<byte>, from: array<byte>, to: array<byte>, pixels: nat)
    requires ByteTable(table[..], 0x100) && from != to && table != to
    requires pixels / 8 <= from.Length && pixels / 8 * 8 <= to.Length
    modifies to
    ensures to[..] == Overwrite(old(to[..]), 0, Unpacked(One, from[..pixels / 8]))
  {
    hide Overwrite, Unpacked, Unpack;
    var units := pixels / 8;
    ghost var b0 := to[..];
    StartsEmpty(One, from[..], b0);
    var n := 0;
    while n < units
      invariant 0 <= n <= units
      invariant to[..] == Overwrite(b0, 0, Unpacked(One, from[..n]))
    {
      ghost var b1 := to[..];
      RoomFor(n, units, 8);
      UnpackedNext(One, from[..], n);
      assert from[..][..n] == from[..n] && from[..][..n + 1] == from[..n + 1];
      var at := 8 * (from[n] as int);
      assert ByteEntryOf(table[..], from[n] as int) == ByteEntry(from[n] as int);
      assert table[at..at + 8] == table[..][at..at + 8] == Unpack(One, from[n]);
      StoreGroup(to, n * 8, table[at..at + 8]);
      GroupJoins(b0, b1, to[..], Unpacked(One, from[..n]), Unpack(One, from[n]));
      n := n + 1;
    }
  }

  /** The n-th big-endian word of a row. */
  function WordAt(row: seq<byte>, n: nat): (w: nat)
    requires 2 * n + 2 <= |row|
    ensures w < TWO16
  {
    row[2 * n] as int * 0x100 + row[2 * n + 1] as int
  }

  lemma WordEntryAt(d: Depth, row: seq<byte>, n: nat)
    requires 2 * n + 2 <= |row|
    ensures WordEntry(d, WordAt(row, n)) == Unpack(d, row[2 * n]) + Unpack(d, row[2 * n + 1])
  {
    hide Unpack;
    var w := WordAt(row, n);
    assert w / 0x100 == row[2 * n] as int && w % 0x100 == row[2 * n + 1] as int;
  }

  lemma WordsFit(d: Depth, n: nat, units: nat, size: nat)
    requires n <= units && units * (2 * PerByte(d)) <= size
    ensures PerByte(d) * (2 * n) <= size
  {
    PixelsOfWords(d, n);
    assert units * (2 * PerByte(d)) == n * (2 * PerByte(d)) + (units - n) * (2 * PerByte(d));
  }

  lemma PixelsOfWords(d: Depth, n: nat)
    ensures n * (2 * PerByte(d)) == PerByte(d) * (2 * n)
  {
  }

  method Fetch(d: Depth, table: array<byte>, w: nat) returns (group: seq<byte>)
    requires WordTable(d, table[..], TWO16) && w < TWO16
    ensures group == WordEntry(d, w)
  {
    hide Unpack, WordEntry;
    var k := 2 * PerByte(d);
    RoomFor(w, TWO16, k);
    group := table[k * w..k * w + k];
    assert EntryOf(d, table[..], w) == WordEntry(d, w);
    assert group == table[..][k * w..k * w + k];
  }

  /** One word of the row. */
  method ConvertWord(d: Depth, table: array<byte>, from: array<byte>, to: array<byte>, n: nat, ghost b0: seq<byte>)
    requires WordTable(d, table[..], TWO16) && from != to && table != to
    requires 2 * n + 2 <= from.Length && n * (2 * PerByte(d)) + 2 * PerByte(d) <= to.Length
    requires PerByte(d) * (2 * n) <= |b0| && to[..] == Overwrite(b0, 0, Unpacked(d, from[..2 * n]))
    modifies to
    ensures table[..] == old(table[..]) && from[..] == old(from[..])
    ensures PerByte(d) * (2 * n + 2) <= |b0| && to[..] == Overwrite(b0, 0, Unpacked(d, from[..2 * n + 2]))
  {
    hide Overwrite, Unpacked, Unpack, WordEntry, WordTable, PerByte;
    ghost var b1 := to[..];
    PixelsOfWords(d, n);
    PixelsOfWords(d, n + 1);
    var w := WordAt(from[..], n);
    WordEntryAt(d, from[..], n);
    UnpackedTwo(d, from[..], 2 * n);
    assert from[..][..2 * n] == from[..2 * n] && from[..][..2 * n + 2] == from[..2 * n + 2];
    var group := Fetch(d, table, w);
    StoreGroup(to, n * (2 * PerByte(d)), group);
    GroupJoins(b0, b1, to[..], Unpacked(d, from[..2 * n]), group);
  }

  /** The loop of the two conversions below. */
  method ConvertWords(d: Depth, table: array<byte>, from: array<byte>, to: array<byte>, units: nat)
    requires WordTable(d, table[..], TWO16) && from != to && table != to
    requires 2 * units <= from.Length && units * (2 * PerByte(d)) <= to.Length
    modifies to
    ensures to[..] == Overwrite(old(to[..]), 0, Unpacked(d, from[..2 * units]))
  {
    hide Overwrite, Unpacked, Unpack, WordEntry, WordTable, PerByte;
    ghost var b0, t0 := to[..], table[..];
    StartsEmpty(d, from[..], b0);
    var n := 0;
    WordsFit(d, 0, units, |b0|);
    assert from[..0] == from[..][..0];
    while n < units
      invariant 0 <= n <= units && table[..] == t0 && PerByte(d) * (2 * n) <= |b0|
      invariant to[..] == Overwrite(b0, 0, Unpacked(d, from[..2 * n]))
    {
      RoomFor(n, units, 2 * PerByte(d));
      ConvertWord(d, table, from, to, n, b0);
      assert 2 * (n + 1) == 2 * n + 2;
      n := n + 1;
      WordsFit(d, n, units, |b0|);
    }
  }

  /** convert_2bit_to_8bit_8pixels and convert_4bit_to_8bit_4pixels: a word at a time. */
  method ConvertTableWords(d: Depth, table: array<byte>, from: array<byte>, to: array<byte>, pixels: nat)
    requires d != One && WordTable(d, table[..], TWO16) && from != to && table != to
    requires var units := pixels / (2 * PerByte(d)); 2 * units <= from.Length && units * (2 * PerByte(d)) <= to.Length
    modifies to
    ensures to[..] == Overwrite(old(to[..]), 0, Unpacked(d, from[..2 * (pixels / (2 * PerByte(d)))]))
  {
    hide Overwrite, Unpacked, WordTable;
    var units := pixels / (2 * PerByte(d));
    ConvertWords(d, table, from, to, units);
  }

  // ---- The two conversions agree ----

  /** Bytes of the row that each conversion takes. */
  function DirectBytes(d: Depth, pixels: nat): nat { pixels / PerByte(d) }

  function TableBytes(d: Depth, pixels: nat): nat {
    if d == One then pixels / 8 else 2 * (pixels / (2 * PerByte(d)))
  }

  ghost predicate Agree(d: Depth, pixels: nat) {
    forall row, out | DirectBytes(d, pixels) <= |row| && pixels <= |out| :: SameRow(d, pixels, row, out)
  }

  predicate SameRow(d: Depth, pixels: nat, row: seq<byte>, out: seq<byte>) {
    && Bounds(d, pixels)
    && (DirectBytes(d, pixels) <= |row| && pixels <= |out| ==>
          Overwrite(out, 0, Unpacked(d, row[..DirectBytes(d, pixels)]))
          == Overwrite(out, 0, Unpacked(d, row[..TableBytes(d, pixels)])))
  }

  predicate Bounds(d: Depth, pixels: nat) {
    && TableBytes(d, pixels) <= DirectBytes(d, pixels)
    && PerByte(d) * DirectBytes(d, pixels) <= pixels && PerByte(d) * TableBytes(d, pixels) <= pixels
  }

  lemma BoundsHold(d: Depth, pixels: nat)
    ensures Bounds(d, pixels)
    ensures DirectBytes(d, pixels) == TableBytes(d, pixels) <==> d == One || pixels % (2 * PerByte(d)) < PerByte(d)
    ensures DirectBytes(d, pixels) <= TableBytes(d, pixels) + 1
  {
  }

  /** The table conversion gives the bytes of the direct one, for every row and every output, exactly
      when fewer pixels are left over from the last whole word than a byte holds. */
  lemma TableAgreesExactly(d: Depth, pixels: nat)
    ensures Agree(d, pixels) <==> d == One || pixels % (2 * PerByte(d)) < PerByte(d)
  {
    hide Overwrite, Unpacked, Unpack;
    BoundsHold(d, pixels);
    var n, m := DirectBytes(d, pixels), TableBytes(d, pixels);
    if n != m {
      var row := seq(n, _ => 0xff as byte);
      var out := seq(pixels, _ => 0 as byte);
      LastByteShows(d, row, out, m);
      assert !SameRow(d, pixels, row, out);
    }
  }

  lemma LastByteShows(d: Depth, row: seq<byte>, out: seq<byte>, m: nat)
    requires |row| == m + 1 && PerByte(d) * |row| <= |out|
    requires (forall i :: 0 <= i < |row| ==> row[i] == 0xff) && (forall i :: 0 <= i < |out| ==> out[i] == 0)
    ensures Overwrite(out, 0, Unpacked(d, row[..m + 1])) != Overwrite(out, 0, Unpacked(d, row[..m]))
  {
    hide Unpacked;
    var at := PerByte(d) * m;
    UnpackedNext(d, row, m);
    assert Unpack(d, 0xff)[0] != 0;
    assert Overwrite(out, 0, Unpacked(d, row[..m + 1]))[at] == Unpack(d, 0xff)[0];
    assert Overwrite(out, 0, Unpacked(d, row[..m]))[at] == 0;
  }

  // ---- 15 to 16 bits ----

  /** Red, green and blue of a 15-bit pixel. */
  function Red(p: nat): nat { p / 0x400 % 0x20 }
  function Green(p: nat): nat { p / 0x20 % 0x20 }
  function Blue(p: nat): nat { p % 0x20 }

  /** A 16-bit pixel made of five, six and five bits. */
  function Rgb565(r: nat, g: nat, b: nat): nat { r * 0x800 + g * 0x20 + b }

  /** The pixel in 5-6-5 bits: red, twice green, and blue. */
  function Colours(p: nat): nat { Rgb565(Red(p), 2 * Green(p), Blue(p)) }

  function SwapBytes(v: nat): nat { v / 0x100 % 0x100 + v % 0x100 * 0x100 }

  /** ((rgb & mask) << 1) | (rgb & 0x1F), with the mask 0x7FE0 or, in the big-endian direct loop, 0x7FC0. */
  function MaskedColours(p: nat, mask: nat): nat { Or(And(p, mask) * 2, And(p, 0x1F)) }

  /** ((rgb & 0xFF00) >> 8) | ((rgb & 0xFF) << 8), stored in 16 bits. */
  function MaskedSwap(v: nat): nat { Or(And(v, 0xFF) * 0x100, And(v, 0xFF00) / 0x100) % TWO16 }

  lemma ColourFields(p: nat)
    ensures p / 0x20 % 0x400 == Red(p) * 0x20 + Green(p) && Red(p) < 0x20 && Green(p) < 0x20 && Blue(p) < 0x20
    ensures p / 0x40 % 0x200 == Red(p) * 0x10 + Green(p) / 2
  {
    var q := p / 0x20;
    DivDiv(p, 0x20, 0x20, 0x400);
    DivDiv(p, 0x20, 2, 0x40);
    TenBits(q);
  }

  lemma TenBits(q: nat)
    ensures q % 0x400 == q / 0x20 % 0x20 * 0x20 + q % 0x20
    ensures q / 2 % 0x200 == q / 0x20 % 0x20 * 0x10 + q % 0x20 / 2
  {
    var x, g := q / 0x20, q % 0x20;
    var h, r := x / 0x20, x % 0x20;
    assert q == (h * 0x20 + r) * 0x20 + g == h * 0x400 + (r * 0x20 + g);
    DivModUnique(q, 0x400, h, r * 0x20 + g);
    assert q / 2 == h * 0x200 + (r * 0x10 + g / 2);
    DivModUnique(q / 2, 0x200, h, r * 0x10 + g / 2);
  }

  lemma BlueField(p: nat)
    ensures And(p, 0x1F) == Blue(p)
  {
    hide And, Pow2;
    Powers();
    AndField(p, 5, 0, 0x1F);
  }

  /** The masks carry red, twice green, and blue. */
  lemma CarriesColours(p: nat)
    ensures MaskedColours(p, 0x7FE0) == Colours(p) < TWO16
  {
    hide And, Or, Pow2, Red, Green, Blue;
    Powers();
    ColourFields(p);
    BlueField(p);
    AndField(p, 10, 5, 0x7FE0);
    var f := p / 0x20 % 0x400;
    OrJoins(f, 6, And(p, 0x7FE0) * 2, Blue(p));
  }

  /** The big-endian direct loop drops the lowest bit of green: it agrees with its table exactly when that
      bit is clear. */
  lemma BigEndianDiffers(p: nat)
    ensures MaskedColours(p, 0x7FC0) == MaskedColours(p, 0x7FE0) <==> Green(p) % 2 == 0
  {
    hide And, Or, Pow2, Red, Green, Blue;
    Powers();
    CarriesColours(p);
    ColourFields(p);
    BlueField(p);
    AndField(p, 9, 6, 0x7FC0);
    var f := p / 0x40 % 0x200;
    OrJoins(f, 7, And(p, 0x7FC0) * 2, Blue(p));
  }

  lemma SwapIs(v: nat)
    requires v < TWO16
    ensures MaskedSwap(v) == SwapBytes(v) < TWO16
  {
    hide And, Or, Pow2;
    Powers();
    AndField(v, 8, 0, 0xFF);
    AndField(v, 8, 8, 0xFF00);
    var h, l := v / 0x100, v % 0x100;
    assert And(v, 0xFF00) == h * 0x100 && h < 0x100;
    assert h * 0x100 / 0x100 == h;
    OrJoins(l, 8, And(v, 0xFF) * 0x100, h);
  }

  lemma SwappedTwice(v: nat)
    requires v < TWO16
    ensures SwapBytes(SwapBytes(v)) == v
  {
    var h, l := v / 0x100, v % 0x100;
    assert SwapBytes(v) == l * 0x100 + h && h < 0x100;
    assert (l * 0x100 + h) / 0x100 == l && (l * 0x100 + h) % 0x100 == h;
  }

  /** The one 16-bit value whose bytes, read in the opposite order, are the pixel's colours. */
  predicate ReadsAs(v: nat, p: nat) { v < TWO16 && SwapBytes(v) == Colours(p) }

  /** What the masks and shifts of the little-endian loops give is that value. */
  lemma LittleEndianReads(p: nat, v: nat)
    ensures ReadsAs(v, p) <==> v == MaskedSwap(MaskedColours(p, 0x7FE0))
  {
    hide MaskedSwap, MaskedColours, SwapBytes, Colours;
    CarriesColours(p);
    SwapIs(Colours(p));
    SwappedTwice(Colours(p));
    if v < TWO16 {
      SwappedTwice(v);
    }
  }

  /** The pixel computation of the little-endian loops. */
  method LittleEndianPixel(p: nat) returns (r: nat)
    ensures ReadsAs(r, p)
  {
    hide And, Or, ReadsAs;
    var rg := And(p, 0x7FE0) * 2;
    var b := And(p, 0x1F);
    var rgb := Or(rg, b);
    r := Or(And(rgb, 0xFF) * 0x100, And(rgb, 0xFF00) / 0x100) % TWO16;
    LittleEndianReads(p, r);
  }

  const TABLE_SIZE := 65535

  /** init_lookup_15bit_to_16bit_le. */
  method InitLookup15Le() returns (table: array<nat>)
    ensures fresh(table) && table.Length == 65535
    ensures forall n :: 0 <= n < 65535 ==> ReadsAs(table[n], n)
  {
    hide ReadsAs;
    table := new nat[TABLE_SIZE](_ => 0);
    var n := 0;
    while n < TABLE_SIZE
      invariant 0 <= n <= TABLE_SIZE
      invariant forall m :: 0 <= m < n ==> ReadsAs(table[m], m)
    {
      table[n] := LittleEndianPixel(n);
      n := n + 1;
    }
  }

  /** convert_15bit_to_16bit_le. */
  method Convert15Le(from: array<nat>, to: array<nat>, pixels: nat)
    requires from != to && pixels <= from.Length && pixels <= to.Length
    modifies to
    ensures forall n :: 0 <= n < pixels ==> ReadsAs(to[n], from[n])
    ensures forall n :: pixels <= n < to.Length ==> to[n] == old(to[n])
  {
    hide ReadsAs;
    var n := 0;
    while n < pixels
      invariant 0 <= n <= pixels
      invariant forall m :: 0 <= m < n ==> ReadsAs(to[m], from[m])
      invariant forall m :: n <= m < to.Length ==> to[m] == old(to[m])
    {
      to[n] := LittleEndianPixel(from[n]);
      n := n + 1;
    }
  }

  /** convert_16bit_lookup_to_16bit with that table. The table has no entry for 0xffff: the first such pixel
      is read from behind it, and nothing is known of the pixels from there on. */
  method ConvertTable15Le(table: array<nat>, from: array<nat>, to: array<nat>, pixels: nat) returns (done: nat)
    requires from != to && table != to && pixels <= from.Length && pixels <= to.Length
    requires table.Length == 65535 && forall n :: 0 <= n < 65535 ==> ReadsAs(table[n], n)
    modifies to
    ensures done <= pixels && (forall n :: 0 <= n < done ==> from[n] < 65535)
    ensures done < pixels ==> from[done] >= 65535
    ensures forall n :: 0 <= n < done ==> ReadsAs(to[n], from[n])
    ensures forall n :: done <= n < to.Length ==> to[n] == old(to[n])
  {
    hide ReadsAs;
    done := 0;
    while done < pixels && from[done] < TABLE_SIZE
      invariant 0 <= done <= pixels
      invariant forall n :: 0 <= n < done ==> from[n] < TABLE_SIZE && ReadsAs(to[n], from[n])
      invariant forall n :: done <= n < to.Length ==> to[n] == old(to[n])
    {
      to[done] := table[from[done]];
      done := done + 1;
    }
  }
}
