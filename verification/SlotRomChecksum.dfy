/** What the checksum of the slot ROM does: it turns the sum by one bit for every byte, and tells images
    apart that differ in a single byte. */
module SlotRomChecksum {
  import opened Machine
  import opened Arithmetic
  import opened Buffers
  import opened SlotRom
  import opened SlotRomPatch

  function Zeros(k: nat): (z: seq<byte>)
    ensures |z| == k
  {
    seq(k, _ => 0)
  }

  lemma {:induction false} CrcSnoc(s: seq<byte>, b: byte)
    ensures Crc(s + [b]) == RotateAdd(Crc(s), b)
  {
    assert (s + [b])[..|s|] == s;
  }

  // ---- Zero bytes turn the sum ----

  /** The value whose low n bits are `low` and whose bits above them are `high`. */
  lemma HalfLow(v: nat, p: nat)
    requires p >= 1
    ensures v / p == v / (2 * p) * 2 + v % (2 * p) / p
    ensures v % (2 * p) == v % (2 * p) / p * p + v % p && v % (2 * p) / p <= 1
  {
    var h, l := v / (2 * p), v % (2 * p);
    DivModOf(v, 2 * p);
    DivModOf(l, p);
    var t := l / p;
    if t >= 2 {
      MulAtLeast(t - 1, p);
      MulMinus(t, 1, p);
    }
    assert h * (2 * p) == h * 2 * p;
    MulMinus(h * 2 + t, t, p);
    DivModUnique(v, p, h * 2 + t, l % p);
  }

  lemma TurnOnce(high: nat, low: nat, p: nat, q: nat, t: nat)
    requires p * q == TWO31 && t <= 1 && low < p && high < q
    ensures var v := (t * p + low) * q + high;
      v < TWO32 && RotateAdd(v, 0) == low * (2 * q) + (high * 2 + t)
  {
    hide RotateAdd;
    Expand(t, p, low, q);
    BelowProduct(low, p, high, q);
    Regroup(low, q);
    var rest := low * q + high;
    assert low * (2 * q) == 2 * (low * q);
    TurnsTop(t, rest);
  }

  lemma TurnsTop(t: nat, rest: nat)
    requires t <= 1 && rest < TWO31
    ensures t * TWO31 + rest < TWO32 && RotateAdd(t * TWO31 + rest, 0) == 2 * rest + t
  {
  }

  lemma Expand(t: nat, p: nat, low: nat, q: nat)
    ensures (t * p + low) * q == t * (p * q) + low * q
  {
  }

  lemma BelowProduct(a: nat, p: nat, b: nat, q: nat)
    requires a < p && b < q
    ensures a * q + b < p * q
  {
    MulAtLeast(p - a, q);
    MulMinus(p, a, q);
  }

  lemma {:induction false} PowersMultiply(k: nat)
    requires k < 32
    ensures Pow2(31 - k) * Pow2(k) == TWO31 && Pow2(k + 1) == 2 * Pow2(k) && Pow2(32 - k) == 2 * Pow2(31 - k)
    decreases k
  {
    if k == 0 {
      Pow2Of32();
      assert Pow2(0) == 1 && Pow2(31) * 2 == Pow2(32);
    } else {
      PowersMultiply(k - 1);
      Regroup(Pow2(31 - k), Pow2(k - 1));
    }
  }

  lemma Regroup(a: nat, b: nat)
    ensures (2 * a) * b == a * (2 * b)
  {
  }

  /** v turned left by k bits: its low 32 - k bits move up, its high k bits come round to the low end. */
  function TurnedLeft(v: nat, k: nat): nat
    requires k <= 32
  {
    LowUp(v, Pow2(32 - k), Pow2(k))
  }

  /** The part of v below p moves up by the factor q, and the part from p on comes down. */
  function LowUp(v: nat, p: nat, q: nat): nat
    requires p >= 1
  {
    MulNat(v % p, q);
    v % p * q + v / p
  }

  lemma TurnNext(v: nat, k: nat)
    requires k < 32 && v < TWO32
    ensures TurnedLeft(v, k) < TWO32 && RotateAdd(TurnedLeft(v, k), 0) == TurnedLeft(v, k + 1)
  {
    hide RotateAdd, Pow2, LowUp;
    PowersMultiply(k);
    TurnParts(v, Pow2(31 - k), Pow2(k));
  }

  lemma TurnParts(v: nat, p: nat, q: nat)
    requires p >= 1 && p * q == TWO31 && v < TWO32
    ensures LowUp(v, 2 * p, q) < TWO32 && RotateAdd(LowUp(v, 2 * p, q), 0) == LowUp(v, p, 2 * q)
  {
    hide RotateAdd;
    HalfLow(v, p);
    HighSmall(v, p, q);
    DivModOf(v, p);
    TurnOnce(v / (2 * p), v % p, p, q, v % (2 * p) / p);
  }

  /** k zero bytes behind any data turn the sum left by k bits. */
  lemma {:induction false} ZerosTurn(s: seq<byte>, k: nat)
    requires k <= 32
    ensures Crc(s + Zeros(k)) == TurnedLeft(Crc(s), k)
    decreases k
  {
    hide Crc, RotateAdd, TurnedLeft;
    if k == 0 {
      TurnNone(Crc(s));
      assert s + Zeros(0) == s;
    } else {
      ZerosTurn(s, k - 1);
      assert s + Zeros(k) == s + Zeros(k - 1) + [0];
      CrcSnoc(s + Zeros(k - 1), 0);
      TurnNext(Crc(s), k - 1);
    }
  }

  lemma TurnNone(v: nat)
    requires v < TWO32
    ensures TurnedLeft(v, 0) == v == TurnedLeft(v, 32)
  {
    hide Pow2;
    Pow2Of32();
    PowZero();
  }

  lemma PowZero()
    ensures Pow2(0) == 1
  {
  }

  lemma HighSmall(v: nat, p: nat, q: nat)
    requires p >= 1 && v < TWO32 && p * q == TWO31
    ensures v / (2 * p) < q
  {
    var h := v / (2 * p);
    DivModOf(v, 2 * p);
    Regroup(p, q);
    assert q * (2 * p) == 2 * (p * q);
    if h >= q {
      MulMinus(h, q, 2 * p);
      MulNat(h - q, 2 * p);
    }
  }

  /** After 32 zero bytes the sum is what it was. */
  lemma ZerosKeep(s: seq<byte>)
    ensures Crc(s + Zeros(32)) == Crc(s)
  {
    hide Crc, TurnedLeft;
    ZerosTurn(s, 32);
    TurnNone(Crc(s));
  }

  /** A byte adds its value to the turned sum, in 32 bits; the sum of one byte is the byte. */
  lemma {:induction false} ByteAdds(s: seq<byte>, b: byte)
    ensures Crc(s + [b]) == (Crc(s + [0]) + b as int) % 0x1_0000_0000
    ensures Crc([]) == 0 && Crc([b]) == b as int
  {
    CrcSnoc(s, b);
    CrcSnoc(s, 0);
    CrcSnoc([], b);
    Adds(Crc(s), b);
    Adds(0, b);
    assert [] + [b] == [b];
  }

  lemma Adds(x: nat, b: byte)
    requires x < TWO32
    ensures RotateAdd(x, b) == (RotateAdd(x, 0) + b as int) % TWO32
    ensures RotateAdd(0, b) == b as int
  {
    Turned(x);
  }

  lemma Turned(x: nat)
    requires x < TWO32
    ensures (x * 2) % TWO32 + x / TWO31 == x % TWO31 * 2 + x / TWO31 < TWO32
  {
  }

  /** 0x80 followed by 25 zeros: the top bit has come round. */
  lemma TopBitComesRound()
    ensures Crc([0x80] + Zeros(25)) == 1
  {
    hide Crc, Pow2;
    ByteAdds([], 0x80);
    ZerosTurn([0x80], 25);
    assert Pow2(7) == 128 by { PowSeven(); }
  }

  lemma PowSeven()
    ensures Pow2(7) == 128
  {
    assert Pow2(3) == 8;
  }

  // ---- One byte makes a difference ----

  lemma TurnsApart(x: nat, y: nat, b: byte)
    requires x < TWO32 && y < TWO32 && x != y
    ensures RotateAdd(x, b) != RotateAdd(y, b)
  {
    Turned(x);
    Turned(y);
    var p, q := x % TWO31 * 2 + x / TWO31, y % TWO31 * 2 + y / TWO31;
    BitsBack(x);
    BitsBack(y);
    SumsApart(p, q, b as int);
  }

  /** The turned value tells what it was turned from. */
  lemma BitsBack(x: nat)
    requires x < TWO32
    ensures var p := x % TWO31 * 2 + x / TWO31; x == p % 2 * TWO31 + p / 2
  {
    var t := x / TWO31;
    assert t <= 1 && x == t * TWO31 + x % TWO31;
  }

  lemma SumsApart(p: nat, q: nat, b: nat)
    requires p < TWO32 && q < TWO32 && p != q && b < TWO32
    ensures (p + b) % TWO32 != (q + b) % TWO32
  {
  }

  lemma BytesApart(x: nat, b: byte, c: byte)
    requires x < TWO32 && b != c
    ensures RotateAdd(x, b) != RotateAdd(x, c)
  {
  }

  lemma {:induction false} OneByteCounts(a: seq<byte>, b: seq<byte>, i: nat)
    requires |a| == |b| && i < |a| && a[i] != b[i] && a[..i] == b[..i] && a[i + 1..] == b[i + 1..]
    ensures Crc(a) != Crc(b)
    decreases |a|
  {
    hide Crc, RotateAdd;
    var n := |a| - 1;
    assert a == a[..n] + [a[n]] && b == b[..n] + [b[n]];
    CrcSnoc(a[..n], a[n]);
    CrcSnoc(b[..n], b[n]);
    if i == n {
      BytesApart(Crc(a[..n]), a[n], b[n]);
    } else {
      assert a[..n][..i] == b[..n][..i];
      assert a[..n][i + 1..] == a[i + 1..][..n - i - 1] == b[..n][i + 1..];
      assert a[n] == a[i + 1..][n - i - 1] == b[n];
      OneByteCounts(a[..n], b[..n], i);
      TurnsApart(Crc(a[..n]), Crc(b[..n]), a[n]);
    }
  }

  /** Two images that differ in one byte outside the checksum field store different checksums. */
  lemma ImagesApart(rom: seq<byte>, i: nat, x: byte)
    requires |rom| >= 20 && i < |rom| && x != rom[i] && (i < |rom| - 12 || |rom| - 8 <= i)
    ensures LongAt(Checksummed(rom), |rom| - 12) != LongAt(Checksummed(rom[i := x]), |rom| - 12)
  {
    hide Crc, Overwrite, LongAt, LongBytes, Zeroed;
    var other := rom[i := x];
    LongReadsBack(Crc(Zeroed(rom)), Checksummed(rom), |rom| - 12);
    LongReadsBack(Crc(Zeroed(other)), Checksummed(other), |rom| - 12);
    ZeroedBeside(rom, i, x);
    SplitAt(Zeroed(rom), i, x);
    OneByteCounts(Zeroed(rom), Zeroed(other), i);
  }

  lemma ZeroedBeside(rom: seq<byte>, i: nat, x: byte)
    requires |rom| >= 20 && i < |rom| && (i < |rom| - 12 || |rom| - 8 <= i)
    ensures Zeroed(rom[i := x]) == Zeroed(rom)[i := x] && Zeroed(rom)[i] == rom[i]
  {
  }

  lemma SplitAt(a: seq<byte>, i: nat, x: byte)
    requires i < |a|
    ensures a[i := x][..i] == a[..i] && a[i := x][i + 1..] == a[i + 1..]
  {
  }

  /** What is stored is the sum of the image with four zero bytes in place of the field, twelve bytes in front
      of its end; no other byte changes. */
  lemma StoresSum(rom: seq<byte>)
    requires |rom| >= 20
    ensures var at, r := |rom| - 12, Checksummed(rom);
      && LongAt(r, at) == Crc(rom[..at] + [0, 0, 0, 0] + rom[at + 4..])
      && |r| == |rom| && r[..at] == rom[..at] && r[at + 4..] == rom[at + 4..]
  {
    hide Crc, LongAt, LongBytes, Overwrite, Zeroed;
    var at := |rom| - 12;
    ZerosInside(rom);
    var p, r := LongBytes(Crc(Zeroed(rom))), Checksummed(rom);
    OverwrittenPart(rom, at, p);
    assert r == Overwrite(rom, at, p) && |p| == 4;
    assert r[at..at + 4] == p;
    LongReadsBack(Crc(Zeroed(rom)), r, at);
  }

  lemma ZerosInside(rom: seq<byte>)
    requires |rom| >= 20
    ensures var at := |rom| - 12; Zeroed(rom) == rom[..at] + [0, 0, 0, 0] + rom[at + 4..]
  {
  }

  lemma OverwrittenPart(rom: seq<byte>, at: nat, p: seq<byte>)
    requires at + |p| <= |rom|
    ensures var r := Overwrite(rom, at, p); |r| == |rom| && r[at..at + |p|] == p && r[..at] == rom[..at] && r[at + |p|..] == rom[at + |p|..]
  {
  }
}
