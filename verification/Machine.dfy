/** Fixed-width integers and byte-order helpers shared by the models. */
module Machine {
  const TWO16 := 0x1_0000
  const TWO31 := 0x8000_0000
  const TWO32 := 0x1_0000_0000

  newtype byte = i: int | 0 <= i < 0x100
  type uint16 = i: int | 0 <= i < 0x1_0000
  type uint32 = i: int | 0 <= i < 0x1_0000_0000

  /** C's division and remainder, which truncate. */
  function Quot(a: int, b: int): int
    requires b > 0
  {
    if a >= 0 then a / b else -((-a) / b)
  }

  function Rem(a: int, b: int): int
    requires b > 0
  {
    a - Quot(a, b) * b
  }

  datatype Option<+T> = None | Some(value: T)

  /** High and low byte of a 16-bit value, as a big-endian store writes them. */
  function Hi(v: uint16): byte { (v / 0x100) as byte }
  function Lo(v: uint16): byte { (v % 0x100) as byte }
}

/** Byte buffers filled in place, and the value they hold afterwards. */
module Buffers {
  import opened Machine

  /** `buf` with the bytes from `at` on replaced by p. */
  function Overwrite(buf: seq<byte>, at: nat, p: seq<byte>): (r: seq<byte>)
    requires at + |p| <= |buf|
    ensures |r| == |buf| && r[at..at + |p|] == p
    ensures forall i :: 0 <= i < at || at + |p| <= i < |buf| ==> r[i] == buf[i]
    ensures p == [] ==> r == buf
  {
    buf[..at] + p + buf[at + |p|..]
  }

  lemma OverwriteTwice(buf: seq<byte>, at: nat, p: seq<byte>, q: seq<byte>)
    requires at + |p| + |q| <= |buf|
    ensures Overwrite(Overwrite(buf, at, p), at + |p|, q) == Overwrite(buf, at, p + q)
  {
  }

  lemma OverwriteFront(buf: seq<byte>, prefix: seq<byte>, body: seq<byte>)
    requires |prefix| + |body| <= |buf|
    ensures var r := Overwrite(Overwrite(buf, |prefix|, body), 0, prefix);
      r[..|prefix| + |body|] == prefix + body
  {
  }

  lemma SliceOfSlice(s: seq<byte>, at: nat, n: nat, skip: nat, k: nat)
    requires at + n <= |s| && skip + k <= n
    ensures s[at..at + n][skip..skip + k] == s[at + skip..at + skip + k]
  {
    var t, x := s[at..at + n], s[at + skip..at + skip + k];
    forall i | 0 <= i < k
      ensures t[skip..skip + k][i] == x[i]
    {
      assert t[skip + i] == s[at + (skip + i)];
    }
  }

  method StoreOne(outBuf: array<byte>, at: nat, x: byte)
    requires at < outBuf.Length
    modifies outBuf
    ensures outBuf[..] == Overwrite(old(outBuf[..]), at, [x])
  {
    outBuf[at] := x;
  }

  method StoreTwo(outBuf: array<byte>, at: nat, x: byte, y: byte)
    requires at + 2 <= outBuf.Length
    modifies outBuf
    ensures outBuf[..] == Overwrite(old(outBuf[..]), at, [x, y])
  {
    outBuf[at] := x;
    outBuf[at + 1] := y;
  }

  /** Copies k bytes of `row` into `outBuf`. */
  method CopyBytes(row: array<byte>, from: nat, outBuf: array<byte>, to: nat, k: nat)
    requires row != outBuf
    requires from + k <= row.Length && to + k <= outBuf.Length
    modifies outBuf
    ensures outBuf[..] == Overwrite(old(outBuf[..]), to, row[from..from + k])
  {
    var i := 0;
    while i < k
      invariant 0 <= i <= k
      invariant outBuf[..] == Overwrite(old(outBuf[..]), to, row[from..from + i])
    {
      outBuf[to + i] := row[from + i];
      i := i + 1;
    }
  }

  /** Copies a constant into `outBuf`. */
  method Put(outBuf: array<byte>, at: nat, p: seq<byte>)
    requires at + |p| <= outBuf.Length
    modifies outBuf
    ensures outBuf[..] == Overwrite(old(outBuf[..]), at, p)
  {
    forall i | 0 <= i < |p| {
      outBuf[at + i] := p[i];
    }
  }
}
