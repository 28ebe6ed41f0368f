/** Mac memory: 4 GB of bytes, big-endian accessors, addresses modulo 2^32. */
module MacMemory {
  import opened Machine

  type Memory = m: seq<byte> | |m| == TWO32 ghost witness seq(TWO32, _ => 0)

  function Wrap(a: int): (r: uint32)
    decreases if a < 0 then TWO32 - a else a
  {
    if a < 0 then Wrap(a + TWO32) else if a >= TWO32 then Wrap(a - TWO32) else a
  }

  lemma {:induction false} WrapIs(a: int)
    ensures Wrap(a) == a % TWO32
    decreases if a < 0 then TWO32 - a else a
  {
    if a < 0 {
      ModStep(a);
      WrapIs(a + TWO32);
    } else if a >= TWO32 {
      ModStep(a - TWO32);
      WrapIs(a - TWO32);
    }
  }

  lemma ModStep(a: int)
    ensures (a + TWO32) % TWO32 == a % TWO32
  {
  }

  lemma SameWrap(x: int, y: int, d: int)
    requires Wrap(x) == Wrap(y)
    ensures Wrap(x - y + d) == Wrap(d)
  {
    hide Wrap;
    WrapIs(x);
    WrapIs(y);
    WrapIs(d);
    WrapIs(x - y + d);
    var k := x / TWO32 - y / TWO32;
    assert x - y == k * TWO32;
    ModSteps(d, k);
  }

  lemma ModSteps(a: int, k: int)
    ensures (a + k * TWO32) % TWO32 == a % TWO32
  {
  }

  lemma WrapAdd(x: int, y: int)
    ensures Wrap(Wrap(x) + y) == Wrap(x + y)
  {
    hide Wrap;
    WrapIs(x);
    WrapIs(x + y);
    WrapIs(Wrap(x) + y);
  }

  function Read8(m: Memory, a: int): byte { m[Wrap(a)] }

  function Read16(m: Memory, a: int): nat {
    Read8(m, a) as int * 0x100 + Read8(m, a + 1) as int
  }

  function Read32(m: Memory, a: int): (r: uint32) {
    ((Read8(m, a) as int * 0x100 + Read8(m, a + 1) as int) * 0x100 + Read8(m, a + 2) as int) * 0x100 + Read8(m, a + 3) as int
  }

  function Byte(v: uint32, shift: int): byte
    requires shift in {1, 0x100, 0x1_0000, 0x100_0000}
  {
    (v / shift % 0x100) as byte
  }

  function Write16(m: Memory, a: int, v: uint16): (r: Memory) {
    m[Wrap(a) := Hi(v)][Wrap(a + 1) := Lo(v)]
  }

  function Write32(m: Memory, a: int, v: uint32): (r: Memory) {
    m[Wrap(a) := Byte(v, 0x100_0000)][Wrap(a + 1) := Byte(v, 0x1_0000)][Wrap(a + 2) := Byte(v, 0x100)][Wrap(a + 3) := Byte(v, 1)]
  }

  /** The four bytes at `a` avoid the n bytes at `b`, on the circle of addresses. */
  predicate Apart(a: int, b: int, n: nat) {
    Wrap(b - a) >= 4 && Wrap(a - b) >= n
  }

  lemma ApartMeans(a: int, b: int, n: nat, i: int, j: int)
    requires Apart(a, b, n) && 0 <= i < 4 && 0 <= j < n
    ensures Wrap(a + i) != Wrap(b + j)
  {
    hide Wrap;
    if Wrap(a + i) == Wrap(b + j) {
      SameWrap(b + j, a + i, i - j);
      SameWrap(a + i, b + j, j - i);
      assert b + j - (a + i) + (i - j) == b - a && a + i - (b + j) + (j - i) == a - b;
      WrapIs(i - j);
      WrapIs(j - i);
    }
  }

  lemma ApartInLine(a: int, b: int, n: nat)
    requires 0 <= a && a + 4 <= TWO32 && 0 <= b && 0 < n && b + n <= TWO32
    requires a + 4 <= b || b + n <= a
    ensures Apart(a, b, n)
  {
  }

  lemma Opposite(a: int)
    ensures Wrap(a) != 0 ==> Wrap(-a) == TWO32 - Wrap(a)
  {
    hide Wrap;
    WrapIs(a);
    WrapIs(-a);
  }

  lemma ApartWithin(a: int, b: int, n: nat, d: nat, k: nat)
    requires Apart(a, b, n) && 0 < k && d + k <= n
    ensures Apart(a, b + d, k)
  {
    hide Wrap;
    var x := Wrap(a - b);
    Opposite(a - b);
    assert -(a - b) == b - a;
    WrapAdd(a - b, 0 - (d as int));
    WrapIs(x - d);
    WrapAdd(b - a, d);
    WrapIs(TWO32 - x + d);
    assert a - b + (0 - (d as int)) == a - (b + d) && b - a + d == b + d - a;
  }

  /** The fields of a ten-byte record at `a`. */
  lemma ApartFields(a: int)
    ensures Apart(a + 2, a, 2) && Apart(a + 2, a + 6, 4) && Apart(a + 6, a, 2) && Apart(a + 6, a + 2, 4)
  {
    hide Wrap;
    WrapIs(2);
    WrapIs(-2);
    WrapIs(4);
    WrapIs(-4);
    WrapIs(6);
    WrapIs(-6);
    assert a + 2 - a == 2 && a - (a + 2) == -2 && a + 6 - (a + 2) == 4 && a + 2 - (a + 6) == -4;
    assert a + 6 - a == 6 && a - (a + 6) == -6;
  }

  lemma BytesOfWord(v: uint32)
    ensures ((Byte(v, 0x100_0000) as int * 0x100 + Byte(v, 0x1_0000) as int) * 0x100 + Byte(v, 0x100) as int) * 0x100
            + Byte(v, 1) as int == v
  {
  }

  lemma ReadBack(m: Memory, a: int, v: uint32)
    ensures Read32(Write32(m, a, v), a) == v
  {
    hide Byte, Wrap;
    BytesOfWord(v);
    WrapIs(a);
    WrapIs(a + 1);
    WrapIs(a + 2);
    WrapIs(a + 3);
  }

  lemma UnchangedByte(m: Memory, a: int, v: uint32, b: int, n: nat, j: nat)
    requires Apart(a, b, n) && j < n
    ensures Read8(Write32(m, a, v), b + j) == Read8(m, b + j)
  {
    hide Byte, Wrap, Apart;
    ApartMeans(a, b, n, 0, j);
    ApartMeans(a, b, n, 1, j);
    ApartMeans(a, b, n, 2, j);
    ApartMeans(a, b, n, 3, j);
  }

  lemma UnchangedWords(m: Memory, a: int, v: uint32, b: int, n: nat)
    requires Apart(a, b, n)
    ensures n >= 2 ==> Read16(Write32(m, a, v), b) == Read16(m, b)
    ensures n >= 4 ==> Read32(Write32(m, a, v), b) == Read32(m, b)
  {
    hide Write32, Read8, Apart;
    if n >= 2 {
      UnchangedByte(m, a, v, b, n, 0);
      UnchangedByte(m, a, v, b, n, 1);
    }
    if n >= 4 {
      UnchangedByte(m, a, v, b, n, 2);
      UnchangedByte(m, a, v, b, n, 3);
    }
  }
}
