/** What the interpreter of src/scsi.cpp does with the bytes of a transfer instruction block, word by word. */
module TibBytes {
  import opened Machine
  import opened MacMemory
  import opened Tib

  /** The bytes b stand in memory from p on, around the end of the address space. */
  predicate BytesAt(m: Memory, p: int, b: seq<byte>) {
    forall i :: 0 <= i < |b| ==> m[(p + i) % 0x1_0000_0000] == b[i]
  }

  /** A big-endian longword among bytes. */
  function Long(b: seq<byte>, i: nat): (v: uint32)
    requires i + 4 <= |b|
  {
    b[i] as int * 0x100_0000 + b[i + 1] as int * 0x1_0000 + b[i + 2] as int * 0x100 + b[i + 3] as int
  }

  lemma ByteRead(m: Memory, p: int, b: seq<byte>, i: nat)
    requires BytesAt(m, p, b) && i < |b|
    ensures Read8(m, p + i) == b[i]
  {
    hide Wrap;
    WrapIs(p + i);
  }

  lemma LongRead(m: Memory, p: int, b: seq<byte>, i: nat)
    requires BytesAt(m, p, b) && i + 4 <= |b|
    ensures Read32(m, p + i) == Long(b, i)
  {
    hide Read8, BytesAt;
    ByteRead(m, p, b, i);
    ByteRead(m, p, b, i + 1);
    ByteRead(m, p, b, i + 2);
    ByteRead(m, p, b, i + 3);
    assert p + i + 1 == p + (i + 1) && p + i + 2 == p + (i + 2) && p + i + 3 == p + (i + 3);
  }

  /** Opcode word and the two operands. */
  lemma FieldsRead(m: Memory, p: int, b: seq<byte>)
    requires |b| == 10 && BytesAt(m, p, b)
    ensures Opcode(m, p) == b[0] as int * 0x100 + b[1] as int
    ensures PtrField(m, p) == Long(b, 2) && LenField(m, p) == Long(b, 6)
  {
    hide Read8, Read32, Long, BytesAt;
    ByteRead(m, p, b, 0);
    ByteRead(m, p, b, 1);
    assert p + 0 == p;
    LongRead(m, p, b, 2);
    LongRead(m, p, b, 6);
  }

  /** Memory n differs from m at most in the four bytes at p, which hold v. */
  predicate LongStored(m: Memory, n: Memory, p: int, v: nat) {
    && n[p % 0x1_0000_0000] as int == v / 0x100_0000 % 0x100 && n[(p + 1) % 0x1_0000_0000] as int == v / 0x1_0000 % 0x100
    && n[(p + 2) % 0x1_0000_0000] as int == v / 0x100 % 0x100 && n[(p + 3) % 0x1_0000_0000] as int == v % 0x100
    && (forall a: uint32 :: (a - p) % 0x1_0000_0000 >= 4 ==> n[a] == m[a])
  }

  lemma StoresLong(m: Memory, p: int, v: uint32)
    ensures LongStored(m, Write32(m, p, v), p, v)
  {
    hide Wrap;
    WrapIs(p);
    WrapIs(p + 1);
    WrapIs(p + 2);
    WrapIs(p + 3);
    var n := Write32(m, p, v);
    forall a: uint32 | (a - p) % TWO32 >= 4
      ensures n[a] == m[a]
    {
      Different(a, p, 0);
      Different(a, p, 1);
      Different(a, p, 2);
      Different(a, p, 3);
    }
  }

  lemma Different(a: uint32, p: int, i: nat)
    requires (a - p) % TWO32 >= 4 && i < 4
    ensures (p + i) % TWO32 != a
  {
  }

  /** The words 1 and 2: the segment goes to the table, or the call ends with -108 because 1024 entries are
      there and the last does not end where the segment starts. The word 1 leaves the end of the segment in
      the pointer field. */
  lemma MovesBytes(s: State, b: seq<byte>)
    requires |b| == 10 && BytesAt(s.mem, s.pc, b) && b[0] == 0 && (b[1] == 1 || b[1] == 2)
    ensures var ptr, len, n := Long(b, 2), Long(b, 6), |s.table|;
      var joins := n > 0 && (s.table[n - 1].ptr + s.table[n - 1].len) % 0x1_0000_0000 == ptr;
      && (Step(s).Done? <==> n == 1024 && !joins)
      && (Step(s).Done? ==> Step(s).result == -108 && Step(s).s.table == s.table && Step(s).s.total == s.total)
      && (Step(s).Continue? ==>
            && Step(s).s.pc == (s.pc + 10) % 0x1_0000_0000 && Step(s).s.total == (s.total + len) % 0x1_0000_0000
            && Step(s).s.table == if joins
               then s.table[n - 1 := Seg(s.table[n - 1].ptr, (s.table[n - 1].len + len) % 0x1_0000_0000)]
               else s.table + [Seg(ptr, len)])
      && (b[1] == 1 ==> LongStored(s.mem, Step(s).s.mem, s.pc + 2, (ptr + len) % 0x1_0000_0000))
      && (b[1] == 2 ==> Step(s).s.mem == s.mem)
  {
    hide Wrap, Write32, Read32, Read16, Long, LongStored, BytesAt, Opcode, PtrField, LenField;
    FieldsRead(s.mem, s.pc, b);
    var ptr: int, len: int := Long(b, 2), Long(b, 6);
    WrapIs(s.pc + 10);
    WrapIs(s.total + len);
    WrapIs(ptr + len);
    StoresLong(s.mem, s.pc + 2, Wrap(ptr + len));
    if |s.table| > 0 {
      var last := s.table[|s.table| - 1];
      WrapIs(last.ptr + last.len);
      WrapIs(last.len + len);
    }
  }

  /** The word 3 adds the second operand to the longword at the first. */
  lemma AddsBytes(s: State, b: seq<byte>, x: seq<byte>)
    requires |b| == 10 && BytesAt(s.mem, s.pc, b) && b[0] == 0 && b[1] == 3
    requires |x| == 4 && BytesAt(s.mem, Long(b, 2), x)
    ensures Step(s) == Continue(s.(pc := (s.pc + 10) % 0x1_0000_0000, mem := Step(s).s.mem))
    ensures LongStored(s.mem, Step(s).s.mem, Long(b, 2), (Long(x, 0) + Long(b, 6)) % 0x1_0000_0000)
  {
    hide Wrap, Write32, Read32, Read16, Long, LongStored, BytesAt, Opcode, PtrField, LenField;
    FieldsRead(s.mem, s.pc, b);
    var ptr: int, len: int := Long(b, 2), Long(b, 6);
    LongRead(s.mem, ptr, x, 0);
    assert ptr + 0 == ptr;
    WrapIs(s.pc + 10);
    WrapIs(Long(x, 0) + len);
    StoresLong(s.mem, ptr, Wrap(Long(x, 0) + len));
  }

  /** The word 4 copies the longword at the first operand to the second. */
  lemma CopiesBytes(s: State, b: seq<byte>, x: seq<byte>)
    requires |b| == 10 && BytesAt(s.mem, s.pc, b) && b[0] == 0 && b[1] == 4
    requires |x| == 4 && BytesAt(s.mem, Long(b, 2), x)
    ensures Step(s) == Continue(s.(pc := (s.pc + 10) % 0x1_0000_0000, mem := Step(s).s.mem))
    ensures LongStored(s.mem, Step(s).s.mem, Long(b, 6), Long(x, 0))
  {
    hide Wrap, Write32, Read32, Read16, Long, LongStored, BytesAt, Opcode, PtrField, LenField;
    FieldsRead(s.mem, s.pc, b);
    var ptr: int := Long(b, 2);
    LongRead(s.mem, ptr, x, 0);
    assert ptr + 0 == ptr;
    WrapIs(s.pc + 10);
    StoresLong(s.mem, Long(b, 6), Long(x, 0));
  }

  /** The word 5 counts the second operand down in 32 bits; while it is not 0 the program goes on at the
      first operand, counted from the word itself, and otherwise behind it. */
  lemma LoopsBytes(s: State, b: seq<byte>)
    requires |b| == 10 && BytesAt(s.mem, s.pc, b) && b[0] == 0 && b[1] == 5
    ensures var left := (Long(b, 6) - 1) % 0x1_0000_0000;
      && Step(s) == Continue(s.(mem := Step(s).s.mem,
           pc := (s.pc + if left == 0 then 10 else Long(b, 2)) % 0x1_0000_0000))
      && LongStored(s.mem, Step(s).s.mem, s.pc + 6, left)
  {
    hide Wrap, Write32, Read32, Read16, Long, LongStored, BytesAt, Opcode, PtrField, LenField;
    FieldsRead(s.mem, s.pc, b);
    var ptr: int, len: int := Long(b, 2), Long(b, 6);
    WrapIs(s.pc + 10);
    WrapIs(s.pc + ptr);
    WrapIs(len - 1);
    StoresLong(s.mem, s.pc + 6, Wrap(len - 1));
  }

  /** The word 6 does nothing; 7 ends the program with 0, 8 with 6, and every word but 1 to 8 with 4. */
  lemma EndsBytes(s: State, b: seq<byte>)
    requires |b| == 10 && BytesAt(s.mem, s.pc, b)
    ensures var word := b[0] as int * 0x100 + b[1] as int;
      && (word == 6 ==> Step(s) == Continue(s.(pc := (s.pc + 10) % 0x1_0000_0000)))
      && (word == 7 ==> Step(s) == Done(s, 0))
      && (word == 8 ==> Step(s) == Done(s, 6))
      && (word == 0 || word > 8 ==> Step(s) == Done(s, 4))
  {
    hide Wrap, Write32, Read32, Read16, Long, BytesAt, Opcode, PtrField, LenField;
    FieldsRead(s.mem, s.pc, b);
    WrapIs(s.pc + 10);
  }

  /** The words 1, 5 and 7 in memory with their operands: `counter` rounds of `len` bytes from `ptr` on. */
  lemma TransferBytes(s: State, b: seq<byte>, bytes: nat)
    requires |b| == 30 && BytesAt(s.mem, s.pc, b) && s.pc + 30 <= 0x1_0000_0000 && s.table == [] && s.total == 0
    requires b[0] == 0 && b[1] == 1 && b[10] == 0 && b[11] == 5 && b[20] == 0 && b[21] == 7
    requires b[12] == 0xff && b[13] == 0xff && b[14] == 0xff && b[15] == 0xf6
    requires bytes == (if Long(b, 16) == 0 then 0x1_0000_0000 else Long(b, 16)) * Long(b, 6)
    ensures var out := Run(s, 2 * (if Long(b, 16) == 0 then 0x1_0000_0000 else Long(b, 16)) + 1);
      && out.Done? && out.result == 0
      && out.s.table == [Seg(Long(b, 2), bytes % 0x1_0000_0000)] && out.s.total == bytes % 0x1_0000_0000
      && (bytes < 0x1_0000_0000 <==> Denote(out.s.table) == Range(Long(b, 2), bytes))
  {
    hide Wrap, Run, Long, BytesAt, Opcode, PtrField, LenField, Denote, Range, Rounds;
    RoundsAre(Long(b, 16));
    ProgramRead(s.mem, s.pc, b);
    WrapIs(bytes);
    TransferProgram(s, s.pc, Long(b, 2), Long(b, 6), Long(b, 16), bytes);
  }

  lemma RoundsAre(counter: uint32)
    ensures Rounds(counter) == if counter == 0 then 0x1_0000_0000 else counter
  {
  }

  lemma PartOfBytes(m: Memory, p: int, b: seq<byte>, i: nat)
    requires BytesAt(m, p, b) && i + 10 <= |b|
    ensures BytesAt(m, p + i, b[i..i + 10])
  {
    var part := b[i..i + 10];
    forall j | 0 <= j < 10
      ensures m[(p + i + j) % 0x1_0000_0000] == part[j]
    {
      assert m[(p + (i + j)) % 0x1_0000_0000] == b[i + j];
      assert p + i + j == p + (i + j);
    }
  }

  lemma LongOfPart(b: seq<byte>, i: nat, j: nat)
    requires i + 10 <= |b| && j + 4 <= 10
    ensures Long(b[i..i + 10], j) == Long(b, i + j)
  {
  }

  lemma ProgramRead(m: Memory, p: uint32, b: seq<byte>)
    requires |b| == 30 && BytesAt(m, p, b) && p + 30 <= 0x1_0000_0000
    requires b[0] == 0 && b[1] == 1 && b[10] == 0 && b[11] == 5 && b[20] == 0 && b[21] == 7
    requires b[12] == 0xff && b[13] == 0xff && b[14] == 0xff && b[15] == 0xf6
    ensures IncProgram(m, p, Long(b, 2), Long(b, 6), Long(b, 16))
  {
    hide Wrap, BytesAt, Opcode, PtrField, LenField, Long;
    PartOfBytes(m, p, b, 0);
    PartOfBytes(m, p, b, 10);
    PartOfBytes(m, p, b, 20);
    assert p + 0 == p;
    FieldsRead(m, p, b[0..0 + 10]);
    FieldsRead(m, p + 10, b[10..10 + 10]);
    FieldsRead(m, p + 20, b[20..20 + 10]);
    LongOfPart(b, 0, 2);
    LongOfPart(b, 0, 6);
    LongOfPart(b, 10, 2);
    LongOfPart(b, 10, 6);
    WrapIs(-10);
    assert Long(b, 12) == 0xffff_fff6 by { BackTen(b); }
  }

  lemma BackTen(b: seq<byte>)
    requires |b| == 30 && b[12] == 0xff && b[13] == 0xff && b[14] == 0xff && b[15] == 0xf6
    ensures Long(b, 12) == 0xffff_fff6
  {
  }

  // ---- Status words, and the bytes a table stands for ----

  /** A status word stands in memory high byte first, and nothing else changes. */
  lemma StoresWord(m: Memory, p: int, v: uint16)
    ensures var n := Write16(m, p, v);
      && n[p % 0x1_0000_0000] as int == v / 0x100 && n[(p + 1) % 0x1_0000_0000] as int == v % 0x100
      && forall a: uint32 :: (a - p) % 0x1_0000_0000 >= 2 ==> n[a] == m[a]
  {
    hide Wrap;
    WrapIs(p);
    WrapIs(p + 1);
    var n := Write16(m, p, v);
    forall a: uint32 | (a - p) % TWO32 >= 2
      ensures n[a] == m[a]
    {
      Apart2(a, p);
    }
  }

  lemma Apart2(a: uint32, p: int)
    requires (a - p) % TWO32 >= 2
    ensures p % TWO32 != a && (p + 1) % TWO32 != a
  {
  }

  /** Byte k of the last entry stands k bytes behind its address, and in the list behind the bytes of the
      entries in front of it. */
  lemma ByteOfEntry(t: seq<Seg>, seg: Seg, k: nat)
    requires k < seg.len
    ensures |Denote(t + [seg])| == |Denote(t)| + seg.len && |Denote([])| == 0
    ensures Denote(t + [seg])[..|Denote(t)|] == Denote(t)
    ensures Denote(t + [seg])[|Denote(t)| + k] as int == (seg.ptr + k) % 0x1_0000_0000
  {
    hide Denote, Wrap;
    DenoteNothing();
    DenoteSnoc(t, seg);
    WrapIs(seg.ptr + k);
  }
}
