/** The TIB interpreter of src/scsi.cpp as a function on states, and what its runs guarantee.
    Host pointers are identified with the Mac addresses they translate. */
module Tib {
  import opened Machine
  import opened MacMemory

  const SG_TABLE_SIZE: nat := 1024

  const SC_INC := 1
  const SC_NO_INC := 2
  const SC_ADD := 3
  const SC_MOVE := 4
  const SC_LOOP := 5
  const SC_NOP := 6
  const SC_STOP := 7
  const SC_COMP := 8

  const SC_BAD_PARMS_ERR := 4
  const SC_COMPARE_ERR := 6
  const MEM_FULL_ERR := -108

  datatype Seg = Seg(ptr: uint32, len: uint32)

  datatype State = State(mem: Memory, pc: uint32, table: seq<Seg>, total: uint32)

  datatype Outcome = Continue(s: State) | Done(s: State, result: int)

  // ---- One opcode ----

  predicate Contiguous(last: Seg, ptr: uint32) { ptr == Wrap(last.ptr + last.len) }

  /** Appends a segment, merging it with the last entry when it starts where that one ends. */
  function AddSeg(table: seq<Seg>, seg: Seg): Option<seq<Seg>> {
    var n := |table|;
    if n > 0 && Contiguous(table[n - 1], seg.ptr) then
      Some(table[n - 1 := Seg(table[n - 1].ptr, Wrap(table[n - 1].len + seg.len))])
    else if n == SG_TABLE_SIZE then None
    else Some(table + [seg])
  }

  function Opcode(m: Memory, pc: int): nat { Read16(m, pc) }
  function PtrField(m: Memory, pc: int): uint32 { Read32(m, pc + 2) }
  function LenField(m: Memory, pc: int): uint32 { Read32(m, pc + 6) }

  function Transfer(s: State, mem: Memory, seg: Seg): Outcome {
    match AddSeg(s.table, seg)
    case None => Done(s.(mem := mem), MEM_FULL_ERR)
    case Some(t) => Continue(State(mem, Wrap(s.pc + 10), t, Wrap(s.total + seg.len)))
  }

  function Step(s: State): Outcome {
    var m, pc, next := s.mem, s.pc, Wrap(s.pc + 10);
    var cmd, ptr, len := Opcode(m, pc), PtrField(m, pc), LenField(m, pc);
    if cmd == SC_INC then Transfer(s, Write32(m, pc + 2, Wrap(ptr + len)), Seg(ptr, len))
    else if cmd == SC_NO_INC then Transfer(s, m, Seg(ptr, len))
    else if cmd == SC_ADD then Continue(s.(mem := Write32(m, ptr, Wrap(Read32(m, ptr) + len)), pc := next))
    else if cmd == SC_MOVE then Continue(s.(mem := Write32(m, len, Read32(m, ptr)), pc := next))
    else if cmd == SC_LOOP then
      Continue(s.(mem := Write32(m, pc + 6, Wrap(len - 1)), pc := if Wrap(len - 1) > 0 then Wrap(pc + ptr) else next))
    else if cmd == SC_NOP then Continue(s.(pc := next))
    else if cmd == SC_STOP then Done(s, 0)
    else if cmd == SC_COMP then Done(s, SC_COMPARE_ERR)
    else Done(s, SC_BAD_PARMS_ERR)
  }

  // ---- Runs ----

  /** The state after at most n opcodes. */
  function Run(s: State, n: nat): Outcome
    decreases n
  {
    if n == 0 then Continue(s)
    else
      match Step(s)
      case Done(_, _) => Step(s)
      case Continue(s') => Run(s', n - 1)
  }

  /** The segment an opcode hands to the S/G table, if it does. */
  function Moved(s: State): seq<Seg> {
    if (Opcode(s.mem, s.pc) == SC_INC || Opcode(s.mem, s.pc) == SC_NO_INC) && Step(s).Continue?
    then [Seg(PtrField(s.mem, s.pc), LenField(s.mem, s.pc))] else []
  }

  /** Segments of the INC and NOINC opcodes executed by the first n opcodes, in order. */
  function Transfers(s: State, n: nat): seq<Seg>
    decreases n
  {
    if n == 0 then []
    else
      match Step(s)
      case Done(_, _) => []
      case Continue(s') => Moved(s) + Transfers(s', n - 1)
  }

  /** Program counters of the opcodes executed by the first n steps. */
  function Path(s: State, n: nat): seq<int>
    decreases n
  {
    if n == 0 then []
    else
      match Step(s)
      case Done(_, _) => [s.pc]
      case Continue(s') => [s.pc] + Path(s', n - 1)
  }

  // ---- What a table denotes ----

  newtype addr = i: int | 0 <= i < 0x1_0000_0000

  function Range(ptr: uint32, len: nat): (r: seq<addr>)
    ensures |r| == len
  {
    seq(len, i requires 0 <= i < len => Wrap(ptr + i) as addr)
  }

  /** The byte addresses of a list of segments, in order. */
  function Denote(table: seq<Seg>): seq<addr> {
    if |table| == 0 then [] else Denote(table[..|table| - 1]) + Range(table[|table| - 1].ptr, table[|table| - 1].len)
  }

  function SumLen(table: seq<Seg>): nat {
    if |table| == 0 then 0 else SumLen(table[..|table| - 1]) + table[|table| - 1].len
  }

  lemma {:induction false} DenoteLength(table: seq<Seg>)
    ensures |Denote(table)| == SumLen(table)
  {
    if |table| > 0 {
      DenoteLength(table[..|table| - 1]);
    }
  }

  lemma DenoteSnoc(table: seq<Seg>, seg: Seg)
    ensures Denote(table + [seg]) == Denote(table) + Range(seg.ptr, seg.len)
    ensures SumLen(table + [seg]) == SumLen(table) + seg.len
  {
    assert (table + [seg])[..|table|] == table;
  }

  lemma RangeJoins(ptr: uint32, a: nat, b: nat)
    ensures Range(ptr, a) + Range(Wrap(ptr + a), b) == Range(ptr, a + b)
  {
    hide Wrap;
    var joined := Range(ptr, a) + Range(Wrap(ptr + a), b);
    forall j | a <= j < a + b
      ensures joined[j] == Range(ptr, a + b)[j]
    {
      WrapAdd(ptr + a, j - a);
    }
  }

  // ---- Coalescing ----

  /** The 32-bit length of the last entry overflows when this segment is merged into it. */
  predicate MergeOverflows(table: seq<Seg>, seg: Seg) {
    var n := |table|;
    n > 0 && Contiguous(table[n - 1], seg.ptr) && table[n - 1].len + seg.len >= TWO32
  }

  lemma AddSegMeaning(table: seq<Seg>, seg: Seg)
    requires AddSeg(table, seg).Some?
    ensures var t := AddSeg(table, seg).value;
      && SumLen(t) == SumLen(table) + seg.len - (if MergeOverflows(table, seg) then TWO32 else 0)
      && (!MergeOverflows(table, seg) ==> Denote(t) == Denote(table) + Range(seg.ptr, seg.len))
      && 0 < |t| <= |table| + 1
  {
    var n := |table|;
    if n > 0 && Contiguous(table[n - 1], seg.ptr) {
      var front, last := table[..n - 1], table[n - 1];
      var t := AddSeg(table, seg).value;
      WrapIs(last.len + seg.len);
      assert t[..n - 1] == front;
      RangeJoins(last.ptr, last.len, seg.len);
      assert Denote(front) + Range(last.ptr, last.len) + Range(seg.ptr, seg.len)
          == Denote(front) + (Range(last.ptr, last.len) + Range(seg.ptr, seg.len));
    } else {
      DenoteSnoc(table, seg);
    }
  }

  /** Some merge overflows the 32-bit length of an entry while these segments are added to the table. */
  predicate MergingOverflows(table: seq<Seg>, segs: seq<Seg>)
    decreases |segs|
  {
    segs != [] &&
    (MergeOverflows(table, segs[0]) ||
    match AddSeg(table, segs[0])
    case None => false
    case Some(t) => MergingOverflows(t, segs[1..]))
  }

  lemma {:induction false} DenoteConcat(a: seq<Seg>, b: seq<Seg>)
    ensures Denote(a + b) == Denote(a) + Denote(b)
    ensures SumLen(a + b) == SumLen(a) + SumLen(b)
    decreases |b|
  {
    if |b| == 0 {
      assert a + b == a;
    } else {
      var front := b[..|b| - 1];
      assert (a + b)[..|a + b| - 1] == a + front;
      DenoteConcat(a, front);
    }
  }

  lemma StepMeaning(s: State)
    ensures Step(s).Done? ==> Step(s).s.table == s.table && Step(s).s.total == s.total
    ensures Step(s).Continue? && Moved(s) == [] ==> Step(s).s.table == s.table && Step(s).s.total == s.total
    ensures Step(s).Continue? && Moved(s) != [] ==>
      && |Moved(s)| == 1
      && AddSeg(s.table, Moved(s)[0]) == Some(Step(s).s.table)
      && Step(s).s.total == Wrap(s.total + Moved(s)[0].len)
  {
    hide Write32, Read32, Read16, AddSeg, Wrap;
  }

  /** One opcode adds its segment to what the table denotes, unless its merge overflows. */
  lemma OpcodeMeaning(s: State, rest: seq<Seg>)
    requires Step(s).Continue?
    ensures var t := Step(s).s.table;
      var overflow := Moved(s) != [] && MergeOverflows(s.table, Moved(s)[0]);
      && (!overflow ==> Denote(t) + Denote(rest) == Denote(s.table) + Denote(Moved(s) + rest))
      && SumLen(t) + SumLen(rest) == SumLen(s.table) + SumLen(Moved(s) + rest) - (if overflow then TWO32 else 0)
  {
    hide Step, Moved, AddSeg, MergeOverflows, Range, Denote, SumLen;
    StepMeaning(s);
    DenoteConcat(Moved(s), rest);
    DenoteNothing();
    if Moved(s) == [] {
      assert [] + rest == rest;
    } else {
      var seg := Moved(s)[0];
      assert Moved(s) == [] + [seg];
      DenoteSnoc([], seg);
      AddSegMeaning(s.table, seg);
      assert [] + Range(seg.ptr, seg.len) == Range(seg.ptr, seg.len);
      assert Denote(s.table) + Denote([seg]) + Denote(rest) == Denote(s.table) + (Denote([seg]) + Denote(rest));
    }
  }

  lemma DenoteNothing()
    ensures Denote([]) == [] && SumLen([]) == 0
  {
  }

  /** The first opcode's share of the overflows. */
  lemma {:induction false} OpcodeOverflows(s: State, rest: seq<Seg>)
    requires Step(s).Continue?
    ensures MergingOverflows(s.table, Moved(s) + rest) <==>
      (Moved(s) != [] && MergeOverflows(s.table, Moved(s)[0])) || MergingOverflows(Step(s).s.table, rest)
  {
    hide Step, Moved, AddSeg, MergeOverflows;
    StepMeaning(s);
    assert Moved(s) == [] ==> Moved(s) + rest == rest;
    assert Moved(s) != [] ==> (Moved(s) + rest)[0] == Moved(s)[0] && (Moved(s) + rest)[1..] == rest;
  }

  /** Coalescing preserves meaning. After any number of opcodes of any program the table denotes
      what it denoted before plus the segments of the executed INC and NOINC opcodes in order, as
      without merging, if and only if merging those segments overflows no 32-bit entry length. */
  lemma {:induction false} CoalescingPreservesMeaning(s: State, n: nat)
    ensures Denote(Run(s, n).s.table) == Denote(s.table) + Denote(Transfers(s, n))
      <==> !MergingOverflows(s.table, Transfers(s, n))
    ensures SumLen(Run(s, n).s.table) <= SumLen(s.table) + SumLen(Transfers(s, n))
    ensures SumLen(Run(s, n).s.table) == SumLen(s.table) + SumLen(Transfers(s, n))
      <==> !MergingOverflows(s.table, Transfers(s, n))
    decreases n
  {
    hide Step, Moved, MergeOverflows, Denote, SumLen, MergingOverflows;
    DenoteNothing();
    if n == 0 || Step(s).Done? {
      NothingOverflows(s.table);
      StepMeaning(s);
      assert Denote(s.table) + [] == Denote(s.table);
    } else {
      var s' := Step(s).s;
      CoalescingPreservesMeaning(s', n - 1);
      OpcodeMeaning(s, Transfers(s', n - 1));
      OpcodeOverflows(s, Transfers(s', n - 1));
      DenoteLength(Run(s, n).s.table);
      DenoteLength(s.table);
      DenoteLength(Transfers(s, n));
    }
  }

  lemma NothingOverflows(table: seq<Seg>)
    ensures !MergingOverflows(table, [])
  {
  }

  lemma AddSegKeepsTotal(table: seq<Seg>, total: uint32, seg: Seg)
    requires AddSeg(table, seg).Some? && total == Wrap(SumLen(table)) && |table| <= SG_TABLE_SIZE
    ensures var t := AddSeg(table, seg).value;
      Wrap(total + seg.len) == Wrap(SumLen(t)) && |t| <= SG_TABLE_SIZE
  {
    hide SumLen;
    AddSegMeaning(table, seg);
    WrapAdd(SumLen(table), seg.len);
    var t := AddSeg(table, seg).value;
    if MergeOverflows(table, seg) {
      assert SumLen(table) + seg.len == SumLen(t) + TWO32;
    }
  }

  /** The running total stays the sum of the entry lengths, and the table stays within its size. */
  lemma {:induction false} TotalIsSum(s: State, n: nat)
    requires s.total == Wrap(SumLen(s.table)) && |s.table| <= SG_TABLE_SIZE
    ensures var s' := Run(s, n).s;
      s'.total == Wrap(SumLen(s'.table)) && |s'.table| <= SG_TABLE_SIZE
    decreases n
  {
    hide Step, Moved, SumLen, AddSeg, Wrap;
    if n > 0 {
      StepMeaning(s);
      if Step(s).Continue? {
        if Moved(s) != [] {
          AddSegKeepsTotal(s.table, s.total, Moved(s)[0]);
        }
        TotalIsSum(Step(s).s, n - 1);
      }
    }
  }

  // ---- Loops ----

  lemma {:induction false} RunCompose(s: State, a: nat, b: nat)
    requires Run(s, a).Continue?
    ensures Run(s, a + b) == Run(Run(s, a).s, b)
    ensures Path(s, a + b) == Path(s, a) + Path(Run(s, a).s, b)
    decreases a
  {
    hide Step;
    if a == 0 {
      assert [] + Path(s, b) == Path(s, b);
    } else {
      var s' := Step(s).s;
      RunCompose(s', a - 1, b);
      assert [s.pc] + (Path(s', a - 1) + Path(Run(s, a).s, b)) == ([s.pc] + Path(s', a - 1)) + Path(Run(s, a).s, b);
    }
  }

  lemma {:induction false} RunStops(s: State, a: nat, b: nat)
    requires Run(s, a).Done?
    ensures Run(s, a + b) == Run(s, a)
    decreases a
  {
    hide Step;
    if a > 0 && Step(s).Continue? {
      RunStops(Step(s).s, a - 1, b);
    }
  }

  /** Address of the i-th opcode of a program. */
  function At(start: uint32, i: nat): int { start + 10 * i }

  /** A straight-line opcode that leaves the n bytes of program at `start` alone, but for the
      pointer that an INC advances in itself. */
  predicate Tame(m: Memory, pc: int, start: uint32, n: nat) {
    var cmd := Opcode(m, pc);
    || cmd in {SC_INC, SC_NO_INC, SC_NOP}
    || (cmd == SC_ADD && Apart(PtrField(m, pc), start, n))
    || (cmd == SC_MOVE && Apart(LenField(m, pc), start, n))
  }

  /** k straight-line opcodes at `start`, followed by a LOOP back to the first with this counter. */
  predicate Program(m: Memory, start: uint32, k: nat, counter: uint32) {
    && At(start, k + 1) <= TWO32
    && (forall i :: 0 <= i < k ==> Tame(m, At(start, i), start, 10 * (k + 1)))
    && Opcode(m, At(start, k)) == SC_LOOP
    && PtrField(m, At(start, k)) == Wrap(-10 * k)
    && LenField(m, At(start, k)) == counter
  }

  /** A write that misses every field of an opcode. */
  lemma FieldsUnchanged(m: Memory, a: int, v: uint32, pc: int)
    requires Apart(a, pc, 10)
    ensures Opcode(Write32(m, a, v), pc) == Opcode(m, pc)
    ensures PtrField(Write32(m, a, v), pc) == PtrField(m, pc)
    ensures LenField(Write32(m, a, v), pc) == LenField(m, pc)
  {
    hide Write32, Read32, Read16, Apart;
    ApartWithin(a, pc, 10, 0, 2);
    ApartWithin(a, pc, 10, 2, 4);
    ApartWithin(a, pc, 10, 6, 4);
    UnchangedWords(m, a, v, pc, 2);
    UnchangedWords(m, a, v, pc + 2, 4);
    UnchangedWords(m, a, v, pc + 6, 4);
  }

  /** A write into the pointer field of one opcode of a program. */
  lemma IncKeepsProgram(m: Memory, start: uint32, k: nat, c: uint32, i: nat, v: uint32)
    requires Program(m, start, k, c) && i < k && Opcode(m, At(start, i)) == SC_INC
    ensures Program(Write32(m, At(start, i) + 2, v), start, k, c)
  {
    hide Write32, Read32, Read16, Opcode, PtrField, LenField, Apart;
    var pc := At(start, i);
    var m' := Write32(m, pc + 2, v);
    ApartInLine(pc + 2, At(start, k), 10);
    FieldsUnchanged(m, pc + 2, v, At(start, k));
    OpcodeUnchanged(m, pc, v);
    forall j | 0 <= j < k
      ensures Tame(m', At(start, j), start, 10 * (k + 1))
    {
      assert Tame(m, At(start, j), start, 10 * (k + 1));
      if j != i {
        ApartInLine(pc + 2, At(start, j), 10);
        FieldsUnchanged(m, pc + 2, v, At(start, j));
      }
    }
  }

  lemma OpcodeUnchanged(m: Memory, pc: int, v: uint32)
    ensures Opcode(Write32(m, pc + 2, v), pc) == Opcode(m, pc)
  {
    hide Write32, Read16;
    ApartFields(pc);
    UnchangedWords(m, pc + 2, v, pc, 2);
  }

  /** A write outside a program. */
  lemma OutsideKeepsProgram(m: Memory, start: uint32, k: nat, c: uint32, a: int, v: uint32)
    requires Program(m, start, k, c) && Apart(a, start, 10 * (k + 1))
    ensures Program(Write32(m, a, v), start, k, c)
  {
    hide Write32, Read32, Read16, Opcode, PtrField, LenField;
    var m' := Write32(m, a, v);
    ApartWithin(a, start, 10 * (k + 1), 10 * k, 10);
    FieldsUnchanged(m, a, v, At(start, k));
    forall j | 0 <= j < k
      ensures Tame(m', At(start, j), start, 10 * (k + 1))
    {
      assert Tame(m, At(start, j), start, 10 * (k + 1));
      ApartWithin(a, start, 10 * (k + 1), 10 * j, 10);
      FieldsUnchanged(m, a, v, At(start, j));
    }
  }

  lemma TransferKeeps(s: State, mem: Memory, seg: Seg)
    ensures match Transfer(s, mem, seg)
      case Done(s', r) => r == MEM_FULL_ERR && s'.table == s.table && |s.table| == SG_TABLE_SIZE
      case Continue(s') => s'.mem == mem && s'.pc == Wrap(s.pc + 10)
  {
  }

  lemma StepShape(s: State)
    ensures var m, pc, next := s.mem, s.pc, Wrap(s.pc + 10);
      var cmd, ptr, len := Opcode(m, pc), PtrField(m, pc), LenField(m, pc);
      && (cmd == SC_INC ==> Step(s) == Transfer(s, Write32(m, pc + 2, Wrap(ptr + len)), Seg(ptr, len)))
      && (cmd == SC_NO_INC ==> Step(s) == Transfer(s, m, Seg(ptr, len)))
      && (cmd == SC_ADD ==> Step(s) == Continue(s.(mem := Write32(m, ptr, Wrap(Read32(m, ptr) + len)), pc := next)))
      && (cmd == SC_MOVE ==> Step(s) == Continue(s.(mem := Write32(m, len, Read32(m, ptr)), pc := next)))
      && (cmd == SC_NOP ==> Step(s) == Continue(s.(pc := next)))
  {
    hide Write32, Read32, Read16, Transfer, Opcode, PtrField, LenField, Wrap;
  }

  lemma NextPc(start: uint32, k: nat, i: nat)
    requires i < k && At(start, k + 1) <= TWO32
    ensures Wrap(At(start, i) + 10) == At(start, i + 1)
  {
  }

  /** A straight-line opcode falls through to the next one and keeps the program, unless the table is full. */
  lemma StraightStep(s: State, start: uint32, k: nat, c: uint32, i: nat)
    requires Program(s.mem, start, k, c) && i < k && s.pc == At(start, i)
    ensures match Step(s)
      case Done(s', r) => r == MEM_FULL_ERR && |s'.table| == SG_TABLE_SIZE
      case Continue(s') => Program(s'.mem, start, k, c) && s'.pc == At(start, i + 1)
  {
    hide Write32, Read32, Read16, Program, Transfer, Apart, Opcode, PtrField, LenField, Step, Wrap;
    var m, pc := s.mem, s.pc;
    TameAt(m, start, k, c, i);
    StepShape(s);
    NextPc(start, k, i);
    var ptr: int, len: int := PtrField(m, pc), LenField(m, pc);
    if Opcode(m, pc) == SC_INC {
      IncKeepsProgram(m, start, k, c, i, Wrap(ptr + len));
      TransferKeeps(s, Write32(m, pc + 2, Wrap(ptr + len)), Seg(ptr, len));
    } else if Opcode(m, pc) == SC_NO_INC {
      TransferKeeps(s, m, Seg(ptr, len));
    } else if Opcode(m, pc) == SC_ADD {
      OutsideKeepsProgram(m, start, k, c, ptr, Wrap(Read32(m, ptr) + len));
    } else if Opcode(m, pc) == SC_MOVE {
      OutsideKeepsProgram(m, start, k, c, len, Read32(m, ptr));
    }
  }

  lemma TameAt(m: Memory, start: uint32, k: nat, c: uint32, i: nat)
    requires Program(m, start, k, c) && i < k
    ensures Tame(m, At(start, i), start, 10 * (k + 1)) && At(start, k + 1) <= TWO32
  {
  }

  /** Addresses of opcodes i..k of a program, the LOOP included. */
  function Line(start: uint32, i: nat, k: nat): seq<int>
    requires i <= k + 1 && At(start, k + 1) <= TWO32
  {
    seq(k + 1 - i, j requires 0 <= j < k + 1 - i => At(start, i + j))
  }

  lemma {:induction false} BodyRuns(s: State, start: uint32, k: nat, c: uint32, i: nat)
    requires Program(s.mem, start, k, c) && i <= k && s.pc == At(start, i)
    ensures match Run(s, k - i)
      case Done(s', r) => r == MEM_FULL_ERR && |s'.table| == SG_TABLE_SIZE
      case Continue(s') => Program(s'.mem, start, k, c) && s'.pc == At(start, k)
    decreases k - i
  {
    hide Step, Program;
    if i < k {
      StraightStep(s, start, k, c, i);
      if Step(s).Continue? {
        BodyRuns(Step(s).s, start, k, c, i + 1);
      }
    }
  }

  /** The opcodes of the body are executed in order. */
  lemma {:induction false} BodyPath(s: State, start: uint32, k: nat, c: uint32, i: nat)
    requires Program(s.mem, start, k, c) && i <= k && s.pc == At(start, i) && Run(s, k - i).Continue?
    ensures At(start, k + 1) <= TWO32
    ensures Path(s, k - i) + [At(start, k)] == Line(start, i, k)
    decreases k - i
  {
    hide Step, Program;
    assert At(start, k + 1) <= TWO32 by { ProgramLoop(s.mem, start, k, c); }
    if i == k {
      assert Path(s, 0) + [s.pc] == Line(start, i, k);
    } else {
      StraightStep(s, start, k, c, i);
      var s' := Step(s).s;
      BodyPath(s', start, k, c, i + 1);
      assert [s.pc] + Path(s', k - i - 1) + [At(start, k)] == [s.pc] + (Path(s', k - i - 1) + [At(start, k)]);
      assert [s.pc] + Line(start, i + 1, k) == Line(start, i, k);
    }
  }

  lemma ProgramLoop(m: Memory, start: uint32, k: nat, c: uint32)
    requires Program(m, start, k, c)
    ensures At(start, k + 1) <= TWO32 && Opcode(m, At(start, k)) == SC_LOOP
    ensures PtrField(m, At(start, k)) == Wrap(-10 * k) && LenField(m, At(start, k)) == c
  {
  }

  lemma CounterKeepsProgram(m: Memory, start: uint32, k: nat, c: uint32, v: uint32)
    requires Program(m, start, k, c)
    ensures Program(Write32(m, At(start, k) + 6, v), start, k, v)
  {
    hide Write32, Read32, Read16, Opcode;
    var pc := At(start, k);
    var m' := Write32(m, pc + 6, v);
    hide Opcode, PtrField, LenField, Apart;
    LoopFields(m, pc, v);
    forall j | 0 <= j < k
      ensures Tame(m', At(start, j), start, 10 * (k + 1))
    {
      assert Tame(m, At(start, j), start, 10 * (k + 1));
      ApartInLine(pc + 6, At(start, j), 10);
      FieldsUnchanged(m, pc + 6, v, At(start, j));
    }
  }

  lemma LoopFields(m: Memory, pc: int, v: uint32)
    ensures var m' := Write32(m, pc + 6, v);
      Opcode(m', pc) == Opcode(m, pc) && PtrField(m', pc) == PtrField(m, pc) && LenField(m', pc) == v
  {
    hide Write32, Read32, Read16;
    ApartFields(pc);
    UnchangedWords(m, pc + 6, v, pc, 2);
    UnchangedWords(m, pc + 6, v, pc + 2, 4);
    ReadBack(m, pc + 6, v);
  }

  /** One round: the body, then LOOP, which counts down and goes back or falls through. */
  lemma LoopStep(s: State, start: uint32, k: nat, c: uint32)
    requires Program(s.mem, start, k, c) && s.pc == At(start, k)
    ensures Step(s).Continue?
    ensures var s' := Step(s).s;
      && Program(s'.mem, start, k, Wrap(c - 1))
      && s'.pc == (if Wrap(c - 1) > 0 then start else Wrap(At(start, k + 1)))
      && s'.table == s.table && s'.total == s.total
  {
    hide Write32, Read32, Read16, Program;
    ProgramLoop(s.mem, start, k, c);
    WrapAdd(-10 * k, At(start, k));
    assert Wrap(Wrap(-10 * k) + At(start, k)) == start;
    CounterKeepsProgram(s.mem, start, k, c, Wrap(c - 1));
  }

  function Repeat<T>(xs: seq<T>, n: nat): seq<T> {
    if n == 0 then [] else xs + Repeat(xs, n - 1)
  }

  /** One whole round from the start of the program. */
  lemma Round(s: State, start: uint32, k: nat, c: uint32)
    requires Program(s.mem, start, k, c) && s.pc == start
    ensures At(start, k + 1) <= TWO32
    ensures match Run(s, k + 1)
      case Done(s', r) => r == MEM_FULL_ERR && |s'.table| == SG_TABLE_SIZE
      case Continue(s') =>
        && Program(s'.mem, start, k, Wrap(c - 1))
        && s'.pc == (if Wrap(c - 1) > 0 then start else Wrap(At(start, k + 1)))
        && Path(s, k + 1) == Line(start, 0, k)
  {
    hide Step, Program, Run, Path;
    ProgramLoop(s.mem, start, k, c);
    BodyRuns(s, start, k, c, 0);
    if Run(s, k).Done? {
      RunStops(s, k, 1);
    } else {
      BodyPath(s, start, k, c, 0);
      LoopStep(Run(s, k).s, start, k, c);
      RunCompose(s, k, 1);
      RoundOf(s, k);
    }
  }

  /** Opcodes executed in n rounds of a body of k opcodes and its LOOP. */
  function RoundSteps(n: nat, k: nat): nat { n * (k + 1) }

  /** LOOP unrolls: with n rounds to go, the opcodes executed are exactly n copies of the body and its
      LOOP, after which the counter is 0 and the LOOP falls through; only a full S/G table ends the run
      earlier. A counter of 0 stands for n = 2^32. */
  lemma {:induction false} LoopUnrolls(s: State, start: uint32, k: nat, n: nat)
    requires 1 <= n <= TWO32 && Program(s.mem, start, k, Wrap(n)) && s.pc == start
    ensures match Run(s, RoundSteps(n, k))
      case Done(s', r) => r == MEM_FULL_ERR && |s'.table| == SG_TABLE_SIZE
      case Continue(s') =>
        && At(start, k + 1) <= TWO32
        && Program(s'.mem, start, k, 0) && s'.pc == Wrap(At(start, k + 1))
        && Path(s, RoundSteps(n, k)) == Repeat(Line(start, 0, k), n)
    decreases n
  {
    hide Step, Program, Run, Path, Line, At, RoundSteps;
    Round(s, start, k, Wrap(n));
    MulRound(n, k);
    var rest := RoundSteps(n - 1, k);
    if Run(s, k + 1).Done? {
      RunStops(s, k + 1, rest);
    } else {
      var s' := Run(s, k + 1).s;
      RunCompose(s, k + 1, rest);
      assert Wrap(Wrap(n) - 1) == n - 1;
      if n == 1 {
        NoSteps(s');
      } else {
        LoopUnrolls(s', start, k, n - 1);
      }
    }
  }

  lemma NoSteps(s: State)
    ensures Run(s, 0) == Continue(s) && Path(s, 0) == []
  {
  }

  lemma RoundOf(s: State, k: nat)
    requires Run(s, k).Continue? && Step(Run(s, k).s).Continue?
    requires Run(s, k + 1) == Run(Run(s, k).s, 1) && Path(s, k + 1) == Path(s, k) + Path(Run(s, k).s, 1)
    ensures Run(s, k + 1) == Step(Run(s, k).s)
    ensures Path(s, k + 1) == Path(s, k) + [Run(s, k).s.pc]
  {
    hide Step;
    var e := Run(s, k).s;
    assert Run(e, 1) == Continue(Step(e).s);
    assert Path(e, 1) == [e.pc] + [];
  }

  lemma MulRound(n: nat, k: nat)
    requires n >= 1
    ensures RoundSteps(n, k) == (k + 1) + RoundSteps(n - 1, k) && RoundSteps(0, k) == 0
  {
  }

  // ---- The usual transfer program: INC(ptr, len); LOOP(-10, n); STOP ----

  predicate IncProgram(m: Memory, p: uint32, ptr: uint32, len: uint32, counter: uint32) {
    && p + 30 <= TWO32
    && Opcode(m, p) == SC_INC && PtrField(m, p) == ptr && LenField(m, p) == len
    && Opcode(m, p + 10) == SC_LOOP && PtrField(m, p + 10) == Wrap(-10) && LenField(m, p + 10) == counter
    && Opcode(m, p + 20) == SC_STOP
  }

  lemma PointerFields(m: Memory, pc: int, v: uint32)
    ensures var m' := Write32(m, pc + 2, v);
      Opcode(m', pc) == Opcode(m, pc) && PtrField(m', pc) == v && LenField(m', pc) == LenField(m, pc)
  {
    hide Write32, Read32, Read16;
    ApartFields(pc);
    UnchangedWords(m, pc + 2, v, pc, 2);
    UnchangedWords(m, pc + 2, v, pc + 6, 4);
    ReadBack(m, pc + 2, v);
  }

  /** The memory after one round of the transfer program. */
  function AfterRound(m: Memory, p: uint32, ptr: uint32, counter: uint32): Memory {
    Write32(Write32(m, p + 2, ptr), p + 16, counter)
  }

  lemma RoundKeepsIncProgram(m: Memory, p: uint32, ptr: uint32, len: uint32, counter: uint32, ptr': uint32, counter': uint32)
    requires IncProgram(m, p, ptr, len, counter)
    ensures IncProgram(AfterRound(m, p, ptr', counter'), p, ptr', len, counter')
    ensures var m' := Write32(m, p + 2, ptr');
      Opcode(m', p + 10) == SC_LOOP && PtrField(m', p + 10) == Wrap(-10) && LenField(m', p + 10) == counter
  {
    hide Write32, Read32, Read16, Opcode, PtrField, LenField, Apart;
    var m' := Write32(m, p + 2, ptr');
    PointerFields(m, p, ptr');
    ApartInLine(p + 2, p + 10, 10);
    FieldsUnchanged(m, p + 2, ptr', p + 10);
    ApartInLine(p + 2, p + 20, 10);
    FieldsUnchanged(m, p + 2, ptr', p + 20);
    ApartInLine(p + 16, p, 10);
    FieldsUnchanged(m', p + 16, counter', p);
    LoopFields(m', p + 10, counter');
    ApartInLine(p + 16, p + 20, 10);
    FieldsUnchanged(m', p + 16, counter', p + 20);
  }

  /** The table after `moved` contiguous bytes from q: nothing, or a single entry. */
  predicate OneEntry(s: State, q: uint32, moved: nat) {
    s.total == Wrap(moved) && (s.table == [Seg(q, Wrap(moved))] || (moved == 0 && s.table == []))
  }

  lemma MergeGrows(table: seq<Seg>, q: uint32, moved: nat, len: uint32)
    requires table == [Seg(q, Wrap(moved))] || (moved == 0 && table == [])
    ensures AddSeg(table, Seg(Wrap(q + moved), len)) == Some([Seg(q, Wrap(moved + len))])
  {
    WrapAdd(moved, q);
    WrapAdd(moved, len);
    var seg := Seg(Wrap(q + moved), len);
    if |table| > 0 {
      assert Contiguous(table[0], seg.ptr);
      assert table[0 := Seg(q, Wrap(moved + len))] == [Seg(q, Wrap(moved + len))];
    } else {
      assert [] + [seg] == [Seg(q, Wrap(moved + len))];
    }
  }

  lemma IncRound(s: State, p: uint32, q: uint32, moved: nat, len: uint32, counter: uint32)
    requires IncProgram(s.mem, p, Wrap(q + moved), len, counter) && s.pc == p && OneEntry(s, q, moved)
    ensures Step(s).Continue? && Step(Step(s).s).Continue?
    ensures var s' := Step(Step(s).s).s;
      && IncProgram(s'.mem, p, Wrap(q + (moved + len)), len, Wrap(counter - 1))
      && s'.table == [Seg(q, Wrap(moved + len))] && s'.total == Wrap(moved + len)
      && s'.pc == (if Wrap(counter - 1) > 0 then p else p + 20)
  {
    hide Write32, Read32, Read16, Opcode, PtrField, LenField, AddSeg;
    MergeGrows(s.table, q, moved, len);
    WrapAdd(q + moved, len);
    WrapAdd(moved, len);
    WrapAdd(-10, p + 10);
    assert Wrap(p + 10 + Wrap(-10)) == p;
    RoundKeepsIncProgram(s.mem, p, Wrap(q + moved), len, counter, Wrap(q + (moved + len)), Wrap(counter - 1));
  }

  lemma RunTwo(s: State, n: nat)
    requires Step(s).Continue? && Step(Step(s).s).Continue?
    ensures Run(s, n + 2) == Run(Step(Step(s).s).s, n)
  {
    hide Step;
    assert Run(s, n + 2) == Run(Step(s).s, n + 1);
  }

  lemma RunStop(s: State)
    requires Opcode(s.mem, s.pc) == SC_STOP
    ensures Run(s, 1) == Done(s, 0)
  {
    hide Opcode;
  }

  lemma {:induction false} IncRounds(s: State, p: uint32, q: uint32, moved: nat, len: uint32, n: nat, bytes: nat)
    requires 1 <= n <= TWO32 && s.pc == p && OneEntry(s, q, moved) && bytes == n * len
    requires IncProgram(s.mem, p, Wrap(q + moved), len, Wrap(n))
    ensures Run(s, 2 * n + 1).Done? && Run(s, 2 * n + 1).result == 0
    ensures var s' := Run(s, 2 * n + 1).s;
      && s'.table == [Seg(q, Wrap(moved + bytes))] && s'.total == Wrap(moved + bytes)
      && IncProgram(s'.mem, p, Wrap(q + (moved + bytes)), len, 0)
    decreases n
  {
    hide Step, Run, Opcode, PtrField, LenField, Wrap, IncProgram;
    IncRound(s, p, q, moved, len, Wrap(n));
    RunTwo(s, 2 * n - 1);
    var s' := Step(Step(s).s).s;
    CountDown(n);
    OneLess(n, len);
    if n == 1 {
      StopsAtEnd(s', p, Wrap(q + (moved + len)), len);
    } else {
      assert moved + len + (bytes - len) == moved + bytes;
      IncRounds(s', p, q, moved + len, len, n - 1, bytes - len);
    }
  }

  lemma CountDown(n: nat)
    requires 1 <= n <= TWO32
    ensures Wrap(Wrap(n) - 1) == Wrap(n - 1) == n - 1
  {
  }

  lemma StopsAtEnd(s: State, p: uint32, ptr: uint32, len: uint32)
    requires IncProgram(s.mem, p, ptr, len, 0) && s.pc == p + 20
    ensures Run(s, 1) == Done(s, 0)
  {
    hide Opcode, PtrField, LenField;
    RunStop(s);
  }

  lemma OneLess(n: nat, len: nat)
    requires n >= 1
    ensures n * len == len + (n - 1) * len >= len
    ensures n == 1 ==> n * len == len
  {
  }

  /** INC(ptr, len); LOOP(-10, n); STOP from an empty table: a single merged entry, the INC pointer
      behind the last byte and the counter 0. The entry denotes the n * len bytes from ptr on if
      and only if these are less than 4 GB; a counter of 0 stands for 2^32 rounds. */
  lemma TransferProgram(s: State, p: uint32, ptr: uint32, len: uint32, counter: uint32, bytes: nat)
    requires s.pc == p && s.table == [] && s.total == 0 && IncProgram(s.mem, p, ptr, len, counter)
    requires bytes == Rounds(counter) * len
    ensures var out := Run(s, 2 * Rounds(counter) + 1);
      && out.Done? && out.result == 0
      && out.s.table == [Seg(ptr, Wrap(bytes))] && out.s.total == Wrap(bytes)
      && PtrField(out.s.mem, p) == Wrap(ptr + bytes) && LenField(out.s.mem, p + 10) == 0
      && (bytes < TWO32 <==> Denote(out.s.table) == Range(ptr, bytes))
  {
    hide Run, Opcode, PtrField, LenField, Range, Rounds;
    IncRounds(s, p, ptr, 0, len, Rounds(counter), bytes);
    var t := Run(s, 2 * Rounds(counter) + 1).s.table;
    assert t == [] + t;
    DenoteSnoc([], t[0]);
    assert Denote([]) + Range(ptr, Wrap(bytes)) == Range(ptr, Wrap(bytes));
    assert bytes >= TWO32 ==> Wrap(bytes) < bytes;
  }

  /** Two rounds of 2 GB: the program ends without an error and its table denotes nothing. */
  lemma FourGigabytesVanish(s: State, p: uint32, ptr: uint32)
    requires s.pc == p && s.table == [] && s.total == 0 && IncProgram(s.mem, p, ptr, 0x8000_0000, 2)
    ensures var out := Run(s, 5);
      out.Done? && out.result == 0 && out.s.table == [Seg(ptr, 0)] && out.s.total == 0 && Denote(out.s.table) == []
    ensures Denote(Transfers(s, 5)) != [] && MergingOverflows(s.table, Transfers(s, 5))
  {
    hide Run, Step, Moved, Opcode, PtrField, LenField, Range, Denote, SumLen, MergingOverflows;
    TransferProgram(s, p, ptr, 0x8000_0000, 2, TWO32);
    DenoteNothing();
    DenoteSnoc([], Seg(ptr, 0));
    assert [] + [Seg(ptr, 0)] == [Seg(ptr, 0)];
    FirstMoves(s, p, ptr, 0x8000_0000, 2, 4);
    DenoteLength(Transfers(s, 5));
    CoalescingPreservesMeaning(s, 5);
  }

  lemma FirstMoves(s: State, p: uint32, ptr: uint32, len: uint32, counter: uint32, n: nat)
    requires s.pc == p && s.table == [] && IncProgram(s.mem, p, ptr, len, counter)
    ensures SumLen(Transfers(s, n + 1)) >= len
  {
    hide Opcode, PtrField, LenField, SumLen;
    var rest := Transfers(Step(s).s, n);
    assert Transfers(s, n + 1) == [Seg(ptr, len)] + rest;
    DenoteNothing();
    DenoteSnoc([], Seg(ptr, len));
    assert [] + [Seg(ptr, len)] == [Seg(ptr, len)];
    DenoteConcat([Seg(ptr, len)], rest);
  }

  /** How often a LOOP with this counter runs its body. */
  function Rounds(counter: uint32): (n: nat)
    ensures 1 <= n <= TWO32 && Wrap(n) == counter
  {
    if counter == 0 then TWO32 else counter
  }
}
