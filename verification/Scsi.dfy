/** The SCSI Manager of src/scsi.cpp and its host side in src/AmigaOS-4/scsi_amiga.cpp. */
module Scsi {
  import opened Machine
  import opened Buffers
  import opened MacMemory
  import opened Tib

  datatype Delivery = Completed | Failed | Overran
  datatype Phase = Free | Arbitrated | Selected | InTransfer

  const SC_COMM_ERR := 2
  const SC_PHASE_ERR := 5
  const SC_MGR_BUSY_ERR := 7
  const SC_SEQUENCE_ERR := 8

  // ---- Gathering and scattering, as values ----

  function Gather(m: Memory, where: seq<addr>): (d: seq<byte>)
    ensures |d| == |where|
  {
    seq(|where|, i requires 0 <= i < |where| => m[where[i] as int])
  }

  /** Stores the bytes of d one after the other. */
  function Scatter(m: Memory, where: seq<addr>, d: seq<byte>): (r: Memory)
    requires |d| == |where|
  {
    if |d| == 0 then m
    else Scatter(m, where[..|where| - 1], d[..|d| - 1])[where[|where| - 1] as int := d[|d| - 1]]
  }

  predicate Distinct(where: seq<addr>) {
    forall i, j :: 0 <= i < j < |where| ==> where[i] != where[j]
  }

  /** Scattering changes no other address. */
  lemma {:induction false} ScatterElsewhere(m: Memory, where: seq<addr>, d: seq<byte>, a: addr)
    requires |d| == |where| && a !in where
    ensures Scatter(m, where, d)[a as int] == m[a as int]
  {
    var n := |where|;
    if n > 0 {
      assert where[n - 1] in where;
      assert forall x :: x in where[..n - 1] ==> x in where;
      ScatterElsewhere(m, where[..n - 1], d[..n - 1], a);
    }
  }

  /** An address holds the last byte sent to it. */
  lemma {:induction false} ScatterLast(m: Memory, where: seq<addr>, d: seq<byte>, i: nat)
    requires |d| == |where| && i < |where|
    requires forall j :: i < j < |where| ==> where[j] != where[i]
    ensures Scatter(m, where, d)[where[i] as int] == d[i]
  {
    var n := |where|;
    if i < n - 1 {
      ScatterLast(m, where[..n - 1], d[..n - 1], i);
    }
  }

  /** Reading a transfer back gives the bytes sent, for every content, exactly when no address occurs twice. */
  lemma GatherAfterScatter(m: Memory, where: seq<addr>)
    ensures Distinct(where) <==> forall d: seq<byte> | |d| == |where| :: Gather(Scatter(m, where, d), where) == d
  {
    if Distinct(where) {
      forall d: seq<byte> | |d| == |where|
        ensures Gather(Scatter(m, where, d), where) == d
      {
        DistinctReadsBack(m, where, d);
      }
    } else {
      var i, j :| 0 <= i < j < |where| && where[i] == where[j];
      var d := seq(|where|, k => if k == i then 1 as byte else 0);
      var back := Gather(Scatter(m, where, d), where);
      assert back[i] == back[j];
      assert d[i] != d[j];
      assert back != d;
    }
  }

  lemma DistinctReadsBack(m: Memory, where: seq<addr>, d: seq<byte>)
    requires |d| == |where| && Distinct(where)
    ensures Gather(Scatter(m, where, d), where) == d
  {
    forall i | 0 <= i < |where|
      ensures Gather(Scatter(m, where, d), where)[i] == d[i]
    {
      ScatterLast(m, where, d, i);
    }
  }

  lemma GatherConcat(m: Memory, a: seq<addr>, b: seq<addr>)
    ensures Gather(m, a + b) == Gather(m, a) + Gather(m, b)
  {
  }

  lemma {:induction false} ScatterConcat(m: Memory, a: seq<addr>, d: seq<byte>, b: seq<addr>, e: seq<byte>)
    requires |d| == |a| && |e| == |b|
    ensures Scatter(m, a + b, d + e) == Scatter(Scatter(m, a, d), b, e)
    decreases |b|
  {
    var n := |b|;
    if n == 0 {
      assert a + b == a && d + e == d;
    } else {
      assert (a + b)[..|a + b| - 1] == a + b[..n - 1];
      assert (d + e)[..|d + e| - 1] == d + e[..n - 1];
      ScatterConcat(m, a, d, b[..n - 1], e[..n - 1]);
    }
  }

  /** Denotation of one more entry of a table. */
  lemma DenoteNext(t: seq<Seg>, i: nat)
    requires i < |t|
    ensures Denote(t[..i + 1]) == Denote(t[..i]) + Range(t[i].ptr, t[i].len)
    ensures |Denote(t[..i])| == SumLen(t[..i]) && SumLen(t[..i + 1]) == SumLen(t[..i]) + t[i].len
  {
    assert t[..i + 1] == t[..i] + [t[i]];
    DenoteSnoc(t[..i], t[i]);
    DenoteLength(t[..i]);
  }

  lemma {:induction false} SumLenGrows(t: seq<Seg>, i: nat)
    requires i <= |t|
    ensures SumLen(t[..i]) <= SumLen(t)
    decreases |t| - i
  {
    if i == |t| {
      assert t[..i] == t;
    } else {
      DenoteNext(t, i);
      SumLenGrows(t, i + 1);
    }
  }

  // ---- The buffer ----

  function Signed(v: uint32): int { if v < TWO31 then v else v - TWO32 }

  /** The length of the buffer after try_buffer agreed to a size, given its length before. */
  function RoomFor(size: uint32, length: nat): nat { if Signed(size) <= length then length else size }

  /** If try_buffer agrees to the total of a table, the table fits. */
  predicate Suffices(sum: nat, length: nat, granted: bool) {
    Signed(Wrap(sum)) <= length || granted ==> sum <= RoomFor(Wrap(sum), length)
  }

  /** So it is for every buffer and every answer of the allocator. */
  ghost predicate AgreementSuffices(sum: nat) { forall length: nat, granted: bool :: Suffices(sum, length, granted) }

  /** try_buffer makes room for the whole table exactly below 2 GB. */
  lemma BufferSufficesExactly(sum: nat)
    ensures AgreementSuffices(sum) <==> sum < TWO31
  {
    hide Wrap;
    WrapIs(sum);
    if sum >= TWO31 {
      assert !Suffices(sum, 0, true);
    }
  }

  /** The running total is the sum of the entries, and not just modulo 2^32, exactly below 4 GB. */
  lemma TotalExactly(t: seq<Seg>)
    ensures Wrap(SumLen(t)) == SumLen(t) <==> SumLen(t) < TWO32
  {
    hide Wrap;
    WrapIs(SumLen(t));
  }

  /** INC of 2 GB and STOP, run from an empty table: the interpreter accepts it, and try_buffer agrees
      with any buffer, however short. */
  lemma TwoGigabytesPass(s: State, ptr: uint32, length: nat)
    requires s.table == [] && s.total == 0 && s.pc + 20 <= TWO32
    requires Opcode(s.mem, s.pc) == SC_INC && PtrField(s.mem, s.pc) == ptr && LenField(s.mem, s.pc) == TWO31
    requires Opcode(s.mem, s.pc + 10) == SC_STOP
    ensures var out := Run(s, 2);
      && out.Done? && out.result == 0 && out.s.table == [Seg(ptr, TWO31)]
      && SumLen(out.s.table) == TWO31 == out.s.total
      && Signed(out.s.total) <= length == RoomFor(out.s.total, length)
      && !AgreementSuffices(SumLen(out.s.table))
  {
    hide Write32, Read32, Read16, Opcode, PtrField, LenField, Step, Run, Wrap, AgreementSuffices;
    var m := Write32(s.mem, s.pc + 2, Wrap(ptr + TWO31));
    StepShape(s);
    WrapIs(TWO31);
    WrapIs(s.pc + 10);
    var s' := State(m, s.pc + 10, [Seg(ptr, TWO31)], TWO31);
    assert Step(s) == Continue(s');
    ApartInLine(s.pc + 2, s.pc + 10, 2);
    StopStays(s.mem, s.pc, Wrap(ptr + TWO31));
    RunFirst(s, 2);
    RunStop(s');
    assert [Seg(ptr, TWO31)] == [] + [Seg(ptr, TWO31)];
    DenoteSnoc([], Seg(ptr, TWO31));
    BufferSufficesExactly(TWO31);
  }

  lemma StopStays(m: Memory, pc: int, v: uint32)
    requires Apart(pc + 2, pc + 10, 2)
    ensures Opcode(Write32(m, pc + 2, v), pc + 10) == Opcode(m, pc + 10)
  {
    hide Write32, Read16, Apart;
    UnchangedWords(m, pc + 2, v, pc + 10, 2);
  }

  // ---- The manager ----

  class ScsiManager {
    var phase: Phase
    var fakeStatus: uint16
    var reading: bool
    var targetId: int
    var sgIndex: nat
    var sgTotalLength: uint32
    const sgPtr: array<int>
    const sgLen: array<int>
    const ram: array<byte>
    // Host side
    var buffer: array<byte>
    var cmdBuffer: seq<byte>
    var lun: int
    ghost const Repr: set<object>

    ghost predicate Shape()
      reads this, Repr
    {
      && Repr == {this, sgPtr, sgLen, ram}
      && sgPtr != sgLen && sgPtr.Length == SG_TABLE_SIZE && sgLen.Length == SG_TABLE_SIZE
      && ram.Length == TWO32 && buffer !in Repr && buffer.Length < TWO31
      && sgIndex <= SG_TABLE_SIZE
      && forall i :: 0 <= i < sgIndex ==> 0 <= sgPtr[i] < TWO32 && 0 <= sgLen[i] < TWO32
    }

    /** The used part of the scatter/gather table. */
    ghost function Table(): (t: seq<Seg>)
      requires Shape()
      reads this, Repr
      ensures |t| == sgIndex
    {
      seq(sgIndex, i requires 0 <= i < sgIndex && Shape() reads this, Repr => Seg(sgPtr[i], sgLen[i]))
    }

    /** While the bus is not free the running total is the sum of the entry lengths, modulo 2^32. */
    ghost predicate Valid()
      reads this, Repr
    {
      Shape() && (phase != Free ==> sgTotalLength == Wrap(SumLen(Table())))
    }

    ghost function Tib(pc: uint32): State
      requires Shape()
      reads this, Repr
    {
      State(ram[..], pc, Table(), sgTotalLength)
    }

    constructor (bufferSize: nat)
      requires bufferSize < TWO31
      ensures Valid() && phase == Free && fakeStatus == 0 && sgIndex == 0
      ensures fresh(Repr) && fresh(buffer) && buffer.Length == bufferSize
    {
      var p, l := new int[SG_TABLE_SIZE], new int[SG_TABLE_SIZE];
      var r := new byte[TWO32];
      sgPtr, sgLen, ram := p, l, r;
      buffer := new byte[bufferSize];
      phase, fakeStatus, reading, targetId, sgIndex, sgTotalLength := Free, 0, false, 8, 0, 0;
      cmdBuffer, lun := [], 0;
      Repr := {this, p, l, r};
    }

    /** SCSIReset leaves the total of the aborted transfer behind; the next SCSIGet clears it. */
    method SCSIReset() returns (err: int)
      requires Valid()
      modifies this
      ensures Valid() && err == 0 && phase == Free && fakeStatus == 0 && sgIndex == 0 && targetId == 8
      ensures buffer == old(buffer) && reading == old(reading) && sgTotalLength == old(sgTotalLength)
    {
      phase, fakeStatus, sgIndex, targetId := Free, 0x0000, 0, 8;
      return 0;
    }

    method SCSIGet() returns (err: int)
      requires Valid()
      modifies this
      ensures Valid() && buffer == old(buffer) && targetId == old(targetId)
      ensures old(phase) != Free ==> err == 7 && unchanged(this)
      ensures old(phase) == Free ==>
        err == 0 && phase == Arbitrated && fakeStatus == 0x0040 && !reading && Table() == [] && sgTotalLength == 0
    {
      if phase != Free {
        return SC_MGR_BUSY_ERR;
      }
      phase, fakeStatus, reading, sgIndex, sgTotalLength := Arbitrated, 0x0040, false, 0, 0;
      return 0;
    }

    /** `present` stands for the host's answer whether a device has this id. */
    method SCSISelect(id: int, present: bool) returns (err: int)
      requires Valid()
      modifies this
      ensures Valid() && buffer == old(buffer) && Table() == old(Table()) && sgTotalLength == old(sgTotalLength)
      ensures reading == old(reading)
      ensures old(phase) != Arbitrated ==> err == 8 && unchanged(this)
      ensures old(phase) == Arbitrated && !(0 <= id <= 7) ==> err == 4 && unchanged(this)
      ensures old(phase) == Arbitrated && 0 <= id <= 7 ==>
        && targetId == id
        && if present then err == 0 && phase == Selected && fakeStatus == 0x006a
           else err == 2 && phase == Free && fakeStatus == 0
    {
      if phase != Arbitrated {
        return SC_SEQUENCE_ERR;
      }
      if id < 0 || id > 7 {
        return SC_BAD_PARMS_ERR;
      }
      targetId := id;
      if !present {
        phase, fakeStatus := Free, 0x0000;
        return SC_COMM_ERR;
      }
      phase, fakeStatus := Selected, 0x006a;
      assert Table() == old(Table());
      return 0;
    }

    /** The command goes to the host, which is asked for the target with the LUN in bits 5 to 7 of its
        second byte; `accepted` stands for the host's answer. */
    method SCSICmd(cmdLength: int, cmd: seq<byte>, accepted: bool) returns (err: int)
      requires Valid() && (cmdLength in {6, 10, 12} ==> cmdLength <= |cmd|)
      modifies this
      ensures Valid() && buffer == old(buffer) && Table() == old(Table()) && sgTotalLength == old(sgTotalLength)
      ensures reading == old(reading) && targetId == old(targetId)
      ensures old(phase) != Selected ==> err == 5 && unchanged(this)
      ensures old(phase) == Selected && cmdLength !in {6, 10, 12} ==> err == 4 && unchanged(this)
      ensures old(phase) == Selected && cmdLength in {6, 10, 12} ==>
        && cmdBuffer == cmd[..cmdLength] && lun == cmd[1] as int / 0x20
        && if accepted then err == 0 && phase == InTransfer && fakeStatus == 0x006e
           else err == 2 && phase == Free && fakeStatus == 0
    {
      if phase != Selected {
        return SC_PHASE_ERR;
      }
      if cmdLength != 6 && cmdLength != 10 && cmdLength != 12 {
        return SC_BAD_PARMS_ERR;
      }
      cmdBuffer, lun := cmd[..cmdLength], cmd[1] as int / 0x20 % 8;
      if !accepted {
        phase, fakeStatus := Free, 0x0000;
        return SC_COMM_ERR;
      }
      phase, fakeStatus := InTransfer, 0x006e;
      assert Table() == old(Table());
      return 0;
    }

    method WriteMacInt32(a: int, v: uint32)
      requires Shape()
      modifies ram
      ensures Shape() && ram[..] == Write32(old(ram[..]), a, v) && Table() == old(Table())
    {
      ram[Wrap(a)] := Byte(v, 0x100_0000);
      ram[Wrap(a + 1)] := Byte(v, 0x1_0000);
      ram[Wrap(a + 2)] := Byte(v, 0x100);
      ram[Wrap(a + 3)] := Byte(v, 1);
    }

    method WriteMacInt16(a: int, v: uint16)
      requires Shape()
      modifies ram
      ensures Shape() && ram[..] == Write16(old(ram[..]), a, v) && Table() == old(Table())
    {
      ram[Wrap(a)] := Hi(v);
      ram[Wrap(a + 1)] := Lo(v);
    }

    method ReadMacInt32(a: int) returns (v: uint32)
      requires Shape()
      ensures v == Read32(ram[..], a)
    {
      v := ((ram[Wrap(a)] as int * 0x100 + ram[Wrap(a + 1)] as int) * 0x100 + ram[Wrap(a + 2)] as int) * 0x100 + ram[Wrap(a + 3)] as int;
    }

    /** The scatter/gather part of INC and NOINC. */
    method AddSegment(ptr: uint32, len: uint32) returns (full: bool)
      requires Shape()
      modifies this`sgIndex, this`sgTotalLength, sgPtr, sgLen
      ensures Shape() && ram[..] == old(ram[..])
      ensures match AddSeg(old(Table()), Seg(ptr, len))
        case None => full && Table() == old(Table()) && sgTotalLength == old(sgTotalLength)
        case Some(t) => !full && Table() == t && sgTotalLength == Wrap(old(sgTotalLength) + len)
    {
      if sgIndex > 0 && ptr == Wrap(sgPtr[sgIndex - 1] + sgLen[sgIndex - 1]) {
        sgLen[sgIndex - 1] := Wrap(sgLen[sgIndex - 1] + len);
      } else {
        if sgIndex == SG_TABLE_SIZE {
          return true;
        }
        sgPtr[sgIndex] := ptr;
        sgLen[sgIndex] := len;
        sgIndex := sgIndex + 1;
      }
      sgTotalLength := Wrap(sgTotalLength + len);
      return false;
    }

    /** The opcodes that change memory or the program counter only. */
    method ExecArithmetic(pc: uint32, cmd: nat, ptr: uint32, len: uint32) returns (next: uint32)
      requires Shape() && SC_ADD <= cmd <= SC_LOOP
      requires cmd == Opcode(ram[..], pc) && ptr == PtrField(ram[..], pc) && len == LenField(ram[..], pc)
      modifies ram
      ensures Shape() && Step(old(Tib(pc))) == Continue(Tib(next))
    {
      hide Write32, Read32, Read16, AddSeg;
      next := Wrap(pc + 10);
      if cmd == SC_ADD {
        var v: int := ReadMacInt32(ptr);
        WriteMacInt32(ptr, Wrap(v + len));
      } else if cmd == SC_MOVE {
        var v := ReadMacInt32(ptr);
        WriteMacInt32(len, v);
      } else {
        WriteMacInt32(pc + 6, Wrap(len - 1));
        if Wrap(len - 1) > 0 {
          next := Wrap(pc + ptr);
        }
      }
    }

    /** INC and NOINC. */
    method ExecMove(pc: uint32, cmd: nat, ptr: uint32, len: uint32) returns (full: bool)
      requires Shape() && SC_INC <= cmd <= SC_NO_INC
      requires cmd == Opcode(ram[..], pc) && ptr == PtrField(ram[..], pc) && len == LenField(ram[..], pc)
      modifies this`sgIndex, this`sgTotalLength, sgPtr, sgLen, ram
      ensures Shape()
      ensures match Step(old(Tib(pc)))
        case Done(s, r) => full && r == -108 && Tib(s.pc) == s
        case Continue(s) => !full && s.pc == Wrap(pc + 10) && Tib(s.pc) == s
    {
      hide Write32, Read32, Read16, AddSeg;
      if cmd == SC_INC {
        WriteMacInt32(pc + 2, Wrap(ptr + len));
      }
      full := AddSegment(ptr, len);
    }

    /** One pass of the interpreter loop; `stop` says that the loop returns `err`. */
    method ExecOpcode(pc: uint32) returns (stop: bool, err: int, next: uint32)
      requires Shape()
      modifies this`sgIndex, this`sgTotalLength, sgPtr, sgLen, ram
      ensures Shape()
      ensures match Step(old(Tib(pc)))
        case Done(s, r) => stop && err == r && Tib(s.pc) == s
        case Continue(s) => !stop && next == s.pc && Tib(next) == s
    {
      hide Write32, Read32, AddSeg;
      var cmd := ram[Wrap(pc)] as int * 0x100 + ram[Wrap(pc + 1)] as int;
      var ptr: int := ReadMacInt32(pc + 2);
      var len: int := ReadMacInt32(pc + 6);
      next := Wrap(pc + 10);
      stop, err := false, 0;
      if cmd == SC_INC || cmd == SC_NO_INC {
        stop := ExecMove(pc, cmd, ptr, len);
        err := if stop then MEM_FULL_ERR else 0;
      } else if cmd == SC_ADD || cmd == SC_MOVE || cmd == SC_LOOP {
        next := ExecArithmetic(pc, cmd, ptr, len);
      } else if cmd == SC_NOP {
      } else if cmd == SC_STOP {
        return true, 0, next;
      } else if cmd == SC_COMP {
        return true, SC_COMPARE_ERR, next;
      } else {
        return true, SC_BAD_PARMS_ERR, next;
      }
    }

    /** exec_tib, for at most `fuel` opcodes; None when it is still running then. */
    method ExecTib(tib: uint32, fuel: nat) returns (err: Option<int>)
      requires Shape()
      modifies this`sgIndex, this`sgTotalLength, sgPtr, sgLen, ram
      ensures Shape()
      ensures match Run(old(Tib(tib)), fuel)
        case Done(s, r) => err == Some(r) && Tib(s.pc) == s
        case Continue(s) => err == None && Tib(s.pc) == s
    {
      hide Step, Run;
      ghost var s0 := Tib(tib);
      var pc, n := tib, 0;
      NoSteps(s0);
      while n < fuel
        invariant 0 <= n <= fuel && Shape()
        invariant Run(s0, fuel) == Run(Tib(pc), fuel - n)
      {
        RunFirst(Tib(pc), fuel - n);
        var stop, r, next := ExecOpcode(pc);
        if stop {
          return Some(r);
        }
        pc := next;
        n := n + 1;
      }
      NoSteps(Tib(pc));
      return None;
    }

    /** SCSIRead and SCSIWrite: only a read sets the direction flag. */
    method SCSITransfer(tib: uint32, isRead: bool, fuel: nat) returns (err: Option<int>)
      requires Valid()
      modifies this`reading, this`sgIndex, this`sgTotalLength, sgPtr, sgLen, ram
      ensures Valid()
      ensures old(phase) != InTransfer ==> err == Some(5) && Tib(tib) == old(Tib(tib)) && reading == old(reading)
      ensures old(phase) == InTransfer ==>
        && reading == (isRead || old(reading))
        && match Run(old(Tib(tib)), fuel)
           case Done(s, r) => err == Some(r) && Tib(s.pc) == s
           case Continue(s) => err == None && Tib(s.pc) == s
    {
      if phase != InTransfer {
        return Some(SC_PHASE_ERR);
      }
      ghost var s0 := Tib(tib);
      TotalIsSum(s0, fuel);
      if isRead {
        reading := true;
      }
      assert Tib(tib) == s0;
      err := ExecTib(tib, fuel);
    }

    /** memcpy from Mac memory into the transfer buffer. */
    method CopyIn(ptr: uint32, at: nat, len: nat)
      requires Shape() && at + len <= buffer.Length
      modifies buffer
      ensures buffer[..] == Overwrite(old(buffer[..]), at, Gather(ram[..], Range(ptr, len)))
    {
      var i := 0;
      while i < len
        invariant 0 <= i <= len
        invariant buffer[..] == Overwrite(old(buffer[..]), at, Gather(ram[..], Range(ptr, i)))
      {
        buffer[at + i] := ram[Wrap(ptr + i)];
        i := i + 1;
      }
    }

    /** memcpy from the transfer buffer to Mac memory. */
    method CopyOut(ptr: uint32, at: nat, len: nat)
      requires Shape() && at + len <= buffer.Length
      modifies ram
      ensures ram[..] == Scatter(old(ram[..]), Range(ptr, len), buffer[at..at + len])
      ensures Shape() && Table() == old(Table())
    {
      hide Range;
      ghost var m0 := ram[..];
      var i := 0;
      while i < len
        invariant 0 <= i <= len
        invariant ram[..] == Scatter(m0, Range(ptr, i), buffer[at..at + i])
      {
        RangeSnoc(ptr, i);
        assert buffer[at..at + i + 1][..i] == buffer[at..at + i];
        ram[Wrap(ptr + i)] := buffer[at + i];
        i := i + 1;
      }
    }

    /** The gather loop. A copy that would leave the buffer ends it: nothing is known of what follows. */
    method GatherSegments() returns (overran: bool)
      requires Shape()
      modifies buffer
      ensures Shape() && Table() == old(Table()) && |Denote(Table())| == SumLen(Table())
      ensures overran <==> SumLen(Table()) > buffer.Length
      ensures !overran ==> buffer[..] == Overwrite(old(buffer[..]), 0, Gather(ram[..], Denote(Table())))
    {
      hide Overwrite, Gather, Range, Denote, SumLen;
      ghost var t, m, b0 := Table(), ram[..], buffer[..];
      var bufferPtr, i := 0, 0;
      DenoteNone();
      DenoteLength(t);
      assert t[..0] == [] && t[..sgIndex] == t;
      while i < sgIndex
        invariant 0 <= i <= sgIndex && Table() == t
        invariant bufferPtr == SumLen(t[..i]) == |Denote(t[..i])| <= SumLen(t)
        invariant bufferPtr <= buffer.Length && buffer[..] == Overwrite(b0, 0, Gather(m, Denote(t[..i])))
      {
        DenoteNext(t, i);
        SumLenGrows(t, i + 1);
        DenoteLength(t[..i + 1]);
        var len := sgLen[i];
        if bufferPtr + len > buffer.Length {
          return true;
        }
        CopyIn(sgPtr[i], bufferPtr, len);
        GatherConcat(m, Denote(t[..i]), Range(t[i].ptr, t[i].len));
        OverwriteTwice(b0, 0, Gather(m, Denote(t[..i])), Gather(m, Range(t[i].ptr, t[i].len)));
        bufferPtr := bufferPtr + len;
        i := i + 1;
      }
      return false;
    }

    /** The scatter loop, in the same way. */
    method ScatterSegments() returns (overran: bool)
      requires Shape()
      modifies ram
      ensures Shape() && Table() == old(Table()) && |Denote(Table())| == SumLen(Table())
      ensures overran <==> SumLen(Table()) > buffer.Length
      ensures !overran ==> ram[..] == Scatter(old(ram[..]), Denote(Table()), buffer[..SumLen(Table())])
    {
      hide Scatter, Range, Denote, SumLen;
      ghost var t, m0 := Table(), ram[..];
      var bufferPtr, i := 0, 0;
      DenoteNone();
      ScatterNone(m0);
      DenoteLength(t);
      assert t[..0] == [] && t[..sgIndex] == t;
      while i < sgIndex
        invariant 0 <= i <= sgIndex && Shape() && Table() == t
        invariant bufferPtr == SumLen(t[..i]) == |Denote(t[..i])| <= SumLen(t)
        invariant bufferPtr <= buffer.Length && ram[..] == Scatter(m0, Denote(t[..i]), buffer[..bufferPtr])
      {
        DenoteNext(t, i);
        SumLenGrows(t, i + 1);
        DenoteLength(t[..i + 1]);
        var len := sgLen[i];
        if bufferPtr + len > buffer.Length {
          return true;
        }
        CopyOut(sgPtr[i], bufferPtr, len);
        ScatterConcat(m0, Denote(t[..i]), buffer[..bufferPtr], Range(t[i].ptr, t[i].len), buffer[bufferPtr..bufferPtr + len]);
        assert buffer[..bufferPtr] + buffer[bufferPtr..bufferPtr + len] == buffer[..bufferPtr + len];
        bufferPtr := bufferPtr + len;
        i := i + 1;
      }
      return false;
    }

    /** try_buffer; `granted` stands for the answer of the memory allocator. The size is taken as a signed
        number, so one of 2 GB or more passes without a look at the buffer. */
    method TryBuffer(size: uint32, granted: bool) returns (ok: bool)
      requires Shape()
      modifies this`buffer
      ensures Shape() && Table() == old(Table())
      ensures ok <==> Signed(size) <= old(buffer).Length || granted
      ensures ok ==> buffer.Length == RoomFor(size, old(buffer).Length)
      ensures Signed(size) <= old(buffer).Length || !granted ==> buffer == old(buffer)
      ensures buffer != old(buffer) ==> fresh(buffer) && buffer.Length == size && forall i :: 0 <= i < size ==> buffer[i] == 0
    {
      if Signed(size) <= buffer.Length {
        return true;
      }
      if !granted {
        return false;
      }
      buffer := new byte[size](_ => 0);
      assert Table() == old(Table());
      return true;
    }

    /** Whether a copy leaves a buffer of this length: the gather before the command, or the device's
        reply or the scatter after it. */
    ghost predicate Overruns(room: nat, reply: seq<byte>, res: int)
      requires Shape()
      reads this, Repr
    {
      if reading then |reply| > room || (res == 0 && SumLen(Table()) > room) else SumLen(Table()) > room
    }

    /** scsi_send_cmd without direct transfers and autosense. The device answers with `reply` (at most
        the transfer length) and the error code `res`; `sent` is what it is handed on a write. */
    method SendCommand(granted: bool, reply: seq<byte>, res: int) returns (r: Delivery, sent: seq<byte>)
      requires Shape() && sgTotalLength == Wrap(SumLen(Table())) && |reply| <= sgTotalLength
      modifies this`buffer, buffer, ram
      ensures Shape() && Table() == old(Table()) && |Denote(Table())| == SumLen(Table())
      ensures var agreed := Signed(sgTotalLength) <= old(buffer.Length) || granted;
        var room := RoomFor(sgTotalLength, old(buffer.Length));
        r == if !agreed then Failed else if Overruns(room, reply, res) then Overran else if res == 0 then Completed else Failed
      ensures r == Failed ==> ram[..] == old(ram[..])
      ensures !reading && r != Overran && (Signed(sgTotalLength) <= old(buffer.Length) || granted) ==>
        sent == Gather(old(ram[..]), Denote(Table())) && ram[..] == old(ram[..])
      ensures reading && r == Completed ==>
        && sgTotalLength == SumLen(Table()) <= buffer.Length && buffer[..|reply|] == reply
        && ram[..] == Scatter(old(ram[..]), Denote(Table()), buffer[..sgTotalLength])
    {
      hide Scatter, Gather, Denote, SumLen, Overwrite, Wrap;
      sent := [];
      DenoteLength(Table());
      TotalExactly(Table());
      var ok := TryBuffer(sgTotalLength, granted);
      if !ok {
        return Failed, [];
      }
      var overran := false;
      if reading {
        if |reply| > buffer.Length {
          return Overran, [];
        }
        Put(buffer, 0, reply);
        assert buffer[0..0 + |reply|] == buffer[..|reply|];
      } else {
        overran := GatherSegments();
        if overran {
          return Overran, [];
        }
        sent := buffer[..sgTotalLength];
        assert buffer[0..0 + sgTotalLength] == sent;
      }
      if reading && res == 0 {
        overran := ScatterSegments();
        if overran {
          return Overran, [];
        }
      }
      r := if res == 0 then Completed else Failed;
    }

    /** SCSIComplete; the status word `scsiStat` comes from the device, if the command is sent. The call does
        not come back when a copy leaves the buffer. */
    method SCSIComplete(message: uint32, stat: uint32, granted: bool, reply: seq<byte>, res: int, scsiStat: uint16)
        returns (err: int, sent: seq<byte>, overran: bool)
      requires Valid() && (phase == InTransfer ==> |reply| <= sgTotalLength)
      modifies this`phase, this`fakeStatus, this`buffer, buffer, ram
      ensures Valid() && Table() == old(Table())
      ensures old(phase) != InTransfer ==>
        !overran && err == 5 && phase == old(phase) && ram[..] == Write16(old(ram[..]), message, 0)
      ensures old(phase) == InTransfer ==>
        var agreed := Signed(sgTotalLength) <= old(buffer.Length) || granted;
        var done := agreed && res == 0;
        var m := Write16(old(ram[..]), message, 0);
        && (overran <==> agreed && Overruns(RoomFor(sgTotalLength, old(buffer.Length)), reply, res))
        && (!overran ==>
              && phase == Free && fakeStatus == 0 && err == (if done then 0 else 2)
              && (!reading && agreed ==> sent == Gather(m, Denote(Table())))
              && (reading && done ==>
                    sgTotalLength == SumLen(Table()) == |Denote(Table())| <= buffer.Length && buffer[..|reply|] == reply)
              && ram[..] == Write16(if reading && done then Scatter(m, Denote(Table()), buffer[..sgTotalLength]) else m, stat,
                    if agreed then scsiStat else 0))
    {
      hide Write16, Scatter, Gather, Denote, SumLen;
      sent, overran, err := [], false, 0;
      WriteMacInt16(message, 0);
      if phase != InTransfer {
        return SC_PHASE_ERR, [], false;
      }
      var word := if Signed(sgTotalLength) <= buffer.Length || granted then scsiStat else 0;
      var r;
      r, sent := SendCommand(granted, reply, res);
      if r == Overran {
        return 0, [], true;
      }
      WriteMacInt16(stat, word);
      phase, fakeStatus := Free, 0x0000;
      assert Table() == old(Table());
      err := if r == Completed then 0 else SC_COMM_ERR;
    }
  }

  lemma RunFirst(s: State, n: nat)
    requires n > 0
    ensures Run(s, n) == match Step(s) case Done(_, _) => Step(s) case Continue(s') => Run(s', n - 1)
  {
  }

  lemma RangeSnoc(ptr: uint32, i: nat)
    ensures Range(ptr, i + 1)[..i] == Range(ptr, i) && Range(ptr, i + 1)[i] as int == Wrap(ptr + i)
  {
  }

  lemma DenoteNone()
    ensures Denote([]) == [] && SumLen([]) == 0
    ensures forall b: seq<byte>, m: Memory :: Overwrite(b, 0, Gather(m, [])) == b
  {
  }

  lemma ScatterNone(m: Memory)
    ensures Scatter(m, [], []) == m
  {
  }
}
