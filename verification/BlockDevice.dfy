/** Byte-addressed I/O over a block device: the device branches of Sys_read and Sys_write in
    src/AmigaOS-4/sys_amigaos4.cpp. */
module BlockDevice {
  import opened Machine
  import opened Buffers
  import opened Arithmetic

  // ---- The parts of a transfer ----

  /** Bytes of the first, partial block. */
  function Head(pos: nat, length: nat, bs: nat): (h: nat)
    requires bs >= 1
    ensures h <= length
  {
    if pos % bs == 0 then 0 else if bs - pos % bs < length then bs - pos % bs else length
  }

  /** Bytes of the last, partial block. */
  function Tail(pos: nat, length: nat, bs: nat): (t: nat)
    requires bs >= 1
    ensures Head(pos, length, bs) + t <= length
  {
    (length - Head(pos, length, bs)) % bs
  }

  /** The transfer ends on a block boundary or stays inside its first, partial block. */
  predicate NoTail(pos: nat, length: nat, bs: nat)
    requires bs >= 1
  {
    (pos + length) % bs == 0 || (pos % bs != 0 && pos % bs + length <= bs)
  }

  lemma HeadEndsAligned(pos: nat, length: nat, bs: nat)
    requires bs >= 1
    ensures var h := Head(pos, length, bs); h == length || (pos + h) % bs == 0
  {
    DivModOf(pos, bs);
    if pos % bs != 0 && bs - pos % bs < length {
      MulMinus(pos / bs + 1, 1, bs);
      DivModUnique(pos + (bs - pos % bs), bs, pos / bs + 1, 0);
    }
  }

  lemma ModOfSum(a: nat, b: nat, p: nat)
    requires p >= 1 && a % p == 0
    ensures (a + b) % p == b % p
  {
    DivModOf(a, p);
    DivModOf(b, p);
    MulMinus(a / p + b / p, b / p, p);
    DivModUnique(a + b, p, a / p + b / p, b % p);
  }

  lemma TailExactly(pos: nat, length: nat, bs: nat)
    requires bs >= 1
    ensures Tail(pos, length, bs) == 0 <==> NoTail(pos, length, bs)
  {
    var h := Head(pos, length, bs);
    HeadEndsAligned(pos, length, bs);
    if (pos + h) % bs == 0 {
      ModOfSum(pos + h, length - h, bs);
    } else {
      assert h == length && length - h == 0;
      SmallMod(0, bs);
    }
    if pos % bs != 0 && pos % bs + length <= bs {
      assert h == length;
      SmallMod(0, bs);
    }
  }

  // ---- What a successful write leaves behind ----

  /** The device after a write of length bytes of buf at pos that met no error. The copy into the
      last block runs from the block to the caller's buffer, so the tail keeps its old content. */
  function Written(disk: seq<byte>, pos: nat, buf: seq<byte>, length: nat, bs: nat): (r: seq<byte>)
    requires bs >= 1 && length <= |buf| && pos + length <= |disk|
  {
    Overwrite(disk, pos, buf[..length - Tail(pos, length, bs)])
  }

  /** The caller's buffer after that write. */
  function BufferAfter(disk: seq<byte>, pos: nat, buf: seq<byte>, length: nat, bs: nat): (r: seq<byte>)
    requires bs >= 1 && length <= |buf| && pos + length <= |disk|
    ensures |r| == |buf|
  {
    var t := Tail(pos, length, bs);
    Overwrite(buf, length - t, disk[pos + length - t..pos + length])
  }

  /** Every content of a device of whole blocks and every buffer end up as a byte-array write would leave the device. */
  ghost predicate WritesFaithfully(pos: nat, length: nat, bs: nat)
    requires bs >= 1
  {
    forall disk, buf | length <= |buf| && pos + length <= |disk| && |disk| % bs == 0 ::
      Written(disk, pos, buf, length, bs) == Overwrite(disk, pos, buf[..length])
  }

  lemma OverwriteAt(b: seq<byte>, at: nat, p: seq<byte>, i: nat)
    requires at + |p| <= |b| && at <= i < at + |p|
    ensures Overwrite(b, at, p)[i] == p[i - at]
  {
  }

  lemma WholeBlocks(n: nat, bs: nat)
    requires bs >= 1
    ensures n * bs >= n && n * bs % bs == 0
  {
    MulNat(n, bs);
    MulMinus(n * bs, n, 1);
    assert n * bs == n + n * (bs - 1);
    DivModUnique(n * bs, bs, n, 0);
  }

  /** Sys_write is a byte-array write exactly for the transfers without a tail. */
  lemma FaithfulExactlyWithoutTail(pos: nat, length: nat, bs: nat)
    requires bs >= 1
    ensures WritesFaithfully(pos, length, bs) <==> NoTail(pos, length, bs)
  {
    hide Overwrite, NoTail;
    TailExactly(pos, length, bs);
    var t := Tail(pos, length, bs);
    if t > 0 {
      WholeBlocks(pos + length, bs);
      var disk := seq((pos + length) * bs, _ => 0 as byte);
      var buf := seq(length, _ => 1 as byte);
      var at := pos + length - 1;
      assert Written(disk, pos, buf, length, bs)[at] == 0;
      OverwriteAt(disk, pos, buf[..length], at);
    }
  }

  /** One failing input: eight bytes at the start of a device with 512-byte blocks. */
  lemma TailIsLost(disk: seq<byte>, buf: seq<byte>)
    requires |disk| >= 512 && |buf| == 8
    ensures Written(disk, 0, buf, 8, 512) == disk
    ensures BufferAfter(disk, 0, buf, 8, 512) == disk[..8]
  {
    assert Tail(0, 8, 512) == 8;
    assert buf[..0] == [];
  }

  /** A read of the range just written returns what the caller's buffer holds after the write; that
      is what it held before exactly when the tail of the range already had the same content. */
  lemma ReadAfterWrite(disk: seq<byte>, pos: nat, buf: seq<byte>, length: nat, bs: nat)
    requires bs >= 1 && length <= |buf| && pos + length <= |disk|
    ensures var t := Tail(pos, length, bs);
      var back := Written(disk, pos, buf, length, bs)[pos..pos + length];
      && back == BufferAfter(disk, pos, buf, length, bs)[..length]
      && (back == buf[..length] <==> disk[pos + length - t..pos + length] == buf[length - t..length])
  {
    hide Tail;
    var t := Tail(pos, length, bs);
    var back := Written(disk, pos, buf, length, bs)[pos..pos + length];
    assert back == buf[..length - t] + disk[pos + length - t..pos + length];
    assert buf[..length] == buf[..length - t] + buf[length - t..length];
    assert BufferAfter(disk, pos, buf, length, bs)[..length] == back;
    assert back[length - t..] == disk[pos + length - t..pos + length];
    assert buf[..length][length - t..] == buf[length - t..length];
  }

  // ---- The driver ----

  datatype Request = Request(writing: bool, length: nat, offset: nat, ok: bool)

  predicate Aligned(r: Request, bs: nat)
    requires bs >= 1
  {
    r.length > 0 && r.length % bs == 0 && r.offset % bs == 0
  }

  /** The requests behind the first n of a log. */
  predicate AllOk(log: seq<Request>, n: nat) { forall i :: n <= i < |log| ==> log[i].ok }

  predicate AllAligned(log: seq<Request>, n: nat, bs: nat)
    requires bs >= 1
  {
    forall i :: n <= i < |log| ==> Aligned(log[i], bs)
  }

  class FileHandle {
    const disk: array<byte>
    const tmpBuf: array<byte>
    const blockShift: nat
    const startByte: nat
    /** Whether the n-th request fails although it lies on the device. */
    const faulty: nat -> bool
    var log: seq<Request>

    function BlockSize(): nat { Pow2(blockShift) }

    predicate Valid() {
      disk != tmpBuf && tmpBuf.Length == 0x10000 && BlockSize() <= 0x10000
    }

    /** The device has whole blocks, and no request that lies on it fails. */
    ghost predicate Sound() { disk.Length % BlockSize() == 0 && forall n :: !faulty(n) }

    constructor (content: seq<byte>, shift: nat, start: nat, faulty: nat -> bool)
      requires Pow2(shift) <= 0x10000
      ensures Valid() && disk[..] == content && blockShift == shift && startByte == start
      ensures fresh(disk) && fresh(tmpBuf) && log == []
    {
      disk := new byte[|content|](i requires 0 <= i < |content| => content[i]);
      tmpBuf := new byte[0x10000];
      blockShift, startByte, this.faulty := shift, start, faulty;
      log := [];
    }

    /** send_io_request. A request fails beyond the end of the device and wherever the device says so;
        a failing request changes neither the device nor the data. */
    method SendIoRequest(writing: bool, length: nat, offset: nat, data: array<byte>, at: nat) returns (actual: nat)
      requires data != disk && at + length <= data.Length
      modifies this`log, if writing then disk else data
      ensures var ok := offset + length <= disk.Length && !faulty(|old(log)|);
        && log == old(log) + [Request(writing, length, offset, ok)]
        && actual == (if ok then length else 0)
        && (!ok ==> disk[..] == old(disk[..]) && data[..] == old(data[..]))
        && (ok && writing ==> disk[..] == Overwrite(old(disk[..]), offset, data[at..at + length]))
        && (ok && !writing ==> data[..] == Overwrite(old(data[..]), at, disk[offset..offset + length]))
    {
      var ok := offset + length <= disk.Length && !faulty(|log|);
      log := log + [Request(writing, length, offset, ok)];
      if !ok {
        return 0;
      }
      if writing {
        CopyBytes(data, at, disk, offset, length);
      } else {
        CopyBytes(disk, offset, data, at, length);
      }
      return length;
    }

    /** Reads the block at `block` and copies k of its bytes, from `skip` on, to the buffer. */
    method ReadPart(buffer: array<byte>, at: nat, block: nat, skip: nat, k: nat) returns (ok: bool)
      requires Valid() && buffer != disk && buffer != tmpBuf && at + k <= buffer.Length
      requires block % BlockSize() == 0 && skip + k <= BlockSize()
      modifies this`log, tmpBuf, buffer
      ensures old(log) <= log && ok == AllOk(log, |old(log)|) && AllAligned(log, |old(log)|, BlockSize())
      ensures |log| <= |old(log)| + 1 && (Sound() && block + BlockSize() <= disk.Length ==> ok)
      ensures ok ==> block + BlockSize() <= disk.Length
      ensures buffer[..] == if ok then Overwrite(old(buffer[..]), at, disk[block + skip..block + skip + k]) else old(buffer[..])
    {
      hide Pow2;
      var bs := BlockSize();
      var got := SendIoRequest(false, bs, block, tmpBuf, 0);
      SelfMod(bs);
      assert log[|old(log)|].ok == (got != 0);
      if got == 0 {
        return false;
      }
      PartOfBlock(disk[..], block, bs, tmpBuf[..], skip, k);
      CopyBytes(tmpBuf, skip, buffer, at, k);
      return true;
    }

    /** Reads the block at `block`, replaces k of its bytes by those of the buffer and writes it back. */
    method WritePart(buffer: array<byte>, at: nat, block: nat, skip: nat, k: nat) returns (ok: bool)
      requires Valid() && buffer != disk && buffer != tmpBuf && at + k <= buffer.Length
      requires block % BlockSize() == 0 && skip + k <= BlockSize()
      modifies this`log, tmpBuf, disk
      ensures old(log) <= log && ok == AllOk(log, |old(log)|) && AllAligned(log, |old(log)|, BlockSize())
      ensures |log| <= |old(log)| + 2 && (Sound() && block + BlockSize() <= disk.Length ==> ok)
      ensures ok ==> block + BlockSize() <= disk.Length
      ensures disk[..] == if ok then Overwrite(old(disk[..]), block + skip, buffer[at..at + k]) else old(disk[..])
    {
      hide Pow2, Overwrite;
      var bs := BlockSize();
      SelfMod(bs);
      ghost var d := disk[..];
      var got := SendIoRequest(false, bs, block, tmpBuf, 0);
      if got == 0 {
        assert !log[|old(log)|].ok;
        return false;
      }
      ghost var b0 := tmpBuf[..];
      assert b0[..bs] == d[block..block + bs];
      CopyBytes(buffer, at, tmpBuf, skip, k);
      ghost var data := buffer[at..at + k];
      ghost var patched := tmpBuf[..];
      got := SendIoRequest(true, bs, block, tmpBuf, 0);
      PatchBlock(d, block, bs, b0, skip, data);
      assert patched[0..0 + bs] == patched[..bs];
      assert log[|old(log)| + 1].ok == (got != 0);
      return got != 0;
    }

    /** The last, partial block of Sys_write as it is written: the block is copied to the buffer. */
    method WriteTail(buffer: array<byte>, at: nat, block: nat, k: nat) returns (ok: bool)
      requires Valid() && buffer != disk && buffer != tmpBuf && at + k <= buffer.Length
      requires block % BlockSize() == 0 && k <= BlockSize()
      modifies this`log, tmpBuf, disk, buffer
      ensures old(log) <= log && ok == AllOk(log, |old(log)|) && AllAligned(log, |old(log)|, BlockSize())
      ensures |log| <= |old(log)| + 2 && (Sound() && block + BlockSize() <= disk.Length ==> ok)
      ensures disk[..] == old(disk[..])
      ensures ok ==> block + BlockSize() <= disk.Length && buffer[..] == Overwrite(old(buffer[..]), at, disk[block..block + k])
      ensures forall i :: 0 <= i < at || at + k <= i < buffer.Length ==> buffer[i] == old(buffer[i])
    {
      hide Pow2, Overwrite;
      var bs := BlockSize();
      SelfMod(bs);
      ghost var d := disk[..];
      var got := SendIoRequest(false, bs, block, tmpBuf, 0);
      if got == 0 {
        assert !log[|old(log)|].ok;
        return false;
      }
      assert tmpBuf[..bs] == d[block..block + bs];
      assert tmpBuf[0..0 + k] == tmpBuf[..bs][..k] == d[block..block + k];
      CopyBytes(tmpBuf, 0, buffer, at, k);
      got := SendIoRequest(true, bs, block, tmpBuf, 0);
      assert tmpBuf[0..0 + bs] == d[block..block + bs];
      OverwriteSame(d, block, bs);
      assert log[|old(log)| + 1].ok == (got != 0);
      return got != 0;
    }

    /** The pre-read of Sys_read. */
    method ReadHead(buffer: array<byte>, pos: nat, length: nat) returns (ok: bool, k: nat)
      requires Valid() && buffer != disk && buffer != tmpBuf && length <= buffer.Length
      modifies this`log, tmpBuf, buffer
      ensures old(log) <= log && ok == AllOk(log, |old(log)|) && AllAligned(log, |old(log)|, BlockSize())
      ensures |log| <= |old(log)| + 1 && (Sound() && pos + k <= disk.Length ==> ok)
      ensures k == Head(pos, length, BlockSize())
      ensures ok && k > 0 ==> pos + k <= disk.Length && buffer[..] == Overwrite(old(buffer[..]), 0, disk[pos..pos + k])
      ensures !ok || k == 0 ==> buffer[..] == old(buffer[..])
    {
      hide Pow2, Overwrite;
      var bs := BlockSize();
      var pre := pos % bs;
      if pre == 0 {
        return true, 0;
      }
      k := bs - pre;
      if k > length {
        k := length;
      }
      BlockInside(pos, bs, disk.Length);
      ModRound(pos, bs);
      ok := ReadPart(buffer, 0, pos - pre, pre, k);
      if k == 0 {
        OverwriteNothing(old(buffer[..]), 0);
      }
    }

    /** The main read of Sys_read: whole blocks straight into the buffer. */
    method ReadMain(buffer: array<byte>, at: nat, pos: nat, rest: nat) returns (ok: bool, k: nat)
      requires Valid() && buffer != disk && buffer != tmpBuf && at + rest <= buffer.Length && rest < TWO32
      requires pos % BlockSize() == 0 || rest == 0
      modifies this`log, buffer
      ensures old(log) <= log && ok == AllOk(log, |old(log)|) && AllAligned(log, |old(log)|, BlockSize())
      ensures |log| <= |old(log)| + 1 && (Sound() && pos + rest <= disk.Length ==> ok)
      ensures k == rest - rest % BlockSize()
      ensures ok && k > 0 ==> pos + k <= disk.Length && buffer[..] == Overwrite(old(buffer[..]), at, disk[pos..pos + k])
      ensures !ok || k == 0 ==> buffer[..] == old(buffer[..])
    {
      hide Pow2, Overwrite, And;
      var bs := BlockSize();
      if rest < bs {
        SmallMod(rest, bs);
        return true, 0;
      }
      RoundDown(rest, blockShift);
      ModRound(rest, bs);
      k := And(rest, TWO32 - bs);
      var got := SendIoRequest(false, k, pos, buffer, at);
      assert log[|old(log)|].ok == (got != 0);
      ok := got != 0;
    }

    /** The post-read of Sys_read. */
    method ReadTail(buffer: array<byte>, at: nat, pos: nat, rest: nat) returns (ok: bool)
      requires Valid() && buffer != disk && buffer != tmpBuf && at + rest <= buffer.Length
      requires rest < BlockSize() && (pos % BlockSize() == 0 || rest == 0)
      modifies this`log, tmpBuf, buffer
      ensures old(log) <= log && ok == AllOk(log, |old(log)|) && AllAligned(log, |old(log)|, BlockSize())
      ensures |log| <= |old(log)| + 1 && (Sound() && pos + rest <= disk.Length ==> ok)
      ensures ok && rest > 0 ==> pos + rest <= disk.Length && buffer[..] == Overwrite(old(buffer[..]), at, disk[pos..pos + rest])
      ensures !ok || rest == 0 ==> buffer[..] == old(buffer[..])
    {
      hide Pow2, Overwrite;
      if rest == 0 {
        return true;
      }
      BlockInside(pos, BlockSize(), disk.Length);
      ok := ReadPart(buffer, at, pos, 0, rest);
    }

    /** Pre- and main read: everything in front of the last block. */
    method ReadFront(buffer: array<byte>, pos: nat, length: nat) returns (ok: bool, k: nat)
      requires Valid() && buffer != disk && buffer != tmpBuf && length <= buffer.Length && length < TWO32
      modifies this`log, tmpBuf, buffer
      ensures old(log) <= log && ok == AllOk(log, |old(log)|) && AllAligned(log, |old(log)|, BlockSize())
      ensures |log| <= |old(log)| + 2 && (Sound() && pos + length <= disk.Length ==> ok)
      ensures ok ==> length - BlockSize() < k <= length && ((pos + k) % BlockSize() == 0 || k == length)
      ensures ok && k > 0 ==> pos + k <= disk.Length && buffer[..] == Overwrite(old(buffer[..]), 0, disk[pos..pos + k])
      ensures ok && k == 0 ==> buffer[..] == old(buffer[..])
      ensures forall i :: length <= i < buffer.Length ==> buffer[i] == old(buffer[i])
    {
      hide Pow2, Overwrite, AllOk, AllAligned, Head;
      ghost var log0, b0 := log, buffer[..];
      var bs := BlockSize();
      HeadEndsAligned(pos, length, bs);
      var h, m;
      ok, h := ReadHead(buffer, pos, length);
      ghost var log1, b1 := log, buffer[..];
      EndsAligned(pos + h, length - h, bs);
      if !ok {
        return false, 0;
      }
      ok, m := ReadMain(buffer, h, pos + h, length - h);
      JoinLogs(log0, log1, log, bs);
      if !ok {
        return false, h;
      }
      JoinReads(disk[..], pos, 0, h, m, b0, b1, buffer[..]);
      return true, h + m;
    }

    /** Sys_read: on success the bytes of the device, otherwise 0 is returned. */
    method SysRead(buffer: array<byte>, offset: nat, length: nat) returns (actual: nat)
      requires Valid() && buffer != disk && buffer != tmpBuf && length <= buffer.Length && length < TWO32
      modifies this`log, tmpBuf, buffer
      ensures old(log) <= log && AllAligned(log, |old(log)|, BlockSize())
      ensures actual == if AllOk(log, |old(log)|) then length else 0
      ensures |log| <= |old(log)| + 3 && (Sound() && offset + startByte + length <= disk.Length ==> actual == length)
      ensures AllOk(log, |old(log)|) && length > 0 ==>
        && offset + startByte + length <= disk.Length
        && buffer[..] == Overwrite(old(buffer[..]), 0, disk[offset + startByte..offset + startByte + length])
      ensures forall i :: length <= i < buffer.Length ==> buffer[i] == old(buffer[i])
    {
      hide Pow2, Overwrite, AllOk, AllAligned;
      ghost var log0, b0 := log, buffer[..];
      var pos := offset + startByte;
      var ok, k := ReadFront(buffer, pos, length);
      ghost var log2, b2 := log, buffer[..];
      if !ok {
        return 0;
      }
      ok := ReadTail(buffer, k, pos + k, length - k);
      JoinLogs(log0, log2, log, BlockSize());
      if !ok {
        return 0;
      }
      JoinReads(disk[..], pos, 0, k, length - k, b0, b2, buffer[..]);
      return length;
    }

    /** The pre-write of Sys_write: read, patch and write back the first block. */
    method WriteHead(buffer: array<byte>, pos: nat, length: nat) returns (ok: bool, k: nat)
      requires Valid() && buffer != disk && buffer != tmpBuf && length <= buffer.Length
      modifies this`log, tmpBuf, disk
      ensures old(log) <= log && ok == AllOk(log, |old(log)|) && AllAligned(log, |old(log)|, BlockSize())
      ensures |log| <= |old(log)| + 2 && (Sound() && pos + k <= disk.Length ==> ok)
      ensures k == Head(pos, length, BlockSize())
      ensures ok && k > 0 ==> pos + k <= disk.Length && disk[..] == Overwrite(old(disk[..]), pos, buffer[0..k])
      ensures !ok || k == 0 ==> disk[..] == old(disk[..])
    {
      hide Pow2, Overwrite;
      var bs := BlockSize();
      var pre := pos % bs;
      if pre == 0 {
        return true, 0;
      }
      k := bs - pre;
      if k > length {
        k := length;
      }
      BlockInside(pos, bs, disk.Length);
      ModRound(pos, bs);
      ok := WritePart(buffer, 0, pos - pre, pre, k);
      if ok && k == 0 {
        OverwriteNothing(old(disk[..]), pos);
      }
    }

    /** The main write of Sys_write. */
    method WriteMain(buffer: array<byte>, at: nat, pos: nat, rest: nat) returns (ok: bool, k: nat)
      requires Valid() && buffer != disk && buffer != tmpBuf && at + rest <= buffer.Length && rest < TWO32
      requires pos % BlockSize() == 0 || rest == 0
      modifies this`log, disk
      ensures old(log) <= log && ok == AllOk(log, |old(log)|) && AllAligned(log, |old(log)|, BlockSize())
      ensures |log| <= |old(log)| + 1 && (Sound() && pos + rest <= disk.Length ==> ok)
      ensures k == rest - rest % BlockSize()
      ensures ok && k > 0 ==> pos + k <= disk.Length && disk[..] == Overwrite(old(disk[..]), pos, buffer[at..at + k])
      ensures !ok || k == 0 ==> disk[..] == old(disk[..])
    {
      hide Pow2, Overwrite, And;
      var bs := BlockSize();
      if rest < bs {
        SmallMod(rest, bs);
        return true, 0;
      }
      RoundDown(rest, blockShift);
      ModRound(rest, bs);
      k := And(rest, TWO32 - bs);
      var got := SendIoRequest(true, k, pos, buffer, at);
      assert log[|old(log)|].ok == (got != 0);
      ok := got != 0;
    }

    /** Pre- and main write: everything in front of the tail. */
    method WriteFront(buffer: array<byte>, pos: nat, length: nat) returns (ok: bool, done: nat)
      requires Valid() && buffer != disk && buffer != tmpBuf && length <= buffer.Length && length < TWO32
      modifies this`log, tmpBuf, disk
      ensures old(log) <= log && ok == AllOk(log, |old(log)|) && AllAligned(log, |old(log)|, BlockSize())
      ensures |log| <= |old(log)| + 3 && (Sound() && pos + length <= disk.Length ==> ok)
      ensures done <= length - Tail(pos, length, BlockSize())
      ensures ok ==> done == length - Tail(pos, length, BlockSize())
      ensures (pos + done) % BlockSize() == 0 || done == length || !ok
      ensures done > 0 ==> pos + done <= disk.Length
      ensures disk[..] == if done == 0 then old(disk[..]) else Overwrite(old(disk[..]), pos, buffer[..done])
    {
      hide Pow2, Overwrite, AllOk, AllAligned, Head;
      ghost var log0, b0, d0 := log, buffer[..], disk[..];
      var bs := BlockSize();
      HeadEndsAligned(pos, length, bs);
      var h;
      ok, h := WriteHead(buffer, pos, length);
      ghost var log1, d1 := log, disk[..];
      EndsAligned(pos + h, length - h, bs);
      if !ok {
        return false, 0;
      }
      assert buffer[0..h] == buffer[..h] == b0[..h];
      var m;
      ok, m := WriteMain(buffer, h, pos + h, length - h);
      JoinLogs(log0, log1, log, bs);
      if !ok {
        return false, h;
      }
      assert buffer[h..h + m] == b0[h..h + m];
      JoinWrites(d0, pos, h, m, b0, d1, disk[..]);
      assert buffer[..h + m] == b0[..h + m];
      return true, h + m;
    }

    /** Sys_write. When every request succeeds, device and buffer are what Written and BufferAfter
        say and the length is returned; otherwise 0 is returned and at most a prefix of the bytes in
        front of the tail has been written. No other byte of the device ever changes. */
    method SysWrite(buffer: array<byte>, offset: nat, length: nat) returns (actual: nat, ghost done: nat)
      requires Valid() && buffer != disk && buffer != tmpBuf && length <= buffer.Length && length < TWO32
      modifies this`log, tmpBuf, disk, buffer
      ensures old(log) <= log && AllAligned(log, |old(log)|, BlockSize())
      ensures actual == if AllOk(log, |old(log)|) then length else 0
      ensures |log| <= |old(log)| + 5 && (Sound() && offset + startByte + length <= disk.Length ==> actual == length)
      ensures AllOk(log, |old(log)|) && length > 0 ==>
        var pos := offset + startByte;
        && pos + length <= disk.Length
        && disk[..] == Written(old(disk[..]), pos, old(buffer[..]), length, BlockSize())
        && buffer[..] == BufferAfter(old(disk[..]), pos, old(buffer[..]), length, BlockSize())
      ensures done <= length - Tail(offset + startByte, length, BlockSize())
      ensures done > 0 ==> offset + startByte + done <= disk.Length
      ensures disk[..] ==
        if done == 0 then old(disk[..]) else Overwrite(old(disk[..]), offset + startByte, old(buffer[..done]))
      ensures forall i :: 0 <= i < length - Tail(offset + startByte, length, BlockSize()) || length <= i < buffer.Length ==>
        buffer[i] == old(buffer[i])
    {
      hide Pow2, Overwrite, AllOk, AllAligned, Tail, Written, BufferAfter;
      ghost var log0, b0, d0 := log, buffer[..], disk[..];
      var bs := BlockSize();
      var pos := offset + startByte;
      TailBelowBlock(pos, length, bs);
      var ok, k := WriteFront(buffer, pos, length);
      ghost var log2, d2 := log, disk[..];
      done := k;
      assert buffer[..k] == b0[..k];
      if !ok {
        return 0, k;
      }
      var t := length - k;
      if t != 0 {
        BlockInside(pos + k, bs, disk.Length);
        ok := WriteTail(buffer, k, pos + k, t);
        JoinLogs(log0, log2, log, bs);
        if !ok {
          return 0, k;
        }
      } else {
        OverwriteNothing(b0, length);
      }
      TailContent(d0, d2, pos, k, t, b0);
      if length > 0 {
        WholeWrite(d0, pos, b0, length, bs, d2, buffer[..]);
      }
      return length, k;
    }
  }

  /** The block that a byte of a device of whole blocks lies in lies on the device. */
  lemma BlockInside(pos: nat, bs: nat, size: nat)
    requires bs >= 1
    ensures size % bs == 0 && (pos < size || (pos == size && pos % bs != 0)) ==> pos - pos % bs + bs <= size
  {
    DivModOf(pos, bs);
    DivModOf(size, bs);
    var p, q := pos / bs, size / bs;
    if size % bs == 0 && pos <= size {
      MulMinus(p + 1, 1, bs);
      if p >= q {
        MulMinus(p, q, bs);
        MulNat(p - q, bs);
      } else {
        MulMinus(q, p + 1, bs);
        MulNat(q - (p + 1), bs);
      }
    }
  }

  lemma TailBelowBlock(pos: nat, length: nat, bs: nat)
    requires bs >= 1
    ensures Tail(pos, length, bs) < bs
  {
  }

  // ---- Putting the parts together ----

  lemma OverwriteNothing(b: seq<byte>, at: nat)
    requires at <= |b|
    ensures Overwrite(b, at, []) == b
  {
  }

  lemma JoinLogs(a: seq<Request>, b: seq<Request>, c: seq<Request>, bs: nat)
    requires a <= b <= c && bs >= 1
    ensures AllOk(c, |a|) <==> AllOk(b, |a|) && AllOk(c, |b|)
    ensures AllAligned(b, |a|, bs) && AllAligned(c, |b|, bs) ==> AllAligned(c, |a|, bs)
  {
    hide Aligned;
    if !AllOk(b, |a|) {
      var i :| |a| <= i < |b| && !b[i].ok;
      assert !c[i].ok;
    }
  }

  lemma EndsAligned(pos: nat, rest: nat, bs: nat)
    requires bs >= 1 && (pos % bs == 0 || rest == 0)
    ensures var m := rest - rest % bs; 0 <= m && rest - m < bs && ((pos + m) % bs == 0 || rest == 0)
  {
    ModRound(rest, bs);
    if rest > 0 {
      ModAdd(pos, rest - rest % bs, bs);
    }
  }

  lemma JoinReads(d: seq<byte>, pos: nat, at: nat, h: nat, m: nat, b0: seq<byte>, b1: seq<byte>, b2: seq<byte>)
    requires at + h + m <= |b0| == |b1| == |b2|
    requires h > 0 ==> pos + h <= |d| && b1 == Overwrite(b0, at, d[pos..pos + h])
    requires m > 0 ==> pos + h + m <= |d| && b2 == Overwrite(b1, at + h, d[pos + h..pos + h + m])
    requires (h == 0 ==> b1 == b0) && (m == 0 ==> b2 == b1)
    ensures h + m > 0 ==> pos + h + m <= |d| && b2 == Overwrite(b0, at, d[pos..pos + h + m])
    ensures h + m == 0 ==> b2 == b0
    ensures forall i :: at + h + m <= i < |b0| ==> b2[i] == b0[i]
  {
    hide Overwrite;
    if h > 0 && m > 0 {
      OverwriteTwice(b0, at, d[pos..pos + h], d[pos + h..pos + h + m]);
      assert d[pos..pos + h] + d[pos + h..pos + h + m] == d[pos..pos + h + m];
    }
  }

  lemma JoinWrites(d0: seq<byte>, pos: nat, h: nat, m: nat, b: seq<byte>, d1: seq<byte>, d2: seq<byte>)
    requires h + m <= |b| && |d0| == |d1| == |d2|
    requires h > 0 ==> pos + h <= |d0| && d1 == Overwrite(d0, pos, b[..h])
    requires m > 0 ==> pos + h + m <= |d0| && d2 == Overwrite(d1, pos + h, b[h..h + m])
    requires (h == 0 ==> d1 == d0) && (m == 0 ==> d2 == d1)
    ensures h + m > 0 ==> pos + h + m <= |d0| && d2 == Overwrite(d0, pos, b[..h + m])
    ensures h + m == 0 ==> d2 == d0
  {
    if h > 0 && m > 0 {
      OverwriteTwice(d0, pos, b[..h], b[h..h + m]);
      assert b[..h] + b[h..h + m] == b[..h + m];
    }
  }

  lemma TailContent(d0: seq<byte>, d2: seq<byte>, pos: nat, done: nat, t: nat, b0: seq<byte>)
    requires done + t <= |b0| && |d0| == |d2|
    requires t > 0 ==> pos + done + t <= |d0|
    requires done > 0 ==> pos + done <= |d0| && d2 == Overwrite(d0, pos, b0[..done])
    requires done == 0 ==> d2 == d0
    ensures t > 0 ==> d2[pos + done..pos + done + t] == d0[pos + done..pos + done + t]
    ensures done + t > 0 && pos + done + t <= |d0| ==> d2 == Overwrite(d0, pos, b0[..done])
  {
    if done == 0 && t > 0 {
      OverwriteNothing(d0, pos);
      assert b0[..0] == [];
    }
  }

  lemma WholeWrite(d0: seq<byte>, pos: nat, b0: seq<byte>, length: nat, bs: nat, d2: seq<byte>, b2: seq<byte>)
    requires bs >= 1 && 0 < length <= |b0| && pos + length <= |d0|
    requires var k := length - Tail(pos, length, bs); d2 == if k == 0 then d0 else Overwrite(d0, pos, b0[..k])
    requires var k := length - Tail(pos, length, bs);
      b2 == if k == length then b0 else Overwrite(b0, k, d0[pos + k..pos + length])
    ensures d2 == Written(d0, pos, b0, length, bs) && b2 == BufferAfter(d0, pos, b0, length, bs)
  {
    hide Tail, Overwrite;
    var k := length - Tail(pos, length, bs);
    if k == 0 {
      assert b0[..0] == [];
    }
    if k == length {
      OverwriteNothing(b0, length);
      assert d0[pos + k..pos + length] == [];
    }
  }

  lemma SelfMod(p: nat)
    requires p >= 1
    ensures p % p == 0
  {
    DivModUnique(p, p, 1, 0);
  }

  lemma RoundDown(a: nat, k: nat)
    requires a < TWO32 && Pow2(k) <= a
    ensures And(a, TWO32 - Pow2(k)) == a - a % Pow2(k) >= Pow2(k)
    ensures (a - (a - a % Pow2(k))) < Pow2(k)
  {
    hide And, Pow2;
    Pow2Of32();
    if k > 32 {
      Pow2Grows(k, 32);
    }
    MaskRoundsDown(a, 32, k);
    var p := Pow2(k);
    ModRound(a, p);
    DivModOf(a - p, p);
    var q := (a - p) / p;
    MulMinus(q + 1, 1, p);
    DivModUnique(a, p, q + 1, (a - p) % p);
    MulAtLeast(q + 1, p);
  }

  lemma PatchBlock(d: seq<byte>, block: nat, bs: nat, b0: seq<byte>, skip: nat, data: seq<byte>)
    requires block + bs <= |d| && bs <= |b0| && b0[..bs] == d[block..block + bs] && skip + |data| <= bs
    ensures Overwrite(d, block, Overwrite(b0, skip, data)[..bs]) == Overwrite(d, block + skip, data)
  {
    hide Overwrite;
    var patched := Overwrite(b0, skip, data);
    var x, y := Overwrite(d, block, patched[..bs]), Overwrite(d, block + skip, data);
    forall i | 0 <= i < |d|
      ensures x[i] == y[i]
    {
      if block <= i < block + bs {
        OverwriteAt(d, block, patched[..bs], i);
        assert b0[..bs][i - block] == d[block..block + bs][i - block];
        if block + skip <= i < block + skip + |data| {
          OverwriteAt(b0, skip, data, i - block);
          OverwriteAt(d, block + skip, data, i);
        }
      }
    }
  }

  lemma PartOfBlock(d: seq<byte>, block: nat, bs: nat, b: seq<byte>, skip: nat, k: nat)
    requires block + bs <= |d| && bs <= |b| && b[..bs] == d[block..block + bs] && skip + k <= bs
    ensures b[skip..skip + k] == d[block + skip..block + skip + k]
  {
    SliceOfSlice(b, 0, bs, skip, k);
    SliceOfSlice(d, block, bs, skip, k);
  }

  lemma OverwriteSame(d: seq<byte>, block: nat, bs: nat)
    requires block + bs <= |d|
    ensures Overwrite(d, block, d[block..block + bs]) == d
  {
  }
}
