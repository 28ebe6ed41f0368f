/** The row compressor of src/pict.c and the PackBits format (Apple Technical Note TN1023). */
module PackBits {
  import opened Machine
  import opened Buffers

  // ---- The format: an independent decoder ----

  function Replicate(n: nat, b: byte): (r: seq<byte>)
    ensures |r| == n
    ensures forall i :: 0 <= i < n ==> r[i] == b
  {
    seq(n, _ => b)
  }

  function Prepend(front: seq<byte>, rest: Option<seq<byte>>): Option<seq<byte>> {
    match rest
    case None => None
    case Some(t) => Some(front + t)
  }

  /** Length of a packet with the given count byte: 0..127 announce count+1 literal bytes, 129..255
      one byte to be repeated 257-count times, and 128 stands alone. */
  function HeadLength(count: byte): (k: nat)
    ensures k >= 1
  {
    if count < 128 then count as int + 2 else if count == 128 then 1 else 2
  }

  function HeadData(s: seq<byte>): seq<byte>
    requires |s| > 0 && |s| >= HeadLength(s[0])
  {
    if s[0] < 128 then s[1..s[0] as int + 2] else if s[0] == 128 then [] else Replicate(257 - s[0] as int, s[1])
  }

  /** PackBits decoding; None when the data ends inside a packet. */
  function Unpack(s: seq<byte>): Option<seq<byte>> {
    if |s| == 0 then Some([])
    else if |s| < HeadLength(s[0]) then None
    else Prepend(HeadData(s), Unpack(s[HeadLength(s[0])..]))
  }

  // ---- The encoder's specification ----

  /** Size of the length prefix of a packed row. */
  function PrefixSize(n: nat): nat { if n > 250 then 2 else 1 }

  /** What the sizing call answers. */
  function WorstSize(n: nat): nat { PrefixSize(n) + n + (n + 126) / 127 }

  /** Number of repeats after the first byte of a run; `c` is the next position to test. */
  function Matches(row: seq<byte>, c: nat, b: byte, m: nat): (r: nat)
    requires c <= |row| && m <= 127
    ensures m <= r <= 127 && c + (r - m) <= |row|
    decreases |row| - c
  {
    if c < |row| && m < 127 && row[c] == b then Matches(row, c + 1, b, m + 1) else m
  }

  /** Number of literals after the first one; `c` is the position behind that first byte. */
  function Literals(row: seq<byte>, c: nat, l: nat): (r: nat)
    requires c + l <= |row| && l <= 127
    ensures l <= r <= 127 && c + r <= |row|
    decreases 127 - l
  {
    if c + l + 1 < |row| && l < 127 && row[c + l] != row[c + l + 1] then Literals(row, c, l + 1) else l
  }

  function LiteralPacket(row: seq<byte>, c: nat, k: nat): (p: seq<byte>)
    requires 1 <= k <= 128 && c + k <= |row|
    ensures |p| == k + 1
  {
    [(k - 1) as byte] + row[c..c + k]
  }

  predicate StartsRun(row: seq<byte>, c: nat)
    requires c < |row|
  {
    c + 1 < |row| && row[c + 1] == row[c]
  }

  /** The bytes of `row` that the packet starting at `c` covers. */
  function Span(row: seq<byte>, c: nat): (r: nat)
    requires c < |row|
    ensures 1 <= r <= 128 && c + r <= |row|
  {
    if StartsRun(row, c) then Matches(row, c + 2, row[c], 1) + 1 else Literals(row, c + 1, 0) + 1
  }

  function Packet(row: seq<byte>, c: nat): (p: seq<byte>)
    requires c < |row|
    ensures |p| >= 2
  {
    var k := Span(row, c);
    if StartsRun(row, c) then [(257 - k) as byte, row[c]] else LiteralPacket(row, c, k)
  }

  /** Greedy packing of row[c..]. */
  function Greedy(row: seq<byte>, c: nat): seq<byte>
    requires c <= |row|
    decreases |row| - c
  {
    if c == |row| then [] else Packet(row, c) + Greedy(row, c + Span(row, c))
  }

  /** Uncompressed packing of row[c..]: literal packets of up to 128 bytes. */
  function Raw(row: seq<byte>, c: nat): seq<byte>
    requires c <= |row|
    decreases |row| - c
  {
    if c == |row| then []
    else
      var k := if |row| - c > 128 then 128 else |row| - c;
      LiteralPacket(row, c, k) + Raw(row, c + k)
  }

  /** The body of a packed row for a buffer of `size` bytes, or None if the row does not fit. */
  function PackedBody(row: seq<byte>, size: nat): Option<seq<byte>> {
    if PrefixSize(|row|) + |Greedy(row, 0)| <= size then Some(Greedy(row, 0))
    else if size < WorstSize(|row|) then None
    else Some(Raw(row, 0))
  }

  /** The length field as stored: one byte keeps only the low eight bits. */
  function LengthPrefix(n: nat, len: uint16): (p: seq<byte>)
    ensures |p| == PrefixSize(n)
  {
    if n > 250 then [Hi(len), Lo(len)] else [Lo(len)]
  }

  /** Reader of a length field for rows of n bytes. */
  function PrefixValue(n: nat, p: seq<byte>): nat
    requires |p| >= PrefixSize(n)
  {
    if n > 250 then p[0] as int * 0x100 + p[1] as int else p[0] as int
  }

  // ---- Lemmas: what the format promises of those encodings ----

  lemma PrependConcat(x: seq<byte>, y: seq<byte>, o: Option<seq<byte>>)
    ensures Prepend(x, Prepend(y, o)) == Prepend(x + y, o)
  {
    if o.Some? {
      assert x + (y + o.value) == (x + y) + o.value;
    }
  }

  lemma UnpackNothing()
    ensures Unpack([]) == Some([])
  {
  }

  lemma {:induction false} UnpackConcat(a: seq<byte>, b: seq<byte>)
    requires Unpack(a).Some?
    ensures Unpack(a + b) == Prepend(Unpack(a).value, Unpack(b))
  {
    if |a| == 0 {
      assert a + b == b;
      if Unpack(b).Some? {
        assert [] + Unpack(b).value == Unpack(b).value;
      }
    } else {
      var k := HeadLength(a[0]);
      assert (a + b)[k..] == a[k..] + b;
      assert HeadData(a + b) == HeadData(a);
      UnpackConcat(a[k..], b);
      PrependConcat(HeadData(a), Unpack(a[k..]).value, Unpack(b));
    }
  }

  lemma {:induction false} MatchesEqual(row: seq<byte>, c: nat, b: byte, m: nat)
    requires c <= |row| && m <= 127
    ensures forall i :: c <= i < c + (Matches(row, c, b, m) - m) ==> row[i] == b
    decreases |row| - c
  {
    if c < |row| && m < 127 && row[c] == b {
      MatchesEqual(row, c + 1, b, m + 1);
    }
  }

  /** A single complete packet decodes to its data. */
  lemma UnpackOne(p: seq<byte>)
    requires |p| > 0 && |p| == HeadLength(p[0])
    ensures Unpack(p) == Some(HeadData(p))
  {
    assert p[HeadLength(p[0])..] == [];
    assert HeadData(p) + [] == HeadData(p);
  }

  lemma PacketDecodes(row: seq<byte>, c: nat)
    requires c < |row|
    ensures Unpack(Packet(row, c)) == Some(row[c..c + Span(row, c)])
  {
    UnpackOne(Packet(row, c));
    if StartsRun(row, c) {
      MatchesEqual(row, c + 2, row[c], 1);
    }
    assert HeadData(Packet(row, c)) == row[c..c + Span(row, c)];
  }

  /** A packet of row[c..c+k] in front of a packing of row[c+k..] is a packing of row[c..]. */
  lemma PacketThenRest(row: seq<byte>, c: nat, k: nat, p: seq<byte>, rest: seq<byte>)
    requires c + k <= |row|
    requires Unpack(p) == Some(row[c..c + k]) && Unpack(rest) == Some(row[c + k..])
    ensures Unpack(p + rest) == Some(row[c..])
  {
    hide Unpack;
    UnpackConcat(p, rest);
    assert row[c..c + k] + row[c + k..] == row[c..];
  }

  /** Greedy packing loses nothing. */
  lemma {:induction false} GreedyDecodes(row: seq<byte>, c: nat)
    requires c <= |row|
    ensures Unpack(Greedy(row, c)) == Some(row[c..])
    decreases |row| - c
  {
    hide Span, Packet, Unpack;
    GreedyEnds(row);
    if c == |row| {
      UnpackNothing();
      assert row[c..] == [];
    } else {
      var k := Span(row, c);
      GreedyDecodes(row, c + k);
      PacketDecodes(row, c);
      PacketThenRest(row, c, k, Packet(row, c), Greedy(row, c + k));
    }
  }

  lemma LiteralDecodes(row: seq<byte>, c: nat, k: nat)
    requires 1 <= k <= 128 && c + k <= |row|
    ensures Unpack(LiteralPacket(row, c, k)) == Some(row[c..c + k])
  {
    var p := LiteralPacket(row, c, k);
    UnpackOne(p);
    assert HeadData(p) == row[c..c + k];
  }

  /** Uncompressed packing loses nothing and stays within the declared worst case. */
  lemma {:induction false} RawDecodes(row: seq<byte>, c: nat)
    requires c <= |row|
    ensures Unpack(Raw(row, c)) == Some(row[c..])
    ensures |Raw(row, c)| == (|row| - c) + (|row| - c + 127) / 128
    decreases |row| - c
  {
    if c == |row| {
      assert row[c..] == [];
    } else {
      var k := if |row| - c > 128 then 128 else |row| - c;
      RawDecodes(row, c + k);
      LiteralDecodes(row, c, k);
      PacketThenRest(row, c, k, LiteralPacket(row, c, k), Raw(row, c + k));
    }
  }

  lemma RawSize(row: seq<byte>)
    ensures PrefixSize(|row|) + |Raw(row, 0)| <= WorstSize(|row|)
  {
    RawDecodes(row, 0);
  }

  lemma PrefixReadsBack(n: nat, len: uint16, body: seq<byte>)
    requires n <= 250 ==> len < 256
    ensures PrefixValue(n, LengthPrefix(n, len) + body) == len
  {
  }

  /** A buffer of the size the sizing call answers is always enough; whatever the buffer size,
      a row that is packed fits and decodes to the row; and with a buffer no larger than the
      answer of the sizing call the stored length reads back as the packed length. */
  lemma PackedRowRoundTrip(row: seq<byte>, size: nat)
    ensures size >= WorstSize(|row|) ==> PackedBody(row, size).Some?
    ensures PackedBody(row, size).Some? ==>
      var body := PackedBody(row, size).value;
      && PrefixSize(|row|) + |body| <= size
      && Unpack(body) == Some(row)
      && (size <= WorstSize(|row|) && size <= 0xffff ==>
            PrefixValue(|row|, LengthPrefix(|row|, |body|) + body) == |body|)
  {
    GreedyDecodes(row, 0);
    RawDecodes(row, 0);
    assert row[0..] == row;
    if PackedBody(row, size).Some? && size <= WorstSize(|row|) && size <= 0xffff {
      var body := PackedBody(row, size).value;
      PrefixReadsBack(|row|, |body|, body);
    }
  }

  // ---- Where a packet ends ----

  lemma {:induction false} MatchesStop(row: seq<byte>, c: nat, b: byte, m: nat)
    requires c <= |row| && m <= 127
    ensures var r := Matches(row, c, b, m); r == 127 || c + (r - m) == |row| || row[c + (r - m)] != b
    decreases |row| - c
  {
    if c < |row| && m < 127 && row[c] == b {
      MatchesStop(row, c + 1, b, m + 1);
    }
  }

  /** A byte and its right neighbour differ. */
  predicate Differs(row: seq<byte>, i: int) { 0 <= i && i + 1 < |row| && row[i] != row[i + 1] }

  lemma {:induction false} LiteralsStop(row: seq<byte>, c: nat, l: nat)
    requires c + l <= |row| && l <= 127
    ensures var r := Literals(row, c, l);
      && (r == 127 || c + r + 1 >= |row| || row[c + r] == row[c + r + 1])
      && (forall i :: c + l <= i < c + r ==> Differs(row, i))
    decreases 127 - l
  {
    if c + l + 1 < |row| && l < 127 && row[c + l] != row[c + l + 1] {
      LiteralsStop(row, c, l + 1);
    }
  }

  /** Where two equal bytes follow, the packet repeats the byte for the whole run, or for 128 bytes of it. */
  lemma RunPacket(row: seq<byte>, c: nat)
    requires c + 1 < |row| && row[c] == row[c + 1]
    ensures var k := Span(row, c);
      && 2 <= k <= 128 && c + k <= |row|
      && (forall i :: c <= i < c + k ==> row[i] == row[c])
      && (k == 128 || c + k == |row| || row[c + k] != row[c])
      && Packet(row, c) == [(257 - k) as byte, row[c]]
  {
    hide Matches;
    MatchesEqual(row, c + 2, row[c], 1);
    MatchesStop(row, c + 2, row[c], 1);
    assert 2 <= Span(row, c) <= 128;
  }

  /** Everywhere else the packet holds bytes that differ from their neighbours, and ends in front of two
      equal bytes, or after 128 bytes, or with at most one byte left. */
  lemma DifferentPacket(row: seq<byte>, c: nat)
    requires c < |row| && (c + 1 < |row| ==> row[c] != row[c + 1])
    ensures var k := Span(row, c);
      && 1 <= k <= 128 && c + k <= |row|
      && (forall i :: c <= i < c + k ==> Differs(row, i) || i == |row| - 1)
      && (k == 128 || c + k + 1 >= |row| || row[c + k] == row[c + k + 1])
      && Packet(row, c) == [(k - 1) as byte] + row[c..c + k]
  {
    hide Literals;
    LiteralsStop(row, c + 1, 0);
    assert c + 1 < |row| ==> Differs(row, c);
  }

  predicate AllEqual(row: seq<byte>, c: nat) { forall i, j :: c <= i < j < |row| ==> row[i] == row[j] }

  /** n equal bytes take two bytes for every 128 of them. */
  lemma {:induction false} EqualBytesPack(row: seq<byte>, c: nat)
    requires c <= |row| && AllEqual(row, c)
    ensures |Greedy(row, c)| == 2 * ((|row| - c + 127) / 128)
    decreases |row| - c
  {
    hide Span, Packet;
    if c + 1 < |row| {
      RunPacket(row, c);
      var k := Span(row, c);
      assert k == 128 || c + k == |row|;
      EqualBytesPack(row, c + k);
    } else if c < |row| {
      DifferentPacket(row, c);
      EqualBytesPack(row, c + 1);
    }
  }

  /** So 32 transparent black pixels take three bytes, and a row of 251 equal bytes has two length bytes. */
  lemma SmallRows()
    ensures LengthPrefix(128, 2) + Greedy(Replicate(128, 0), 0) == [2, 0x81, 0]
    ensures LengthPrefix(251, 4) + Greedy(Replicate(251, 7), 0) == [0, 4, 0x81, 7, 0x86, 7]
    ensures WorstSize(0) == 1 && WorstSize(127) == 129 && WorstSize(128) == 131 && WorstSize(250) == 253 && WorstSize(251) == 255
  {
    hide Span, Packet;
    var row, wide := Replicate(128, 0), Replicate(251, 7);
    RunPacket(row, 0);
    assert Greedy(row, 0) == Packet(row, 0) + Greedy(row, 128);
    RunPacket(wide, 0);
    RunPacket(wide, 128);
    assert Greedy(wide, 0) == Packet(wide, 0) + Greedy(wide, 128);
    assert Greedy(wide, 128) == Packet(wide, 128) + Greedy(wide, 251);
  }

  /** The fallback is needed: greedy packing alone can exceed the declared worst case. */
  lemma GreedyCanOverflow()
    ensures var row: seq<byte> := [1, 2, 2, 3, 4, 4];
      PrefixSize(|row|) + |Greedy(row, 0)| > WorstSize(|row|)
  {
    var row: seq<byte> := [1, 2, 2, 3, 4, 4];
    assert Span(row, 5) == 1;
    assert Span(row, 4) == 2;
    assert Span(row, 3) == 1;
    assert Span(row, 1) == 2;
    assert Span(row, 0) == 1;
    assert |Greedy(row, 6)| == 0;
    assert |Greedy(row, 4)| == 2;
    assert |Greedy(row, 3)| == 4;
    assert |Greedy(row, 1)| == 6;
  }

  /** A row of equal bytes is compressed whenever two bytes for every 128 of them fit. */
  lemma EqualRowAnswer(row: seq<byte>, size: nat)
    requires AllEqual(row, 0)
    ensures var need := (if |row| > 250 then 2 else 1) + 2 * ((|row| + 127) / 128);
      && (size >= need ==> PackedBody(row, size).Some? && |PackedBody(row, size).value| == need - if |row| > 250 then 2 else 1)
      && (size < need && |row| > 1 ==> PackedBody(row, size) == None)
  {
    hide Greedy;
    EqualBytesPack(row, 0);
    assert |row| > 1 ==> |row| + (|row| + 126) / 127 >= 2 * ((|row| + 127) / 128);
  }

  lemma RawSix()
    ensures Raw([1, 2, 2, 3, 4, 4], 0) == [5, 1, 2, 2, 3, 4, 4]
  {
    var row: seq<byte> := [1, 2, 2, 3, 4, 4];
    RawEnds(row);
    assert LiteralPacket(row, 0, 6) == [5] + row[0..6];
    assert Raw(row, 0) == LiteralPacket(row, 0, 6) + Raw(row, 6);
  }

  /** That row of six bytes takes the fallback, or finds no room. */
  lemma FallbackAnswer()
    ensures PackedBody([1, 2, 2, 3, 4, 4], 8) == Some([5, 1, 2, 2, 3, 4, 4])
    ensures PackedBody([1, 2, 2, 3, 4, 4], 7) == None
  {
    hide Greedy, Raw;
    GreedyCanOverflow();
    RawSix();
  }

  // ---- The C routine ----

  /** Counts the repeats of a run whose second byte has been seen; moves the cursor behind the run. */
  method ScanRun(row: array<byte>, from: nat, b: byte) returns (matches: nat, cursor: nat)
    requires from < row.Length
    ensures matches == Matches(row[..], from + 1, b, 1) && cursor == from + matches
  {
    matches := 1;
    cursor := from + 1;
    while cursor < row.Length && matches < 127 && row[cursor] == b
      invariant 1 <= matches <= 127 && cursor == from + matches <= row.Length
      invariant Matches(row[..], cursor, b, matches) == Matches(row[..], from + 1, b, 1)
    {
      matches := matches + 1;
      cursor := cursor + 1;
    }
  }

  /** Counts the literals that follow the one in front of the cursor. */
  method ScanLiterals(row: array<byte>, cursor: nat) returns (literals: nat)
    requires cursor <= row.Length
    ensures literals == Literals(row[..], cursor, 0)
  {
    literals := 0;
    while cursor + literals + 1 < row.Length && literals < 127 && row[cursor + literals] != row[cursor + literals + 1]
      invariant literals <= 127 && cursor + literals <= row.Length
      invariant Literals(row[..], cursor, literals) == Literals(row[..], cursor, 0)
    {
      literals := literals + 1;
    }
  }

  /** The invariant of the packing loops: what stands behind the prefix, followed by the packing
      of the rest of the row, is the packing of the whole row. */
  lemma GreedyStep(done: seq<byte>, row: seq<byte>, c: nat)
    requires c < |row|
    ensures done + Greedy(row, c) == (done + Packet(row, c)) + Greedy(row, c + Span(row, c))
    ensures |Greedy(row, c)| >= |Packet(row, c)|
  {
  }

  lemma GreedyEnds(row: seq<byte>)
    ensures Greedy(row, |row|) == []
  {
  }

  lemma RawStep(done: seq<byte>, row: seq<byte>, c: nat)
    requires c < |row|
    ensures var k := if |row| - c > 128 then 128 else |row| - c;
      && done + Raw(row, c) == (done + LiteralPacket(row, c, k)) + Raw(row, c + k)
      && |Raw(row, c)| == k + 1 + |Raw(row, c + k)|
  {
  }

  lemma RawEnds(row: seq<byte>)
    ensures Raw(row, |row|) == []
  {
  }

  /** Writes a count byte and the k bytes of row[c..c+k]. */
  method StoreLiteralPacket(row: array<byte>, c: nat, k: nat, outBuf: array<byte>, at: nat)
    requires row != outBuf && 1 <= k <= 128 && c + k <= row.Length && at + k + 1 <= outBuf.Length
    modifies outBuf
    ensures outBuf[..] == Overwrite(old(outBuf[..]), at, LiteralPacket(row[..], c, k))
  {
    hide Overwrite;
    ghost var buf0 := outBuf[..];
    StoreOne(outBuf, at, (k - 1) as byte);
    CopyBytes(row, c, outBuf, at + 1, k);
    OverwriteTwice(buf0, at, [(k - 1) as byte], row[c..c + k]);
    assert row[..][c..c + k] == row[c..c + k];
  }

  /** Writes one packet of row[c..], if there is room, and moves both cursors behind it. */
  method StorePacket(row: array<byte>, c: nat, outBuf: array<byte>, bufSize: nat, at: nat)
      returns (outOfRoom: bool, cursor: nat, cmpCursor: nat)
    requires row != outBuf && c < row.Length && bufSize <= outBuf.Length
    modifies outBuf
    ensures outOfRoom <==> at + |Packet(row[..], c)| > bufSize
    ensures outOfRoom ==> outBuf[..] == old(outBuf[..])
    ensures !outOfRoom ==>
      && cursor == c + Span(row[..], c)
      && cmpCursor == at + |Packet(row[..], c)|
      && outBuf[..] == Overwrite(old(outBuf[..]), at, Packet(row[..], c))
  {
    hide Overwrite, Matches, Literals, LiteralPacket;
    cmpCursor := at;
    var b := row[c];
    cursor := c + 1;
    if cursor < row.Length && row[cursor] == b {
      var matches;
      matches, cursor := ScanRun(row, cursor, b);
      if cmpCursor + 2 > bufSize {
        return true, cursor, cmpCursor;
      }
      StoreTwo(outBuf, cmpCursor, (256 - matches) as byte, b);
      cmpCursor := cmpCursor + 2;
    } else {
      var literals := ScanLiterals(row, cursor);
      if cmpCursor + 2 + literals > bufSize {
        return true, cursor, cmpCursor;
      }
      StoreLiteralPacket(row, c, literals + 1, outBuf, cmpCursor);
      cmpCursor := cmpCursor + 2 + literals;
      cursor := cursor + literals;
    }
    outOfRoom := false;
  }

  /** The first loop of CompressUsingRLE: greedy runs and literals until the buffer is full. */
  method PackGreedily(row: array<byte>, outBuf: array<byte>, bufSize: nat, start: nat)
      returns (outOfRoom: bool, cmpCursor: nat)
    requires row != outBuf && bufSize <= outBuf.Length
    requires start <= bufSize || row.Length > 0
    modifies outBuf
    ensures outOfRoom <==> start + |Greedy(row[..], 0)| > bufSize
    ensures forall i :: bufSize <= i < outBuf.Length ==> outBuf[i] == old(outBuf[i])
    ensures !outOfRoom ==> cmpCursor == start + |Greedy(row[..], 0)|
    ensures !outOfRoom ==> outBuf[..] == Overwrite(old(outBuf[..]), start, Greedy(row[..], 0))
  {
    hide Overwrite, Greedy, Packet, Span;
    cmpCursor := start;
    var cursor: nat := 0;
    ghost var all, buf0 := row[..], outBuf[..];
    ghost var done: seq<byte> := [];
    GreedyEnds(all);
    while cursor < row.Length
      invariant row[..] == all && 0 <= cursor <= row.Length
      invariant cmpCursor == start + |done|
      invariant cmpCursor > bufSize ==> cursor == 0 && outBuf[..] == buf0
      invariant cmpCursor <= bufSize ==> outBuf[..] == Overwrite(buf0, start, done)
      invariant done + Greedy(all, cursor) == Greedy(all, 0)
    {
      GreedyStep(done, all, cursor);
      ghost var packet := Packet(all, cursor);
      outOfRoom, cursor, cmpCursor := StorePacket(row, cursor, outBuf, bufSize, cmpCursor);
      if outOfRoom {
        return;
      }
      OverwriteTwice(buf0, start, done, packet);
      done := done + packet;
    }
    outOfRoom := false;
  }

  /** The fallback loop of CompressUsingRLE: literal packets of up to 128 bytes. */
  method StoreUncompressed(row: array<byte>, outBuf: array<byte>, start: nat) returns (cmpCursor: nat)
    requires row != outBuf && start + |Raw(row[..], 0)| <= outBuf.Length
    modifies outBuf
    ensures cmpCursor == start + |Raw(row[..], 0)|
    ensures outBuf[..] == Overwrite(old(outBuf[..]), start, Raw(row[..], 0))
  {
    hide Overwrite, Raw, LiteralPacket;
    var cursor: nat := 0;
    cmpCursor := start;
    ghost var all, buf0 := row[..], outBuf[..];
    ghost var done: seq<byte> := [];
    RawEnds(all);
    while cursor < row.Length
      invariant row[..] == all && 0 <= cursor <= row.Length
      invariant cmpCursor == start + |done|
      invariant done + Raw(all, cursor) == Raw(all, 0)
      invariant outBuf[..] == Overwrite(buf0, start, done)
    {
      RawStep(done, all, cursor);
      var k := if row.Length - cursor > 128 then 128 else row.Length - cursor;
      StoreLiteralPacket(row, cursor, k, outBuf, cmpCursor);
      OverwriteTwice(buf0, start, done, LiteralPacket(all, cursor, k));
      done := done + LiteralPacket(all, cursor, k);
      cmpCursor := cmpCursor + 1 + k;
      cursor := cursor + k;
    }
  }

  method StorePrefix(outBuf: array<byte>, byteCountLength: nat, ghost n: nat, cmpLength: uint16)
    requires byteCountLength == PrefixSize(n) <= outBuf.Length
    modifies outBuf
    ensures outBuf[..] == Overwrite(old(outBuf[..]), 0, LengthPrefix(n, cmpLength))
  {
    if byteCountLength == 2 {
      StoreTwo(outBuf, 0, (cmpLength / 256) as byte, (cmpLength % 256) as byte);
    } else {
      StoreOne(outBuf, 0, (cmpLength % 256) as byte);
    }
  }

  /** The part of CompressUsingRLE behind its sizing branch. */
  method PackRow(row: array<byte>, outBuf: array<byte>, bufSize: nat) returns (r: int)
    requires row != outBuf && row.Length <= 0xffff && 0 < bufSize <= outBuf.Length && bufSize <= 0xffff
    modifies outBuf
    ensures forall i :: bufSize <= i < outBuf.Length ==> outBuf[i] == old(outBuf[i])
    ensures match PackedBody(row[..], bufSize)
      case None => r == -1
      case Some(body) =>
        && r == PrefixSize(row.Length) + |body| <= bufSize
        && outBuf[..r] == LengthPrefix(row.Length, |body|) + body
  {
    hide Overwrite, Greedy, Raw, LengthPrefix;
    var byteCountLength: nat := if row.Length > 250 then 2 else 1;
    var maxSize := byteCountLength + row.Length + (row.Length + 126) / 127;
    ghost var all, buf1 := row[..], outBuf[..];
    ghost var body := Greedy(all, 0);
    var outOfRoom, cmpCursor := PackGreedily(row, outBuf, bufSize, byteCountLength);
    if outOfRoom {
      if bufSize < maxSize {
        return -1;
      }
      RawSize(all);
      buf1 := outBuf[..];
      cmpCursor := StoreUncompressed(row, outBuf, byteCountLength);
      body := Raw(all, 0);
    }
    var cmpLength := cmpCursor - byteCountLength;
    OverwriteFront(buf1, LengthPrefix(row.Length, cmpLength), body);
    StorePrefix(outBuf, byteCountLength, row.Length, cmpLength);
    assert outBuf[..cmpCursor] == outBuf[..][..cmpCursor];
    return cmpCursor;
  }

  /** CompressUsingRLE. A null row, a null buffer or a zero size asks for the worst-case size; -1 is
      the answer when the buffer is too small. The 16-bit output cursor cannot wrap because every
      caller passes a buffer size below 64K. */
  method CompressUsingRLE(row: array?<byte>, uncmpLength: uint16, outBuf: array?<byte>, bufSize: nat)
      returns (r: int)
    requires row != null ==> uncmpLength == row.Length
    requires outBuf != null ==> bufSize <= outBuf.Length
    requires bufSize <= 0xffff
    requires row != null ==> row != outBuf
    modifies outBuf
    ensures row == null || outBuf == null || bufSize == 0 ==>
      r == WorstSize(uncmpLength) && (outBuf != null ==> outBuf[..] == old(outBuf[..]))
    ensures row != null && outBuf != null && bufSize > 0 ==>
      && (forall i :: bufSize <= i < outBuf.Length ==> outBuf[i] == old(outBuf[i]))
      && match PackedBody(row[..], bufSize)
         case None => r == -1
         case Some(body) =>
           && r == PrefixSize(uncmpLength) + |body| <= bufSize
           && outBuf[..r] == LengthPrefix(uncmpLength, |body|) + body
  {
    if row == null || outBuf == null || bufSize == 0 {
      var byteCountLength := if uncmpLength > 250 then 2 else 1;
      return byteCountLength + uncmpLength + (uncmpLength + 126) / 127;
    }
    r := PackRow(row, outBuf, bufSize);
  }
}
