/** ConvertRGBAToPICT of src/pict.c, and a reader for the PICT files it writes
    (Inside Macintosh: Imaging With QuickDraw, Appendix A). */
module Pict {
  import opened Machine
  import opened Buffers
  import opened PackBits

  /** Pixels are four bytes each, in the order R, G, B, A, rows from top to bottom. */
  datatype Image = Image(width: uint16, height: uint16, rgba: seq<byte>) {
    /** The packed size of a row must fit the 16-bit cursor of the compressor. */
    predicate Valid() {
      |rgba| == height * (4 * width) && WorstSize(4 * width) <= 0xffff
    }
  }

  const HEADER_SIZE: nat := 134

  // ---- The file as written ----

  function Word(v: uint16): (p: seq<byte>)
    ensures |p| == 2
  {
    [Hi(v), Lo(v)]
  }

  function Rect(w: uint16, h: uint16): (p: seq<byte>)
    ensures |p| == 8
  {
    [0, 0, 0, 0, Hi(h), Lo(h), Hi(w), Lo(w)]
  }

  function SizeField(size: nat): (p: seq<byte>)
    ensures |p| == 2
  {
    if size > 0xffff then [0xff, 0xff] else Word(size)
  }

  function VersionPart(): (p: seq<byte>)
    ensures |p| == 10
  {
    [0x00, 0x11, 0x02, 0xff, 0x0c, 0x00, 0xff, 0xff, 0xff, 0xff]
  }

  /** The frame in fixed-point numbers, and four bytes of zeros. */
  function FramePart(w: uint16, h: uint16): (p: seq<byte>)
    ensures |p| == 20
  {
    [0, 0, 0, 0, 0, 0, 0, 0, Hi(w), Lo(w), 0, 0, Hi(h), Lo(h), 0, 0, 0, 0, 0, 0]
  }

  function ClipPart(w: uint16, h: uint16): (p: seq<byte>)
    ensures |p| == 14
  {
    [0x00, 0x1e, 0x00, 0x01, 0x00, 0x0a, 0, 0, 0, 0, Hi(h), Lo(h), Hi(w), Lo(w)]
  }

  /** High byte of rowBytes with the PixMap flag set by a bitwise or. */
  function FlaggedHi(rowBytes: uint16): byte {
    if Hi(rowBytes) < 0x80 then Hi(rowBytes) + 0x80 else Hi(rowBytes)
  }

  function PixMapStart(w: uint16, h: uint16): (p: seq<byte>)
    requires 4 * w <= 0xffff
    ensures |p| == 16
  {
    [0x00, 0x9b, 0, 0, 0, 0, FlaggedHi(4 * w), Lo(4 * w), 0, 0, 0, 0, Hi(h), Lo(h), Hi(w), Lo(w)]
  }

  /** Version, packing type and size, and resolution. */
  function PixMapPacking(): (p: seq<byte>)
    ensures |p| == 16
  {
    [0, 0, 0, 4, 0, 0, 0, 0, 0, 0x48, 0, 0, 0, 0x48, 0, 0]
  }

  /** Pixel type and size, components, and three unused fields. */
  function PixMapPixels(): (p: seq<byte>)
    ensures |p| == 20
  {
    [0, 0x10, 0, 0x20, 0, 4, 0, 8, 0, 0, 0, 0, 0, 0, 0, 0, 0, 0, 0, 0]
  }

  function PixMapRest(): (p: seq<byte>)
    ensures |p| == 36 && p[0..16] == PixMapPacking() && p[16..36] == PixMapPixels()
  {
    PixMapPacking() + PixMapPixels()
  }

  function TransferPart(w: uint16, h: uint16): (p: seq<byte>)
    ensures |p| == 28
  {
    [0, 0, 0, 0, Hi(h), Lo(h), Hi(w), Lo(w), 0, 0, 0, 0, Hi(h), Lo(h), Hi(w), Lo(w),
     0, 0, 0x00, 0x0a, 0, 0, 0, 0, Hi(h), Lo(h), Hi(w), Lo(w)]
  }

  /** The 132 bytes between the size field and the rows. */
  function Header(w: uint16, h: uint16): (p: seq<byte>)
    requires 4 * w <= 0xffff
    ensures |p| == HEADER_SIZE - 2
  {
    Rect(w, h) + VersionPart() + FramePart(w, h) + ClipPart(w, h) + PixMapStart(w, h) + PixMapRest() + TransferPart(w, h)
  }

  /** A row of pixels taken apart into its A, R, G and B planes. */
  function Planes(px: seq<byte>, w: nat): (row: seq<byte>)
    requires |px| == 4 * w
    ensures |row| == 4 * w
  {
    seq(4 * w, k requires 0 <= k < 4 * w =>
      if k < w then px[4 * k + 3]
      else if k < 2 * w then px[4 * (k - w)]
      else if k < 3 * w then px[4 * (k - 2 * w) + 1]
      else px[4 * (k - 3 * w) + 2])
  }

  function PackedRow(px: seq<byte>, w: nat): (p: seq<byte>)
    requires |px| == 4 * w && WorstSize(4 * w) <= 0xffff
    ensures |p| <= WorstSize(4 * w)
  {
    PackedRowRoundTrip(Planes(px, w), WorstSize(4 * w));
    var body := PackedBody(Planes(px, w), WorstSize(4 * w)).value;
    LengthPrefix(4 * w, |body|) + body
  }

  function Rows(px: seq<byte>, w: nat, h: nat): (p: seq<byte>)
    requires |px| == h * (4 * w) && WorstSize(4 * w) <= 0xffff
    ensures |p| <= h * WorstSize(4 * w)
    decreases h
  {
    if h == 0 then []
    else
      RowSplit(w, h);
      PackedRow(px[..4 * w], w) + Rows(px[4 * w..], w, h - 1)
  }

  lemma RowSplit(w: nat, h: nat)
    requires h > 0
    ensures h * (4 * w) == 4 * w + (h - 1) * (4 * w) >= 4 * w
    ensures h * WorstSize(4 * w) == WorstSize(4 * w) + (h - 1) * WorstSize(4 * w)
  {
    hide WorstSize;
    MulStep(4 * w, h);
    MulStep(WorstSize(4 * w), h);
  }

  lemma MulStep(n: nat, h: nat)
    requires h > 0
    ensures h * n == n + (h - 1) * n >= n
  {
  }

  function FileBytes(img: Image): seq<byte>
    requires img.Valid()
  {
    var rows := Rows(img.rgba, img.width, img.height);
    SizeField(HEADER_SIZE + |rows| + 2) + Header(img.width, img.height) + rows + [0x00, 0xff]
  }

  /** What the sizing call answers. */
  function FileBound(w: nat, h: nat): nat { HEADER_SIZE + h * WorstSize(4 * w) + 2 }

  // ---- An independent reader ----

  function U16(s: seq<byte>, i: nat): nat
    requires i + 2 <= |s|
  {
    s[i] as int * 0x100 + s[i + 1] as int
  }

  /** Pixels of a row from its planes. */
  function Interleave(row: seq<byte>, w: nat): (px: seq<byte>)
    requires |row| == 4 * w
    ensures |px| == 4 * w
  {
    seq(4 * w, k requires 0 <= k < 4 * w =>
      if k % 4 == 0 then row[w + k / 4]
      else if k % 4 == 1 then row[2 * w + k / 4]
      else if k % 4 == 2 then row[3 * w + k / 4]
      else row[k / 4])
  }

  /** One length-prefixed packed row at the front of s: its pixels and the bytes behind it. */
  function ReadRow(s: seq<byte>, w: nat): Option<(seq<byte>, seq<byte>)> {
    var k := PrefixSize(4 * w);
    if |s| < k || |s| < k + PrefixValue(4 * w, s) then None
    else
      var len := PrefixValue(4 * w, s);
      match Unpack(s[k..k + len])
      case None => None
      case Some(row) => if |row| != 4 * w then None else Some((Interleave(row, w), s[k + len..]))
  }

  function ReadRows(s: seq<byte>, w: nat, h: nat): Option<(seq<byte>, seq<byte>)>
    decreases h
  {
    if h == 0 then Some(([], s))
    else
      match ReadRow(s, w)
      case None => None
      case Some((px, rest)) =>
        match ReadRows(rest, w, h - 1)
        case None => None
        case Some((more, end)) => Some((px + more, end))
  }

  /** A four-byte field of zeros. */
  predicate Blank(s: seq<byte>, i: nat)
    requires i + 4 <= |s|
  {
    U16(s, i) == 0 && U16(s, i + 2) == 0
  }

  /** The file starts with its size, or with 65535 when that does not fit, and the picture's frame. */
  predicate GoodSize(s: seq<byte>, w: nat, h: nat)
    requires |s| >= HEADER_SIZE
  {
    U16(s, 0) == (if |s| < 65536 then |s| else 65535) && IsRect(s, 2, w, h)
  }

  predicate IsRect(s: seq<byte>, i: nat, w: nat, h: nat)
    requires i + 8 <= |s|
  {
    U16(s, i) == 0 && U16(s, i + 2) == 0 && U16(s, i + 4) == h && U16(s, i + 6) == w
  }

  predicate GoodFrame(frame: seq<byte>, w: nat, h: nat)
    requires |frame| == 20
  {
    && Blank(frame, 0) && Blank(frame, 4) && U16(frame, 8) == w && U16(frame, 10) == 0
    && U16(frame, 12) == h && U16(frame, 14) == 0 && Blank(frame, 16)
  }

  /** The opcodes in front of the bitmap: version 2, header, DefHilite, rectangular clip region. */
  predicate GoodOpcodes(s: seq<byte>, w: nat, h: nat)
    requires |s| >= HEADER_SIZE
  {
    var version, frame, clip := s[10..20], s[20..40], s[40..54];
    && U16(version, 0) == 0x0011 && U16(version, 2) == 0x02ff && U16(version, 4) == 0x0c00
    && U16(version, 6) == 0xffff && U16(version, 8) == 0xffff
    && GoodFrame(frame, w, h)
    && U16(clip, 0) == 0x001e && U16(clip, 2) == 0x0001
    && U16(clip, 4) == 10 && IsRect(clip, 6, w, h)
  }

  /** The PixMap opcode up to its bounds. The top bit of rowBytes is the PixMap flag. */
  predicate GoodRowBytes(start: seq<byte>, w: nat, h: nat)
    requires |start| == 16
  {
    && U16(start, 0) == 0x009b && Blank(start, 2) && IsRect(start, 8, w, h)
    && U16(start, 6) >= 0x8000 && U16(start, 6) - 0x8000 == 4 * w
  }

  /** Packed by component planes, at 72 by 72 dots per inch. */
  predicate GoodPacking(part: seq<byte>)
    requires |part| == 16
  {
    && U16(part, 0) == 0 && U16(part, 2) == 4 && Blank(part, 4)
    && U16(part, 8) == 72 && U16(part, 10) == 0 && U16(part, 12) == 72 && U16(part, 14) == 0
  }

  /** Direct pixels of 32 bits in four components of 8. */
  predicate GoodPixels(part: seq<byte>)
    requires |part| == 20
  {
    && U16(part, 0) == 16 && U16(part, 2) == 32 && U16(part, 4) == 4 && U16(part, 6) == 8
    && Blank(part, 8) && Blank(part, 12) && Blank(part, 16)
  }

  predicate GoodFormat(rest: seq<byte>)
    requires |rest| == 36
  {
    GoodPacking(rest[0..16]) && GoodPixels(rest[16..36])
  }

  /** Source and destination rectangle and mask region. */
  predicate GoodTransfer(transfer: seq<byte>, w: nat, h: nat)
    requires |transfer| == 28
  {
    && IsRect(transfer, 0, w, h) && IsRect(transfer, 8, w, h) && U16(transfer, 16) == 0
    && U16(transfer, 18) == 10 && IsRect(transfer, 20, w, h)
  }

  predicate GoodPixMap(s: seq<byte>, w: nat, h: nat)
    requires |s| >= HEADER_SIZE
  {
    GoodRowBytes(s[54..70], w, h) && GoodFormat(s[70..106]) && GoodTransfer(s[106..134], w, h)
  }

  function ReadPict(s: seq<byte>): Option<Image> {
    if |s| < HEADER_SIZE then None
    else
      var h, w := U16(s, 6), U16(s, 8);
      if !GoodSize(s, w, h) || !GoodOpcodes(s, w, h) || !GoodPixMap(s, w, h) then None
      else
        match ReadRows(s[HEADER_SIZE..], w, h)
        case None => None
        case Some((px, end)) => if end == [0x00, 0xff] then Some(Image(w, h, px)) else None
  }

  // ---- Lemmas ----

  lemma PlanesInterleave(px: seq<byte>, w: nat)
    requires |px| == 4 * w
    ensures Interleave(Planes(px, w), w) == px
  {
    var row := Planes(px, w);
    forall k | 0 <= k < 4 * w
      ensures Interleave(row, w)[k] == px[k]
    {
      var x := k / 4;
      assert k == 4 * x + k % 4 && 0 <= x < w;
    }
  }

  lemma ReadOneRow(px: seq<byte>, w: nat, rest: seq<byte>)
    requires |px| == 4 * w && WorstSize(4 * w) <= 0xffff
    ensures ReadRow(PackedRow(px, w) + rest, w) == Some((px, rest))
  {
    hide Unpack, Greedy, Raw, Planes, Interleave;
    var row := Planes(px, w);
    PackedRowRoundTrip(row, WorstSize(4 * w));
    var body := PackedBody(row, WorstSize(4 * w)).value;
    var s := PackedRow(px, w) + rest;
    var k := PrefixSize(4 * w);
    assert PrefixValue(4 * w, s) == PrefixValue(4 * w, PackedRow(px, w)) == |body|;
    assert s[k..k + |body|] == body;
    assert s[k + |body|..] == rest;
    PlanesInterleave(px, w);
  }

  lemma RowsFirst(done: seq<byte>, px: seq<byte>, w: nat, h: nat)
    requires h > 0 && |px| == h * (4 * w) && WorstSize(4 * w) <= 0xffff
    ensures 4 * w <= |px| && |px[4 * w..]| == (h - 1) * (4 * w)
    ensures done + Rows(px, w, h) == (done + PackedRow(px[..4 * w], w)) + Rows(px[4 * w..], w, h - 1)
    ensures |Rows(px, w, h)| >= |PackedRow(px[..4 * w], w)|
  {
    hide PackedRow, WorstSize;
    RowSplit(w, h);
  }

  lemma RowsEnd(w: nat)
    requires WorstSize(4 * w) <= 0xffff
    ensures Rows([], w, 0) == []
  {
  }

  lemma ReadRowThen(s: seq<byte>, w: nat, h: nat, first: seq<byte>, tail: seq<byte>, others: seq<byte>, rest: seq<byte>)
    requires h > 0 && ReadRow(s, w) == Some((first, tail)) && ReadRows(tail, w, h - 1) == Some((others, rest))
    ensures ReadRows(s, w, h) == Some((first + others, rest))
  {
    hide ReadRow;
  }

  lemma {:induction false} ReadAllRows(px: seq<byte>, w: nat, h: nat, rest: seq<byte>)
    requires |px| == h * (4 * w) && WorstSize(4 * w) <= 0xffff
    ensures ReadRows(Rows(px, w, h) + rest, w, h) == Some((px, rest))
    decreases h
  {
    hide ReadRow, PackedRow, WorstSize, Rows;
    if h == 0 {
      RowsEnd(w);
      assert [] + rest == rest;
    } else {
      RowsFirst([], px, w, h);
      var first, others := px[..4 * w], px[4 * w..];
      var tail := Rows(others, w, h - 1) + rest;
      assert [] + Rows(px, w, h) + rest == PackedRow(first, w) + tail;
      assert [] + Rows(px, w, h) == Rows(px, w, h);
      ReadOneRow(first, w, tail);
      ReadAllRows(others, w, h - 1, rest);
      ReadRowThen(Rows(px, w, h) + rest, w, h, first, tail, others, rest);
      assert first + others == px;
    }
  }

  lemma HeaderSlices(s: seq<byte>, w: uint16, h: uint16, size: seq<byte>, rest: seq<byte>)
    requires 4 * w <= 0xffff && |size| == 2
    requires s == size + Header(w, h) + rest
    ensures |s| >= HEADER_SIZE
    ensures s[2..10] == Rect(w, h) && s[10..20] == VersionPart() && s[20..40] == FramePart(w, h) && s[40..54] == ClipPart(w, h)
    ensures s[54..70] == PixMapStart(w, h) && s[70..106] == PixMapRest() && s[106..134] == TransferPart(w, h)
    ensures s[HEADER_SIZE..] == rest
  {
    hide Rect, VersionPart, FramePart, ClipPart, PixMapStart, PixMapRest, TransferPart;
  }

  lemma U16Word(v: uint16)
    ensures Hi(v) as int * 0x100 + Lo(v) as int == v
  {
  }

  lemma FlaggedWord(v: uint16)
    ensures FlaggedHi(v) as int * 0x100 + Lo(v) as int == if v < 0x8000 then v + 0x8000 else v
  {
  }

  lemma OpcodesRead(s: seq<byte>, w: uint16, h: uint16)
    requires |s| >= HEADER_SIZE
    requires s[10..20] == VersionPart() && s[20..40] == FramePart(w, h) && s[40..54] == ClipPart(w, h)
    ensures GoodOpcodes(s, w, h)
  {
    hide Hi, Lo, GoodFrame, FramePart;
    FrameReads(w, h);
    U16Word(w);
    U16Word(h);
  }

  lemma FrameReads(w: uint16, h: uint16)
    ensures GoodFrame(FramePart(w, h), w, h)
  {
    hide Hi, Lo;
    U16Word(w);
    U16Word(h);
  }

  lemma RowBytesRead(w: uint16, h: uint16)
    requires 4 * w <= 0xffff
    ensures GoodRowBytes(PixMapStart(w, h), w, h) <==> 4 * w < 0x8000
  {
    hide Hi, Lo, FlaggedHi;
    U16Word(w);
    U16Word(h);
    FlaggedWord(4 * w);
  }

  lemma FormatReads()
    ensures GoodFormat(PixMapRest())
  {
    hide PixMapRest, GoodPacking, GoodPixels, PixMapPacking, PixMapPixels;
    PackingReads();
    PixelsRead();
  }

  lemma PackingReads()
    ensures GoodPacking(PixMapPacking())
  {
  }

  lemma PixelsRead()
    ensures GoodPixels(PixMapPixels())
  {
  }

  lemma TransferReads(w: uint16, h: uint16)
    ensures GoodTransfer(TransferPart(w, h), w, h)
  {
    hide Hi, Lo;
    U16Word(w);
    U16Word(h);
  }

  lemma HeaderReads(s: seq<byte>, w: uint16, h: uint16, size: seq<byte>, rest: seq<byte>)
    requires 4 * w <= 0xffff && |size| == 2
    requires s == size + Header(w, h) + rest
    ensures |s| >= HEADER_SIZE && U16(s, 6) == h && U16(s, 8) == w && s[HEADER_SIZE..] == rest
    ensures IsRect(s, 2, w, h) && U16(s, 0) == U16(size, 0)
    ensures GoodOpcodes(s, w, h)
    ensures GoodPixMap(s, w, h) <==> 4 * w < 0x8000
  {
    hide Hi, Lo, GoodOpcodes, GoodRowBytes, GoodFormat, GoodTransfer, Header, VersionPart, FramePart, ClipPart, PixMapStart, PixMapRest, TransferPart;
    HeaderSlices(s, w, h, size, rest);
    OpcodesRead(s, w, h);
    RowBytesRead(w, h);
    FormatReads();
    TransferReads(w, h);
    U16Word(w);
    U16Word(h);
    assert U16(s, 2) == U16(s[2..10], 0) && U16(s, 4) == U16(s[2..10], 2);
    assert U16(s, 6) == U16(s[2..10], 4) && U16(s, 8) == U16(s[2..10], 6);
  }

  /** The size contract: a file is never longer than the sizing call announced. */
  lemma FileFits(img: Image)
    requires img.Valid()
    ensures |FileBytes(img)| <= FileBound(img.width, img.height)
  {
  }

  /** The rows behind the 134 header bytes give back every pixel of every image and end in 00 FF.
      The file as a whole reads back exactly when the row size leaves the PixMap flag bit free. */
  lemma PictRoundTrip(img: Image)
    requires img.Valid()
    ensures |FileBytes(img)| >= HEADER_SIZE
    ensures ReadRows(FileBytes(img)[HEADER_SIZE..], img.width, img.height) == Some((img.rgba, [0x00, 0xff]))
    ensures ReadPict(FileBytes(img)) == if 4 * img.width < 0x8000 then Some(img) else None
  {
    hide Rows, ReadRows, Header, GoodOpcodes, GoodPixMap;
    var rows := Rows(img.rgba, img.width, img.height);
    var size := SizeField(HEADER_SIZE + |rows| + 2);
    var rest := rows + [0x00, 0xff];
    assert FileBytes(img) == size + Header(img.width, img.height) + rest;
    HeaderReads(FileBytes(img), img.width, img.height, size, rest);
    SizeReads(HEADER_SIZE + |rows| + 2);
    ReadAllRows(img.rgba, img.width, img.height, [0x00, 0xff]);
  }

  lemma SizeReads(size: nat)
    ensures U16(SizeField(size), 0) == if size < 65536 then size else 65535
  {
  }

  /** What the sizing call answers for an empty image, for one pixel, and for two rows of 64. */
  lemma SmallBounds()
    ensures FileBound(0, 0) == 136 && FileBound(1, 1) == 142 && FileBound(64, 2) == 658
  {
  }

  // ---- The C routine ----

  lemma FileParts(img: Image)
    requires img.Valid()
    ensures |FileBytes(img)| == HEADER_SIZE + |Rows(img.rgba, img.width, img.height)| + 2
    ensures var rows := Rows(img.rgba, img.width, img.height);
      FileBytes(img) == SizeField(HEADER_SIZE + |rows| + 2) + (Header(img.width, img.height) + rows + [0x00, 0xff])
  {
  }

  method WriteHeader(buf: array<byte>, w: uint16, h: uint16) returns (cursor: nat)
    requires buf.Length >= HEADER_SIZE && 4 * w <= 0xffff
    modifies buf
    ensures cursor == HEADER_SIZE
    ensures buf[..] == Overwrite(old(buf[..]), 2, Header(w, h))
  {
    hide Overwrite, VersionPart, FramePart, ClipPart, PixMapStart, PixMapRest, TransferPart, Rect;
    ghost var buf0 := buf[..];
    Put(buf, 2, Rect(w, h));
    Put(buf, 10, VersionPart());
    OverwriteTwice(buf0, 2, Rect(w, h), VersionPart());
    ghost var done := Rect(w, h) + VersionPart();
    Put(buf, 20, FramePart(w, h));
    OverwriteTwice(buf0, 2, done, FramePart(w, h));
    done := done + FramePart(w, h);
    Put(buf, 40, ClipPart(w, h));
    OverwriteTwice(buf0, 2, done, ClipPart(w, h));
    done := done + ClipPart(w, h);
    Put(buf, 54, PixMapStart(w, h));
    OverwriteTwice(buf0, 2, done, PixMapStart(w, h));
    done := done + PixMapStart(w, h);
    Put(buf, 70, PixMapRest());
    OverwriteTwice(buf0, 2, done, PixMapRest());
    done := done + PixMapRest();
    Put(buf, 106, TransferPart(w, h));
    OverwriteTwice(buf0, 2, done, TransferPart(w, h));
    cursor := 134;
  }

  lemma PlanesOfPixel(px: seq<byte>, w: nat, j: nat)
    requires |px| == 4 * w && j < w
    ensures var row := Planes(px, w);
      row[j] == px[4 * j + 3] && row[w + j] == px[4 * j] && row[2 * w + j] == px[4 * j + 1] && row[3 * w + j] == px[4 * j + 2]
  {
  }

  /** Takes the row of pixels that starts at `base` apart into planes. */
  method SplitRow(rgba: array<byte>, base: nat, w: nat, row: array<byte>)
    requires row != rgba && base + 4 * w <= rgba.Length && row.Length == 4 * w
    modifies row
    ensures row[..] == Planes(rgba[base..base + 4 * w], w)
  {
    hide Planes;
    ghost var px := rgba[base..base + 4 * w];
    ghost var planes := Planes(px, w);
    var j := 0;
    while j < w
      invariant 0 <= j <= w
      invariant forall k :: 0 <= k < j ==> row[k] == planes[k]
      invariant forall k :: w <= k < w + j ==> row[k] == planes[k]
      invariant forall k :: 2 * w <= k < 2 * w + j ==> row[k] == planes[k]
      invariant forall k :: 3 * w <= k < 3 * w + j ==> row[k] == planes[k]
    {
      PlanesOfPixel(px, w, j);
      row[j] := rgba[base + 4 * j + 3];
      row[w + j] := rgba[base + 4 * j];
      row[2 * w + j] := rgba[base + 4 * j + 1];
      row[3 * w + j] := rgba[base + 4 * j + 2];
      j := j + 1;
    }
  }

  /** One pass of the row loop: packs the row at `base` and appends it, or fails if it does not fit. */
  method AppendRow(buf: array<byte>, bufSize: nat, cursor: nat, rgba: array<byte>, base: nat, w: nat) returns (r: int)
    requires buf != rgba && bufSize <= buf.Length && WorstSize(4 * w) <= 0xffff && base + 4 * w <= rgba.Length
    modifies buf
    ensures var packed := PackedRow(rgba[base..base + 4 * w], w);
      if cursor + |packed| > bufSize then r == -1 && buf[..] == old(buf[..])
      else r == cursor + |packed| && buf[..] == Overwrite(old(buf[..]), cursor, packed)
  {
    hide Overwrite, Planes, Greedy, Raw;
    var row := new byte[4 * w];
    SplitRow(rgba, base, w, row);
    var cmpBuf := new byte[WorstSize(4 * w)];
    PackedRowRoundTrip(row[..], WorstSize(4 * w));
    var cmpLength := CompressUsingRLE(row, 4 * w, cmpBuf, WorstSize(4 * w));
    if cursor + cmpLength > bufSize {
      return -1;
    }
    CopyBytes(cmpBuf, 0, buf, cursor, cmpLength);
    assert cmpBuf[0..0 + cmpLength] == cmpBuf[..cmpLength];
    return cursor + cmpLength;
  }

  lemma RowIndex(w: nat, h: nat, i: nat)
    requires i <= h
    ensures 0 <= i * (4 * w) <= h * (4 * w) && h * (4 * w) - i * (4 * w) == (h - i) * (4 * w)
    ensures i < h ==> (i + 1) * (4 * w) == i * (4 * w) + 4 * w <= h * (4 * w)
    ensures i < h ==> h * (4 * w) - (i + 1) * (4 * w) == (h - i - 1) * (4 * w)
  {
    MulDistributes(h, i, 4 * w);
    if i < h {
      MulDistributes(h, i + 1, 4 * w);
      MulStep(4 * w, i + 1);
    }
  }

  lemma MulDistributes(h: nat, i: nat, n: nat)
    requires i <= h
    ensures 0 <= i * n <= h * n && h * n - i * n == (h - i) * n
  {
  }

  /** The row loop: appends the packed rows at `start`, or fails when one does not fit. */
  method WriteRows(buf: array<byte>, bufSize: nat, start: nat, rgba: array<byte>, w: nat, height: nat) returns (r: int)
    requires buf != rgba && start <= bufSize <= buf.Length
    requires WorstSize(4 * w) <= 0xffff && rgba.Length == height * (4 * w)
    modifies buf
    ensures var rows := Rows(rgba[..], w, height);
      if start + |rows| > bufSize then r == -1 && forall i :: bufSize <= i < buf.Length ==> buf[i] == old(buf[i])
      else r == start + |rows| && buf[..] == Overwrite(old(buf[..]), start, rows)
  {
    hide Overwrite, Rows, PackedRow, WorstSize;
    ghost var px, buf0 := rgba[..], buf[..];
    var cursor := start;
    ghost var done: seq<byte> := [];
    var i := 0;
    ghost var base := 0;
    RowsEnd(w);
    assert px[base..] == px;
    while i < height
      invariant 0 <= i <= height && rgba[..] == px
      invariant base == i * (4 * w) <= |px| && |px[base..]| == (height - i) * (4 * w)
      invariant cursor == start + |done| <= bufSize
      invariant buf[..] == Overwrite(buf0, start, done)
      invariant done + Rows(px[base..], w, height - i) == Rows(px, w, height)
    {
      RowIndex(w, height, i);
      RowsFirst(done, px[base..], w, height - i);
      ghost var first := px[base..base + 4 * w];
      assert px[base..][..4 * w] == first == rgba[base..base + 4 * w];
      assert px[base..][4 * w..] == px[base + 4 * w..];
      r := AppendRow(buf, bufSize, cursor, rgba, i * (4 * w), w);
      if r < 0 {
        return -1;
      }
      OverwriteTwice(buf0, start, done, PackedRow(first, w));
      cursor := r;
      done := done + PackedRow(first, w);
      base := base + 4 * w;
      i := i + 1;
    }
    return cursor;
  }

  /** ConvertRGBAToPICT. A null buffer or a zero size asks for the size; otherwise the answer is the
      file's size if the buffer holds the file, and -1 exactly if it does not. */
  method ConvertRGBAToPICT(buf: array?<byte>, bufSize: nat, rgba: array<byte>, width: uint16, height: uint16)
      returns (r: int)
    requires Image(width, height, rgba[..]).Valid()
    requires buf != null ==> bufSize <= buf.Length && buf != rgba
    modifies buf
    ensures buf == null || bufSize == 0 ==> r == FileBound(width, height)
    ensures buf != null && bufSize > 0 ==>
      var file := FileBytes(Image(width, height, old(rgba[..])));
      && (forall i :: bufSize <= i < buf.Length ==> buf[i] == old(buf[i]))
      && if |file| > bufSize then r == -1 else r == |file| && buf[..r] == file
  {
    hide Overwrite, Header, Rows, PackedRow;
    var cmpBufSize := CompressUsingRLE(null, 4 * width, null, 0);
    if buf == null || bufSize == 0 {
      return 134 + height * cmpBufSize + 2;
    }
    ghost var img := Image(width, height, rgba[..]);
    ghost var rows := Rows(img.rgba, width, height);
    FileParts(img);
    if bufSize < HEADER_SIZE {
      return -1;
    }
    ghost var buf0 := buf[..];
    ghost var header := Header(width, height);
    var cursor := WriteHeader(buf, width, height);
    cursor := WriteRows(buf, bufSize, cursor, rgba, width, height);
    if cursor < 0 || cursor + 2 > bufSize {
      return -1;
    }
    OverwriteTwice(buf0, 2, header, rows);
    Put(buf, cursor, [0x00, 0xff]);
    OverwriteTwice(buf0, 2, header + rows, [0x00, 0xff]);
    cursor := cursor + 2;
    Put(buf, 0, SizeField(cursor));
    OverwriteFront(buf0, SizeField(cursor), header + rows + [0x00, 0xff]);
    assert buf[..cursor] == buf[..][..cursor];
    return cursor;
  }
}
