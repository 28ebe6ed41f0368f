/** What a program reads in the installed slot ROM, structure by structure, in the numbers of the Slot
    Manager (Designing Cards and Drivers for the Macintosh Family). */
module SlotRomReads {
  import opened Machine
  import opened Buffers
  import opened VideoModes
  import opened SlotRom
  import opened SlotRomLayout
  import opened SlotRomPatch
  import Arithmetic

  // ---- Words, texts and parameter blocks in numbers ----

  function WordAt(rom: seq<byte>, at: nat): nat
    requires at + 2 <= |rom|
  {
    rom[at] as int * 0x100 + rom[at + 1] as int
  }

  lemma WordReads(v: nat)
    ensures WordAt(WordBytes(v), 0) == v % 0x1_0000
  {
    var h := v / 0x100;
    assert v == h * 0x100 + v % 0x100 && h == h / 0x100 * 0x100 + h % 0x100;
  }

  lemma LongReads(v: nat)
    ensures LongAt(LongBytes(v), 0) == v % 0x1_0000_0000
  {
    var b := LongBytes(v);
    assert b[0] == ByteOf(v, 0x100_0000) && b[1] == ByteOf(v, 0x1_0000) && b[2] == ByteOf(v, 0x100) && b[3] == ByteOf(v, 1);
    Digits(v);
    TopDigit(v);
  }

  lemma TopDigit(v: nat)
    ensures v / 0x100_0000 % 256 * 0x100_0000 + v % 0x100_0000 == v % 0x1_0000_0000
  {
    var h, l := v / 0x100_0000, v % 0x100_0000;
    var q, r := h / 256, h % 256;
    assert v == h * 0x100_0000 + l && h == q * 256 + r;
    Arithmetic.DivModUnique(v, 0x1_0000_0000, q, r * 0x100_0000 + l);
  }

  lemma WordIn(b: seq<byte>, i: nat, v: nat)
    requires i + 2 <= |b| && b[i..i + 2] == WordBytes(v)
    ensures WordAt(b, i) == v % 0x1_0000
  {
    WordReads(v);
    assert b[i..i + 2][0] == b[i] && b[i..i + 2][1] == b[i + 1];
  }

  lemma LongIn(b: seq<byte>, i: nat, v: nat)
    requires i + 4 <= |b| && b[i..i + 4] == LongBytes(v)
    ensures LongAt(b, i) == v % 0x1_0000_0000
  {
    LongReads(v);
    var x := b[i..i + 4];
    assert x[0] == b[i] && x[1] == b[i + 1] && x[2] == b[i + 2] && x[3] == b[i + 3];
  }

  /** A text ends in a zero byte and a Pascal text starts with its length; both end at an even address. */
  lemma TextsRead(at: nat, s: seq<byte>)
    ensures var c := PieceBytes(at, Text(s));
      && c[..|s|] == s && c[|s|] == 0 && (at + |c|) % 2 == 0 && |c| <= |s| + 2 && (|c| == |s| + 2 ==> c[|s| + 1] == 0)
    ensures var p := PieceBytes(at, PascalText(s));
      && p[0] as int == |s| % 0x100 && p[1..|s| + 1] == s && (at + |p|) % 2 == 0
      && |p| <= |s| + 2 && (|p| == |s| + 2 ==> p[|s| + 1] == 0)
  {
  }

  /** A piece of words has two bytes for each, the high byte first. */
  lemma {:induction false} WordsRead(at: nat, ws: seq<nat>, i: nat)
    requires i < |ws|
    ensures var w := PieceBytes(at, Words(ws));
      |w| == 2 * |ws| && w[2 * i] as int == ws[i] / 0x100 % 0x100 && w[2 * i + 1] as int == ws[i] % 0x100
    decreases |ws|
  {
    var n := |ws| - 1;
    if i < n {
      WordsRead(at, ws[..n], i);
      assert ws[..n][i] == ws[i];
    }
  }

  /** A literal is its pieces, one behind the other. */
  lemma {:induction false} PiecesFollow(at: nat, pieces: seq<Piece>, last: Piece)
    ensures LiteralBytes(at, []) == []
    ensures var front := LiteralBytes(at, pieces);
      LiteralBytes(at, pieces + [last]) == front + PieceBytes(at + |front|, last)
  {
    hide PieceBytes;
    assert (pieces + [last])[..|pieces|] == pieces;
  }

  /** Bits per pixel of the six depths. */
  function Bits(d: Depth): nat {
    match d case 0 => 1 case 1 => 2 case 2 => 4 case 3 => 8 case 4 => 16 case _ => 32
  }

  /** A parameter block: the geometry, 72 dots per inch, and indirect pixels in one component or direct ones
      in three. */
  predicate ParmsRead(b: seq<byte>, at: nat, d: Depth, rowBytes: nat, y: nat, x: nat)
    requires at + 50 <= |b|
  {
    && LongAt(b, at) == 50 && LongAt(b, at + 4) == 0 && WordAt(b, at + 8) == rowBytes % 0x1_0000
    && WordAt(b, at + 10) == 0 && WordAt(b, at + 12) == 0 && WordAt(b, at + 14) == y % 0x1_0000 && WordAt(b, at + 16) == x % 0x1_0000
    && WordAt(b, at + 18) == 0 && WordAt(b, at + 20) == 0 && LongAt(b, at + 22) == 0
    && LongAt(b, at + 26) == 0x48_0000 && LongAt(b, at + 30) == 0x48_0000
    && WordAt(b, at + 34) == (if d <= 3 then 0 else 16) && WordAt(b, at + 36) == Bits(d)
    && WordAt(b, at + 38) == (if d <= 3 then 1 else 3)
    && WordAt(b, at + 40) == (if d <= 3 then Bits(d) else if d == 4 then 5 else 8)
    && LongAt(b, at + 42) == 0 && LongAt(b, at + 46) == 0
  }

  lemma EndsWith(a: seq<byte>, p: seq<byte>, b: seq<byte>)
    requires a + p <= b
    ensures a <= b && b[|a|..|a| + |p|] == p
  {
    assert (a + p)[|a|..] == p;
  }

  lemma ParmsSlices(d: nat, g: Geometry)
    ensures var b := ParmsBytes(d, g);
      && b[0..4] == LongBytes(50) && b[4..8] == LongBytes(0) && b[8..10] == WordBytes(g.rowBytes)
      && b[10..12] == WordBytes(0) && b[12..14] == WordBytes(0) && b[14..16] == WordBytes(g.y) && b[16..18] == WordBytes(g.x)
      && b[18..20] == WordBytes(0) && b[20..22] == WordBytes(0) && b[22..26] == LongBytes(0)
    ensures var b := ParmsBytes(d, g);
      && b[26..30] == LongBytes(0x48_0000) && b[30..34] == LongBytes(0x48_0000)
      && b[34..36] == WordBytes(if d >= 4 then 16 else 0) && b[36..38] == WordBytes(PixelSize(d))
      && b[38..40] == WordBytes(if d >= 4 then 3 else 1)
      && b[40..42] == WordBytes(if d == 4 then 5 else if d == 5 then 8 else PixelSize(d))
      && b[42..46] == LongBytes(0) && b[46..50] == LongBytes(0)
  {
    hide WordBytes, LongBytes, PixelSize;
    var b := ParmsBytes(d, g);
    var a1 := LongBytes(50);
    var a2 := a1 + LongBytes(0);
    var a3 := a2 + WordBytes(g.rowBytes);
    var a4 := a3 + WordBytes(0);
    var a5 := a4 + WordBytes(0);
    var a6 := a5 + WordBytes(g.y);
    var a7 := a6 + WordBytes(g.x);
    var a8 := a7 + WordBytes(0);
    var a9 := a8 + WordBytes(0);
    var a10 := a9 + LongBytes(0);
    var a11 := a10 + LongBytes(0x0048_0000);
    var a12 := a11 + LongBytes(0x0048_0000);
    var a13 := a12 + WordBytes(if d >= 4 then 16 else 0);
    var a14 := a13 + WordBytes(PixelSize(d));
    var a15 := a14 + WordBytes(if d >= 4 then 3 else 1);
    var a16 := a15 + WordBytes(if d == 4 then 5 else if d == 5 then 8 else PixelSize(d));
    var a17 := a16 + LongBytes(0);
    assert b == a17 + LongBytes(0);
    EndsWith(a17, LongBytes(0), b);
    EndsWith(a16, LongBytes(0), b);
    EndsWith(a15, WordBytes(if d == 4 then 5 else if d == 5 then 8 else PixelSize(d)), b);
    EndsWith(a14, WordBytes(if d >= 4 then 3 else 1), b);
    EndsWith(a13, WordBytes(PixelSize(d)), b);
    EndsWith(a12, WordBytes(if d >= 4 then 16 else 0), b);
    EndsWith(a11, LongBytes(0x0048_0000), b);
    EndsWith(a10, LongBytes(0x0048_0000), b);
    EndsWith(a9, LongBytes(0), b);
    EndsWith(a8, WordBytes(0), b);
    EndsWith(a7, WordBytes(0), b);
    EndsWith(a6, WordBytes(g.x), b);
    EndsWith(a5, WordBytes(g.y), b);
    EndsWith(a4, WordBytes(0), b);
    EndsWith(a3, WordBytes(0), b);
    EndsWith(a2, WordBytes(g.rowBytes), b);
    EndsWith(a1, LongBytes(0), b);
    EndsWith([], a1, b);
  }

  lemma ParmsInNumbers(d: Depth, g: Geometry)
    ensures ParmsRead(ParmsBytes(d, g), 0, d, g.rowBytes, g.y, g.x)
  {
    hide ParmsBytes, WordBytes, LongBytes, WordAt, LongAt;
    var b := ParmsBytes(d, g);
    ParmsSlices(d, g);
    LongIn(b, 0, 50);
    LongIn(b, 4, 0);
    WordIn(b, 8, g.rowBytes);
    WordIn(b, 10, 0);
    WordIn(b, 12, 0);
    WordIn(b, 14, g.y);
    WordIn(b, 16, g.x);
    WordIn(b, 18, 0);
    WordIn(b, 20, 0);
    LongIn(b, 22, 0);
    LongIn(b, 26, 0x48_0000);
    LongIn(b, 30, 0x48_0000);
    WordIn(b, 34, if d >= 4 then 16 else 0);
    WordIn(b, 36, PixelSize(d));
    WordIn(b, 38, if d >= 4 then 3 else 1);
    WordIn(b, 40, if d == 4 then 5 else if d == 5 then 8 else PixelSize(d));
    LongIn(b, 42, 0);
    LongIn(b, 46, 0);
  }

  // ---- Following the lists ----

  /** The image is a built ROM, after any mode switches. */
  predicate Readable(rom: seq<byte>, t: Texts, ms: seq<Monitor>, parts: seq<Part>) {
    |ms| <= 0x70 && 20 <= |rom| < 0x80_0000 && Shows(rom, parts) && SameShape(parts, RomParts(t, ms))
  }

  function FindValue(entries: seq<Entry>, id: byte): Option<nat> {
    if entries == [] then None
    else if entries[0].id == id then Some(entries[0].value)
    else FindValue(entries[1..], id)
  }

  /** SReadWord and its like: the 24 bits of data of an entry. */
  function ReadValue(rom: seq<byte>, list: Option<int>, id: byte): Option<nat> {
    match list
    case None => None
    case Some(at) =>
      if at < 0 then None
      else match ReadList(rom, at)
        case None => None
        case Some(entries) => FindValue(entries, id)
  }

  lemma {:induction false} FindsValue(starts: seq<nat>, entries: seq<Entry>, items: seq<Item>, i: nat)
    requires ReadsAs(starts, entries, items) && i < |items| && items[i].Data?
    requires forall j :: 0 <= j < i ==> items[j].id != items[i].id
    ensures FindValue(entries, items[i].id) == Some(items[i].value % TWO24)
    decreases i
  {
    assert Says(starts, entries[0], items[0]);
    assert Says(starts, entries[i], items[i]);
    if i > 0 {
      assert forall j :: 0 <= j < |items| - 1 ==> entries[1..][j] == entries[j + 1] && items[1..][j] == items[j + 1];
      FindsValue(starts, entries[1..], items[1..], i - 1);
    }
  }

  /** Entry i of list k of the plan. */
  predicate IsItem(t: Texts, ms: seq<Monitor>, k: nat, i: nat, item: Item) {
    var full := RomParts(t, ms);
    k < |full| - 1 && full[k].List? && i < |full[k].items| && full[k].items[i] == item
  }

  lemma GoesTo(rom: seq<byte>, t: Texts, ms: seq<Monitor>, parts: seq<Part>, k: nat, i: nat, id: byte, part: nat)
    requires Readable(rom, t, ms, parts) && IsItem(t, ms, k, i, Ref(id, part))
    ensures part < k < |parts| && Follow(rom, Some(Start(parts, k)), id) == Some(Start(parts, part))
  {
    hide RomParts, Shows, Follow, Starts;
    Leads(rom, parts, t, ms, k, i);
  }

  lemma GivesData(rom: seq<byte>, t: Texts, ms: seq<Monitor>, parts: seq<Part>, k: nat, i: nat, id: byte, value: nat)
    requires Readable(rom, t, ms, parts) && IsItem(t, ms, k, i, Data(id, value)) && value < 0x100_0000
    ensures k < |parts| && ReadValue(rom, Some(Start(parts, k)), id) == Some(value)
  {
    hide RomParts, WellFormedList, Shows, Print, Starts, Contains, ReadList, ReadsAs, FindValue;
    LastIsFormat(t, ms, parts);
    ListsSame(parts, t, ms, k);
    ShownContains(rom, parts, k);
    ListReadsBack(rom, parts, k);
    FindsValue(Starts(parts)[..k], ReadList(rom, Start(parts, k)).value, parts[k].items, i);
  }

  /** A literal stands at `at`. */
  predicate HoldsText(rom: seq<byte>, at: Option<int>, pieces: seq<Piece>) {
    && at.Some? && 0 <= at.value
    && var bytes := LiteralBytes(at.value, pieces);
      at.value + |bytes| <= |rom| && rom[at.value..at.value + |bytes|] == bytes
  }

  lemma LiteralHeld(rom: seq<byte>, t: Texts, ms: seq<Monitor>, parts: seq<Part>, k: nat, pieces: seq<Piece>)
    requires Readable(rom, t, ms, parts) && k < |RomParts(t, ms)| - 1 && RomParts(t, ms)[k] == Literal(pieces)
    ensures k < |parts| && HoldsText(rom, Some(Start(parts, k)), pieces)
  {
    hide RomParts, Shows, Print, Starts, LiteralBytes;
    LastIsFormat(t, ms, parts);
    ShownContains(rom, parts, k);
    PartAt(parts, k);
  }

  // ---- The board ----

  lemma BoardPlan(t: Texts, ms: seq<Monitor>)
    ensures var full := RomParts(t, ms);
      && full[0] == Literal(t.boardType) && full[1] == Literal(t.boardName) && full[2] == Literal(t.vendorId)
      && full[3] == Literal(t.revLevel) && full[4] == Literal(t.partNum) && full[5] == Literal(t.date)
    ensures IsItem(t, ms, 6, 0, Ref(0x01, 2)) && IsItem(t, ms, 6, 1, Ref(0x03, 3)) && IsItem(t, ms, 6, 2, Ref(0x04, 4)) && IsItem(t, ms, 6, 3, Ref(0x05, 5))
    ensures IsItem(t, ms, 7, 0, Ref(0x01, 0)) && IsItem(t, ms, 7, 1, Ref(0x02, 1)) && IsItem(t, ms, 7, 2, Data(0x20, 0x4232)) && IsItem(t, ms, 7, 3, Ref(0x24, 6))
  {
    hide AllMonitorParts, DirItems, VideoParts, CpuParts, EtherParts;
    BoardFront(t, ms);
  }

  lemma BoardFront(t: Texts, ms: seq<Monitor>)
    ensures RomParts(t, ms)[..8] == BoardParts(t)
  {
    hide BoardParts, VideoParts, AllMonitorParts, CpuParts, EtherParts, DirItems;
    Sizes(t, Base(|ms|));
  }

  /** From entry 1 of the directory: type, name, the board id 'B2' and the vendor information. */
  lemma BoardReads(rom: seq<byte>, t: Texts, ms: seq<Monitor>, parts: seq<Part>)
    requires Readable(rom, t, ms, parts)
    ensures var board := Follow(rom, Some(Directory(rom)), 0x01);
      var vendor := Follow(rom, board, 0x24);
      && HoldsText(rom, Follow(rom, board, 0x01), t.boardType) && HoldsText(rom, Follow(rom, board, 0x02), t.boardName)
      && ReadValue(rom, board, 0x20) == Some(0x4232)
      && HoldsText(rom, Follow(rom, vendor, 0x01), t.vendorId) && HoldsText(rom, Follow(rom, vendor, 0x03), t.revLevel)
      && HoldsText(rom, Follow(rom, vendor, 0x04), t.partNum) && HoldsText(rom, Follow(rom, vendor, 0x05), t.date)
  {
    BoardPlan(t, ms);
    DirectoryLeads(rom, parts, t, ms);
    hide RomParts, Readable, IsItem, Follow, ReadValue, HoldsText, Start;
    GoesTo(rom, t, ms, parts, 7, 0, 0x01, 0);
    GoesTo(rom, t, ms, parts, 7, 1, 0x02, 1);
    GivesData(rom, t, ms, parts, 7, 2, 0x20, 0x4232);
    GoesTo(rom, t, ms, parts, 7, 3, 0x24, 6);
    GoesTo(rom, t, ms, parts, 6, 0, 0x01, 2);
    GoesTo(rom, t, ms, parts, 6, 1, 0x03, 3);
    GoesTo(rom, t, ms, parts, 6, 2, 0x04, 4);
    GoesTo(rom, t, ms, parts, 6, 3, 0x05, 5);
    LiteralHeld(rom, t, ms, parts, 0, t.boardType);
    LiteralHeld(rom, t, ms, parts, 1, t.boardName);
    LiteralHeld(rom, t, ms, parts, 2, t.vendorId);
    LiteralHeld(rom, t, ms, parts, 3, t.revLevel);
    LiteralHeld(rom, t, ms, parts, 4, t.partNum);
    LiteralHeld(rom, t, ms, parts, 5, t.date);
  }

  // ---- The displays ----

  lemma VideoPlan(t: Texts, ms: seq<Monitor>)
    ensures var full := RomParts(t, ms);
      && full[8] == Literal(t.videoType) && full[9] == Literal(t.videoName) && full[10] == Literal(t.videoDriver) && full[12] == Literal(t.gamma)
    ensures IsItem(t, ms, 11, 0, Ref(0x02, 10)) && IsItem(t, ms, 13, 0, Ref(0x80, 12))
  {
    hide BoardParts, AllMonitorParts, DirItems, CpuParts, EtherParts;
    VideoFront(t, ms);
  }

  lemma VideoFront(t: Texts, ms: seq<Monitor>)
    ensures RomParts(t, ms)[8..14] == VideoParts(t)
  {
    hide BoardParts, VideoParts, AllMonitorParts, CpuParts, EtherParts, DirItems;
    Sizes(t, Base(|ms|));
  }

  /** Entry of a display in the directory. */
  function Display(rom: seq<byte>, k: nat): Option<int>
    requires k < 0x70 && |rom| >= 20
  {
    Follow(rom, Some(Directory(rom)), (0x80 + k) as byte)
  }

  /** The fixed entries of a display's list, which is part 28 + 15 * k. */
  lemma DisplayPlan(t: Texts, ms: seq<Monitor>, k: nat)
    requires k < |ms|
    ensures var n := 14 + 15 * k;
      && RomParts(t, ms)[n] == Number(ms[k].frameBase) && RomParts(t, ms)[n + 1] == Number(0)
      && IsItem(t, ms, n + 14, 0, Ref(0x01, 8)) && IsItem(t, ms, n + 14, 1, Ref(0x02, 9)) && IsItem(t, ms, n + 14, 2, Ref(0x04, 11))
      && IsItem(t, ms, n + 14, 3, Data(0x08, 0x4232)) && IsItem(t, ms, n + 14, 4, Ref(0x0a, n)) && IsItem(t, ms, n + 14, 5, Ref(0x0b, n + 1))
      && IsItem(t, ms, n + 14, 6, Ref(0x40, 13)) && IsItem(t, ms, n + 14, 7, Data(0x7d, 6))
  {
    hide RomParts, ModeItems, GeometryFor;
    RomPartAt(t, ms, k, 0);
    RomPartAt(t, ms, k, 1);
    RomPartAt(t, ms, k, 14);
  }

  predicate HoldsLong(rom: seq<byte>, at: Option<int>, v: nat) {
    at.Some? && 0 <= at.value && at.value + 4 <= |rom| && LongAt(rom, at.value) == v % 0x1_0000_0000
  }

  lemma NumberHeld(rom: seq<byte>, t: Texts, ms: seq<Monitor>, parts: seq<Part>, k: nat, v: nat)
    requires Readable(rom, t, ms, parts) && k < |RomParts(t, ms)| - 1 && RomParts(t, ms)[k] == Number(v)
    ensures k < |parts| && HoldsLong(rom, Some(Start(parts, k)), v)
  {
    hide RomParts, Shows, Print, Starts, LongAt, LongBytes;
    LastIsFormat(t, ms, parts);
    ShownContains(rom, parts, k);
    PartAt(parts, k);
    LongIn(rom, Start(parts, k), v);
  }

  lemma DisplayAt(rom: seq<byte>, t: Texts, ms: seq<Monitor>, parts: seq<Part>, k: nat)
    requires Readable(rom, t, ms, parts) && k < |ms|
    ensures 28 + 15 * k < |parts| && Display(rom, k) == Some(Start(parts, 28 + 15 * k))
  {
    hide RomParts, Shows, Follow, Starts, SameShape;
    LastIsFormat(t, ms, parts);
    DisplayEntry(rom, parts, t, ms, k);
  }

  lemma DisplayTexts(rom: seq<byte>, t: Texts, ms: seq<Monitor>, parts: seq<Part>, k: nat, at: nat)
    requires Readable(rom, t, ms, parts) && k < |ms| && 28 + 15 * k < |parts| && at == Start(parts, 28 + 15 * k)
    ensures var display := Some(at);
      && HoldsText(rom, Follow(rom, display, 0x01), t.videoType) && HoldsText(rom, Follow(rom, display, 0x02), t.videoName)
      && HoldsText(rom, Follow(rom, Follow(rom, display, 0x04), 0x02), t.videoDriver)
      && HoldsText(rom, Follow(rom, Follow(rom, display, 0x40), 0x80), t.gamma)
  {
    VideoPlan(t, ms);
    DisplayPlan(t, ms, k);
    hide RomParts, Readable, IsItem, Follow, HoldsText, Start;
    var n := 28 + 15 * k;
    GoesTo(rom, t, ms, parts, n, 0, 0x01, 8);
    GoesTo(rom, t, ms, parts, n, 1, 0x02, 9);
    GoesTo(rom, t, ms, parts, n, 2, 0x04, 11);
    GoesTo(rom, t, ms, parts, n, 6, 0x40, 13);
    GoesTo(rom, t, ms, parts, 11, 0, 0x02, 10);
    GoesTo(rom, t, ms, parts, 13, 0, 0x80, 12);
    LiteralHeld(rom, t, ms, parts, 8, t.videoType);
    LiteralHeld(rom, t, ms, parts, 9, t.videoName);
    LiteralHeld(rom, t, ms, parts, 10, t.videoDriver);
    LiteralHeld(rom, t, ms, parts, 12, t.gamma);
  }

  lemma DisplayLongs(rom: seq<byte>, t: Texts, ms: seq<Monitor>, parts: seq<Part>, k: nat)
    requires Readable(rom, t, ms, parts) && k < |ms|
    ensures var n := 14 + 15 * k;
      n + 1 < |parts| && HoldsLong(rom, Some(Start(parts, n)), ms[k].frameBase) && HoldsLong(rom, Some(Start(parts, n + 1)), 0)
  {
    hide *;
    var n := 14 + 15 * k;
    DisplayPlan(t, ms, k);
    LongParts(t, ms, k);
    NumberHeld(rom, t, ms, parts, n, ms[k].frameBase);
    NumberHeld(rom, t, ms, parts, n + 1, 0);
  }

  lemma LongParts(t: Texts, ms: seq<Monitor>, k: nat)
    requires k < |ms|
    ensures 15 + 15 * k < |RomParts(t, ms)| - 1
  {
    hide BoardParts, VideoParts, AllMonitorParts, CpuParts, EtherParts;
  }

  lemma DisplayNumbers(rom: seq<byte>, t: Texts, ms: seq<Monitor>, parts: seq<Part>, k: nat, at: nat)
    requires Readable(rom, t, ms, parts) && k < |ms| && 28 + 15 * k < |parts| && at == Start(parts, 28 + 15 * k)
    ensures var display := Some(at);
      && ReadValue(rom, display, 0x08) == Some(0x4232) && ReadValue(rom, display, 0x7d) == Some(6)
      && HoldsLong(rom, Follow(rom, display, 0x0a), ms[k].frameBase) && HoldsLong(rom, Follow(rom, display, 0x0b), 0)
  {
    hide *;
    var n := 14 + 15 * k;
    DisplayPlan(t, ms, k);
    GivesData(rom, t, ms, parts, n + 14, 3, 0x08, 0x4232);
    GivesData(rom, t, ms, parts, n + 14, 7, 0x7d, 6);
    GoesTo(rom, t, ms, parts, n + 14, 4, 0x0a, n);
    GoesTo(rom, t, ms, parts, n + 14, 5, 0x0b, n + 1);
    DisplayLongs(rom, t, ms, parts, k);
  }

  /** From entry 0x80 + k of the directory: type, name, driver, hardware id, frame buffer base and length,
      gamma table and attributes of display k. */
  lemma DisplayReads(rom: seq<byte>, t: Texts, ms: seq<Monitor>, parts: seq<Part>, k: nat)
    requires Readable(rom, t, ms, parts) && k < |ms|
    ensures var display := Display(rom, k);
      && HoldsText(rom, Follow(rom, display, 0x01), t.videoType) && HoldsText(rom, Follow(rom, display, 0x02), t.videoName)
      && HoldsText(rom, Follow(rom, Follow(rom, display, 0x04), 0x02), t.videoDriver)
      && ReadValue(rom, display, 0x08) == Some(0x4232) && ReadValue(rom, display, 0x7d) == Some(6)
      && HoldsLong(rom, Follow(rom, display, 0x0a), ms[k].frameBase) && HoldsLong(rom, Follow(rom, display, 0x0b), 0)
      && HoldsText(rom, Follow(rom, Follow(rom, display, 0x40), 0x80), t.gamma)
  {
    assert k < 0x70 && |rom| >= 20;
    hide Readable, Follow, ReadValue, HoldsText, HoldsLong, Start, Display;
    DisplayAt(rom, t, ms, parts, k);
    var at := Start(parts, 28 + 15 * k);
    DisplayTexts(rom, t, ms, parts, k, at);
    DisplayNumbers(rom, t, ms, parts, k, at);
  }

  // ---- The modes of a display ----

  /** The list of the mode with an Apple mode number. */
  function ModeOf(rom: seq<byte>, k: nat, appleMode: byte): Option<int>
    requires k < 0x70 && |rom| >= 20
  {
    Follow(rom, Display(rom, k), appleMode)
  }

  lemma ModePlan(t: Texts, ms: seq<Monitor>, k: nat, d: Depth)
    requires k < |ms|
    ensures var n := 14 + 15 * k;
      && IsItem(t, ms, n + 8 + d, 0, Ref(0x01, n + 2 + d)) && IsItem(t, ms, n + 8 + d, 1, Data(0x03, 1))
      && IsItem(t, ms, n + 8 + d, 2, Data(0x04, if d <= 3 then 0 else 2))
      && RomParts(t, ms)[n + 2 + d].Parms? && RomParts(t, ms)[n + 2 + d].depth == d
  {
    hide RomParts, ModeItems, GeometryFor;
    MonitorListAt(t, ms, k, d);
  }

  predicate HoldsParms(rom: seq<byte>, at: Option<int>, d: Depth, g: Geometry) {
    at.Some? && 0 <= at.value && at.value + 50 <= |rom| && ParmsRead(rom, at.value, d, g.rowBytes, g.y, g.x)
  }

  lemma ParmsMoved(rom: seq<byte>, at: nat, d: Depth, g: Geometry)
    requires at + 50 <= |rom| && rom[at..at + 50] == ParmsBytes(d, g)
    ensures ParmsRead(rom, at, d, g.rowBytes, g.y, g.x)
  {
    hide ParmsBytes;
    ParmsInNumbers(d, g);
    var b := rom[at..at + 50];
    assert forall i :: 0 <= i < 50 ==> b[i] == rom[at + i];
  }

  lemma ParmsHeld(rom: seq<byte>, t: Texts, ms: seq<Monitor>, parts: seq<Part>, k: nat, d: Depth)
    requires Readable(rom, t, ms, parts) && k < |RomParts(t, ms)| - 1
    requires RomParts(t, ms)[k].Parms? && RomParts(t, ms)[k].depth == d
    ensures k < |parts| && parts[k].Parms? && HoldsParms(rom, Some(Start(parts, k)), d, parts[k].g)
  {
    hide RomParts, Shows, Print, Starts, ParmsBytes, ParmsRead;
    LastIsFormat(t, ms, parts);
    ShownContains(rom, parts, k);
    PartAt(parts, k);
    ParmsMoved(rom, Start(parts, k), d, parts[k].g);
  }

  lemma ModeAt(rom: seq<byte>, t: Texts, ms: seq<Monitor>, parts: seq<Part>, k: nat, d: Depth)
    requires Readable(rom, t, ms, parts) && k < |ms| && HasDepth(ms[k].modes, d)
    ensures 0x80 + Rank(ms[k].modes, d) < 0x86 && 22 + 15 * k + d < |parts|
    ensures ModeOf(rom, k, (0x80 + Rank(ms[k].modes, d)) as byte) == Some(Start(parts, 22 + 15 * k + d))
  {
    hide RomParts, Shows, Follow, Starts, SameShape, HasDepth;
    ModeIdIs(ms[k].modes, d);
    DisplayAt(rom, t, ms, parts, k);
    ListLeads(rom, parts, t, ms, k, d);
  }

  lemma ModeEntries(rom: seq<byte>, t: Texts, ms: seq<Monitor>, parts: seq<Part>, k: nat, d: Depth, at: nat)
    requires Readable(rom, t, ms, parts) && k < |ms| && 22 + 15 * k + d < |parts| && at == Start(parts, 22 + 15 * k + d)
    ensures ReadValue(rom, Some(at), 0x03) == Some(1) && ReadValue(rom, Some(at), 0x04) == Some(if d <= 3 then 0 else 2)
    ensures parts[16 + 15 * k + d].Parms? && HoldsParms(rom, Follow(rom, Some(at), 0x01), d, parts[16 + 15 * k + d].g)
  {
    ModePlan(t, ms, k, d);
    hide RomParts, Readable, IsItem, Follow, ReadValue, HoldsParms, Start;
    var n := 22 + 15 * k + d;
    GoesTo(rom, t, ms, parts, n, 0, 0x01, n - 6);
    GivesData(rom, t, ms, parts, n, 1, 0x03, 1);
    GivesData(rom, t, ms, parts, n, 2, 0x04, if d <= 3 then 0 else 2);
    ParmsHeld(rom, t, ms, parts, n - 6, d);
  }

  /** The mode number of a supported depth leads to one page, the device type and the parameter block of
      that depth. */
  lemma ModeReads(rom: seq<byte>, t: Texts, ms: seq<Monitor>, parts: seq<Part>, k: nat, d: Depth)
    requires Readable(rom, t, ms, parts) && k < |ms| && HasDepth(ms[k].modes, d)
    ensures 0x80 + Rank(ms[k].modes, d) < 0x86 && 16 + 15 * k + d < |parts| && parts[16 + 15 * k + d].Parms?
    ensures var mode := ModeOf(rom, k, (0x80 + Rank(ms[k].modes, d)) as byte);
      && ReadValue(rom, mode, 0x03) == Some(1) && ReadValue(rom, mode, 0x04) == Some(if d <= 3 then 0 else 2)
      && HoldsParms(rom, Follow(rom, mode, 0x01), d, parts[16 + 15 * k + d].g)
  {
    assert k < 0x70 && |rom| >= 20;
    hide Readable, Follow, ReadValue, HoldsParms, Start, ModeOf, HasDepth, Rank;
    ModeAt(rom, t, ms, parts, k, d);
    ModeEntries(rom, t, ms, parts, k, d, Start(parts, 22 + 15 * k + d));
  }

  /** In the numbers of a program: after a switch to the mode found for (appleMode, id), the entries
      0x80 + k, appleMode and 1 lead from the directory to that mode's own row length, size and depth, and
      the frame buffer base is the new one. */
  lemma SwitchReads(v: Video, t: Texts, s: Switch)
    requires Good(v, t) && s.k < |v.ms| && FirstMatch(v.ms[s.k].modes, s.appleMode, s.id) < |v.ms[s.k].modes|
    ensures 0x80 <= s.appleMode < 0x86 && |Apply(v, s).rom| == |v.rom| >= 20 && |v.ms| <= 0x70
    ensures var mode := v.ms[s.k].modes[FirstMatch(v.ms[s.k].modes, s.appleMode, s.id)];
      var rom := Apply(v, s).rom;
      && HoldsParms(rom, Follow(rom, ModeOf(rom, s.k, s.appleMode as byte), 0x01), mode.depth, Geometry(mode.bytesPerRow, mode.y, mode.x))
      && HoldsLong(rom, Follow(rom, Display(rom, s.k), 0x0a), s.base)
  {
    hide Follow, HoldsParms, HoldsLong, HasDepth, FirstMatch, Rank, Apply, Installed, ModeOf, Display, ReadValue, HoldsText, Readable;
    var i := FirstMatch(v.ms[s.k].modes, s.appleMode, s.id);
    var modes, mode := v.ms[s.k].modes, v.ms[s.k].modes[i];
    assert Found(modes, s.appleMode, s.id, i);
    FoundModeMatches(v.ms[s.k], s.appleMode, s.id, i, s.base);
    ModeIdIs(modes, mode.depth);
    SwitchShows(v, t, s);
    var u := Apply(v, s);
    assert u.ms[s.k].modes == modes && u.ms[s.k].frameBase == s.base;
    ModeReads(u.rom, t, u.ms, u.parts, s.k, mode.depth);
    DisplayReads(u.rom, t, u.ms, u.parts, s.k);
    GoodSizes(v, t);
    assert u.parts[16 + 15 * s.k + mode.depth] == Parms(mode.depth, Geometry(mode.bytesPerRow, mode.y, mode.x));
  }

  lemma GoodSizes(v: Video, t: Texts)
    requires Good(v, t)
    ensures |v.rom| >= 20 && |v.ms| <= 0x70
  {
  }

  /** What a switch makes of the value-level state. */
  lemma SwitchShows(v: Video, t: Texts, s: Switch)
    requires Good(v, t) && s.k < |v.ms| && FirstMatch(v.ms[s.k].modes, s.appleMode, s.id) < |v.ms[s.k].modes|
    ensures var mode := v.ms[s.k].modes[FirstMatch(v.ms[s.k].modes, s.appleMode, s.id)];
      var u := Apply(v, s);
      && Base(s.k) + PER_MONITOR <= |v.parts|
      && u.ms == WithMode(v.ms, s.k, mode, s.base) && u.parts == WithModeParts(v.parts, s.k, mode, s.base)
      && |u.rom| == |v.rom| && Readable(u.rom, t, u.ms, u.parts)
  {
    hide CanSwitch, Switched, SlotId, ModeId, Found, FirstMatch, Shows, SameShape, ChecksumOk, RomParts, BlockOk;
    var i := FirstMatch(v.ms[s.k].modes, s.appleMode, s.id);
    SwitchKeeps(v.rom, t, v.ms, v.parts, s.k, s.appleMode, s.id, i, s.base);
    var u := Apply(v, s);
    assert 20 <= |u.rom| by { ShownLength(u.rom, u.parts); }
  }

  // ---- CPU, Ethernet card and format block ----

  lemma CpuPlan(t: Texts, ms: seq<Monitor>)
    ensures var c, full := 14 + 15 * |ms|, RomParts(t, ms);
      && |full| == c + 12 && full[c] == Literal(t.cpuType) && full[c + 1] == Literal(t.cpuName)
      && full[c + 2] == Literal(t.cpuMajor) && full[c + 3] == Literal(t.cpuMinor)
      && IsItem(t, ms, c + 4, 0, Ref(0x01, c)) && IsItem(t, ms, c + 4, 1, Ref(0x02, c + 1))
      && IsItem(t, ms, c + 4, 2, Ref(0x81, c + 2)) && IsItem(t, ms, c + 4, 3, Ref(0x82, c + 3))
  {
    hide AllMonitorParts, DirItems, BoardParts, VideoParts, EtherParts;
    LastPartsAre(t, ms);
  }

  lemma LastPartsAre(t: Texts, ms: seq<Monitor>)
    ensures var c, full := 14 + 15 * |ms|, RomParts(t, ms);
      |full| == c + 12 && full[c..c + 5] == CpuParts(t, c) && full[c + 5..c + 10] == EtherParts(t, c)
  {
    hide BoardParts, VideoParts, AllMonitorParts, CpuParts, EtherParts, DirItems;
    Sizes(t, Base(|ms|));
  }

  lemma EtherPlan(t: Texts, ms: seq<Monitor>)
    ensures var c, full := 14 + 15 * |ms|, RomParts(t, ms);
      && |full| == c + 12 && full[c + 5] == Literal(t.etherType) && full[c + 6] == Literal(t.etherName) && full[c + 7] == Literal(t.etherDriver)
      && IsItem(t, ms, c + 8, 0, Ref(0x02, c + 7))
      && IsItem(t, ms, c + 9, 0, Ref(0x01, c + 5)) && IsItem(t, ms, c + 9, 1, Ref(0x02, c + 6)) && IsItem(t, ms, c + 9, 2, Ref(0x04, c + 8))
      && IsItem(t, ms, c + 9, 3, Data(0x07, 2)) && IsItem(t, ms, c + 9, 4, Data(0x08, 0x4232))
  {
    hide AllMonitorParts, DirItems, BoardParts, VideoParts, CpuParts;
    LastPartsAre(t, ms);
  }

  lemma DirectoryIn(rom: seq<byte>, t: Texts, ms: seq<Monitor>, parts: seq<Part>)
    requires Readable(rom, t, ms, parts)
    ensures var c, dir := 14 + 15 * |ms|, Some(Directory(rom));
      && |parts| == c + 12
      && Follow(rom, dir, 0xf0) == Some(Start(parts, c + 4)) && Follow(rom, dir, 0xf1) == Some(Start(parts, c + 9))
  {
    hide RomParts, Shows, SameShape, Follow, Starts, Directory;
    DirectoryLeads(rom, parts, t, ms);
  }

  /** From entry 0xf0 of the directory: type, name, and major and minor RAM space of the CPU. */
  lemma CpuReads(rom: seq<byte>, t: Texts, ms: seq<Monitor>, parts: seq<Part>)
    requires Readable(rom, t, ms, parts)
    ensures var cpu := Follow(rom, Some(Directory(rom)), 0xf0);
      && HoldsText(rom, Follow(rom, cpu, 0x01), t.cpuType) && HoldsText(rom, Follow(rom, cpu, 0x02), t.cpuName)
      && HoldsText(rom, Follow(rom, cpu, 0x81), t.cpuMajor) && HoldsText(rom, Follow(rom, cpu, 0x82), t.cpuMinor)
  {
    hide *;
    var c := 14 + 15 * |ms|;
    CpuPlan(t, ms);
    DirectoryIn(rom, t, ms, parts);
    GoesTo(rom, t, ms, parts, c + 4, 0, 0x01, c);
    GoesTo(rom, t, ms, parts, c + 4, 1, 0x02, c + 1);
    GoesTo(rom, t, ms, parts, c + 4, 2, 0x81, c + 2);
    GoesTo(rom, t, ms, parts, c + 4, 3, 0x82, c + 3);
    LiteralHeld(rom, t, ms, parts, c, t.cpuType);
    LiteralHeld(rom, t, ms, parts, c + 1, t.cpuName);
    LiteralHeld(rom, t, ms, parts, c + 2, t.cpuMajor);
    LiteralHeld(rom, t, ms, parts, c + 3, t.cpuMinor);
  }

  /** From entry 0xf1: type, name, driver, flags and hardware id of the Ethernet card. */
  lemma EtherReads(rom: seq<byte>, t: Texts, ms: seq<Monitor>, parts: seq<Part>)
    requires Readable(rom, t, ms, parts)
    ensures var ether := Follow(rom, Some(Directory(rom)), 0xf1);
      && HoldsText(rom, Follow(rom, ether, 0x01), t.etherType) && HoldsText(rom, Follow(rom, ether, 0x02), t.etherName)
      && HoldsText(rom, Follow(rom, Follow(rom, ether, 0x04), 0x02), t.etherDriver)
      && ReadValue(rom, ether, 0x07) == Some(2) && ReadValue(rom, ether, 0x08) == Some(0x4232)
  {
    hide *;
    var c := 14 + 15 * |ms|;
    EtherPlan(t, ms);
    DirectoryIn(rom, t, ms, parts);
    GoesTo(rom, t, ms, parts, c + 9, 0, 0x01, c + 5);
    GoesTo(rom, t, ms, parts, c + 9, 1, 0x02, c + 6);
    GoesTo(rom, t, ms, parts, c + 9, 2, 0x04, c + 8);
    GoesTo(rom, t, ms, parts, c + 8, 0, 0x02, c + 7);
    GivesData(rom, t, ms, parts, c + 9, 3, 0x07, 2);
    GivesData(rom, t, ms, parts, c + 9, 4, 0x08, 0x4232);
    LiteralHeld(rom, t, ms, parts, c + 5, t.etherType);
    LiteralHeld(rom, t, ms, parts, c + 6, t.etherName);
    LiteralHeld(rom, t, ms, parts, c + 7, t.etherDriver);
  }

  lemma FormatSlices(starts: seq<nat>, at: nat, dir: nat)
    ensures var b := PartBytes(starts, at, Format(dir));
      && |b| == 20 && b[4..8] == LongBytes(at + 20) && b[8..12] == LongBytes(0) && b[12..14] == WordBytes(0x0101)
      && b[14..18] == LongBytes(0x5a93_2bc7) && b[18..20] == WordBytes(0x000f)
      && b[0] == 0
  {
    hide LongBytes, WordBytes;
  }

  /** The last 20 bytes: the directory, the length, the checksum, format 1 revision 1, the test pattern and the
      byte lanes. */
  lemma FormatReads(rom: seq<byte>, t: Texts, ms: seq<Monitor>, parts: seq<Part>)
    requires Readable(rom, t, ms, parts)
    ensures var at := |rom| - 20;
      && rom[at] == 0 && LongAt(rom, at + 4) == |rom| && WordAt(rom, at + 12) == 0x0101
      && LongAt(rom, at + 14) == 0x5a93_2bc7 && WordAt(rom, at + 18) == 0x000f
  {
    hide Print, Starts, RomParts, LongAt, WordAt, LongBytes, WordBytes, PartBytes, Start;
    var n, at := |parts| - 1, |rom| - 20;
    LastIsFormat(t, ms, parts);
    FormatEnd(parts);
    PartAt(parts, n);
    FormatSlices(Starts(parts)[..n], Start(parts, n), n - 1);
    assert Print(parts)[at..] == BytesOf(parts, n);
    var b := BytesOf(parts, n);
    FormatShown(rom, parts, b);
    LongIn(rom, at + 4, at + 20);
    WordIn(rom, at + 12, 0x0101);
    LongIn(rom, at + 14, 0x5a93_2bc7);
    WordIn(rom, at + 18, 0x000f);
  }

  lemma FormatEnd(parts: seq<Part>)
    requires parts != [] && parts[|parts| - 1].Format?
    ensures |Print(parts)| == Start(parts, |parts|) == Start(parts, |parts| - 1) + 20
  {
    hide Starts, Print;
    FormatLast(parts);
  }

  /** Only the checksum differs from the printed format block. */
  lemma FormatShown(rom: seq<byte>, parts: seq<Part>, b: seq<byte>)
    requires Shows(rom, parts) && |b| == 20 && Print(parts)[|rom| - 20..] == b
    ensures var at := |rom| - 20;
      && rom[at] == b[0] && rom[at + 4..at + 8] == b[4..8] && rom[at + 12..at + 14] == b[12..14]
      && rom[at + 14..at + 18] == b[14..18] && rom[at + 18..at + 20] == b[18..20]
  {
    hide Print, Shows;
    ShownLength(rom, parts);
    var at, p := |rom| - 20, Print(parts);
    SameBytes(rom, parts, at, at + 1);
    SameBytes(rom, parts, at + 4, at + 8);
    SameTail(rom, parts, at + 12, at + 14);
    SameTail(rom, parts, at + 14, at + 18);
    SameTail(rom, parts, at + 18, at + 20);
    assert rom[at] == rom[at..at + 1][0] == p[at];
    assert p[at..at + 20] == b;
    SliceOfSlice(p, at, 20, 4, 4);
    SliceOfSlice(p, at, 20, 12, 2);
    SliceOfSlice(p, at, 20, 14, 4);
    SliceOfSlice(p, at, 20, 18, 2);
  }

  lemma SameTail(rom: seq<byte>, parts: seq<Part>, a: nat, b: nat)
    requires Shows(rom, parts) && |rom| - 8 <= a <= b <= |rom|
    ensures rom[a..b] == Print(parts)[a..b]
  {
    hide Print;
    assert Zeroed(rom)[a..b] == rom[a..b];
    assert Zeroed(Print(parts))[a..b] == Print(parts)[a..b];
  }

  // ---- Row lengths ----

  /** The row length of a depth: that of the first mode with this depth and resolution id; else the bits of a
      row of the first mode with this id, in whole bytes; else 0. */
  lemma RowLength(modes: Modes, d: Depth, id: nat, i: nat)
    requires i <= |modes|
    ensures i < |modes| && modes[i].depth == d && modes[i].resolution == id
      && (forall j :: 0 <= j < i ==> modes[j].depth != d || modes[j].resolution != id)
      ==> BytesPerRow(modes, d, id) == modes[i].bytesPerRow
    ensures (forall j :: 0 <= j < |modes| ==> modes[j].depth != d || modes[j].resolution != id)
      && i < |modes| && modes[i].resolution == id && (forall j :: 0 <= j < i ==> modes[j].resolution != id)
      ==> 8 * BytesPerRow(modes, d, id) <= modes[i].x * Bits(d) < 8 * BytesPerRow(modes, d, id) + 8
    ensures (forall j :: 0 <= j < |modes| ==> modes[j].resolution != id) ==> BytesPerRow(modes, d, id) == 0
  {
    hide FirstMode, FirstWithResolution;
    FirstIs(modes, id);
    if i < |modes| {
      RowBits(modes[i].x, d);
    }
  }

  lemma {:induction false} FirstIs(modes: Modes, id: nat)
    ensures var r := FirstWithResolution(modes, id);
      && (r < |modes| ==> modes[r].resolution == id) && forall j :: 0 <= j < r ==> modes[j].resolution != id
  {
    if modes != [] && modes[0].resolution != id {
      FirstIs(modes[1..], id);
    }
  }

  lemma RowBits(width: nat, d: Depth)
    ensures 8 * TrivialBytesPerRow(width, d) <= width * Bits(d) < 8 * TrivialBytesPerRow(width, d) + 8
    ensures TrivialBytesPerRow(0, d) == 0
  {
  }
}
