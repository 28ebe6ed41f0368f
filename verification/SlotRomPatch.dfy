/** The checksum of the slot ROM and its patching by a video mode switch: ChecksumSlotROM in
    src/slot_rom.cpp and monitor_desc::switch_mode in src/video.cpp. */
module SlotRomPatch {
  import opened Machine
  import opened Buffers
  import opened VideoModes
  import opened SlotRom
  import opened SlotRomLayout

  // ---- Checksum ----

  function RotateAdd(crc: nat, b: byte): (r: nat)
    requires crc < TWO32
    ensures r < TWO32
  {
    ((crc * 2) % TWO32 + crc / TWO31 + b as int) % TWO32
  }

  function Crc(s: seq<byte>): (r: nat)
    ensures r < TWO32
  {
    if s == [] then 0 else RotateAdd(Crc(s[..|s| - 1]), s[|s| - 1])
  }

  /** The image with its checksum field taken as zero. */
  function Zeroed(rom: seq<byte>): (r: seq<byte>)
    requires |rom| >= 20
    ensures |r| == |rom|
  {
    Overwrite(rom, |rom| - 12, [0, 0, 0, 0])
  }

  function Checksummed(rom: seq<byte>): (r: seq<byte>)
    requires |rom| >= 20
    ensures |r| == |rom|
  {
    Overwrite(rom, |rom| - 12, LongBytes(Crc(Zeroed(rom))))
  }

  function LongAt(rom: seq<byte>, at: nat): nat
    requires at + 4 <= |rom|
  {
    rom[at] as int * 0x100_0000 + rom[at + 1] as int * 0x1_0000 + rom[at + 2] as int * 0x100 + rom[at + 3] as int
  }

  /** The stored checksum is the rotate-and-add sum of the image with the field taken as zero. */
  predicate ChecksumOk(rom: seq<byte>) {
    |rom| >= 20 && LongAt(rom, |rom| - 12) == Crc(Zeroed(rom))
  }

  lemma LongReadsBack(v: nat, rom: seq<byte>, at: nat)
    requires v < TWO32 && at + 4 <= |rom| && rom[at..at + 4] == LongBytes(v)
    ensures LongAt(rom, at) == v
  {
    var b := LongBytes(v);
    assert rom[at] == b[0] && rom[at + 1] == b[1] && rom[at + 2] == b[2] && rom[at + 3] == b[3];
    Digits(v);
    assert v / 0x100_0000 % 256 == v / 0x100_0000;
  }

  lemma ZeroedAgain(rom: seq<byte>, x: seq<byte>)
    requires |rom| >= 20 && |x| == 4
    ensures Zeroed(Overwrite(rom, |rom| - 12, x)) == Zeroed(rom)
  {
  }

  lemma ChecksumStored(rom: seq<byte>)
    requires |rom| >= 20
    ensures ChecksumOk(Checksummed(rom))
  {
    hide Overwrite, Zeroed, Crc, LongBytes, LongAt;
    var x := LongBytes(Crc(Zeroed(rom)));
    ZeroedAgain(rom, x);
    LongReadsBack(Crc(Zeroed(rom)), Checksummed(rom), |rom| - 12);
  }

  /** The new checksum does not depend on the old one. */
  lemma ChecksumForgets(rom: seq<byte>, other: seq<byte>)
    requires |rom| == |other| >= 20 && Zeroed(rom) == Zeroed(other)
    ensures Checksummed(rom) == Checksummed(other)
  {
    var c := LongBytes(Crc(Zeroed(rom)));
    OverwriteSameLength(rom, |rom| - 12, [0, 0, 0, 0], c);
    OverwriteSameLength(other, |rom| - 12, [0, 0, 0, 0], c);
  }

  lemma OverwriteApart(b: seq<byte>, at: nat, x: seq<byte>, n: nat, c: seq<byte>)
    requires at + |x| <= n && n + |c| <= |b|
    ensures Overwrite(Overwrite(b, n, c), at, x) == Overwrite(Overwrite(b, at, x), n, c)
  {
  }

  lemma OverwriteSameLength(b: seq<byte>, n: nat, c: seq<byte>, d: seq<byte>)
    requires n + |c| <= |b| && |c| == |d|
    ensures Overwrite(Overwrite(b, n, c), n, d) == Overwrite(b, n, d)
  {
  }

  method SumBytes(rom: array<byte>) returns (crc: nat)
    ensures crc == Crc(rom[..])
  {
    hide Crc, RotateAdd;
    crc := 0;
    var i := 0;
    CrcOfNothing(rom[..]);
    while i < rom.Length
      invariant 0 <= i <= rom.Length && crc == Crc(rom[..i])
    {
      CrcGrows(rom[..], i);
      assert rom[..][..i + 1] == rom[..i + 1] && rom[..][..i] == rom[..i];
      crc := RotateAdd(crc, rom[i]);
      i := i + 1;
    }
    assert rom[..i] == rom[..];
  }

  /** ChecksumSlotROM. */
  method ChecksumSlotRom(rom: array<byte>)
    requires rom.Length >= 20
    modifies rom
    ensures rom[..] == Checksummed(old(rom[..]))
  {
    hide Crc, Overwrite;
    var n := rom.Length;
    ghost var was := rom[..];
    rom[n - 12], rom[n - 11], rom[n - 10], rom[n - 9] := 0, 0, 0, 0;
    IsOverwritten(was, n - 12, [0, 0, 0, 0], rom[..]);
    ghost var zeroed := rom[..];
    var crc := SumBytes(rom);
    rom[n - 12] := ByteOf(crc, 0x100_0000);
    rom[n - 11] := ByteOf(crc, 0x1_0000);
    rom[n - 10] := ByteOf(crc, 0x100);
    rom[n - 9] := ByteOf(crc, 1);
    IsOverwritten(zeroed, n - 12, LongBytes(crc), rom[..]);
    OverwriteSameLength(was, n - 12, [0, 0, 0, 0], LongBytes(crc));
  }

  lemma CrcOfNothing(s: seq<byte>)
    ensures Crc(s[..0]) == 0
  {
  }

  lemma {:induction false} CrcGrows(s: seq<byte>, i: nat)
    requires i < |s|
    ensures Crc(s[..i + 1]) == RotateAdd(Crc(s[..i]), s[i])
  {
    assert s[..i + 1][..i] == s[..i];
  }

  lemma IsOverwritten(b: seq<byte>, at: nat, x: seq<byte>, r: seq<byte>)
    requires at + |x| <= |b| == |r|
    requires forall i :: 0 <= i < |b| ==> r[i] == if at <= i < at + |x| then x[i - at] else b[i]
    ensures r == Overwrite(b, at, x)
  {
  }

  // ---- Switching the mode ----

  /** The directory that the format block at the end of the data leads to. */
  function Directory(rom: seq<byte>): int
    requires |rom| >= 20
  {
    ReadEntry(rom, |rom| - 20).target
  }

  /** SFindStruct from a found structure. */
  function Follow(rom: seq<byte>, list: Option<int>, id: byte): Option<int> {
    match list
    case None => None
    case Some(at) => if at < 0 then None else FindStruct(rom, at, id)
  }

  /** Where the Slot Manager finds the frame buffer base and the parameter block of a display. */
  function BaseField(rom: seq<byte>, slot: byte): Option<int>
    requires |rom| >= 20
  {
    Follow(rom, Follow(rom, Some(Directory(rom)), slot), 0x0a)
  }

  function ParmsField(rom: seq<byte>, slot: byte, mode: byte): Option<int>
    requires |rom| >= 20
  {
    Follow(rom, Follow(rom, Follow(rom, Some(Directory(rom)), slot), mode), 0x01)
  }

  predicate Inside(rom: seq<byte>, at: Option<int>, n: nat) { at.Some? && 0 <= at.value && at.value + n <= |rom| - 20 }

  /** The stores of switch_mode to a parameter block. */
  function PatchedParms(block: seq<byte>, mode: Mode): (r: seq<byte>)
    requires |block| == 50
    ensures |r| == 50
  {
    block[8 := ByteOf(mode.bytesPerRow, 0x100)][9 := ByteOf(mode.bytesPerRow, 1)]
         [14 := ByteOf(mode.y, 0x100)][15 := ByteOf(mode.y, 1)][16 := ByteOf(mode.x, 0x100)][17 := ByteOf(mode.x, 1)]
  }

  /** The patched block is the one VModeParms emits for the same depth and the mode's own geometry. */
  lemma PatchIsParms(depth: nat, g: Geometry, mode: Mode)
    ensures PatchedParms(ParmsBytes(depth, g), mode) == ParmsBytes(depth, Geometry(mode.bytesPerRow, mode.y, mode.x))
  {
  }

  /** switch_mode as far as the slot ROM goes: the frame buffer base and then the parameter block are
      found in the ROM itself, patched, and the checksum is made again. */
  function Switched(rom: seq<byte>, slot: byte, id: byte, base: nat, mode: Mode): (r: seq<byte>)
    requires CanSwitch(rom, slot, id, base)
    ensures |r| == |rom|
  {
    var rebased := Overwrite(rom, BaseField(rom, slot).value, LongBytes(base));
    var p: nat := ParmsField(rebased, slot, id).value;
    Checksummed(Overwrite(rebased, p, PatchedParms(rebased[p..p + 50], mode)))
  }

  /** The Slot Manager finds both structures. */
  predicate CanSwitch(rom: seq<byte>, slot: byte, id: byte, base: nat) {
    && |rom| >= 20 && Inside(rom, BaseField(rom, slot), 4)
    && Inside(rom, ParmsField(Overwrite(rom, BaseField(rom, slot).value, LongBytes(base)), slot, id), 50)
  }

  method SwitchMode(rom: array<byte>, slot: byte, id: byte, base: nat, mode: Mode)
    requires CanSwitch(rom[..], slot, id, base)
    modifies rom
    ensures rom[..] == Switched(old(rom[..]), slot, id, base, mode)
  {
    hide Overwrite, BaseField, ParmsField, Checksummed;
    ghost var was := rom[..];
    var b: nat := BaseField(rom[..], slot).value;
    rom[b + 0] := ByteOf(base, 0x100_0000);
    rom[b + 1] := ByteOf(base, 0x1_0000);
    rom[b + 2] := ByteOf(base, 0x100);
    rom[b + 3] := ByteOf(base, 1);
    IsOverwritten(was, b, LongBytes(base), rom[..]);
    PatchBlock(rom, ParmsField(rom[..], slot, id).value, mode);
    ChecksumSlotRom(rom);
  }

  /** The six stores to the parameter block. */
  method PatchBlock(rom: array<byte>, p: nat, mode: Mode)
    requires p + 50 <= rom.Length
    modifies rom
    ensures rom[..] == Overwrite(old(rom[..]), p, PatchedParms(old(rom[p..p + 50]), mode))
  {
    hide Overwrite;
    ghost var was := rom[..];
    rom[p + 8] := ByteOf(mode.bytesPerRow, 0x100);
    rom[p + 9] := ByteOf(mode.bytesPerRow, 1);
    rom[p + 14] := ByteOf(mode.y, 0x100);
    rom[p + 15] := ByteOf(mode.y, 1);
    rom[p + 16] := ByteOf(mode.x, 0x100);
    rom[p + 17] := ByteOf(mode.x, 1);
    IsOverwritten(was, p, PatchedParms(was[p..p + 50], mode), rom[..]);
  }

  // ---- What the ROM is after any number of switches ----

  /** Only geometries in parameter blocks differ from a freshly built ROM. */
  predicate SameShape(parts: seq<Part>, full: seq<Part>) {
    |parts| == |full|
    && forall i :: 0 <= i < |parts| ==>
      parts[i] == full[i] || (parts[i].Parms? && full[i].Parms? && parts[i].depth == full[i].depth)
  }

  /** The ROM is the printed parts, but for its checksum. */
  predicate Shows(rom: seq<byte>, parts: seq<Part>) {
    20 <= |rom| == |Print(parts)| && Zeroed(rom) == Zeroed(Print(parts))
  }

  /** The parameter block of the display's current depth is what VModeParms emits for the current mode. */
  predicate BlockOk(parts: seq<Part>, m: Monitor, k: nat) {
    var i := Base(k) + PARMS + m.current.depth;
    i < |parts| && parts[i] == ParmsPart(m, m.current.depth)
  }

  predicate Installed(rom: seq<byte>, t: Texts, ms: seq<Monitor>, parts: seq<Part>) {
    && |ms| <= 0x70 && |rom| < 0x80_0000
    && SameShape(parts, RomParts(t, ms)) && Shows(rom, parts) && ChecksumOk(rom)
    && forall k :: 0 <= k < |ms| ==> BlockOk(parts, ms[k], k)
  }

  // Reading the installed ROM

  lemma FormatLast(parts: seq<Part>)
    requires parts != [] && parts[|parts| - 1].Format?
    ensures |Print(parts)| == Start(parts, |parts| - 1) + 20
    ensures BytesOf(parts, |parts| - 1)[..4]
      == ItemBytes(Starts(parts)[..|parts| - 1], Start(parts, |parts| - 1), Ref(0, parts[|parts| - 1].dir))
    ensures BytesOf(parts, |parts| - 1)[4..8] == LongBytes(|Print(parts)|)
    ensures BytesOf(parts, |parts| - 1)[14..18] == LongBytes(TEST_PATTERN)
  {
    hide Starts, Print, ItemBytes;
    PartAt(parts, |parts| - 1);
  }

  lemma SameBytes(rom: seq<byte>, parts: seq<Part>, a: nat, b: nat)
    requires Shows(rom, parts) && a <= b <= |rom| - 12
    ensures rom[a..b] == Print(parts)[a..b]
  {
    hide Print;
    assert Zeroed(rom)[a..b] == rom[a..b];
    assert Zeroed(Print(parts))[a..b] == Print(parts)[a..b];
  }

  lemma ShownContains(rom: seq<byte>, parts: seq<Part>, k: nat)
    requires Shows(rom, parts) && k < |parts| - 1 && parts[|parts| - 1].Format?
    ensures Contains(rom, parts, k)
  {
    hide Print, Starts, BytesOf, Shows;
    PartAt(parts, k);
    FormatLast(parts);
    StartsOrdered(parts, k, k + 1);
    StartsOrdered(parts, k + 1, |parts| - 1);
    assert 20 <= |rom| == |Print(parts)| by { ShownLength(rom, parts); }
    SameBytes(rom, parts, Start(parts, k), Start(parts, k + 1));
  }

  lemma ShownLength(rom: seq<byte>, parts: seq<Part>)
    requires Shows(rom, parts)
    ensures 20 <= |rom| == |Print(parts)|
  {
  }

  /** The format block leads to the sResource directory, and its length field is the size of the ROM. */
  lemma HeaderReads(rom: seq<byte>, parts: seq<Part>)
    requires Shows(rom, parts) && parts != [] && parts[|parts| - 1].Format? && parts[|parts| - 1].dir < |parts| - 1
    requires |rom| < 0x80_0000
    ensures Directory(rom) == Start(parts, parts[|parts| - 1].dir)
    ensures LongAt(rom, |rom| - 16) == |rom|
  {
    hide Print, Starts, Shows, ItemBytes, LongAt, ReadEntry, BytesOf, LongBytes;
    var n := |parts| - 1;
    ShownLength(rom, parts);
    FormatLast(parts);
    PartAt(parts, n);
    var at := |rom| - 20;
    SameBytes(rom, parts, at, at + 4);
    SameBytes(rom, parts, at + 4, at + 8);
    SliceOfSlice(Print(parts), at, 20, 0, 4);
    SliceOfSlice(Print(parts), at, 20, 4, 4);
    assert at + 0 == at && at + 0 + 4 == at + 4;
    StartsInside(parts, parts[n].dir);
    ItemReadsBack(Starts(parts)[..n], rom, at, Ref(0, parts[n].dir));
    LongReadsBack(|rom|, rom, at + 4);
  }

  lemma ListsSame(parts: seq<Part>, t: Texts, ms: seq<Monitor>, k: nat)
    requires SameShape(parts, RomParts(t, ms)) && k < |parts| && RomParts(t, ms)[k].List? && |ms| <= 0x70
    ensures parts[k] == RomParts(t, ms)[k] && WellFormedList(parts[k].items, k) && Ascending(parts[k].items)
  {
    hide RomParts, WellFormedList, Ascending;
    RomGood(t, ms);
    assert GoodPart(RomParts(t, ms)[k], 0 + k);
  }

  lemma Leads(rom: seq<byte>, parts: seq<Part>, t: Texts, ms: seq<Monitor>, k: nat, i: nat)
    requires Shows(rom, parts) && SameShape(parts, RomParts(t, ms)) && |ms| <= 0x70 && |rom| < 0x80_0000
    requires k < |parts| - 1 && RomParts(t, ms)[k].List? && i < |RomParts(t, ms)[k].items| && RomParts(t, ms)[k].items[i].Ref?
    ensures var item := RomParts(t, ms)[k].items[i];
      item.part < k && Follow(rom, Some(Start(parts, k)), item.id) == Some(Start(parts, item.part))
  {
    hide RomParts, WellFormedList, Ascending, Shows, Print, Starts, Contains, FindStruct;
    LastIsFormat(t, ms, parts);
    ListsSame(parts, t, ms, k);
    ShownContains(rom, parts, k);
    FindsPart(rom, parts, k, i);
  }

  lemma LastIsFormat(t: Texts, ms: seq<Monitor>, parts: seq<Part>)
    requires SameShape(parts, RomParts(t, ms))
    ensures |parts| == Base(|ms|) + 12 && parts[|parts| - 1] == Format(|parts| - 2)
  {
    hide RomParts;
    RomEnds(t, ms);
  }

  lemma DirectoryIs(rom: seq<byte>, parts: seq<Part>, t: Texts, ms: seq<Monitor>)
    requires Shows(rom, parts) && SameShape(parts, RomParts(t, ms)) && |ms| <= 0x70 && |rom| < 0x80_0000
    ensures Directory(rom) == Start(parts, Base(|ms|) + 10)
  {
    hide RomParts, Shows, Print, Starts, SameShape;
    LastIsFormat(t, ms, parts);
    HeaderReads(rom, parts);
  }

  lemma DirectoryEntry(rom: seq<byte>, parts: seq<Part>, t: Texts, ms: seq<Monitor>, i: nat)
    requires Shows(rom, parts) && SameShape(parts, RomParts(t, ms)) && |ms| <= 0x70 && 20 <= |rom| < 0x80_0000
    requires i < |DirItems(|ms|)| && DirItems(|ms|)[i].Ref?
    ensures var item := DirItems(|ms|)[i];
      item.part <= |parts| && Follow(rom, Some(Directory(rom)), item.id) == Some(Start(parts, item.part))
  {
    hide RomParts, Shows, Follow, Starts, SameShape, DirItems;
    LastIsFormat(t, ms, parts);
    DirectoryIs(rom, parts, t, ms);
    RomEnds(t, ms);
    Leads(rom, parts, t, ms, Base(|ms|) + 10, i);
  }

  lemma DirItemsAre(n: nat)
    ensures var items := DirItems(n);
      && |items| == n + 3 && items[0] == Ref(0x01, BOARD)
      && (forall k :: 0 <= k < n ==> items[1..][k] == Ref(SlotId(k), Base(k) + MONITOR_LIST))
      && items[n + 1] == Ref(0xf0, Base(n) + 4) && items[n + 2] == Ref(0xf1, Base(n) + 9)
  {
    hide SlotId, Base;
  }

  /** ... and to each display. */
  lemma DisplayEntry(rom: seq<byte>, parts: seq<Part>, t: Texts, ms: seq<Monitor>, k: nat)
    requires Shows(rom, parts) && SameShape(parts, RomParts(t, ms)) && |ms| <= 0x70 && 20 <= |rom| < 0x80_0000
    requires k < |ms|
    ensures Base(k) + MONITOR_LIST <= |parts|
    ensures Follow(rom, Some(Directory(rom)), SlotId(k)) == Some(Start(parts, Base(k) + MONITOR_LIST))
  {
    hide RomParts, Shows, Follow, Starts, SameShape, DirItems, SlotId, Directory;
    DirItemsAre(|ms|);
    assert DirItems(|ms|)[k + 1] == DirItems(|ms|)[1..][k];
    DirectoryEntry(rom, parts, t, ms, k + 1);
  }

  /** From the format block the directory leads to the board, the CPU and the Ethernet sResource. */
  lemma DirectoryLeads(rom: seq<byte>, parts: seq<Part>, t: Texts, ms: seq<Monitor>)
    requires Shows(rom, parts) && SameShape(parts, RomParts(t, ms)) && |ms| <= 0x70 && 20 <= |rom| < 0x80_0000
    ensures var dir, c := Some(Directory(rom)), Base(|ms|);
      && |parts| == c + 12
      && Follow(rom, dir, 0x01) == Some(Start(parts, BOARD))
      && Follow(rom, dir, 0xf0) == Some(Start(parts, c + 4))
      && Follow(rom, dir, 0xf1) == Some(Start(parts, c + 9))
  {
    hide RomParts, Shows, Follow, Starts, SameShape, DirItems, SlotId, Directory;
    var n := |ms|;
    LastIsFormat(t, ms, parts);
    DirItemsAre(n);
    DirectoryEntry(rom, parts, t, ms, 0);
    DirectoryEntry(rom, parts, t, ms, n + 1);
    DirectoryEntry(rom, parts, t, ms, n + 2);
  }

  lemma MonitorListAt(t: Texts, ms: seq<Monitor>, k: nat, d: Depth)
    requires k < |ms|
    ensures RomParts(t, ms)[Base(k) + MONITOR_LIST] == List(MonitorItems(ms[k].modes, Base(k)))
    ensures RomParts(t, ms)[Base(k)] == Number(ms[k].frameBase)
    ensures RomParts(t, ms)[Base(k) + DESCS + d] == List(DescItems(Base(k), d))
    ensures RomParts(t, ms)[Base(k) + PARMS + d] == ParmsPart(ms[k], d)
  {
    hide RomParts, MonitorItems, DescItems, ParmsPart;
    RomPartAt(t, ms, k, MONITOR_LIST);
    RomPartAt(t, ms, k, 0);
    RomPartAt(t, ms, k, DESCS + d);
    RomPartAt(t, ms, k, PARMS + d);
    assert Base(k) + 0 == Base(k);
    assert Base(k) + (DESCS + d) == Base(k) + DESCS + d && Base(k) + (PARMS + d) == Base(k) + PARMS + d;
  }

  lemma ListLeads(rom: seq<byte>, parts: seq<Part>, t: Texts, ms: seq<Monitor>, k: nat, d: Depth)
    requires Shows(rom, parts) && SameShape(parts, RomParts(t, ms)) && |ms| <= 0x70 && |rom| < 0x80_0000
    requires k < |ms| && HasDepth(ms[k].modes, d)
    ensures |parts| == Base(|ms|) + 12
    ensures Follow(rom, Some(Start(parts, Base(k) + MONITOR_LIST)), 0x0a) == Some(Start(parts, Base(k)))
    ensures Follow(rom, Some(Start(parts, Base(k) + MONITOR_LIST)), ModeId(ms[k].modes, d)) == Some(Start(parts, Base(k) + DESCS + d))
  {
    hide RomParts, Shows, Follow, Starts, SameShape, SlotId, ModeId, HasDepth, ModeItems;
    LastIsFormat(t, ms, parts);
    MonitorListAt(t, ms, k, d);
    var items := MonitorItems(ms[k].modes, Base(k));
    Leads(rom, parts, t, ms, Base(k) + MONITOR_LIST, 4);
    ModeItemsAre(ms[k].modes, Base(k), 6);
    var i := 8 + Rank(ms[k].modes, d);
    assert items[i] == Ref(ModeId(ms[k].modes, d), Base(k) + DESCS + d);
    Leads(rom, parts, t, ms, Base(k) + MONITOR_LIST, i);
  }

  lemma DescLeads(rom: seq<byte>, parts: seq<Part>, t: Texts, ms: seq<Monitor>, k: nat, d: Depth)
    requires Shows(rom, parts) && SameShape(parts, RomParts(t, ms)) && |ms| <= 0x70 && |rom| < 0x80_0000 && k < |ms|
    ensures |parts| == Base(|ms|) + 12
    ensures Follow(rom, Some(Start(parts, Base(k) + DESCS + d)), 0x01) == Some(Start(parts, Base(k) + PARMS + d))
  {
    hide RomParts, Shows, Follow, Starts, SameShape;
    LastIsFormat(t, ms, parts);
    MonitorListAt(t, ms, k, d);
    Leads(rom, parts, t, ms, Base(k) + DESCS + d, 0);
  }

  /** Each display's list leads to its frame buffer base and, for every supported depth, through the
      mode's list to that depth's parameter block. */
  lemma DisplayLeads(rom: seq<byte>, parts: seq<Part>, t: Texts, ms: seq<Monitor>, k: nat, d: Depth)
    requires Shows(rom, parts) && SameShape(parts, RomParts(t, ms)) && |ms| <= 0x70 && |rom| < 0x80_0000
    requires k < |ms| && HasDepth(ms[k].modes, d)
    ensures |parts| == Base(|ms|) + 12 && |rom| >= 20
    ensures BaseField(rom, SlotId(k)) == Some(Start(parts, Base(k)))
    ensures ParmsField(rom, SlotId(k), ModeId(ms[k].modes, d)) == Some(Start(parts, Base(k) + PARMS + d))
  {
    hide RomParts, Shows, Follow, Starts, SameShape, SlotId, ModeId, HasDepth;
    ShownLength(rom, parts);
    DisplayEntry(rom, parts, t, ms, k);
    ListLeads(rom, parts, t, ms, k, d);
    DescLeads(rom, parts, t, ms, k, d);
  }

  // Patching the installed ROM

  lemma ReplaceShows(rom: seq<byte>, parts: seq<Part>, i: nat, x: Part)
    requires Shows(rom, parts) && i < |parts| - 1 && parts[|parts| - 1].Format? && Replaces(parts[i], x)
    ensures Start(parts, i) + |BytesOf(parts[i := x], i)| == Start(parts, i + 1) <= |rom| - 20
    ensures Shows(Overwrite(rom, Start(parts, i), BytesOf(parts[i := x], i)), parts[i := x])
    ensures Starts(parts[i := x]) == Starts(parts)
  {
    hide Print, Starts, BytesOf, Overwrite, Replaces;
    ReplacePart(parts, i, x);
    FormatLast(parts);
    StartsOrdered(parts, i + 1, |parts| - 1);
    var bytes := BytesOf(parts[i := x], i);
    OverwriteApart(rom, Start(parts, i), bytes, |rom| - 12, [0, 0, 0, 0]);
    OverwriteApart(Print(parts), Start(parts, i), bytes, |rom| - 12, [0, 0, 0, 0]);
  }

  /** The monitors with one of them in another mode, at another frame buffer. */
  function WithMode(ms: seq<Monitor>, k: nat, mode: Mode, base: nat): seq<Monitor>
    requires k < |ms|
  {
    ms[k := ms[k].(current := mode, frameBase := base)]
  }

  /** The parts after a switch. */
  function WithModeParts(parts: seq<Part>, k: nat, mode: Mode, base: nat): seq<Part>
    requires Base(k) + PER_MONITOR <= |parts|
  {
    parts[Base(k) := Number(base)][Base(k) + PARMS + mode.depth := Parms(mode.depth, Geometry(mode.bytesPerRow, mode.y, mode.x))]
  }

  predicate SamePart(x: Part, y: Part) { x == y || (x.Parms? && y.Parms? && x.depth == y.depth) }

  lemma MonitorShape(a: Monitor, b: Monitor, base: nat, j: nat)
    requires a.modes == b.modes && j < PER_MONITOR
    ensures SamePart(MonitorParts(a, base)[j], MonitorParts(b, base)[j]) || j == 0
    ensures MonitorParts(b, base)[0] == Number(b.frameBase)
    ensures forall i :: PARMS <= i < DESCS ==> MonitorParts(b, base)[i].Parms? && MonitorParts(b, base)[i].depth == i - PARMS
  {
    hide MonitorItems, DescItems, GeometryFor;
  }

  lemma FixedPartsSame(t: Texts, a: seq<Monitor>, b: seq<Monitor>, i: nat)
    requires |a| == |b| && i < Base(|a|) + 12 && (i < MONITORS || Base(|a|) <= i)
    ensures RomParts(t, a)[i] == RomParts(t, b)[i]
  {
    hide BoardParts, VideoParts, AllMonitorParts, CpuParts, EtherParts, DirItems;
    Sizes(t, Base(|a|));
  }

  lemma ShapeAfter(parts: seq<Part>, t: Texts, ms: seq<Monitor>, k: nat, mode: Mode, base: nat)
    requires k < |ms| && SameShape(parts, RomParts(t, ms))
    ensures |parts| == Base(|ms|) + 12 && Base(k) + PER_MONITOR <= |parts|
    ensures SameShape(WithModeParts(parts, k, mode, base), RomParts(t, WithMode(ms, k, mode, base)))
  {
    hide RomParts, MonitorParts;
    var after := WithMode(ms, k, mode, base);
    var full, renewed, now := RomParts(t, ms), RomParts(t, after), WithModeParts(parts, k, mode, base);
    forall i | 0 <= i < |full|
      ensures SamePart(now[i], renewed[i])
    {
      if MONITORS <= i < Base(|ms|) {
        var m, j := (i - MONITORS) / PER_MONITOR, (i - MONITORS) % PER_MONITOR;
        RomPartAt(t, ms, m, j);
        RomPartAt(t, after, m, j);
        MonitorShape(ms[m], after[m], Base(m), j);
        assert i == Base(m) + j;
        assert SamePart(parts[i], full[i]);
      } else {
        FixedPartsSame(t, ms, after, i);
      }
    }
    assert forall i :: 0 <= i < |full| ==> SamePart(now[i], renewed[i]);
  }

  /** What find_mode gives has the row length that get_bytes_per_row finds for its depth and resolution,
      because both take the first mode: the patched geometry is the one VModeParms uses for the display in
      the new mode. */
  lemma FoundModeMatches(m: Monitor, appleMode: nat, id: nat, i: nat, base: nat)
    requires Found(m.modes, appleMode, id, i) && i < |m.modes|
    ensures var mode := m.modes[i];
      && HasDepth(m.modes, mode.depth) && AppleMode(m.modes, mode.depth) == appleMode
      && Geometry(mode.bytesPerRow, mode.y, mode.x) == GeometryFor(m.(current := mode, frameBase := base), mode.depth)
  {
    hide AppleMode;
    var mode := m.modes[i];
    assert Matches(m.modes, appleMode, id, i);
    assert HasDepth(m.modes, mode.depth);
    FindsDepth(m.modes, mode.depth, id, i);
  }

  /** The two patches land on the parts they are meant for. */
  lemma SwitchIs(rom: seq<byte>, t: Texts, ms: seq<Monitor>, parts: seq<Part>, k: nat, mode: Mode, base: nat)
    requires |ms| <= 0x70 && |rom| < 0x80_0000 && SameShape(parts, RomParts(t, ms)) && Shows(rom, parts)
    requires k < |ms| && HasDepth(ms[k].modes, mode.depth) && Base(k) + PER_MONITOR <= |parts|
    ensures CanSwitch(rom, SlotId(k), ModeId(ms[k].modes, mode.depth), base)
    ensures var r := Switched(rom, SlotId(k), ModeId(ms[k].modes, mode.depth), base, mode);
      |r| == |rom| && Shows(r, WithModeParts(parts, k, mode, base)) && ChecksumOk(r)
  {
    hide RomParts, Shows, Overwrite, BaseField, ParmsField, SameShape, Starts, Print, HasDepth, Checksummed, ChecksumOk,
      PatchedParms, ParmsBytes, LongBytes, SlotId, ModeId;
    var d := mode.depth;
    var id := ModeId(ms[k].modes, d);
    LastIsFormat(t, ms, parts);
    ShownLength(rom, parts);
    // the frame buffer base
    DisplayLeads(rom, parts, t, ms, k, d);
    var i, x := Base(k), Number(base);
    BaseShape(parts, t, ms, k, base, d);
    ReplaceShows(rom, parts, i, x);
    var parts1 := parts[i := x];
    var rom1 := Overwrite(rom, Start(parts, i), LongBytes(base));
    assert BytesOf(parts1, i) == LongBytes(base);
    // the parameter block
    var after := WithMode(ms, k, ms[k].current, base);
    DisplayLeads(rom1, parts1, t, after, k, d);
    var j := i + PARMS + d;
    var g := Geometry(mode.bytesPerRow, mode.y, mode.x);
    var y := Parms(d, g);
    ReplaceShows(rom1, parts1, j, y);
    var p := Start(parts1, j);
    ShownContains(rom1, parts1, j);
    ParmsAre(parts1, j);
    PatchIsParms(d, parts1[j].g, mode);
    assert BytesOf(parts1[j := y], j) == ParmsBytes(d, g);
    var rom2 := Overwrite(rom1, p, ParmsBytes(d, g));
    assert rom1[p..p + 50] == ParmsBytes(d, parts1[j].g);
    ChecksumShows(rom2, parts1[j := y]);
  }

  lemma ParmsAre(parts: seq<Part>, j: nat)
    requires j < |parts| && parts[j].Parms?
    ensures BytesOf(parts, j) == ParmsBytes(parts[j].depth, parts[j].g) && Start(parts, j + 1) == Start(parts, j) + 50
  {
    PartAt(parts, j);
  }

  lemma ChecksumShows(rom: seq<byte>, parts: seq<Part>)
    requires Shows(rom, parts)
    ensures Shows(Checksummed(rom), parts) && ChecksumOk(Checksummed(rom))
  {
    hide Print, Crc, LongBytes;
    ChecksumStored(rom);
    ZeroedAgain(rom, LongBytes(Crc(Zeroed(rom))));
  }

  lemma BaseShape(parts: seq<Part>, t: Texts, ms: seq<Monitor>, k: nat, base: nat, d: Depth)
    requires k < |ms| && SameShape(parts, RomParts(t, ms)) && Base(k) + PER_MONITOR <= |parts|
    ensures parts[Base(k)].Number? && parts[Base(k) + PARMS + d].Parms? && parts[Base(k) + PARMS + d].depth == d
    ensures SameShape(parts[Base(k) := Number(base)], RomParts(t, WithMode(ms, k, ms[k].current, base)))
  {
    hide RomParts, GeometryFor;
    MonitorListAt(t, ms, k, d);
    var mode := ms[k].current;
    MonitorListAt(t, ms, k, mode.depth);
    MonitorListAt(t, WithMode(ms, k, mode, base), k, mode.depth);
    ShapeAfter(parts, t, ms, k, mode, base);
    ShapeWithout(parts[Base(k) := Number(base)], RomParts(t, WithMode(ms, k, mode, base)), Base(k) + PARMS + mode.depth,
                 Parms(mode.depth, Geometry(mode.bytesPerRow, mode.y, mode.x)));
  }

  lemma ShapeWithout(parts: seq<Part>, full: seq<Part>, j: nat, x: Part)
    requires j < |parts| == |full| && SameShape(parts[j := x], full)
    requires parts[j].Parms? && full[j].Parms? && parts[j].depth == full[j].depth
    ensures SameShape(parts, full)
  {
    forall i | 0 <= i < |parts|
      ensures SamePart(parts[i], full[i])
    {
      assert SamePart(parts[j := x][i], full[i]);
    }
    assert forall i :: 0 <= i < |parts| ==> SamePart(parts[i], full[i]);
  }

  /** Switching a display to the mode that find_mode gives keeps all of it. */
  lemma SwitchKeeps(rom: seq<byte>, t: Texts, ms: seq<Monitor>, parts: seq<Part>, k: nat, appleMode: nat, id: nat, i: nat, base: nat)
    requires Installed(rom, t, ms, parts) && k < |ms| && Base(k) + PER_MONITOR <= |parts|
    requires Found(ms[k].modes, appleMode, id, i) && i < |ms[k].modes|
    ensures var mode := ms[k].modes[i];
      var entry := ModeId(ms[k].modes, mode.depth);
      && CanSwitch(rom, SlotId(k), entry, base)
      && Installed(Switched(rom, SlotId(k), entry, base, mode), t, WithMode(ms, k, mode, base), WithModeParts(parts, k, mode, base))
  {
    hide RomParts, Shows, CanSwitch, Switched, SameShape, HasDepth, ChecksumOk, SlotId, ModeId, GeometryFor, BytesPerRow, Found;
    var mode := ms[k].modes[i];
    FoundModeMatches(ms[k], appleMode, id, i, base);
    SwitchIs(rom, t, ms, parts, k, mode, base);
    ShapeAfter(parts, t, ms, k, mode, base);
  }

  /** A call of the driver to switch display k to the mode with a number and a resolution, after which the
      frame buffer is at `base`. */
  datatype Switch = Switch(k: nat, appleMode: nat, id: nat, base: nat)

  datatype Video = Video(rom: seq<byte>, ms: seq<Monitor>, parts: seq<Part>)

  predicate Good(v: Video, t: Texts) { Installed(v.rom, t, v.ms, v.parts) && |v.parts| == Base(|v.ms|) + 12 }

  /** The driver switches to what find_mode gives, and does nothing when it gives the invalid mode. The
      switch itself needs the Slot Manager to find the two structures, which it always does. */
  function Apply(v: Video, s: Switch): Video {
    if s.k >= |v.ms| || Base(s.k) + PER_MONITOR > |v.parts| then v
    else
      var modes := v.ms[s.k].modes;
      var i := FirstMatch(modes, s.appleMode, s.id);
      if i == |modes| then v
      else
        var mode := modes[i];
        var entry := ModeId(modes, mode.depth);
        if !CanSwitch(v.rom, SlotId(s.k), entry, s.base) then v
        else
          Video(Switched(v.rom, SlotId(s.k), entry, s.base, mode), WithMode(v.ms, s.k, mode, s.base),
                WithModeParts(v.parts, s.k, mode, s.base))
  }

  /** Every switch whose mode find_mode finds is carried out. */
  lemma SwitchHappens(v: Video, t: Texts, s: Switch)
    requires Good(v, t) && s.k < |v.ms| && FirstMatch(v.ms[s.k].modes, s.appleMode, s.id) < |v.ms[s.k].modes|
    ensures var i := FirstMatch(v.ms[s.k].modes, s.appleMode, s.id);
      && i < |v.ms[s.k].modes| && Apply(v, s).ms == WithMode(v.ms, s.k, v.ms[s.k].modes[i], s.base)
  {
    hide Installed, CanSwitch, Switched, SlotId, ModeId, Found, FirstMatch;
    var i := FirstMatch(v.ms[s.k].modes, s.appleMode, s.id);
    SwitchKeeps(v.rom, t, v.ms, v.parts, s.k, s.appleMode, s.id, i, s.base);
  }

  function Run(v: Video, switches: seq<Switch>): Video
    decreases |switches|
  {
    if switches == [] then v else Apply(Run(v, switches[..|switches| - 1]), switches[|switches| - 1])
  }

  /** What InstallSlotROM leaves in the Macintosh ROM. */
  function Built(t: Texts, ms: seq<Monitor>): Video
    requires |Print(RomParts(t, ms))| >= 20
  {
    Video(Checksummed(Print(RomParts(t, ms))), ms, RomParts(t, ms))
  }

  lemma BuiltGood(t: Texts, ms: seq<Monitor>)
    requires 20 <= |Print(RomParts(t, ms))| < 0x80_0000 && |ms| <= 0x70
    ensures Good(Built(t, ms), t)
  {
    hide Print, RomParts, Checksummed, ChecksumOk;
    var rom, parts := Print(RomParts(t, ms)), RomParts(t, ms);
    assert Shows(rom, parts);
    ChecksumShows(rom, parts);
    forall k | 0 <= k < |ms|
      ensures BlockOk(parts, ms[k], k)
    {
      MonitorListAt(t, ms, k, ms[k].current.depth);
    }
  }

  lemma ApplyKeeps(v: Video, t: Texts, s: Switch)
    requires Good(v, t)
    ensures Good(Apply(v, s), t) && |Apply(v, s).ms| == |v.ms|
  {
    hide Installed, CanSwitch, Switched, SlotId, ModeId, Found, FirstMatch;
    if s.k < |v.ms| && Base(s.k) + PER_MONITOR <= |v.parts| {
      var i := FirstMatch(v.ms[s.k].modes, s.appleMode, s.id);
      InModes(v.ms[s.k].modes, s.appleMode, s.id);
      if i < |v.ms[s.k].modes| {
        SwitchKeeps(v.rom, t, v.ms, v.parts, s.k, s.appleMode, s.id, i, s.base);
      }
    }
  }

  lemma InModes(modes: Modes, appleMode: nat, id: nat)
    ensures FirstMatch(modes, appleMode, id) <= |modes|
  {
    assert Found(modes, appleMode, id, FirstMatch(modes, appleMode, id));
  }

  /** After any sequence of mode switches the checksum is right, every list still leads where it was
      built to lead, and the block of each display's depth is what VModeParms emits for its mode. */
  lemma {:induction false} SwitchesKeep(v: Video, t: Texts, switches: seq<Switch>)
    requires Good(v, t)
    ensures Good(Run(v, switches), t)
    decreases |switches|
  {
    hide Good, Apply;
    if switches != [] {
      var n := |switches| - 1;
      SwitchesKeep(v, t, switches[..n]);
      ApplyKeeps(Run(v, switches[..n]), t, switches[n]);
    }
  }

  // ---- The buffer holds few displays ----

  const BUFFER_SIZE := 4096

  lemma MonitorBytes(t: Texts, ms: seq<Monitor>, k: nat, d: nat)
    requires k < |ms| && d <= 6
    ensures Base(k) + PARMS + d <= |RomParts(t, ms)|
    ensures Start(RomParts(t, ms), Base(k) + PARMS + d) >= Start(RomParts(t, ms), Base(k)) + 50 * d
    decreases d
  {
    hide RomParts, Starts, Print, GeometryFor;
    var parts := RomParts(t, ms);
    if d == 0 {
      StartsOrdered(parts, Base(k), Base(k) + PARMS);
    } else {
      MonitorBytes(t, ms, k, d - 1);
      MonitorListAt(t, ms, k, d - 1);
      ParmsAre(parts, Base(k) + PARMS + (d - 1));
    }
  }

  lemma {:induction false} MonitorsTakeRoom(t: Texts, ms: seq<Monitor>, n: nat)
    requires n <= |ms|
    ensures Start(RomParts(t, ms), Base(n)) >= 300 * n
    decreases n
  {
    hide RomParts, Starts, Print;
    if n > 0 {
      MonitorsTakeRoom(t, ms, n - 1);
      MonitorBytes(t, ms, n - 1, 6);
      StartsOrdered(RomParts(t, ms), Base(n - 1) + PARMS + 6, Base(n));
    }
  }

  /** A ROM that fits the 4096-byte buffer holds at most 13 displays, so slot ids do not wrap or meet
      those of the CPU and the Ethernet card. */
  lemma FewMonitors(t: Texts, ms: seq<Monitor>)
    requires |Print(RomParts(t, ms))| <= BUFFER_SIZE
    ensures |ms| <= 13 && |Print(RomParts(t, ms))| >= 20
  {
    hide RomParts, Starts, Print;
    MonitorsTakeRoom(t, ms, |ms|);
    StartsInside(RomParts(t, ms), Base(|ms|));
    RomEnds(t, ms);
    FormatLast(RomParts(t, ms));
  }

  /** Every ROM InstallSlotROM can build without overrunning its buffer, after any mode switches. */
  lemma SlotRomStaysGood(t: Texts, ms: seq<Monitor>, switches: seq<Switch>)
    requires |Print(RomParts(t, ms))| <= BUFFER_SIZE
    ensures |Print(RomParts(t, ms))| >= 20 && Good(Run(Built(t, ms), switches), t)
  {
    hide RomParts, Print, Good, Run, Built;
    FewMonitors(t, ms);
    BuiltGood(t, ms);
    SwitchesKeep(Built(t, ms), t, switches);
  }

  // ---- One display fits ----

  predicate Small(part: Part) {
    match part
    case Literal(pieces) => pieces == []
    case List(items) => |items| <= 14
    case _ => true
  }

  predicate AllSmall(parts: seq<Part>) { forall k :: 0 <= k < |parts| ==> Small(parts[k]) }

  lemma {:induction false} SmallSize(starts: seq<nat>, at: nat, part: Part)
    requires Small(part)
    ensures |PartBytes(starts, at, part)| <= 60
  {
  }

  lemma {:induction false} SmallParts(parts: seq<Part>, k: nat)
    requires AllSmall(parts) && k <= |parts|
    ensures Start(parts, k) <= 60 * k
    decreases k
  {
    hide Starts, PartBytes, Print, Small, Start;
    if k == 0 {
      FirstStart(parts);
    } else {
      SmallParts(parts, k - 1);
      PartAt(parts, k - 1);
      SmallSize(Starts(parts)[..k - 1], Start(parts, k - 1), parts[k - 1]);
    }
  }

  lemma SmallMonitor(m: Monitor, base: nat)
    ensures AllSmall(MonitorParts(m, base))
  {
    hide GeometryFor, ModeItems;
    ModeItemsAre(m.modes, base, 6);
  }

  const NO_TEXTS := Texts([], [], [], [], [], [], [], [], [], [], [], [], [], [], [], [], [])

  /** With its literals left out, the ROM of any one display fits the buffer, and at least 1600 bytes are
      left for them. */
  lemma OneDisplayFits(m: Monitor)
    ensures |Print(RomParts(NO_TEXTS, [m]))| <= BUFFER_SIZE - 1600
  {
    hide MonitorParts, Starts, Print, SlotItems, Small, Start;
    var parts := RomParts(NO_TEXTS, [m]);
    SmallMonitor(m, MONITORS);
    assert AllMonitorParts([m]) == MonitorParts(m, MONITORS) by { OneMonitor(m); }
    SmallFixed(m);
    SmallParts(parts, |parts|);
  }

  lemma OneMonitor(m: Monitor)
    ensures AllMonitorParts([m]) == MonitorParts(m, MONITORS)
  {
    hide MonitorParts;
    assert [m][..0] == [];
    assert AllMonitorParts([]) == [];
  }

  lemma SmallFixed(m: Monitor)
    ensures AllSmall(RomParts(NO_TEXTS, [m]))
  {
    hide MonitorParts, SlotItems;
    OneMonitor(m);
    SmallMonitor(m, MONITORS);
    var c := Base(1);
    assert AllSmall(BoardParts(NO_TEXTS)) && AllSmall(VideoParts(NO_TEXTS));
    assert AllSmall(CpuParts(NO_TEXTS, c)) && AllSmall(EtherParts(NO_TEXTS, c));
  }
}
