/** What InstallSlotROM and VMonitor put into the slot ROM, src/slot_rom.cpp. */
module SlotRomLayout {
  import opened Machine
  import opened VideoModes
  import opened SlotRom

  /** The fixed texts, type words, driver code and gamma table. */
  datatype Texts = Texts(
    boardType: seq<Piece>, boardName: seq<Piece>, vendorId: seq<Piece>, revLevel: seq<Piece>, partNum: seq<Piece>,
    date: seq<Piece>, videoType: seq<Piece>, videoName: seq<Piece>, videoDriver: seq<Piece>, gamma: seq<Piece>,
    cpuType: seq<Piece>, cpuName: seq<Piece>, cpuMajor: seq<Piece>, cpuMinor: seq<Piece>,
    etherType: seq<Piece>, etherName: seq<Piece>, etherDriver: seq<Piece>)

  datatype Monitor = Monitor(modes: Modes, current: Mode, frameBase: nat)

  // ---- Geometry of a mode ----

  function FirstWithResolution(modes: Modes, id: nat): (i: nat)
    ensures i <= |modes|
  {
    if modes == [] || modes[0].resolution == id then 0 else FirstWithResolution(modes[1..], id) + 1
  }

  function TrivialBytesPerRow(width: nat, depth: Depth): nat {
    if depth == 0 then width / 8 else if depth == 1 then width / 4 else if depth == 2 then width / 2
    else if depth == 3 then width else if depth == 4 then width * 2 else width * 4
  }

  /** get_bytes_per_row. */
  function BytesPerRow(modes: Modes, depth: Depth, id: nat): nat {
    var i := FirstMode(modes, depth, id);
    if i < |modes| then modes[i].bytesPerRow
    else
      var r := FirstWithResolution(modes, id);
      TrivialBytesPerRow(if r < |modes| then modes[r].x else 0, depth)
  }

  function GeometryFor(m: Monitor, depth: Depth): Geometry {
    Geometry(BytesPerRow(m.modes, depth, m.current.resolution), m.current.y, m.current.x)
  }

  // ---- The parts ----

  const VENDOR_INFO := 6
  const BOARD := 7
  const VIDEO_TYPE := 8
  const VIDEO_NAME := 9
  const VIDEO_DRIVER := 10
  const VIDEO_DRIVER_DIR := 11
  const GAMMA := 12
  const GAMMA_DIR := 13
  const MONITORS := 14
  const PER_MONITOR := 15
  /** Parts of one monitor, counted from its first. */
  const PARMS := 2
  const DESCS := 8
  const MONITOR_LIST := 14

  function BoardParts(t: Texts): seq<Part> {
    [Literal(t.boardType), Literal(t.boardName), Literal(t.vendorId), Literal(t.revLevel), Literal(t.partNum), Literal(t.date),
     List([Ref(0x01, 2), Ref(0x03, 3), Ref(0x04, 4), Ref(0x05, 5)]),
     List([Ref(0x01, 0), Ref(0x02, 1), Data(0x20, 0x4232), Ref(0x24, VENDOR_INFO)])]
  }

  function VideoParts(t: Texts): seq<Part> {
    [Literal(t.videoType), Literal(t.videoName), Literal(t.videoDriver), List([Ref(0x02, VIDEO_DRIVER)]),
     Literal(t.gamma), List([Ref(0x80, GAMMA)])]
  }

  /** One entry per supported depth below d, in the order of the depths. */
  function ModeItems(modes: Modes, base: nat, d: nat): seq<Item>
    requires d <= 6
  {
    if d == 0 then []
    else
      ModeItems(modes, base, d - 1)
      + (if HasDepth(modes, d - 1) then [Ref(ModeId(modes, d - 1), base + DESCS + d - 1)] else [])
  }

  function ModeId(modes: Modes, d: Depth): byte { (AppleMode(modes, d) % 256) as byte }

  function MonitorItems(modes: Modes, base: nat): seq<Item> {
    [Ref(0x01, VIDEO_TYPE), Ref(0x02, VIDEO_NAME), Ref(0x04, VIDEO_DRIVER_DIR), Data(0x08, 0x4232), Ref(0x0a, base),
     Ref(0x0b, base + 1), Ref(0x40, GAMMA_DIR), Data(0x7d, 6)] + ModeItems(modes, base, 6)
  }

  function ParmsPart(m: Monitor, d: Depth): Part { Parms(d, GeometryFor(m, d)) }

  /** VModeDesc. */
  function DescItems(base: nat, d: Depth): seq<Item> {
    [Ref(0x01, base + PARMS + d), Data(0x03, 1), Data(0x04, if d >= 4 then 2 else 0)]
  }

  function MonitorParts(m: Monitor, base: nat): (r: seq<Part>)
    ensures |r| == PER_MONITOR
  {
    [Number(m.frameBase), Number(0),
     ParmsPart(m, 0), ParmsPart(m, 1), ParmsPart(m, 2), ParmsPart(m, 3), ParmsPart(m, 4), ParmsPart(m, 5),
     List(DescItems(base, 0)), List(DescItems(base, 1)), List(DescItems(base, 2)), List(DescItems(base, 3)),
     List(DescItems(base, 4)), List(DescItems(base, 5)),
     List(MonitorItems(m.modes, base))]
  }

  function Base(k: nat): nat { MONITORS + PER_MONITOR * k }

  function AllMonitorParts(ms: seq<Monitor>): (r: seq<Part>)
    ensures |r| == PER_MONITOR * |ms|
  {
    if ms == [] then [] else AllMonitorParts(ms[..|ms| - 1]) + MonitorParts(ms[|ms| - 1], Base(|ms| - 1))
  }

  function CpuParts(t: Texts, c: nat): seq<Part> {
    [Literal(t.cpuType), Literal(t.cpuName), Literal(t.cpuMajor), Literal(t.cpuMinor),
     List([Ref(0x01, c), Ref(0x02, c + 1), Ref(0x81, c + 2), Ref(0x82, c + 3)])]
  }

  function EtherParts(t: Texts, c: nat): seq<Part> {
    [Literal(t.etherType), Literal(t.etherName), Literal(t.etherDriver), List([Ref(0x02, c + 7)]),
     List([Ref(0x01, c + 5), Ref(0x02, c + 6), Ref(0x04, c + 8), Data(0x07, 2), Data(0x08, 0x4232)])]
  }

  /** monitor_desc numbers its objects from 0x80 on. */
  function SlotId(k: nat): byte { ((0x80 + k) % 256) as byte }

  function SlotItems(n: nat): (r: seq<Item>)
    ensures |r| == n
  {
    seq(n, k requires 0 <= k < n => Ref(SlotId(k), Base(k) + MONITOR_LIST))
  }

  function DirItems(n: nat): seq<Item> {
    var c := Base(n);
    [Ref(0x01, BOARD)] + SlotItems(n) + [Ref(0xf0, c + 4), Ref(0xf1, c + 9)]
  }

  function RomParts(t: Texts, ms: seq<Monitor>): (r: seq<Part>)
    ensures |r| == Base(|ms|) + 12
  {
    var c := Base(|ms|);
    BoardParts(t) + VideoParts(t) + AllMonitorParts(ms) + CpuParts(t, c) + EtherParts(t, c)
    + [List(DirItems(|ms|)), Format(c + 10)]
  }

  // ---- Every list is well formed and ascending ----

  predicate GoodPart(part: Part, k: nat) { part.List? ==> WellFormedList(part.items, k) && Ascending(part.items) }

  predicate GoodParts(parts: seq<Part>, from: nat) { forall j :: 0 <= j < |parts| ==> GoodPart(parts[j], from + j) }

  lemma GoodJoin(a: seq<Part>, b: seq<Part>, from: nat)
    requires GoodParts(a, from) && GoodParts(b, from + |a|)
    ensures GoodParts(a + b, from)
  {
    hide GoodPart;
    forall j | 0 <= j < |a + b|
      ensures GoodPart((a + b)[j], from + j)
    {
      if j >= |a| {
        assert (a + b)[j] == b[j - |a|];
      }
    }
  }

  lemma ModeIdIs(modes: Modes, d: Depth)
    requires HasDepth(modes, d)
    ensures ModeId(modes, d) as int == AppleMode(modes, d) == 0x80 + Rank(modes, d) < 0x86
  {
  }

  /** The entries for modes have the numbers from 0x80 on, each for its own depth. */
  lemma {:induction false} ModeItemsAre(modes: Modes, base: nat, d: nat)
    requires d <= 6
    ensures var items := ModeItems(modes, base, d);
      && |items| == Rank(modes, d)
      && (forall i :: 0 <= i < |items| ==> items[i].Ref? && items[i].id as int == 0x80 + i && items[i].part < base + DESCS + d)
      && (forall e: Depth :: e < d && HasDepth(modes, e) ==> Rank(modes, e) < |items| && items[Rank(modes, e)] == Ref(ModeId(modes, e), base + DESCS + e))
  {
    hide HasDepth;
    if d > 0 {
      ModeItemsAre(modes, base, d - 1);
      if HasDepth(modes, d - 1) {
        ModeIdIs(modes, d - 1);
      }
    }
  }

  lemma MonitorListGood(modes: Modes, base: nat)
    requires base >= MONITORS
    ensures GoodPart(List(MonitorItems(modes, base)), base + MONITOR_LIST)
  {
    ModeItemsAre(modes, base, 6);
  }

  lemma MonitorGood(m: Monitor, base: nat)
    requires base >= MONITORS
    ensures GoodParts(MonitorParts(m, base), base)
  {
    hide MonitorItems, GeometryFor;
    MonitorListGood(m.modes, base);
  }

  lemma {:induction false} AllMonitorsGood(ms: seq<Monitor>)
    ensures GoodParts(AllMonitorParts(ms), MONITORS)
  {
    hide GoodParts, MonitorParts;
    if ms != [] {
      var n := |ms| - 1;
      AllMonitorsGood(ms[..n]);
      MonitorGood(ms[n], Base(n));
      GoodJoin(AllMonitorParts(ms[..n]), MonitorParts(ms[n], Base(n)), MONITORS);
    } else {
      assert GoodParts([], MONITORS) by { NoneGood(MONITORS); }
    }
  }

  lemma NoneGood(from: nat)
    ensures GoodParts([], from)
  {
  }

  lemma DirGood(n: nat)
    requires n <= 0x70
    ensures GoodPart(List(DirItems(n)), Base(n) + 10)
  {
    var items := DirItems(n);
    forall i | 1 <= i <= n
      ensures items[i] == Ref(SlotId(i - 1), Base(i - 1) + MONITOR_LIST)
    {
    }
  }

  lemma FixedGood(t: Texts, c: nat)
    ensures GoodParts(BoardParts(t), 0) && GoodParts(VideoParts(t), VIDEO_TYPE)
    ensures GoodParts(CpuParts(t, c), c) && GoodParts(EtherParts(t, c), c + 5)
  {
  }

  lemma RomGood(t: Texts, ms: seq<Monitor>)
    requires |ms| <= 0x70
    ensures GoodParts(RomParts(t, ms), 0)
  {
    hide GoodParts, BoardParts, VideoParts, AllMonitorParts, CpuParts, EtherParts, DirItems;
    var c := Base(|ms|);
    Sizes(t, c);
    FixedGood(t, c);
    AllMonitorsGood(ms);
    DirGood(|ms|);
    LastGood(|ms|);
    GoodJoin(BoardParts(t), VideoParts(t), 0);
    GoodJoin(BoardParts(t) + VideoParts(t), AllMonitorParts(ms), 0);
    GoodJoin(BoardParts(t) + VideoParts(t) + AllMonitorParts(ms), CpuParts(t, c), 0);
    GoodJoin(BoardParts(t) + VideoParts(t) + AllMonitorParts(ms) + CpuParts(t, c), EtherParts(t, c), 0);
    GoodJoin(BoardParts(t) + VideoParts(t) + AllMonitorParts(ms) + CpuParts(t, c) + EtherParts(t, c),
             [List(DirItems(|ms|)), Format(c + 10)], 0);
  }

  lemma Sizes(t: Texts, c: nat)
    ensures |BoardParts(t)| == 8 && |VideoParts(t)| == 6 && |CpuParts(t, c)| == 5 && |EtherParts(t, c)| == 5
  {
  }

  lemma LastGood(n: nat)
    requires n <= 0x70
    ensures GoodParts([List(DirItems(n)), Format(Base(n) + 10)], Base(n) + 10)
  {
    DirGood(n);
  }

  // ---- Where the parts are ----

  lemma {:induction false} MonitorPartAt(ms: seq<Monitor>, k: nat, j: nat)
    requires k < |ms| && j < PER_MONITOR
    ensures AllMonitorParts(ms)[PER_MONITOR * k + j] == MonitorParts(ms[k], Base(k))[j]
  {
    hide MonitorParts;
    var n := |ms| - 1;
    if k < n {
      MonitorPartAt(ms[..n], k, j);
    }
  }

  lemma RomPartAt(t: Texts, ms: seq<Monitor>, k: nat, j: nat)
    requires k < |ms| && j < PER_MONITOR
    ensures RomParts(t, ms)[Base(k) + j] == MonitorParts(ms[k], Base(k))[j]
  {
    hide MonitorParts, AllMonitorParts;
    MonitorPartAt(ms, k, j);
    var c := Base(|ms|);
    var front := BoardParts(t) + VideoParts(t);
    assert RomParts(t, ms)[Base(k) + j] == AllMonitorParts(ms)[PER_MONITOR * k + j];
  }

  lemma RomEnds(t: Texts, ms: seq<Monitor>)
    ensures var parts, c := RomParts(t, ms), Base(|ms|);
      && parts[c + 10] == List(DirItems(|ms|)) && parts[c + 11] == Format(c + 10)
      && parts[BOARD] == BoardParts(t)[BOARD] && parts[c + 4] == CpuParts(t, c)[4] && parts[c + 9] == EtherParts(t, c)[4]
  {
    hide AllMonitorParts, DirItems;
  }
}
