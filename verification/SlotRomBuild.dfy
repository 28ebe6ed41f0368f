/** InstallSlotROM and its emitters, src/slot_rom.cpp, writing into the 4096-byte buffer. */
module SlotRomBuild {
  import opened Machine
  import opened Buffers
  import opened VideoModes
  import opened SlotRom
  import opened SlotRomLayout
  import opened SlotRomPatch

  /** Printing one more part. */
  lemma NextPart(plan: seq<Part>, k: nat)
    requires k < |plan|
    ensures Print(plan[..k + 1]) == Print(plan[..k]) + BytesOf(plan, k)
    ensures |Print(plan[..k])| == Start(plan, k) && Start(plan, k + 1) == Start(plan, k) + |BytesOf(plan, k)| <= |Print(plan)|
  {
    hide Print, Starts, PartBytes;
    var front := plan[..k + 1];
    LastPart(front);
    assert front[..k] == plan[..k];
    StartsInFront(plan, k);
    assert Starts(plan)[..k] == Starts(plan)[..k + 1][..k];
    PartAt(plan, k);
  }

  lemma {:induction false} LiteralGrows(at: nat, pieces: seq<Piece>, j: nat)
    requires j <= |pieces|
    ensures |LiteralBytes(at, pieces[..j])| <= |LiteralBytes(at, pieces)|
    ensures j < |pieces| ==>
      LiteralBytes(at, pieces[..j + 1])
      == LiteralBytes(at, pieces[..j]) + PieceBytes(at + |LiteralBytes(at, pieces[..j])|, pieces[j])
    decreases |pieces| - j
  {
    hide PieceBytes;
    if j < |pieces| {
      assert pieces[..j + 1][..j] == pieces[..j];
      LiteralGrows(at, pieces, j + 1);
    } else {
      assert pieces[..j] == pieces;
    }
  }

  lemma {:induction false} WordsGrow(ws: seq<nat>, j: nat)
    requires j < |ws|
    ensures WordsBytes(ws[..j + 1]) == WordsBytes(ws[..j]) + WordBytes(ws[j])
  {
    assert ws[..j + 1][..j] == ws[..j];
  }

  lemma {:induction false} ItemsGrow(starts: seq<nat>, at: nat, items: seq<Item>, i: nat)
    requires i < |items|
    ensures ItemsBytes(starts, at, items[..i + 1]) == ItemsBytes(starts, at, items[..i]) + ItemBytes(starts, at + 4 * i, items[i])
  {
    hide ItemBytes;
    assert items[..i + 1][..i] == items[..i];
  }

  class Srom {
    const srom: array<byte>
    var p: nat
    /** What is to be built, and how much of it has been: k parts and i entries of a list. */
    ghost var plan: seq<Part>
    ghost var k: nat
    ghost var i: nat

    ghost predicate Valid()
      reads this, srom
    {
      && srom.Length == BUFFER_SIZE && p <= BUFFER_SIZE && |Print(plan)| <= BUFFER_SIZE
      && k <= |plan| && plan != [] && plan[|plan| - 1].Format?
      && (i > 0 ==> k < |plan| && plan[k].List? && i <= |plan[k].items|)
      && srom[..p] == Print(plan[..k]) + Opened()
    }

    /** The entries of an unfinished list. */
    ghost function Opened(): (r: seq<byte>)
      reads this
      requires k <= |plan|
      ensures i == 0 ==> r == []
    {
      if i == 0 || k == |plan| || !plan[k].List? || i > |plan[k].items| then []
      else ItemsBytes(Starts(plan)[..k], Start(plan, k), plan[k].items[..i])
    }

    constructor (ghost plan: seq<Part>)
      requires |Print(plan)| <= BUFFER_SIZE && plan != [] && plan[|plan| - 1].Format?
      ensures Valid() && k == 0 && i == 0 && this.plan == plan && fresh(srom)
    {
      srom := new byte[BUFFER_SIZE](_ => 0);
      p, k, i := 0, 0, 0;
      this.plan := plan;
    }

    // ---- Bytes ----

    method Byte(b: byte)
      requires p < srom.Length
      modifies this`p, srom
      ensures p == old(p) + 1 && srom[..p] == old(srom[..p]) + [b]
    {
      srom[p] := b;
      p := p + 1;
    }

    method Long(v: nat)
      requires p + 4 <= srom.Length
      modifies this`p, srom
      ensures p == old(p) + 4 && srom[..p] == old(srom[..p]) + LongBytes(v)
    {
      Byte(ByteOf(v, 0x100_0000));
      Byte(ByteOf(v, 0x1_0000));
      Byte(ByteOf(v, 0x100));
      Byte(ByteOf(v, 1));
    }

    method Word(v: nat)
      requires p + 2 <= srom.Length
      modifies this`p, srom
      ensures p == old(p) + 2 && srom[..p] == old(srom[..p]) + WordBytes(v)
    {
      Byte(ByteOf(v, 0x100));
      Byte(ByteOf(v, 1));
    }

    /** The type byte and 24 bits of an entry. */
    method Entry(id: byte, v: nat)
      requires p + 4 <= srom.Length
      modifies this`p, srom
      ensures p == old(p) + 4 && srom[..p] == old(srom[..p]) + EntryBytes(id, v)
    {
      Byte(id);
      Byte(ByteOf(v, 0x1_0000));
      Byte(ByteOf(v, 0x100));
      Byte(ByteOf(v, 1));
    }

    method PadToEven()
      requires p + p % 2 <= srom.Length
      modifies this`p, srom
      ensures p == old(p) + old(p) % 2 && srom[..p] == old(srom[..p]) + Pad(old(p))
    {
      if p % 2 != 0 {
        Byte(0);
      }
    }

    method Copy(s: seq<byte>)
      requires p + |s| <= srom.Length
      modifies this`p, srom
      ensures p == old(p) + |s| && srom[..p] == old(srom[..p]) + s
    {
      var j := 0;
      while j < |s|
        invariant 0 <= j <= |s| && p == old(p) + j && srom[..p] == old(srom[..p]) + s[..j]
      {
        Byte(s[j]);
        assert s[..j + 1] == s[..j] + [s[j]];
        j := j + 1;
      }
      assert s[..j] == s;
    }

    /** String: the text, its end mark, and a byte if needed to be even. */
    method Text(s: seq<byte>)
      requires p + |PieceBytes(p, SlotRom.Text(s))| <= srom.Length
      modifies this`p, srom
      ensures p == old(p) + |PieceBytes(old(p), SlotRom.Text(s))|
      ensures srom[..p] == old(srom[..p]) + PieceBytes(old(p), SlotRom.Text(s))
    {
      hide Pad;
      ghost var was, pad := srom[..p], Pad(p + |s| + 1);
      PadLength(p + |s| + 1);
      Copy(s);
      Byte(0);
      PadToEven();
      Joined(was, s, [0], pad);
    }

    /** PString: the end mark is stored too, and then stepped back over. */
    method PascalText(s: seq<byte>)
      requires p + |PieceBytes(p, SlotRom.PascalText(s))| < srom.Length
      modifies this`p, srom
      ensures p == old(p) + |PieceBytes(old(p), SlotRom.PascalText(s))|
      ensures srom[..p] == old(srom[..p]) + PieceBytes(old(p), SlotRom.PascalText(s))
    {
      hide Pad;
      ghost var was, pad := srom[..p], Pad(p + |s| + 1);
      PadLength(p + |s| + 1);
      var n := (|s| % 256) as byte;
      Byte(n);
      Copy(s);
      Transient();
      PadToEven();
      Joined(was, [n], s, pad);
    }

    /** The end mark stored behind the text. */
    method Transient()
      requires p < srom.Length
      modifies this`p, srom
      ensures p == old(p) && srom[..p] == old(srom[..p])
    {
      Byte(0);
      p := p - 1;
    }

    method Words(ws: seq<nat>)
      requires p + 2 * |ws| <= srom.Length
      modifies this`p, srom
      ensures p == old(p) + 2 * |ws| && srom[..p] == old(srom[..p]) + WordsBytes(ws)
    {
      hide WordsBytes, WordBytes;
      var j := 0;
      assert ws[..0] == [] && WordsBytes([]) == [];
      while j < |ws|
        invariant 0 <= j <= |ws| && p == old(p) + 2 * j && srom[..p] == old(srom[..p]) + WordsBytes(ws[..j])
      {
        WordsGrow(ws, j);
        Word(ws[j]);
        j := j + 1;
      }
      assert ws[..j] == ws;
    }

    method Piece(piece: SlotRom.Piece)
      requires p + |PieceBytes(p, piece)| < srom.Length
      modifies this`p, srom
      ensures p == old(p) + |PieceBytes(old(p), piece)|
      ensures srom[..p] == old(srom[..p]) + PieceBytes(old(p), piece)
    {
      match piece
      case Words(ws) => Words(ws);
      case Text(s) => Text(s);
      case PascalText(s) => PascalText(s);
    }

    // ---- Parts ----

    /** Room for the next part. */
    lemma Room()
      requires Valid() && i == 0 && k < |plan|
      ensures p == Start(plan, k) && p + |BytesOf(plan, k)| == Start(plan, k + 1) <= |Print(plan)|
      ensures k < |plan| - 1 ==> p + |BytesOf(plan, k)| < BUFFER_SIZE
    {
      hide Print, Starts;
      NextPart(plan, k);
      if k < |plan| - 1 {
        FormatLast(plan);
        StartsOrdered(plan, k + 1, |plan| - 1);
      }
    }

    /** Type words, names, driver code and the gamma table. */
    method Literal(pieces: seq<SlotRom.Piece>) returns (at: nat)
      requires Valid() && i == 0 && k < |plan| - 1 && plan[k] == SlotRom.Literal(pieces)
      modifies this`p, this`k, srom
      ensures Valid() && k == old(k) + 1 && at == Start(plan, old(k))
    {
      hide Print, Starts, PieceBytes, LiteralBytes;
      Room();
      NextPart(plan, k);
      at := p;
      ghost var was := srom[..p];
      var j := 0;
      assert pieces[..0] == [];
      NoPieces(at);
      while j < |pieces|
        invariant k == old(k) && 0 <= j <= |pieces| && p == at + |LiteralBytes(at, pieces[..j])| <= BUFFER_SIZE
        invariant srom[..p] == was + LiteralBytes(at, pieces[..j])
      {
        LiteralGrows(at, pieces, j);
        LiteralGrows(at, pieces, j + 1);
        Piece(pieces[j]);
        j := j + 1;
      }
      assert pieces[..j] == pieces;
      k := k + 1;
    }

    /** A list entry that refers to an earlier part. */
    method Offs(id: byte, ptr: nat)
      requires Valid() && k < |plan| && plan[k].List? && i < |plan[k].items|
      requires var item := plan[k].items[i]; item.Ref? && item.id == id && item.part < k && ptr == Start(plan, item.part)
      modifies this`p, this`i, srom
      ensures Valid() && i == old(i) + 1
    {
      hide Print, Starts, ItemsBytes, EntryBytes, Offset;
      ItemRoom();
      ItemsGrow(Starts(plan)[..k], Start(plan, k), plan[k].items, i);
      Entry(id, Offset(p, ptr));
      i := i + 1;
    }

    /** A list entry that holds 24 bits. */
    method Rsrc(id: byte, data: nat)
      requires Valid() && k < |plan| && plan[k].List? && i < |plan[k].items| && plan[k].items[i] == Data(id, data)
      modifies this`p, this`i, srom
      ensures Valid() && i == old(i) + 1
    {
      hide Print, Starts, ItemsBytes, EntryBytes;
      ItemRoom();
      ItemsGrow(Starts(plan)[..k], Start(plan, k), plan[k].items, i);
      Entry(id, data);
      i := i + 1;
    }

    lemma ItemRoom()
      requires Valid() && k < |plan| && plan[k].List? && i <= |plan[k].items|
      ensures p == Start(plan, k) + 4 * i && p + 4 * (|plan[k].items| - i) + 4 <= BUFFER_SIZE
      ensures srom[..p] == Print(plan[..k]) + ItemsBytes(Starts(plan)[..k], Start(plan, k), plan[k].items[..i])
    {
      hide Print, Starts;
      NextPart(plan, k);
    }

    method EndOfList()
      requires Valid() && k < |plan| && plan[k].List? && i == |plan[k].items|
      modifies this`p, this`k, this`i, srom
      ensures Valid() && k == old(k) + 1 && i == 0
    {
      hide Print, Starts, ItemsBytes;
      ItemRoom();
      NextPart(plan, k);
      assert plan[k].items[..i] == plan[k].items;
      Byte(END_OF_LIST);
      Byte(0);
      Byte(0);
      Byte(0);
      k, i := k + 1, 0;
    }

    /** A number in place of a structure. */
    method Number(v: nat) returns (at: nat)
      requires Valid() && i == 0 && k < |plan| && plan[k] == SlotRom.Number(v)
      modifies this`p, this`k, srom
      ensures Valid() && k == old(k) + 1 && at == Start(plan, old(k))
    {
      hide Print, Starts;
      Room();
      NextPart(plan, k);
      at := p;
      Long(v);
      k := k + 1;
    }

    method VModeParms(m: Monitor, depth: Depth) returns (at: nat)
      requires Valid() && i == 0 && k < |plan| && plan[k] == ParmsPart(m, depth)
      modifies this`p, this`k, srom
      ensures Valid() && k == old(k) + 1 && at == Start(plan, old(k))
    {
      hide Print, Starts, ParmsBytes, GeometryFor;
      Room();
      NextPart(plan, k);
      at := p;
      var g := GeometryFor(m, depth);
      EmitParms(depth, g);
      k := k + 1;
    }

    method EmitParms(depth: Depth, g: Geometry)
      requires p + 50 <= srom.Length
      modifies this`p, srom
      ensures p == old(p) + 50 && srom[..p] == old(srom[..p]) + ParmsBytes(depth, g)
    {
      hide LongBytes, WordBytes, ParmsBytes;
      ghost var was := srom[..p];
      Long(50);
      Long(0);
      Word(g.rowBytes);
      Word(0);
      Word(0);
      Word(g.y);
      Word(g.x);
      Word(0);
      Word(0);
      Long(0);
      Long(0x0048_0000);
      Long(0x0048_0000);
      PixelFormat(depth);
      Long(0);
      Long(0);
      ParmsJoined(was, depth, g);
    }

    /** The depth's pixel type, pixel size, component count and component size. */
    method PixelFormat(depth: Depth)
      requires p + 8 <= srom.Length
      modifies this`p, srom
      ensures p == old(p) + 8
      ensures srom[..p] == FormatAfter(old(srom[..p]), depth)
    {
      hide WordBytes;
      var pixelType, pixelSize, cmpCount, cmpSize := 0, 0, 1, 0;
      match depth {
      case 0 => pixelSize, cmpSize := 1, 1;
      case 1 => pixelSize, cmpSize := 2, 2;
      case 2 => pixelSize, cmpSize := 4, 4;
      case 3 => pixelSize, cmpSize := 8, 8;
      case 4 => pixelType, pixelSize, cmpCount, cmpSize := 16, 16, 3, 5;
      case _ => pixelType, pixelSize, cmpCount, cmpSize := 16, 32, 3, 8;
      }
      Word(pixelType);
      Word(pixelSize);
      Word(cmpCount);
      Word(cmpSize);
    }

    /** Format and header block. */
    method FormatBlock(dir: nat)
      requires Valid() && i == 0 && k == |plan| - 1 && plan[k].Format? && plan[k].dir < k && dir == Start(plan, plan[k].dir)
      modifies this`p, this`k, srom
      ensures Valid() && k == |plan| && p == |Print(plan)|
    {
      hide Print, Starts, LongBytes, WordBytes, EntryBytes;
      Room();
      NextPart(plan, k);
      assert plan[..k + 1] == plan;
      EmitFormat(dir);
      k := k + 1;
    }

    method EmitFormat(dir: nat)
      requires p + 20 <= srom.Length
      modifies this`p, srom
      ensures p == old(p) + 20
      ensures srom[..p] == old(srom[..p])
        + (EntryBytes(0, Offset(old(p), dir)) + LongBytes(old(p) + 20) + LongBytes(0) + WordBytes(0x0101)
           + LongBytes(TEST_PATTERN) + WordBytes(0x000f))
    {
      hide LongBytes, WordBytes, EntryBytes;
      Entry(0, Offset(p, dir));
      Long(p + 16);
      Long(0);
      Word(0x0101);
      Long(TEST_PATTERN);
      Word(0x000f);
    }

    // ---- Sections ----

    /** Whether `part` is at place `at` of the plan and printed already. */
    ghost predicate Placed(part: nat, at: nat)
      reads this
    {
      part < k <= |plan| && at == Start(plan, part)
    }

    /** VModeDesc. */
    method VModeDesc(params: nat, direct: bool, ghost base: nat, ghost d: Depth) returns (at: nat)
      requires Valid() && i == 0 && k < |plan| && plan[k] == List(DescItems(base, d))
      requires direct == (d >= 4) && Placed(base + PARMS + d, params)
      modifies this`p, this`k, this`i, srom
      ensures Valid() && i == 0 && k == old(k) + 1 && at == Start(plan, old(k))
    {
      hide Print, Starts;
      Room();
      at := p;
      Offs(0x01, params);
      Rsrc(0x03, 1);
      Rsrc(0x04, if direct then 2 else 0);
      EndOfList();
    }

    /** The entries of VMonitor for the depths from `from` on. */
    method ModeEntries(modes: Modes, ghost base: nat, vidMode: seq<nat>)
      requires Valid() && k < |plan| && plan[k] == List(MonitorItems(modes, base)) && i == 8 && base + DESCS + 6 <= k
      requires |vidMode| == 6 && forall d: Depth :: vidMode[d] == Start(plan, base + DESCS + d)
      modifies this`p, this`i, srom
      ensures Valid() && i == |MonitorItems(modes, base)|
    {
      hide Print, Starts, ModeItems, ModeId, Valid, HasDepth;
      var d := 0;
      ModeItemsAre(modes, base, 0);
      while d < 6
        invariant 0 <= d <= 6 && Valid() && i == 8 + |ModeItems(modes, base, d)|
      {
        ModeEntry(modes, base, d);
        if HasDepth(modes, d) {
          Offs(ModeId(modes, d), vidMode[d]);
        }
        d := d + 1;
      }
    }

    /** VMonitor. */
    method VMonitor(m: Monitor, videoType: nat, videoName: nat, vidDrvrDir: nat, gammaDir: nat) returns (at: nat)
      requires Valid() && i == 0 && MONITORS <= k && k + PER_MONITOR <= |plan|
      requires plan[k..k + PER_MONITOR] == MonitorParts(m, k)
      requires Placed(VIDEO_TYPE, videoType) && Placed(VIDEO_NAME, videoName)
      requires Placed(VIDEO_DRIVER_DIR, vidDrvrDir) && Placed(GAMMA_DIR, gammaDir)
      modifies this`p, this`k, this`i, srom
      ensures Valid() && i == 0 && k == old(k) + PER_MONITOR && at == Start(plan, old(k) + MONITOR_LIST)
    {
      hide Print, Starts, ParmsPart, DescItems, MonitorItems, GeometryFor, Valid, MonitorParts;
      ghost var base := k;
      MonitorPlan(plan, m, k);
      var minorBase := Number(m.frameBase);
      var minorLength := Number(0);
      var vidMode := VideoModes(m, base);
      at := MonitorList(m, base, videoType, videoName, vidDrvrDir, minorBase, minorLength, gammaDir, vidMode);
    }

    /** The list of VMonitor. */
    method MonitorList(m: Monitor, ghost base: nat, videoType: nat, videoName: nat, vidDrvrDir: nat, minorBase: nat,
                       minorLength: nat, gammaDir: nat, vidMode: seq<nat>) returns (at: nat)
      requires Valid() && i == 0 && MONITORS <= base && k == base + MONITOR_LIST < |plan|
      requires plan[k] == List(MonitorItems(m.modes, base))
      requires Placed(VIDEO_TYPE, videoType) && Placed(VIDEO_NAME, videoName)
      requires Placed(VIDEO_DRIVER_DIR, vidDrvrDir) && Placed(GAMMA_DIR, gammaDir)
      requires Placed(base, minorBase) && Placed(base + 1, minorLength)
      requires |vidMode| == 6 && forall d: Depth :: vidMode[d] == Start(plan, base + DESCS + d)
      modifies this`p, this`k, this`i, srom
      ensures Valid() && i == 0 && k == old(k) + 1 && at == Start(plan, old(k))
    {
      hide Print, Starts, MonitorItems, Valid;
      Room();
      at := p;
      MonitorItemsStart(m.modes, base);
      Offs(0x01, videoType);
      Offs(0x02, videoName);
      Offs(0x04, vidDrvrDir);
      Rsrc(0x08, 0x4232);
      Offs(0x0a, minorBase);
      Offs(0x0b, minorLength);
      Offs(0x40, gammaDir);
      Rsrc(0x7d, 6);
      ModeEntries(m.modes, base, vidMode);
      EndOfList();
    }

    /** The parameter blocks of VMonitor and the lists that refer to them. */
    method VideoModes(m: Monitor, ghost base: nat) returns (vidMode: seq<nat>)
      requires Valid() && i == 0 && k == base + PARMS && base + PER_MONITOR <= |plan|
      requires forall d: Depth :: plan[base + PARMS + d] == ParmsPart(m, d) && plan[base + DESCS + d] == List(DescItems(base, d))
      modifies this`p, this`k, this`i, srom
      ensures Valid() && i == 0 && k == base + MONITOR_LIST
      ensures |vidMode| == 6 && forall d: Depth :: vidMode[d] == Start(plan, base + DESCS + d)
    {
      hide Print, Starts, ParmsPart, DescItems, GeometryFor, Valid;
      var parms1 := VModeParms(m, 0);
      var parms2 := VModeParms(m, 1);
      var parms4 := VModeParms(m, 2);
      var parms8 := VModeParms(m, 3);
      var parms16 := VModeParms(m, 4);
      var parms32 := VModeParms(m, 5);
      vidMode := Descs([parms1, parms2, parms4, parms8, parms16, parms32], base);
    }

    method Descs(parms: seq<nat>, ghost base: nat) returns (vidMode: seq<nat>)
      requires Valid() && i == 0 && k == base + DESCS && base + PER_MONITOR <= |plan|
      requires forall d: Depth :: plan[base + DESCS + d] == List(DescItems(base, d))
      requires |parms| == 6 && forall d: Depth :: parms[d] == Start(plan, base + PARMS + d)
      modifies this`p, this`k, this`i, srom
      ensures Valid() && i == 0 && k == base + MONITOR_LIST
      ensures |vidMode| == 6 && forall d: Depth :: vidMode[d] == Start(plan, base + DESCS + d)
    {
      hide Print, Starts, DescItems, Valid;
      var mode1 := VModeDesc(parms[0], false, base, 0);
      var mode2 := VModeDesc(parms[1], false, base, 1);
      var mode4 := VModeDesc(parms[2], false, base, 2);
      var mode8 := VModeDesc(parms[3], false, base, 3);
      var mode16 := VModeDesc(parms[4], true, base, 4);
      var mode32 := VModeDesc(parms[5], true, base, 5);
      return [mode1, mode2, mode4, mode8, mode16, mode32];
    }

    method Board(t: Texts) returns (at: nat)
      requires Valid() && k == 0 && i == 0 && |plan| > 8 && plan[0..8] == BoardParts(t)
      modifies this`p, this`k, this`i, srom
      ensures Valid() && i == 0 && k == 8 && at == Start(plan, BOARD)
    {
      hide Print, Starts, Valid, BoardParts;
      BoardPlan(plan, t);
      var boardType := Literal(t.boardType);
      var boardName := Literal(t.boardName);
      var vendorId := Literal(t.vendorId);
      var revLevel := Literal(t.revLevel);
      var partNum := Literal(t.partNum);
      var date := Literal(t.date);
      var vendorInfo := VendorInfo(vendorId, revLevel, partNum, date);
      Room();
      at := p;
      Offs(0x01, boardType);
      Offs(0x02, boardName);
      Rsrc(0x20, 0x4232);
      Offs(0x24, vendorInfo);
      EndOfList();
    }

    method VendorInfo(vendorId: nat, revLevel: nat, partNum: nat, date: nat) returns (at: nat)
      requires Valid() && k == VENDOR_INFO < |plan| && i == 0
      requires plan[k] == List([Ref(0x01, 2), Ref(0x03, 3), Ref(0x04, 4), Ref(0x05, 5)])
      requires Placed(2, vendorId) && Placed(3, revLevel) && Placed(4, partNum) && Placed(5, date)
      modifies this`p, this`k, this`i, srom
      ensures Valid() && i == 0 && k == old(k) + 1 && at == Start(plan, VENDOR_INFO)
    {
      hide Print, Starts, Valid;
      Room();
      at := p;
      Offs(0x01, vendorId);
      Offs(0x03, revLevel);
      Offs(0x04, partNum);
      Offs(0x05, date);
      EndOfList();
    }

    method VideoCommon(t: Texts) returns (videoType: nat, videoName: nat, vidDrvrDir: nat, gammaDir: nat)
      requires Valid() && k == VIDEO_TYPE && i == 0 && |plan| > 14 && plan[8..14] == VideoParts(t)
      modifies this`p, this`k, this`i, srom
      ensures Valid() && i == 0 && k == MONITORS
      ensures Placed(VIDEO_TYPE, videoType) && Placed(VIDEO_NAME, videoName)
      ensures Placed(VIDEO_DRIVER_DIR, vidDrvrDir) && Placed(GAMMA_DIR, gammaDir)
    {
      hide Print, Starts, Valid;
      PlanHas(plan, 8, VideoParts(t));
      videoType := Literal(t.videoType);
      videoName := Literal(t.videoName);
      var videoDrvr := Literal(t.videoDriver);
      Room();
      vidDrvrDir := p;
      Offs(0x02, videoDrvr);
      EndOfList();
      var defaultGamma := Literal(t.gamma);
      Room();
      gammaDir := p;
      Offs(0x80, defaultGamma);
      EndOfList();
    }

    method Cpu(t: Texts) returns (at: nat)
      requires Valid() && i == 0 && k + 5 < |plan| && plan[k..k + 5] == CpuParts(t, k)
      modifies this`p, this`k, this`i, srom
      ensures Valid() && i == 0 && k == old(k) + 5 && at == Start(plan, old(k) + 4)
    {
      hide Print, Starts, Valid;
      PlanHas(plan, k, CpuParts(t, k));
      var cpuType := Literal(t.cpuType);
      var cpuName := Literal(t.cpuName);
      var cpuMajor := Literal(t.cpuMajor);
      var cpuMinor := Literal(t.cpuMinor);
      Room();
      at := p;
      Offs(0x01, cpuType);
      Offs(0x02, cpuName);
      Offs(0x81, cpuMajor);
      Offs(0x82, cpuMinor);
      EndOfList();
    }

    method Ether(t: Texts, ghost c: nat) returns (at: nat)
      requires Valid() && i == 0 && k == c + 5 && k + 5 < |plan| && plan[k..k + 5] == EtherParts(t, c)
      modifies this`p, this`k, this`i, srom
      ensures Valid() && i == 0 && k == old(k) + 5 && at == Start(plan, old(k) + 4)
    {
      hide Print, Starts, Valid;
      PlanHas(plan, k, EtherParts(t, c));
      var etherType := Literal(t.etherType);
      var etherName := Literal(t.etherName);
      var etherDrvr := Literal(t.etherDriver);
      Room();
      var etherDrvrDir := p;
      Offs(0x02, etherDrvr);
      EndOfList();
      Room();
      at := p;
      Offs(0x01, etherType);
      Offs(0x02, etherName);
      Offs(0x04, etherDrvrDir);
      Rsrc(0x07, 2);
      Rsrc(0x08, 0x4232);
      EndOfList();
    }

    /** The loop over all displays. */
    method AllMonitors(t: Texts, ms: seq<Monitor>, videoType: nat, videoName: nat, vidDrvrDir: nat, gammaDir: nat)
      returns (sRsrcVideo: seq<nat>)
      requires Valid() && i == 0 && k == MONITORS && plan == RomParts(t, ms)
      requires Placed(VIDEO_TYPE, videoType) && Placed(VIDEO_NAME, videoName)
      requires Placed(VIDEO_DRIVER_DIR, vidDrvrDir) && Placed(GAMMA_DIR, gammaDir)
      modifies this`p, this`k, this`i, srom
      ensures Valid() && i == 0 && k == Base(|ms|)
      ensures |sRsrcVideo| == |ms| && forall n :: 0 <= n < |ms| ==> sRsrcVideo[n] == Start(plan, Base(n) + MONITOR_LIST)
    {
      hide Print, Starts, Valid, RomParts, MonitorParts;
      sRsrcVideo := [];
      var n := 0;
      while n < |ms|
        invariant 0 <= n <= |ms| && Valid() && i == 0 && k == Base(n) && |sRsrcVideo| == n
        invariant forall j :: 0 <= j < n ==> sRsrcVideo[j] == Start(plan, Base(j) + MONITOR_LIST)
      {
        MonitorSection(t, ms, n);
        var at := VMonitor(ms[n], videoType, videoName, vidDrvrDir, gammaDir);
        sRsrcVideo := sRsrcVideo + [at];
        n := n + 1;
      }
    }

    method Dir(n: nat, board: nat, sRsrcVideo: seq<nat>, cpu: nat, ether: nat) returns (at: nat)
      requires Valid() && i == 0 && k == Base(n) + 10 && k < |plan| && plan[k] == List(DirItems(n)) && |sRsrcVideo| == n
      requires Placed(BOARD, board) && Placed(Base(n) + 4, cpu) && Placed(Base(n) + 9, ether)
      requires forall j :: 0 <= j < n ==> sRsrcVideo[j] == Start(plan, Base(j) + MONITOR_LIST)
      modifies this`p, this`k, this`i, srom
      ensures Valid() && i == 0 && k == old(k) + 1 && at == Start(plan, old(k))
    {
      hide Print, Starts, Valid, DirItems, SlotId;
      DirItemsAre(n);
      Room();
      at := p;
      Offs(0x01, board);
      var j := 0;
      while j < n
        invariant 0 <= j <= n && Valid() && i == j + 1 && k == old(k)
      {
        assert plan[k].items[j + 1] == plan[k].items[1..][j];
        Offs(SlotId(j), sRsrcVideo[j]);
        j := j + 1;
      }
      Offs(0xf0, cpu);
      Offs(0xf1, ether);
      EndOfList();
    }

    /** Everything InstallSlotROM prints. */
    method PrintAll(t: Texts, ms: seq<Monitor>)
      requires Valid() && k == 0 && i == 0 && plan == RomParts(t, ms)
      modifies this`p, this`k, this`i, srom
      ensures p <= srom.Length && srom[..p] == Print(RomParts(t, ms))
    {
      hide Print, Starts, Valid, RomParts, BoardParts, VideoParts, CpuParts, EtherParts, DirItems;
      Sections(t, ms);
      var board := Board(t);
      var videoType, videoName, vidDrvrDir, gammaDir := VideoCommon(t);
      var sRsrcVideo := AllMonitors(t, ms, videoType, videoName, vidDrvrDir, gammaDir);
      var cpu := Cpu(t);
      var ether := Ether(t, Base(|ms|));
      var dir := Dir(|ms|, board, sRsrcVideo, cpu, ether);
      FormatBlock(dir);
      Whole();
    }

    lemma Whole()
      requires Valid() && k == |plan| && i == 0
      ensures p <= srom.Length && srom[..p] == Print(plan)
    {
      assert plan[..k] == plan;
    }
  }

  /** Where the sections are in the plan. */
  lemma Sections(t: Texts, ms: seq<Monitor>)
    ensures var plan, c := RomParts(t, ms), Base(|ms|);
      && |plan| == c + 12 && plan[0..8] == BoardParts(t) && plan[8..14] == VideoParts(t)
      && plan[c..c + 5] == CpuParts(t, c) && plan[c + 5..c + 10] == EtherParts(t, c)
      && plan[c + 10] == List(DirItems(|ms|)) && plan[c + 11] == Format(c + 10)
  {
    hide BoardParts, VideoParts, CpuParts, EtherParts, DirItems, AllMonitorParts;
    Sizes(t, Base(|ms|));
  }

  lemma MonitorSection(t: Texts, ms: seq<Monitor>, n: nat)
    requires n < |ms|
    ensures RomParts(t, ms)[Base(n)..Base(n) + PER_MONITOR] == MonitorParts(ms[n], Base(n))
  {
    hide RomParts, MonitorParts;
    var section := RomParts(t, ms)[Base(n)..Base(n) + PER_MONITOR];
    forall j | 0 <= j < PER_MONITOR
      ensures section[j] == MonitorParts(ms[n], Base(n))[j]
    {
      RomPartAt(t, ms, n, j);
    }
  }

  /** InstallSlotROM: the slot ROM with its checksum. */
  method InstallSlotRom(t: Texts, ms: seq<Monitor>) returns (rom: array<byte>)
    requires |Print(RomParts(t, ms))| <= BUFFER_SIZE
    ensures fresh(rom) && rom.Length >= 20 && rom[..] == Built(t, ms).rom
  {
    hide Print, RomParts, Starts, Checksummed;
    FewMonitors(t, ms);
    RomEnds(t, ms);
    var s := new Srom(RomParts(t, ms));
    s.PrintAll(t, ms);
    rom := new byte[s.p];
    CopyBytes(s.srom, 0, rom, 0, s.p);
    assert rom[..] == s.srom[..s.p];
    ChecksumSlotRom(rom);
  }

  lemma MonitorPlan(plan: seq<Part>, m: Monitor, k: nat)
    requires k + PER_MONITOR <= |plan| && plan[k..k + PER_MONITOR] == MonitorParts(m, k)
    ensures plan[k] == SlotRom.Number(m.frameBase) && plan[k + 1] == SlotRom.Number(0)
    ensures plan[k + MONITOR_LIST] == List(MonitorItems(m.modes, k))
    ensures forall d: Depth :: plan[k + PARMS + d] == ParmsPart(m, d) && plan[k + DESCS + d] == List(DescItems(k, d))
  {
    hide ParmsPart, DescItems, MonitorItems;
    PlanHas(plan, k, MonitorParts(m, k));
  }

  lemma BoardPlan(plan: seq<Part>, t: Texts)
    requires |plan| > 8 && plan[0..8] == BoardParts(t)
    ensures plan[0] == SlotRom.Literal(t.boardType) && plan[1] == SlotRom.Literal(t.boardName)
    ensures plan[2] == SlotRom.Literal(t.vendorId) && plan[3] == SlotRom.Literal(t.revLevel)
    ensures plan[4] == SlotRom.Literal(t.partNum) && plan[5] == SlotRom.Literal(t.date)
    ensures plan[VENDOR_INFO] == List([Ref(0x01, 2), Ref(0x03, 3), Ref(0x04, 4), Ref(0x05, 5)])
    ensures plan[BOARD] == List([Ref(0x01, 0), Ref(0x02, 1), Data(0x20, 0x4232), Ref(0x24, VENDOR_INFO)])
  {
    PlanHas(plan, 0, BoardParts(t));
  }

  lemma PlanHas(plan: seq<Part>, k: nat, parts: seq<Part>)
    requires k + |parts| <= |plan| && plan[k..k + |parts|] == parts
    ensures forall j :: k <= j < k + |parts| ==> plan[j] == parts[j - k]
  {
  }

  lemma MonitorItemsStart(modes: Modes, base: nat)
    ensures var items := MonitorItems(modes, base);
      && |items| >= 8 && items[0] == Ref(0x01, VIDEO_TYPE) && items[1] == Ref(0x02, VIDEO_NAME)
      && items[2] == Ref(0x04, VIDEO_DRIVER_DIR) && items[3] == Data(0x08, 0x4232) && items[4] == Ref(0x0a, base)
      && items[5] == Ref(0x0b, base + 1) && items[6] == Ref(0x40, GAMMA_DIR) && items[7] == Data(0x7d, 6)
  {
  }

  lemma ModeEntry(modes: Modes, base: nat, d: Depth)
    ensures var items := MonitorItems(modes, base);
      var i := 8 + |ModeItems(modes, base, d)|;
      && (HasDepth(modes, d) ==>
            i < |items| && items[i] == Ref(ModeId(modes, d), base + DESCS + d) && |ModeItems(modes, base, d + 1)| == i - 7)
      && (!HasDepth(modes, d) ==> |ModeItems(modes, base, d + 1)| == i - 8)
  {
    hide HasDepth, ModeId;
    ModeItemsAre(modes, base, d);
    ModeItemsAre(modes, base, d + 1);
    ModeItemsAre(modes, base, 6);
    RankGrows(modes, d, 6);
  }

  function FormatAfter(was: seq<byte>, depth: Depth): seq<byte> {
    was + WordBytes(if depth >= 4 then 16 else 0) + WordBytes(PixelSize(depth)) + WordBytes(if depth >= 4 then 3 else 1)
    + WordBytes(if depth == 4 then 5 else if depth == 5 then 8 else PixelSize(depth))
  }

  function HeaderAfter(was: seq<byte>, g: Geometry): seq<byte> {
    was + LongBytes(50) + LongBytes(0) + WordBytes(g.rowBytes) + WordBytes(0) + WordBytes(0) + WordBytes(g.y) + WordBytes(g.x)
    + WordBytes(0) + WordBytes(0) + LongBytes(0) + LongBytes(0x0048_0000) + LongBytes(0x0048_0000)
  }

  /** Storing the fields one after the other stores the block. */
  lemma ParmsJoined(was: seq<byte>, depth: Depth, g: Geometry)
    ensures FormatAfter(HeaderAfter(was, g), depth) + LongBytes(0) + LongBytes(0) == was + ParmsBytes(depth, g)
  {
    hide LongBytes, WordBytes;
    HeaderJoined(was, g);
    var head := HeaderAfter([], g);
    assert FormatAfter(HeaderAfter(was, g), depth) + LongBytes(0) + LongBytes(0)
      == was + (FormatAfter(head, depth) + LongBytes(0) + LongBytes(0));
    assert [] + LongBytes(50) == LongBytes(50);
  }

  lemma HeaderJoined(was: seq<byte>, g: Geometry)
    ensures HeaderAfter(was, g) == was + HeaderAfter([], g)
  {
    hide LongBytes, WordBytes;
  }

  lemma Joined(a: seq<byte>, b: seq<byte>, c: seq<byte>, d: seq<byte>)
    ensures a + b + c + d == a + (b + c + d)
  {
  }

  lemma PadLength(at: nat)
    ensures |Pad(at)| == at % 2
  {
  }

  lemma NoPieces(at: nat)
    ensures LiteralBytes(at, []) == []
  {
  }
}
