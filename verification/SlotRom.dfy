/** The slot declaration ROM of src/slot_rom.cpp, as a printer and as the reader that the Slot Manager is. */
module SlotRom {
  import opened Machine
  import opened Buffers

  const TWO24 := 0x100_0000
  const END_OF_LIST: byte := 0xff

  // ---- What is printed ----

  /** An entry of a list: the offset of an earlier part, or 24 bits of data. */
  datatype Item = Ref(id: byte, part: nat) | Data(id: byte, value: nat)

  datatype Piece = Words(words: seq<nat>) | Text(s: seq<byte>) | PascalText(s: seq<byte>)

  /** The variable fields of a video parameter block. */
  datatype Geometry = Geometry(rowBytes: nat, y: nat, x: nat)

  /** Parts refer to each other by their place in the sequence of parts. */
  datatype Part =
    | Literal(pieces: seq<Piece>)
    | Number(value: nat)
    | Parms(depth: nat, g: Geometry)
    | List(items: seq<Item>)
    | Format(dir: nat)

  function ByteOf(v: nat, unit: nat): byte
    requires unit > 0
  {
    ((v / unit) % 256) as byte
  }

  function WordBytes(v: nat): (r: seq<byte>)
    ensures |r| == 2
  {
    [ByteOf(v, 0x100), ByteOf(v, 1)]
  }

  function LongBytes(v: nat): (r: seq<byte>)
    ensures |r| == 4
  {
    [ByteOf(v, 0x100_0000), ByteOf(v, 0x1_0000), ByteOf(v, 0x100), ByteOf(v, 1)]
  }

  function EntryBytes(id: byte, v: nat): (r: seq<byte>)
    ensures |r| == 4
  {
    [id, ByteOf(v, 0x1_0000), ByteOf(v, 0x100), ByteOf(v, 1)]
  }

  function WordsBytes(ws: seq<nat>): (r: seq<byte>)
    ensures |r| == 2 * |ws|
  {
    if ws == [] then [] else WordsBytes(ws[..|ws| - 1]) + WordBytes(ws[|ws| - 1])
  }

  function Pad(at: nat): seq<byte> { if at % 2 == 0 then [] else [0] }

  function PieceBytes(at: nat, piece: Piece): (r: seq<byte>)
    ensures at % 2 == 0 ==> |r| % 2 == 0
  {
    match piece
    case Words(ws) => WordsBytes(ws)
    case Text(s) => PaddedEven(at, |s| + 1); s + [0] + Pad(at + |s| + 1)
    case PascalText(s) => PaddedEven(at, |s| + 1); [(|s| % 256) as byte] + s + Pad(at + |s| + 1)
  }

  lemma PaddedEven(at: nat, n: nat)
    ensures at % 2 == 0 ==> (n + |Pad(at + n)|) % 2 == 0
  {
  }

  function LiteralBytes(at: nat, pieces: seq<Piece>): (r: seq<byte>)
    ensures at % 2 == 0 ==> |r| % 2 == 0
  {
    if pieces == [] then []
    else
      var front := LiteralBytes(at, pieces[..|pieces| - 1]);
      var last := PieceBytes(at + |front|, pieces[|pieces| - 1]);
      EvenSum(at, |front|, |last|);
      front + last
  }

  lemma EvenSum(a: nat, b: nat, c: nat)
    ensures a % 2 == 0 && b % 2 == 0 ==> (a + b) % 2 == 0
    ensures b % 2 == 0 && c % 2 == 0 ==> (b + c) % 2 == 0
  {
  }

  function PixelSize(depth: nat): nat {
    if depth == 0 then 1 else if depth == 1 then 2 else if depth == 2 then 4 else if depth == 3 then 8
    else if depth == 4 then 16 else 32
  }

  /** VModeParms: 50 bytes. */
  function ParmsBytes(depth: nat, g: Geometry): (r: seq<byte>)
    ensures |r| == 50
  {
    LongBytes(50) + LongBytes(0) + WordBytes(g.rowBytes) + WordBytes(0) + WordBytes(0) + WordBytes(g.y) + WordBytes(g.x)
    + WordBytes(0) + WordBytes(0) + LongBytes(0) + LongBytes(0x0048_0000) + LongBytes(0x0048_0000)
    + WordBytes(if depth >= 4 then 16 else 0) + WordBytes(PixelSize(depth))
    + WordBytes(if depth >= 4 then 3 else 1)
    + WordBytes(if depth == 4 then 5 else if depth == 5 then 8 else PixelSize(depth))
    + LongBytes(0) + LongBytes(0)
  }

  /** Offs: a 24-bit offset from the entry itself. */
  function Offset(at: nat, target: nat): (r: nat)
    ensures r < TWO24
  {
    (target - at) % TWO24
  }

  function ItemBytes(starts: seq<nat>, at: nat, item: Item): (r: seq<byte>)
    ensures |r| == 4
  {
    match item
    case Ref(id, part) => EntryBytes(id, if part < |starts| then Offset(at, starts[part]) else 0)
    case Data(id, value) => EntryBytes(id, value)
  }

  function ItemsBytes(starts: seq<nat>, at: nat, items: seq<Item>): (r: seq<byte>)
    ensures |r| == 4 * |items|
  {
    if items == [] then []
    else
      var n := |items| - 1;
      ItemsBytes(starts, at, items[..n]) + ItemBytes(starts, at + 4 * n, items[n])
  }

  const TEST_PATTERN := 0x5a93_2bc7

  /** A part printed at `at`, given where the parts in front of it start. */
  function PartBytes(starts: seq<nat>, at: nat, part: Part): seq<byte> {
    match part
    case Literal(pieces) => LiteralBytes(at, pieces)
    case Number(v) => LongBytes(v)
    case Parms(depth, g) => ParmsBytes(depth, g)
    case List(items) => ItemsBytes(starts, at, items) + [END_OF_LIST, 0, 0, 0]
    case Format(dir) =>
      ItemBytes(starts, at, Ref(0, dir)) + LongBytes(at + 20) + LongBytes(0) + WordBytes(0x0101)
      + LongBytes(TEST_PATTERN) + WordBytes(0x000f)
  }

  /** Where each part starts, and the end. */
  function Starts(parts: seq<Part>): (r: seq<nat>)
    ensures |r| == |parts| + 1
  {
    if parts == [] then [0]
    else
      var n := |parts| - 1;
      var s := Starts(parts[..n]);
      s + [s[n] + |PartBytes(s[..n], s[n], parts[n])|]
  }

  function Start(parts: seq<Part>, k: nat): nat
    requires k <= |parts|
  {
    Starts(parts)[k]
  }

  function Print(parts: seq<Part>): (r: seq<byte>)
    ensures |r| == Start(parts, |parts|)
  {
    if parts == [] then []
    else
      var n := |parts| - 1;
      var s := Starts(parts[..n]);
      Print(parts[..n]) + PartBytes(s[..n], s[n], parts[n])
  }

  /** The bytes of the k-th part. */
  function BytesOf(parts: seq<Part>, k: nat): seq<byte>
    requires k < |parts|
  {
    PartBytes(Starts(parts)[..k], Start(parts, k), parts[k])
  }

  // ---- The printer ----

  lemma {:induction false} LastStart(parts: seq<Part>)
    requires parts != []
    ensures var n := |parts| - 1;
      var s := Starts(parts[..n]);
      Starts(parts) == s + [s[n] + |PartBytes(s[..n], s[n], parts[n])|]
  {
    hide PartBytes;
  }

  lemma {:induction false} LastPrint(parts: seq<Part>)
    requires parts != []
    ensures var n := |parts| - 1;
      var s := Starts(parts[..n]);
      Print(parts) == Print(parts[..n]) + PartBytes(s[..n], s[n], parts[n])
  {
    hide PartBytes, Starts;
  }

  /** Printing the last part after the others. */
  lemma {:induction false} LastPart(parts: seq<Part>)
    requires parts != []
    ensures var n := |parts| - 1;
      var s := Starts(parts[..n]);
      var bytes := PartBytes(s[..n], s[n], parts[n]);
      && Starts(parts) == s + [s[n] + |bytes|]
      && Print(parts) == Print(parts[..n]) + bytes
      && BytesOf(parts, n) == bytes
  {
    hide PartBytes, Starts, Print;
    var n := |parts| - 1;
    LastStart(parts);
    LastPrint(parts);
    assert Starts(parts)[..n] == Starts(parts[..n])[..n];
  }

  /** A part starts where the parts in front of it end. */
  lemma {:induction false} StartsInFront(parts: seq<Part>, k: nat)
    requires k <= |parts|
    ensures Starts(parts)[..k + 1] == Starts(parts[..k])
    ensures Start(parts, k) == Start(parts[..k], k)
  {
    hide PartBytes, Starts, Print, BytesOf;
    var n := |parts|;
    if k < n {
      var front := parts[..n - 1];
      StartsInFront(front, k);
      assert front[..k] == parts[..k];
      LastPart(parts);
      assert Starts(parts)[..k + 1] == Starts(parts)[..n][..k + 1];
    } else {
      assert parts[..k] == parts;
    }
    assert Starts(parts)[..k + 1][k] == Start(parts, k);
  }

  /** Every part is printed where Start says, whatever follows it. */
  lemma {:induction false} PartAt(parts: seq<Part>, k: nat)
    requires k < |parts|
    ensures Start(parts, k) + |BytesOf(parts, k)| == Start(parts, k + 1) <= |Print(parts)|
    ensures Print(parts)[Start(parts, k)..Start(parts, k + 1)] == BytesOf(parts, k)
  {
    hide PartBytes, Starts, Print;
    var n := |parts| - 1;
    LastPart(parts);
    if k < n {
      var front := parts[..n];
      PartAt(front, k);
      assert Starts(parts)[..k] == Starts(front)[..k];
      assert Print(parts)[Start(parts, k)..Start(parts, k + 1)] == Print(front)[Start(front, k)..Start(front, k + 1)];
    }
  }

  lemma {:induction false} StartsOrdered(parts: seq<Part>, j: nat, k: nat)
    requires j <= k <= |parts|
    ensures Start(parts, j) <= Start(parts, k)
    decreases k
  {
    hide Starts, BytesOf, Print;
    if j < k {
      StartsOrdered(parts, j, k - 1);
      PartAt(parts, k - 1);
    }
  }

  lemma {:induction false} PartIsEven(starts: seq<nat>, at: nat, part: Part)
    requires at % 2 == 0
    ensures |PartBytes(starts, at, part)| % 2 == 0
  {
    hide LiteralBytes, ParmsBytes, LongBytes, WordBytes, ItemBytes, ItemsBytes;
    match part
    case Literal(_) =>
    case Number(_) =>
    case Parms(_, _) =>
    case List(items) =>
      assert |PartBytes(starts, at, part)| == 2 * (2 * |items| + 2);
      TwiceIsEven(2 * |items| + 2);
    case Format(_) => assert |PartBytes(starts, at, part)| == 20;
  }

  lemma TwiceIsEven(n: nat)
    ensures 2 * n % 2 == 0
  {
  }

  /** Every part starts at an even address. */
  lemma {:induction false} EvenStarts(parts: seq<Part>, k: nat)
    requires k <= |parts|
    ensures Start(parts, k) % 2 == 0
    decreases k
  {
    hide Start, Starts, PartBytes, Print;
    if k > 0 {
      EvenStarts(parts, k - 1);
      PartAt(parts, k - 1);
      PartIsEven(Starts(parts)[..k - 1], Start(parts, k - 1), parts[k - 1]);
    } else {
      FirstStart(parts);
    }
  }

  lemma {:induction false} FirstStart(parts: seq<Part>)
    ensures Start(parts, 0) == 0
  {
    StartsInFront(parts, 0);
    assert Starts(parts)[..1][0] == Starts(parts[..0])[0];
  }

  // ---- The reader ----

  /** What the Slot Manager sees at an entry: the id, the data, and the address it would follow. */
  datatype Entry = Entry(id: byte, value: nat, target: int)

  function Field24(rom: seq<byte>, at: nat): (r: nat)
    requires at + 4 <= |rom|
    ensures r < TWO24
  {
    rom[at + 1] as int * 0x1_0000 + rom[at + 2] as int * 0x100 + rom[at + 3] as int
  }

  function Signed24(v: nat): int { if v < 0x80_0000 then v else v - TWO24 }

  function ReadEntry(rom: seq<byte>, at: nat): Entry
    requires at + 4 <= |rom|
  {
    var v := Field24(rom, at);
    Entry(rom[at], v, at + Signed24(v))
  }

  /** The entries of the list at `at`, up to the end mark; None when the data ends first. */
  function ReadList(rom: seq<byte>, at: nat): Option<seq<Entry>>
    decreases |rom| - at
  {
    if at + 4 > |rom| then None
    else if rom[at] == END_OF_LIST then Some([])
    else match ReadList(rom, at + 4)
      case None => None
      case Some(rest) => Some([ReadEntry(rom, at)] + rest)
  }

  /** SFindStruct: the address that entry `id` of the list leads to. */
  function FindStruct(rom: seq<byte>, list: nat, id: byte): Option<int> {
    match ReadList(rom, list)
    case None => None
    case Some(entries) => FindEntry(entries, id)
  }

  function FindEntry(entries: seq<Entry>, id: byte): Option<int> {
    if entries == [] then None
    else if entries[0].id == id then Some(entries[0].target)
    else FindEntry(entries[1..], id)
  }

  /** The entry reads as the item: the same id, and the data or the start of the part. */
  predicate Says(starts: seq<nat>, e: Entry, item: Item) {
    && e.id == item.id
    && (match item
        case Ref(_, part) => part < |starts| && e.target == starts[part]
        case Data(_, value) => e.value == value % TWO24)
  }

  predicate ReadsAs(starts: seq<nat>, entries: seq<Entry>, items: seq<Item>) {
    |entries| == |items| && forall i :: 0 <= i < |items| ==> Says(starts, entries[i], items[i])
  }

  /** References go backwards and no id is the end mark. */
  predicate WellFormedList(items: seq<Item>, k: nat) {
    forall i :: 0 <= i < |items| ==> items[i].id != END_OF_LIST && (items[i].Ref? ==> items[i].part < k)
  }

  lemma EntryReadsBack(v: nat, id: byte, rom: seq<byte>, at: nat)
    requires at + 4 <= |rom| && rom[at..at + 4] == EntryBytes(id, v)
    ensures rom[at] == id && Field24(rom, at) == v % TWO24
  {
    var b := EntryBytes(id, v);
    assert rom[at] == b[0] && rom[at + 1] == b[1] && rom[at + 2] == b[2] && rom[at + 3] == b[3];
    Digits(v);
  }

  lemma Digits(v: nat)
    ensures (v / 0x1_0000) % 256 * 0x1_0000 + (v / 0x100) % 256 * 0x100 + v % 256 == v % TWO24
  {
    var h := v / 0x1_0000;
    assert v / 0x100 == h * 256 + v / 0x100 % 256;
    assert h == h / 256 * 256 + h % 256;
  }

  lemma OffsetLeadsBack(at: nat, target: nat)
    requires at < 0x80_0000 && target < 0x80_0000
    ensures at + Signed24(Offset(at, target)) == target
  {
  }

  lemma ItemReadsBack(starts: seq<nat>, rom: seq<byte>, at: nat, item: Item)
    requires at + 4 <= |rom| && rom[at..at + 4] == ItemBytes(starts, at, item) && at < 0x80_0000
    requires item.Ref? ==> item.part < |starts| && starts[item.part] < 0x80_0000
    ensures Says(starts, ReadEntry(rom, at), item) && rom[at] == item.id
  {
    hide EntryBytes, Offset, Signed24, Field24;
    match item
    case Ref(id, part) =>
      EntryReadsBack(Offset(at, starts[part]), id, rom, at);
      assert Offset(at, starts[part]) % TWO24 == Offset(at, starts[part]);
      OffsetLeadsBack(at, starts[part]);
    case Data(id, value) => EntryReadsBack(value, id, rom, at);
  }

  /** Items i and up read back, given their bytes. */
  lemma {:induction false} ItemsReadBack(starts: seq<nat>, rom: seq<byte>, at: nat, items: seq<Item>, i: nat)
    requires i <= |items| && at + 4 * |items| + 4 <= |rom| < 0x80_0000
    requires forall j :: 0 <= j < |items| ==> rom[at + 4 * j..at + 4 * j + 4] == ItemBytes(starts, at + 4 * j, items[j])
    requires rom[at + 4 * |items|] == END_OF_LIST && WellFormedList(items, |starts|)
    requires forall j :: 0 <= j < |starts| ==> starts[j] < 0x80_0000
    ensures var r := ReadList(rom, at + 4 * i); r.Some? && ReadsAs(starts, r.value, items[i..])
    decreases |items| - i
  {
    hide ItemBytes, Says, ReadEntry;
    if i < |items| {
      ItemReadsBack(starts, rom, at + 4 * i, items[i]);
      ItemsReadBack(starts, rom, at, items, i + 1);
      var rest := ReadList(rom, at + 4 * (i + 1)).value;
      var all := [ReadEntry(rom, at + 4 * i)] + rest;
      assert ReadList(rom, at + 4 * i) == Some(all);
      forall j | 0 <= j < |items| - i
        ensures Says(starts, all[j], items[i..][j])
      {
        if j > 0 {
          assert all[j] == rest[j - 1] && items[i..][j] == items[i + 1..][j - 1];
        }
      }
    }
  }

  lemma {:induction false} ItemBytesAt(starts: seq<nat>, at: nat, items: seq<Item>, j: nat)
    requires j < |items|
    ensures ItemsBytes(starts, at, items)[4 * j..4 * j + 4] == ItemBytes(starts, at + 4 * j, items[j])
    decreases |items|
  {
    hide ItemBytes;
    var n := |items| - 1;
    var front, last := ItemsBytes(starts, at, items[..n]), ItemBytes(starts, at + 4 * n, items[n]);
    assert ItemsBytes(starts, at, items) == front + last;
    if j < n {
      ItemBytesAt(starts, at, items[..n], j);
      assert (front + last)[4 * j..4 * j + 4] == front[4 * j..4 * j + 4];
    } else {
      assert (front + last)[4 * j..4 * j + 4] == last;
    }
  }

  /** The bytes of a list, somewhere in the data, read back as its items. */
  lemma {:induction false} ListBytesReadBack(starts: seq<nat>, rom: seq<byte>, at: nat, items: seq<Item>)
    requires at + 4 * |items| + 4 <= |rom| < 0x80_0000 && WellFormedList(items, |starts|)
    requires rom[at..at + 4 * |items| + 4] == ItemsBytes(starts, at, items) + [END_OF_LIST, 0, 0, 0]
    requires forall j :: 0 <= j < |starts| ==> starts[j] < 0x80_0000
    ensures var r := ReadList(rom, at); r.Some? && ReadsAs(starts, r.value, items)
  {
    hide ItemBytes, ItemsBytes, WellFormedList, ReadList, ReadsAs;
    var body, n := ItemsBytes(starts, at, items), 4 * |items| + 4;
    var bytes := body + [END_OF_LIST, 0, 0, 0];
    forall j | 0 <= j < |items|
      ensures rom[at + 4 * j..at + 4 * j + 4] == ItemBytes(starts, at + 4 * j, items[j])
    {
      ItemBytesAt(starts, at, items, j);
      SliceOfSlice(rom, at, n, 4 * j, 4);
      assert bytes[4 * j..4 * j + 4] == body[4 * j..4 * j + 4];
    }
    assert rom[at..at + n][4 * |items|] == END_OF_LIST;
    ItemsReadBack(starts, rom, at, items, 0);
    assert items[0..] == items;
  }

  lemma StartsInside(parts: seq<Part>, j: nat)
    requires j <= |parts|
    ensures Start(parts, j) <= |Print(parts)|
  {
    StartsOrdered(parts, j, |parts|);
  }

  /** The k-th part is found in the data where it was printed. */
  predicate Contains(rom: seq<byte>, parts: seq<Part>, k: nat)
    requires k < |parts|
  {
    |rom| == |Print(parts)| && Start(parts, k) <= Start(parts, k + 1) <= |rom|
    && rom[Start(parts, k)..Start(parts, k + 1)] == BytesOf(parts, k)
  }

  /** Every printed list reads back: the ids and data it was built with, and the starts of the parts it
      refers to. */
  lemma ListReadsBack(rom: seq<byte>, parts: seq<Part>, k: nat)
    requires k < |parts| && Contains(rom, parts, k) && |rom| < 0x80_0000
    requires parts[k].List? && WellFormedList(parts[k].items, k)
    ensures var r := ReadList(rom, Start(parts, k));
      r.Some? && ReadsAs(Starts(parts)[..k], r.value, parts[k].items)
  {
    hide ItemsBytes, WellFormedList, ReadList, ReadsAs, Print, Starts;
    PartAt(parts, k);
    forall j | 0 <= j < k
      ensures Starts(parts)[..k][j] < 0x80_0000
    {
      StartsInside(parts, j);
    }
    ListBytesReadBack(Starts(parts)[..k], rom, Start(parts, k), parts[k].items);
  }

  /** The id of each entry is greater than the one before. */
  predicate Ascending(items: seq<Item>) { forall i, j :: 0 <= i < j < |items| ==> items[i].id < items[j].id }

  lemma {:induction false} FindsEntry(starts: seq<nat>, entries: seq<Entry>, items: seq<Item>, i: nat)
    requires ReadsAs(starts, entries, items) && i < |items| && items[i].Ref?
    requires forall j :: 0 <= j < i ==> items[j].id != items[i].id
    ensures items[i].part < |starts| && FindEntry(entries, items[i].id) == Some(starts[items[i].part])
    decreases i
  {
    assert Says(starts, entries[0], items[0]);
    assert Says(starts, entries[i], items[i]);
    if i > 0 {
      assert forall j :: 0 <= j < |items| - 1 ==> entries[1..][j] == entries[j + 1] && items[1..][j] == items[j + 1];
      FindsEntry(starts, entries[1..], items[1..], i - 1);
    }
  }

  /** So SFindStruct on a printed list with ascending ids leads from an id to the part it was built for. */
  lemma FindsPart(rom: seq<byte>, parts: seq<Part>, k: nat, i: nat)
    requires k < |parts| && Contains(rom, parts, k) && |rom| < 0x80_0000
    requires parts[k].List? && WellFormedList(parts[k].items, k) && Ascending(parts[k].items)
    requires i < |parts[k].items| && parts[k].items[i].Ref?
    ensures var item := parts[k].items[i];
      item.part < k && FindStruct(rom, Start(parts, k), item.id) == Some(Start(parts, item.part))
  {
    hide Contains, Starts, ReadsAs, ReadList, FindEntry;
    ListReadsBack(rom, parts, k);
    var entries := ReadList(rom, Start(parts, k)).value;
    FindsEntry(Starts(parts)[..k], entries, parts[k].items, i);
  }

  // ---- Replacing a part in place ----

  predicate Replaces(x: Part, y: Part) { (x.Number? && y.Number?) || (x.Parms? && y.Parms?) }

  lemma ReplaceLength(starts: seq<nat>, at: nat, x: Part, y: Part)
    requires Replaces(x, y)
    ensures |PartBytes(starts, at, x)| == |PartBytes(starts, at, y)|
  {
  }

  lemma {:induction false} ReplaceStarts(parts: seq<Part>, i: nat, x: Part)
    requires i < |parts| && Replaces(parts[i], x)
    ensures Starts(parts[i := x]) == Starts(parts)
  {
    hide PartBytes, Starts, Print, Replaces;
    var n := |parts| - 1;
    var changed := parts[i := x];
    LastPart(parts);
    LastPart(changed);
    if i < n {
      ReplaceStarts(parts[..n], i, x);
      assert changed[..n] == parts[..n][i := x];
    } else {
      assert changed[..n] == parts[..n];
      var s := Starts(parts[..n]);
      ReplaceLength(s[..n], s[n], parts[n], x);
    }
  }

  lemma OverwriteJoined(a: seq<byte>, b: seq<byte>, at: nat, x: seq<byte>)
    requires at + |x| <= |a| + |b|
    ensures at + |x| <= |a| ==> Overwrite(a + b, at, x) == Overwrite(a, at, x) + b
    ensures at == |a| && |x| == |b| ==> Overwrite(a + b, at, x) == a + x
  {
  }

  /** Printing with one number or parameter block exchanged changes just its bytes. */
  lemma {:induction false} ReplacePart(parts: seq<Part>, i: nat, x: Part)
    requires i < |parts| && Replaces(parts[i], x)
    ensures Starts(parts[i := x]) == Starts(parts)
    ensures Start(parts, i) + |BytesOf(parts[i := x], i)| == Start(parts, i + 1) <= |Print(parts)|
    ensures Print(parts[i := x]) == Overwrite(Print(parts), Start(parts, i), BytesOf(parts[i := x], i))
  {
    hide PartBytes, Starts, Print, Replaces, Overwrite;
    var n := |parts| - 1;
    var changed := parts[i := x];
    ReplaceStarts(parts, i, x);
    PartAt(parts, i);
    PartAt(changed, i);
    LastPart(parts);
    LastPart(changed);
    var last := BytesOf(parts, n);
    var bytes := BytesOf(changed, i);
    OverwriteJoined(Print(parts[..n]), last, Start(parts, i), bytes);
    if i < n {
      ReplacePart(parts[..n], i, x);
      assert changed[..n] == parts[..n][i := x];
      assert Starts(parts)[..i] == Starts(parts[..n])[..i];
      assert bytes == BytesOf(changed[..n], i);
    } else {
      assert changed[..n] == parts[..n];
    }
  }
}
