/** Preferences items, and the text they are saved to and loaded from: src/prefs.cpp. */
module Prefs {
  import opened Machine

  datatype Kind = KString | KBool | KInt

  /** A known keyword. */
  datatype Desc = Desc(name: string, kind: Kind, multiple: bool)

  datatype Value = S(s: string) | B(b: bool) | I(i: int)
  datatype Node = Node(name: string, value: Value)
  type Store = seq<Node>

  function KindOf(v: Value): Kind { match v case S(_) => KString case B(_) => KBool case I(_) => KInt }

  // ---- The store, as a value ----

  predicate Holds(n: Node, name: string, kind: Kind) { n.name == name && KindOf(n.value) == kind }

  /** All values of a keyword, in order. */
  function Values(st: Store, name: string, kind: Kind): (r: seq<Value>)
    ensures forall i :: 0 <= i < |r| ==> KindOf(r[i]) == kind
  {
    if st == [] then []
    else
      var n := |st| - 1;
      Values(st[..n], name, kind) + (if Holds(st[n], name, kind) then [st[n].value] else [])
  }

  /** find_node: the place of the index-th item, or the end. */
  function FindNode(st: Store, name: string, kind: Kind, index: nat): (r: nat)
    ensures r <= |st|
    ensures r < |st| ==> Holds(st[r], name, kind)
  {
    if st == [] then 0
    else if !Holds(st[0], name, kind) then FindNode(st[1..], name, kind, index) + 1
    else if index == 0 then 0
    else FindNode(st[1..], name, kind, index - 1) + 1
  }

  function FindString(st: Store, name: string, index: nat): Option<string> {
    var i := FindNode(st, name, KString, index);
    if i < |st| then Some(st[i].value.s) else None
  }

  function FindBool(st: Store, name: string): bool {
    var i := FindNode(st, name, KBool, 0);
    i < |st| && st[i].value.b
  }

  function FindInt(st: Store, name: string): int {
    var i := FindNode(st, name, KInt, 0);
    if i < |st| then st[i].value.i else 0
  }

  function Added(st: Store, name: string, v: Value): Store { st + [Node(name, v)] }

  function Replaced(st: Store, name: string, v: Value): Store {
    var i := FindNode(st, name, KindOf(v), 0);
    if i < |st| then st[i := Node(name, v)] else Added(st, name, v)
  }

  lemma {:induction false} FindNodeStep(st: Store, name: string, kind: Kind, index: nat)
    requires st != []
    ensures FindNode(st, name, kind, index) ==
      if !Holds(st[0], name, kind) then FindNode(st[1..], name, kind, index) + 1
      else if index == 0 then 0
      else FindNode(st[1..], name, kind, index - 1) + 1
  {
  }

  lemma {:induction false} FindNodeEnd(st: Store, name: string, kind: Kind, index: nat)
    requires st == []
    ensures FindNode(st, name, kind, index) == 0
  {
  }

  /** Finding by index is looking into the list of values. */
  lemma {:induction false} FindsValue(st: Store, name: string, kind: Kind, index: nat)
    ensures var vs, i := Values(st, name, kind), FindNode(st, name, kind, index);
      (i < |st| <==> index < |vs|) && (i < |st| ==> st[i].value == vs[index])
    decreases |st|
  {
    hide FindNode, Values;
    if st == [] {
      FindNodeEnd(st, name, kind, index);
      NoValues(name, kind);
    } else {
      ValuesFirst(st, name, kind);
      FindNodeStep(st, name, kind, index);
      if !Holds(st[0], name, kind) {
        FindsValue(st[1..], name, kind, index);
      } else if index > 0 {
        FindsValue(st[1..], name, kind, index - 1);
      }
    }
  }

  lemma {:induction false} ValuesFirst(st: Store, name: string, kind: Kind)
    requires st != []
    ensures Values(st, name, kind) == (if Holds(st[0], name, kind) then [st[0].value] else []) + Values(st[1..], name, kind)
    decreases |st|
  {
    var n := |st| - 1;
    if n > 0 {
      ValuesFirst(st[..n], name, kind);
      assert st[..n][1..] == st[1..][..n - 1];
    }
  }

  lemma {:induction false} ValuesAdded(st: Store, name: string, v: Value, other: string, kind: Kind)
    ensures Values(Added(st, name, v), other, kind)
      == Values(st, other, kind) + (if other == name && kind == KindOf(v) then [v] else [])
  {
    assert Added(st, name, v)[..|st|] == st;
  }

  lemma {:induction false} ValuesUpdated(st: Store, i: nat, v: Value, other: string, kind: Kind)
    requires i < |st| && KindOf(st[i].value) == KindOf(v) && i == FindNode(st, st[i].name, KindOf(v), 0)
    ensures Values(st[i := Node(st[i].name, v)], other, kind)
      == if other == st[i].name && kind == KindOf(v) then
           var vs := Values(st, other, kind); if vs == [] then [] else vs[0 := v]
         else Values(st, other, kind)
    decreases |st|
  {
    hide Values, FindNode;
    var u := st[i := Node(st[i].name, v)];
    ValuesFirst(st, other, kind);
    ValuesFirst(u, other, kind);
    FindNodeStep(st, st[i].name, KindOf(v), 0);
    if i > 0 {
      ValuesUpdated(st[1..], i - 1, v, other, kind);
      assert u[1..] == st[1..][i - 1 := Node(st[i].name, v)];
    } else {
      assert u[1..] == st[1..];
    }
  }

  /** Replacing changes the first value of its keyword and kind, or adds one, and nothing else. */
  lemma {:induction false} ValuesReplaced(st: Store, name: string, v: Value, other: string, kind: Kind)
    ensures var vs := Values(st, other, kind);
      Values(Replaced(st, name, v), other, kind)
      == if other == name && kind == KindOf(v) then (if vs == [] then [v] else vs[0 := v]) else vs
  {
    var i := FindNode(st, name, KindOf(v), 0);
    FindsValue(st, name, KindOf(v), 0);
    if i < |st| {
      ValuesUpdated(st, i, v, other, kind);
    } else {
      ValuesAdded(st, name, v, other, kind);
    }
  }

  // ---- Numbers ----

  function DigitChar(d: nat): char
    requires d < 10
  {
    '0' + d as char
  }

  function Digits(n: nat): (r: string)
    ensures |r| >= 1
  {
    if n < 10 then [DigitChar(n)] else Digits(n / 10) + [DigitChar(n % 10)]
  }

  /** "%d". */
  function Decimal(v: int): string { if v < 0 then "-" + Digits(-v) else Digits(v) }

  predicate IsDigit(c: char) { '0' <= c <= '9' }

  /** The number that the leading digits of s make, after `acc`. */
  function DigitsValue(s: string, acc: nat): nat {
    if s == [] || !IsDigit(s[0]) then acc else DigitsValue(s[1..], 10 * acc + (s[0] - '0') as nat)
  }

  /** atol: a sign and digits; numbers that do not fit become the nearest that does. */
  function Atol(s: string): (r: int)
    ensures -TWO31 <= r < TWO31
  {
    var signed := s != [] && (s[0] == '-' || s[0] == '+');
    var n := DigitsValue(if signed then s[1..] else s, 0);
    var v: int := if signed && s[0] == '-' then -(n as int) else n as int;
    if v < -TWO31 then -TWO31 else if v >= TWO31 then TWO31 - 1 else v
  }

  predicate AllDigits(s: string) { forall i :: 0 <= i < |s| ==> IsDigit(s[i]) }

  lemma {:induction false} ValueOfLast(s: string, c: char, acc: nat)
    requires AllDigits(s) && IsDigit(c)
    ensures DigitsValue(s + [c], acc) == 10 * DigitsValue(s, acc) + (c - '0') as nat
    decreases |s|
  {
    if s == [] {
      assert DigitsValue([c], acc) == DigitsValue([], 10 * acc + (c - '0') as nat);
    } else {
      assert (s + [c])[1..] == s[1..] + [c];
      ValueOfLast(s[1..], c, 10 * acc + (s[0] - '0') as nat);
    }
  }

  lemma {:induction false} DigitsReadBack(n: nat)
    ensures AllDigits(Digits(n)) && DigitsValue(Digits(n), 0) == n
  {
    if n >= 10 {
      DigitsReadBack(n / 10);
      ValueOfLast(Digits(n / 10), DigitChar(n % 10), 0);
    } else {
      assert Digits(n)[1..] == [];
    }
  }

  /** A printed number reads back. */
  lemma NumberReadsBack(v: int)
    requires -TWO31 <= v < TWO31
    ensures Atol(Decimal(v)) == v
  {
    if v < 0 {
      DigitsReadBack(-v);
      assert Decimal(v)[1..] == Digits(-v);
    } else {
      DigitsReadBack(v);
      assert IsDigit(Digits(v)[0]);
    }
  }

  lemma {:induction false} DigitsShort(n: nat, k: nat, bound: nat)
    requires n < bound && bound == Power10(k) && k >= 1
    ensures |Digits(n)| <= k
    decreases k
  {
    if n >= 10 {
      assert Power10(k) == 10 * Power10(k - 1);
      DigitsShort(n / 10, k - 1, Power10(k - 1));
    }
  }

  function Power10(k: nat): (r: nat)
    ensures r >= 1
  {
    if k == 0 then 1 else 10 * Power10(k - 1)
  }

  // ---- Text ----

  const LINE_SIZE := 256

  /** isspace in the C locale. */
  predicate IsSpace(c: char) { c == ' ' || '\t' <= c <= '\r' }

  /** The C string in a buffer: what is in front of the first NUL. */
  function CString(s: string): (r: string)
    ensures |r| <= |s| && '\0' !in r && r == s[..|r|]
    ensures '\0' !in s ==> r == s
  {
    if s == [] || s[0] == '\0' then [] else [s[0]] + CString(s[1..])
  }

  /** How many characters fgets takes: through the first newline, but at most `room`. */
  function LineLength(f: string, room: nat): (n: nat)
    ensures n <= |f| && n <= room && (f != [] && room > 0 ==> n > 0)
    ensures forall i :: 0 <= i < n - 1 ==> f[i] != '\n'
  {
    if f == [] || room == 0 then 0
    else if f[0] == '\n' then 1
    else LineLength(f[1..], room - 1) + 1
  }

  function WithoutNewline(line: string): (r: string)
    ensures |r| <= |line| && r == line[..|r|]
  {
    if line != [] && line[|line| - 1] == '\n' then line[..|line| - 1] else line
  }

  function KeywordLength(line: string): (n: nat)
    ensures n <= |line| && (n < |line| ==> IsSpace(line[n])) && forall i :: 0 <= i < n ==> !IsSpace(line[i])
  {
    if line == [] || IsSpace(line[0]) then 0 else KeywordLength(line[1..]) + 1
  }

  function SkipSpace(s: string): (r: string)
    ensures |r| <= |s| && (r != [] ==> !IsSpace(r[0])) && s[|s| - |r|..] == r
  {
    if s != [] && IsSpace(s[0]) then SkipSpace(s[1..]) else s
  }

  function FindDesc(descs: seq<Desc>, name: string): (i: nat)
    ensures i <= |descs|
    ensures i < |descs| ==> descs[i].name == name
    ensures forall j :: 0 <= j < i ==> descs[j].name != name
  {
    if descs == [] || descs[0].name == name then 0 else FindDesc(descs[1..], name) + 1
  }

  /** Adding one setting, as a line or an option does. */
  function Set(st: Store, d: Desc, v: Value): Store {
    if d.kind == KString && d.multiple then Added(st, d.name, v) else Replaced(st, d.name, v)
  }

  function Parsed(d: Desc, value: string): Value {
    match d.kind
    case KString => S(value)
    case KBool => B(value == "true")
    case KInt => I(Atol(value))
  }

  /** What one line without its newline does to the store. */
  function LoadLine(st: Store, descs: seq<Desc>, line: string): Store {
    if line == [] || line[0] == '#' || line[0] == ';' then st
    else
      var k := KeywordLength(line);
      var value := SkipSpace(line[k..]);
      var i := FindDesc(descs, line[..k]);
      if i == |descs| then st else Set(st, descs[i], Parsed(descs[i], value))
  }

  /** LoadPrefsFromStream. */
  function Load(st: Store, descs: seq<Desc>, f: string): Store
    decreases |f|
  {
    if f == [] then st
    else
      var n := LineLength(f, LINE_SIZE - 1);
      Load(LoadLine(st, descs, WithoutNewline(CString(f[..n]))), descs, f[n..])
  }

  /** One line that SavePrefsToStream writes. */
  datatype Entry = Entry(d: Desc, v: Value)

  function ValueText(v: Value): string {
    match v
    case S(s) => s
    case B(b) => if b then "true" else "false"
    case I(i) => Decimal(i)
  }

  function LineText(e: Entry): string { e.d.name + " " + ValueText(e.v) }

  function Print(es: seq<Entry>): string { if es == [] then "" else LineText(es[0]) + "\n" + Print(es[1..]) }

  /** The values written for one keyword: all strings, but a single number or truth value. */
  function SavedValues(st: Store, d: Desc): (r: seq<Value>)
    ensures forall i :: 0 <= i < |r| ==> KindOf(r[i]) == d.kind
  {
    match d.kind
    case KString => Values(st, d.name, KString)
    case KBool => [B(FindBool(st, d.name))]
    case KInt => [I(FindInt(st, d.name))]
  }

  function DescEntries(d: Desc, vs: seq<Value>): (r: seq<Entry>)
    ensures |r| == |vs|
  {
    seq(|vs|, i requires 0 <= i < |vs| => Entry(d, vs[i]))
  }

  function Entries(st: Store, descs: seq<Desc>): seq<Entry> {
    if descs == [] then [] else DescEntries(descs[0], SavedValues(st, descs[0])) + Entries(st, descs[1..])
  }

  /** SavePrefsToStream. */
  function Save(st: Store, descs: seq<Desc>): string { Print(Entries(st, descs)) }

  // ---- What a line can carry ----

  /** Keywords the format can carry. */
  predicate GoodName(name: string) {
    && name != [] && name[0] != '#' && name[0] != ';' && |name| + 12 < 256
    && (forall i :: 0 <= i < |name| ==> !IsSpace(name[i]) && name[i] != '\0')
  }

  predicate GoodDescs(descs: seq<Desc>) {
    && (forall i :: 0 <= i < |descs| ==> GoodName(descs[i].name))
    && (forall i, j :: 0 <= i < j < |descs| ==> descs[i].name != descs[j].name)
  }

  /** Strings the format can carry on one line: no newline, no leading white space, no more than 255
      characters with the keyword and the space. */
  predicate Fits(name: string, s: string) {
    '\n' !in s && '\0' !in s && (s != [] ==> !IsSpace(s[0])) && |name| + 1 + |s| < 256
  }

  predicate ValueFits(name: string, v: Value) {
    match v
    case S(s) => Fits(name, s)
    case B(_) => true
    case I(i) => -TWO31 <= i < TWO31
  }

  lemma {:induction false} KeywordIs(name: string, rest: string)
    requires (forall i :: 0 <= i < |name| ==> !IsSpace(name[i])) && rest != [] && IsSpace(rest[0])
    ensures KeywordLength(name + rest) == |name|
    decreases |name|
  {
    if name != [] {
      assert (name + rest)[1..] == name[1..] + rest;
      KeywordIs(name[1..], rest);
    } else {
      assert name + rest == rest;
    }
  }

  lemma DescFound(descs: seq<Desc>, i: nat)
    requires GoodDescs(descs) && i < |descs|
    ensures FindDesc(descs, descs[i].name) == i
  {
  }

  lemma DecimalChars(v: int)
    ensures var s := Decimal(v); '\n' !in s && '\0' !in s && s != [] && !IsSpace(s[0])
  {
    var n := if v < 0 then -v else v;
    DigitsReadBack(n);
    assert forall i :: 0 <= i < |Digits(n)| ==> IsDigit(Digits(n)[i]);
  }

  lemma DecimalShort(v: int)
    requires -TWO31 <= v < TWO31
    ensures |Decimal(v)| <= 11
  {
    assert Power10(10) == 10000000000 by {
      assert Power10(1) == 10 && Power10(2) == 100 && Power10(3) == 1000;
      assert Power10(4) == 10000 && Power10(5) == 100000 && Power10(6) == 1000000;
      assert Power10(7) == 10000000 && Power10(8) == 100000000 && Power10(9) == 1000000000;
    }
    DigitsShort(if v < 0 then -v else v, 10, Power10(10));
  }

  /** The text of a value fits on a line. */
  lemma TextFits(d: Desc, v: Value)
    requires GoodName(d.name) && ValueFits(d.name, v)
    ensures Fits(d.name, ValueText(v))
  {
    match v
    case I(i) => DecimalChars(i); DecimalShort(i);
    case B(b) =>
    case S(s) =>
  }

  lemma {:induction false} LineSplits(name: string, text: string)
    requires GoodName(name) && (text != [] ==> !IsSpace(text[0]))
    ensures var line := name + " " + text;
      && line[0] == name[0] && KeywordLength(line) == |name| && line[..|name|] == name
      && SkipSpace(line[|name|..]) == text
  {
    var line := name + " " + text;
    assert line == name + (" " + text);
    KeywordIs(name, " " + text);
    assert line[|name|..] == " " + text;
    assert (" " + text)[1..] == text;
    assert SkipSpace(text) == text;
  }

  lemma ParsesBack(d: Desc, v: Value)
    requires KindOf(v) == d.kind && ValueFits(d.name, v)
    ensures Parsed(d, ValueText(v)) == v
  {
    hide Decimal, Atol;
    match v
    case I(n) => NumberReadsBack(n);
    case _ =>
  }

  /** A line that was written is read as the setting it was written for. */
  lemma {:induction false} LineReadsBack(st: Store, descs: seq<Desc>, i: nat, v: Value)
    requires GoodDescs(descs) && i < |descs| && KindOf(v) == descs[i].kind && ValueFits(descs[i].name, v)
    ensures LoadLine(st, descs, LineText(Entry(descs[i], v))) == Set(st, descs[i], v)
  {
    hide Set, FindDesc, Parsed, ValueText, KeywordLength, SkipSpace, ValueFits;
    var d := descs[i];
    TextFits(d, v);
    LineSplits(d.name, ValueText(v));
    DescFound(descs, i);
    ParsesBack(d, v);
  }

  lemma {:induction false} WholeLine(line: string, rest: string, room: nat)
    requires '\n' !in line
    ensures |line| < room ==> LineLength(line + "\n" + rest, room) == |line| + 1
    ensures |line| == room ==> LineLength(line + "\n" + rest, room) == |line|
    decreases |line|
  {
    var f := line + "\n" + rest;
    if line != [] && room > 0 {
      assert f[1..] == line[1..] + "\n" + rest;
      WholeLine(line[1..], rest, room - 1);
    }
  }

  /** Reading a written line and what follows it. A line of exactly 255 characters leaves its newline
      to the next fgets, which skips it as an empty line. */
  lemma {:induction false} LoadsLine(st: Store, descs: seq<Desc>, line: string, rest: string)
    requires '\n' !in line && '\0' !in line && line != [] && |line| < 256
    ensures Load(st, descs, line + "\n" + rest) == Load(LoadLine(st, descs, line), descs, rest)
  {
    hide LoadLine;
    var f := line + "\n" + rest;
    WholeLine(line, rest, 255);
    if |line| < 255 {
      var taken := f[..|line| + 1];
      assert taken == line + "\n" && '\0' !in taken && CString(taken) == taken;
      assert f[|line| + 1..] == rest;
      assert WithoutNewline(taken) == line;
    } else {
      assert f[..|line|] == line && CString(line) == line;
      assert f[|line|..] == "\n" + rest;
      LoadsNewline(LoadLine(st, descs, line), descs, rest);
    }
  }

  lemma LoadsNewline(st: Store, descs: seq<Desc>, rest: string)
    ensures Load(st, descs, "\n" + rest) == Load(st, descs, rest)
  {
    var f := "\n" + rest;
    assert LineLength(f, 255) == 1 && f[..1] == "\n" && f[1..] == rest;
    assert CString("\n") == "\n";
    assert WithoutNewline("\n") == "";
  }

  // ---- Round trip ----

  /** The settings of a list of entries, one after the other. */
  function SetAll(st: Store, es: seq<Entry>): Store
    decreases |es|
  {
    if es == [] then st else SetAll(Set(st, es[0].d, es[0].v), es[1..])
  }

  predicate EntryOk(e: Entry, descs: seq<Desc>) {
    e.d in descs && KindOf(e.v) == e.d.kind && ValueFits(e.d.name, e.v)
  }

  lemma {:induction false} LoadsEntries(st: Store, descs: seq<Desc>, es: seq<Entry>)
    requires GoodDescs(descs) && forall i :: 0 <= i < |es| ==> EntryOk(es[i], descs)
    ensures Load(st, descs, Print(es)) == SetAll(st, es)
    decreases |es|
  {
    hide Set, LoadLine, ValueFits;
    if es != [] {
      assert EntryOk(es[0], descs);
      var i :| 0 <= i < |descs| && descs[i] == es[0].d;
      var line := LineText(es[0]);
      LineIsClean(es[0], descs);
      LoadsLine(st, descs, line, Print(es[1..]));
      LineReadsBack(st, descs, i, es[0].v);
      LoadsEntries(Set(st, es[0].d, es[0].v), descs, es[1..]);
    } else {
      assert Print(es) == "";
    }
  }

  lemma LineIsClean(e: Entry, descs: seq<Desc>)
    requires GoodDescs(descs) && EntryOk(e, descs)
    ensures var line := LineText(e); '\n' !in line && '\0' !in line && line != [] && |line| < 256
  {
    TextFits(e.d, e.v);
    assert GoodName(e.d.name);
    assert forall i :: 0 <= i < |e.d.name| ==> e.d.name[i] != '\n';
  }

  // ---- What the saved store answers ----

  /** The answers to PrefsFindString, PrefsFindBool and PrefsFindInt32 for a known keyword. */
  ghost predicate SameAnswers(a: Store, b: Store, d: Desc) {
    match d.kind
    case KString => forall index: nat :: FindString(a, d.name, index) == FindString(b, d.name, index)
    case KBool => FindBool(a, d.name) == FindBool(b, d.name)
    case KInt => FindInt(a, d.name) == FindInt(b, d.name)
  }

  lemma {:induction false} StringAnswers(a: Store, b: Store, d: Desc)
    requires d.kind == KString
    ensures SameAnswers(a, b, d) <==> Values(a, d.name, KString) == Values(b, d.name, KString)
  {
    hide Values, FindNode;
    var va, vb := Values(a, d.name, KString), Values(b, d.name, KString);
    forall index: nat
      ensures FindString(a, d.name, index) == if index < |va| then Some(va[index].s) else None
      ensures FindString(b, d.name, index) == if index < |vb| then Some(vb[index].s) else None
    {
      FindsValue(a, d.name, KString, index);
      FindsValue(b, d.name, KString, index);
    }
    if SameAnswers(a, b, d) {
      assert |va| == |vb| by {
        var n := if |va| < |vb| then |va| else |vb|;
        assert FindString(a, d.name, n) == FindString(b, d.name, n);
      }
      forall i | 0 <= i < |va|
        ensures va[i] == vb[i]
      {
        assert FindString(a, d.name, i) == FindString(b, d.name, i);
      }
    }
  }

  /** What a keyword's values are after its entries were set in a store that had none. */
  function SetValues(vs: seq<Value>, d: Desc, values: seq<Value>): seq<Value> {
    if d.kind == KString && d.multiple then vs + values
    else if values == [] then vs
    else [values[|values| - 1]] + (if vs == [] then [] else vs[1..])
  }

  lemma {:induction false} ValuesSet(st: Store, d: Desc, v: Value, other: string, kind: Kind)
    requires KindOf(v) == d.kind
    ensures Values(Set(st, d, v), other, kind) ==
      if other == d.name && kind == d.kind then SetValues(Values(st, other, kind), d, [v]) else Values(st, other, kind)
  {
    hide Values, Added, Replaced;
    ValuesAdded(st, d.name, v, other, kind);
    ValuesReplaced(st, d.name, v, other, kind);
  }

  /** Entries of one keyword. */
  lemma {:induction false} ValuesSetAll(st: Store, d: Desc, vs: seq<Value>, other: string, kind: Kind)
    requires forall i :: 0 <= i < |vs| ==> KindOf(vs[i]) == d.kind
    ensures Values(SetAll(st, DescEntries(d, vs)), other, kind) ==
      if other == d.name && kind == d.kind then SetValues(Values(st, other, kind), d, vs) else Values(st, other, kind)
    decreases |vs|
  {
    hide Values, Set;
    if vs != [] {
      var es := DescEntries(d, vs);
      assert es[1..] == DescEntries(d, vs[1..]);
      ValuesSet(st, d, vs[0], other, kind);
      ValuesSetAll(Set(st, d, vs[0]), d, vs[1..], other, kind);
    }
  }

  lemma {:induction false} SetAllJoined(st: Store, a: seq<Entry>, b: seq<Entry>)
    ensures SetAll(st, a + b) == SetAll(SetAll(st, a), b)
    decreases |a|
  {
    hide Set;
    if a == [] {
      assert a + b == b;
    } else {
      assert (a + b)[1..] == a[1..] + b;
      SetAllJoined(Set(st, a[0].d, a[0].v), a[1..], b);
    }
  }

  predicate Named(descs: seq<Desc>, name: string) { exists i :: 0 <= i < |descs| && descs[i].name == name }

  /** Setting everything saved leaves for each keyword what SetValues says. */
  lemma {:induction false} ValuesOfSaved(st: Store, onto: Store, descs: seq<Desc>, d: Desc)
    requires GoodDescs(descs)
    ensures d in descs ==>
      Values(SetAll(onto, Entries(st, descs)), d.name, d.kind) == SetValues(Values(onto, d.name, d.kind), d, SavedValues(st, d))
    ensures !Named(descs, d.name) ==> Values(SetAll(onto, Entries(st, descs)), d.name, d.kind) == Values(onto, d.name, d.kind)
    decreases |descs|
  {
    hide Values, SavedValues, GoodName, SetValues;
    if descs != [] {
      var first, vs := descs[0], SavedValues(st, descs[0]);
      var mid := SetAll(onto, DescEntries(first, vs));
      SetAllJoined(onto, DescEntries(first, vs), Entries(st, descs[1..]));
      ValuesSetAll(onto, first, vs, d.name, d.kind);
      ValuesOfSaved(st, mid, descs[1..], d);
      if first == d {
        NotNamedAgain(descs);
      } else if d in descs {
        assert d in descs[1..];
        DifferentNames(descs, d);
      }
      if !Named(descs, d.name) {
        assert descs[0].name != d.name;
        NotNamedLater(descs, d.name);
      }
    }
  }

  lemma NotNamedAgain(descs: seq<Desc>)
    requires GoodDescs(descs) && descs != []
    ensures !Named(descs[1..], descs[0].name)
  {
  }

  lemma NotNamedLater(descs: seq<Desc>, name: string)
    requires descs != [] && !Named(descs, name)
    ensures !Named(descs[1..], name)
  {
    forall i | 0 <= i < |descs| - 1
      ensures descs[1..][i].name != name
    {
      assert descs[i + 1].name != name;
    }
  }

  lemma DifferentNames(descs: seq<Desc>, d: Desc)
    requires GoodDescs(descs) && descs != [] && d in descs[1..]
    ensures descs[0].name != d.name
  {
    var i :| 0 <= i < |descs| - 1 && descs[1..][i] == d;
    assert descs[i + 1] == d;
  }

  /** Everything the store holds for a keyword can be carried, and a single-valued keyword has at most
      one string. */
  predicate Carried(st: Store, d: Desc) {
    var vs := Values(st, d.name, d.kind);
    && (forall i :: 0 <= i < |vs| ==> ValueFits(d.name, vs[i]))
    && (d.kind == KString && !d.multiple ==> |vs| <= 1)
  }

  /** A store of C strings and 32-bit numbers. */
  predicate Proper(st: Store) {
    forall i :: 0 <= i < |st| ==> (st[i].value.S? ==> '\0' !in st[i].value.s) && (st[i].value.I? ==> -TWO31 <= st[i].value.i < TWO31)
  }

  lemma SavedFits(st: Store, d: Desc)
    requires Proper(st) && Carried(st, d)
    ensures forall i :: 0 <= i < |SavedValues(st, d)| ==> ValueFits(d.name, SavedValues(st, d)[i])
  {
  }

  lemma {:induction false} EntriesOk(st: Store, descs: seq<Desc>, all: seq<Desc>)
    requires Proper(st) && (forall d :: d in descs ==> d in all && Carried(st, d))
    ensures forall i :: 0 <= i < |Entries(st, descs)| ==> EntryOk(Entries(st, descs)[i], all)
    decreases |descs|
  {
    hide Carried, Proper, SavedValues, ValueFits;
    if descs != [] {
      SavedFits(st, descs[0]);
      EntriesOk(st, descs[1..], all);
    }
  }

  /** Saving and loading into an empty store keeps every answer, if everything can be carried. */
  lemma RoundTripKeeps(st: Store, descs: seq<Desc>, d: Desc)
    requires GoodDescs(descs) && Proper(st) && d in descs && (forall x :: x in descs ==> Carried(st, x))
    ensures SameAnswers(st, Load([], descs, Save(st, descs)), d)
  {
    hide GoodDescs, Proper, Carried, Load, Entries, Print, FindNode, Values, GoodName;
    EntriesOk(st, descs, descs);
    LoadsEntries([], descs, Entries(st, descs));
    ValuesOfSaved(st, [], descs, d);
    var back := Load([], descs, Save(st, descs));
    NoValues(d.name, d.kind);
    if d.kind == KString {
      StringAnswers(st, back, d);
      assert Carried(st, d);
      SingleValue(st, d);
    } else {
      FindsValue(back, d.name, d.kind, 0);
    }
  }

  lemma NoValues(name: string, kind: Kind)
    ensures Values([], name, kind) == []
  {
  }

  lemma SingleValue(st: Store, d: Desc)
    requires Carried(st, d) && d.kind == KString
    ensures SetValues([], d, Values(st, d.name, KString)) == Values(st, d.name, KString)
  {
  }

  // Whatever the text, what is loaded from it can be carried

  lemma {:induction false} ValuePartFits(name: string, line: string)
    requires |name| + 12 < 256 && '\n' !in line && '\0' !in line && |line| < 256
    requires line[..KeywordLength(line)] == name
    ensures Fits(name, SkipSpace(line[KeywordLength(line)..]))
  {
    hide SkipSpace, KeywordLength, IsSpace;
    var k := KeywordLength(line);
    SkippedPart(line[k..], line);
    if k < |line| {
      assert line[k..][0] == line[k];
    }
  }

  lemma {:induction false} ParsedFits(d: Desc, value: string)
    requires Fits(d.name, value)
    ensures ValueFits(d.name, Parsed(d, value)) && KindOf(Parsed(d, value)) == d.kind
  {
    hide Atol, Fits;
  }

  lemma NameLength(name: string)
    requires GoodName(name)
    ensures |name| + 12 < 256
  {
  }

  lemma {:induction false} SkippedPart(rest: string, line: string)
    requires |rest| <= |line| && rest == line[|line| - |rest|..]
    ensures var value := SkipSpace(rest);
      && (forall c :: c in value ==> c in line)
      && (rest != [] && IsSpace(rest[0]) ==> |value| < |rest|)
  {
    hide SkipSpace;
    var value := SkipSpace(rest);
    assert forall c :: c in value ==> c in rest;
    assert forall c :: c in rest ==> c in line;
    if rest != [] && |value| == |rest| {
      assert value == rest[0..] == rest;
    }
  }

  lemma SetCarried(st: Store, d: Desc, v: Value, other: Desc)
    requires Carried(st, other) && KindOf(v) == d.kind && ValueFits(d.name, v)
    requires other.name == d.name ==> other == d
    ensures Carried(Set(st, d, v), other)
  {
    hide Values, Set, ValueFits;
    ValuesSet(st, d, v, other.name, other.kind);
  }

  lemma LineCarried(st: Store, descs: seq<Desc>, line: string, d: Desc)
    requires GoodDescs(descs) && d in descs && Carried(st, d) && '\n' !in line && '\0' !in line && |line| < 256
    ensures Carried(LoadLine(st, descs, line), d)
  {
    hide Carried, Set, Parsed, SkipSpace, GoodName, ValueFits;
    if line != [] {
      var k := KeywordLength(line);
      var i := FindDesc(descs, line[..k]);
      if i < |descs| {
        var v := Parsed(descs[i], SkipSpace(line[k..]));
        NameLength(descs[i].name);
        ValuePartFits(descs[i].name, line);
        ParsedFits(descs[i], SkipSpace(line[k..]));
        SetCarried(st, descs[i], v, d);
      }
    }
  }

  lemma {:induction false} LoadCarried(st: Store, descs: seq<Desc>, f: string, d: Desc)
    requires GoodDescs(descs) && d in descs && Carried(st, d)
    ensures Carried(Load(st, descs, f), d)
    decreases |f|
  {
    hide Carried, LoadLine, GoodName;
    if f != [] {
      var n := LineLength(f, 255);
      var raw := CString(f[..n]);
      var line := WithoutNewline(raw);
      assert '\n' !in line by { LineEnd(f, n, raw); }
      assert forall c :: c in line ==> c in raw;
      LineCarried(st, descs, line, d);
      LoadCarried(LoadLine(st, descs, line), descs, f[n..], d);
    }
  }

  lemma LineEnd(f: string, n: nat, raw: string)
    requires n <= |f| && (forall i :: 0 <= i < n - 1 ==> f[i] != '\n') && |raw| <= n && raw == f[..n][..|raw|]
    ensures '\n' !in WithoutNewline(raw)
  {
    var line := WithoutNewline(raw);
    assert forall i :: 0 <= i < |line| ==> line[i] == f[i];
  }

  lemma {:induction false} ProperValues(st: Store, d: Desc)
    requires Proper(st) && d.kind != KString
    ensures Carried(st, d)
    decreases |st|
  {
    if st != [] {
      ProperValues(st[..|st| - 1], d);
    }
  }

  /** Saving and loading into an empty store keeps the answer to every find of a known keyword exactly
      when every string fits on its line and every single-valued keyword has at most one. */
  lemma RoundTripExactly(st: Store, descs: seq<Desc>)
    requires GoodDescs(descs) && Proper(st)
    ensures (forall d :: d in descs ==> SameAnswers(st, Load([], descs, Save(st, descs)), d))
      <==> (forall d :: d in descs ==> Carried(st, d))
  {
    hide GoodDescs, Proper, Load, Save, SameAnswers, Values;
    var back := Load([], descs, Save(st, descs));
    forall d | d in descs
      ensures (forall x :: x in descs ==> Carried(st, x)) ==> SameAnswers(st, back, d)
      ensures SameAnswers(st, back, d) ==> Carried(st, d)
    {
      if forall x :: x in descs ==> Carried(st, x) {
        RoundTripKeeps(st, descs, d);
      }
      if SameAnswers(st, back, d) {
        if d.kind == KString {
          NoValues(d.name, d.kind);
          LoadCarried([], descs, Save(st, descs), d);
          StringAnswers(st, back, d);
        } else {
          ProperValues(st, d);
        }
      }
    }
  }
}
