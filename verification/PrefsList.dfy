/** The linked list of preferences items, and the loops that load, save and override it: src/prefs.cpp. */
module PrefsList {
  import opened Machine
  import opened Prefs

  class PrefsNode {
    var next: PrefsNode?
    const name: string
    var value: Value

    constructor (name: string, value: Value)
      ensures next == null && this.name == name && this.value == value
    {
      next, this.name, this.value := null, name, value;
    }
  }

  // ---- Removing an item ----

  /** find_node for any type. */
  function FindAny(st: Store, name: string, index: nat): (r: nat)
    ensures r <= |st|
  {
    if st == [] then 0
    else if st[0].name != name then FindAny(st[1..], name, index) + 1
    else if index == 0 then 0
    else FindAny(st[1..], name, index - 1) + 1
  }

  /** PrefsRemoveItem forgets the whole list when the item is its first. */
  function Removed(st: Store, name: string, index: nat): Store {
    var i := FindAny(st, name, index);
    if i == |st| then st else if i == 0 then [] else st[..i] + st[i + 1..]
  }

  /** All values of a keyword, of any type, in order. */
  function Items(st: Store, name: string): seq<Value> {
    if st == [] then [] else (if st[0].name == name then [st[0].value] else []) + Items(st[1..], name)
  }

  lemma {:induction false} ItemsFirst(st: Store, name: string)
    requires st != []
    ensures Items(st, name) == (if st[0].name == name then [st[0].value] else []) + Items(st[1..], name)
  {
  }

  lemma {:induction false} ItemsJoined(a: Store, b: Store, name: string)
    ensures Items(a + b, name) == Items(a, name) + Items(b, name)
    decreases |a|
  {
    hide Items;
    if a == [] {
      ItemsOfNothing(name);
      assert a + b == b;
    } else {
      assert (a + b)[1..] == a[1..] + b && (a + b)[0] == a[0];
      ItemsFirst(a, name);
      ItemsFirst(a + b, name);
      ItemsJoined(a[1..], b, name);
    }
  }

  /** FindAny stops behind as many values of the keyword as the index says. */
  lemma {:induction false} FindAnyIs(st: Store, name: string, index: nat)
    ensures var i := FindAny(st, name, index);
      && (i < |st| <==> index < |Items(st, name)|)
      && (i < |st| ==> st[i].name == name && |Items(st[..i], name)| == index)
    decreases |st|
  {
    if st != [] {
      var i := FindAny(st, name, index);
      if st[0].name != name {
        FindAnyIs(st[1..], name, index);
      } else if index > 0 {
        FindAnyIs(st[1..], name, index - 1);
      }
      if 0 < i < |st| {
        assert st[..i][1..] == st[1..][..i - 1];
      }
    }
  }

  /** The keyword has lost its index-th value, and no other keyword has lost or gained one. */
  ghost predicate JustOneGone(st: Store, now: Store, name: string, index: nat)
    requires index < |Items(st, name)|
  {
    && Items(now, name) == Items(st, name)[..index] + Items(st, name)[index + 1..]
    && forall other: string :: other != name ==> Items(now, other) == Items(st, other)
  }

  lemma {:induction false} ItemsAround(st: Store, i: nat, other: string)
    requires i < |st|
    ensures Items(st, other) ==
      Items(st[..i], other) + (if st[i].name == other then [st[i].value] else []) + Items(st[i + 1..], other)
    ensures Items(st[..i] + st[i + 1..], other) == Items(st[..i], other) + Items(st[i + 1..], other)
  {
    assert st == st[..i] + [st[i]] + st[i + 1..];
    ItemsJoined(st[..i] + [st[i]], st[i + 1..], other);
    ItemsJoined(st[..i], [st[i]], other);
    ItemsJoined(st[..i], st[i + 1..], other);
    assert [st[i]][1..] == [];
  }

  lemma {:induction false} UnlinkedIsGone(st: Store, name: string, index: nat)
    requires index < |Items(st, name)|
    ensures var i := FindAny(st, name, index);
      i < |st| && JustOneGone(st, st[..i] + st[i + 1..], name, index)
  {
    hide FindAny, Items;
    FindAnyIs(st, name, index);
    var i := FindAny(st, name, index);
    ItemsAround(st, i, name);
    forall other: string | other != name
      ensures Items(st[..i] + st[i + 1..], other) == Items(st, other)
    {
      ItemsAround(st, i, other);
    }
  }

  /** Removing an item takes just that value from what later finds can give, exactly when the item is not
      the first of the list, or is the only one. */
  lemma {:induction false} RemovesJustTheItem(st: Store, name: string, index: nat)
    requires index < |Items(st, name)|
    ensures JustOneGone(st, Removed(st, name, index), name, index) <==> FindAny(st, name, index) > 0 || |st| == 1
  {
    hide FindAny, Items;
    FindAnyIs(st, name, index);
    UnlinkedIsGone(st, name, index);
    var i := FindAny(st, name, index);
    if i == 0 {
      assert st[..0] + st[1..] == st[1..];
      if |st| > 1 {
        StillThere(st[1..]);
        ItemsOfNothing(st[1].name);
        assert Items(st[1..], st[1].name) != Items([], st[1].name);
      } else {
        assert st[1..] == [];
      }
    }
  }

  lemma {:induction false} StillThere(st: Store)
    requires st != []
    ensures Items(st, st[0].name) != []
  {
  }

  lemma {:induction false} ItemsOfNothing(name: string)
    ensures Items([], name) == []
  {
  }

  // ---- The list ----

  class PrefsItems {
    var head: PrefsNode?
    ghost var nodes: seq<PrefsNode>
    ghost var store: Store

    ghost predicate Linked()
      reads this, nodes
    {
      && head == (if nodes == [] then null else nodes[0])
      && (forall i {:trigger nodes[i].next} :: 0 <= i < |nodes| ==> nodes[i].next == if i + 1 < |nodes| then nodes[i + 1] else null)
    }

    ghost predicate Valid()
      reads this, nodes
    {
      && Linked() && |store| == |nodes|
      && (forall i, j :: 0 <= i < j < |nodes| ==> nodes[i] != nodes[j])
      && (forall i :: 0 <= i < |nodes| ==> nodes[i].name == store[i].name && nodes[i].value == store[i].value)
    }

    constructor ()
      ensures Valid() && store == [] && nodes == []
    {
      head, nodes, store := null, [], [];
    }

    /** The last node. */
    method Last() returns (prev: PrefsNode)
      requires Valid() && nodes != []
      ensures prev == nodes[|nodes| - 1]
    {
      prev := head;
      ghost var i := 0;
      while prev.next != null
        invariant 0 <= i < |nodes| && prev == nodes[i]
        decreases |nodes| - i
      {
        prev := prev.next;
        i := i + 1;
      }
    }

    /** add_data. */
    method AddData(name: string, v: Value)
      requires Valid()
      modifies this, nodes
      ensures Valid() && store == Added(old(store), name, v)
      ensures forall x :: x in nodes ==> x in old(nodes) || fresh(x)
    {
      var p := new PrefsNode(name, v);
      if head != null {
        var prev := Last();
        prev.next := p;
      } else {
        head := p;
      }
      nodes, store := nodes + [p], Added(store, name, v);
    }

    /** find_node for one type. */
    method FindNodeOf(name: string, kind: Kind, index: nat) returns (p: PrefsNode?, ghost at: nat)
      requires Valid()
      ensures at == FindNode(store, name, kind, index) && p == if at < |nodes| then nodes[at] else null
    {
      hide FindNode;
      p, at := head, 0;
      var i := 0;
      assert store[0..] == store;
      while p != null
        invariant 0 <= at <= |nodes| && p == (if at < |nodes| then nodes[at] else null) && i <= index
        invariant FindNode(store, name, kind, index) == at + FindNode(store[at..], name, kind, index - i)
        decreases |nodes| - at
      {
        assert store[at..][1..] == store[at + 1..];
        FindNodeStep(store[at..], name, kind, index - i);
        if KindOf(p.value) == kind && p.name == name {
          if i == index {
            return;
          }
          i := i + 1;
        }
        p := p.next;
        at := at + 1;
      }
      FindNodeEnd(store[at..], name, kind, index - i);
    }

    method ReplaceItem(name: string, v: Value)
      requires Valid()
      modifies this, nodes
      ensures Valid() && store == Replaced(old(store), name, v)
      ensures forall x :: x in nodes ==> x in old(nodes) || fresh(x)
    {
      hide FindNode;
      var p, at := FindNodeOf(name, KindOf(v), 0);
      if p != null {
        p.value := v;
        store := store[at := Node(name, v)];
      } else {
        AddData(name, v);
      }
    }

    method PrefsFindString(name: string, index: nat) returns (r: Option<string>)
      requires Valid()
      ensures r == FindString(store, name, index)
    {
      var p, at := FindNodeOf(name, KString, index);
      r := if p != null then Some(p.value.s) else None;
    }

    method PrefsFindBool(name: string) returns (r: bool)
      requires Valid()
      ensures r == FindBool(store, name)
    {
      var p, at := FindNodeOf(name, KBool, 0);
      r := p != null && p.value.b;
    }

    method PrefsFindInt32(name: string) returns (r: int)
      requires Valid()
      ensures r == FindInt(store, name)
    {
      var p, at := FindNodeOf(name, KInt, 0);
      r := if p != null then p.value.i else 0;
    }

    method FindAnyNode(name: string, index: nat) returns (p: PrefsNode?, ghost at: nat)
      requires Valid()
      ensures at == FindAny(store, name, index) && p == if at < |nodes| then nodes[at] else null
    {
      p, at := head, 0;
      var i := 0;
      while p != null
        invariant 0 <= at <= |nodes| && p == (if at < |nodes| then nodes[at] else null) && i <= index
        invariant FindAny(store, name, index) == at + FindAny(store[at..], name, index - i)
        decreases |nodes| - at
      {
        assert store[at..][1..] == store[at + 1..];
        if p.name == name {
          if i == index {
            return;
          }
          i := i + 1;
        }
        p := p.next;
        at := at + 1;
      }
    }

    method PrefsRemoveItem(name: string, index: nat)
      requires Valid()
      modifies this, nodes
      ensures Valid() && store == Removed(old(store), name, index)
    {
      hide FindAny;
      var p, at := FindAnyNode(name, index);
      if p != null {
        if head == p {
          head := null;
          nodes, store := [], [];
          return;
        }
        var q := Before(p, at);
        Unlink(q, p, at);
      }
    }

    method Unlink(q: PrefsNode, p: PrefsNode, ghost at: nat)
      requires Valid() && 0 < at < |nodes| && nodes[at - 1] == q && nodes[at] == p
      modifies this`nodes, this`store, q`next
      ensures Valid() && store == old(store)[..at] + old(store)[at + 1..]
    {
      q.next := p.next;
      nodes, store := nodes[..at] + nodes[at + 1..], store[..at] + store[at + 1..];
    }

    method Before(p: PrefsNode, ghost at: nat) returns (q: PrefsNode)
      requires Valid() && 0 < at < |nodes| && nodes[at] == p
      ensures q == nodes[at - 1]
    {
      q := head;
      ghost var i := 0;
      while q.next != p
        invariant 0 <= i < at && q == nodes[i]
        decreases at - i
      {
        q := q.next;
        i := i + 1;
      }
    }

    // ---- Loading and saving ----

    /** One setting, as a line or an option makes it. */
    method SetItem(d: Desc, v: Value)
      requires Valid()
      modifies this, nodes
      ensures Valid() && store == Set(old(store), d, v)
      ensures forall x :: x in nodes ==> x in old(nodes) || fresh(x)
    {
      if d.kind == KString && d.multiple {
        AddData(d.name, v);
      } else {
        ReplaceItem(d.name, v);
      }
    }

    method LoadOneLine(descs: seq<Desc>, line: string)
      requires Valid()
      modifies this, nodes
      ensures Valid() && store == LoadLine(old(store), descs, line)
      ensures forall x :: x in nodes ==> x in old(nodes) || fresh(x)
    {
      hide KeywordLength, SkipSpace, FindDesc, Parsed, Set;
      if line == [] || line[0] == '#' || line[0] == ';' {
        return;
      }
      var p := EndOfKeyword(line);
      var value := ValueFrom(line, p);
      var i := FindDesc(descs, line[..p]);
      if i == |descs| {
        return;
      }
      SetItem(descs[i], Parsed(descs[i], value));
    }

    /** LoadPrefsFromStream. */
    method LoadPrefsFromStream(descs: seq<Desc>, f: string)
      requires Valid()
      modifies this, nodes
      ensures Valid() && store == Load(old(store), descs, f)
      ensures forall x :: x in nodes ==> x in old(nodes) || fresh(x)
    {
      hide LoadLine, LineLength, CString, WithoutNewline;
      var rest := f;
      while rest != []
        invariant Valid()
        invariant forall x :: x in nodes ==> x in old(nodes) || fresh(x)
        invariant Load(old(store), descs, f) == Load(store, descs, rest)
        decreases |rest|
      {
        var n := LineLength(rest, LINE_SIZE - 1);
        assert forall x :: x in nodes ==> x in old(nodes) || fresh(x);
        assert forall i :: 0 <= i < |nodes| ==> nodes[i] in nodes;
        LoadOneLine(descs, WithoutNewline(CString(rest[..n])));
        rest := rest[n..];
      }
    }

    method WriteDesc(d: Desc) returns (text: string)
      requires Valid()
      ensures text == Print(DescEntries(d, SavedValues(store, d)))
    {
      hide FindNode, Values, Decimal;
      match d.kind {
        case KString =>
          text := WriteStrings(d);
        case KBool =>
          var b := PrefsFindBool(d.name);
          text := d.name + " " + (if b then "true" else "false") + "\n";
          OneEntry(d, B(b));
        case KInt =>
          var i := PrefsFindInt32(d.name);
          text := d.name + " " + Decimal(i) + "\n";
          OneEntry(d, I(i));
      }
    }

    method WriteStrings(d: Desc) returns (text: string)
      requires Valid() && d.kind == KString
      ensures text == Print(DescEntries(d, Values(store, d.name, KString)))
    {
      hide FindNode, Values;
      ghost var vs := Values(store, d.name, KString);
      text := "";
      var index := 0;
      FindsValue(store, d.name, KString, 0);
      var str := PrefsFindString(d.name, 0);
      NoEntries(d, vs);
      while str.Some?
        invariant index <= |vs| && text == Print(DescEntries(d, vs[..index]))
        invariant str == if index < |vs| then Some(vs[index].s) else None
        decreases |vs| - index
      {
        NextEntry(d, vs, index);
        text := text + (d.name + " " + str.value + "\n");
        index := index + 1;
        FindsValue(store, d.name, KString, index);
        str := PrefsFindString(d.name, index);
      }
      assert vs[..index] == vs;
    }

    /** SavePrefsToStream, for the list of all known keywords. */
    method SavePrefsToStream(descs: seq<Desc>) returns (text: string)
      requires Valid()
      ensures text == Save(store, descs)
    {
      hide SavedValues;
      text := "";
      var i := 0;
      assert descs[..0] == [];
      while i < |descs|
        invariant 0 <= i <= |descs| && text == Save(store, descs[..i])
      {
        var more := WriteDesc(descs[i]);
        NextDesc(store, descs, i);
        text := text + more;
        i := i + 1;
      }
      assert descs[..i] == descs;
    }
  }

  // ---- Scanning a line ----

  method EndOfKeyword(line: string) returns (p: nat)
    ensures p == KeywordLength(line)
  {
    p := 0;
    while p < |line| && !IsSpace(line[p])
      invariant 0 <= p <= |line| && KeywordLength(line) == p + KeywordLength(line[p..])
    {
      assert line[p..][1..] == line[p + 1..];
      p := p + 1;
    }
  }

  method ValueFrom(line: string, from: nat) returns (value: string)
    requires from <= |line|
    ensures value == SkipSpace(line[from..])
  {
    var p := from;
    while p < |line| && IsSpace(line[p])
      invariant from <= p <= |line| && SkipSpace(line[from..]) == SkipSpace(line[p..])
    {
      assert line[p..][1..] == line[p + 1..];
      p := p + 1;
    }
    return line[p..];
  }

  // ---- Printing entry by entry ----

  lemma {:induction false} PrintJoined(a: seq<Entry>, b: seq<Entry>)
    ensures Print(a + b) == Print(a) + Print(b)
    decreases |a|
  {
    hide LineText;
    if a == [] {
      assert a + b == b;
    } else {
      assert (a + b)[1..] == a[1..] + b;
      PrintJoined(a[1..], b);
    }
  }

  lemma {:induction false} OneEntry(d: Desc, v: Value)
    ensures Print(DescEntries(d, [v])) == d.name + " " + ValueText(v) + "\n"
  {
    hide ValueText;
    var es := DescEntries(d, [v]);
    assert es == [Entry(d, v)] && es[1..] == [];
    assert Print(es) == LineText(es[0]) + "\n" + Print([]);
  }

  lemma {:induction false} NoEntries(d: Desc, vs: seq<Value>)
    ensures Print(DescEntries(d, vs[..0])) == ""
  {
    assert DescEntries(d, vs[..0]) == [];
  }

  lemma {:induction false} NextEntry(d: Desc, vs: seq<Value>, i: nat)
    requires i < |vs| && vs[i].S?
    ensures Print(DescEntries(d, vs[..i + 1])) == Print(DescEntries(d, vs[..i])) + (d.name + " " + vs[i].s + "\n")
  {
    hide Print;
    assert DescEntries(d, vs[..i + 1]) == DescEntries(d, vs[..i]) + DescEntries(d, [vs[i]]);
    PrintJoined(DescEntries(d, vs[..i]), DescEntries(d, [vs[i]]));
    OneEntry(d, vs[i]);
  }

  lemma {:induction false} NextDesc(st: Store, descs: seq<Desc>, i: nat)
    requires i < |descs|
    ensures Save(st, descs[..i + 1]) == Save(st, descs[..i]) + Print(DescEntries(descs[i], SavedValues(st, descs[i])))
  {
    hide Print, SavedValues;
    assert descs[..i + 1] == descs[..i] + [descs[i]];
    EntriesJoined(st, descs[..i], [descs[i]]);
    assert [descs[i]][1..] == [] && Entries(st, []) == [];
    assert Entries(st, [descs[i]]) == DescEntries(descs[i], SavedValues(st, descs[i]));
    PrintJoined(Entries(st, descs[..i]), Entries(st, [descs[i]]));
  }

  lemma {:induction false} EntriesJoined(st: Store, a: seq<Desc>, b: seq<Desc>)
    ensures Entries(st, a + b) == Entries(st, a) + Entries(st, b)
    decreases |a|
  {
    hide SavedValues;
    if a == [] {
      assert a + b == b;
    } else {
      assert (a + b)[1..] == a[1..] + b;
      EntriesJoined(st, a[1..], b);
    }
  }

  // ---- Removing processed arguments ----

  /** The arguments that are left. */
  function Kept(args: seq<Option<string>>): (r: seq<Option<string>>)
    ensures |r| <= |args|
    ensures forall i :: 0 <= i < |r| ==> r[i].Some?
  {
    if args == [] then []
    else
      var n := |args| - 1;
      Kept(args[..n]) + (if args[n].Some? then [args[n]] else [])
  }

  lemma {:induction false} KeptJoined(a: seq<Option<string>>, b: seq<Option<string>>)
    ensures Kept(a + b) == Kept(a) + Kept(b)
    decreases |b|
  {
    if b == [] {
      assert a + b == a;
    } else {
      var n := |b| - 1;
      assert (a + b)[..|a + b| - 1] == a + b[..n];
      KeptJoined(a, b[..n]);
    }
  }

  lemma {:induction false} NothingKept(a: seq<Option<string>>)
    requires forall i :: 0 <= i < |a| ==> a[i].None?
    ensures Kept(a) == []
    decreases |a|
  {
    if a != [] {
      NothingKept(a[..|a| - 1]);
    }
  }

  lemma {:induction false} AllKept(a: seq<Option<string>>)
    requires forall i :: 0 <= i < |a| ==> a[i].Some?
    ensures Kept(a) == a
    decreases |a|
  {
    if a != [] {
      AllKept(a[..|a| - 1]);
    }
  }

  predicate AllTaken(args: seq<Option<string>>, from: nat, to: nat)
    requires to <= |args|
  {
    forall j :: from <= j < to ==> args[j].Some?
  }

  /** After a shift the arguments up to place i are all left over. */
  lemma {:induction false} ShiftKeeps(was: seq<Option<string>>, i: nat, first: nat, argc0: nat, now: seq<Option<string>>)
    requires 1 <= i < first <= argc0 <= |was| && now == was[..i] + was[first..argc0]
    requires AllTaken(was, 1, i) && (first < argc0 ==> was[first].Some?)
    ensures AllTaken(now, 1, if i < |now| then i + 1 else |now|)
  {
  }

  /** One round of the last loop of PrefsInit. */
  method CompactAt(argv: array<Option<string>>, i: nat, argc0: nat) returns (argc: nat)
    requires 1 <= i < argc0 <= argv.Length && AllTaken(argv[..], 1, i)
    modifies argv
    ensures 1 <= argc <= argc0 && argv[0] == old(argv[0])
    ensures AllTaken(argv[..], 1, if i < argc then i + 1 else argc)
    ensures Kept(argv[1..argc]) == Kept(old(argv[1..argc0]))
  {
    hide Kept;
    argc := argc0;
    var k := FirstKept(argv, i, argc0);
    if k > i {
      ghost var was := argv[..];
      argc := ShiftDown(argv, i, k, argc0);
      ghost var now := argv[..argc];
      ShiftKeeps(was, i, k, argc0, now);
      assert forall j :: 0 <= j < argc ==> argv[..][j] == now[j];
    }
  }

  /** The last loop of PrefsInit: the arguments not taken are moved up, in order, behind the program's name. */
  method CompactArguments(argv: array<Option<string>>, argc0: nat) returns (argc: nat)
    requires 1 <= argc0 <= argv.Length
    modifies argv
    ensures 1 <= argc <= argc0 && argv[0] == old(argv[0])
    ensures argv[1..argc] == Kept(old(argv[1..argc0]))
  {
    hide Kept;
    argc := argc0;
    ghost var was := argv[1..argc0];
    var i := 1;
    while i < argc
      invariant 1 <= i && 1 <= argc <= argc0 && argv[0] == old(argv[0])
      invariant AllTaken(argv[..], 1, if i < argc then i else argc)
      invariant Kept(argv[1..argc]) == Kept(was)
    {
      argc := CompactAt(argv, i, argc);
      i := i + 1;
    }
    AllKept(argv[1..argc]);
  }

  method FirstKept(argv: array<Option<string>>, i: nat, argc: nat) returns (k: nat)
    requires i <= argc <= argv.Length
    ensures i <= k <= argc && (k < argc ==> argv[k].Some?) && forall j :: i <= j < k ==> argv[j].None?
  {
    k := i;
    while k < argc
      invariant i <= k <= argc && forall j :: i <= j < k ==> argv[j].None?
    {
      if argv[k].Some? {
        return;
      }
      k := k + 1;
    }
  }

  /** Moves the arguments from `first` on to i. */
  method ShiftDown(argv: array<Option<string>>, i: nat, first: nat, argc0: nat) returns (argc: nat)
    requires 1 <= i < first <= argc0 <= argv.Length && (forall j :: i <= j < first ==> argv[j].None?)
    modifies argv
    ensures argc == argc0 - (first - i)
    ensures argv[..argc] == old(argv[..i]) + old(argv[first..argc0])
    ensures Kept(argv[1..argc]) == Kept(old(argv[1..argc0]))
  {
    var k := first - i;
    var j := i + k;
    ghost var was := argv[..];
    while j < argc0
      invariant i + k <= j <= argc0 && argv[..j - k] == was[..i] + was[first..j]
      invariant argv[j..] == was[j..]
    {
      argv[j - k] := argv[j];
      j := j + 1;
    }
    argc := argc0 - k;
    KeptShifted(was, i, first, argc0, argv[..argc]);
    assert argv[1..argc] == argv[..argc][1..];
  }

  lemma {:induction false} KeptShifted(was: seq<Option<string>>, i: nat, first: nat, argc: nat, now: seq<Option<string>>)
    requires 1 <= i <= first <= argc <= |was| && (forall j :: i <= j < first ==> was[j].None?)
    requires now == was[..i] + was[first..argc]
    ensures Kept(now[1..]) == Kept(was[1..argc])
  {
    hide Kept;
    var a, b, c := was[1..i], was[i..first], was[first..argc];
    assert was[1..argc] == a + b + c && now[1..] == a + c;
    KeptJoined(a + b, c);
    KeptJoined(a, b);
    KeptJoined(a, c);
    NothingKept(b);
  }
}
