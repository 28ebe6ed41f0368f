/** What a line of the preferences text means, and what the text of a store looks like. */
module PrefsLines {
  import opened Machine
  import opened Prefs

  /** Blank, tab, newline, vertical tab, form feed and carriage return. */
  predicate Blank(c: char) { c as int == 32 || 9 <= c as int <= 13 }

  predicate AllBlank(s: string) { forall i :: 0 <= i < |s| ==> Blank(s[i]) }

  lemma BlankIsSpace(c: char)
    ensures Blank(c) == IsSpace(c)
  {
  }

  lemma {:induction false} SkipsBlanks(gap: string, text: string)
    requires AllBlank(gap) && (text != "" ==> !Blank(text[0]))
    ensures SkipSpace(gap + text) == text
    decreases |gap|
  {
    hide Blank, IsSpace;
    if gap == "" {
      assert gap + text == text;
      if text != "" {
        BlankIsSpace(text[0]);
      }
    } else {
      BlankIsSpace(gap[0]);
      assert (gap + text)[1..] == gap[1..] + text;
      SkipsBlanks(gap[1..], text);
    }
  }

  /** A keyword, blanks and a value. */
  lemma {:induction false} LineParts(word: string, gap: string, text: string)
    requires (forall i :: 0 <= i < |word| ==> !Blank(word[i])) && AllBlank(gap)
    requires if gap == "" then text == "" else text != "" ==> !Blank(text[0])
    ensures var line := word + gap + text;
      KeywordLength(line) == |word| && line[..|word|] == word && SkipSpace(line[|word|..]) == text
  {
    hide KeywordLength, SkipSpace;
    var line := word + gap + text;
    assert line == word + (gap + text);
    if gap == "" {
      assert line == word && line[|word|..] == "";
      WordOnly(word);
      SkipsBlanks("", "");
      assert "" + "" == "";
    } else {
      assert (gap + text)[0] == gap[0];
      BlankIsSpace(gap[0]);
      KeywordIs(word, gap + text);
      assert line[|word|..] == gap + text;
      SkipsBlanks(gap, text);
    }
  }

  lemma {:induction false} WordOnly(word: string)
    requires forall i :: 0 <= i < |word| ==> !IsSpace(word[i])
    ensures KeywordLength(word) == |word|
    decreases |word|
  {
    if word != "" {
      WordOnly(word[1..]);
    }
  }

  /** The value that a text sets a keyword to: any text for a string, true for the word true alone, and the
      number at the front of the text. */
  predicate Means(d: Desc, text: string, v: Value) {
    match d.kind
    case KString => v == S(text)
    case KBool => v == B(text == "true")
    case KInt => v == I(Atol(text))
  }

  lemma NameStarts(d: Desc, rest: string)
    requires GoodName(d.name)
    ensures var line := d.name + rest; line != "" && line[0] != '#' && line[0] != ';'
    ensures forall i :: 0 <= i < |d.name| ==> !Blank(d.name[i])
  {
  }

  /** A line of a known keyword, blanks of any kind and a value adds a value to a keyword that may have many
      strings, and otherwise replaces the first value; the values of the others stay. */
  lemma {:induction false} LineMeans(st: Store, descs: seq<Desc>, i: nat, gap: string, text: string, v: Value, other: string, kind: Kind)
    requires GoodDescs(descs) && i < |descs| && AllBlank(gap) && Means(descs[i], text, v)
    requires if gap == "" then text == "" else text != "" ==> !Blank(text[0])
    ensures var d, vs := descs[i], Values(st, other, kind);
      Values(LoadLine(st, descs, d.name + gap + text), other, kind) ==
        if other != d.name || kind != d.kind then vs
        else if d.kind == KString && d.multiple then vs + [v]
        else if vs == [] then [v] else [v] + vs[1..]
  {
    hide KeywordLength, SkipSpace, Atol, Set, FindDesc, GoodDescs, GoodName, Values, AllBlank, Blank;
    var d := descs[i];
    var line := d.name + gap + text;
    NameIsGood(descs, i);
    NameStarts(d, gap + text);
    assert line == d.name + (gap + text);
    LineParts(d.name, gap, text);
    DescFound(descs, i);
    assert LoadLine(st, descs, line) == Set(st, d, v);
    SetMeans(st, d, text, v, other, kind);
  }

  lemma NameIsGood(descs: seq<Desc>, i: nat)
    requires GoodDescs(descs) && i < |descs|
    ensures GoodName(descs[i].name)
  {
  }

  lemma {:induction false} SetMeans(st: Store, d: Desc, text: string, v: Value, other: string, kind: Kind)
    requires Means(d, text, v)
    ensures var vs := Values(st, other, kind);
      Values(Set(st, d, v), other, kind) ==
        if other != d.name || kind != d.kind then vs
        else if d.kind == KString && d.multiple then vs + [v]
        else if vs == [] then [v] else [v] + vs[1..]
  {
    hide Atol, Values, Added, Replaced;
    ValuesAdded(st, d.name, v, other, kind);
    ValuesReplaced(st, d.name, v, other, kind);
  }

  /** Comments start with # or ;. They, empty lines and lines of unknown keywords change nothing. */
  lemma {:induction false} LineIgnored(st: Store, descs: seq<Desc>, line: string, word: string, gap: string, text: string)
    requires (forall i :: 0 <= i < |word| ==> !Blank(word[i])) && AllBlank(gap)
    requires if gap == "" then text == "" else text != "" ==> !Blank(text[0])
    ensures line == "" || line[0] == '#' || line[0] == ';' ==> LoadLine(st, descs, line) == st
    ensures (forall i :: 0 <= i < |descs| ==> descs[i].name != word) ==> LoadLine(st, descs, word + gap + text) == st
  {
    hide KeywordLength, SkipSpace, Set, Parsed, FindDesc, AllBlank, Blank, Load;
    LineParts(word, gap, text);
    if forall i :: 0 <= i < |descs| ==> descs[i].name != word {
      UnknownWord(st, descs, word + gap + text);
    }
  }

  lemma UnknownWord(st: Store, descs: seq<Desc>, line: string)
    requires FindDesc(descs, line[..KeywordLength(line)]) == |descs|
    ensures LoadLine(st, descs, line) == st
  {
    hide KeywordLength, SkipSpace, Set, Parsed, FindDesc;
  }

  // ---- Numbers ----

  /** The number that a string of digits is. */
  function NumberOf(ds: string): (n: nat)
    requires AllDigits(ds)
  {
    if ds == "" then 0 else 10 * NumberOf(ds[..|ds| - 1]) + (ds[|ds| - 1] as int - 48)
  }

  lemma {:induction false} DigitsUpTo(ds: string, rest: string, acc: nat)
    requires AllDigits(ds) && (rest != "" ==> !('0' <= rest[0] <= '9'))
    ensures DigitsValue(ds + rest, acc) == DigitsValue(ds, acc)
    decreases |ds|
  {
    if ds == "" {
      assert ds + rest == rest;
    } else {
      assert (ds + rest)[1..] == ds[1..] + rest;
      DigitsUpTo(ds[1..], rest, 10 * acc + (ds[0] - '0') as nat);
    }
  }

  lemma {:induction false} DigitsAre(ds: string)
    requires AllDigits(ds)
    ensures DigitsValue(ds, 0) == NumberOf(ds)
    decreases |ds|
  {
    if ds != "" {
      var n := |ds| - 1;
      DigitsAre(ds[..n]);
      ValueOfLast(ds[..n], ds[n], 0);
      assert ds == ds[..n] + [ds[n]];
    }
  }

  /** The digits at the front of a value count, with a sign, up to the first other character; a number that
      does not fit 32 bits becomes the nearest that does. */
  lemma {:induction false} NumberMeans(ds: string, rest: string)
    requires AllDigits(ds) && (rest != "" ==> !('0' <= rest[0] <= '9'))
    ensures var n := NumberOf(ds);
      && Atol("-" + ds + rest) == (if n <= 0x8000_0000 then -(n as int) else -0x8000_0000)
      && Atol("+" + ds + rest) == (if n < 0x8000_0000 then n else 0x7fff_ffff)
      && (ds != "" || rest == "" || (rest[0] != '-' && rest[0] != '+') ==> Atol(ds + rest) == if n < 0x8000_0000 then n else 0x7fff_ffff)
  {
    hide DigitsValue, NumberOf;
    DigitsUpTo(ds, rest, 0);
    DigitsAre(ds);
    assert ("-" + ds + rest)[1..] == ds + rest && ("+" + ds + rest)[1..] == ds + rest;
    assert ds != "" ==> (ds + rest)[0] == ds[0];
    assert ds == "" ==> ds + rest == rest;
  }

  /** A printed number is its digits, without a leading zero, behind a minus sign if it is negative. */
  lemma {:induction false} PrintedNumber(v: int)
    ensures var ds := if v < 0 && Decimal(v) != "" then Decimal(v)[1..] else Decimal(v);
      && (v < 0 ==> Decimal(v) != "" && Decimal(v)[0] == '-')
      && AllDigits(ds) && ds != "" && (ds[0] == '0' ==> ds == "0") && NumberOf(ds) == if v < 0 then -v else v
  {
    hide Digits, NumberOf, DigitsValue;
    var n := if v < 0 then -v else v;
    DigitsReadBack(n);
    DigitsAre(Digits(n));
    NoLeadingZero(n);
    assert v < 0 ==> Decimal(v)[1..] == Digits(n);
  }

  lemma {:induction false} NoLeadingZero(n: nat)
    ensures Digits(n)[0] == '0' ==> Digits(n) == "0"
    ensures Digits(n)[0] == '0' ==> n == 0
  {
    if n >= 10 {
      NoLeadingZero(n / 10);
      assert Digits(n)[0] == Digits(n / 10)[0];
    }
  }

  /** What is answered for a keyword without a value: no string, false and 0. */
  lemma {:induction false} UnsetAnswers(st: Store, name: string, index: nat)
    ensures index >= |Values(st, name, KString)| ==> FindString(st, name, index) == None
    ensures Values(st, name, KBool) == [] ==> FindBool(st, name) == false
    ensures Values(st, name, KInt) == [] ==> FindInt(st, name) == 0
  {
    hide Values, FindNode;
    FindsValue(st, name, KString, index);
    FindsValue(st, name, KBool, 0);
    FindsValue(st, name, KInt, 0);
  }

  // ---- Lines of a text ----

  lemma {:induction false} TakesAll(line: string, room: nat)
    requires '\n' !in line && |line| <= room
    ensures LineLength(line, room) == |line|
    decreases |line|
  {
    if line != "" {
      TakesAll(line[1..], room - 1);
    }
  }

  lemma {:induction false} TakesRoom(line: string, room: nat)
    requires |line| >= room && '\n' !in line[..room]
    ensures LineLength(line, room) == room
    decreases room
  {
    if room > 0 {
      assert line[0] == line[..room][0];
      assert line[1..][..room - 1] == line[..room][1..];
      TakesRoom(line[1..], room - 1);
    }
  }

  /** A longer line is taken in pieces of 255 characters, each as a line of its own. */
  lemma LongLine(st: Store, descs: seq<Desc>, line: string, rest: string)
    requires '\n' !in line && '\0' !in line && |line| > 255
    ensures Load(st, descs, line + "\n" + rest) == Load(LoadLine(st, descs, line[..255]), descs, line[255..] + "\n" + rest)
  {
    hide LoadLine;
    var f := line + "\n" + rest;
    assert f[..255] == line[..255];
    TakesRoom(f, 255);
    assert CString(line[..255]) == line[..255];
    assert WithoutNewline(line[..255]) == line[..255];
    assert f[255..] == line[255..] + "\n" + rest;
  }

  /** The last line counts without a newline, too. */
  lemma LastLine(st: Store, descs: seq<Desc>, line: string)
    requires '\n' !in line && '\0' !in line && 0 < |line| <= 255
    ensures Load(st, descs, line) == LoadLine(st, descs, line)
  {
    hide LoadLine;
    TakesAll(line, 255);
    assert line[..|line|] == line && line[|line|..] == "";
    assert CString(line) == line && WithoutNewline(line) == line;
  }

  // ---- A text ----

  const EXAMPLE: seq<Desc> := [Desc("disk", KString, true), Desc("nosound", KBool, false), Desc("ramsize", KInt, false)]

  const STORE: Store := [Node("ramsize", I(-12)), Node("disk", S("a b")), Node("disk", S("c"))]

  lemma {:induction false} ExampleValues()
    ensures Values(STORE, "disk", KString) == [S("a b"), S("c")] && Values(STORE, "nosound", KBool) == []
    ensures Values(STORE, "ramsize", KInt) == [I(-12)]
  {
    var two, one := STORE[..2], STORE[..1];
    assert two[..1] == one && one[..0] == [];
    assert Values(one, "disk", KString) == [] && Values(two, "disk", KString) == [S("a b")];
    assert Values(one, "nosound", KBool) == [] && Values(two, "nosound", KBool) == [];
    assert Values(one, "ramsize", KInt) == [I(-12)] && Values(two, "ramsize", KInt) == [I(-12)];
  }

  lemma {:induction false} ExampleEntries()
    ensures Entries(STORE, EXAMPLE) ==
      [Entry(EXAMPLE[0], S("a b")), Entry(EXAMPLE[0], S("c")), Entry(EXAMPLE[1], B(false)), Entry(EXAMPLE[2], I(-12))]
  {
    hide Values, FindNode;
    ExampleValues();
    FindsValue(STORE, "nosound", KBool, 0);
    FindsValue(STORE, "ramsize", KInt, 0);
    var last, none := EXAMPLE[2..], EXAMPLE[3..];
    assert EXAMPLE[1..][1..] == last && last[1..] == none == [];
    assert Entries(STORE, last) == [Entry(EXAMPLE[2], I(-12))];
    assert Entries(STORE, EXAMPLE[1..]) == [Entry(EXAMPLE[1], B(false)), Entry(EXAMPLE[2], I(-12))];
  }

  lemma {:induction false} PrintsFirst(e: Entry, es: seq<Entry>)
    ensures Print([e] + es) == e.d.name + " " + ValueText(e.v) + "\n" + Print(es)
    ensures Print([]) == ""
  {
    hide ValueText;
    assert ([e] + es)[1..] == es;
  }

  lemma MinusTwelve()
    ensures Decimal(-12) == "-12"
  {
  }

  /** The text of a small store: a line for each string, and one for each truth value and number, set or not. */
  lemma TextOfExample()
    ensures Save(STORE, EXAMPLE) == "disk a b\n" + "disk c\n" + "nosound false\n" + "ramsize -12\n"
  {
    hide Print, Entries, Decimal;
    ExampleEntries();
    MinusTwelve();
    var a, b, c, d := Entry(EXAMPLE[0], S("a b")), Entry(EXAMPLE[0], S("c")), Entry(EXAMPLE[1], B(false)), Entry(EXAMPLE[2], I(-12));
    PrintsFirst(d, []);
    PrintsFirst(c, [d]);
    PrintsFirst(b, [c, d]);
    PrintsFirst(a, [b, c, d]);
    assert [d] + [] == [d] && [c] + [d] == [c, d] && [b] + [c, d] == [b, c, d] && [a] + [b, c, d] == [a, b, c, d];
    assert "disk" + " " + "a b" + "\n" == "disk a b\n" && "disk" + " " + "c" + "\n" == "disk c\n";
    assert "nosound" + " " + "false" + "\n" == "nosound false\n" && "ramsize" + " " + "-12" + "\n" == "ramsize -12\n";
  }
}
