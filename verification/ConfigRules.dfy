/** What the generator promises of its lists and of its two modes. */
module ConfigRules {
  import opened Bits
  import opened Options
  import opened Numerals
  import opened ConfigTool
  import opened ConfigReader
  import LogFile

  // ----------------------------------------------------------------- indices and sizes

  /** The position of an index in the list. */
  function PositionOf(d: ListDetail, index: nat): int {
    if Descending(d) then Count(d) - index else index - 1
  }

  /** Either order covers the indices from 1 to the count once each. */
  lemma EachIndexOnce(d: ListDetail, index: nat, k: nat)
    requires 1 <= index <= Count(d) && k < Count(d)
    ensures 0 <= PositionOf(d, index) < Count(d)
    ensures IndexAt(d, k) == index <==> k == PositionOf(d, index)
  {}

  /** `e` is `d` in the other order. */
  predicate Opposite(d: ListDetail, e: ListDetail) {
    && Descending(d) != Descending(e) && LeadingZero(d) == LeadingZero(e)
    && d.typeName == e.typeName && d.numEntries == e.numEntries && d.customMax == e.customMax
  }

  /** The two orders are the reverse of each other. */
  lemma OrdersReversed(prefix: Option<string>, d: ListDetail, e: ListDetail, k: nat)
    requires Opposite(d, e) && k < Count(d)
    ensures Elements(prefix, e)[k] == Elements(prefix, d)[Count(d) - 1 - k]
  {
    assert IndexAt(e, k) == IndexAt(d, Count(d) - 1 - k);
  }

  /** The numbered sizes increase and the custom maximum is above them. */
  ghost predicate SizesIncrease(prefix: Option<string>, d: ListDetail, size: string -> int) {
    && d.customMax.Some?
    && (forall i, j :: 1 <= i < j < d.numEntries ==>
          size(NumberedName(prefix, d, i)) < size(NumberedName(prefix, d, j)))
    && (forall i :: 1 <= i < d.numEntries ==> size(NumberedName(prefix, d, i)) < size(Cut(d.customMax.value)))
  }

  /** A descending list resolves to strictly decreasing sizes headed by the maximum, an ascending one to
      strictly increasing sizes that end with it. */
  lemma SizesInOrder(prefix: Option<string>, d: ListDetail, size: string -> int)
    requires 0 < d.numEntries <= INT_MAX && SizesIncrease(prefix, d, size)
    ensures var es := Elements(prefix, d);
            && (Descending(d) ==> es[0] == Cut(d.customMax.value))
            && (!Descending(d) ==> es[|es| - 1] == Cut(d.customMax.value))
            && forall k, l :: 0 <= k < l < |es| ==>
                 if Descending(d) then size(es[k]) > size(es[l]) else size(es[k]) < size(es[l])
  {}

  // ----------------------------------------------------------------- elements

  /** The two options are the two lowest bits. */
  lemma OptionBits(d: ListDetail)
    ensures Descending(d) <==> d.options % 2 == 1
    ensures LeadingZero(d) <==> d.options / 2 % 2 == 1
  {
    assert And(d.options / 2, 0) == 0;
    assert And(d.options / 2, 1) == d.options / 2 % 2 by { assert And(d.options / 2 / 2, 0) == 0; }
  }

  /** The number printed at a position, by the lowest option. */
  function NumberAt(d: ListDetail, k: nat): int { if d.options % 2 == 1 then Count(d) - k else k + 1 }

  /** A position is that of the number of all entries, and a custom maximum takes its place. */
  predicate AtMaximum(d: ListDetail, k: nat) { d.customMax.Some? && NumberAt(d, k) == d.numEntries }

  /** The digits of a number printed: as many as the count has, if zeros lead. */
  function DigitsAt(d: ListDetail, k: nat): nat
    requires k < Count(d)
  {
    |Decimal(if d.options / 2 % 2 == 1 then Count(d) else NumberAt(d, k))|
  }

  /**
    What is read back at a position from the text of a list, with or without a maximum: after the stem, a numeral of
    the number that belongs there, or the maximum, as far as its buffer goes.
   */
  lemma ElementsNumbered(name: string, d: ListDetail, k: nat, rest: string)
    requires Plain(Some(name), d) && k < Count(d)
    ensures ParseArray(ListText(Some(name), d) + rest).Some?
    ensures var es := ParseArray(ListText(Some(name), d) + rest).value.0.elements;
            var stem := "CFE_" + name + "_";
      && |es| == Count(d)
      && (!AtMaximum(d, k) && |stem| + DigitsAt(d, k) <= 63 ==>
            && stem <= es[k] && |es[k]| == |stem| + DigitsAt(d, k)
            && Value(es[k][|stem|..]) == NumberAt(d, k))
      && (AtMaximum(d, k) ==>
            && es[k] <= d.customMax.value
            && |es[k]| == if |d.customMax.value| <= 63 then |d.customMax.value| else 63)
  {
    PrintThenRead(Some(name), d, rest);
    OptionBits(d);
    assert ParseArray(ListText(Some(name), d) + rest).value.0.elements == Elements(Some(name), d);
    hide ParseArray;
    hide ListText;
    hide Plain;
    ElementText(name, d, k);
  }

  lemma ElementText(name: string, d: ListDetail, k: nat)
    requires k < Count(d)
    ensures var e, stem := Elements(Some(name), d)[k], "CFE_" + name + "_";
      && (!AtMaximum(d, k) && |stem| + DigitsAt(d, k) <= 63 ==>
            && stem <= e && |e| == |stem| + DigitsAt(d, k) && Value(e[|stem|..]) == NumberAt(d, k))
      && (AtMaximum(d, k) ==>
            && e <= d.customMax.value && |e| == if |d.customMax.value| <= 63 then |d.customMax.value| else 63)
  {
    OptionBits(d);
    hide And;
    var n, stem := NumberAt(d, k), "CFE_" + name + "_";
    assert n == IndexAt(d, k);
    ValueOfPadded(n, Width(d));
    MoreDigits(n, Count(d));
    assert |Padded(n, Width(d))| == DigitsAt(d, k);
    if !AtMaximum(d, k) && |stem| + DigitsAt(d, k) <= 63 {
      assert Elements(Some(name), d)[k] == stem + Padded(n, Width(d));
      assert (stem + Padded(n, Width(d)))[|stem|..] == Padded(n, Width(d));
    }
  }

  // ----------------------------------------------------------------- names

  function Stem(prefix: Option<string>): string { "CFE_" + Shown(prefix) + "_" }

  /** The numbered names are distinct exactly when there is one at most, or the longest fits the buffer. */
  lemma NamesDistinct(prefix: Option<string>, d: ListDetail)
    ensures (forall i, j :: 1 <= i < j <= Count(d) ==> NumberedName(prefix, d, i) != NumberedName(prefix, d, j))
       <==> Count(d) <= 1 || |Stem(prefix)| + |Decimal(Count(d))| < NAME_LEN
  {
    var m := Count(d);
    if |Stem(prefix)| + |Decimal(m)| < NAME_LEN {
      forall i, j | 1 <= i < j <= m ensures NumberedName(prefix, d, i) != NumberedName(prefix, d, j) {
        FittingNames(prefix, d, i, j);
      }
    } else if m >= 2 {
      var i, j := CutNames(prefix, d);
    }
  }

  lemma FittingNames(prefix: Option<string>, d: ListDetail, i: nat, j: nat)
    requires 1 <= i <= Count(d) && 1 <= j <= Count(d) && |Stem(prefix)| + |Decimal(Count(d))| < NAME_LEN
    ensures NumberedName(prefix, d, i) == NumberedName(prefix, d, j) <==> i == j
    ensures LeadingZero(d) ==> (Less(NumberedName(prefix, d, i), NumberedName(prefix, d, j)) <==> i < j)
  {
    var s, p, q := Stem(prefix), Padded(i, Width(d)), Padded(j, Width(d));
    MoreDigits(i, Count(d));
    MoreDigits(j, Count(d));
    assert NumberedName(prefix, d, i) == s + p && NumberedName(prefix, d, j) == s + q;
    assert (s + p)[|s|..] == p && (s + q)[|s|..] == q;
    if LeadingZero(d) {
      ZeroPaddingKeepsOrder(Count(d), i, j);
      CommonStem(s, p, q);
    } else {
      ValueOfDecimal(i);
      ValueOfDecimal(j);
    }
  }

  lemma {:induction false} CommonStem(s: string, p: string, q: string)
    ensures Less(s + p, s + q) <==> Less(p, q)
  {
    if s == [] {
      assert s + p == p && s + q == q;
    } else {
      assert (s + p)[1..] == s[1..] + p && (s + q)[1..] == s[1..] + q;
      CommonStem(s[1..], p, q);
    }
  }

  /** Two names that the buffer cuts to the same text. */
  lemma CutNames(prefix: Option<string>, d: ListDetail) returns (i: nat, j: nat)
    requires Count(d) >= 2 && |Stem(prefix)| + |Decimal(Count(d))| >= NAME_LEN
    ensures 1 <= i < j <= Count(d) && NumberedName(prefix, d, i) == NumberedName(prefix, d, j)
  {
    var s, m := Stem(prefix), Count(d);
    var room := NAME_LEN - 1 - |s|;
    if room <= 0 || LeadingZero(d) {
      i, j := 1, 2;
      SameLead(Width(d));
      var p, q := Padded(1, Width(d)), Padded(2, Width(d));
      assert (s + p)[..NAME_LEN - 1] == (s + q)[..NAME_LEN - 1];
    } else {
      j := m;
      i := LeadingPart(m, room);
      assert (s + Decimal(m))[..NAME_LEN - 1] == s + Decimal(m)[..room];
    }
  }

  lemma SameLead(width: nat)
    requires width >= 1
    ensures var p, q := Padded(1, width), Padded(2, width);
            |p| == |q| == width && p[..width - 1] == q[..width - 1]
  {}

  /** The first digits of a numeral are a smaller number's. */
  lemma {:induction false} LeadingPart(m: nat, digits: nat) returns (q: nat)
    requires 1 <= digits < |Decimal(m)|
    ensures 1 <= q < m && Decimal(q) == Decimal(m)[..digits]
  {
    q := m / 10;
    if digits < |Decimal(m)| - 1 { q := LeadingPart(m / 10, digits); }
  }

  // ----------------------------------------------------------------- the two modes

  /** All definitions of a text. */
  function ParseArrays(s: string): Option<seq<Array>>
    decreases |s|
  {
    if s == "" then Some([]) else
    match ParseArray(s)
    case None => None
    case Some(first) =>
      match ParseArrays(first.1)
      case None => None
      case Some(more) => Some([first.0] + more)
  }

  /** All names of a list of macros. */
  function ParseMacros(s: string): Option<seq<string>>
    decreases |s|
  {
    if s == "" then Some([]) else
    match After(s, "CFE_PLATFORMCFG_ENTRY(")
    case None => None
    case Some(t) =>
      match Field(t, ')')
      case None => None
      case Some(name) =>
        match After(name.1, "\n")
        case None => None
        case Some(rest) =>
          match ParseMacros(rest)
          case None => None
          case Some(more) => Some([name.0] + more)
  }

  predicate PlainEntry(names: seq<string>, e: DetailEntry) {
    var name := NameFromOffset(names, e.ido);
    Renderable(e) ==> Plain(name, e.list) && (name.Some? ==> Free(name.value, {')'}))
  }

  predicate ValidOffset(names: seq<string>, e: DetailEntry) { Renderable(e) ==> NameFromOffset(names, e.ido).Some? }

  function Arrays(names: seq<string>, es: seq<DetailEntry>): seq<Array> {
    if es == [] then [] else
    (if Renderable(es[0]) then [Printed(NameFromOffset(names, es[0].ido), es[0].list)] else []) + Arrays(names, es[1..])
  }

  function MacroNames(names: seq<string>, es: seq<DetailEntry>): seq<string> {
    if es == [] then [] else
    var name := NameFromOffset(names, es[0].ido);
    (if Renderable(es[0]) && name.Some? then [name.value] else []) + MacroNames(names, es[1..])
  }

  lemma {:induction false} ArraysRead(names: seq<string>, es: seq<DetailEntry>)
    requires forall i :: 0 <= i < |es| ==> PlainEntry(names, es[i])
    ensures ParseArrays(Parts(InitCode, names, es)) == Some(Arrays(names, es))
  {
    hide Plain;
    hide Free;
    hide ListText;
    hide ParseArray;
    hide Printed;
    hide Macro;
    if es != [] {
      var e, rest := es[0], Parts(InitCode, names, es[1..]);
      ArraysRead(names, es[1..]);
      if Renderable(e) {
        ArrayRead(NameFromOffset(names, e.ido), e.list, rest);
      } else {
        assert "" + rest == rest && [] + Arrays(names, es[1..]) == Arrays(names, es[1..]);
      }
    }
  }

  lemma ArrayRead(prefix: Option<string>, d: ListDetail, rest: string)
    requires Plain(prefix, d)
    ensures ParseArrays(ListText(prefix, d) + rest)
         == match ParseArrays(rest) case None => None case Some(more) => Some([Printed(prefix, d)] + more)
  {
    PrintThenRead(prefix, d, rest);
    NoArray();
    hide ParseArray;
    hide ListText;
    hide Printed;
  }

  lemma NoArray()
    ensures ParseArray("").None?
  {}

  lemma {:induction false} MacrosRead(names: seq<string>, es: seq<DetailEntry>)
    requires forall i :: 0 <= i < |es| ==> PlainEntry(names, es[i])
    ensures ParseMacros(Parts(EntryList, names, es)) == Some(MacroNames(names, es))
  {
    hide Plain;
    hide Free;
    hide ListText;
    hide Macro;
    hide After;
    hide Field;
    if es != [] {
      var e, rest := es[0], Parts(EntryList, names, es[1..]);
      MacrosRead(names, es[1..]);
      var name := NameFromOffset(names, e.ido);
      if Renderable(e) && name.Some? {
        MacroRead(name.value, rest);
      } else {
        assert "" + rest == rest && [] + MacroNames(names, es[1..]) == MacroNames(names, es[1..]);
      }
    }
  }

  lemma MacroRead(name: string, rest: string)
    requires Free(name, {')'})
    ensures ParseMacros(Macro(name) + rest)
         == match ParseMacros(rest) case None => None case Some(more) => Some([name] + more)
  {
    hide Field;
    var v := "\n" + rest;
    assert ")\n" + rest == ")" + v;
    assert Macro(name) + rest == "CFE_PLATFORMCFG_ENTRY(" + (name + ")" + v);
    AfterText("CFE_PLATFORMCFG_ENTRY(", name + ")" + v);
    FieldOf(name, ')', v);
    AfterText("\n", rest);
  }

  /** One array for each name listed, in the same order and under the name made from it. */
  predicate Agree(arrays: seq<Array>, macros: seq<string>) {
    && |arrays| == |macros|
    && forall k :: 0 <= k < |arrays| ==> arrays[k].name == ArrayName(Some(macros[k]))
  }

  lemma NameOfPrinted(prefix: Option<string>, d: ListDetail)
    ensures Printed(prefix, d).name == ArrayName(prefix)
  {}

  lemma {:induction false} AgreeIff(names: seq<string>, es: seq<DetailEntry>)
    ensures |MacroNames(names, es)| <= |Arrays(names, es)|
    ensures Agree(Arrays(names, es), MacroNames(names, es)) <==> forall i :: 0 <= i < |es| ==> ValidOffset(names, es[i])
  {
    hide Printed;
    hide ArrayName;
    if es != [] {
      if Renderable(es[0]) { NameOfPrinted(NameFromOffset(names, es[0].ido), es[0].list); }
      var rest := es[1..];
      AgreeIff(names, rest);
      assert forall i :: 0 <= i < |rest| ==> rest[i] == es[i + 1];
      var arrays, macros := Arrays(names, rest), MacroNames(names, rest);
      if ValidOffset(names, es[0]) && Renderable(es[0]) {
        var a := Printed(NameFromOffset(names, es[0].ido), es[0].list);
        var m := NameFromOffset(names, es[0].ido).value;
        assert Arrays(names, es) == [a] + arrays && MacroNames(names, es) == [m] + macros;
        assert Agree([a] + arrays, [m] + macros) ==> Agree(arrays, macros) by {
          assert forall k :: 0 <= k < |arrays| ==> ([a] + arrays)[k + 1] == arrays[k];
          assert forall k :: 0 <= k < |macros| ==> ([m] + macros)[k + 1] == macros[k];
        }
      } else if !Renderable(es[0]) {
        assert Arrays(names, es) == arrays && MacroNames(names, es) == macros;
      }
    }
  }

  /** What the two modes print for the same table agrees exactly when every entry that is rendered has a valid
      offset. */
  lemma ModesAgree(names: seq<string>, table: seq<DetailEntry>)
    requires forall i :: 0 <= i < |Live(table)| ==> PlainEntry(names, Live(table)[i])
    ensures var es := Live(table);
            var arrays, macros := ParseArrays(Parts(InitCode, names, es)), ParseMacros(Parts(EntryList, names, es));
            && arrays.Some? && macros.Some?
            && (Agree(arrays.value, macros.value) <==> forall i :: 0 <= i < |es| ==> ValidOffset(names, es[i]))
  {
    ArraysRead(names, Live(table));
    MacrosRead(names, Live(table));
    AgreeIff(names, Live(table));
  }

  /** Finding a platform: the first of that name before the end of the list. */
  predicate FoundAt(platforms: seq<PlatformEntry>, name: string, i: nat) {
    && i < |platforms|
    && (forall j :: 0 <= j <= i ==> platforms[j].name.Some?)
    && SameName(platforms[i].name.value, name)
    && (forall j :: 0 <= j < i ==> !SameName(platforms[j].name.value, name))
  }

  lemma {:induction false} FindsFirst(platforms: seq<PlatformEntry>, name: string)
    ensures forall i: nat :: FoundAt(platforms, name, i) ==> FindDetail(platforms, name) == Some(platforms[i].details)
    ensures (exists i: nat :: FoundAt(platforms, name, i)) <==> FindDetail(platforms, name).Some?
  {
    if platforms != [] && platforms[0].name.Some? {
      if SameName(platforms[0].name.value, name) {
        assert FoundAt(platforms, name, 0);
      } else {
        var rest := platforms[1..];
        FindsFirst(rest, name);
        forall i: nat ensures FoundAt(platforms, name, i) <==> i > 0 && FoundAt(rest, name, i - 1) {
          if i > 0 && FoundAt(rest, name, i - 1) {
            assert forall j :: 0 < j <= i ==> platforms[j] == rest[j - 1];
          }
          if i > 0 && FoundAt(platforms, name, i) {
            assert forall j :: 0 <= j < i ==> rest[j] == platforms[j + 1];
          }
        }
        if i: nat :| FoundAt(rest, name, i) { assert FoundAt(platforms, name, i + 1); }
      }
    }
  }

  /** Capital and small letters of the alphabet differ by 32, and in nothing else do two names that are the same. */
  lemma SameNameMeans(a: string, b: string)
    ensures SameName(a, b) <==>
            |a| == |b| && forall i :: 0 <= i < |a| ==> a[i] == b[i] || CaseOf(a[i], b[i]) || CaseOf(b[i], a[i])
  {
    if |a| == |b| {
      forall i | 0 <= i < |a|
        ensures LowerChar(a[i]) == LowerChar(b[i]) <==> a[i] == b[i] || CaseOf(a[i], b[i]) || CaseOf(b[i], a[i])
      {}
    }
  }

  predicate CaseOf(capital: char, small: char) { 'A' <= capital <= 'Z' && small as int == capital as int + 32 }

  // ----------------------------------------------------------------- what is rendered

  /** In front of either mode's parts stands a comment that warns of edits. */
  lemma CommentFirst(mode: Mode, names: seq<string>, es: seq<DetailEntry>)
    ensures After(Preamble() + Parts(mode, names, es), "/* THIS IS GENERATED CONTENT, DO NOT EDIT */\n\n")
         == Some(Parts(mode, names, es))
  {
    hide Parts;
    AfterText("/* THIS IS GENERATED CONTENT, DO NOT EDIT */\n\n", Parts(mode, names, es));
  }

  /** What is printed comes from the entries up to the first without style. */
  lemma {:induction false} LiveIsPrefix(table: seq<DetailEntry>, n: nat)
    requires n < |table| && table[n].style == NoStyle && forall i :: 0 <= i < n ==> table[i].style != NoStyle
    ensures Live(table) == table[..n]
  {
    if n > 0 {
      LiveIsPrefix(table[1..], n - 1);
      assert table[..n] == [table[0]] + table[1..][..n - 1];
    }
  }

  /** The entries that are arrays with elements. */
  function Arrayed(es: seq<DetailEntry>): seq<DetailEntry> {
    if es == [] then []
    else (if es[0].style == ArrayStyle && es[0].list.numEntries > 0 then [es[0]] else []) + Arrayed(es[1..])
  }

  /** The names that entries have by their offsets. */
  function NamesOf(names: seq<string>, es: seq<DetailEntry>): seq<string> {
    if es == [] then []
    else (if 0 < es[0].ido < |names| then [names[es[0].ido]] else []) + NamesOf(names, es[1..])
  }

  /** An array read back is that of an entry: its type, its length, and the name that the offset gives. */
  predicate ArrayOf(names: seq<string>, a: Array, e: DetailEntry) {
    && a.typeName == e.list.typeName && a.length == e.list.numEntries
    && (0 < e.ido < |names| ==>
          var full := "CFE_CONFIG_" + names[e.ido] + "_CONTENT";
          a.name <= full && |a.name| == if |full| <= 63 then |full| else 63)
  }

  /** Both outputs read back, entry by entry: one array for each array with elements, one macro where it has a name. */
  lemma TableRead(names: seq<string>, table: seq<DetailEntry>)
    requires forall i :: 0 <= i < |Live(table)| ==> PlainEntry(names, Live(table)[i])
    ensures var es := Live(table);
            var arrays, macros := ParseArrays(Parts(InitCode, names, es)), ParseMacros(Parts(EntryList, names, es));
            && arrays.Some? && |arrays.value| == |Arrayed(es)|
            && (forall k :: 0 <= k < |arrays.value| ==> ArrayOf(names, arrays.value[k], Arrayed(es)[k]))
            && macros == Some(NamesOf(names, Arrayed(es)))
  {
    ArraysRead(names, Live(table));
    MacrosRead(names, Live(table));
    ArraysArrayed(names, Live(table));
    MacrosArrayed(names, Live(table));
  }

  lemma {:induction false} ArraysArrayed(names: seq<string>, es: seq<DetailEntry>)
    ensures |Arrays(names, es)| == |Arrayed(es)|
    ensures forall k :: 0 <= k < |Arrayed(es)| ==> ArrayOf(names, Arrays(names, es)[k], Arrayed(es)[k])
  {
    if es != [] {
      ArraysArrayed(names, es[1..]);
      if Renderable(es[0]) { PrintedOf(names, es[0]); }
      hide ArrayOf;
      hide Printed;
    }
  }

  lemma PrintedOf(names: seq<string>, e: DetailEntry)
    ensures ArrayOf(names, Printed(NameFromOffset(names, e.ido), e.list), e)
  {}

  lemma {:induction false} MacrosArrayed(names: seq<string>, es: seq<DetailEntry>)
    ensures MacroNames(names, es) == NamesOf(names, Arrayed(es))
  {
    if es != [] {
      MacrosArrayed(names, es[1..]);
      var rest := Arrayed(es[1..]);
      if Renderable(es[0]) { assert ([es[0]] + rest)[1..] == rest; } else { assert [] + rest == rest; }
    }
  }
}
