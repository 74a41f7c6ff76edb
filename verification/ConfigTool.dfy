/**
  The generator of platform configuration: the printer of a list, and the two output modes.
 */
module ConfigTool {
  import opened Bits
  import opened Options
  import opened Numerals
  import LogFile

  const INT_MAX := 0x7FFF_FFFF
  const LIST_DESCENDING := 1
  const USE_LEADING_ZERO := 2
  const NAME_LEN := 64

  datatype ListDetail = ListDetail(typeName: string, numEntries: size_t, customMax: Option<string>, options: nat)

  datatype RenderStyle = NoStyle | ArrayStyle
  datatype DetailEntry = DetailEntry(style: RenderStyle, ido: int, list: ListDetail)
  datatype PlatformEntry = PlatformEntry(name: Option<string>, details: seq<DetailEntry>)

  // ----------------------------------------------------------------- one list

  /** Conversion to the platform's 32-bit int. */
  function ToInt(x: int): (r: int)
    ensures -INT_MAX - 1 <= r <= INT_MAX
    ensures -INT_MAX - 1 <= x <= INT_MAX ==> r == x
  {
    var u := x % UINT32_T;
    if u > INT_MAX then u - UINT32_T else u
  }

  predicate Descending(d: ListDetail) { And(d.options, LIST_DESCENDING) != 0 }

  predicate LeadingZero(d: ListDetail) { And(d.options, USE_LEADING_ZERO) != 0 }

  /** What a buffer of the tool holds of a formatted name. */
  function Cut(s: string): string { LogFile.Stored(s, NAME_LEN) }

  /** What `%s` prints for a missing name. */
  function Shown(prefix: Option<string>): string { if prefix.Some? then prefix.value else "(null)" }

  /** How many elements are printed: the count is kept in an int. */
  function Count(d: ListDetail): (m: nat)
    ensures m <= INT_MAX && m <= d.numEntries
    ensures m == d.numEntries <==> d.numEntries <= INT_MAX
    ensures m == if d.numEntries % UINT32_T <= INT_MAX then d.numEntries % UINT32_T else 0
  {
    var i := ToInt(d.numEntries);
    if i > 0 then i else 0
  }

  function Width(d: ListDetail): (w: nat)
    ensures w >= 1
  {
    if LeadingZero(d) then |Decimal(Count(d))| else 1
  }

  /** The number used for the element at a position. */
  function IndexAt(d: ListDetail, k: nat): (i: nat)
    requires k < Count(d)
    ensures 1 <= i <= Count(d)
  {
    if Descending(d) then Count(d) - k else k + 1
  }

  function NumberedName(prefix: Option<string>, d: ListDetail, index: nat): string {
    Cut("CFE_" + Shown(prefix) + "_" + Padded(index, Width(d)))
  }

  function ElementName(prefix: Option<string>, d: ListDetail, index: nat): string {
    if index == d.numEntries && d.customMax.Some? then Cut(d.customMax.value) else NumberedName(prefix, d, index)
  }

  function Elements(prefix: Option<string>, d: ListDetail): (es: seq<string>)
    ensures |es| == Count(d)
    ensures forall k :: 0 <= k < |es| ==> es[k] == ElementName(prefix, d, IndexAt(d, k))
  {
    seq(Count(d), k requires 0 <= k < Count(d) => ElementName(prefix, d, IndexAt(d, k)))
  }

  function ArrayName(prefix: Option<string>): string { Cut("CFE_CONFIG_" + Shown(prefix) + "_CONTENT") }

  function Header(prefix: Option<string>, d: ListDetail): string {
    "static const " + (d.typeName + " " + ArrayName(prefix)) + "[" + Decimal(d.numEntries) + "] = {\n"
  }

  function Line(name: string, last: bool): string { "  " + name + [if last then ' ' else ','] + "\n" }

  function Lines(es: seq<string>): string {
    if es == [] then "" else Line(es[0], |es| == 1) + Lines(es[1..])
  }

  const FOOTER := "};\n\n"

  function ListText(prefix: Option<string>, d: ListDetail): string {
    Header(prefix, d) + Lines(Elements(prefix, d)) + FOOTER
  }

  /** The loop that counts digits. */
  method DigitWidth(n: int) returns (width: nat)
    ensures width == |Decimal(if n > 0 then n else 0)|
  {
    var i := n;
    width := 1;
    while i >= 10
      invariant width + |Decimal(if i > 0 then i else 0)| == 1 + |Decimal(if n > 0 then n else 0)|
    {
      i := i / 10;
      width := width + 1;
    }
  }

  /** The index in the ascending order, computed in the width of size_t and kept in an int. */
  lemma AscendingIndex(d: ListDetail, i: int)
    requires 0 <= i < Count(d)
    ensures ToInt(ToSize(d.numEntries - i)) == Count(d) - i
  {
    assert ToSize(d.numEntries - i) == d.numEntries - i;
    var n, q := d.numEntries, d.numEntries / UINT32_T;
    assert n % UINT32_T == Count(d);
    DivModUnique(n - i, UINT32_T, q, Count(d) - i);
  }

  lemma StartCount(d: ListDetail)
    ensures if ToInt(d.numEntries) > 0 then ToInt(d.numEntries) == Count(d) else Count(d) == 0
  {}

  /** One line more is the next line of the list. */
  lemma NextLine(es: seq<string>, k: nat, before: string)
    requires k < |es|
    ensures before + Lines(es[k..]) == before + Line(es[k], k == |es| - 1) + Lines(es[k + 1..])
  {
    hide Line;
    assert es[k..][0] == es[k] && es[k..][1..] == es[k + 1..];
  }

  lemma NoLines(es: seq<string>)
    ensures Lines(es[|es|..]) == ""
  {}

  method RenderListContent(prefix: Option<string>, d: ListDetail) returns (out: string)
    ensures out == ListText(prefix, d)
  {
    hide Cut;
    hide Padded;
    hide Line;
    hide Lines;
    hide Header;
    hide And;
    hide ToInt;
    hide ToSize;
    hide Shown;
    hide Decimal;
    StartCount(d);
    var isReverse, useLeadingZero := Descending(d), LeadingZero(d);
    var i: int := ToInt(d.numEntries);
    var width := 1;
    if useLeadingZero { width := DigitWidth(i); }
    out := Header(prefix, d);
    ghost var es, m := Elements(prefix, d), Count(d);
    assert es[0..] == es;
    var idv := 0;
    while i > 0
      invariant i == m || 0 <= i <= m || (i < 0 && m == 0)
      invariant out + Lines(es[m - (if i > 0 then i else 0)..]) == Header(prefix, d) + Lines(es)
    {
      ghost var k := m - i;
      if isReverse { idv := i; }
      i := i - 1;
      if !isReverse {
        AscendingIndex(d, i);
        idv := ToInt(ToSize(d.numEntries - i));
      }
      var entryString;
      if idv == d.numEntries && d.customMax.Some? {
        entryString := Cut(d.customMax.value);
      } else {
        entryString := Cut("CFE_" + Shown(prefix) + "_" + Padded(idv, width));
      }
      assert idv == IndexAt(d, k) && entryString == es[k];
      NextLine(es, k, out);
      out := out + Line(entryString, i == 0);
    }
    assert Lines(es[m..]) == "" by { NoLines(es); }
    out := out + FOOTER;
  }

  // ----------------------------------------------------------------- tables

  function Preamble(): string { "/* THIS IS GENERATED CONTENT, DO NOT EDIT */\n\n" }

  function Macro(name: string): string { "CFE_PLATFORMCFG_ENTRY(" + name + ")\n" }

  /** Whether an entry has a rendering function: an array of no elements has none. */
  predicate Renderable(e: DetailEntry) { e.style == ArrayStyle && e.list.numEntries > 0 }

  function NameFromOffset(names: seq<string>, ido: int): Option<string> {
    if 0 < ido < |names| then Some(names[ido]) else None
  }

  /** A table ends with an entry without style. */
  predicate Terminated(table: seq<DetailEntry>) {
    table != [] && (table[0].style == NoStyle || Terminated(table[1..]))
  }

  /** The entries before the terminator. */
  function Live(table: seq<DetailEntry>): seq<DetailEntry> {
    if table == [] || table[0].style == NoStyle then [] else [table[0]] + Live(table[1..])
  }

  predicate PlatformsTerminated(platforms: seq<PlatformEntry>) {
    platforms != [] && (platforms[0].name.None? || PlatformsTerminated(platforms[1..]))
  }

  function LowerChar(c: char): char { if 'A' <= c <= 'Z' then c - 'A' + 'a' else c }

  /** strcasecmp finds no difference. */
  predicate SameName(a: string, b: string) {
    |a| == |b| && forall i :: 0 <= i < |a| ==> LowerChar(a[i]) == LowerChar(b[i])
  }

  /** The table of the first platform of that name, before the one without a name. */
  function FindDetail(platforms: seq<PlatformEntry>, name: string): Option<seq<DetailEntry>> {
    if platforms == [] || platforms[0].name.None? then None
    else if SameName(platforms[0].name.value, name) then Some(platforms[0].details)
    else FindDetail(platforms[1..], name)
  }

  method FindDetailByName(platforms: seq<PlatformEntry>, name: string) returns (r: Option<seq<DetailEntry>>)
    requires PlatformsTerminated(platforms)
    ensures r == FindDetail(platforms, name)
  {
    var i := 0;
    while platforms[i].name.Some?
      invariant i < |platforms| && PlatformsTerminated(platforms[i..])
      invariant FindDetail(platforms, name) == FindDetail(platforms[i..], name)
      decreases |platforms| - i
    {
      if SameName(platforms[i].name.value, name) { return Some(platforms[i].details); }
      assert platforms[i..][1..] == platforms[i + 1..];
      i := i + 1;
    }
    return None;
  }

  datatype Mode = InitCode | EntryList

  /** What a mode prints for an entry. */
  function Part(mode: Mode, names: seq<string>, e: DetailEntry): string {
    if !Renderable(e) then "" else
    match mode
    case InitCode => ListText(NameFromOffset(names, e.ido), e.list)
    case EntryList =>
      match NameFromOffset(names, e.ido)
      case None => ""
      case Some(name) => Macro(name)
  }

  function Parts(mode: Mode, names: seq<string>, entries: seq<DetailEntry>): string {
    if entries == [] then "" else Part(mode, names, entries[0]) + Parts(mode, names, entries[1..])
  }

  /** What a mode has still to print from an index of the table on. */
  function Remaining(mode: Mode, names: seq<string>, table: seq<DetailEntry>, i: nat): string
    requires i <= |table|
  {
    Parts(mode, names, Live(table[i..]))
  }

  lemma NextPart(mode: Mode, names: seq<string>, table: seq<DetailEntry>, i: nat, before: string)
    requires i < |table| && Terminated(table[i..])
    ensures table[i].style == NoStyle ==> Remaining(mode, names, table, i) == ""
    ensures table[i].style != NoStyle ==>
      && i + 1 < |table| && Terminated(table[i + 1..])
      && before + Remaining(mode, names, table, i)
           == before + Part(mode, names, table[i]) + Remaining(mode, names, table, i + 1)
  {
    hide Part;
    assert table[i..][1..] == table[i + 1..];
    if table[i].style != NoStyle {
      assert ([table[i]] + Live(table[i + 1..]))[1..] == Live(table[i + 1..]);
    }
  }

  /** All detail tables end. */
  predicate TablesTerminated(platforms: seq<PlatformEntry>) {
    forall i :: 0 <= i < |platforms| && platforms[i].name.Some? ==> Terminated(platforms[i].details)
  }

  lemma {:induction false} FoundTerminated(platforms: seq<PlatformEntry>, name: string)
    requires TablesTerminated(platforms) && FindDetail(platforms, name).Some?
    ensures Terminated(FindDetail(platforms, name).value)
  {
    if !SameName(platforms[0].name.value, name) {
      assert forall i :: 0 <= i < |platforms| - 1 ==> platforms[1..][i] == platforms[i + 1];
      FoundTerminated(platforms[1..], name);
    }
  }

  lemma WholeTable(mode: Mode, names: seq<string>, table: seq<DetailEntry>)
    ensures Terminated(table) ==> |table| > 0
    ensures table[0..] == table && Remaining(mode, names, table, 0) == Parts(mode, names, Live(table))
  {
    assert table[0..] == table;
  }

  /** The loop over a table that renders its entries. */
  method RenderTable(names: seq<string>, table: seq<DetailEntry>) returns (out: string)
    requires Terminated(table)
    ensures out == Parts(InitCode, names, Live(table))
  {
    hide Parts;
    hide Live;
    hide Terminated;
    hide Remaining;
    hide ListText;
    hide Macro;
    out := "";
    var i := 0;
    WholeTable(InitCode, names, table);
    while table[i].style != NoStyle
      invariant i < |table| && Terminated(table[i..])
      invariant out + Remaining(InitCode, names, table, i) == Remaining(InitCode, names, table, 0)
      decreases |table| - i
    {
      NextPart(InitCode, names, table, i, out);
      if Renderable(table[i]) {
        var text := RenderListContent(NameFromOffset(names, table[i].ido), table[i].list);
        out := out + text;
      }
      i := i + 1;
    }
    NextPart(InitCode, names, table, i, out);
  }

  /** The initcode mode. */
  method WritePlatformCfg(platforms: seq<PlatformEntry>, names: seq<string>, platName: string)
    returns (ok: bool, out: string)
    requires PlatformsTerminated(platforms) && TablesTerminated(platforms)
    ensures ok <==> FindDetail(platforms, platName).Some?
    ensures ok ==> out == Preamble() + Parts(InitCode, names, Live(FindDetail(platforms, platName).value))
    ensures !ok ==> out == ""
  {
    var found := FindDetailByName(platforms, platName);
    if found.None? { return false, ""; }
    FoundTerminated(platforms, platName);
    out := RenderTable(names, found.value);
    return true, Preamble() + out;
  }

  /** The loop over a table that lists the names of its entries. */
  method ListTable(names: seq<string>, table: seq<DetailEntry>) returns (out: string)
    requires Terminated(table)
    ensures out == Parts(EntryList, names, Live(table))
  {
    hide Parts;
    hide Live;
    hide Terminated;
    hide Remaining;
    hide ListText;
    hide Macro;
    out := "";
    var i := 0;
    WholeTable(EntryList, names, table);
    while table[i].style != NoStyle
      invariant i < |table| && Terminated(table[i..])
      invariant out + Remaining(EntryList, names, table, i) == Remaining(EntryList, names, table, 0)
      decreases |table| - i
    {
      NextPart(EntryList, names, table, i, out);
      if Renderable(table[i]) {
        var name := NameFromOffset(names, table[i].ido);
        if name.Some? { out := out + Macro(name.value); }
      }
      i := i + 1;
    }
    NextPart(EntryList, names, table, i, out);
  }

  /** The entrylist mode. */
  method WriteValidEntries(platforms: seq<PlatformEntry>, names: seq<string>, platName: string)
    returns (ok: bool, out: string)
    requires PlatformsTerminated(platforms) && TablesTerminated(platforms)
    ensures ok <==> FindDetail(platforms, platName).Some?
    ensures ok ==> out == Preamble() + Parts(EntryList, names, Live(FindDetail(platforms, platName).value))
    ensures !ok ==> out == ""
  {
    var found := FindDetailByName(platforms, platName);
    if found.None? { return false, ""; }
    FoundTerminated(platforms, platName);
    out := ListTable(names, found.value);
    return true, Preamble() + out;
  }
}
