/** A reader of the generated arrays, and the proof that it gives back what was printed. */
module ConfigReader {
  import opened Options
  import opened Numerals
  import opened ConfigTool
  import LogFile

  /** An array definition as read. */
  datatype Array = Array(typeName: string, name: string, length: int, elements: seq<string>)

  predicate Free(s: string, stops: set<char>) { forall i :: 0 <= i < |s| ==> s[i] !in stops }

  function Until(s: string, stops: set<char>): (n: nat)
    ensures n <= |s| && Free(s[..n], stops) && (n < |s| ==> s[n] in stops)
  {
    if s == [] || s[0] in stops then 0 else 1 + Until(s[1..], stops)
  }

  lemma {:induction false} UntilStop(u: string, c: char, v: string, stops: set<char>)
    requires Free(u, stops) && c in stops
    ensures Until(u + [c] + v, stops) == |u|
    ensures (u + [c] + v)[..|u|] == u && (u + [c] + v)[|u|..] == [c] + v
  {
    var s := u + [c] + v;
    if u != [] {
      assert s[0] == u[0] && s[1..] == u[1..] + [c] + v;
      UntilStop(u[1..], c, v, stops);
    }
  }

  /** The text before the first `stop` and the text behind it. */
  function Field(s: string, stop: char): (r: Option<(string, string)>)
    ensures r.Some? ==> s == r.value.0 + [stop] + r.value.1
  {
    var k := Until(s, {stop});
    if k == |s| then None else Some((s[..k], s[k + 1..]))
  }

  lemma FieldOf(u: string, c: char, v: string)
    requires Free(u, {c})
    ensures Field(u + [c] + v, c) == Some((u, v))
  {
    UntilStop(u, c, v, {c});
    assert (u + [c] + v)[|u| + 1..] == v;
  }

  /** What follows a fixed text. */
  function After(s: string, text: string): (r: Option<string>)
    ensures r.Some? ==> s == text + r.value
  {
    if |text| <= |s| && s[..|text|] == text then Some(s[|text|..]) else None
  }

  lemma AfterText(text: string, v: string)
    ensures After(text + v, text) == Some(v)
  {}

  /** Elements up to the one followed by a blank; the others are followed by a comma. */
  function ParseLines(s: string): (r: Option<(seq<string>, string)>)
    ensures r.Some? ==> |r.value.1| <= |s|
    decreases |s|
  {
    match After(s, "  ")
    case None => None
    case Some(t) =>
      var k := Until(t, {',', ' '});
      if k == |t| then None else
      match After(t[k + 1..], "\n")
      case None => None
      case Some(u) =>
        if t[k] == ' ' then Some(([t[..k]], u)) else
        match ParseLines(u)
        case None => None
        case Some(more) => Some(([t[..k]] + more.0, more.1))
  }

  function ParseBody(s: string): (r: Option<(seq<string>, string)>)
    ensures r.Some? ==> |r.value.1| <= |s|
  {
    if After(s, "  ").Some? then ParseLines(s) else Some(([], s))
  }

  function ParseRest(head: string, length: int, s: string): (r: Option<(Array, string)>)
    ensures r.Some? ==> |r.value.1| <= |s|
  {
    match ParseBody(s)
    case None => None
    case Some(body) =>
      match After(body.1, FOOTER)
      case None => None
      case Some(rest) =>
        var blank := LogFile.LastIndex(head, ' ');
        if blank < 0 then None else Some((Array(head[..blank], head[blank + 1..], length, body.0), rest))
  }

  /** One array definition and the text behind it. */
  function ParseArray(s: string): (r: Option<(Array, string)>)
    ensures r.Some? ==> |r.value.1| < |s|
  {
    match After(s, "static const ")
    case None => None
    case Some(t) =>
      match Field(t, '[')
      case None => None
      case Some(head) =>
        match Field(head.1, ']')
        case None => None
        case Some(number) =>
          match After(number.1, " = {\n")
          case None => None
          case Some(v) => ParseRest(head.0, Value(number.0), v)
  }

  /** No name holds a character that the notation uses. */
  predicate Plain(prefix: Option<string>, d: ListDetail) {
    && Free(d.typeName, {'['}) && Free(Shown(prefix), {'[', ',', ' '})
    && (d.customMax.Some? ==> Free(d.customMax.value, {',', ' '}))
  }

  function Printed(prefix: Option<string>, d: ListDetail): Array {
    Array(d.typeName, ArrayName(prefix), d.numEntries, Elements(prefix, d))
  }

  lemma {:induction false} ReadLines(es: seq<string>, rest: string)
    requires es != [] && forall i :: 0 <= i < |es| ==> Free(es[i], {',', ' '})
    ensures ParseLines(Lines(es) + rest) == Some((es, rest))
    decreases |es|
  {
    hide ParseLines;
    hide Free;
    var c := if |es| == 1 then ' ' else ',';
    var v := Lines(es[1..]) + rest;
    if |es| == 1 { assert es[1..] == [] && v == rest; }
    assert Lines(es) == ("  " + es[0] + [c] + "\n") + Lines(es[1..]);
    Regroup("  ", es[0], [c], "\n", Lines(es[1..]), rest);
    ReadLine(es[0], c, v);
    var all := [es[0]] + es[1..];
    if |es| > 1 { ReadLines(es[1..], rest); } else { assert all == [es[0]]; }
    assert ParseLines(Lines(es) + rest) == Some((all, rest));
    assert all == es;
  }

  lemma Regroup(a: string, b: string, c: string, d: string, e: string, f: string)
    ensures ((a + b + c + d) + e) + f == a + (b + c + (d + (e + f)))
  {}

  lemma ReadLine(name: string, c: char, v: string)
    requires Free(name, {',', ' '}) && c in {',', ' '}
    ensures ParseLines("  " + (name + [c] + ("\n" + v)))
         == if c == ' ' then Some(([name], v)) else
            match ParseLines(v) case None => None case Some(more) => Some(([name] + more.0, more.1))
  {
    var t := name + [c] + ("\n" + v);
    AfterText("  ", t);
    UntilStop(name, c, "\n" + v, {',', ' '});
    assert t[|name| + 1..] == "\n" + v;
    AfterText("\n", v);
  }

  lemma ElementFree(prefix: Option<string>, d: ListDetail, k: nat)
    requires Plain(prefix, d) && k < Count(d)
    ensures Free(Elements(prefix, d)[k], {',', ' '})
  {
    var i := IndexAt(d, k);
    assert Free(Padded(i, Width(d)), {',', ' '});
    assert Free("CFE_", {',', ' '}) && Free("_", {',', ' '});
    assert Free("CFE_" + Shown(prefix) + "_" + Padded(i, Width(d)), {',', ' '});
  }

  /** The round trip: reading what was printed gives the type, the name, the declared length and exactly the
      elements, in order, and leaves what follows. */
  lemma PrintThenRead(prefix: Option<string>, d: ListDetail, rest: string)
    requires Plain(prefix, d)
    ensures ParseArray(ListText(prefix, d) + rest) == Some((Printed(prefix, d), rest))
  {
    var es := Elements(prefix, d);
    var head, number := d.typeName + " " + ArrayName(prefix), Decimal(d.numEntries);
    var body := Lines(es) + (FOOTER + rest);
    TextShape(prefix, d, rest);
    HeadFree(prefix, d);
    ReadBody(prefix, d, rest);
    AfterText(FOOTER, rest);
    ValueOfDecimal(d.numEntries);
    ReadHeader(head, number, Lines(es) + (FOOTER + rest));
    SplitHead(d.typeName, ArrayName(prefix));
  }

  lemma SplitHead(typeName: string, name: string)
    requires Free(name, {' '})
    ensures var head := typeName + " " + name;
            LogFile.LastIndex(head, ' ') == |typeName|
            && head[..|typeName|] == typeName && head[|typeName| + 1..] == name
  {
    var head := typeName + " " + name;
    assert forall j :: |typeName| < j < |head| ==> head[j] == name[j - |typeName| - 1];
    LogFile.LastIndexIs(head, ' ', |typeName|);
  }

  /** The header is read up to the body. */
  lemma ReadHeader(head: string, number: string, body: string)
    requires Free(head, {'['}) && Free(number, {']'})
    ensures ParseArray("static const " + (head + "[" + (number + "]" + (" = {\n" + body))))
         == ParseRest(head, Value(number), body)
  {
    hide ParseRest;
    hide Value;
    hide After;
    hide Field;
    var v := " = {\n" + body;
    var u := number + "]" + v;
    AfterText("static const ", head + "[" + u);
    FieldOf(head, '[', u);
    FieldOf(number, ']', v);
    AfterText(" = {\n", body);
  }

  lemma TextShape(prefix: Option<string>, d: ListDetail, rest: string)
    ensures ListText(prefix, d) + rest
         == "static const " + (d.typeName + " " + ArrayName(prefix) + "["
              + (Decimal(d.numEntries) + "]" + (" = {\n" + (Lines(Elements(prefix, d)) + (FOOTER + rest)))))
  {
    hide Lines;
    hide Elements;
    hide ArrayName;
    var lines, number, head := Lines(Elements(prefix, d)), Decimal(d.numEntries), d.typeName + " " + ArrayName(prefix);
    RegroupText("static const ", head, "[", number, "]", " = {\n", lines, FOOTER, rest);
    assert "]" + " = {\n" == "] = {\n";
  }

  lemma RegroupText(a: string, b: string, c: string, d: string, e: string, f: string, g: string, h: string, i: string)
    ensures ((a + b + c + d + (e + f)) + g + h) + i == a + (b + c + (d + e + (f + (g + (h + i)))))
  {}

  lemma HeadFree(prefix: Option<string>, d: ListDetail)
    requires Plain(prefix, d)
    ensures Free(d.typeName + " " + ArrayName(prefix), {'['}) && Free(ArrayName(prefix), {' '})
  {
    assert Free("CFE_CONFIG_" + Shown(prefix) + "_CONTENT", {'[', ' '});
  }

  lemma ReadBody(prefix: Option<string>, d: ListDetail, rest: string)
    requires Plain(prefix, d)
    ensures ParseBody(Lines(Elements(prefix, d)) + (FOOTER + rest)) == Some((Elements(prefix, d), FOOTER + rest))
  {
    var es := Elements(prefix, d);
    if es == [] {
      assert Lines(es) + (FOOTER + rest) == FOOTER + rest;
      assert (FOOTER + rest)[0] == '}';
    } else {
      forall k | 0 <= k < |es| ensures Free(es[k], {',', ' '}) { ElementFree(prefix, d, k); }
      ReadLines(es, FOOTER + rest);
    }
  }

  /** The declared length is the number of elements exactly up to the largest int. */
  lemma DeclaredLength(prefix: Option<string>, d: ListDetail)
    ensures Printed(prefix, d).length == |Printed(prefix, d).elements| <==> d.numEntries <= INT_MAX
  {}
}
