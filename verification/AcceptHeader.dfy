/**
 The Accept header as section 12.5.1 of RFC 9110 has it, and when the parser reads it
 that way.
 */
module AcceptHeader {
  import opened Text
  import opened Negotiate

  // ----- The grammar -----

  /** Section 5.6.2. */
  predicate IsTokenChar(c: char) {
    '0' <= c <= '9' || 'A' <= c <= 'Z' || 'a' <= c <= 'z' || c in "!#$%&'*+-.^_`|~"
  }

  predicate IsToken(s: string) {
    s != "" && forall i :: 0 <= i < |s| ==> IsTokenChar(s[i])
  }

  /** Optional white space, section 5.6.3. */
  predicate IsBlank(s: string) {
    forall i :: 0 <= i < |s| ==> s[i] == ' ' || s[i] == '\t'
  }

  predicate IsQuotedText(s: string) {
    s == "" || (s[0] != '"' && s[0] != '\\' && IsQuotedText(s[1..])) || (s[0] == '\\' && |s| > 1 && IsQuotedText(s[2..]))
  }

  /** Section 5.6.4. */
  predicate IsQuoted(s: string) {
    |s| >= 2 && s[0] == '"' && s[|s| - 1] == '"' && IsQuotedText(s[1..|s| - 1])
  }

  /** A parameter with the white space around it, section 5.6.6. */
  datatype Param = Param(lead: string, name: string, value: string, trail: string)

  /** A media range with its parameters and its weight. */
  datatype Element = Element(
    lead: string, major: string, minor: string, trail: string, params: seq<Param>, weight: Option<Param>)

  /** An element of the list; recipients skip empty ones, section 5.6.1.2. */
  datatype Item = Blank(space: string) | Ranged(element: Element)

  predicate IsDigits(s: string) {
    forall i :: 0 <= i < |s| ==> '0' <= s[i] <= '9'
  }

  /** Section 12.4.2: 0 or 1, with up to three decimals; after 1 only zeros. */
  predicate IsQvalue(v: string) {
    && 1 <= |v| <= 5 && (v[0] == '0' || v[0] == '1')
    && (|v| > 1 ==> v[1] == '.' && IsDigits(v[2..]) && (v[0] == '1' ==> forall i :: 2 <= i < |v| ==> v[i] == '0'))
  }

  /** The number that decimals stand for. */
  function Fraction(digits: string): (r: real)
    requires IsDigits(digits)
    ensures 0.0 <= r <= 1.0
  {
    if digits == "" then 0.0 else ((digits[0] as int - '0' as int) as real + Fraction(digits[1..])) / 10.0
  }

  function QvalueOf(v: string): (r: real)
    requires IsQvalue(v)
    ensures 0.0 <= r <= 1.0
  {
    if v[0] == '1' then 1.0 else if |v| == 1 then 0.0 else Fraction(v[2..])
  }

  predicate IsParam(p: Param) {
    IsBlank(p.lead) && IsToken(p.name) && (IsToken(p.value) || IsQuoted(p.value)) && IsBlank(p.trail)
  }

  predicate IsWeight(p: Param) {
    IsParam(p) && ToLower(p.name) == "q" && IsQvalue(p.value)
  }

  predicate IsElement(e: Element) {
    && IsBlank(e.lead) && IsToken(e.major) && IsToken(e.minor) && (e.major == "*" ==> e.minor == "*") && IsBlank(e.trail)
    && (forall p :: p in e.params ==> IsParam(p) && ToLower(p.name) != "q")
    && (e.weight.Some? ==> IsWeight(e.weight.value))
  }

  predicate IsItem(item: Item) {
    match item
    case Blank(space) => IsBlank(space)
    case Ranged(e) => IsElement(e)
  }

  predicate AreItems(items: seq<Item>) {
    forall i :: 0 <= i < |items| ==> IsItem(items[i])
  }

  // ----- The text -----

  function RangeText(e: Element): string {
    e.major + "/" + e.minor
  }

  function ParamText(p: Param): string {
    p.lead + p.name + "=" + p.value + p.trail
  }

  function AllParams(e: Element): seq<Param> {
    e.params + if e.weight.Some? then [e.weight.value] else []
  }

  function ParamTexts(params: seq<Param>): (texts: seq<string>)
    ensures |texts| == |params| && forall i :: 0 <= i < |params| ==> texts[i] == ParamText(params[i])
  {
    seq(|params|, i requires 0 <= i < |params| => ParamText(params[i]))
  }

  function ElementText(e: Element): string {
    Join([e.lead + RangeText(e) + e.trail] + ParamTexts(AllParams(e)), ';')
  }

  function ItemText(item: Item): string {
    match item
    case Blank(space) => space
    case Ranged(e) => ElementText(e)
  }

  function ItemTexts(items: seq<Item>): (texts: seq<string>)
    ensures |texts| == |items| && forall i :: 0 <= i < |items| ==> texts[i] == ItemText(items[i])
  {
    seq(|items|, i requires 0 <= i < |items| => ItemText(items[i]))
  }

  function HeaderText(items: seq<Item>): string {
    Join(ItemTexts(items), ',')
  }

  // ----- What the section prescribes -----

  /** A range with its parameters in lower-case names, and its quality. */
  datatype RfcRange = RfcRange(range: string, params: seq<(string, string)>, q: real)

  function RfcRangeOf(e: Element): RfcRange
    requires IsElement(e)
  {
    RfcRange(ToLower(RangeText(e)),
             seq(|e.params|, i requires 0 <= i < |e.params| => (ToLower(e.params[i].name), e.params[i].value)),
             if e.weight.Some? then QvalueOf(e.weight.value.value) else 1.0)
  }

  function RfcReading(items: seq<Item>): seq<RfcRange>
    requires AreItems(items)
  {
    if items == [] then []
    else
      var k := |items| - 1;
      RfcReading(items[..k]) + if items[k].Blank? then [] else [RfcRangeOf(items[k].element)]
  }

  /** What the entries of the parser say, in the same terms. */
  function Reads(entries: seq<Entry>): (ranges: seq<RfcRange>)
    ensures |ranges| == |entries|
    ensures forall i :: 0 <= i < |entries| ==> ranges[i] == RfcRange(entries[i].range, [], entries[i].q)
  {
    seq(|entries|, i requires 0 <= i < |entries| => RfcRange(entries[i].range, [], entries[i].q))
  }

  // ----- What the parser reads -----

  /** The last parameter named "q" that parses counts, clamped. */
  function CodeQ(params: seq<Param>, parse: FloatParser): real {
    if params == [] then 1.0
    else
      var last := params[|params| - 1];
      if last.name == "q" && parse(last.value).Some? then Clamp(parse(last.value).value)
      else CodeQ(params[..|params| - 1], parse)
  }

  function CodeEntry(e: Element, parse: FloatParser): Entry {
    var range := ToLower(RangeText(e));
    Entry(range, CodeQ(AllParams(e), parse), SpecificityOf(range))
  }

  function CodeEntries(items: seq<Item>, parse: FloatParser): seq<Entry> {
    if items == [] then []
    else
      var k := |items| - 1;
      CodeEntries(items[..k], parse) + if items[k].Blank? then [] else [CodeEntry(items[k].element, parse)]
  }

  /** No parameter has a quoted value. */
  predicate AreTokens(items: seq<Item>) {
    forall i :: 0 <= i < |items| && items[i].Ranged? ==> HasTokens(items[i].element)
  }

  predicate HasTokens(e: Element) {
    forall p :: p in e.params ==> IsToken(p.value)
  }

  // ----- Strings -----

  /** Trimming takes away the white space around a text. */
  lemma TrimAround(w: string, s: string, x: string)
    requires IsBlank(w) && IsBlank(x) && s != "" && !IsSpace(s[0]) && !IsSpace(s[|s| - 1])
    ensures TrimSpace(w + s + x) == s
  {
    DropAround(w, s, x, IsSpace);
  }

  lemma BlankIsTrimmed(w: string)
    requires IsBlank(w)
    ensures TrimSpace(w) == ""
  {
    DropAll(w, IsSpace);
  }

  lemma TokenChars(c: char)
    requires IsTokenChar(c)
    ensures !IsSpace(c) && c != ',' && c != ';' && c != '='
  {}

  /** What the parser's string operations need of a token. */
  predicate IsClean(s: string) {
    s != "" && !IsSpace(s[0]) && !IsSpace(s[|s| - 1]) && ',' !in s && ';' !in s && '=' !in s
  }

  lemma TokenIsClean(s: string)
    requires IsToken(s)
    ensures IsClean(s)
  {
    TokenChars(s[0]);
    TokenChars(s[|s| - 1]);
    forall i | 0 <= i < |s| ensures s[i] != ',' && s[i] != ';' && s[i] != '=' { TokenChars(s[i]); }
  }

  lemma BlankHasNo(s: string)
    requires IsBlank(s)
    ensures ',' !in s && ';' !in s && '=' !in s
  {}

  lemma ConcatHasNo(a: string, b: string, c: string, d: string, e: string, x: char)
    requires x !in a && x !in b && x !in c && x !in d && x !in e
    ensures x !in a + b + c + d + e
  {}

  // ----- One element -----

  predicate IsCleanParam(p: Param) {
    IsBlank(p.lead) && IsClean(p.name) && IsClean(p.value) && IsBlank(p.trail)
  }

  /** The parser finds a parameter's name and value. */
  lemma WeightOfParam(p: Param, parse: FloatParser)
    requires IsCleanParam(p)
    ensures Weight(ParamText(p), parse) == if p.name == "q" then parse(p.value) else None
  {
    BlankHasNo(p.lead);
    WeightOfText(p.lead, p.name, p.value, p.trail, parse);
  }

  lemma WeightOfText(lead: string, name: string, value: string, trail: string, parse: FloatParser)
    requires IsBlank(lead) && IsBlank(trail) && '=' !in lead && '=' !in name && name != "" && value != ""
    requires !IsSpace(name[0]) && !IsSpace(name[|name| - 1]) && !IsSpace(value[0]) && !IsSpace(value[|value| - 1])
    ensures Weight(lead + name + "=" + value + trail, parse) == if name == "q" then parse(value) else None
  {
    var before, after := lead + name, value + trail;
    var text := lead + name + "=" + value + trail;
    assert text == before + ['='] + after;
    FirstIndex(before, '=', after);
    assert text[..|before|] == lead + name + "" && text[|before| + 1..] == "" + value + trail;
    TrimAround(lead, name, "");
    TrimAround("", value, trail);
  }

  lemma {:induction false} QualityOfParams(params: seq<Param>, parse: FloatParser)
    requires forall p :: p in params ==> IsCleanParam(p)
    ensures IsQuality(ParamTexts(params), parse, CodeQ(params, parse))
    decreases |params|
  {
    if params != [] {
      var k := |params| - 1;
      var p := params[k];
      assert p in params;
      WeightOfParam(p, parse);
      assert ParamTexts(params) == ParamTexts(params[..k]) + [ParamText(p)];
      if p.name == "q" && parse(p.value).Some? {
        assert IsLastWeight(ParamTexts(params), parse, k);
      } else {
        QualityOfParams(params[..k], parse);
        QualityStays(ParamTexts(params[..k]), ParamText(p), parse, CodeQ(params[..k], parse));
      }
    }
  }

  /** The element without the white space around it. */
  function Segs(e: Element): seq<string> {
    var params := AllParams(e);
    if params == [] then [RangeText(e)]
    else
      var k := |params| - 1;
      [RangeText(e) + e.trail] + ParamTexts(params[..k]) + [ParamText(params[k].(trail := ""))]
  }

  predicate IsCleanElement(e: Element) {
    && IsBlank(e.lead) && IsClean(e.major) && IsClean(e.minor) && IsBlank(e.trail)
    && forall p :: p in AllParams(e) ==> IsCleanParam(p)
  }

  lemma ElementIsClean(e: Element)
    requires IsElement(e) && HasTokens(e)
    ensures IsCleanElement(e)
  {
    TokenIsClean(e.major);
    TokenIsClean(e.minor);
    forall p | p in AllParams(e) ensures IsCleanParam(p) {
      if p !in e.params { QvalueIsToken(p.value); }
      TokenIsClean(p.name);
      TokenIsClean(p.value);
    }
  }

  lemma QvalueIsToken(v: string)
    requires IsQvalue(v)
    ensures IsToken(v)
  {
    forall i | 0 <= i < |v| ensures IsTokenChar(v[i]) {
      if i >= 2 { assert v[2..][i - 2] == v[i]; }
    }
  }

  lemma ParamTextHasNo(p: Param)
    requires IsCleanParam(p)
    ensures ';' !in ParamText(p) && ',' !in ParamText(p)
  {
    BlankHasNo(p.lead);
    BlankHasNo(p.trail);
    ConcatHasNo(p.lead, p.name, "=", p.value, p.trail, ';');
    ConcatHasNo(p.lead, p.name, "=", p.value, p.trail, ',');
  }

  lemma RangeTextFacts(e: Element)
    requires IsCleanElement(e)
    ensures var r := RangeText(e);
            r != "" && !IsSpace(r[0]) && !IsSpace(r[|r| - 1]) && ';' !in r && ',' !in r
  {
    RangeOfTokens(e.major, e.minor);
  }

  lemma RangeOfTokens(major: string, minor: string)
    requires major != "" && minor != "" && !IsSpace(major[0]) && !IsSpace(minor[|minor| - 1])
    requires ';' !in major && ';' !in minor && ',' !in major && ',' !in minor
    ensures var r := major + "/" + minor;
            r != "" && !IsSpace(r[0]) && !IsSpace(r[|r| - 1]) && ';' !in r && ',' !in r
  {
    assert (major + "/" + minor)[|major + "/" + minor| - 1] == minor[|minor| - 1];
  }

  /** The text of an element is its segments, with white space around them. */
  lemma ElementAround(e: Element) returns (x: string)
    requires IsCleanElement(e)
    ensures IsBlank(x) && ElementText(e) == e.lead + Join(Segs(e), ';') + x
  {
    var params := AllParams(e);
    if params == [] {
      x := e.trail;
    } else {
      var k := |params| - 1;
      var last := params[k];
      assert last in params;
      x := last.trail;
      var range, before := RangeText(e), ParamTexts(params[..k]);
      assert ParamTexts(params) == before + [ParamText(last)];
      assert ParamText(last) == ParamText(last.(trail := "")) + x;
      assert e.lead + range + e.trail == e.lead + (range + e.trail);
      SpaceAround(e.lead, range + e.trail, before, ParamText(last.(trail := "")), x);
    }
  }

  lemma SpaceAround(w: string, first: string, parts: seq<string>, last: string, x: string)
    ensures Join([w + first] + (parts + [last + x]), ';') == w + Join([first] + parts + [last], ';') + x
  {
    assert [w + first] + (parts + [last + x]) == ([w + first] + parts) + [last + x];
    JoinAppend([w + first] + parts, last + x, ';');
    JoinAppend([first] + parts, last, ';');
    JoinLead(w, first, parts);
  }

  lemma JoinLead(w: string, first: string, rest: seq<string>)
    ensures Join([w + first] + rest, ';') == w + Join([first] + rest, ';')
  {
    assert ([w + first] + rest)[1..] == rest == ([first] + rest)[1..];
  }

  /** The first and the last character of an element's segments are no white space. */
  lemma SegsEnds(e: Element)
    requires IsCleanElement(e)
    ensures var s := Join(Segs(e), ';'); s != "" && !IsSpace(s[0]) && !IsSpace(s[|s| - 1])
  {
    var params := AllParams(e);
    RangeTextFacts(e);
    if params != [] {
      var k := |params| - 1;
      var last := params[k].(trail := "");
      assert params[k] in params;
      JoinAppend([RangeText(e) + e.trail] + ParamTexts(params[..k]), ParamText(last), ';');
      JoinLead(RangeText(e), e.trail, ParamTexts(params[..k]));
    }
  }

  lemma SegsHaveNoSemicolon(e: Element)
    requires IsCleanElement(e)
    ensures forall s :: s in Segs(e) ==> ';' !in s
  {
    var params := AllParams(e);
    RangeTextFacts(e);
    forall p | p in params ensures ';' !in ParamText(p) { ParamTextHasNo(p); }
    if params != [] {
      var k := |params| - 1;
      assert params[k] in params;
      ParamTextHasNo(params[k].(trail := ""));
      forall s | s in ParamTexts(params[..k]) ensures ';' !in s {
        var i :| 0 <= i < k && ParamTexts(params[..k])[i] == s;
        assert params[i] in params;
      }
    }
  }

  lemma SegmentsOfElement(e: Element)
    requires IsCleanElement(e)
    ensures Segments(ElementText(e)) == Segs(e) && RangeOf(ElementText(e)) == ToLower(RangeText(e)) != ""
  {
    var x := ElementAround(e);
    SegsEnds(e);
    SegsHaveNoSemicolon(e);
    SplitAround(e.lead, Segs(e), x);
    RangeOfSegs(e);
  }

  lemma SplitAround(w: string, parts: seq<string>, x: string)
    requires IsBlank(w) && IsBlank(x) && parts != [] && forall p :: p in parts ==> ';' !in p
    requires var s := Join(parts, ';'); s != "" && !IsSpace(s[0]) && !IsSpace(s[|s| - 1])
    ensures Segments(w + Join(parts, ';') + x) == parts
  {
    TrimAround(w, Join(parts, ';'), x);
    SplitOfJoin(parts, ';');
  }

  lemma RangeOfSegs(e: Element)
    requires IsCleanElement(e)
    ensures TrimSpace(Segs(e)[0]) == RangeText(e) != ""
  {
    RangeTextFacts(e);
    TrimAfter(RangeText(e), e.trail);
    assert Segs(e)[0] == RangeText(e) || Segs(e)[0] == RangeText(e) + e.trail;
  }

  lemma TrimAfter(s: string, x: string)
    requires IsBlank(x) && s != "" && !IsSpace(s[0]) && !IsSpace(s[|s| - 1])
    ensures TrimSpace(s) == s && TrimSpace(s + x) == s
  {
    assert s + x == "" + s + x && s == "" + s + "";
    TrimAround("", s, x);
    TrimAround("", s, "");
  }

  /** The parameters as the segments have them, with the white space at the end trimmed. */
  function TrimmedParams(params: seq<Param>): seq<Param> {
    if params == [] then []
    else
      var k := |params| - 1;
      params[..k] + [params[k].(trail := "")]
  }

  lemma SegsTail(e: Element)
    ensures Segs(e)[1..] == ParamTexts(TrimmedParams(AllParams(e)))
  {
    var params := AllParams(e);
    if params != [] {
      var k := |params| - 1;
      var first := [RangeText(e) + e.trail];
      var rest := ParamTexts(params[..k]) + [ParamText(params[k].(trail := ""))];
      assert Segs(e) == first + rest && (first + rest)[1..] == rest;
    }
  }

  lemma QualityOfSegs(e: Element, parse: FloatParser)
    requires IsCleanElement(e)
    ensures IsQuality(Segs(e)[1..], parse, CodeQ(AllParams(e), parse))
  {
    var params := AllParams(e);
    SegsTail(e);
    TrimmedAreClean(params);
    QualityOfParams(TrimmedParams(params), parse);
    if params != [] {
      var k := |params| - 1;
      TrimmedQ(params[..k], params[k], params[k].(trail := ""), parse);
      assert params[..k] + [params[k]] == params;
    }
  }

  lemma TrimmedAreClean(params: seq<Param>)
    requires forall p :: p in params ==> IsCleanParam(p)
    ensures forall p :: p in TrimmedParams(params) ==> IsCleanParam(p)
  {
    if params != [] { assert params[|params| - 1] in params; }
  }

  /** White space after a parameter does not count. */
  lemma TrimmedQ(before: seq<Param>, a: Param, b: Param, parse: FloatParser)
    requires a.name == b.name && a.value == b.value
    ensures CodeQ(before + [a], parse) == CodeQ(before + [b], parse)
  {
    assert (before + [a])[..|before|] == before == (before + [b])[..|before|];
  }

  /** The parser's entry for an element. */
  lemma EntryOfElement(e: Element, parse: FloatParser)
    requires IsCleanElement(e)
    ensures IsEntry(ElementText(e), parse, CodeEntry(e, parse))
  {
    SegmentsOfElement(e);
    QualityOfSegs(e, parse);
  }

  // ----- The whole header -----

  lemma ItemHasNoComma(item: Item)
    requires match item case Blank(space) => IsBlank(space) case Ranged(e) => IsCleanElement(e)
    ensures ',' !in ItemText(item)
  {
    if item.Ranged? {
      var e := item.element;
      RangeTextFacts(e);
        BlankHasNo(e.lead);
      BlankHasNo(e.trail);
      ConcatHasNo(e.lead, RangeText(e), e.trail, "", "", ',');
      assert e.lead + RangeText(e) + e.trail == e.lead + RangeText(e) + e.trail + "" + "";
      var texts := [e.lead + RangeText(e) + e.trail] + ParamTexts(AllParams(e));
      forall s | s in texts ensures ',' !in s {
        var i :| 0 <= i < |texts| && texts[i] == s;
        if i > 0 {
          assert AllParams(e)[i - 1] in AllParams(e);
          ParamTextHasNo(AllParams(e)[i - 1]);
        }
      }
      JoinHasNo(texts, ';', ',');
    }
  }

  /** The texts of the items that name a range. */
  function ElementTexts(items: seq<Item>): seq<string> {
    if items == [] then []
    else
      var k := |items| - 1;
      ElementTexts(items[..k]) + if items[k].Blank? then [] else [ElementText(items[k].element)]
  }

  lemma {:induction false} NamedItems(items: seq<Item>)
    requires AreItems(items) && AreTokens(items)
    ensures Named(ItemTexts(items)) == ElementTexts(items)
    decreases |items|
  {
    if items != [] {
      var k := |items| - 1;
      assert ItemTexts(items)[..k] == ItemTexts(items[..k]);
      NamedItems(items[..k]);
      match items[k]
      case Blank(space) =>
        BlankIsTrimmed(space);
        NoIndex("", ';');
      case Ranged(e) =>
        ElementIsClean(e);
        SegmentsOfElement(e);
    }
  }

  ghost predicate AreEntries(texts: seq<string>, parse: FloatParser, entries: seq<Entry>) {
    |entries| == |texts| && forall i :: 0 <= i < |texts| ==> IsEntry(texts[i], parse, entries[i])
  }

  lemma OneMoreEntry(texts: seq<string>, parse: FloatParser, entries: seq<Entry>, text: string, e: Entry)
    requires AreEntries(texts, parse, entries) && IsEntry(text, parse, e)
    ensures AreEntries(texts + [text], parse, entries + [e])
  {}

  lemma {:induction false} EntriesOfItems(items: seq<Item>, parse: FloatParser)
    requires AreItems(items) && AreTokens(items)
    ensures AreEntries(ElementTexts(items), parse, CodeEntries(items, parse))
    decreases |items|
  {
    if items != [] {
      var k := |items| - 1;
      EntriesOfItems(items[..k], parse);
      if items[k].Ranged? {
        var e := items[k].element;
        ElementIsClean(e);
        EntryOfElement(e, parse);
        OneMoreEntry(ElementTexts(items[..k]), parse, CodeEntries(items[..k], parse), ElementText(e), CodeEntry(e, parse));
      }
    }
  }

  /** What the parser reads from a header without quoted values. */
  lemma HeaderIsRead(items: seq<Item>, parse: FloatParser, entries: seq<Entry>)
    requires AreItems(items) && AreTokens(items)
    ensures AreParsed(HeaderText(items), parse, entries) <==> entries == CodeEntries(items, parse)
  {
    RangesOfHeader(items);
    EntriesOfItems(items, parse);
    if AreParsed(HeaderText(items), parse, entries) {
      ParsedIsUnique(HeaderText(items), parse, entries, CodeEntries(items, parse));
    }
  }

  lemma RangesOfHeader(items: seq<Item>)
    requires AreItems(items) && AreTokens(items)
    ensures RangesOf(HeaderText(items)) == ElementTexts(items)
  {
    NamedItems(items);
    if items != [] {
      forall s | s in ItemTexts(items) ensures ',' !in s {
        var i :| 0 <= i < |items| && ItemTexts(items)[i] == s;
        if items[i].Ranged? { ElementIsClean(items[i].element); }
        ItemHasNoComma(items[i]);
      }
      SplitOfJoin(ItemTexts(items), ',');
      if HeaderText(items) == "" {
        assert Split("", ',') == [""];
        assert Named([""]) == [] by {
          BlankIsTrimmed("");
          NoIndex("", ';');
          assert [""][..0] == [];
        }
      }
    }
  }

  // ----- When it is what the section prescribes -----

  /** ParseFloat on qvalues. */
  ghost predicate ParsesQvalues(parse: FloatParser) {
    forall v :: IsQvalue(v) ==> parse(v) == Some(QvalueOf(v))
  }

  /** The element has no parameters but a weight named in lower case, or one that says nothing. */
  predicate IsPlain(e: Element)
    requires IsElement(e)
  {
    e.params == [] && (e.weight.Some? ==> e.weight.value.name == "q" || QvalueOf(e.weight.value.value) == 1.0)
  }

  predicate ArePlain(items: seq<Item>)
    requires AreItems(items)
  {
    forall i :: 0 <= i < |items| && items[i].Ranged? ==> IsPlain(items[i].element)
  }

  lemma CodeQOfWeight(e: Element, parse: FloatParser)
    requires IsElement(e) && e.params == [] && ParsesQvalues(parse)
    ensures CodeQ(AllParams(e), parse) == RfcRangeOf(e).q <==> IsPlain(e)
  {
    if e.weight.Some? {
      var w := e.weight.value;
      assert AllParams(e) == [w];
      assert CodeQ([w][..0], parse) == 1.0;
      assert parse(w.value) == Some(QvalueOf(w.value));
    }
  }

  lemma LastDecides<T>(a: seq<T>, b: seq<T>, x: T, y: T)
    requires |a| == |b|
    ensures a + [x] == b + [y] <==> a == b && x == y
  {
    assert (a + [x])[..|a|] == a && (b + [y])[..|b|] == b && (a + [x])[|a|] == x && (b + [y])[|b|] == y;
  }

  lemma {:induction false} PlainReadsIff(items: seq<Item>, parse: FloatParser)
    requires AreItems(items) && ParsesQvalues(parse)
    requires forall i :: 0 <= i < |items| && items[i].Ranged? ==> items[i].element.params == []
    ensures |CodeEntries(items, parse)| == |RfcReading(items)|
    ensures Reads(CodeEntries(items, parse)) == RfcReading(items) <==> ArePlain(items)
    decreases |items|
  {
    if items != [] {
      var k := |items| - 1;
      PlainReadsIff(items[..k], parse);
      PlainIsLast(items);
      var before, reading := CodeEntries(items[..k], parse), RfcReading(items[..k]);
      assert ArePlain(items[..k]) <==> Reads(before) == reading;
      if items[k].Ranged? {
        var e := items[k].element;
        CodeQOfWeight(e, parse);
        var entry := CodeEntry(e, parse);
        ReadsOneMore(before, entry);
        LastDecides(Reads(before), reading, RfcRange(entry.range, [], entry.q), RfcRangeOf(e));
        assert CodeEntries(items, parse) == before + [entry] && RfcReading(items) == reading + [RfcRangeOf(e)];
        assert RfcRange(entry.range, [], entry.q) == RfcRangeOf(e) <==> IsPlain(e);
      } else {
        assert CodeEntries(items, parse) == before && RfcReading(items) == reading;
      }
    }
  }

  lemma ReadsOneMore(entries: seq<Entry>, e: Entry)
    ensures Reads(entries + [e]) == Reads(entries) + [RfcRange(e.range, [], e.q)]
  {}

  lemma PlainIsLast(items: seq<Item>)
    requires AreItems(items) && items != []
    ensures var k := |items| - 1;
            ArePlain(items) <==> ArePlain(items[..k]) && (items[k].Ranged? ==> IsPlain(items[k].element))
  {
    var k := |items| - 1;
    if ArePlain(items[..k]) && (items[k].Ranged? ==> IsPlain(items[k].element)) {
      forall i | 0 <= i < |items| && items[i].Ranged? ensures IsPlain(items[i].element) {
        if i < k { assert items[..k][i] == items[i]; }
      }
    }
  }

  lemma {:induction false} ItemIsRead(items: seq<Item>, i: int)
    requires AreItems(items) && 0 <= i < |items| && items[i].Ranged?
    ensures RfcRangeOf(items[i].element) in RfcReading(items)
    decreases |items|
  {
    var k := |items| - 1;
    if i < k { ItemIsRead(items[..k], i); }
  }

  /**
   The parser reads a header as section 12.5.1 prescribes exactly if its ranges have
   no parameters, and each weight is named "q" in lower case or is 1.
   */
  lemma ReadsAsPrescribedIff(items: seq<Item>, parse: FloatParser, entries: seq<Entry>)
    requires AreItems(items) && ParsesQvalues(parse) && AreParsed(HeaderText(items), parse, entries)
    ensures Reads(entries) == RfcReading(items) <==> ArePlain(items)
  {
    if i :| 0 <= i < |items| && items[i].Ranged? && items[i].element.params != [] {
      ItemIsRead(items, i);
      var r := RfcRangeOf(items[i].element);
      assert |r.params| > 0 && r !in Reads(entries);
      assert !IsPlain(items[i].element);
    } else {
      HeaderIsRead(items, parse, entries);
      PlainReadsIff(items, parse);
    }
  }

  // ----- Headers it reads otherwise -----

  const HTML := "text/html"

  /** One range with one weight. */
  function Weighted(name: string, value: string): Element {
    Element("", "text", "html", "", [], Some(Param("", name, value, "")))
  }

  lemma OneRange(e: Element, parse: FloatParser)
    requires IsElement(e) && HasTokens(e)
    ensures AreItems([Ranged(e)]) && HeaderText([Ranged(e)]) == ElementText(e) && RfcReading([Ranged(e)]) == [RfcRangeOf(e)]
    ensures CodeEntries([Ranged(e)], parse) == [CodeEntry(e, parse)]
    ensures AreParsed(ElementText(e), parse, [CodeEntry(e, parse)])
  {
    OneMoreRange([], e, parse);
    assert [] + [Ranged(e)] == [Ranged(e)];
    HeaderIsRead([Ranged(e)], parse, [CodeEntry(e, parse)]);
  }

  lemma UpperCaseEntry(parse: FloatParser)
    ensures CodeEntry(Weighted("Q", "0"), parse) == Entry(HTML, 1.0, 2)
  {
    var params := AllParams(Weighted("Q", "0"));
    assert params == [Param("", "Q", "0", "")] && CodeQ(params[..0], parse) == 1.0;
    assert "text" + "/" + "html" == HTML && ToLower(HTML) == HTML;
  }

  lemma UpperCaseRange()
    ensures IsElement(Weighted("Q", "0")) && HasTokens(Weighted("Q", "0"))
    ensures RfcRangeOf(Weighted("Q", "0")) == RfcRange(HTML, [], 0.0)
  {
    assert ToLower("Q") == "q";
    assert "text" + "/" + "html" == HTML && ToLower(HTML) == HTML;
  }

  lemma UpperCaseText()
    ensures ElementText(Weighted("Q", "0")) == "text/html;Q=0"
  {
    var params := AllParams(Weighted("Q", "0"));
    assert ParamTexts(params) == ["Q=0"] by { assert ParamText(params[0]) == "Q=0"; }
    assert Join(["text/html"] + ["Q=0"], ';') == "text/html" + [';'] + Join(["Q=0"], ';');
  }

  /** An upper-case weight is not seen: what the client refuses is served. */
  lemma UpperCaseWeightIsIgnored(parse: FloatParser) returns (items: seq<Item>)
    ensures AreItems(items) && HeaderText(items) == "text/html;Q=0" && RfcReading(items) == [RfcRange(HTML, [], 0.0)]
    ensures IsPreferred("text/html;Q=0", [HTML], parse, HTML)
  {
    var e := Weighted("Q", "0");
    UpperCaseRange();
    UpperCaseText();
    UpperCaseEntry(parse);
    OneRange(e, parse);
    items := [Ranged(e)];
    OneEntryChoice();
    assert AreParsed("text/html;Q=0", parse, [Entry(HTML, 1.0, 2)]);
  }

  lemma OneEntryChoice()
    ensures IsChoice([Entry(HTML, 1.0, 2)], [HTML], HTML)
  {
    var entries := [Entry(HTML, 1.0, 2)];
    assert Matches(entries[0], HTML) by { assert !HasSuffix(HTML, "/*"); }
    assert IsRangeFor(entries, HTML, 0);
    assert IsBest(entries, [HTML], 1, 0, 0);
  }

  function Leveled(): Element {
    Element("", "text", "html", "", [Param("", "level", "1", "")], Some(Param("", "q", "0", "")))
  }

  function Anything(): Element {
    Element(" ", "*", "*", "", [], None)
  }

  lemma LeveledEntry(parse: FloatParser)
    requires ParsesQvalues(parse)
    ensures CodeEntry(Leveled(), parse) == Entry(HTML, 0.0, 2) && CodeEntry(Anything(), parse) == Entry("*/*", 1.0, 0)
  {
    var params := AllParams(Leveled());
    assert params == [Param("", "level", "1", ""), Param("", "q", "0", "")];
    assert IsQvalue("0") && parse("0") == Some(QvalueOf("0"));
    assert CodeQ(params, parse) == 0.0;
    assert "text" + "/" + "html" == HTML && ToLower(HTML) == HTML;
    assert "*" + "/" + "*" == "*/*" && ToLower("*/*") == "*/*";
    assert AllParams(Anything()) == [];
  }

  lemma LeveledRange()
    ensures IsElement(Leveled()) && HasTokens(Leveled()) && IsElement(Anything()) && HasTokens(Anything())
    ensures RfcRangeOf(Leveled()) == RfcRange(HTML, [("level", "1")], 0.0)
    ensures RfcRangeOf(Anything()) == RfcRange("*/*", [], 1.0)
  {
    assert ToLower("level") == "level" && ToLower("q") == "q";
    assert "text" + "/" + "html" == HTML && ToLower(HTML) == HTML;
    assert "*" + "/" + "*" == "*/*" && ToLower("*/*") == "*/*";
  }

  lemma OneMoreRange(items: seq<Item>, e: Element, parse: FloatParser)
    requires AreItems(items) && AreTokens(items) && IsElement(e) && HasTokens(e)
    ensures var more := items + [Ranged(e)];
            && AreItems(more) && AreTokens(more) && RfcReading(more) == RfcReading(items) + [RfcRangeOf(e)]
            && CodeEntries(more, parse) == CodeEntries(items, parse) + [CodeEntry(e, parse)]
  {
    assert (items + [Ranged(e)])[..|items|] == items;
  }

  /** A header with one range more. */
  lemma AddRange(items: seq<Item>, e: Element, more: seq<Item>, parse: FloatParser)
    requires AreItems(items) && AreTokens(items) && IsElement(e) && HasTokens(e) && more == items + [Ranged(e)]
    ensures AreItems(more) && RfcReading(more) == RfcReading(items) + [RfcRangeOf(e)]
    ensures AreParsed(HeaderText(more), parse, CodeEntries(items, parse) + [CodeEntry(e, parse)])
  {
    OneMoreRange(items, e, parse);
    HeaderIsRead(more, parse, CodeEntries(items, parse) + [CodeEntry(e, parse)]);
  }

  lemma LeveledChoice()
    ensures IsChoice([Entry(HTML, 0.0, 2)] + [Entry("*/*", 1.0, 0)], [HTML], "")
  {
    var entries := [Entry(HTML, 0.0, 2)] + [Entry("*/*", 1.0, 0)];
    assert Matches(entries[0], HTML) by { assert !HasSuffix(HTML, "/*"); }
    assert entries[0].specificity == 2 && entries[1].specificity == 0;
    forall i | IsRangeFor(entries, HTML, i) ensures i == 0 {
      assert Precedes(entries, i, 0);
    }
    assert AreRejected(entries, [HTML], 1);
  }

  lemma ChoiceIsPreferred(header: string, parse: FloatParser, entries: seq<Entry>, produces: seq<string>, r: string)
    requires AreParsed(header, parse, entries) && IsChoice(entries, produces, r)
    ensures IsPreferred(header, produces, parse, r)
  {}

  lemma RefusedForm(a: Element, b: Element, items: seq<Item>, parse: FloatParser)
    requires IsElement(a) && HasTokens(a) && IsElement(b) && HasTokens(b) && items == [Ranged(a)] + [Ranged(b)]
    requires CodeEntry(a, parse) == Entry(HTML, 0.0, 2) && CodeEntry(b, parse) == Entry("*/*", 1.0, 0)
    ensures AreItems(items) && RfcReading(items) == [RfcRangeOf(a)] + [RfcRangeOf(b)]
    ensures IsPreferred(HeaderText(items), [HTML], parse, "")
  {
    OneRange(a, parse);
    AddRange([Ranged(a)], b, items, parse);
    LeveledChoice();
    ChoiceIsPreferred(HeaderText(items), parse, [Entry(HTML, 0.0, 2)] + [Entry("*/*", 1.0, 0)], [HTML], "");
  }

  /** A parameter is not seen: refusing one form of a type refuses all of it, though the client takes anything else. */
  lemma ParameterIsIgnored(parse: FloatParser) returns (items: seq<Item>)
    requires ParsesQvalues(parse)
    ensures items == [Ranged(Leveled()), Ranged(Anything())] && AreItems(items)
    ensures RfcReading(items) == [RfcRange(HTML, [("level", "1")], 0.0), RfcRange("*/*", [], 1.0)]
    ensures IsPreferred(HeaderText(items), [HTML], parse, "")
  {
    LeveledRange();
    LeveledEntry(parse);
    items := [Ranged(Leveled())] + [Ranged(Anything())];
    RefusedForm(Leveled(), Anything(), items, parse);
  }
}
