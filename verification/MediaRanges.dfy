/**
 What the ranges of an Accept header stand for, and which type is served for them, in
 terms of the text of the header.
 */
module MediaRanges {
  import opened Text
  import opened Negotiate
  import opened AcceptHeader

  // ----- One range -----

  predicate IsAny(e: Element) {
    e.major == "*" && e.minor == "*"
  }

  /** The element is type "/" "*", and the candidate has that type. */
  predicate IsTypeRange(e: Element, candidate: string) {
    && e.major != "*" && e.minor == "*"
    && |candidate| > |e.major| && candidate[..|e.major|] == ToLower(e.major) && candidate[|e.major|] == '/'
  }

  /** The element is the candidate itself. */
  predicate IsExact(e: Element, candidate: string) {
    e.minor != "*" && candidate == ToLower(e.major) + "/" + ToLower(e.minor)
  }

  /** Tokens in lower case. */
  lemma LowerToken(s: string)
    requires IsToken(s)
    ensures |ToLower(s)| == |s| > 0 && '/' !in ToLower(s) && (ToLower(s) == "*" <==> s == "*")
  {
    forall i | 0 <= i < |s| ensures ToLower(s)[i] != '/' && (ToLower(s)[i] == '*' <==> s[i] == '*') {
      assert IsTokenChar(s[i]);
    }
    if ToLower(s) == "*" { assert s == ['*']; }
    if s == "*" { assert ToLower(s) == ['*']; }
  }

  lemma LowerRange(major: string, minor: string)
    ensures ToLower(major + "/" + minor) == ToLower(major) + "/" + ToLower(minor)
  {}

  /** The text of a range shows whether one of its halves is "*". */
  lemma RangeShape(major: string, minor: string)
    requires major != "" && minor != "" && '/' !in major && '/' !in minor
    ensures var range := major + "/" + minor;
            && (range == "*/*" <==> major == "*" && minor == "*")
            && (HasSuffix(range, "/*") <==> minor == "*")
            && (minor == "*" ==> range[..|range| - 1] == major + "/")
  {
    var range := major + "/" + minor;
    assert range[|major|] == '/' && range[|major| + 1..] == minor;
    assert range[..|major|] == major;
    assert |minor| > 1 ==> minor[|minor| - 2] == range[|range| - 2];
    if HasSuffix(range, "/*") {
      assert range[|range| - 2..][0] == '/' && range[|range| - 2..][1] == '*';
      assert range[|range| - 2] == '/';
      assert minor == ['*'];
    }
    if minor == "*" { assert range[|range| - 2..] == "/*"; }
    if range == "*/*" { assert range[0] == major[0] == '*' && major == ['*']; }
  }

  lemma StartsWith(major: string, candidate: string)
    ensures HasPrefix(candidate, major + "/")
       <==> |candidate| > |major| && candidate[..|major|] == major && candidate[|major|] == '/'
  {
    if |candidate| > |major| {
      assert candidate[..|major| + 1] == candidate[..|major|] + [candidate[|major|]];
      assert (major + "/")[..|major|] == major;
    }
  }

  /** What an element matches: anything, all types of its kind, or itself alone. */
  lemma MatchesIff(e: Element, parse: FloatParser, candidate: string)
    requires IsElement(e)
    ensures Matches(CodeEntry(e, parse), candidate) <==> IsAny(e) || IsTypeRange(e, candidate) || IsExact(e, candidate)
    ensures CodeEntry(e, parse).specificity == if IsAny(e) then 0 else if e.minor == "*" then 1 else 2
  {
    var major, minor := ToLower(e.major), ToLower(e.minor);
    LowerToken(e.major);
    LowerToken(e.minor);
    LowerRange(e.major, e.minor);
    RangeShape(major, minor);
    StartsWith(major, candidate);
  }

  // ----- All ranges of a header -----

  /** The elements of a list. */
  function Elements(items: seq<Item>): seq<Element> {
    if items == [] then []
    else
      var k := |items| - 1;
      Elements(items[..k]) + if items[k].Blank? then [] else [items[k].element]
  }

  lemma {:induction false} EntriesOfElements(items: seq<Item>, parse: FloatParser)
    requires AreItems(items)
    ensures var es := Elements(items); var entries := CodeEntries(items, parse);
            && |entries| == |es|
            && forall i :: 0 <= i < |es| ==> IsElement(es[i]) && entries[i] == CodeEntry(es[i], parse)
    decreases |items|
  {
    if items != [] { EntriesOfElements(items[..|items| - 1], parse); }
  }

  /**
   The element that speaks for a candidate: the first that is the candidate, without such
   the first of its type, and without either the first that stands for anything.
   */
  ghost predicate SpeaksFor(es: seq<Element>, candidate: string, i: int) {
    && 0 <= i < |es|
    && if exists j :: 0 <= j < |es| && IsExact(es[j], candidate) then
         IsExact(es[i], candidate) && forall j :: 0 <= j < i ==> !IsExact(es[j], candidate)
       else if exists j :: 0 <= j < |es| && IsTypeRange(es[j], candidate) then
         IsTypeRange(es[i], candidate) && forall j :: 0 <= j < i ==> !IsTypeRange(es[j], candidate)
       else IsAny(es[i]) && forall j :: 0 <= j < i ==> !IsAny(es[j])
  }

  ghost predicate AreEntriesOf(es: seq<Element>, parse: FloatParser, entries: seq<Entry>) {
    && |entries| == |es|
    && forall i :: 0 <= i < |es| ==> IsElement(es[i]) && entries[i] == CodeEntry(es[i], parse)
  }

  function RankFor(e: Element, candidate: string): int {
    if IsExact(e, candidate) then 2 else if IsTypeRange(e, candidate) then 1 else if IsAny(e) then 0 else -1
  }

  lemma RankIsSpecificity(e: Element, parse: FloatParser, candidate: string)
    requires IsElement(e)
    ensures var entry := CodeEntry(e, parse);
            && (Matches(entry, candidate) <==> RankFor(e, candidate) >= 0)
            && (Matches(entry, candidate) ==> entry.specificity == RankFor(e, candidate))
  {
    MatchesIff(e, parse, candidate);
  }

  /** The same by ranks. */
  lemma SpeaksByRank(es: seq<Element>, candidate: string, i: int)
    ensures SpeaksFor(es, candidate, i)
       <==> && 0 <= i < |es| && RankFor(es[i], candidate) >= 0
            && forall j :: 0 <= j < |es| && RankFor(es[j], candidate) >= 0 ==>
                 || RankFor(es[j], candidate) < RankFor(es[i], candidate)
                 || (RankFor(es[j], candidate) == RankFor(es[i], candidate) && i <= j)
  {}

  /** The inner search finds exactly the element that speaks for a candidate. */
  lemma RangeForIff(es: seq<Element>, parse: FloatParser, entries: seq<Entry>, candidate: string, i: int)
    requires AreEntriesOf(es, parse, entries)
    ensures IsRangeFor(entries, candidate, i) <==> SpeaksFor(es, candidate, i)
  {
    forall j | 0 <= j < |es|
      ensures Matches(entries[j], candidate) <==> RankFor(es[j], candidate) >= 0
      ensures Matches(entries[j], candidate) ==> entries[j].specificity == RankFor(es[j], candidate)
    {
      RankIsSpecificity(es[j], parse, candidate);
    }
    SpeaksByRank(es, candidate, i);
  }

  // ----- What is served -----

  /** The c-th type is acceptable: the element that speaks for it does not refuse it. */
  ghost predicate IsServable(es: seq<Element>, parse: FloatParser, produces: seq<string>, c: int, i: int) {
    && 0 <= c < |produces| && SpeaksFor(es, produces[c], i)
    && CodeQ(AllParams(es[i]), parse) > 0.0
  }

  /** The c-th type is best: no other has a higher quality, or the same from an earlier element, or stands before it. */
  ghost predicate IsServedBest(es: seq<Element>, parse: FloatParser, produces: seq<string>, c: int, i: int) {
    && IsServable(es, parse, produces, c, i)
    && forall d, j :: IsServable(es, parse, produces, d, j) ==>
         var p := CodeQ(AllParams(es[i]), parse); var q := CodeQ(AllParams(es[j]), parse);
         p > q || (p == q && (i < j || (i == j && c <= d)))
  }

  /** The answer for the elements of a header that names ranges. */
  ghost predicate IsServed(es: seq<Element>, parse: FloatParser, produces: seq<string>, r: string) {
    || (r == "" && forall c, i :: !IsServable(es, parse, produces, c, i))
    || exists c, i :: IsServedBest(es, parse, produces, c, i) && r == produces[c]
  }

  lemma ServableIff(
    es: seq<Element>, parse: FloatParser, entries: seq<Entry>, produces: seq<string>, c: int, i: int)
    requires AreEntriesOf(es, parse, entries)
    ensures IsAcceptable(entries, produces, c, i) <==> IsServable(es, parse, produces, c, i)
  {
    if 0 <= c < |produces| { RangeForIff(es, parse, entries, produces[c], i); }
  }

  lemma BestIff(es: seq<Element>, parse: FloatParser, entries: seq<Entry>, produces: seq<string>, c: int, i: int)
    requires AreEntriesOf(es, parse, entries)
    ensures IsBest(entries, produces, |produces|, c, i) <==> IsServedBest(es, parse, produces, c, i)
  {
    forall d, j ensures IsAcceptable(entries, produces, d, j) <==> IsServable(es, parse, produces, d, j) {
      ServableIff(es, parse, entries, produces, d, j);
    }
    if IsBest(entries, produces, |produces|, c, i) {
      forall d, j | IsServable(es, parse, produces, d, j) ensures IsAsGood(entries, c, i, d, j) {
        assert IsAcceptable(entries, produces, d, j);
      }
    }
    if IsServedBest(es, parse, produces, c, i) {
      forall d, j | IsAcceptable(entries, produces, d, j) ensures IsAsGood(entries, c, i, d, j) {
        assert IsServable(es, parse, produces, d, j);
      }
    }
  }

  lemma ServedIsChoice(es: seq<Element>, parse: FloatParser, entries: seq<Entry>, produces: seq<string>, r: string)
    requires AreEntriesOf(es, parse, entries) && es != []
    ensures IsChoice(entries, produces, r) <==> IsServed(es, parse, produces, r)
  {
    forall d, j ensures IsAcceptable(entries, produces, d, j) <==> IsServable(es, parse, produces, d, j) {
      ServableIff(es, parse, entries, produces, d, j);
    }
    forall d, j ensures IsBest(entries, produces, |produces|, d, j) <==> IsServedBest(es, parse, produces, d, j) {
      BestIff(es, parse, entries, produces, d, j);
    }
  }

  /**
   The answer for any header without quoted values: by the elements that speak for the
   types, or the first type for a header that names no range.
   */
  lemma PreferredIff(items: seq<Item>, parse: FloatParser, produces: seq<string>, r: string)
    requires AreItems(items) && AreTokens(items)
    ensures IsPreferred(HeaderText(items), produces, parse, r)
       <==> if Elements(items) == [] then r == (if produces == [] then "" else produces[0])
            else IsServed(Elements(items), parse, produces, r)
  {
    var entries := CodeEntries(items, parse);
    EntriesOfElements(items, parse);
    HeaderIsRead(items, parse, entries);
    if Elements(items) != [] { ServedIsChoice(Elements(items), parse, entries, produces, r); }
    if other :| AreParsed(HeaderText(items), parse, other) && IsChoice(other, produces, r) {
      HeaderIsRead(items, parse, other);
    }
  }

  // ----- Type wildcards -----

  /** The first of the types with a property, or "" if none has it. */
  ghost predicate IsFirst(produces: seq<string>, p: string -> bool, r: string) {
    || (r == "" && forall c :: 0 <= c < |produces| ==> !p(produces[c]))
    || exists c :: 0 <= c < |produces| && p(produces[c]) && r == produces[c] && forall d :: 0 <= d < c ==> !p(produces[d])
  }

  /** Elements of which one alone is ever accepting. */
  lemma FirstIsServed(
    es: seq<Element>, parse: FloatParser, produces: seq<string>, w: int, p: string -> bool, r: string)
    requires forall c, i :: IsServable(es, parse, produces, c, i) <==> 0 <= c < |produces| && i == w && p(produces[c])
    ensures IsServed(es, parse, produces, r) <==> IsFirst(produces, p, r)
  {
    if c, i :| IsServedBest(es, parse, produces, c, i) && r == produces[c] {
      forall d | 0 <= d < c ensures !p(produces[d]) {
        assert IsServable(es, parse, produces, d, w) <==> p(produces[d]);
      }
    }
    if c :| 0 <= c < |produces| && p(produces[c]) && r == produces[c] && forall d :: 0 <= d < c ==> !p(produces[d]) {
      assert IsServedBest(es, parse, produces, c, w) by {
        assert IsServable(es, parse, produces, c, w);
      }
    }
    if forall c, i :: !IsServable(es, parse, produces, c, i) {
      forall c | 0 <= c < |produces| ensures !p(produces[c]) {
        assert !IsServable(es, parse, produces, c, w);
      }
    }
  }

  /** The candidate is of the type, whatever the subtype. */
  predicate HasType(major: string, candidate: string) {
    |candidate| > |major| && candidate[..|major|] == ToLower(major) && candidate[|major|] == '/'
  }

  /** The wildcard alone is accepting. */
  lemma WildcardIsServable(e: Element, parse: FloatParser, produces: seq<string>, c: int, i: int)
    requires e.major != "*" && e.minor == "*" && CodeQ(AllParams(e), parse) > 0.0
    ensures IsServable([e], parse, produces, c, i) <==> 0 <= c < |produces| && i == 0 && HasType(e.major, produces[c])
  {
    if 0 <= c < |produces| {
      assert RankFor(e, produces[c]) == if HasType(e.major, produces[c]) then 1 else -1;
      SpeaksByRank([e], produces[c], i);
    }
  }

  /** A type wildcard serves the first producible type of its kind. */
  lemma TypeWildcardServes(e: Element, parse: FloatParser, produces: seq<string>, r: string)
    requires IsElement(e) && HasTokens(e) && e.major != "*" && e.minor == "*" && CodeQ(AllParams(e), parse) > 0.0
    ensures IsPreferred(ElementText(e), produces, parse, r) <==> IsFirst(produces, c => HasType(e.major, c), r)
  {
    var p := c => HasType(e.major, c);
    OneElement(e, parse, produces, r);
    forall c, i ensures IsServable([e], parse, produces, c, i) <==> 0 <= c < |produces| && i == 0 && p(produces[c]) {
      WildcardIsServable(e, parse, produces, c, i);
    }
    FirstIsServed([e], parse, produces, 0, p, r);
  }

  lemma OneElement(e: Element, parse: FloatParser, produces: seq<string>, r: string)
    requires IsElement(e) && HasTokens(e)
    ensures IsPreferred(ElementText(e), produces, parse, r) <==> IsServed([e], parse, produces, r)
  {
    var items := [Ranged(e)];
    OneRange(e, parse);
    assert items[..0] == [];
    assert Elements(items) == [e];
    PreferredIff(items, parse, produces, r);
  }

  /** The candidate is of the wildcard's type, and not the refused one. */
  predicate IsLeft(w: Element, e: Element, candidate: string) {
    HasType(w.major, candidate) && candidate != ToLower(e.major) + "/" + ToLower(e.minor)
  }

  lemma LeftIsServable(
    es: seq<Element>, p: int, w: Element, e: Element, parse: FloatParser, produces: seq<string>, c: int, i: int)
    requires w.major != "*" && w.minor == "*" && CodeQ(AllParams(w), parse) > 0.0
    requires e.minor != "*" && CodeQ(AllParams(e), parse) == 0.0
    requires |es| == 2 && 0 <= p < 2 && es[p] == w && es[1 - p] == e
    ensures IsServable(es, parse, produces, c, i) <==> 0 <= c < |produces| && i == p && IsLeft(w, e, produces[c])
  {
    if 0 <= c < |produces| { WhoSpeaks(es, p, w, e, produces[c], i); }
  }

  lemma WhoSpeaks(es: seq<Element>, p: int, w: Element, e: Element, candidate: string, i: int)
    requires w.major != "*" && w.minor == "*" && e.minor != "*"
    requires |es| == 2 && 0 <= p < 2 && es[p] == w && es[1 - p] == e
    ensures SpeaksFor(es, candidate, i)
       <==> if candidate == ToLower(e.major) + "/" + ToLower(e.minor) then i == 1 - p
            else i == p && HasType(w.major, candidate)
  {
    assert RankFor(w, candidate) == if HasType(w.major, candidate) then 1 else -1;
    assert RankFor(e, candidate) == if candidate == ToLower(e.major) + "/" + ToLower(e.minor) then 2 else -1;
    assert forall j :: 0 <= j < |es| ==> es[j] == if j == p then w else e;
    SpeaksByRank(es, candidate, i);
  }

  /** An exact range with quality 0 takes its type out of a type wildcard, in either order. */
  lemma RefusalOverridesTypeWildcard(
    w: Element, e: Element, items: seq<Item>, parse: FloatParser, produces: seq<string>, r: string)
    requires IsElement(w) && HasTokens(w) && w.major != "*" && w.minor == "*" && CodeQ(AllParams(w), parse) > 0.0
    requires IsElement(e) && HasTokens(e) && e.minor != "*" && CodeQ(AllParams(e), parse) == 0.0
    requires items == [Ranged(w), Ranged(e)] || items == [Ranged(e), Ranged(w)]
    ensures IsPreferred(HeaderText(items), produces, parse, r) <==> IsFirst(produces, c => IsLeft(w, e, c), r)
  {
    TwoElements(items);
    PreferredIff(items, parse, produces, r);
    var es := Elements(items);
    var p := if items[0].element == w then 0 else 1;
    var left := c => IsLeft(w, e, c);
    forall c, i ensures IsServable(es, parse, produces, c, i) <==> 0 <= c < |produces| && i == p && left(produces[c]) {
      LeftIsServable(es, p, w, e, parse, produces, c, i);
    }
    FirstIsServed(es, parse, produces, p, left, r);
  }

  lemma TwoElements(items: seq<Item>)
    requires |items| == 2 && items[0].Ranged? && items[1].Ranged?
    ensures Elements(items) == [items[0].element, items[1].element]
  {
    assert items[..1] == [items[0]] && items[..1][..0] == [];
    assert Elements([items[0]]) == [items[0].element];
  }

  /** The quality of an element without parameters whose weight, if any, is named "q". */
  lemma PlainQuality(e: Element, parse: FloatParser)
    requires IsElement(e) && IsPlain(e) && ParsesQvalues(parse)
    ensures CodeQ(AllParams(e), parse) == if e.weight.Some? then QvalueOf(e.weight.value.value) else 1.0
  {
    CodeQOfWeight(e, parse);
  }
}
