/**
 Proactive negotiation over the Accept header: parsing it into media ranges, and the
 nested search over them. `AcceptHeader` says which headers are read as section 12.5.1
 of RFC 9110 has them.
 */
module Negotiate {
  import opened Text

  /** strconv.ParseFloat without its NaN results; an infinity is any value beyond the clamp. */
  type FloatParser = string -> Option<real>

  datatype Entry = Entry(range: string, q: real, specificity: int)

  // ----- Parsing -----

  function Clamp(q: real): (r: real)
    ensures 0.0 <= r <= 1.0
  {
    if q < 0.0 then 0.0 else if q > 1.0 then 1.0 else q
  }

  /** The value of a q parameter that parses; nothing for any other parameter. */
  function Weight(param: string, parse: FloatParser): Option<real> {
    var cut := IndexOf(param, '=');
    if cut == |param| || TrimSpace(param[..cut]) != "q" then None else parse(TrimSpace(param[cut + 1..]))
  }

  /** The i-th parameter is the last q parameter that parses. */
  ghost predicate IsLastWeight(params: seq<string>, parse: FloatParser, i: int) {
    && 0 <= i < |params| && Weight(params[i], parse).Some?
    && forall j :: i < j < |params| ==> Weight(params[j], parse).None?
  }

  /** The last q parameter that parses counts, clamped; without one the quality is 1. */
  ghost predicate IsQuality(params: seq<string>, parse: FloatParser, q: real) {
    || (q == 1.0 && forall i :: 0 <= i < |params| ==> Weight(params[i], parse).None?)
    || exists i :: IsLastWeight(params, parse, i) && q == Clamp(Weight(params[i], parse).value)
  }

  function SpecificityOf(range: string): int {
    if range == "*/*" then 0 else if HasSuffix(range, "/*") then 1 else 2
  }

  function Segments(part: string): seq<string> {
    Split(TrimSpace(part), ';')
  }

  function RangeOf(part: string): string {
    ToLower(TrimSpace(Segments(part)[0]))
  }

  ghost predicate IsEntry(part: string, parse: FloatParser, e: Entry) {
    && e.range == RangeOf(part) && e.specificity == SpecificityOf(e.range)
    && IsQuality(Segments(part)[1..], parse, e.q)
  }

  /** The parts that name a range, in order. */
  function Named(parts: seq<string>): seq<string> {
    if parts == [] then []
    else
      var last := parts[|parts| - 1];
      Named(parts[..|parts| - 1]) + if RangeOf(last) == "" then [] else [last]
  }

  method ParseQuality(params: seq<string>, parse: FloatParser) returns (q: real)
    ensures IsQuality(params, parse, q)
  {
    q := 1.0;
    for i := 0 to |params|
      invariant IsQuality(params[..i], parse, q)
    {
      var p := params[i];
      ghost var before := params[..i];
      TakeGrow(params, i);
      var cut := IndexOf(p, '=');
      if cut == |p| {
        QualityStays(before, p, parse, q);
        continue;
      }
      if TrimSpace(p[..cut]) == "q" {
        var parsed := parse(TrimSpace(p[cut + 1..]));
        if parsed.Some? {
          q := parsed.value;
          if q < 0.0 { q := 0.0; }
          if q > 1.0 { q := 1.0; }
          assert Weight(p, parse) == parsed && IsLastWeight(before + [p], parse, i);
        } else {
          QualityStays(before, p, parse, q);
        }
      } else {
        QualityStays(before, p, parse, q);
      }
    }
    TakeAll(params);
  }

  lemma QualityStays(params: seq<string>, p: string, parse: FloatParser, q: real)
    requires IsQuality(params, parse, q) && Weight(p, parse).None?
    ensures IsQuality(params + [p], parse, q)
  {
    var more := params + [p];
    if i :| IsLastWeight(params, parse, i) && q == Clamp(Weight(params[i], parse).value) {
      assert more[i] == params[i];
      assert IsLastWeight(more, parse, i);
    }
  }

  /** The parts of a header that name a range. */
  function RangesOf(header: string): seq<string> {
    if header == "" then [] else Named(Split(header, ','))
  }

  ghost predicate AreParsed(header: string, parse: FloatParser, entries: seq<Entry>) {
    var named := RangesOf(header);
    |entries| == |named| && forall i :: 0 <= i < |named| ==> IsEntry(named[i], parse, entries[i])
  }

  lemma QualityIsUnique(params: seq<string>, parse: FloatParser, p: real, q: real)
    requires IsQuality(params, parse, p) && IsQuality(params, parse, q)
    ensures p == q
  {
    if i :| IsLastWeight(params, parse, i) && p == Clamp(Weight(params[i], parse).value) {
      if j :| IsLastWeight(params, parse, j) && q == Clamp(Weight(params[j], parse).value) {
        assert i == j;
      }
    }
  }

  /** A header determines its entries. */
  lemma ParsedIsUnique(header: string, parse: FloatParser, a: seq<Entry>, b: seq<Entry>)
    requires AreParsed(header, parse, a) && AreParsed(header, parse, b)
    ensures a == b
  {
    var named := RangesOf(header);
    forall i | 0 <= i < |named| ensures a[i] == b[i] {
      assert IsEntry(named[i], parse, a[i]) && IsEntry(named[i], parse, b[i]);
      QualityIsUnique(Segments(named[i])[1..], parse, a[i].q, b[i].q);
    }
  }

  /** The media ranges of a header, in the client's order. */
  method Parse(header: string, parse: FloatParser) returns (out: seq<Entry>)
    ensures AreParsed(header, parse, out)
  {
    out := [];
    if header == "" { return; }
    var parts := Split(header, ',');
    for k := 0 to |parts|
      invariant |out| == |Named(parts[..k])|
      invariant forall i :: 0 <= i < |out| ==> IsEntry(Named(parts[..k])[i], parse, out[i])
    {
      TakeGrow(parts, k);
      assert (parts[..k] + [parts[k]])[..k] == parts[..k];
      var segments := Segments(parts[k]);
      var t := ToLower(TrimSpace(segments[0]));
      if t == "" { continue; }
      var q := ParseQuality(segments[1..], parse);
      var specificity := if t == "*/*" then 0 else if HasSuffix(t, "/*") then 1 else 2;
      out := out + [Entry(t, q, specificity)];
    }
    TakeAll(parts);
  }

  // ----- Choosing -----

  predicate Matches(e: Entry, candidate: string) {
    if e.range == "*/*" then true
    else if HasSuffix(e.range, "/*") then HasPrefix(candidate, e.range[..|e.range| - 1])
    else e.range == candidate
  }

  /** The range that speaks for a candidate: the most specific match, and the first of those. */
  ghost predicate IsRangeFor(entries: seq<Entry>, candidate: string, i: int) {
    IsRangeAmong(entries, |entries|, candidate, i)
  }

  /** The same among the first n ranges. */
  ghost predicate IsRangeAmong(entries: seq<Entry>, n: int, candidate: string, i: int) {
    && 0 <= i < n <= |entries| && Matches(entries[i], candidate)
    && forall j :: 0 <= j < n && Matches(entries[j], candidate) ==> Precedes(entries, i, j)
  }

  predicate Precedes(entries: seq<Entry>, i: int, j: int)
    requires 0 <= i < |entries| && 0 <= j < |entries|
  {
    || entries[j].specificity < entries[i].specificity
    || (entries[j].specificity == entries[i].specificity && i <= j)
  }

  /** The c-th producible type is acceptable, by its range i. */
  ghost predicate IsAcceptable(entries: seq<Entry>, produces: seq<string>, c: int, i: int) {
    0 <= c < |produces| && IsRangeFor(entries, produces[c], i) && entries[i].q > 0.0
  }

  /** At least as good: a higher quality, then an earlier range, then an earlier type. */
  predicate IsAsGood(entries: seq<Entry>, c: int, i: int, d: int, j: int)
    requires 0 <= i < |entries| && 0 <= j < |entries|
  {
    entries[i].q > entries[j].q || (entries[i].q == entries[j].q && (i < j || (i == j && c <= d)))
  }

  /** The best among the first n producible types. */
  ghost predicate IsBest(entries: seq<Entry>, produces: seq<string>, n: int, c: int, i: int) {
    && c < n && IsAcceptable(entries, produces, c, i)
    && forall d, j :: d < n && IsAcceptable(entries, produces, d, j) ==> IsAsGood(entries, c, i, d, j)
  }

  ghost predicate AreRejected(entries: seq<Entry>, produces: seq<string>, n: int) {
    forall c, i :: c < n ==> !IsAcceptable(entries, produces, c, i)
  }

  /** What the choice among the entries must be. */
  ghost predicate IsChoice(entries: seq<Entry>, produces: seq<string>, r: string) {
    if entries == [] then r == if produces == [] then "" else produces[0]
    else
      || (r == "" && AreRejected(entries, produces, |produces|))
      || exists c, i :: IsBest(entries, produces, |produces|, c, i) && r == produces[c]
  }

  /** The rule determines the answer. */
  lemma ChoiceIsUnique(entries: seq<Entry>, produces: seq<string>, r: string, s: string)
    requires IsChoice(entries, produces, r) && IsChoice(entries, produces, s)
    ensures r == s
  {
    if entries != [] && !AreRejected(entries, produces, |produces|) {
      var c, i :| IsBest(entries, produces, |produces|, c, i) && r == produces[c];
      var d, j :| IsBest(entries, produces, |produces|, d, j) && s == produces[d];
      assert IsAsGood(entries, c, i, d, j) && IsAsGood(entries, d, j, c, i);
    }
  }

  /** The inner loop: the position of the range for a candidate, or -1. */
  method FindRange(entries: seq<Entry>, candidate: string) returns (pos: int)
    ensures pos == -1 ==> forall j :: !IsRangeFor(entries, candidate, j)
    ensures pos != -1 ==> IsRangeFor(entries, candidate, pos)
    ensures forall j :: IsRangeFor(entries, candidate, j) ==> j == pos
  {
    pos := -1;
    var spec := -1;
    for i := 0 to |entries|
      invariant -1 <= pos < i
      invariant pos >= 0 ==> IsRangeAmong(entries, i, candidate, pos) && spec == entries[pos].specificity
      invariant pos < 0 ==> forall j :: 0 <= j < i ==> !Matches(entries[j], candidate)
    {
      var e := entries[i];
      if !Matches(e, candidate) { continue; }
      if pos < 0 || e.specificity > spec || (e.specificity == spec && i < pos) {
        spec := e.specificity;
        pos := i;
      }
    }
  }

  /** The best of the first n types so far: none, or the type best by its range pos. */
  ghost predicate IsSoFar(entries: seq<Entry>, produces: seq<string>, n: int, best: int, pos: int) {
    if pos == -1 then AreRejected(entries, produces, n) else IsBest(entries, produces, n, best, pos)
  }

  /** One more type that is not acceptable, or no better. */
  lemma StaysBest(entries: seq<Entry>, produces: seq<string>, c: nat, best: int, pos: int)
    requires c < |produces| && IsSoFar(entries, produces, c, best, pos)
    requires forall j :: IsAcceptable(entries, produces, c, j) ==> pos != -1 && IsAsGood(entries, best, pos, c, j)
    ensures IsSoFar(entries, produces, c + 1, best, pos)
  {}

  /** One more type that is better. */
  lemma BecomesBest(entries: seq<Entry>, produces: seq<string>, c: nat, best: int, pos: int, i: int)
    requires c < |produces| && IsSoFar(entries, produces, c, best, pos)
    requires IsAcceptable(entries, produces, c, i) && forall j :: IsAcceptable(entries, produces, c, j) ==> j == i
    requires pos != -1 ==>
               entries[i].q > entries[pos].q || (entries[i].q == entries[pos].q && i < pos)
    ensures IsSoFar(entries, produces, c + 1, c, i)
  {
    forall d, j | d < c + 1 && IsAcceptable(entries, produces, d, j) ensures IsAsGood(entries, c, i, d, j) {
      if d < c { assert IsAsGood(entries, best, pos, d, j); }
    }
  }

  /** The outer loop over the producible types. */
  method Choose(entries: seq<Entry>, produces: seq<string>) returns (r: string)
    requires entries != []
    ensures IsChoice(entries, produces, r)
  {
    r := "";
    var bestQ, bestPos := -1.0, -1;
    ghost var best := -1;
    for c := 0 to |produces|
      invariant bestPos == -1 || (0 <= bestPos < |entries| && 0 <= best < c)
      invariant if bestPos == -1 then r == "" && bestQ == -1.0 else r == produces[best] && bestQ == entries[bestPos].q
      invariant IsSoFar(entries, produces, c, best, bestPos)
    {
      var pos := FindRange(entries, produces[c]);
      if pos < 0 || entries[pos].q <= 0.0 {
        StaysBest(entries, produces, c, best, bestPos);
        continue;
      }
      if entries[pos].q > bestQ || (entries[pos].q == bestQ && (bestPos < 0 || pos < bestPos)) {
        BecomesBest(entries, produces, c, best, bestPos, pos);
        bestQ, bestPos, r, best := entries[pos].q, pos, produces[c], c;
      } else {
        StaysBest(entries, produces, c, best, bestPos);
      }
    }
  }

  /** The choice among the ranges that a header is parsed into. */
  ghost predicate IsPreferred(header: string, produces: seq<string>, parse: FloatParser, r: string) {
    exists entries :: AreParsed(header, parse, entries) && IsChoice(entries, produces, r)
  }

  ghost predicate IsNothingAcceptable(header: string, produces: seq<string>, parse: FloatParser) {
    exists entries :: AreParsed(header, parse, entries) && AreRejected(entries, produces, |produces|)
  }

  /** Header and producible types determine the answer. */
  lemma PreferredIsUnique(header: string, produces: seq<string>, parse: FloatParser, r: string, s: string)
    requires IsPreferred(header, produces, parse, r) && IsPreferred(header, produces, parse, s)
    ensures r == s
  {
    var a :| AreParsed(header, parse, a) && IsChoice(a, produces, r);
    var b :| AreParsed(header, parse, b) && IsChoice(b, produces, s);
    ParsedIsUnique(header, parse, a, b);
    ChoiceIsUnique(a, produces, r, s);
  }

  /**
   The preferred producible type, or "" when every one is rejected. Without a usable
   header the first one is taken.
   */
  method Preferred(header: string, produces: seq<string>, parse: FloatParser) returns (r: string)
    ensures IsPreferred(header, produces, parse, r)
    ensures RangesOf(header) == [] ==> r == if produces == [] then "" else produces[0]
    ensures RangesOf(header) != [] && "" !in produces ==>
              (r == "" <==> IsNothingAcceptable(header, produces, parse))
  {
    var entries := Parse(header, parse);
    if entries == [] {
      return if produces == [] then "" else produces[0];
    }
    r := Choose(entries, produces);
    EmptyMeansRejected(header, produces, parse, entries, r);
  }

  lemma EmptyMeansRejected(header: string, produces: seq<string>, parse: FloatParser, entries: seq<Entry>, r: string)
    requires AreParsed(header, parse, entries) && entries != [] && IsChoice(entries, produces, r)
    ensures "" !in produces ==> (r == "" <==> IsNothingAcceptable(header, produces, parse))
  {
    if c, i :| IsBest(entries, produces, |produces|, c, i) && r == produces[c] {
      assert IsAcceptable(entries, produces, c, i);
      if other :| AreParsed(header, parse, other) && AreRejected(other, produces, |produces|) {
        ParsedIsUnique(header, parse, entries, other);
      }
    }
  }

  /** A specific range overrides a wildcard: type;q=0 rejects the type whatever the others say. */
  lemma SpecificRangeOverrides(entries: seq<Entry>, produces: seq<string>, r: string, i: int)
    requires IsChoice(entries, produces, r) && 0 <= i < |entries| && r != ""
    requires entries[i].specificity == 2 && entries[i].range == r && entries[i].q == 0.0
    requires forall j :: 0 <= j < |entries| ==> entries[j].specificity == SpecificityOf(entries[j].range)
    ensures exists j :: 0 <= j < i && entries[j].range == r && entries[j].q > 0.0
  {
    var c, k :| IsBest(entries, produces, |produces|, c, k) && r == produces[c];
    assert IsAcceptable(entries, produces, c, k);
    assert Matches(entries[i], r) && Precedes(entries, k, i);
  }
}
