/**
 What versions mean: the numbers of their segments, the order of dotted numbers and
 their suffixes, which raw texts normalize to a version, and which raw version is kept.
 */
module VersionNumbers {
  import opened Text
  import opened VersionGrammar
  import opened Version

  // ----- The number of a segment -----

  /** The nearest int64. */
  function Clip(n: int): int {
    if n > MAX_INT then MAX_INT else if n < -MAX_INT - 1 then -MAX_INT - 1 else n
  }

  function DigitOf(c: char): int {
    c as int - '0' as int
  }

  /** The digits of s after those of n. */
  function Continued(n: nat, s: string): int {
    if s == "" then n else Continued(n, s[..|s| - 1]) * 10 + DigitOf(s[|s| - 1])
  }

  predicate AreDigits(s: string) {
    forall i :: 0 <= i < |s| ==> IsDigit(s[i])
  }

  lemma {:induction false} ContinuedFrom0(s: string)
    ensures Continued(0, s) == DigitsValue(s)
    decreases |s|
  {
    if s != "" { ContinuedFrom0(s[..|s| - 1]); }
  }

  lemma {:induction false} ContinuedGrows(n: nat, s: string)
    requires AreDigits(s)
    ensures Continued(n, s) >= n
    decreases |s|
  {
    if s != "" { ContinuedGrows(n, s[..|s| - 1]); }
  }

  lemma {:induction false} ContinuedFirst(n: nat, s: string)
    requires s != "" && AreDigits(s)
    ensures Continued(n, s) == Continued(n * 10 + DigitOf(s[0]), s[1..])
    decreases |s|
  {
    var k := |s| - 1;
    if k > 0 {
      ContinuedFirst(n, s[..k]);
      assert s[..k][1..] == s[1..][..k - 1];
    } else {
      assert s[..k] == "" && s[1..] == "";
    }
  }

  lemma {:induction false} ParseDigits(s: string, n: nat)
    requires AreDigits(s) && n <= MAX_UINT
    ensures ParseUint(s, n) == Some(if Continued(n, s) > MAX_UINT then MAX_UINT else Continued(n, s))
    decreases |s|
  {
    if s != "" {
      ContinuedFirst(n, s);
      var m := n * 10 + DigitOf(s[0]);
      if m > MAX_UINT { ContinuedGrows(m, s[1..]); } else { ParseDigits(s[1..], m); }
    }
  }

  /** Decimal digits give their number, or the nearest int64, with or without a sign. */
  lemma AtoiOfDigits(s: string)
    requires AllDigits(s)
    ensures Atoi(s) == Clip(DigitsValue(s)) == Atoi("+" + s) && Atoi("-" + s) == Clip(-DigitsValue(s))
  {
    ParseDigits(s, 0);
    ContinuedFrom0(s);
    ContinuedGrows(0, s);
    assert ("+" + s)[1..] == s && ("-" + s)[1..] == s;
  }

  lemma AtoiOfNat(n: nat)
    ensures Atoi(FormatNat(n)) == Clip(n)
  {
    DigitsRoundTrip(n);
    AtoiOfDigits(FormatNat(n));
  }

  lemma {:induction false} LeadingZeros(zeros: string, s: string)
    requires forall i :: 0 <= i < |zeros| ==> zeros[i] == '0'
    ensures DigitsValue(zeros + s) == DigitsValue(s)
    decreases |zeros| + |s|
  {
    var all := zeros + s;
    if s != "" {
      assert all[..|all| - 1] == zeros + s[..|s| - 1];
      LeadingZeros(zeros, s[..|s| - 1]);
    } else if zeros != "" {
      assert all[..|all| - 1] == zeros[..|zeros| - 1] + "";
      LeadingZeros(zeros[..|zeros| - 1], "");
    }
  }

  /** A stray character within the first 19 makes the segment 0. */
  lemma {:induction false} StrayIsNone(s: string, i: nat, n: nat)
    requires i < |s| && AreDigits(s[..i]) && !IsDigit(s[i])
    requires Continued(n, s[..i]) <= MAX_UINT
    ensures ParseUint(s, n) == None
    decreases i
  {
    if i > 0 {
      assert s[..i][0] == s[0] && s[..i][1..] == s[1..][..i - 1];
      ContinuedFirst(n, s[..i]);
      ContinuedGrows(n * 10 + DigitOf(s[0]), s[1..][..i - 1]);
      StrayIsNone(s[1..], i - 1, n * 10 + DigitOf(s[0]));
    }
  }

  lemma MalformedIsZero(s: string, i: nat)
    requires i < |s| && AreDigits(s[..i]) && !IsDigit(s[i]) && DigitsValue(s[..i]) <= MAX_UINT
    requires s[0] != '+' && s[0] != '-'
    ensures Atoi(s) == 0
  {
    ContinuedFrom0(s[..i]);
    StrayIsNone(s, i, 0);
  }

  // ----- Dotted numbers -----

  /** Segments of digits. */
  predicate AreNumbers(parts: seq<string>) {
    parts != [] && forall i :: 0 <= i < |parts| ==> AllDigits(parts[i])
  }

  function Dotted(parts: seq<string>): string {
    Join(parts, '.')
  }

  /** The i-th number, 0 beyond the last. */
  function ValueAt(parts: seq<string>, i: nat): int {
    if i < |parts| then Clip(DigitsValue(parts[i])) else 0
  }

  /** The first different number is smaller. */
  ghost predicate IsLower(a: seq<string>, b: seq<string>) {
    exists i: nat :: AgreeBelow(a, b, i) && ValueAt(a, i) < ValueAt(b, i)
  }

  ghost predicate AgreeBelow(a: seq<string>, b: seq<string>, i: nat) {
    forall j: nat :: j < i ==> ValueAt(a, j) == ValueAt(b, j)
  }

  ghost predicate AreEqual(a: seq<string>, b: seq<string>) {
    forall i: nat :: ValueAt(a, i) == ValueAt(b, i)
  }

  lemma NumbersAt(parts: seq<string>, i: nat)
    requires AreNumbers(parts)
    ensures NumberAt(parts, i) == ValueAt(parts, i)
  {
    if i < |parts| { AtoiOfDigits(parts[i]); }
  }

  lemma DigitsAreClean(parts: seq<string>)
    requires AreNumbers(parts)
    ensures forall p :: p in parts ==> '.' !in p && '-' !in p
  {}

  /** Comparing segments of digits compares their numbers. */
  lemma SegmentsIff(a: seq<string>, b: seq<string>)
    requires AreNumbers(a) && AreNumbers(b)
    ensures CompareParts(a, b) < 0 <==> IsLower(a, b)
    ensures CompareParts(a, b) == 0 <==> AreEqual(a, b)
  {
    PartsMeaning(a, b);
    forall i: nat ensures NumberAt(a, i) == ValueAt(a, i) && NumberAt(b, i) == ValueAt(b, i) {
      NumbersAt(a, i);
      NumbersAt(b, i);
    }
    if i: nat :| SameBelow(a, b, i) && NumberAt(a, i) < NumberAt(b, i) {
      assert AgreeBelow(a, b, i) && ValueAt(a, i) < ValueAt(b, i);
    }
    if i: nat :| AgreeBelow(a, b, i) && ValueAt(a, i) < ValueAt(b, i) {
      assert SameBelow(a, b, i) && NumberAt(a, i) < NumberAt(b, i);
    }
  }

  /** The text of dotted numbers with a suffix, "" for none. */
  function Suffixed(parts: seq<string>, suffix: string): string {
    if suffix == "" then Dotted(parts) else Dotted(parts) + "-" + suffix
  }

  lemma SuffixedParts(parts: seq<string>, suffix: string)
    requires AreNumbers(parts)
    ensures SplitSuffix(Suffixed(parts, suffix)) == (Dotted(parts), suffix) && Split(Dotted(parts), '.') == parts
  {
    DigitsAreClean(parts);
    JoinHasNo(parts, '.', '-');
    SplitOfJoin(parts, '.');
    var text := Suffixed(parts, suffix);
    if suffix == "" {
      NoIndex(text, '-');
    } else {
      assert text == Dotted(parts) + ['-'] + suffix;
      FirstIndex(Dotted(parts), '-', suffix);
      assert text[..|Dotted(parts)|] == Dotted(parts) && text[|Dotted(parts)| + 1..] == suffix;
    }
  }

  /**
   What comparing versions means: the numbers decide at the first difference; equal
   numbers leave it to the suffixes, of which none at all is the highest and the others
   are in the order of their lower-case texts.
   */
  lemma CompareIff(a: seq<string>, x: string, b: seq<string>, y: string)
    requires AreNumbers(a) && AreNumbers(b)
    ensures Compare(Suffixed(a, x), Suffixed(b, y)) < 0 <==>
            IsLower(a, b) || (AreEqual(a, b) && x != "" && (y == "" || Less(ToLower(x), ToLower(y))))
    ensures Compare(Suffixed(a, x), Suffixed(b, y)) == 0 <==>
            AreEqual(a, b) && (x == "" <==> y == "") && ToLower(x) == ToLower(y)
  {
    SuffixedParts(a, x);
    SuffixedParts(b, y);
    SegmentsIff(a, b);
    LessTrichotomy(ToLower(x), ToLower(y));
    if AreEqual(a, b) { EqualIsNotLower(a, b); }
    assert x == "" ==> ToLower(x) == "";
    assert y == "" ==> ToLower(y) == "";
  }

  lemma EqualIsNotLower(a: seq<string>, b: seq<string>)
    requires AreEqual(a, b)
    ensures !IsLower(a, b)
  {}

  /** Every accepted version is dotted numbers, with a suffix or without. */
  lemma VersionHasNumbers(v: string) returns (parts: seq<string>, suffix: string)
    requires IsVersion(v)
    ensures AreNumbers(parts) && v == Suffixed(parts, suffix)
  {
    var i := IndexOf(v, '-');
    parts := Split(v[..i], '.');
    assert IsRuns(v[..i], 4) && parts != [];
    JoinOfSplit(v[..i], '.');
    if i < |v| {
      suffix := v[i + 1..];
      QualifierEnd(suffix);
      assert v == v[..i] + "-" + suffix;
    } else {
      suffix := "";
      assert v[..i] == v;
    }
  }

  /** What is above the ceiling: dotted numbers without a suffix that are higher, or equal to those of a pre-release. */
  lemma PendingIff(a: seq<string>, x: string, ceiling: seq<string>, y: string)
    requires AreNumbers(a) && AreNumbers(ceiling)
    ensures IsPending(Suffixed(a, x), Suffixed(ceiling, y)) <==>
            x == "" && (IsLower(ceiling, a) || (AreEqual(ceiling, a) && y != ""))
  {
    CompareIff(ceiling, y, a, x);
    CompareIsPreorder(Suffixed(a, x), Suffixed(ceiling, y), Suffixed(a, x));
    StableIff(a, x);
  }

  /** What a filter keeps of normalized versions: the trunk, pre-releases, and what is not above the ceiling. */
  lemma KeptIff(versions: map<string, string>, a: seq<string>, x: string, ceiling: seq<string>, y: string)
    requires AreNumbers(a) && AreNumbers(ceiling)
    ensures var v, kept := Suffixed(a, x), Kept(versions, Suffixed(ceiling, y));
            && (v in kept <==> v in versions && !(x == "" && (IsLower(ceiling, a) || (AreEqual(ceiling, a) && y != ""))))
            && (v in kept ==> kept[v] == versions[v])
            && ("dev-trunk" in kept <==> "dev-trunk" in versions)
  {
    PendingIff(a, x, ceiling, y);
  }

  /** Stable versions are those without a suffix. */
  lemma StableIff(a: seq<string>, x: string)
    requires AreNumbers(a)
    ensures IsStable(Suffixed(a, x)) <==> x == ""
    ensures Suffixed(a, x) != TRUNK && Suffixed(a, x) != ""
  {
    DigitsAreClean(a);
    JoinHasNo(a, '.', '-');
    var text := Suffixed(a, x);
    if x != "" { assert text[|Dotted(a)|] == '-'; }
    DottedStart(a);
    assert TRUNK[0] == 'd';
  }

  lemma DottedStart(a: seq<string>)
    requires AreNumbers(a)
    ensures Dotted(a) != "" && IsDigit(Dotted(a)[0])
  {}

  // ----- Which raw version is kept -----

  /** The winner among raw versions: the key itself if it is there, else the smallest text. */
  lemma FavouriteIff(candidates: set<string>, n: string, r: string)
    ensures IsFavourite(candidates, n, r) <==>
            r in candidates && if n in candidates then r == n else forall q :: q in candidates && q != r ==> Less(r, q)
  {}

  /** Which raw version's entry is kept for a key. */
  lemma ChosenIff(versions: map<string, string>, n: string, r: string)
    ensures IsChosen(versions, n, r) <==>
            && r in versions && Normalize(r) == n
            && if n in versions && Normalize(n) == n then r == n
               else forall q :: q in versions && Normalize(q) == n && q != r ==> Less(r, q)
  {
    var candidates := Candidates(versions, n);
    FavouriteIff(candidates, n, r);
    assert forall q :: q in candidates <==> q in versions && Normalize(q) == n;
  }

  // ----- Which raw texts normalize to a version -----

  predicate AreSpaces(s: string) {
    forall i :: 0 <= i < |s| ==> IsSpace(s[i])
  }

  predicate IsPrefix(p: string) {
    p == "" || p == "v" || p == "V" || p == "vV"
  }

  /** White space, an optional v, V or vV, white space, a version or trunk name, white space. */
  ghost predicate IsRaw(s: string, core: string) {
    (IsVersion(core) || IsTrunk(core))
    && exists w, p, m, x :: AreSpaces(w) && IsPrefix(p) && AreSpaces(m) && AreSpaces(x) && s == w + (p + (m + core)) + x
  }

  /** What a core normalizes to. */
  function FormOf(core: string): string {
    if IsTrunk(core) then TRUNK else core
  }

  lemma CoreEnds(core: string)
    requires IsVersion(core) || IsTrunk(core)
    ensures core != "" && !IsSpace(core[0]) && !IsSpace(core[|core| - 1]) && core[0] != 'v' && core[0] != 'V'
  {
    if IsVersion(core) { VersionIsClean(core); }
  }

  lemma TrunkIsNoVersion(core: string)
    requires IsVersion(core)
    ensures !IsTrunk(core)
  {
    VersionIsClean(core);
  }

  /** Cutting the prefix leaves the rest. */
  lemma PrefixCut(p: string, r: string)
    requires IsPrefix(p) && r != "" && (p == "" || p == "v" ==> r[0] != 'V') && (p == "" ==> r[0] != 'v')
    ensures TrimPrefix(TrimPrefix(p + r, 'v'), 'V') == r
  {
    if p == "v" || p == "V" {
      assert (p + r)[1..] == r;
    } else if p == "vV" {
      assert (p + r)[1..] == "V" + r && ("V" + r)[1..] == r;
    } else {
      assert p + r == r;
    }
  }

  lemma SpacedEnds(m: string, core: string)
    requires AreSpaces(m) && core != "" && !IsSpace(core[|core| - 1]) && core[0] != 'v' && core[0] != 'V'
    ensures var r := m + core; r != "" && !IsSpace(r[|r| - 1]) && r[0] != 'v' && r[0] != 'V'
  {}

  /** r is the spaced core, t has the prefix before it, and s has white space around that. */
  lemma RawNormalizes(w: string, p: string, m: string, core: string, x: string, r: string, t: string)
    requires AreSpaces(w) && IsPrefix(p) && AreSpaces(m) && AreSpaces(x) && (IsVersion(core) || IsTrunk(core))
    requires r == m + core && t == p + r && (p == "" ==> m == "")
    ensures Normalize(w + t + x) == FormOf(core)
  {
    CoreEnds(core);
    SpacedEnds(m, core);
    PrefixCut(p, r);
    PrefixedTrims(w, p, r, x, t);
    SpacedTrims(m, core, r);
    CoreNormalizes(w + t + x, core);
  }

  lemma PrefixedTrims(w: string, p: string, r: string, x: string, t: string)
    requires AreSpaces(w) && IsPrefix(p) && AreSpaces(x) && t == p + r && r != "" && !IsSpace(r[|r| - 1])
    requires p == "" ==> !IsSpace(r[0])
    ensures TrimSpace(w + t + x) == t != ""
  {
    assert t[|t| - 1] == r[|r| - 1] && t[0] == if p == "" then r[0] else p[0];
    DropAround(w, t, x, IsSpace);
  }

  lemma SpacedTrims(m: string, core: string, r: string)
    requires AreSpaces(m) && core != "" && !IsSpace(core[0]) && !IsSpace(core[|core| - 1]) && r == m + core
    ensures TrimSpace(r) == core
  {
    assert m + core + "" == r;
    DropAround(m, core, "", IsSpace);
  }

  lemma CoreNormalizes(s: string, core: string)
    requires IsVersion(core) || IsTrunk(core)
    requires TrimSpace(s) != "" && TrimSpace(TrimPrefix(TrimPrefix(TrimSpace(s), 'v'), 'V')) == core
    ensures Normalize(s) == FormOf(core)
  {
    CoreEnds(core);
    if IsVersion(core) {
      TrunkIsNoVersion(core);
      RegexIsGrammar(core);
      TrimFixed(core, IsSpace);
    }
  }

  /** Exactly the raw forms of a version or trunk name normalize to it. */
  lemma NormalizeIff(s: string, n: string)
    requires n != ""
    ensures Normalize(s) == n <==> exists core :: IsRaw(s, core) && n == FormOf(core)
  {
    if core :| IsRaw(s, core) && n == FormOf(core) {
      var w, p, m, x :|
        AreSpaces(w) && IsPrefix(p) && AreSpaces(m) && AreSpaces(x) && s == w + (p + (m + core)) + x;
      if p == "" {
        NoPrefix(w, m, core, x);
        RawNormalizes(w + m, "", "", core, x, core, core);
      } else {
        RawNormalizes(w, p, m, core, x, m + core, p + (m + core));
      }
    }
    if Normalize(s) == n { var core := RawCore(s); }
  }

  lemma NoPrefix(w: string, m: string, core: string, x: string)
    requires AreSpaces(w) && AreSpaces(m)
    ensures w + ("" + (m + core)) + x == (w + m) + core + x && AreSpaces(w + m) && core == "" + core
  {}

  lemma CutPrefix(t: string) returns (p: string)
    ensures IsPrefix(p) && t == p + TrimPrefix(TrimPrefix(t, 'v'), 'V')
  {
    var r := TrimPrefix(t, 'v');
    p := (if r == t then "" else "v") + if TrimPrefix(r, 'V') == r then "" else "V";
  }

  lemma Reassociate(w: string, p: string, m: string, core: string, y: string, x: string)
    requires AreSpaces(y) && AreSpaces(x)
    ensures w + (p + (m + core + y)) + x == w + (p + (m + core)) + (y + x) && AreSpaces(y + x)
  {}

  lemma RawCore(s: string) returns (core: string)
    requires Normalize(s) != ""
    ensures IsRaw(s, core) && Normalize(s) == FormOf(core)
  {
    var t := TrimSpace(s);
    var r := TrimPrefix(TrimPrefix(t, 'v'), 'V');
    core := TrimSpace(r);
    var w, x := DroppedAround(s, IsSpace);
    var p := CutPrefix(t);
    var m, y := DroppedAround(r, IsSpace);
    ValidTrimmed(r);
    Reassociate(w, p, m, core, y, x);
    assert AreSpaces(w) && AreSpaces(m);
  }
}
