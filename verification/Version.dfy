/**
 Version strings: normalization, the choice between raw versions that normalize to
 the same key, comparison, the stable ceiling, and the latest version.
 */
module Version {
  import opened Text
  import opened VersionGrammar

  const TRUNK := "dev-trunk"

  predicate IsTrunk(v: string) {
    EqualFold(v, "trunk") || v == TRUNK
  }

  predicate IsValid(v: string) {
    var t := TrimSpace(v);
    t != "" && (IsTrunk(t) || Matches(ValidVersion(), t))
  }

  /** The Composer form of a version, "" if it has none. */
  function Normalize(v: string): string {
    var t := TrimSpace(v);
    if t == "" then ""
    else
      var u := TrimSpace(TrimPrefix(TrimPrefix(t, 'v'), 'V'));
      if IsTrunk(u) then TRUNK
      else if !IsValid(u) then ""
      else u
  }

  /** What comes out of Normalize: nothing, the trunk, or a string of the grammar. */
  lemma NormalizeRange(v: string)
    ensures Normalize(v) == "" || Normalize(v) == TRUNK || IsVersion(Normalize(v))
  {
    var t := TrimSpace(v);
    if t != "" { ValidTrimmed(TrimPrefix(TrimPrefix(t, 'v'), 'V')); }
  }

  /** What is valid after trimming is a trunk name or a string of the grammar. */
  lemma ValidTrimmed(s: string)
    ensures var u := TrimSpace(s); IsValid(u) && !IsTrunk(u) ==> IsVersion(u)
  {
    var u := TrimSpace(s);
    TrimFixed(u, IsSpace);
    RegexIsGrammar(u);
  }

  /** Strings of the grammar and the trunk normalize to themselves. */
  lemma NormalizeFixed(v: string)
    requires v == TRUNK || IsVersion(v)
    ensures Normalize(v) == v
  {
    if v == TRUNK {
      TrimFixed(v, IsSpace);
    } else {
      VersionIsFixed(v);
    }
  }

  lemma VersionIsFixed(v: string)
    requires IsVersion(v)
    ensures Normalize(v) == v
  {
    VersionIsClean(v);
    RegexIsGrammar(v);
    assert !IsSpace(v[0]);
    TrimFixed(v, IsSpace);
  }

  lemma NormalizeIdempotent(v: string)
    ensures Normalize(Normalize(v)) == Normalize(v)
  {
    NormalizeRange(v);
    if Normalize(v) != "" { NormalizeFixed(Normalize(v)); }
  }

  /** After trimming, IsValid accepts exactly the trunk's names and the strings of the grammar. */
  lemma ValidIsGrammar(v: string)
    ensures IsValid(v) <==> TrimSpace(v) != "" && (IsTrunk(TrimSpace(v)) || IsVersion(TrimSpace(v)))
  {
    RegexIsGrammar(TrimSpace(v));
  }

  // ----- Raw versions that share a normalized key -----

  /** Of two raw versions with the key n: one that is its own key first, else the smaller string. */
  predicate Prefer(candidate: string, current: string, n: string) {
    if (candidate == n) != (current == n) then candidate == n else Less(candidate, current)
  }

  /** The raw versions that share the key n. */
  ghost function Candidates(versions: map<string, string>, n: string): set<string> {
    set r | r in versions && Normalize(r) == n
  }

  /** r wins over every other candidate. */
  ghost predicate IsFavourite(candidates: set<string>, n: string, r: string) {
    r in candidates && forall q :: q in candidates && q != r ==> Prefer(r, q, n)
  }

  /** r is the raw version whose entry the key n gets. */
  ghost predicate IsChosen(versions: map<string, string>, n: string, r: string) {
    IsFavourite(Candidates(versions, n), n, r)
  }

  /**
   The normalized form of a version map: every key some raw version normalizes to,
   with the entry of the chosen raw version.
   */
  ghost predicate IsNormalForm(versions: map<string, string>, result: map<string, string>) {
    && (forall n :: n in result <==> n != "" && Candidates(versions, n) != {})
    && forall n :: n in result ==> exists r :: IsChosen(versions, n, r) && result[n] == versions[r]
  }

  lemma PreferIsStrictOrder(a: string, b: string, c: string, n: string)
    ensures !Prefer(a, a, n)
    ensures a != b ==> Prefer(a, b, n) || Prefer(b, a, n)
    ensures Prefer(a, b, n) ==> !Prefer(b, a, n)
    ensures Prefer(a, b, n) && Prefer(b, c, n) ==> Prefer(a, c, n)
  {
    LessTrichotomy(a, a);
    LessTrichotomy(a, b);
    if Less(a, b) && Less(b, c) { LessTransitive(a, b, c); }
  }

  lemma ChosenIsUnique(versions: map<string, string>, n: string, r: string, q: string)
    requires IsChosen(versions, n, r) && IsChosen(versions, n, q)
    ensures r == q
  {
    PreferIsStrictOrder(r, q, r, n);
  }

  /** The normal form does not depend on the order in which the map is walked. */
  lemma NormalFormIsUnique(versions: map<string, string>, a: map<string, string>, b: map<string, string>)
    requires IsNormalForm(versions, a) && IsNormalForm(versions, b)
    ensures a == b
  {
    SameKeys(versions, a, b);
    forall n | n in a ensures a[n] == b[n] { SameEntry(versions, a, b, n); }
  }

  lemma SameKeys(versions: map<string, string>, a: map<string, string>, b: map<string, string>)
    requires IsNormalForm(versions, a) && IsNormalForm(versions, b)
    ensures a.Keys == b.Keys
  {
    forall n ensures n in a <==> n in b {}
  }

  lemma SameEntry(versions: map<string, string>, a: map<string, string>, b: map<string, string>, n: string)
    requires IsNormalForm(versions, a) && IsNormalForm(versions, b) && n in a && n in b
    ensures a[n] == b[n]
  {
    var r :| IsChosen(versions, n, r) && a[n] == versions[r];
    var q :| IsChosen(versions, n, q) && b[n] == versions[q];
    ChosenIsUnique(versions, n, r, q);
  }

  /** A map whose keys are all normalized already is its own normal form. */
  lemma NormalFormFixed(versions: map<string, string>)
    requires forall v :: v in versions ==> v != "" && Normalize(v) == v
    ensures IsNormalForm(versions, versions)
  {
    forall n | n in versions ensures IsChosen(versions, n, n) {}
  }

  /** Normalizing a version map a second time changes nothing. */
  lemma NormalFormIdempotent(versions: map<string, string>, a: map<string, string>, b: map<string, string>)
    requires IsNormalForm(versions, a) && IsNormalForm(a, b)
    ensures a == b
  {
    forall v | v in a ensures Normalize(v) == v {
      var r :| r in Candidates(versions, v);
      NormalizeIdempotent(r);
    }
    NormalFormFixed(a);
    NormalFormIsUnique(a, a, b);
  }

  lemma FavouriteGrows(candidates: set<string>, n: string, r: string, v: string)
    requires IsFavourite(candidates, n, r) && v !in candidates
    ensures IsFavourite(candidates + {v}, n, if Prefer(v, r, n) then v else r)
  {
    PreferIsStrictOrder(v, r, v, n);
    forall q | q in candidates { PreferIsStrictOrder(v, r, q, n); }
  }

  lemma CandidatesGrow(versions: map<string, string>, v: string, url: string, n: string)
    requires v !in versions
    ensures Candidates(versions[v := url], n) ==
            if Normalize(v) == n then Candidates(versions, n) + {v} else Candidates(versions, n)
  {}

  /** Every key's winner, given its candidates. */
  ghost predicate AreFavourites(candidates: string -> set<string>, chosen: map<string, string>) {
    && (forall n :: n in chosen <==> n != "" && candidates(n) != {})
    && forall n :: n in chosen ==> IsFavourite(candidates(n), n, chosen[n])
  }

  /** Seeing v under key n keeps the winners, if v takes the key only when preferred. */
  lemma FavouritesStep(
    before: string -> set<string>, after: string -> set<string>, chosen: map<string, string>, v: string, n: string)
    requires AreFavourites(before, chosen) && v !in before(n)
    requires forall m :: after(m) == if m == n then before(m) + {v} else before(m)
    ensures AreFavourites(after, if n != "" && (n !in chosen || Prefer(v, chosen[n], n)) then chosen[n := v] else chosen)
  {
    if n in chosen { FavouriteGrows(before(n), n, chosen[n], v); }
  }

  ghost predicate AreWinners(versions: map<string, string>, chosen: map<string, string>) {
    AreFavourites(n => Candidates(versions, n), chosen)
  }

  lemma WinnersStep(versions: map<string, string>, chosen: map<string, string>, v: string, url: string, n: string)
    requires AreWinners(versions, chosen) && v !in versions && n == Normalize(v)
    ensures AreWinners(versions[v := url],
                       if n != "" && (n !in chosen || Prefer(v, chosen[n], n)) then chosen[n := v] else chosen)
  {
    forall m
      ensures Candidates(versions[v := url], m) ==
              if m == n then Candidates(versions, m) + {v} else Candidates(versions, m)
    {
      CandidatesGrow(versions, v, url, m);
    }
    FavouritesStep(m => Candidates(versions, m), m => Candidates(versions[v := url], m), chosen, v, n);
  }

  /** The entries of the winners. */
  ghost predicate AreEntries(versions: map<string, string>, chosen: map<string, string>, result: map<string, string>) {
    && chosen.Keys == result.Keys
    && forall n :: n in chosen ==> chosen[n] in versions && result[n] == versions[chosen[n]]
  }

  lemma EntriesStep(
    versions: map<string, string>, chosen: map<string, string>, result: map<string, string>, v: string, url: string, n: string)
    requires AreEntries(versions, chosen, result) && v !in versions
    ensures AreEntries(versions[v := url], chosen, result)
    ensures AreEntries(versions[v := url], chosen[n := v], result[n := url])
  {}

  lemma WinnersGiveNormalForm(versions: map<string, string>, chosen: map<string, string>, result: map<string, string>)
    requires AreWinners(versions, chosen) && AreEntries(versions, chosen, result)
    ensures IsNormalForm(versions, result)
  {
    forall n | n in result ensures IsChosen(versions, n, chosen[n]) {}
  }

  lemma {:induction false} WinnersExist(versions: map<string, string>) returns (chosen: map<string, string>)
    ensures AreWinners(versions, chosen)
    ensures forall n :: n in chosen ==> chosen[n] in versions
    decreases versions.Keys
  {
    chosen := map[];
    if versions != map[] {
      var v :| v in versions;
      PutBack(versions, v);
      chosen := WinnersExist(versions - {v});
      var n := Normalize(v);
      WinnersStep(versions - {v}, chosen, v, versions[v], n);
      if n != "" && (n !in chosen || Prefer(v, chosen[n], n)) { chosen := chosen[n := v]; }
    }
  }

  lemma NormalFormExists(versions: map<string, string>)
    ensures exists result :: IsNormalForm(versions, result)
  {
    var chosen := WinnersExist(versions);
    var result := map n | n in chosen :: versions[chosen[n]];
    WinnersGiveNormalForm(versions, chosen, result);
  }

  /** The one normal form of a version map. */
  ghost function NormalForm(versions: map<string, string>): (result: map<string, string>)
    ensures IsNormalForm(versions, result)
  {
    NormalFormExists(versions);
    var result :| IsNormalForm(versions, result);
    result
  }

  /** A raw version behind a key of the normal form. */
  lemma RawVersion(versions: map<string, string>, v: string) returns (r: string)
    requires v in NormalForm(versions)
    ensures r in versions && Normalize(r) == v && v != ""
  {
    r :| r in Candidates(versions, v);
  }

  /** One turn of the loop. */
  method AddRaw(
    ghost seen: map<string, string>, chosen: map<string, string>, result: map<string, string>, v: string, url: string)
    returns (winners: map<string, string>, entries: map<string, string>)
    requires AreWinners(seen, chosen) && AreEntries(seen, chosen, result) && v !in seen
    ensures AreWinners(seen[v := url], winners) && AreEntries(seen[v := url], winners, entries)
  {
    var n := Normalize(v);
    WinnersStep(seen, chosen, v, url, n);
    EntriesStep(seen, chosen, result, v, url, n);
    if n != "" && (n !in chosen || Prefer(v, chosen[n], n)) {
      return chosen[n := v], result[n := url];
    }
    return chosen, result;
  }

  /** Filters and normalizes a version map; the walk order is arbitrary. */
  method NormalizeVersions(versions: map<string, string>) returns (result: map<string, string>)
    ensures IsNormalForm(versions, result)
  {
    result := map[];
    var chosen: map<string, string> := map[];
    var todo := versions.Keys;
    while todo != {}
      invariant todo <= versions.Keys
      invariant AreWinners(versions - todo, chosen) && AreEntries(versions - todo, chosen, result)
    {
      var v :| v in todo;
      WalkOn(versions, todo, v);
      chosen, result := AddRaw(versions - todo, chosen, result, v, versions[v]);
      todo := todo - {v};
    }
    assert versions - todo == versions;
    WinnersGiveNormalForm(versions, chosen, result);
  }

  // ----- Comparison -----

  const MAX_UINT := 0xFFFF_FFFF_FFFF_FFFF
  const MAX_INT := 0x7FFF_FFFF_FFFF_FFFF

  /** Decimal digits read left to right: None at a stray character, cut off on overflow. */
  function ParseUint(s: string, n: nat): Option<nat> {
    if s == "" then Some(n)
    else if !IsDigit(s[0]) then None
    else
      var m := n * 10 + (s[0] as int - '0' as int);
      if m > MAX_UINT then Some(MAX_UINT) else ParseUint(s[1..], m)
  }

  /** strconv.Atoi with its error ignored: 0 if s is no number, the nearest int if out of range. */
  function Atoi(s: string): int {
    if s == "" then 0
    else
      var signed := s[0] == '-' || s[0] == '+';
      var digits := if signed then s[1..] else s;
      if digits == "" then 0
      else
        match ParseUint(digits, 0)
        case None => 0
        case Some(n) =>
          if s[0] == '-' then (if n > MAX_INT + 1 then -MAX_INT - 1 else 0 - n)
          else if n > MAX_INT then MAX_INT else n
  }

  /** Everything before the first '-', and everything after it. */
  function SplitSuffix(v: string): (string, string) {
    var i := IndexOf(v, '-');
    if i < |v| then (v[..i], v[i + 1..]) else (v, "")
  }

  predicate IsStable(v: string) {
    '-' !in v
  }

  function Sign(a: int, b: int): int {
    if a < b then -1 else if a > b then 1 else 0
  }

  function Head(parts: seq<string>): int {
    if parts == [] then 0 else Atoi(parts[0])
  }

  function Tail(parts: seq<string>): seq<string> {
    if parts == [] then [] else parts[1..]
  }

  /** Numbers compared position by position; a missing one counts as 0. */
  function CompareParts(a: seq<string>, b: seq<string>): int
    decreases |a| + |b|
  {
    if a == [] && b == [] then 0
    else if Head(a) != Head(b) then Sign(Head(a), Head(b))
    else CompareParts(Tail(a), Tail(b))
  }

  /** No suffix (stable) is above any suffix; suffixes compare without case. */
  function CompareSuffixes(a: string, b: string): int {
    if a == "" && b != "" then 1
    else if a != "" && b == "" then -1
    else CompareStrings(ToLower(a), ToLower(b))
  }

  function Compare(a: string, b: string): int {
    var c := CompareParts(Split(SplitSuffix(a).0, '.'), Split(SplitSuffix(b).0, '.'));
    if c != 0 then c else CompareSuffixes(SplitSuffix(a).1, SplitSuffix(b).1)
  }

  function Drop(parts: seq<string>, i: nat): seq<string> {
    if i <= |parts| then parts[i..] else []
  }

  /** The comparison loop over the segments. */
  method CompareSegments(a: seq<string>, b: seq<string>) returns (c: int)
    ensures c == CompareParts(a, b)
  {
    var maxLen := if |a| > |b| then |a| else |b|;
    for i := 0 to maxLen
      invariant CompareParts(a, b) == CompareParts(Drop(a, i), Drop(b, i))
    {
      var av, bv := 0, 0;
      if i < |a| { av := Atoi(a[i]); }
      if i < |b| { bv := Atoi(b[i]); }
      assert Tail(Drop(a, i)) == Drop(a, i + 1) && Tail(Drop(b, i)) == Drop(b, i + 1);
      if av != bv { return Sign(av, bv); }
    }
    return 0;
  }

  method CompareVersions(a: string, b: string) returns (c: int)
    ensures c == Compare(a, b)
  {
    c := CompareSegments(Split(SplitSuffix(a).0, '.'), Split(SplitSuffix(b).0, '.'));
    if c != 0 { return c; }
    var aSuffix, bSuffix := SplitSuffix(a).1, SplitSuffix(b).1;
    if aSuffix == "" && bSuffix != "" { return 1; }
    if aSuffix != "" && bSuffix == "" { return -1; }
    return CompareStrings(ToLower(aSuffix), ToLower(bSuffix));
  }

  lemma {:induction false} PartsOrder(a: seq<string>, b: seq<string>, c: seq<string>)
    ensures CompareParts(a, a) == 0
    ensures CompareParts(a, b) == -CompareParts(b, a)
    ensures CompareParts(a, b) <= 0 && CompareParts(b, c) <= 0 ==> CompareParts(a, c) <= 0
    ensures CompareParts(a, b) <= 0 && CompareParts(b, c) <= 0 && CompareParts(a, c) == 0 ==>
              CompareParts(a, b) == CompareParts(b, c) == 0
    decreases |a| + |b| + |c|
  {
    if a != [] || b != [] || c != [] {
      PartsOrder(Tail(a), Tail(b), Tail(c));
    }
  }

  lemma StringsOrder(a: string, b: string, c: string)
    ensures CompareStrings(a, a) == 0
    ensures CompareStrings(a, b) == -CompareStrings(b, a)
    ensures CompareStrings(a, b) <= 0 && CompareStrings(b, c) <= 0 ==> CompareStrings(a, c) <= 0
  {
    LessTrichotomy(a, a);
    LessTrichotomy(a, b);
    LessTrichotomy(b, c);
    LessTrichotomy(a, c);
    if Less(a, b) && Less(b, c) { LessTransitive(a, b, c); }
    if Less(b, c) && Less(c, a) { LessTransitive(b, c, a); }
    if Less(c, a) && Less(a, b) { LessTransitive(c, a, b); }
  }

  /** Compare is a total preorder on all strings. */
  lemma CompareIsPreorder(a: string, b: string, c: string)
    ensures Compare(a, a) == 0
    ensures Compare(a, b) == -Compare(b, a)
    ensures Compare(a, b) <= 0 && Compare(b, c) <= 0 ==> Compare(a, c) <= 0
  {
    PartsOrder(Split(SplitSuffix(a).0, '.'), Split(SplitSuffix(b).0, '.'), Split(SplitSuffix(c).0, '.'));
    StringsOrder(ToLower(SplitSuffix(a).1), ToLower(SplitSuffix(b).1), ToLower(SplitSuffix(c).1));
  }

  function NumberAt(parts: seq<string>, i: nat): int {
    if i < |parts| then Atoi(parts[i]) else 0
  }

  predicate SameBelow(a: seq<string>, b: seq<string>, i: nat) {
    forall j: nat :: j < i ==> NumberAt(a, j) == NumberAt(b, j)
  }

  /** The position that decides a comparison of segments. */
  lemma {:induction false} DecidingPosition(a: seq<string>, b: seq<string>) returns (i: nat)
    ensures SameBelow(a, b, i)
    ensures Sign(NumberAt(a, i), NumberAt(b, i)) == CompareParts(a, b)
    ensures CompareParts(a, b) == 0 ==> i >= |a| && i >= |b|
    decreases |a| + |b|
  {
    if (a == [] && b == []) || Head(a) != Head(b) { return 0; }
    var k := DecidingPosition(Tail(a), Tail(b));
    i := k + 1;
    forall j: nat | j < i ensures NumberAt(a, j) == NumberAt(b, j) {
      if j > 0 { assert NumberAt(Tail(a), j - 1) == NumberAt(Tail(b), j - 1); }
    }
  }

  /** What a comparison of segments decides: the first position where the numbers differ. */
  lemma PartsMeaning(a: seq<string>, b: seq<string>)
    ensures CompareParts(a, b) == 0 <==> forall i: nat :: NumberAt(a, i) == NumberAt(b, i)
    ensures CompareParts(a, b) < 0 <==> exists i: nat :: SameBelow(a, b, i) && NumberAt(a, i) < NumberAt(b, i)
  {
    var k := DecidingPosition(a, b);
    if CompareParts(a, b) == 0 {
      forall i: nat ensures NumberAt(a, i) == NumberAt(b, i) {}
    }
  }

  // ----- The stable ceiling and the latest version -----

  /** A stable tag above the ceiling. */
  predicate IsPending(v: string, ceiling: string) {
    v != TRUNK && IsStable(v) && Compare(v, ceiling) > 0
  }

  predicate IsCeiling(ceiling: string) {
    ceiling != "" && ceiling != TRUNK
  }

  /** The versions that are not above the ceiling. */
  function Kept(versions: map<string, string>, ceiling: string): map<string, string> {
    map v | v in versions && !IsPending(v, ceiling) :: versions[v]
  }

  lemma KeptGrows(versions: map<string, string>, v: string, url: string, ceiling: string)
    requires v !in versions
    ensures Kept(versions[v := url], ceiling) ==
            if IsPending(v, ceiling) then Kept(versions, ceiling) else Kept(versions, ceiling)[v := url]
  {}

  method Keeps(v: string, ceiling: string) returns (keep: bool)
    ensures keep <==> !IsPending(v, ceiling)
  {
    keep := v == TRUNK || !IsStable(v);
    if !keep {
      var c := CompareVersions(v, ceiling);
      keep := c <= 0;
    }
  }

  method KeepBelow(versions: map<string, string>, ceiling: string) returns (result: map<string, string>)
    ensures result == Kept(versions, ceiling)
  {
    result := map[];
    var todo := versions.Keys;
    while todo != {}
      invariant todo <= versions.Keys && result == Kept(versions - todo, ceiling)
    {
      var v :| v in todo;
      WalkOn(versions, todo, v);
      KeptGrows(versions - todo, v, versions[v], ceiling);
      todo := todo - {v};
      var keep := Keeps(v, ceiling);
      if keep { result := result[v := versions[v]]; }
    }
    assert versions - todo == versions;
  }

  /** Drops the stable versions above maxVersion, unless that is no version itself. */
  method FilterNewerThan(versions: map<string, string>, maxVersion: string) returns (result: map<string, string>)
    ensures result == if IsCeiling(Normalize(maxVersion)) then Kept(versions, Normalize(maxVersion)) else versions
  {
    var ceiling := Normalize(maxVersion);
    if ceiling == "" || ceiling == TRUNK {
      return versions;
    }
    result := KeepBelow(versions, ceiling);
  }

  /** v is a maximal element of the set. */
  ghost predicate IsHighest(v: string, among: set<string>) {
    v in among && forall w :: w in among ==> Compare(w, v) <= 0
  }

  ghost function Tagged(versions: map<string, string>): set<string> {
    set v | v in versions && v != TRUNK
  }

  ghost function StableOnes(versions: map<string, string>): set<string> {
    set v | v in versions && v != TRUNK && IsStable(v)
  }

  lemma NewHighest(v: string, best: string, among: set<string>)
    requires IsHighest(best, among)
    ensures IsHighest(if Compare(v, best) > 0 then v else best, among + {v})
  {
    forall w | w in among + {v}
      ensures Compare(w, if Compare(v, best) > 0 then v else best) <= 0
    {
      CompareIsPreorder(v, best, w);
      CompareIsPreorder(w, best, v);
    }
  }

  /** The best so far, "" before there is any. */
  ghost predicate IsBest(best: string, among: set<string>) {
    if among == {} then best == "" else IsHighest(best, among)
  }

  /** One candidate more; the empty string is none. */
  lemma BetterIsBest(v: string, best: string, among: set<string>)
    requires "" !in among && IsBest(best, among) && (v == "" && best != "" ==> Compare(v, best) <= 0)
    ensures IsBest(if best == "" || Compare(v, best) > 0 then v else best, if v == "" then among else among + {v})
  {
    CompareIsPreorder(v, v, v);
    if among != {} { NewHighest(v, best, among); }
    assert among == {} ==> among + {v} == {v};
  }

  lemma TaggedGrow(versions: map<string, string>, v: string, url: string)
    ensures Tagged(versions[v := url]) == if v != TRUNK then Tagged(versions) + {v} else Tagged(versions)
    ensures StableOnes(versions[v := url]) ==
            if v != TRUNK && IsStable(v) then StableOnes(versions) + {v} else StableOnes(versions)
  {}

  lemma {:induction false} PartsOfSplit(s: string, sep: char, c: char)
    requires c !in s
    ensures forall part :: part in Split(s, sep) ==> c !in part
    decreases |s|
  {
    var i := IndexOf(s, sep);
    if i < |s| { PartsOfSplit(s[i + 1..], sep, c); }
  }

  lemma {:induction false} ZeroIsLowest(zeros: seq<string>, parts: seq<string>)
    requires (forall z :: z in zeros ==> z == "") && forall part :: part in parts ==> '-' !in part
    ensures CompareParts(zeros, parts) <= 0
    decreases |zeros| + |parts|
  {
    if zeros != [] || parts != [] {
      assert zeros != [] ==> zeros[0] in zeros;
      assert parts != [] ==> parts[0] in parts;
      NoMinusIsNatural(if parts == [] then "" else parts[0]);
      assert forall z :: z in Tail(zeros) ==> z in zeros;
      assert forall part :: part in Tail(parts) ==> part in parts;
      ZeroIsLowest(Tail(zeros), Tail(parts));
    }
  }

  lemma NoMinusIsNatural(s: string)
    requires '-' !in s
    ensures Atoi(s) >= 0
  {
    assert s != "" ==> s[0] in s;
  }

  /** The empty key is above no stable version. */
  lemma EmptyIsLowest(v: string)
    requires IsStable(v)
    ensures Compare("", v) <= 0
  {
    PartsOfSplit(v, '.', '-');
    ZeroIsLowest(Split("", '.'), Split(v, '.'));
    CompareIsPreorder("", "", "");
  }

  /**
   The highest stable version, or the highest pre-release if no version is stable; ""
   if there is only the trunk. Whatever order the map is walked in, the result is
   maximal. An empty key counts as no version; without stable ones, it may hide
   pre-releases.
   */
  method Latest(versions: map<string, string>) returns (latest: string)
    ensures var stable := StableOnes(versions) - {""};
            if stable != {} then IsHighest(latest, stable)
            else if "" in versions then latest == "" || latest in Tagged(versions)
            else if Tagged(versions) != {} then IsHighest(latest, Tagged(versions))
            else latest == ""
  {
    var latestStable, latestAny := "", "";
    var todo := versions.Keys;
    while todo != {}
      invariant todo <= versions.Keys && AreBestSoFar(versions - todo, latestStable, latestAny)
    {
      var v :| v in todo;
      WalkOn(versions, todo, v);
      if v != TRUNK { latestStable, latestAny := Improve(versions - todo, v, versions[v], latestStable, latestAny); }
      todo := todo - {v};
    }
    assert versions - todo == versions;
    if latestStable != "" { return latestStable; }
    return latestAny;
  }

  ghost predicate AreBestSoFar(versions: map<string, string>, latestStable: string, latestAny: string) {
    && IsBest(latestStable, StableOnes(versions) - {""})
    && (latestAny == "" || latestAny in Tagged(versions))
    && ("" !in versions ==> IsBest(latestAny, Tagged(versions)))
  }

  /** One turn of the loop. */
  method Improve(ghost seen: map<string, string>, v: string, ghost url: string, latestStable: string, latestAny: string)
    returns (stable: string, any: string)
    requires v != TRUNK && AreBestSoFar(seen, latestStable, latestAny)
    ensures AreBestSoFar(seen[v := url], stable, any)
  {
    stable, any := latestStable, latestAny;
    TaggedGrow(seen, v, url);
    if IsStable(v) {
      var c := CompareVersions(v, latestStable);
      if latestStable == "" || c > 0 { stable := v; }
      EmptyIsLowest(latestStable);
      BetterIsBest(v, latestStable, StableOnes(seen) - {""});
      assert StableOnes(seen[v := url]) - {""} ==
             if v == "" then StableOnes(seen) - {""} else StableOnes(seen) - {""} + {v};
    }
    var c := CompareVersions(v, latestAny);
    if latestAny == "" || c > 0 { any := v; }
    if "" !in seen && v != "" { BetterIsBest(v, latestAny, Tagged(seen)); }
  }
}
