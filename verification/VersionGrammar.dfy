/**
 The regular expression that decides which version strings are accepted, with the
 meaning a regular-expression engine gives it, and the rule its comment states in
 words. The two accept the same strings.
 */
module VersionGrammar {
  import opened Text

  /** Case-insensitive regular expressions over single characters. */
  datatype Regex =
    | Empty
    | Digit
    | Lit(c: char)
    | Cat(l: Regex, r: Regex)
    | Alt(l: Regex, r: Regex)
    | Plus(body: Regex)
    | UpTo(body: Regex, max: nat)

  function Size(re: Regex): nat {
    match re
    case Cat(l, r) => 1 + Size(l) + Size(r)
    case Alt(l, r) => 1 + Size(l) + Size(r)
    case Plus(b) => 1 + Size(b)
    case UpTo(b, n) => 1 + Size(b) + n
    case _ => 0
  }

  /** A full match (anchored at both ends). */
  predicate Matches(re: Regex, s: string)
    decreases Size(re), |s|
  {
    match re
    case Empty => s == ""
    case Digit => |s| == 1 && IsDigit(s[0])
    case Lit(c) => |s| == 1 && FoldsTo(s[0], c)
    case Cat(l, r) => exists i :: 0 <= i <= |s| && Matches(l, s[..i]) && Matches(r, s[i..])
    case Alt(l, r) => Matches(l, s) || Matches(r, s)
    case Plus(b) =>
      || Matches(b, s)
      || exists i :: 0 < i < |s| && Matches(b, s[..i]) && Matches(re, s[i..])
    case UpTo(b, n) =>
      || s == ""
      || (n > 0 && exists i :: 0 < i <= |s| && Matches(b, s[..i]) && Matches(UpTo(b, n - 1), s[i..]))
  }

  function Word(w: string): Regex {
    if w == "" then Empty else Cat(Lit(w[0]), Word(w[1..]))
  }

  /** A group of alternative keywords. */
  datatype Words = Only(word: string) | Or(word: string, rest: Words)

  function AnyOf(words: Words): Regex {
    match words
    case Only(w) => Word(w)
    case Or(w, rest) => Alt(Word(w), AnyOf(rest))
  }

  function Optional(re: Regex): Regex { Alt(re, Empty) }

  const FREE_WORDS := Or("alpha", Or("beta", Or("a", Or("b", Or("rc", Or("p", Or("pl", Only("patch"))))))))
  const STRICT_WORDS := Or("dev", Only("stable"))

  function Base(digits: Regex, dotted: Regex): Regex {
    Cat(digits, UpTo(dotted, 3))
  }

  function Suffix(digits: Regex, dotted: Regex, free: Regex, strict: Regex): Regex {
    Cat(Lit('-'), Alt(Cat(free, Optional(Cat(Optional(Lit('.')), digits))), Cat(strict, Optional(dotted))))
  }

  /** (?i)^\d+(\.\d+){0,3}(-((alpha|…|patch)(\.?\d+)?|(dev|stable)(\.\d+)?))?$ */
  function ValidVersion(): Regex {
    var digits := Plus(Digit);
    var dotted := Cat(Lit('.'), digits);
    Cat(Base(digits, dotted), Optional(Suffix(digits, dotted, AnyOf(FREE_WORDS), AnyOf(STRICT_WORDS))))
  }

  /** One to four runs of digits separated by dots. */
  predicate IsBase(s: string) {
    IsRuns(s, 4)
  }

  predicate IsOneOf(s: string, words: Words) {
    EqualFold(s, words.word) || (words.Or? && IsOneOf(s, words.rest))
  }

  predicate IsDotted(s: string) {
    s != "" && s[0] == '.' && AllDigits(s[1..])
  }

  /** The number of characters before the first digit or dot. */
  function WordLength(s: string): (k: nat)
    ensures k <= |s|
    ensures forall i :: 0 <= i < k ==> !IsDigit(s[i]) && s[i] != '.'
    ensures k < |s| ==> IsDigit(s[k]) || s[k] == '.'
  {
    if s == "" || IsDigit(s[0]) || s[0] == '.' then 0 else 1 + WordLength(s[1..])
  }

  /**
   A pre-release keyword with an optional number: dotted or bare after the first
   group of keywords, only dotted after the second.
   */
  predicate IsQualifier(s: string) {
    var k := WordLength(s);
    var word, rest := s[..k], s[k..];
    || (IsOneOf(word, FREE_WORDS) && (rest == "" || AllDigits(rest) || IsDotted(rest)))
    || (IsOneOf(word, STRICT_WORDS) && (rest == "" || IsDotted(rest)))
  }

  /** The accepted grammar in words: a base, and after the first '-' a qualifier. */
  predicate IsVersion(s: string) {
    var i := IndexOf(s, '-');
    IsBase(s[..i]) && (i == |s| || IsQualifier(s[i + 1..]))
  }

  /** re accepts exactly the strings that satisfy p. */
  ghost predicate Means(re: Regex, p: string -> bool) {
    forall t :: Matches(re, t) <==> p(t)
  }

  lemma {:induction false} DigitsMatch(s: string)
    ensures Matches(Plus(Digit), s) <==> AllDigits(s)
    decreases |s|
  {
    if Matches(Plus(Digit), s) && !Matches(Digit, s) {
      var i :| 0 < i < |s| && Matches(Digit, s[..i]) && Matches(Plus(Digit), s[i..]);
      DigitsMatch(s[i..]);
      assert s == s[..i] + s[i..];
    }
    if AllDigits(s) && |s| > 1 {
      DigitsMatch(s[1..]);
      assert Matches(Digit, s[..1]) && Matches(Plus(Digit), s[1..]);
    }
  }

  lemma LitCat(c: char, r: Regex, s: string)
    ensures Matches(Cat(Lit(c), r), s) <==> s != "" && FoldsTo(s[0], c) && Matches(r, s[1..])
  {
    if s != "" && FoldsTo(s[0], c) && Matches(r, s[1..]) {
      assert Matches(Lit(c), s[..1]) && Matches(r, s[1..]);
    }
    if Matches(Cat(Lit(c), r), s) {
      var i :| 0 <= i <= |s| && Matches(Lit(c), s[..i]) && Matches(r, s[i..]);
      assert i == 1;
    }
  }

  lemma {:induction false} WordMatch(w: string, s: string)
    ensures Matches(Word(w), s) <==> EqualFold(s, w)
  {
    if w != "" {
      LitCat(w[0], Word(w[1..]), s);
      if s != "" {
        WordMatch(w[1..], s[1..]);
        assert s == [s[0]] + s[1..] && w == [w[0]] + w[1..];
      }
    }
  }

  lemma {:induction false} AnyOfMatch(words: Words, s: string)
    ensures Matches(AnyOf(words), s) <==> IsOneOf(s, words)
  {
    WordMatch(words.word, s);
    if words.Or? { AnyOfMatch(words.rest, s); }
  }

  lemma OptionalMatch(re: Regex, s: string)
    ensures Matches(Optional(re), s) <==> s == "" || Matches(re, s)
  {
    assert Matches(Empty, s) <==> s == "";
  }

  lemma CatIntro(l: Regex, r: Regex, s: string, i: nat)
    requires i <= |s| && Matches(l, s[..i]) && Matches(r, s[i..])
    ensures Matches(Cat(l, r), s)
  {}

  lemma CatElim(l: Regex, r: Regex, s: string) returns (i: nat)
    requires Matches(Cat(l, r), s)
    ensures i <= |s| && Matches(l, s[..i]) && Matches(r, s[i..])
  {
    i :| i <= |s| && Matches(l, s[..i]) && Matches(r, s[i..]);
  }

  lemma DottedMatch(digits: Regex, s: string)
    requires Means(digits, AllDigits)
    ensures Matches(Cat(Lit('.'), digits), s) <==> IsDotted(s)
  {
    LitCat('.', digits, s);
  }

  /** What follows the first run of digits: at most n more runs, each after a dot. */
  predicate IsTail(s: string, n: nat) {
    s == "" || (s[0] == '.' && IsRuns(s[1..], n))
  }

  /** At most n runs of digits separated by dots. */
  predicate IsRuns(s: string, n: nat) {
    AreRuns(Split(s, '.'), n)
  }

  predicate AreRuns(parts: seq<string>, n: nat) {
    |parts| <= n && forall i :: 0 <= i < |parts| ==> AllDigits(parts[i])
  }

  lemma RunsCons(first: string, rest: seq<string>, n: nat)
    ensures AreRuns([first] + rest, n) <==> n > 0 && AllDigits(first) && AreRuns(rest, n - 1)
  {
    var all := [first] + rest;
    assert all[0] == first && forall k :: 0 <= k < |rest| ==> all[k + 1] == rest[k];
  }

  /** The runs of s, one at a time. */
  lemma RunsUnfold(s: string, n: nat)
    ensures IsRuns(s, n) <==>
      n > 0 && AllDigits(s[..IndexOf(s, '.')]) && IsTail(s[IndexOf(s, '.')..], n - 1)
  {
    var i := IndexOf(s, '.');
    if i == |s| {
      assert s[..i] == s && s[i..] == "";
      RunsCons(s, [], n);
      assert [s] + [] == [s];
    } else {
      assert s[i..][1..] == s[i + 1..] && s[i..][0] == '.';
      RunsCons(s[..i], Split(s[i + 1..], '.'), n);
    }
  }

  /** Digits up to a dot or the end are exactly what stands before the first dot. */
  lemma DigitsBeforeDot(s: string, i: nat)
    requires i <= |s| && AllDigits(s[..i])
    requires i == |s| || s[i] == '.'
    ensures IndexOf(s, '.') == i
  {
    var j := IndexOf(s, '.');
    forall k | 0 <= k < i ensures IsDigit(s[k]) { assert IsDigit(s[..i][k]); }
    assert forall k :: 0 <= k < j ==> s[..j][k] == s[k];
  }

  lemma UpToIntro(re: Regex, n: nat, s: string, i: nat)
    requires 0 < i <= |s| && Matches(re, s[..i]) && Matches(UpTo(re, n), s[i..])
    ensures Matches(UpTo(re, n + 1), s)
  {}

  lemma UpToElim(re: Regex, n: nat, s: string) returns (i: nat)
    requires s != "" && Matches(UpTo(re, n), s)
    ensures n > 0 && 0 < i <= |s| && Matches(re, s[..i]) && Matches(UpTo(re, n - 1), s[i..])
  {
    i :| 0 < i <= |s| && Matches(re, s[..i]) && Matches(UpTo(re, n - 1), s[i..]);
  }

  lemma {:induction false} TailIfMatch(dotted: Regex, s: string, n: nat)
    requires Means(dotted, IsDotted) && Matches(UpTo(dotted, n), s)
    ensures IsTail(s, n)
    decreases n
  {
    if s != "" {
      var i := UpToElim(dotted, n, s);
      assert IsDotted(s[..i]);
      TailIfMatch(dotted, s[i..], n - 1);
      assert s[..i][1..] == s[1..][..i - 1] && s[1..][i - 1..] == s[i..];
      DigitsBeforeDot(s[1..], i - 1);
      RunsUnfold(s[1..], n);
    }
  }

  lemma {:induction false} MatchIfTail(dotted: Regex, s: string, n: nat)
    requires Means(dotted, IsDotted) && IsTail(s, n)
    ensures Matches(UpTo(dotted, n), s)
    decreases n
  {
    if s != "" {
      RunsUnfold(s[1..], n);
      var i := IndexOf(s[1..], '.') + 1;
      assert s[..i][1..] == s[1..][..i - 1] && s[1..][i - 1..] == s[i..];
      MatchIfTail(dotted, s[i..], n - 1);
      assert IsDotted(s[..i]);
      UpToIntro(dotted, n - 1, s, i);
    }
  }

  lemma BaseMatch(digits: Regex, dotted: Regex, s: string)
    requires Means(digits, AllDigits) && Means(dotted, IsDotted)
    ensures Matches(Base(digits, dotted), s) <==> IsBase(s)
  {
    RunsUnfold(s, 4);
    if Matches(Base(digits, dotted), s) {
      var i := CatElim(digits, UpTo(dotted, 3), s);
      TailIfMatch(dotted, s[i..], 3);
      DigitsBeforeDot(s, i);
    }
    if IsBase(s) {
      var i := IndexOf(s, '.');
      MatchIfTail(dotted, s[i..], 3);
      CatIntro(digits, UpTo(dotted, 3), s, i);
    }
  }

  /** Keywords are made of lower-case letters. */
  predicate AreKeywords(words: Words) {
    && IsLowerWord(words.word)
    && (words.Or? ==> AreKeywords(words.rest))
  }

  predicate IsLowerWord(w: string) {
    w != "" && forall j :: 0 <= j < |w| ==> 'a' <= w[j] <= 'z'
  }

  lemma {:induction false} KeywordIsLetters(s: string, words: Words)
    requires AreKeywords(words) && IsOneOf(s, words)
    ensures s != "" && forall j :: 0 <= j < |s| ==> !IsDigit(s[j]) && s[j] != '.' && !IsSpace(s[j])
  {
    if EqualFold(s, words.word) {
      forall j | 0 <= j < |s|
        ensures !IsDigit(s[j]) && s[j] != '.' && !IsSpace(s[j])
      {
        assert FoldsTo(s[j], words.word[j]);
      }
    } else {
      KeywordIsLetters(s, words.rest);
    }
  }

  /** A keyword holds no digit and no dot, so it ends where WordLength says. */
  lemma KeywordEnd(s: string, i: nat, words: Words)
    requires i <= |s| && AreKeywords(words) && IsOneOf(s[..i], words)
    requires i == |s| || IsDigit(s[i]) || s[i] == '.'
    ensures WordLength(s) == i
  {
    KeywordIsLetters(s[..i], words);
    assert forall j :: 0 <= j < i ==> s[..i][j] == s[j];
  }

  predicate IsNumberStart(s: string) {
    s != "" && (IsDigit(s[0]) || s[0] == '.')
  }

  /** A keyword of the group, then nothing or a number. */
  ghost predicate IsWordThen(s: string, words: Words, number: string -> bool) {
    var k := WordLength(s);
    IsOneOf(s[..k], words) && (s[k..] == "" || number(s[k..]))
  }

  /** The match of a keyword group followed by an optional number. */
  lemma QualifierMatch(
    words: Words, group: Regex, re: Regex, word: string -> bool, number: string -> bool, s: string)
    requires AreKeywords(words) && Means(group, word) && forall t :: word(t) <==> IsOneOf(t, words)
    requires Means(re, number) && forall t :: number(t) ==> IsNumberStart(t)
    ensures Matches(Cat(group, Optional(re)), s) <==> IsWordThen(s, words, number)
  {
    if Matches(Cat(group, Optional(re)), s) {
      var i := CatElim(group, Optional(re), s);
      OptionalMatch(re, s[i..]);
      assert i == |s| || s[i..][0] == s[i];
      KeywordEnd(s, i, words);
    }
    if IsWordThen(s, words, number) {
      var k := WordLength(s);
      OptionalMatch(re, s[k..]);
      CatIntro(group, Optional(re), s, k);
    }
  }

  lemma FreeNumberMatch(digits: Regex, s: string)
    requires Means(digits, AllDigits)
    ensures Matches(Cat(Optional(Lit('.')), digits), s) <==> IsFreeNumber(s)
  {
    var dot := Optional(Lit('.'));
    if Matches(Cat(dot, digits), s) {
      var i := CatElim(dot, digits, s);
      OptionalMatch(Lit('.'), s[..i]);
      assert i == 0 ==> s[i..] == s;
    }
    if AllDigits(s) {
      assert s[..0] == "" && s[0..] == s;
      OptionalMatch(Lit('.'), s[..0]);
      CatIntro(dot, digits, s, 0);
    }
    if IsDotted(s) {
      OptionalMatch(Lit('.'), s[..1]);
      CatIntro(dot, digits, s, 1);
    }
  }

  predicate IsFree(s: string) { IsOneOf(s, FREE_WORDS) }

  predicate IsStrict(s: string) { IsOneOf(s, STRICT_WORDS) }

  predicate IsFreeNumber(s: string) { AllDigits(s) || IsDotted(s) }

  predicate IsSuffix(s: string) { s != "" && s[0] == '-' && IsQualifier(s[1..]) }

  lemma QualifierMeans(s: string)
    ensures IsQualifier(s) <==> IsWordThen(s, FREE_WORDS, IsFreeNumber) || IsWordThen(s, STRICT_WORDS, IsDotted)
  {}

  lemma SuffixMatch(digits: Regex, dotted: Regex, free: Regex, strict: Regex, s: string)
    requires Means(digits, AllDigits) && Means(dotted, IsDotted)
    requires Means(free, IsFree) && Means(strict, IsStrict)
    ensures Matches(Suffix(digits, dotted, free, strict), s) <==> IsSuffix(s)
  {
    var freePart := Cat(free, Optional(Cat(Optional(Lit('.')), digits)));
    var strictPart := Cat(strict, Optional(dotted));
    LitCat('-', Alt(freePart, strictPart), s);
    if s != "" {
      PartsMatch(digits, dotted, free, strict, s[1..]);
      AltMatches(freePart, strictPart, s[1..]);
    }
  }

  lemma AltMatches(a: Regex, b: Regex, s: string)
    ensures Matches(Alt(a, b), s) <==> Matches(a, s) || Matches(b, s)
  {}

  lemma PartsMatch(digits: Regex, dotted: Regex, free: Regex, strict: Regex, s: string)
    requires Means(digits, AllDigits) && Means(dotted, IsDotted)
    requires Means(free, IsFree) && Means(strict, IsStrict)
    ensures Matches(Cat(free, Optional(Cat(Optional(Lit('.')), digits))), s) || Matches(Cat(strict, Optional(dotted)), s)
            <==> IsQualifier(s)
  {
    QualifierMeans(s);
    FreePartMatch(digits, free, s);
    QualifierMatch(STRICT_WORDS, strict, dotted, IsStrict, IsDotted, s);
  }

  lemma FreePartMatch(digits: Regex, free: Regex, s: string)
    requires Means(digits, AllDigits) && Means(free, IsFree)
    ensures Matches(Cat(free, Optional(Cat(Optional(Lit('.')), digits))), s) <==>
            IsWordThen(s, FREE_WORDS, IsFreeNumber)
  {
    var freeNumber := Cat(Optional(Lit('.')), digits);
    forall t ensures Matches(freeNumber, t) <==> IsFreeNumber(t) { FreeNumberMatch(digits, t); }
    QualifierMatch(FREE_WORDS, free, freeNumber, IsFree, IsFreeNumber, s);
  }

  /** A base holds no '-'. */
  lemma {:induction false} PartsHoldNoDash(s: string, n: nat := 4)
    requires IsRuns(s, n)
    ensures '-' !in s
    decreases |s|
  {
    var i := IndexOf(s, '.');
    RunsUnfold(s, n);
    if i < |s| {
      PartsHoldNoDash(s[i..][1..], n - 1);
      assert s == s[..i] + [s[i]] + s[i..][1..];
    } else {
      assert s == s[..i];
    }
  }

  lemma FirstDash(s: string, i: nat)
    requires i <= |s| && '-' !in s[..i] && (i == |s| || s[i] == '-')
    ensures IndexOf(s, '-') == i
  {
    var d := IndexOf(s, '-');
    assert forall k :: 0 <= k < i ==> s[k] == s[..i][k];
    assert forall k :: 0 <= k < d ==> s[k] == s[..d][k];
  }

  lemma SuffixAt(s: string, i: nat)
    requires i < |s|
    ensures IsSuffix(s[i..]) <==> s[i] == '-' && IsQualifier(s[i + 1..])
  {
    assert s[i..][0] == s[i] && s[i..][1..] == s[i + 1..];
  }

  lemma VersionAt(s: string, i: nat)
    requires i <= |s| && IsBase(s[..i]) && (i == |s| || IsSuffix(s[i..]))
    ensures IsVersion(s)
  {
    PartsHoldNoDash(s[..i]);
    if i < |s| { SuffixAt(s, i); }
    FirstDash(s, i);
  }

  lemma VersionIfMatch(base: Regex, suffix: Regex, s: string)
    requires Means(base, IsBase) && Means(suffix, IsSuffix) && Matches(Cat(base, Optional(suffix)), s)
    ensures IsVersion(s)
  {
    var i := CatElim(base, Optional(suffix), s);
    OptionalMatch(suffix, s[i..]);
    VersionAt(s, i);
  }

  lemma MatchIfVersion(base: Regex, suffix: Regex, s: string)
    requires Means(base, IsBase) && Means(suffix, IsSuffix) && IsVersion(s)
    ensures Matches(Cat(base, Optional(suffix)), s)
  {
    var d := IndexOf(s, '-');
    if d < |s| { SuffixAt(s, d); }
    OptionalMatch(suffix, s[d..]);
    CatIntro(base, Optional(suffix), s, d);
  }

  /** The regular expression accepts exactly the grammar stated in words. */
  lemma RegexIsGrammar(s: string)
    ensures Matches(ValidVersion(), s) <==> IsVersion(s)
  {
    var digits := Plus(Digit);
    var dotted := Cat(Lit('.'), digits);
    var free, strict := AnyOf(FREE_WORDS), AnyOf(STRICT_WORDS);
    forall t ensures Matches(digits, t) <==> AllDigits(t) { DigitsMatch(t); }
    forall t ensures Matches(dotted, t) <==> IsDotted(t) { DottedMatch(digits, t); }
    forall t ensures Matches(free, t) <==> IsFree(t) { AnyOfMatch(FREE_WORDS, t); }
    forall t ensures Matches(strict, t) <==> IsStrict(t) { AnyOfMatch(STRICT_WORDS, t); }
    PatternMatch(digits, dotted, free, strict, s);
  }

  lemma PatternMatch(digits: Regex, dotted: Regex, free: Regex, strict: Regex, s: string)
    requires Means(digits, AllDigits) && Means(dotted, IsDotted)
    requires Means(free, IsFree) && Means(strict, IsStrict)
    ensures Matches(Cat(Base(digits, dotted), Optional(Suffix(digits, dotted, free, strict))), s) <==> IsVersion(s)
  {
    var base, suffix := Base(digits, dotted), Suffix(digits, dotted, free, strict);
    forall t ensures Matches(base, t) <==> IsBase(t) { BaseMatch(digits, dotted, t); }
    forall t ensures Matches(suffix, t) <==> IsSuffix(t) { SuffixMatch(digits, dotted, free, strict, t); }
    if Matches(Cat(base, Optional(suffix)), s) { VersionIfMatch(base, suffix, s); }
    if IsVersion(s) { MatchIfVersion(base, suffix, s); }
  }

  lemma {:induction false} BaseEndsInDigit(s: string, n: nat)
    requires IsRuns(s, n)
    ensures s != "" && IsDigit(s[0]) && IsDigit(s[|s| - 1])
    decreases |s|
  {
    var i := IndexOf(s, '.');
    RunsUnfold(s, n);
    assert IsDigit(s[..i][0]) && IsDigit(s[..i][i - 1]);
    if i < |s| { BaseEndsInDigit(s[i..][1..], n - 1); }
  }

  lemma QualifierEnd(q: string)
    requires IsQualifier(q)
    ensures q != "" && !IsSpace(q[|q| - 1])
  {
    var k := WordLength(q);
    KeywordIsLetters(q[..k], if IsOneOf(q[..k], FREE_WORDS) then FREE_WORDS else STRICT_WORDS);
    if k == |q| {
      assert q[..k] == q;
    } else if AllDigits(q[k..]) {
      assert IsDigit(q[k..][|q| - k - 1]);
    } else {
      assert IsDigit(q[k..][1..][|q| - k - 2]);
    }
  }

  lemma NoDigitFolds(s: string)
    requires s != "" && IsDigit(s[0])
    ensures !EqualFold(s, "trunk")
  {
    var word := "trunk";
    assert !FoldsTo(s[0], word[0]);
  }

  /** An accepted string starts with a digit and does not end in white space. */
  lemma VersionIsClean(s: string)
    requires IsVersion(s)
    ensures s != "" && IsDigit(s[0]) && !IsSpace(s[|s| - 1])
    ensures !EqualFold(s, "trunk") && s != "dev-trunk"
  {
    var d := IndexOf(s, '-');
    BaseEndsInDigit(s[..d], 4);
    assert s[..d][0] == s[0];
    if d < |s| {
      QualifierEnd(s[d + 1..]);
    } else {
      assert s[..d] == s;
    }
    NoDigitFolds(s);
  }
}
