/**
 Go's string operations, as far as the modelled code uses them: cutting, splitting
 and trimming, byte-wise comparison (which on valid UTF-8 is comparison by code
 point), and case folding of ASCII words.
 */
module Text {

  datatype Option<+T> = None | Some(value: T)

  function Lookup<K, V>(m: map<K, V>, k: K): Option<V> {
    if k in m then Some(m[k]) else None
  }

  /** The greater of two numbers that may be missing. */
  function LaterOf(a: Option<int>, b: Option<int>): Option<int> {
    if b.Some? && (a.None? || b.value > a.value) then b else a
  }

  ghost predicate IsMax(s: set<int>, m: int) {
    m in s && forall x :: x in s ==> x <= m
  }

  lemma Pick<T>(s: set<T>) returns (x: T)
    requires s != {}
    ensures x in s
  {
    x :| x in s;
  }

  lemma {:induction false} FindMax(s: set<int>) returns (m: int)
    requires s != {}
    ensures IsMax(s, m)
  {
    var x := Pick(s);
    m := x;
    if s != {x} {
      var n := FindMax(s - {x});
      if n > x { m := n; }
      forall y | y in s ensures y <= m {
        if y != x { assert y in s - {x}; }
      }
    }
  }

  lemma MaxExists(s: set<int>)
    requires s != {}
    ensures exists m :: IsMax(s, m)
  {
    var m := FindMax(s);
  }

  /** The greatest element. */
  ghost function Max(s: set<int>): (m: int)
    requires s != {}
    ensures IsMax(s, m)
  {
    MaxExists(s);
    var m :| IsMax(s, m);
    m
  }

  lemma MaxIs(s: set<int>, m: int)
    requires IsMax(s, m)
    ensures Max(s) == m
  {}

  /** Walking a map: what is left of it without the keys still to do. */
  lemma WalkOn<K, V>(m: map<K, V>, todo: set<K>, k: K)
    requires k in todo && k in m
    ensures m - (todo - {k}) == (m - todo)[k := m[k]]
    ensures k !in m - todo
  {}

  lemma PutBack<K, V>(m: map<K, V>, k: K)
    requires k in m
    ensures (m - {k})[k := m[k]] == m && k !in m - {k}
  {}

  /** Walking a set: k goes over from what is to do to what is done. */
  lemma MoveOver<T>(done: set<T>, todo: set<T>, k: T)
    requires done !! todo && k in todo
    ensures k !in done && done + {k} !! todo - {k} && (done + {k}) + (todo - {k}) == done + todo
  {}

  lemma TakeGrow<T>(s: seq<T>, i: nat)
    requires i < |s|
    ensures s[..i + 1] == s[..i] + [s[i]]
  {}

  lemma TakeAll<T>(s: seq<T>)
    ensures s[..|s|] == s
  {}

  /** The position of the first c in s, or |s| if there is none. */
  function IndexOf(s: string, c: char): (i: nat)
    ensures i <= |s|
    ensures c !in s[..i]
    ensures i < |s| ==> s[i] == c
  {
    if s == "" then 0
    else if s[0] == c then 0
    else
      var i := 1 + IndexOf(s[1..], c);
      assert s[..i] == [s[0]] + s[1..][..i - 1];
      i
  }

  /** strings.Split with a one-character separator: never empty. */
  function Split(s: string, sep: char): (parts: seq<string>)
    ensures |parts| >= 1
    decreases |s|
  {
    var i := IndexOf(s, sep);
    if i == |s| then [s] else [s[..i]] + Split(s[i + 1..], sep)
  }

  /** strings.SplitN for n >= 1: the last part holds the unsplit rest. */
  function SplitN(s: string, sep: char, n: nat): (parts: seq<string>)
    requires n >= 1
    ensures 1 <= |parts| <= n
    decreases n
  {
    var i := IndexOf(s, sep);
    if n == 1 || i == |s| then [s] else [s[..i]] + SplitN(s[i + 1..], sep, n - 1)
  }

  /** strings.Join with a one-character separator. */
  function Join(parts: seq<string>, sep: char): string {
    if parts == [] then ""
    else if |parts| == 1 then parts[0]
    else parts[0] + [sep] + Join(parts[1..], sep)
  }

  /** Cutting at most n parts agrees with cutting all of them, up to the last part. */
  lemma {:induction false} SplitNAgrees(s: string, sep: char, n: nat)
    requires n >= 1
    ensures |SplitN(s, sep, n)| == if |Split(s, sep)| < n then |Split(s, sep)| else n
    ensures forall k :: 0 <= k < |SplitN(s, sep, n)| && k < n - 1 ==> SplitN(s, sep, n)[k] == Split(s, sep)[k]
    decreases n
  {
    var i := IndexOf(s, sep);
    if n > 1 && i < |s| {
      SplitNAgrees(s[i + 1..], sep, n - 1);
    }
  }

  function TrimLeft(s: string, drop: char -> bool): (t: string)
    ensures |t| <= |s|
    ensures t != "" ==> !drop(t[0])
  {
    if s != "" && drop(s[0]) then TrimLeft(s[1..], drop) else s
  }

  function TrimRight(s: string, drop: char -> bool): (t: string)
    ensures |t| <= |s|
    ensures t == s[..|t|]
    ensures t != "" ==> !drop(t[|t| - 1])
  {
    if s != "" && drop(s[|s| - 1]) then TrimRight(s[..|s| - 1], drop) else s
  }

  /** strings.Trim over a set of characters. */
  function Trim(s: string, drop: char -> bool): (t: string)
    ensures |t| <= |s|
    ensures t != "" ==> !drop(t[0]) && !drop(t[|t| - 1])
  {
    TrimRight(TrimLeft(s, drop), drop)
  }

  /** unicode.IsSpace. */
  predicate IsSpace(c: char) {
    || '\t' <= c <= '\r' || c == ' ' || c == '\U{85}' || c == '\U{A0}'
    || c == '\U{1680}' || '\U{2000}' <= c <= '\U{200A}'
    || c == '\U{2028}' || c == '\U{2029}' || c == '\U{202F}' || c == '\U{205F}' || c == '\U{3000}'
  }

  function TrimSpace(s: string): (t: string)
    ensures |t| <= |s|
    ensures t != "" ==> !IsSpace(t[0]) && !IsSpace(t[|t| - 1])
  {
    Trim(s, IsSpace)
  }

  lemma TrimFixed(s: string, drop: char -> bool)
    requires s != "" ==> !drop(s[0]) && !drop(s[|s| - 1])
    ensures Trim(s, drop) == s
  {}

  /** What trimming takes away in front. */
  lemma {:induction false} DroppedLeft(s: string, drop: char -> bool) returns (w: string)
    ensures (forall i :: 0 <= i < |w| ==> drop(w[i])) && s == w + TrimLeft(s, drop)
    decreases |s|
  {
    w := "";
    if s != "" && drop(s[0]) {
      var rest := DroppedLeft(s[1..], drop);
      w := [s[0]] + rest;
      assert s == [s[0]] + s[1..];
    }
  }

  lemma {:induction false} DroppedRight(s: string, drop: char -> bool) returns (w: string)
    ensures (forall i :: 0 <= i < |w| ==> drop(w[i])) && s == TrimRight(s, drop) + w
    decreases |s|
  {
    w := "";
    if s != "" && drop(s[|s| - 1]) {
      var rest := DroppedRight(s[..|s| - 1], drop);
      w := rest + [s[|s| - 1]];
      OneMoreDropped(s, TrimRight(s[..|s| - 1], drop), rest);
    }
  }

  lemma OneMoreDropped(s: string, kept: string, rest: string)
    requires s != "" && s[..|s| - 1] == kept + rest
    ensures s == kept + (rest + [s[|s| - 1]])
  {
    assert s == s[..|s| - 1] + [s[|s| - 1]];
  }

  /** A text is what trimming leaves of it, with what it takes away around. */
  lemma DroppedAround(s: string, drop: char -> bool) returns (w: string, x: string)
    ensures (forall i :: 0 <= i < |w| ==> drop(w[i])) && forall i :: 0 <= i < |x| ==> drop(x[i])
    ensures s == w + Trim(s, drop) + x
  {
    w := DroppedLeft(s, drop);
    x := DroppedRight(TrimLeft(s, drop), drop);
    assert s == w + (Trim(s, drop) + x);
  }

  lemma {:induction false} DropLeft(w: string, s: string, drop: char -> bool)
    requires (forall i :: 0 <= i < |w| ==> drop(w[i])) && s != "" && !drop(s[0])
    ensures TrimLeft(w + s, drop) == s
    decreases |w|
  {
    if w == "" {
      assert w + s == s;
    } else {
      assert (w + s)[0] == w[0] && (w + s)[1..] == w[1..] + s;
      DropLeft(w[1..], s, drop);
    }
  }

  lemma {:induction false} DropRight(s: string, w: string, drop: char -> bool)
    requires (forall i :: 0 <= i < |w| ==> drop(w[i])) && s != "" && !drop(s[|s| - 1])
    ensures TrimRight(s + w, drop) == s
    decreases |w|
  {
    var t := s + w;
    if w == "" {
      assert t == s;
    } else {
      assert t[|t| - 1] == w[|w| - 1] && t[..|t| - 1] == s + w[..|w| - 1];
      DropRight(s, w[..|w| - 1], drop);
    }
  }

  /** Trimming takes away what is around a text. */
  lemma DropAround(w: string, s: string, x: string, drop: char -> bool)
    requires (forall i :: 0 <= i < |w| ==> drop(w[i])) && forall i :: 0 <= i < |x| ==> drop(x[i])
    requires s != "" && !drop(s[0]) && !drop(s[|s| - 1])
    ensures Trim(w + s + x, drop) == s
  {
    assert w + s + x == w + (s + x) && (s + x)[0] == s[0];
    DropLeft(w, s + x, drop);
    DropRight(s, x, drop);
  }

  lemma {:induction false} DropAll(w: string, drop: char -> bool)
    requires forall i :: 0 <= i < |w| ==> drop(w[i])
    ensures Trim(w, drop) == ""
    decreases |w|
  {
    if w != "" { DropAll(w[1..], drop); }
  }

  lemma {:induction false} FirstIndex(a: string, c: char, b: string)
    requires c !in a
    ensures IndexOf(a + [c] + b, c) == |a|
    decreases |a|
  {
    var s := a + [c] + b;
    if a != "" {
      assert s[0] == a[0] && a[0] in a;
      assert s[1..] == a[1..] + [c] + b;
      FirstIndex(a[1..], c, b);
    }
  }

  lemma {:induction false} NoIndex(s: string, c: char)
    requires c !in s
    ensures IndexOf(s, c) == |s|
    decreases |s|
  {
    if s != "" {
      assert s[0] in s;
      NoIndex(s[1..], c);
    }
  }

  lemma {:induction false} SplitOfJoin(parts: seq<string>, sep: char)
    requires parts != [] && forall p :: p in parts ==> sep !in p
    ensures Split(Join(parts, sep), sep) == parts
    decreases |parts|
  {
    assert parts[0] in parts;
    if |parts| == 1 {
      NoIndex(parts[0], sep);
    } else {
      var rest := Join(parts[1..], sep);
      var s := parts[0] + [sep] + rest;
      FirstIndex(parts[0], sep, rest);
      SplitOfJoin(parts[1..], sep);
      assert s[..|parts[0]|] == parts[0] && s[|parts[0]| + 1..] == rest;
    }
  }

  lemma {:induction false} JoinAppend(parts: seq<string>, x: string, sep: char)
    requires parts != []
    ensures Join(parts + [x], sep) == Join(parts, sep) + [sep] + x
    decreases |parts|
  {
    var more := parts + [x];
    if |parts| > 1 {
      JoinAppend(parts[1..], x, sep);
      assert more[1..] == parts[1..] + [x];
    } else {
      assert more[1..] == [x];
    }
  }

  lemma {:induction false} JoinHasNo(parts: seq<string>, sep: char, c: char)
    requires c != sep && forall p :: p in parts ==> c !in p
    ensures c !in Join(parts, sep)
    decreases |parts|
  {
    if parts != [] {
      assert parts[0] in parts;
      JoinHasNo(parts[1..], sep, c);
    }
  }

  /** The parts joined again. */
  lemma {:induction false} JoinOfSplitN(s: string, sep: char, n: nat)
    requires n >= 1
    ensures Join(SplitN(s, sep, n), sep) == s
    ensures forall k :: 0 <= k < |SplitN(s, sep, n)| && k < n - 1 ==> sep !in SplitN(s, sep, n)[k]
    decreases n
  {
    var i := IndexOf(s, sep);
    if n > 1 && i < |s| {
      JoinOfSplitN(s[i + 1..], sep, n - 1);
      var rest := SplitN(s[i + 1..], sep, n - 1);
      assert ([s[..i]] + rest)[1..] == rest;
      assert s == s[..i] + [sep] + s[i + 1..];
    }
  }

  lemma {:induction false} JoinOfSplit(s: string, sep: char)
    ensures Join(Split(s, sep), sep) == s
    ensures forall k :: 0 <= k < |Split(s, sep)| ==> sep !in Split(s, sep)[k]
    decreases |s|
  {
    var i := IndexOf(s, sep);
    if i < |s| {
      JoinOfSplit(s[i + 1..], sep);
      var rest := Split(s[i + 1..], sep);
      assert ([s[..i]] + rest)[1..] == rest;
      assert s == s[..i] + [sep] + s[i + 1..];
    }
  }

  /** The first part of a cut text. */
  lemma SplitNFirst(x: string, y: string, sep: char, n: nat)
    requires n >= 2 && sep !in x
    ensures SplitN(x + [sep] + y, sep, n) == [x] + SplitN(y, sep, n - 1)
  {
    FirstIndex(x, sep, y);
    var s := x + [sep] + y;
    assert s[..|x|] == x && s[|x| + 1..] == y;
  }

  lemma SplitNWhole(x: string, sep: char, n: nat)
    requires n >= 1 && sep !in x
    ensures SplitN(x, sep, n) == [x]
  {
    NoIndex(x, sep);
  }

  /** strings.TrimPrefix for a one-character prefix. */
  function TrimPrefix(s: string, c: char): string {
    if s != "" && s[0] == c then s[1..] else s
  }

  predicate HasPrefix(s: string, p: string) {
    |p| <= |s| && s[..|p|] == p
  }

  predicate HasSuffix(s: string, p: string) {
    |p| <= |s| && s[|s| - |p|..] == p
  }

  function TrimSuffix(s: string, p: string): string {
    if HasSuffix(s, p) then s[..|s| - |p|] else s
  }

  function ToLowerChar(c: char): char {
    if 'A' <= c <= 'Z' then ((c as int) + 32) as char else c
  }

  /** strings.ToLower on ASCII letters; other characters are left alone. */
  function ToLower(s: string): (t: string)
    ensures |t| == |s|
    ensures forall i :: 0 <= i < |s| ==> t[i] == ToLowerChar(s[i])
  {
    seq(|s|, i requires 0 <= i < |s| => ToLowerChar(s[i]))
  }

  /**
   Simple case folding of c against a lower-case ASCII letter (or any caseless
   character). Two letters have a third form: the Kelvin sign folds to k and the
   long s folds to s.
   */
  predicate FoldsTo(c: char, l: char) {
    ToLowerChar(c) == l || (l == 'k' && c == '\U{212A}') || (l == 's' && c == '\U{17F}')
  }

  /** strings.EqualFold against a lower-case ASCII word. */
  predicate EqualFold(s: string, word: string) {
    |s| == |word| && forall i :: 0 <= i < |s| ==> FoldsTo(s[i], word[i])
  }

  /** Go's < on strings. */
  predicate Less(a: string, b: string) {
    b != "" && (a == "" || a[0] < b[0] || (a[0] == b[0] && Less(a[1..], b[1..])))
  }

  lemma {:induction false} LessTrichotomy(a: string, b: string)
    ensures a == b ==> !Less(a, b)
    ensures Less(a, b) ==> !Less(b, a)
    ensures a == b || Less(a, b) || Less(b, a)
  {
    if a != "" && b != "" && a[0] == b[0] {
      LessTrichotomy(a[1..], b[1..]);
      assert a == [a[0]] + a[1..] && b == [b[0]] + b[1..];
    }
  }

  lemma {:induction false} LessTransitive(a: string, b: string, c: string)
    requires Less(a, b) && Less(b, c)
    ensures Less(a, c)
  {
    if a != "" && a[0] == b[0] == c[0] {
      LessTransitive(a[1..], b[1..], c[1..]);
    }
  }

  /** Go's cmp.Compare on strings. */
  function CompareStrings(a: string, b: string): int {
    if Less(a, b) then -1 else if Less(b, a) then 1 else 0
  }

  predicate IsDigit(c: char) {
    '0' <= c <= '9'
  }

  /** One or more ASCII digits. */
  predicate AllDigits(s: string) {
    s != "" && forall i :: 0 <= i < |s| ==> IsDigit(s[i])
  }

  function DigitChar(d: nat): char
    requires d < 10
  {
    ('0' as int + d) as char
  }

  /** The decimal digits of n, without leading zeros. */
  function FormatNat(n: nat): (s: string)
    ensures AllDigits(s)
  {
    if n < 10 then [DigitChar(n)] else FormatNat(n / 10) + [DigitChar(n % 10)]
  }

  /** strconv.FormatInt in base 10. */
  function FormatInt(n: int): string {
    if n < 0 then "-" + FormatNat(-n) else FormatNat(n)
  }

  /** The number that decimal digits stand for. */
  function DigitsValue(s: string): int {
    if s == "" then 0 else DigitsValue(s[..|s| - 1]) * 10 + (s[|s| - 1] as int - '0' as int)
  }

  lemma {:induction false} DigitsRoundTrip(n: nat)
    ensures DigitsValue(FormatNat(n)) == n
    ensures AllDigits(FormatNat(n))
    decreases n
  {
    var s := FormatNat(n);
    if n >= 10 {
      DigitsRoundTrip(n / 10);
      assert s[..|s| - 1] == FormatNat(n / 10);
    } else {
      assert s[..|s| - 1] == "";
    }
  }
}
