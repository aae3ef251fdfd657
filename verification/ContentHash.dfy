/**
 The bytes the content hash covers: two JSON objects with an optional number between
 them, written one after another without separators. They still decode in one way.
 */
module ContentHash {
  import opened Text

  /** A member of a JSON object: key and value, both strings. */
  type Member = (string, string)

  // ----- JSON text -----

  function HexDigit(d: nat): char
    requires d < 16
  {
    if d < 10 then DigitChar(d) else ('a' as int + d - 10) as char
  }

  function HexValue(c: char): Option<nat> {
    if '0' <= c <= '9' then Some(c as int - '0' as int)
    else if 'a' <= c <= 'f' then Some(c as int - 'a' as int + 10)
    else None
  }

  /** How encoding/json writes one character of a string. */
  function EscapeChar(c: char): (s: string)
    ensures s != "" && s[0] != '"'
  {
    if c == '"' then "\\\""
    else if c == '\\' then "\\\\"
    else if c == '\n' then "\\n"
    else if c == '\r' then "\\r"
    else if c == '\t' then "\\t"
    else if c == '\U{8}' then "\\b"
    else if c == '\U{C}' then "\\f"
    else if c < ' ' || c == '<' || c == '>' || c == '&' then
      "\\u00" + [HexDigit(c as int / 16), HexDigit(c as int % 16)]
    else if c == '\U{2028}' then "\\u2028"
    else if c == '\U{2029}' then "\\u2029"
    else [c]
  }

  function Escape(s: string): string {
    if s == "" then "" else EscapeChar(s[0]) + Escape(s[1..])
  }

  function Quoted(s: string): string {
    "\"" + s + "\""
  }

  function MemberText(m: Member): string {
    Quoted(Escape(m.0)) + (":" + Quoted(Escape(m.1)))
  }

  function TailText(ms: seq<Member>): string {
    if ms == [] then "}" else "," + (MemberText(ms[0]) + TailText(ms[1..]))
  }

  function ObjectText(ms: seq<Member>): string {
    if ms == [] then "{}" else "{" + (MemberText(ms[0]) + TailText(ms[1..]))
  }

  // ----- Reading it back -----

  predicate StartsWith(s: string, c: char) {
    s != "" && s[0] == c
  }

  function ReadShort(c: char): Option<char> {
    match c
    case '"' => Some('"')
    case '\\' => Some('\\')
    case 'n' => Some('\n')
    case 'r' => Some('\r')
    case 't' => Some('\t')
    case 'b' => Some('\U{8}')
    case 'f' => Some('\U{C}')
    case _ => None
  }

  function ReadHex(s: string): Option<char>
    requires |s| == 4
  {
    var a, b, c, d := HexValue(s[0]), HexValue(s[1]), HexValue(s[2]), HexValue(s[3]);
    if a.None? || b.None? || c.None? || d.None? then None
    else
      var n := ((a.value * 16 + b.value) * 16 + c.value) * 16 + d.value;
      if 0xD800 <= n < 0xE000 then None else Some(n as char)
  }

  /** One character of a string, and what follows it. */
  function ReadChar(s: string): (r: Option<(char, string)>)
    ensures r.Some? ==> |r.value.1| < |s|
  {
    if s == "" || s[0] == '"' then None
    else if s[0] != '\\' then Some((s[0], s[1..]))
    else if |s| < 2 then None
    else if s[1] == 'u' then
      if |s| < 6 then None
      else
        var c := ReadHex(s[2..6]);
        if c.None? then None else Some((c.value, s[6..]))
    else
      var c := ReadShort(s[1]);
      if c.None? then None else Some((c.value, s[2..]))
  }

  /** The rest of a string up to its closing quote, and what follows. */
  function ReadString(s: string): (r: Option<(string, string)>)
    ensures r.Some? ==> |r.value.1| < |s|
    decreases |s|
  {
    if s != "" && s[0] == '"' then Some(("", s[1..]))
    else
      var c := ReadChar(s);
      if c.None? then None
      else
        var rest := ReadString(c.value.1);
        if rest.None? then None else Some(([c.value.0] + rest.value.0, rest.value.1))
  }

  function ReadMember(s: string): (r: Option<(Member, string)>)
    ensures r.Some? ==> |r.value.1| < |s|
  {
    if !StartsWith(s, '"') then None
    else
      var key := ReadString(s[1..]);
      if key.None? || !StartsWith(key.value.1, ':') || !StartsWith(key.value.1[1..], '"') then None
      else
        var value := ReadString(key.value.1[1..][1..]);
        if value.None? then None else Some(((key.value.0, value.value.0), value.value.1))
  }

  function ReadTail(s: string): Option<(seq<Member>, string)>
    decreases |s|
  {
    if StartsWith(s, '}') then Some(([], s[1..]))
    else if !StartsWith(s, ',') then None
    else
      var m := ReadMember(s[1..]);
      if m.None? then None
      else
        var rest := ReadTail(m.value.1);
        if rest.None? then None else Some(([m.value.0] + rest.value.0, rest.value.1))
  }

  /** The object at the start of the text, and what follows it. */
  function ReadObject(s: string): Option<(seq<Member>, string)> {
    if !StartsWith(s, '{') then None
    else if StartsWith(s[1..], '}') then Some(([], s[1..][1..]))
    else
      var m := ReadMember(s[1..]);
      if m.None? then None
      else
        var rest := ReadTail(m.value.1);
        if rest.None? then None else Some(([m.value.0] + rest.value.0, rest.value.1))
  }

  lemma ReadEscaped(c: char, rest: string)
    ensures ReadChar(EscapeChar(c) + rest) == Some((c, rest))
  {
    var e := EscapeChar(c);
    var s := e + rest;
    assert s[|e|..] == rest;
    if |e| == 6 {
      assert s[2..6] == e[2..6];
      HexRoundTrip(c);
    }
  }

  lemma HexRoundTrip(c: char)
    requires |EscapeChar(c)| == 6
    ensures ReadHex(EscapeChar(c)[2..6]) == Some(c)
  {}

  /** An escaped string holds no control character, none that matters in HTML, and no line separator of JavaScript. */
  lemma {:induction false} EscapedIsPlain(s: string)
    ensures forall c :: c in Escape(s) ==>
              c >= ' ' && c != '<' && c != '>' && c != '&' && c != '\U{2028}' && c != '\U{2029}'
  {
    if s != "" { EscapedIsPlain(s[1..]); }
  }

  lemma {:induction false} ReadEscapedString(t: string, rest: string)
    ensures ReadString(Escape(t) + ("\"" + rest)) == Some((t, rest))
  {
    if t == "" {
      assert Escape(t) + ("\"" + rest) == "\"" + rest;
    } else {
      var after := Escape(t[1..]) + ("\"" + rest);
      assert Escape(t) + ("\"" + rest) == EscapeChar(t[0]) + after;
      ReadEscaped(t[0], after);
      ReadEscapedString(t[1..], rest);
      assert [t[0]] + t[1..] == t;
    }
  }

  lemma Behead(c: char, s: string, rest: string)
    ensures StartsWith(([c] + s) + rest, c) && (([c] + s) + rest)[1..] == s + rest
  {}

  lemma QuotedText(s: string, rest: string)
    ensures Quoted(s) + rest == "\"" + (s + ("\"" + rest))
  {}

  lemma Associative(a: string, b: string, c: string)
    ensures (a + b) + c == a + (b + c)
  {}

  lemma ReadQuoted(t: string, rest: string)
    ensures var s := Quoted(Escape(t)) + rest;
            StartsWith(s, '"') && ReadString(s[1..]) == Some((t, rest))
  {
    QuotedText(Escape(t), rest);
    ReadEscapedString(t, rest);
    assert (Quoted(Escape(t)) + rest)[1..] == Escape(t) + ("\"" + rest);
  }

  lemma ReadMemberText(m: Member, rest: string)
    ensures StartsWith(MemberText(m) + rest, '"')
    ensures ReadMember(MemberText(m) + rest) == Some((m, rest))
  {
    var value := Quoted(Escape(m.1));
    Associative(Quoted(Escape(m.0)), ":" + value, rest);
    ReadQuoted(m.0, (":" + value) + rest);
    Behead(':', value, rest);
    ReadQuoted(m.1, rest);
  }

  /** A member and the members after it, up to the closing brace. */
  lemma {:induction false} ReadMembersText(ms: seq<Member>, rest: string)
    requires ms != []
    ensures var s := (MemberText(ms[0]) + TailText(ms[1..])) + rest;
            && StartsWith(s, '"') && ReadMember(s).Some? && ReadMember(s).value.0 == ms[0]
            && ReadTail(ReadMember(s).value.1) == Some((ms[1..], rest))
    decreases |ms|
  {
    var after := TailText(ms[1..]) + rest;
    assert (MemberText(ms[0]) + TailText(ms[1..])) + rest == MemberText(ms[0]) + after;
    ReadMemberText(ms[0], after);
    if |ms| == 1 {
      assert after[1..] == rest;
    } else {
      ReadMembersText(ms[1..], rest);
      Behead(',', MemberText(ms[1]) + TailText(ms[2..]), rest);
      assert ms[1..][1..] == ms[2..] && [ms[1]] + ms[2..] == ms[1..];
    }
  }

  /** Objects are prefix-free: reading one back stops where it ends, whatever follows. */
  lemma ReadObjectText(ms: seq<Member>, rest: string)
    ensures ReadObject(ObjectText(ms) + rest) == Some((ms, rest))
  {
    if ms == [] {
      Behead('{', "}", rest);
      Behead('}', "", rest);
      assert "" + rest == rest;
    } else {
      ReadMembersText(ms, rest);
      Behead('{', MemberText(ms[0]) + TailText(ms[1..]), rest);
      assert [ms[0]] + ms[1..] == ms;
    }
  }

  // ----- Numbers -----

  function NumberValue(s: string): int {
    if StartsWith(s, '-') then -DigitsValue(s[1..]) else DigitsValue(s)
  }

  lemma NumberRoundTrip(n: int)
    ensures NumberValue(FormatInt(n)) == n
    ensures FormatInt(n) != "" && '{' !in FormatInt(n)
  {
    if n < 0 {
      DigitsRoundTrip(-n);
      assert ("-" + FormatNat(-n))[1..] == FormatNat(-n);
    } else {
      DigitsRoundTrip(n);
    }
  }

  // ----- The hash input -----

  /** What HashVersions writes to the hash, in order. */
  method HashVersions(versionsText: string, trunk: Option<int>, timesText: Option<string>) returns (written: string)
    ensures written == HashInput(versionsText, trunk, timesText)
  {
    written := versionsText;
    if trunk.Some? { written := written + FormatInt(trunk.value); }
    if timesText.Some? { written := written + timesText.value; }
    assert written == HashInput(versionsText, trunk, timesText);
  }

  function HashInput(versionsText: string, trunk: Option<int>, timesText: Option<string>): string {
    versionsText +
    ((if trunk.Some? then FormatInt(trunk.value) else "") + (if timesText.Some? then timesText.value else ""))
  }

  datatype Content = Content(versions: seq<Member>, trunk: Option<int>, times: Option<seq<Member>>)

  function TimesText(times: Option<seq<Member>>): Option<string> {
    if times.Some? then Some(ObjectText(times.value)) else None
  }

  function Encode(c: Content): string {
    HashInput(ObjectText(c.versions), c.trunk, TimesText(c.times))
  }

  /** Reads the parts back: an object, a number up to the next brace, an object. */
  function Decode(s: string): Option<Content> {
    var versions := ReadObject(s);
    if versions.None? then None
    else
      var rest := versions.value.1;
      var cut := IndexOf(rest, '{');
      var trunk := if cut == 0 then None else Some(NumberValue(rest[..cut]));
      if cut == |rest| then Some(Content(versions.value.0, trunk, None))
      else
        var times := ReadObject(rest[cut..]);
        if times.None? then None else Some(Content(versions.value.0, trunk, Some(times.value.0)))
  }

  lemma {:induction false} IndexOfSplit(a: string, b: string, c: char)
    requires c !in a && (b == "" || b[0] == c)
    ensures IndexOf(a + b, c) == |a|
  {
    if a == "" {
      assert a + b == b;
    } else {
      IndexOfSplit(a[1..], b, c);
      assert (a + b)[1..] == a[1..] + b;
    }
  }

  /** The hash input of any content decodes to that content. */
  lemma DecodeEncode(c: Content)
    ensures Decode(Encode(c)) == Some(c)
  {
    var number := if c.trunk.Some? then FormatInt(c.trunk.value) else "";
    var times := if c.times.Some? then ObjectText(c.times.value) else "";
    ReadObjectText(c.versions, number + times);
    if c.trunk.Some? { NumberRoundTrip(c.trunk.value); }
    IndexOfSplit(number, times, '{');
    assert (number + times)[..|number|] == number && (number + times)[|number|..] == times;
    if c.times.Some? {
      ReadObjectText(c.times.value, "");
      assert times + "" == times;
    }
  }

  // ----- Maps -----

  /** The members of a map in the order json.Marshal writes them: by key, each once. */
  ghost predicate IsListing(m: map<string, string>, ms: seq<Member>) {
    && (forall i, j :: 0 <= i < j < |ms| ==> Less(ms[i].0, ms[j].0))
    && (forall i :: 0 <= i < |ms| ==> ms[i].0 in m && m[ms[i].0] == ms[i].1)
    && forall k :: k in m ==> (k, m[k]) in ms
  }

  lemma {:induction false} LeastKey(keys: set<string>) returns (least: string)
    requires keys != {}
    ensures least in keys && forall k :: k in keys ==> k == least || Less(least, k)
  {
    least := Pick(keys);
    if keys != {least} {
      var other := LeastKey(keys - {least});
      LessTrichotomy(least, other);
      var first := least;
      if Less(other, least) { least := other; }
      forall k | k in keys ensures k == least || Less(least, k) {
        if k != first && least == first && k != other { LessTransitive(first, other, k); }
      }
    }
  }

  lemma {:induction false} ListingExists(m: map<string, string>) returns (ms: seq<Member>)
    ensures IsListing(m, ms)
    decreases |m|
  {
    if m == map[] {
      ms := [];
    } else {
      assert m.Keys != {};
      var k := LeastKey(m.Keys);
      var rest := ListingExists(m - {k});
      ms := [(k, m[k])] + rest;
      forall key | key in m ensures (key, m[key]) in ms {
        if key != k { assert (key, (m - {k})[key]) in rest; }
      }
    }
  }

  lemma {:induction false} ListingIsUnique(m: map<string, string>, a: seq<Member>, b: seq<Member>)
    requires IsListing(m, a) && IsListing(m, b)
    ensures a == b
    decreases |a|
  {
    if b != [] { assert (b[0].0, b[0].1) in a; }
    if a != [] {
      assert (a[0].0, a[0].1) in b;
      var i :| 0 <= i < |a| && a[i] == b[0];
      var j :| 0 <= j < |b| && b[j] == a[0];
      LessTrichotomy(a[0].0, b[0].0);
      assert a[0] == b[0];
      TailIsListing(m, a);
      TailIsListing(m, b);
      ListingIsUnique(m - {a[0].0}, a[1..], b[1..]);
    }
  }

  lemma TailIsListing(m: map<string, string>, ms: seq<Member>)
    requires IsListing(m, ms) && ms != []
    ensures IsListing(m - {ms[0].0}, ms[1..])
  {
    forall i | 1 <= i < |ms| ensures ms[i].0 != ms[0].0 {
      LessTrichotomy(ms[0].0, ms[i].0);
    }
    forall k | k in m && k != ms[0].0 ensures (k, m[k]) in ms[1..] {
      var i :| 0 <= i < |ms| && ms[i] == (k, m[k]);
      assert ms[1..][i - 1] == (k, m[k]);
    }
  }

  /** json.Marshal of a map of strings. */
  ghost function Marshal(m: map<string, string>): (text: string)
    ensures exists ms :: IsListing(m, ms) && text == ObjectText(ms)
  {
    var ms := ListingOf(m);
    ObjectText(ms)
  }

  ghost function ListingOf(m: map<string, string>): (ms: seq<Member>)
    ensures IsListing(m, ms)
  {
    assert exists ms :: IsListing(m, ms) by { var ms := ListingExists(m); }
    var ms :| IsListing(m, ms);
    ms
  }

  ghost function MarshalTimes(times: Option<map<string, string>>): Option<string> {
    if times.Some? then Some(Marshal(times.value)) else None
  }

  /**
   The hash input tells contents apart: equal inputs come from equal versions, equal
   trunk revisions and equal published times, present or absent alike.
   */
  lemma HashInputIsInjective(
    versions: map<string, string>, trunk: Option<int>, times: Option<map<string, string>>,
    versions': map<string, string>, trunk': Option<int>, times': Option<map<string, string>>)
    requires HashInput(Marshal(versions), trunk, MarshalTimes(times)) ==
             HashInput(Marshal(versions'), trunk', MarshalTimes(times'))
    ensures versions == versions' && trunk == trunk' && times == times'
  {
    var a := ContentOf(versions, trunk, times);
    var b := ContentOf(versions', trunk', times');
    DecodeEncode(a);
    DecodeEncode(b);
    SameListing(versions, versions', a.versions);
    if times.Some? && times'.Some? { SameListing(times.value, times'.value, a.times.value); }
  }

  ghost function ContentOf(
    versions: map<string, string>, trunk: Option<int>, times: Option<map<string, string>>): (c: Content)
    ensures Encode(c) == HashInput(Marshal(versions), trunk, MarshalTimes(times))
  {
    Content(ListingOf(versions), trunk, if times.Some? then Some(ListingOf(times.value)) else None)
  }

  lemma SameListing(m: map<string, string>, n: map<string, string>, ms: seq<Member>)
    requires IsListing(m, ms) && IsListing(n, ms)
    ensures m == n
  {}

  /** Arbitrary strings would collide: the JSON form of the parts is what keeps them apart. */
  lemma RawPartsCollide()
    ensures HashInput("{}", Some(1), None) == HashInput("{}1", None, None)
    ensures HashInput("{}", None, Some("12")) == HashInput("{}", Some(12), None)
  {
    assert FormatInt(1) == "1";
    assert FormatNat(12) == FormatNat(1) + "2";
    assert FormatInt(12) == "12";
  }
}
