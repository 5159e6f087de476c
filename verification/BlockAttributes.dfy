/** The `name="value"` attribute runs of `src/shared/block-attributes.ts`: four
    sequential entity replacements each way, a printer, and the global-regex scanner. */
module BlockAttributes {

  // ------------------------------------------------------------- replaceAll

  /** `String.replaceAll` with a string pattern: leftmost, non-overlapping. */
  function ReplaceAll(s: string, pattern: string, text: string): string
    requires |pattern| > 0
  {
    if s == [] then []
    else if pattern <= s then text + ReplaceAll(s[|pattern|..], pattern, text)
    else [s[0]] + ReplaceAll(s[1..], pattern, text)
  }

  function Escape(value: string): string {
    var s1 := ReplaceAll(value, "&", "&amp;");
    var s2 := ReplaceAll(s1, "\"", "&quot;");
    var s3 := ReplaceAll(s2, "<", "&lt;");
    ReplaceAll(s3, ">", "&gt;")
  }

  function Unescape(value: string): string {
    var s1 := ReplaceAll(value, "&quot;", "\"");
    var s2 := ReplaceAll(s1, "&lt;", "<");
    var s3 := ReplaceAll(s2, "&gt;", ">");
    ReplaceAll(s3, "&amp;", "&")
  }

  // ------------------------------------------------- simultaneous references

  function EntityOf(c: char): string {
    if c == '&' then "&amp;"
    else if c == '\"' then "&quot;"
    else if c == '<' then "&lt;"
    else if c == '>' then "&gt;"
    else [c]
  }

  /** Every character replaced at once. */
  function Encode(s: string): string {
    if s == [] then [] else EntityOf(s[0]) + Encode(s[1..])
  }

  /** Entities read off left to right, each character looked at once. */
  function Decode(s: string): string {
    if s == [] then []
    else if "&quot;" <= s then "\"" + Decode(s[6..])
    else if "&lt;" <= s then "<" + Decode(s[4..])
    else if "&gt;" <= s then ">" + Decode(s[4..])
    else if "&amp;" <= s then "&" + Decode(s[5..])
    else [s[0]] + Decode(s[1..])
  }

  // ------------------------------------------------------- replaceAll lemmas

  lemma ReplaceHead(pattern: string, rest: string, text: string)
    requires |pattern| > 0
    ensures ReplaceAll(pattern + rest, pattern, text) == text + ReplaceAll(rest, pattern, text)
  {
    assert (pattern + rest)[|pattern|..] == rest;
  }

  /** A stretch without the pattern's first character is copied. */
  lemma {:induction false} ReplaceSkips(w: string, rest: string, pattern: string, text: string)
    requires |pattern| > 0 && pattern[0] !in w
    ensures ReplaceAll(w + rest, pattern, text) == w + ReplaceAll(rest, pattern, text)
  {
    if w == [] {
      assert w + rest == rest;
    } else {
      assert w[0] in w;
      ReplaceSkips(w[1..], rest, pattern, text);
      assert (w + rest)[1..] == w[1..] + rest;
      assert w == [w[0]] + w[1..];
      assert !(pattern <= w + rest);
    }
  }

  /** A stretch starting with '&' whose next character already differs is copied. */
  lemma ReplaceSkipsEntity(w: string, rest: string, pattern: string, text: string)
    requires |pattern| > 1 && |w| > 1
    requires w[0] == pattern[0] == '&' && w[1] != pattern[1] && '&' !in w[1..]
    ensures ReplaceAll(w + rest, pattern, text) == w + ReplaceAll(rest, pattern, text)
  {
    assert (w + rest)[0] == w[0] && (w + rest)[1] == w[1];
    assert !(pattern <= w + rest);
    assert (w + rest)[1..] == w[1..] + rest;
    ReplaceSkips(w[1..], rest, pattern, text);
    assert w == [w[0]] + w[1..];
  }

  /** A replacement creates no new occurrence of a word that lacks its first character. */
  lemma {:induction false} NoNewPrefix(s: string, pattern: string, text: string, word: string)
    requires |pattern| > 0 && |text| > 0 && text[0] !in word
    requires word <= ReplaceAll(s, pattern, text)
    ensures word <= s
  {
    if word != [] {
      assert word[0] in word;
      if s != [] && !(pattern <= s) {
        var rest := ReplaceAll(s[1..], pattern, text);
        assert word[1..] <= rest by {
          assert ([s[0]] + rest)[1..] == rest;
        }
        NoNewPrefix(s[1..], pattern, text, word[1..]);
        assert s == [s[0]] + s[1..] && word == [word[0]] + word[1..];
      }
    }
  }

  // --------------------------------------------------------------- unescape

  lemma UnescapePlain(c: char, rest: string)
    requires c != '&'
    ensures Unescape([c] + rest) == [c] + Unescape(rest)
  {
    var s1 := ReplaceAll(rest, "&quot;", "\"");
    var s2 := ReplaceAll(s1, "&lt;", "<");
    var s3 := ReplaceAll(s2, "&gt;", ">");
    ReplaceSkips([c], rest, "&quot;", "\"");
    ReplaceSkips([c], s1, "&lt;", "<");
    ReplaceSkips([c], s2, "&gt;", ">");
    ReplaceSkips([c], s3, "&amp;", "&");
  }

  lemma UnescapeQuot(rest: string)
    ensures Unescape("&quot;" + rest) == "\"" + Unescape(rest)
  {
    var s1 := ReplaceAll(rest, "&quot;", "\"");
    var s2 := ReplaceAll(s1, "&lt;", "<");
    var s3 := ReplaceAll(s2, "&gt;", ">");
    ReplaceHead("&quot;", rest, "\"");
    ReplaceSkips("\"", s1, "&lt;", "<");
    ReplaceSkips("\"", s2, "&gt;", ">");
    ReplaceSkips("\"", s3, "&amp;", "&");
  }

  lemma UnescapeLt(rest: string)
    ensures Unescape("&lt;" + rest) == "<" + Unescape(rest)
  {
    var s1 := ReplaceAll(rest, "&quot;", "\"");
    var s2 := ReplaceAll(s1, "&lt;", "<");
    var s3 := ReplaceAll(s2, "&gt;", ">");
    ReplaceSkipsEntity("&lt;", rest, "&quot;", "\"");
    ReplaceHead("&lt;", s1, "<");
    ReplaceSkips("<", s2, "&gt;", ">");
    ReplaceSkips("<", s3, "&amp;", "&");
  }

  lemma UnescapeGt(rest: string)
    ensures Unescape("&gt;" + rest) == ">" + Unescape(rest)
  {
    var s1 := ReplaceAll(rest, "&quot;", "\"");
    var s2 := ReplaceAll(s1, "&lt;", "<");
    var s3 := ReplaceAll(s2, "&gt;", ">");
    ReplaceSkipsEntity("&gt;", rest, "&quot;", "\"");
    ReplaceSkipsEntity("&gt;", s1, "&lt;", "<");
    ReplaceHead("&gt;", s2, ">");
    ReplaceSkips(">", s3, "&amp;", "&");
  }

  lemma UnescapeAmp(rest: string)
    ensures Unescape("&amp;" + rest) == "&" + Unescape(rest)
  {
    var s1 := ReplaceAll(rest, "&quot;", "\"");
    var s2 := ReplaceAll(s1, "&lt;", "<");
    var s3 := ReplaceAll(s2, "&gt;", ">");
    ReplaceSkipsEntity("&amp;", rest, "&quot;", "\"");
    ReplaceSkipsEntity("&amp;", s1, "&lt;", "<");
    ReplaceSkipsEntity("&amp;", s2, "&gt;", ">");
    ReplaceHead("&amp;", s3, "&");
  }

  /** One pass leaves a '&' alone when what follows it does not complete the pattern. */
  lemma BareAmpersand(rest: string, tail: string, text: string)
    requires !(tail <= rest)
    ensures ReplaceAll("&" + rest, "&" + tail, text) == "&" + ReplaceAll(rest, "&" + tail, text)
  {
    AmpersandPrefix(tail, rest);
    assert ("&" + rest)[1..] == rest;
  }

  lemma StillNoPrefix(s: string, pattern: string, text: string, word: string)
    requires |pattern| > 0 && |text| > 0 && text[0] !in word
    requires !(word <= s)
    ensures !(word <= ReplaceAll(s, pattern, text))
  {
    if word <= ReplaceAll(s, pattern, text) { NoNewPrefix(s, pattern, text, word); }
  }

  lemma UnescapeBare(rest: string)
    requires !("quot;" <= rest) && !("lt;" <= rest) && !("gt;" <= rest) && !("amp;" <= rest)
    ensures Unescape("&" + rest) == "&" + Unescape(rest)
  {
    var s1 := ReplaceAll(rest, "&quot;", "\"");
    var s2 := ReplaceAll(s1, "&lt;", "<");
    var s3 := ReplaceAll(s2, "&gt;", ">");
    StillNoPrefix(rest, "&quot;", "\"", "lt;");
    StillNoPrefix(rest, "&quot;", "\"", "gt;");
    StillNoPrefix(rest, "&quot;", "\"", "amp;");
    StillNoPrefix(s1, "&lt;", "<", "gt;");
    StillNoPrefix(s1, "&lt;", "<", "amp;");
    StillNoPrefix(s2, "&gt;", ">", "amp;");
    assert "&" + "quot;" == "&quot;" && "&" + "lt;" == "&lt;" && "&" + "gt;" == "&gt;" && "&" + "amp;" == "&amp;";
    BareAmpersand(rest, "quot;", "\"");
    BareAmpersand(s1, "lt;", "<");
    BareAmpersand(s2, "gt;", ">");
    BareAmpersand(s3, "amp;", "&");
  }

  lemma PrefixSplit(p: string, s: string)
    requires p <= s
    ensures s == p + s[|p|..]
  {}

  lemma AmpersandPrefix(tail: string, rest: string)
    ensures "&" + tail <= "&" + rest <==> tail <= rest
  {
    assert ("&" + rest)[1..] == rest && ("&" + tail)[1..] == tail;
    if "&" + tail <= "&" + rest {
      assert tail == ("&" + rest)[..|"&" + tail|][1..] == rest[..|tail|];
    }
  }

  /** On every string, escaped or not, the four passes with `&amp;` last are one
      simultaneous left-to-right decode. */
  lemma {:induction false} UnescapeIsDecode(s: string)
    ensures Unescape(s) == Decode(s)
  {
    if s == [] {
    } else if "&quot;" <= s {
      PrefixSplit("&quot;", s); UnescapeQuot(s[6..]); UnescapeIsDecode(s[6..]);
    } else if "&lt;" <= s {
      PrefixSplit("&lt;", s); UnescapeLt(s[4..]); UnescapeIsDecode(s[4..]);
    } else if "&gt;" <= s {
      PrefixSplit("&gt;", s); UnescapeGt(s[4..]); UnescapeIsDecode(s[4..]);
    } else if "&amp;" <= s {
      PrefixSplit("&amp;", s); UnescapeAmp(s[5..]); UnescapeIsDecode(s[5..]);
    } else {
      UnescapeIsDecode(s[1..]);
      assert s == [s[0]] + s[1..];
      if s[0] == '&' {
        assert "&" + "quot;" == "&quot;" && "&" + "lt;" == "&lt;" && "&" + "gt;" == "&gt;" && "&" + "amp;" == "&amp;";
        assert s == "&" + s[1..];
        AmpersandPrefix("quot;", s[1..]); AmpersandPrefix("lt;", s[1..]);
        AmpersandPrefix("gt;", s[1..]); AmpersandPrefix("amp;", s[1..]);
        UnescapeBare(s[1..]);
      } else {
        UnescapePlain(s[0], s[1..]);
      }
    }
  }

  // ----------------------------------------------------------------- escape

  lemma EscapeOne(c: char, rest: string)
    ensures Escape([c] + rest) == EntityOf(c) + Escape(rest)
  {
    var s1 := ReplaceAll(rest, "&", "&amp;");
    var s2 := ReplaceAll(s1, "\"", "&quot;");
    var s3 := ReplaceAll(s2, "<", "&lt;");
    if c == '&' {
      ReplaceHead("&", rest, "&amp;");
      ReplaceSkips("&amp;", s1, "\"", "&quot;");
      ReplaceSkips("&amp;", s2, "<", "&lt;");
      ReplaceSkips("&amp;", s3, ">", "&gt;");
    } else {
      ReplaceSkips([c], rest, "&", "&amp;");
      if c == '\"' {
        ReplaceHead("\"", s1, "&quot;");
        ReplaceSkips("&quot;", s2, "<", "&lt;");
        ReplaceSkips("&quot;", s3, ">", "&gt;");
      } else {
        ReplaceSkips([c], s1, "\"", "&quot;");
        if c == '<' {
          ReplaceHead("<", s2, "&lt;");
          ReplaceSkips("&lt;", s3, ">", "&gt;");
        } else {
          ReplaceSkips([c], s2, "<", "&lt;");
          if c == '>' { ReplaceHead(">", s3, "&gt;"); } else { ReplaceSkips([c], s3, ">", "&gt;"); }
        }
      }
    }
  }

  /** The four escape passes with `&` first replace every character exactly once. */
  lemma {:induction false} EscapeIsEncode(s: string)
    ensures Escape(s) == Encode(s)
  {
    if s != [] {
      EscapeIsEncode(s[1..]);
      EscapeOne(s[0], s[1..]);
      assert s == [s[0]] + s[1..];
    }
  }

  lemma DecodeEntity(c: char, rest: string)
    ensures Decode(EntityOf(c) + rest) == [c] + Decode(rest)
  {
    var s := EntityOf(c) + rest;
    assert s[|EntityOf(c)|..] == rest;
    if c == '&' {
      assert s[1] == 'a';
    } else if c == '<' {
      assert s[1] == 'l';
    } else if c == '>' {
      assert s[1] == 'g';
    }
  }

  lemma {:induction false} DecodeEncode(s: string)
    ensures Decode(Encode(s)) == s
  {
    if s != [] {
      DecodeEncode(s[1..]);
      DecodeEntity(s[0], Encode(s[1..]));
    }
  }

  /** Unescape undoes escape, whatever the value spells out. */
  lemma UnescapeEscape(s: string)
    ensures Unescape(Escape(s)) == s
  {
    EscapeIsEncode(s);
    UnescapeIsDecode(Escape(s));
    DecodeEncode(s);
  }

  /** Nothing that could end an attribute or its block survives escaping. */
  lemma {:induction false} EscapedIsInert(s: string)
    ensures '\"' !in Escape(s) && '<' !in Escape(s) && '>' !in Escape(s)
  {
    EscapeIsEncode(s);
    if s != [] {
      EscapeIsEncode(s[1..]);
      EscapedIsInert(s[1..]);
    }
  }

  // ------------------------------------------------------------ the scanner

  predicate IsLower(c: char) { 'a' <= c <= 'z' }

  predicate IsLetter(c: char) { IsLower(c) || 'A' <= c <= 'Z' }

  /** `[a-z][a-zA-Z]*` as a whole word. */
  ghost predicate ValidName(name: string) {
    |name| > 0 && IsLower(name[0]) && forall c :: c in name ==> IsLetter(c)
  }

  function LetterRun(s: string): (n: nat)
    ensures n <= |s|
  {
    if s != [] && IsLetter(s[0]) then 1 + LetterRun(s[1..]) else 0
  }

  function UnquotedRun(s: string): (n: nat)
    ensures n <= |s|
  {
    if s != [] && s[0] != '\"' then 1 + UnquotedRun(s[1..]) else 0
  }

  datatype Match = NoMatch | Match(name: string, value: string, end: nat)

  /** The attribute regex tried at the head of `s`, both repetitions greedy. */
  function MatchAt(s: string): (m: Match)
    ensures m.Match? ==> 3 < m.end <= |s|
  {
    if s == [] || !IsLower(s[0]) then NoMatch
    else
      var n := LetterRun(s);
      if |s| < n + 2 || s[n] != '=' || s[n + 1] != '\"' then NoMatch
      else
        var v := UnquotedRun(s[n + 2..]);
        if n + 2 + v == |s| then NoMatch
        else Match(s[..n], s[n + 2..n + 2 + v], n + v + 3)
  }

  function Printed(name: string, value: string): string {
    name + "=\"" + value + "\""
  }

  lemma {:induction false} LetterRunOf(name: string, rest: string)
    requires forall c :: c in name ==> IsLetter(c)
    requires rest != [] && !IsLetter(rest[0])
    ensures LetterRun(name + rest) == |name|
  {
    if name == [] {
      assert name + rest == rest;
    } else {
      assert name[0] in name;
      LetterRunOf(name[1..], rest);
      assert (name + rest)[1..] == name[1..] + rest;
    }
  }

  lemma {:induction false} UnquotedRunOf(value: string, rest: string)
    requires '\"' !in value
    requires rest != [] && rest[0] == '\"'
    ensures UnquotedRun(value + rest) == |value|
  {
    if value == [] {
      assert value + rest == rest;
    } else {
      assert value[0] in value;
      UnquotedRunOf(value[1..], rest);
      assert (value + rest)[1..] == value[1..] + rest;
    }
  }

  lemma {:induction false} LetterRunIsLetters(s: string)
    ensures forall c :: c in s[..LetterRun(s)] ==> IsLetter(c)
  {
    if s != [] && IsLetter(s[0]) {
      LetterRunIsLetters(s[1..]);
      assert s[..LetterRun(s)] == [s[0]] + s[1..][..LetterRun(s[1..])];
    }
  }

  lemma {:induction false} UnquotedRunIsUnquoted(s: string)
    ensures '\"' !in s[..UnquotedRun(s)]
    ensures UnquotedRun(s) < |s| ==> s[UnquotedRun(s)] == '\"'
  {
    if s != [] && s[0] != '\"' {
      UnquotedRunIsUnquoted(s[1..]);
      assert s[..UnquotedRun(s)] == [s[0]] + s[1..][..UnquotedRun(s[1..])];
    }
  }

  /** Where the parts of a printed pair lie. */
  lemma PrintedShape(s: string, name: string, value: string, rest: string)
    requires s == Printed(name, value) + rest
    ensures |Printed(name, value)| == |name| + |value| + 3 && s[|name| + |value| + 3..] == rest
    ensures s == name + ("=\"" + value + "\"" + rest) && s[..|name|] == name
    ensures s[|name|] == '=' && s[|name| + 1] == '\"'
    ensures s[|name| + 2..] == value + ("\"" + rest) && s[|name| + 2..|name| + 2 + |value|] == value
  {
  }

  lemma MatchParts(s: string, n: nat, v: nat)
    requires s != "" && IsLower(s[0]) && LetterRun(s) == n
    requires n + v + 3 <= |s| && s[n] == '=' && s[n + 1] == '\"' && UnquotedRun(s[n + 2..]) == v
    ensures MatchAt(s) == Match(s[..n], s[n + 2..n + 2 + v], n + v + 3)
  {
  }

  lemma MatchPrinted(name: string, value: string, rest: string)
    requires ValidName(name) && '\"' !in value
    ensures MatchAt(Printed(name, value) + rest) == Match(name, value, |Printed(name, value)|)
    ensures (Printed(name, value) + rest)[|Printed(name, value)|..] == rest
  {
    var s := Printed(name, value) + rest;
    PrintedShape(s, name, value, rest);
    assert s[0] == name[0];
    LetterRunOf(name, "=\"" + value + "\"" + rest);
    UnquotedRunOf(value, "\"" + rest);
    MatchParts(s, |name|, |value|);
  }

  /** The regex matches at the head in at most one way, so greed and backtracking
      never matter: it finds a name and a value exactly when the text starts with
      that printed pair. */
  lemma MatchExactly(s: string, name: string, value: string)
    ensures ValidName(name) && '\"' !in value && Printed(name, value) <= s
      <==> MatchAt(s) == Match(name, value, |Printed(name, value)|)
  {
    if ValidName(name) && '\"' !in value && Printed(name, value) <= s {
      PrefixSplit(Printed(name, value), s);
      MatchPrinted(name, value, s[|Printed(name, value)|..]);
    }
    if MatchAt(s) == Match(name, value, |Printed(name, value)|) {
      MatchIsPrinted(s);
    }
  }

  lemma MatchIsPrinted(s: string)
    ensures
      var m := MatchAt(s);
      m.Match? ==>
        && ValidName(m.name)
        && '\"' !in m.value
        && Printed(m.name, m.value) <= s
        && m.end == |Printed(m.name, m.value)|
  {
    var m := MatchAt(s);
    if m.Match? {
      var n := LetterRun(s);
      LetterRunIsLetters(s);
      UnquotedRunIsUnquoted(s[n + 2..]);
      assert s[0] == m.name[0];
      assert s[..m.end] == Printed(m.name, m.value);
    }
  }

  /** `matchAll`: leftmost matches, each search resuming where the last match ended. */
  function Scan(s: string): seq<(string, string)>
    decreases |s|
  {
    if s == [] then []
    else
      var m := MatchAt(s);
      if m.Match? then [(m.name, m.value)] + Scan(s[m.end..]) else Scan(s[1..])
  }

  function Collect(pairs: seq<(string, string)>): map<string, string> {
    if pairs == [] then map[]
    else
      var last := pairs[|pairs| - 1];
      Collect(pairs[..|pairs| - 1])[last.0 := Unescape(last.1)]
  }

  method ReadBlockAttributes(raw: string) returns (values: map<string, string>)
    ensures values == Collect(Scan(raw))
  {
    values := map[];
    var s := raw;
    ghost var found: seq<(string, string)> := [];
    while s != []
      invariant Scan(raw) == found + Scan(s)
      invariant values == Collect(found)
      decreases |s|
    {
      var m := MatchAt(s);
      if m.Match? {
        assert (found + [(m.name, m.value)])[..|found|] == found;
        values := values[m.name := Unescape(m.value)];
        found := found + [(m.name, m.value)];
        s := s[m.end..];
      } else {
        s := s[1..];
      }
    }
    assert found + Scan(s) == found;
  }

  /** What a search that begins at k finds there, and where it goes on. */
  ghost predicate FindsAt(s: string, k: nat)
    requires k < |s|
  {
    var m := MatchAt(s[k..]);
    m.Match? && Scan(s) == [(m.name, m.value)] + Scan(s[k..][m.end..])
  }

  lemma ScanMisses(s: string, k: nat)
    requires k + 1 < |s| && MatchAt(s).NoMatch? && FindsAt(s[1..], k)
    ensures FindsAt(s, k + 1)
  {
    assert s[1..][k..] == s[k + 1..];
  }

  /** Searching from the left: up to the first place where the regex matches there is
      nothing to find, and behind that match the search goes on. */
  lemma {:induction false} ScanFindsFirst(s: string, k: nat)
    requires k < |s| && MatchAt(s[k..]).Match?
    requires forall j :: 0 <= j < k ==> MatchAt(s[j..]).NoMatch?
    ensures FindsAt(s, k)
  {
    assert s[0..] == s;
    if k > 0 {
      assert forall j :: 0 <= j < k ==> s[1..][j..] == s[j + 1..];
      ScanFindsFirst(s[1..], k - 1);
      ScanMisses(s, k - 1);
    }
  }

  lemma {:induction false} ScanFindsNothing(s: string)
    requires forall j :: 0 <= j < |s| ==> MatchAt(s[j..]).NoMatch?
    ensures Scan(s) == []
  {
    if s != [] {
      assert s[0..] == s;
      assert forall j :: 0 <= j < |s| - 1 ==> s[1..][j..] == s[j + 1..];
      ScanFindsNothing(s[1..]);
    }
  }

  // ------------------------------------------------------------- round trip

  /** The attributes the printer writes: those with a value. */
  function Present(attributes: seq<(string, string)>): seq<(string, string)> {
    if attributes == [] then []
    else if |attributes[0].1| > 0 then [attributes[0]] + Present(attributes[1..])
    else Present(attributes[1..])
  }

  function Join(parts: seq<string>): string {
    if parts == [] then ""
    else if |parts| == 1 then parts[0]
    else parts[0] + " " + Join(parts[1..])
  }

  function Parts(attributes: seq<(string, string)>): (r: seq<string>)
    ensures |r| == |attributes|
  {
    if attributes == [] then []
    else [Printed(attributes[0].0, Escape(attributes[0].1))] + Parts(attributes[1..])
  }

  function FormatBlockAttributes(attributes: seq<(string, string)>): string {
    Join(Parts(Present(attributes)))
  }

  /** The lookup a reader should see: each present attribute, the last write winning. */
  function Lookup(attributes: seq<(string, string)>): map<string, string> {
    if attributes == [] then map[]
    else
      var last := attributes[|attributes| - 1];
      Lookup(attributes[..|attributes| - 1])[last.0 := last.1]
  }

  ghost predicate Named(attributes: seq<(string, string)>) {
    forall a :: a in attributes ==> ValidName(a.0)
  }

  function Escaped(attributes: seq<(string, string)>): (r: seq<(string, string)>)
    ensures |r| == |attributes|
    ensures forall k :: 0 <= k < |r| ==> r[k] == (attributes[k].0, Escape(attributes[k].1))
  {
    seq(|attributes|, k requires 0 <= k < |attributes| => (attributes[k].0, Escape(attributes[k].1)))
  }

  /** The scan takes a printed pair, skips the space behind it, and goes on. */
  lemma ScanPrinted(name: string, value: string, rest: string)
    requires ValidName(name) && '\"' !in value
    ensures Scan(Printed(name, value)) == [(name, value)]
    ensures Scan(Printed(name, value) + (" " + rest)) == [(name, value)] + Scan(rest)
  {
    MatchPrinted(name, value, "");
    assert Printed(name, value) + "" == Printed(name, value);
    MatchPrinted(name, value, " " + rest);
    assert (" " + rest)[1..] == rest;
    assert Scan(" " + rest) == Scan(rest);
  }

  function Pair(attribute: (string, string)): string { Printed(attribute.0, Escape(attribute.1)) }

  lemma JoinCons(part: string, parts: seq<string>)
    ensures Join([part] + parts) == if parts == [] then part else part + (" " + Join(parts))
  {
    assert ([part] + parts)[1..] == parts;
  }

  /** The run of some attributes, led by one more. */
  lemma RunCons(first: (string, string), rest: seq<(string, string)>)
    ensures Join(Parts([first] + rest)) == if rest == [] then Pair(first) else Pair(first) + (" " + Join(Parts(rest)))
  {
    assert ([first] + rest)[1..] == rest;
    JoinCons(Pair(first), Parts(rest));
  }

  lemma {:induction false} ScanJoined(attributes: seq<(string, string)>)
    requires Named(attributes)
    ensures Scan(Join(Parts(attributes))) == Escaped(attributes)
  {
    if attributes != [] {
      var first, rest := attributes[0], attributes[1..];
      assert first in attributes && attributes == [first] + rest;
      ScanJoined(rest);
      EscapedIsInert(first.1);
      ScanPrinted(first.0, Escape(first.1), Join(Parts(rest)));
      RunCons(first, rest);
      EscapedCons(first, rest);
    }
  }

  lemma EscapedCons(first: (string, string), rest: seq<(string, string)>)
    ensures Escaped([first] + rest) == [(first.0, Escape(first.1))] + Escaped(rest)
  {
  }

  lemma {:induction false} CollectEscaped(attributes: seq<(string, string)>)
    ensures Collect(Escaped(attributes)) == Lookup(attributes)
  {
    if attributes != [] {
      var front := attributes[..|attributes| - 1];
      CollectEscaped(front);
      assert Escaped(attributes)[..|attributes| - 1] == Escaped(front);
      UnescapeEscape(attributes[|attributes| - 1].1);
    }
  }

  lemma {:induction false} ScanNames(s: string)
    ensures forall p :: p in Scan(s) ==> ValidName(p.0)
    decreases |s|
  {
    if s != [] {
      var m := MatchAt(s);
      MatchIsPrinted(s);
      if m.Match? { ScanNames(s[m.end..]); } else { ScanNames(s[1..]); }
    }
  }

  lemma {:induction false} CollectKeys(pairs: seq<(string, string)>, name: string)
    ensures name in Collect(pairs) <==> exists p :: p in pairs && p.0 == name
  {
    if pairs != [] {
      var front := pairs[..|pairs| - 1];
      CollectKeys(front, name);
      assert pairs == front + [pairs[|pairs| - 1]];
    }
  }

  // ------------------------------------ told of the attribute list itself

  /** How many of the first n attributes have a value. */
  function Valued(attributes: seq<(string, string)>, n: nat): nat
    requires n <= |attributes|
  {
    if n == 0 then 0 else Valued(attributes, n - 1) + if attributes[n - 1].1 != "" then 1 else 0
  }

  lemma {:induction false} PresentSnoc(front: seq<(string, string)>, last: (string, string))
    ensures Present(front + [last]) == Present(front) + if last.1 != "" then [last] else []
  {
    if front == [] {
      assert front + [last] == [last] && [last][1..] == [];
    } else {
      PresentSnoc(front[1..], last);
      assert (front + [last])[1..] == front[1..] + [last];
    }
  }

  /** The printer keeps every attribute with a value, in order. */
  lemma {:induction false} PresentAt(attributes: seq<(string, string)>, k: nat)
    requires k < |attributes| && attributes[k].1 != ""
    ensures |Present(attributes)| == Valued(attributes, |attributes|)
    ensures Valued(attributes, k) < |Present(attributes)|
    ensures Present(attributes)[Valued(attributes, k)] == attributes[k]
  {
    var front, last := attributes[..|attributes| - 1], attributes[|attributes| - 1];
    assert attributes == front + [last];
    PresentSnoc(front, last);
    PresentCount(front);
    ValuedPrefix(attributes, |front|);
    if k < |front| {
      PresentAt(front, k);
      ValuedPrefix(attributes, k);
    }
  }

  lemma {:induction false} PresentCount(attributes: seq<(string, string)>)
    ensures |Present(attributes)| == Valued(attributes, |attributes|)
  {
    if attributes != [] {
      var front, last := attributes[..|attributes| - 1], attributes[|attributes| - 1];
      assert attributes == front + [last];
      PresentSnoc(front, last);
      PresentCount(front);
      ValuedPrefix(attributes, |front|);
    }
  }

  lemma {:induction false} ValuedPrefix(attributes: seq<(string, string)>, n: nat)
    requires n < |attributes|
    ensures Valued(attributes, n) == Valued(attributes[..|attributes| - 1], n)
  {
    if n > 0 { ValuedPrefix(attributes, n - 1); }
  }

  /** Every attribute with a value has a name the regex reads. */
  ghost predicate Readable(attributes: seq<(string, string)>) {
    forall k :: 0 <= k < |attributes| && attributes[k].1 != "" ==> ValidName(attributes[k].0)
  }

  lemma ReadableIsNamed(attributes: seq<(string, string)>)
    ensures Readable(attributes) <==> Named(Present(attributes))
  {
    PresentMembers(attributes);
    if Readable(attributes) {
      forall a | a in Present(attributes) ensures ValidName(a.0) {
        var k :| 0 <= k < |attributes| && attributes[k] == a;
      }
    }
    if Named(Present(attributes)) {
      forall k | 0 <= k < |attributes| && attributes[k].1 != "" ensures ValidName(attributes[k].0) {
        assert attributes[k] in Present(attributes);
      }
    }
  }

  lemma {:induction false} PresentMembers(attributes: seq<(string, string)>)
    ensures forall a :: a in Present(attributes) <==> a in attributes && a.1 != ""
  {
    if attributes != [] { PresentMembers(attributes[1..]); }
  }

  /** The scan of a printed run lists every attribute with a value, and nothing else, in the
      order they were given. */
  lemma ScanListsValued(attributes: seq<(string, string)>, k: nat)
    requires Readable(attributes)
    ensures |Scan(FormatBlockAttributes(attributes))| == Valued(attributes, |attributes|)
    ensures k < |attributes| && attributes[k].1 != "" ==>
              && Valued(attributes, k) < Valued(attributes, |attributes|)
              && Scan(FormatBlockAttributes(attributes))[Valued(attributes, k)]
                 == (attributes[k].0, Escape(attributes[k].1))
  {
    ReadableIsNamed(attributes);
    ScanJoined(Present(attributes));
    PresentCount(attributes);
    if k < |attributes| && attributes[k].1 != "" { PresentAt(attributes, k); }
  }

  /** The printed run is the pairs themselves, a single space between each and the next; an
      attribute without a value adds nothing to it. */
  lemma PrintedPairs(attributes: seq<(string, string)>, name: string, value: string)
    ensures FormatBlockAttributes([]) == ""
    ensures
      var run, more := FormatBlockAttributes(attributes), FormatBlockAttributes([(name, value)] + attributes);
      var pair := name + "=\"" + Escape(value) + "\"";
      more == if value == "" then run else if Valued(attributes, |attributes|) == 0 then pair else pair + (" " + run)
  {
    PresentCount(attributes);
    assert ([(name, value)] + attributes)[1..] == attributes;
    RunCons((name, value), Present(attributes));
  }

  /** Some attribute of this name has a value. */
  ghost predicate Given(attributes: seq<(string, string)>, name: string) {
    exists k :: 0 <= k < |attributes| && attributes[k].0 == name && attributes[k].1 != ""
  }

  /** The last attribute of its name that has one. */
  ghost predicate LastGiven(attributes: seq<(string, string)>, k: nat) {
    && k < |attributes| && attributes[k].1 != ""
    && forall j :: k < j < |attributes| && attributes[j].0 == attributes[k].0 ==> attributes[j].1 == ""
  }

  /** The map has the names that were given a value, each with the last one. */
  ghost predicate ReadsBack(attributes: seq<(string, string)>, values: map<string, string>) {
    && (forall name :: name in values <==> Given(attributes, name))
    && (forall k: nat :: LastGiven(attributes, k) ==>
          attributes[k].0 in values && values[attributes[k].0] == attributes[k].1)
  }

  lemma LookupSnoc(pairs: seq<(string, string)>, last: (string, string))
    ensures Lookup(pairs + [last]) == Lookup(pairs)[last.0 := last.1]
  {
    assert (pairs + [last])[..|pairs|] == pairs;
  }

  lemma ReadsBackMore(front: seq<(string, string)>, last: (string, string), values: map<string, string>)
    requires ReadsBack(front, values)
    ensures ReadsBack(front + [last], if last.1 != "" then values[last.0 := last.1] else values)
  {
    var all := front + [last];
    forall name ensures Given(all, name) <==> Given(front, name) || (last.0 == name && last.1 != "") {
      if k :| 0 <= k < |front| && front[k].0 == name && front[k].1 != "" { assert all[k] == front[k]; }
      assert all[|front|] == last;
    }
    forall k: nat | LastGiven(all, k) && k < |front|
      ensures LastGiven(front, k) && (all[k].0 != last.0 || last.1 == "")
    {
      assert all[|front|] == last;
      assert forall j :: k < j < |front| ==> all[j] == front[j];
    }
  }

  lemma LookupMore(front: seq<(string, string)>, last: (string, string))
    ensures Lookup(Present(front + [last]))
         == if last.1 != "" then Lookup(Present(front))[last.0 := last.1] else Lookup(Present(front))
  {
    PresentSnoc(front, last);
    LookupSnoc(Present(front), last);
    assert Present(front) + [] == Present(front);
  }

  lemma {:induction false} LookupReadsBack(attributes: seq<(string, string)>)
    ensures ReadsBack(attributes, Lookup(Present(attributes)))
  {
    if attributes != [] {
      var front, last := attributes[..|attributes| - 1], attributes[|attributes| - 1];
      LookupReadsBack(front);
      LookupMore(front, last);
      ReadsBackMore(front, last, Lookup(Present(front)));
      assert attributes == front + [last];
    }
  }

  /** Scanning what the printer wrote gives back exactly the names that were given a value,
      each with the last one, if and only if every attribute with a value has a name the
      regex reads. */
  lemma RoundTrip(attributes: seq<(string, string)>)
    ensures ReadsBack(attributes, Collect(Scan(FormatBlockAttributes(attributes)))) <==> Readable(attributes)
  {
    if Readable(attributes) {
      ReadableIsNamed(attributes);
      ScanJoined(Present(attributes));
      CollectEscaped(Present(attributes));
      LookupReadsBack(attributes);
    } else {
      var k :| 0 <= k < |attributes| && attributes[k].1 != "" && !ValidName(attributes[k].0);
      assert Given(attributes, attributes[k].0);
      CollectKeys(Scan(FormatBlockAttributes(attributes)), attributes[k].0);
      ScanNames(FormatBlockAttributes(attributes));
    }
  }

  /** The outer `[^>]*` of a block pattern. */
  function RunBeforeCloser(s: string): (n: nat)
    ensures n <= |s|
  {
    if s != [] && s[0] != '>' then 1 + RunBeforeCloser(s[1..]) else 0
  }

  lemma {:induction false} CloserStops(run: string, rest: string)
    requires '>' !in run
    ensures RunBeforeCloser(run + (">" + rest)) == |run|
  {
    if run == [] {
      assert run + (">" + rest) == ">" + rest;
    } else {
      assert run[0] in run;
      CloserStops(run[1..], rest);
      assert (run + (">" + rest))[1..] == run[1..] + (">" + rest);
    }
  }

  lemma {:induction false} JoinedHasNoCloser(attributes: seq<(string, string)>)
    requires Named(attributes)
    ensures '>' !in Join(Parts(attributes))
  {
    if attributes != [] {
      assert attributes[0] in attributes;
      EscapedIsInert(attributes[0].1);
      JoinedHasNoCloser(attributes[1..]);
      assert Parts(attributes)[1..] == Parts(attributes[1..]);
    }
  }

  /** Inside a block, an outer `[^>]*` scan takes the printed run, all of it and no more. */
  lemma BlockTakesWholeRun(attributes: seq<(string, string)>, rest: string)
    requires Readable(attributes)
    ensures var run := FormatBlockAttributes(attributes); RunBeforeCloser(run + (">" + rest)) == |run|
  {
    ReadableIsNamed(attributes);
    JoinedHasNoCloser(Present(attributes));
    CloserStops(FormatBlockAttributes(attributes), rest);
  }

  // --------------------------------------------------- the path attribute

  /** `<attached_file>` escapes only the quotes of its path. */
  function EscapePath(path: string): string {
    ReplaceAll(path, "\"", "&quot;")
  }

  function UnescapePath(raw: string): string {
    ReplaceAll(raw, "&quot;", "\"")
  }

  ghost predicate Contains(s: string, word: string) {
    exists k :: 0 <= k <= |s| && word <= s[k..]
  }

  lemma {:induction false} PathComesBackDecoded(path: string)
    ensures UnescapePath(EscapePath(path)) == UnescapePath(path)
  {
    if path == [] {
    } else if path[0] == '\"' {
      PathComesBackDecoded(path[1..]);
      assert path == "\"" + path[1..];
      ReplaceHead("\"", path[1..], "&quot;");
      ReplaceHead("&quot;", EscapePath(path[1..]), "\"");
      ReplaceSkips("\"", path[1..], "&quot;", "\"");
    } else if "&quot;" <= path {
      PathComesBackDecoded(path[6..]);
      PrefixSplit("&quot;", path);
      ReplaceSkips("&quot;", path[6..], "\"", "&quot;");
      ReplaceHead("&quot;", EscapePath(path[6..]), "\"");
    } else {
      var rest := path[1..];
      PathComesBackDecoded(rest);
      assert path == [path[0]] + rest;
      ReplaceSkips([path[0]], rest, "\"", "&quot;");
      if path[0] == '&' {
        assert "&" + "quot;" == "&quot;";
        AmpersandPrefix("quot;", rest);
        if "quot;" <= EscapePath(rest) { NoNewPrefix(rest, "\"", "&quot;", "quot;"); }
        BareAmpersand(EscapePath(rest), "quot;", "\"");
      } else {
        ReplaceSkips([path[0]], EscapePath(rest), "&quot;", "\"");
      }
    }
  }

  lemma {:induction false} DecodingShrinks(path: string)
    ensures |UnescapePath(path)| <= |path|
    ensures UnescapePath(path) == path <==> !Contains(path, "&quot;")
  {
    if path == [] {
    } else if "&quot;" <= path {
      assert path[0..] == path;
      DecodingShrinks(path[6..]);
    } else {
      DecodingShrinks(path[1..]);
      if Contains(path, "&quot;") {
        var k :| 0 <= k <= |path| && "&quot;" <= path[k..];
        assert path[0..] == path;
        assert path[1..][k - 1..] == path[k..];
      }
      if Contains(path[1..], "&quot;") {
        var k :| 0 <= k <= |path[1..]| && "&quot;" <= path[1..][k..];
        assert path[1..][k..] == path[k + 1..];
      }
      assert path == [path[0]] + path[1..];
    }
  }

  /** The path's own pair is not an inverse everywhere: a path comes back as itself
      exactly when it does not spell out `&quot;`. */
  lemma PathRoundTrip(path: string)
    ensures UnescapePath(EscapePath(path)) == path <==> !Contains(path, "&quot;")
  {
    PathComesBackDecoded(path);
    DecodingShrinks(path);
  }
}
