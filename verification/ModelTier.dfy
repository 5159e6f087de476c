/** The cost tier read off a model's name (`src/shared/agent-model-tier.ts`). */
module ModelTier {
  import opened Common

  datatype Tier = Standard | Frontier

  const FRONTIER_MODEL_FAMILIES: seq<string> := ["astra", "fable"]

  /** One character of `toLowerCase`. Two characters outside ASCII lower into it: the Kelvin
      sign to `k`, and the dotted capital I to `i` and a combining dot. Every other one
      lowers to something outside `[a-z0-9]`, which is all this module asks of it. */
  function LowerChar(c: char): string {
    if 'A' <= c <= 'Z' then [(c as int + 32) as char]
    else if c == '\U{212A}' then "k"
    else if c == '\U{130}' then ['i', '\U{307}']
    else [c]
  }

  function Lower(s: string): string {
    if s == [] then [] else LowerChar(s[0]) + Lower(s[1..])
  }

  predicate Alphanumeric(c: char) { 'a' <= c <= 'z' || '0' <= c <= '9' }

  /** Length of the leading stretch of characters that are (or are not) alphanumeric. */
  function Leading(s: string, kind: bool): (n: nat)
    ensures n <= |s|
    ensures forall k :: 0 <= k < n ==> Alphanumeric(s[k]) == kind
    ensures n < |s| ==> Alphanumeric(s[n]) != kind
  {
    if s == [] || Alphanumeric(s[0]) != kind then 0 else 1 + Leading(s[1..], kind)
  }

  /** Where the second piece of a split starts. */
  function Skip(s: string): (n: nat)
    requires Leading(s, true) < |s|
    ensures 0 < n <= |s|
    ensures Leading(s, true) < n
    ensures forall k :: Leading(s, true) <= k < n ==> !Alphanumeric(s[k])
    ensures n < |s| ==> Alphanumeric(s[n])
  {
    var end := Leading(s, true);
    var gap := Leading(s[end..], false);
    assert forall k :: end <= k < end + gap ==> s[k] == s[end..][k - end];
    assert end + gap < |s| ==> s[end + gap] == s[end..][gap];
    end + gap
  }

  /** `split(/[^a-z0-9]+/)`: the pieces between maximal separator runs, empty ones included. */
  function Split(s: string): seq<string>
    decreases |s|
  {
    var end := Leading(s, true);
    if end == |s| then [s] else [s[..end]] + Split(s[Skip(s)..])
  }

  function NonEmpty(pieces: seq<string>): seq<string> {
    if pieces == [] then []
    else if pieces[0] == "" then NonEmpty(pieces[1..])
    else [pieces[0]] + NonEmpty(pieces[1..])
  }

  function SegmentsOf(value: string): seq<string> {
    NonEmpty(Split(Lower(value)))
  }

  /** s[i..j] is a run of alphanumerics that cannot be extended either way. */
  predicate WholeRun(s: string, i: nat, j: nat) {
    && i < j <= |s|
    && (forall k :: i <= k < j ==> Alphanumeric(s[k]))
    && (i > 0 ==> !Alphanumeric(s[i - 1]))
    && (j < |s| ==> !Alphanumeric(s[j]))
  }

  ghost predicate HasRun(s: string, word: string) {
    exists i: nat, j: nat | j <= |s| && WholeRun(s, i, j) :: s[i..j] == word
  }

  function ClassifyAgentModelTier(id: string, displayName: Option<string>): Tier {
    var segments := SegmentsOf(id) + SegmentsOf(if displayName.Some? then displayName.value else "");
    if exists f :: 0 <= f < |FRONTIER_MODEL_FAMILIES| && FRONTIER_MODEL_FAMILIES[f] in segments
    then Frontier
    else Standard
  }

  lemma {:induction false} NonEmptyKeeps(pieces: seq<string>, word: string)
    ensures word in NonEmpty(pieces) <==> word in pieces && word != ""
  {
    if pieces != [] {
      NonEmptyKeeps(pieces[1..], word);
      assert pieces == [pieces[0]] + pieces[1..];
    }
  }

  lemma LaterRun(s: string, end: nat, n: nat, i: nat, j: nat)
    requires end < n <= |s| && (forall k :: end <= k < n ==> !Alphanumeric(s[k]))
    requires WholeRun(s, i, j) && i >= end
    ensures n <= i && WholeRun(s[n..], i - n, j - n)
    ensures s[n..][i - n..j - n] == s[i..j]
  {
    assert Alphanumeric(s[i]);
    var rest := s[n..];
    assert forall k :: 0 <= k < |rest| ==> rest[k] == s[k + n];
  }

  lemma ShiftedRun(s: string, n: nat, i: nat, j: nat)
    requires 0 < n <= |s| && !Alphanumeric(s[n - 1])
    requires WholeRun(s[n..], i, j)
    ensures WholeRun(s, i + n, j + n)
    ensures s[n..][i..j] == s[i + n..j + n]
  {
    var rest := s[n..];
    forall k | i + n <= k < j + n ensures Alphanumeric(s[k]) {
      assert s[k] == rest[k - n];
    }
    if i > 0 { assert s[i + n - 1] == rest[i - 1]; }
    if j + n < |s| { assert s[j + n] == rest[j]; }
  }

  /** The runs of s are its leading one and those of what follows the separators. */
  lemma RunsSplit(s: string, word: string, end: nat, n: nat)
    requires end < n <= |s|
    requires forall k :: 0 <= k < end ==> Alphanumeric(s[k])
    requires forall k :: end <= k < n ==> !Alphanumeric(s[k])
    ensures HasRun(s, word) ==> (word != "" && word == s[..end]) || HasRun(s[n..], word)
    ensures word != "" && word == s[..end] ==> HasRun(s, word)
    ensures HasRun(s[n..], word) ==> HasRun(s, word)
  {
    if HasRun(s, word) {
      var i: nat, j: nat :| j <= |s| && WholeRun(s, i, j) && s[i..j] == word;
      if i >= end { LaterRun(s, end, n, i, j); }
    }
    if word != "" && word == s[..end] {
      assert WholeRun(s, 0, end) && s[0..end] == word;
    }
    if HasRun(s[n..], word) {
      var i: nat, j: nat :| j <= |s[n..]| && WholeRun(s[n..], i, j) && s[n..][i..j] == word;
      ShiftedRun(s, n, i, j);
    }
  }

  lemma OneRun(s: string, word: string)
    requires Leading(s, true) == |s|
    ensures HasRun(s, word) <==> word != "" && word == s
  {
    if HasRun(s, word) {
      var i: nat, j: nat :| j <= |s| && WholeRun(s, i, j) && s[i..j] == word;
    }
    if word != "" && word == s {
      assert WholeRun(s, 0, |s|) && s[0..|s|] == word;
    }
  }

  /** Splitting finds exactly the maximal alphanumeric runs. */
  lemma {:induction false} SplitFindsRuns(s: string, word: string)
    ensures word in Split(s) && word != "" <==> HasRun(s, word)
    decreases |s|
  {
    if Leading(s, true) == |s| {
      OneRun(s, word);
    } else {
      var end, rest := Leading(s, true), s[Skip(s)..];
      RunsSplit(s, word, end, Skip(s));
      SplitFindsRuns(rest, word);
      assert Split(s) == [s[..end]] + Split(rest);
    }
  }

  lemma SegmentsAreRuns(value: string, word: string)
    ensures word in SegmentsOf(value) <==> HasRun(Lower(value), word)
  {
    NonEmptyKeeps(Split(Lower(value)), word);
    SplitFindsRuns(Lower(value), word);
  }

  /** A model is frontier exactly when a family's name stands as a whole word, whatever its
      case, in the id or the display name: a family inside another word promotes nothing. */
  lemma FrontierExactly(id: string, displayName: Option<string>)
    ensures ClassifyAgentModelTier(id, displayName) == Frontier
       <==> exists f :: 0 <= f < |FRONTIER_MODEL_FAMILIES|
              && (HasRun(Lower(id), FRONTIER_MODEL_FAMILIES[f])
              || (displayName.Some? && HasRun(Lower(displayName.value), FRONTIER_MODEL_FAMILIES[f])))
  {
    var families := FRONTIER_MODEL_FAMILIES;
    var shown := if displayName.Some? then displayName.value else "";
    forall f | 0 <= f < |families|
      ensures families[f] in SegmentsOf(id) + SegmentsOf(shown)
         <==> HasRun(Lower(id), families[f]) || HasRun(Lower(shown), families[f])
    {
      SegmentsAreRuns(id, families[f]);
      SegmentsAreRuns(shown, families[f]);
    }
  }

  predicate Capital(c: char) { 'A' <= c <= 'Z' }

  /** The same letter, in either case, or the same character. */
  predicate SameLetter(a: char, b: char) {
    a == b || (Capital(a) && b as int == a as int + 32) || (Capital(b) && a as int == b as int + 32)
  }

  /** A name without capitals (and without the two that lower into ASCII) is its own lower case. */
  lemma {:induction false} LowerKeeps(s: string)
    requires forall c :: c in s ==> !Capital(c) && c != '\U{212A}' && c != '\U{130}'
    ensures Lower(s) == s
  {
    if s != [] {
      assert s[0] in s;
      LowerKeeps(s[1..]);
    }
  }

  lemma {:induction false} LowerIgnoresCase(a: string, b: string)
    requires |a| == |b| && forall k :: 0 <= k < |a| ==> SameLetter(a[k], b[k])
    ensures Lower(a) == Lower(b)
  {
    if a != [] {
      assert forall k :: 0 <= k < |a| - 1 ==> a[1..][k] == a[k + 1] && b[1..][k] == b[k + 1];
      LowerIgnoresCase(a[1..], b[1..]);
    }
  }

  /** The tier does not depend on the case a name is written in. */
  lemma CaseIrrelevant(id: string, other: string, displayName: Option<string>)
    requires |id| == |other| && forall k :: 0 <= k < |id| ==> SameLetter(id[k], other[k])
    ensures ClassifyAgentModelTier(id, displayName) == ClassifyAgentModelTier(other, displayName)
    ensures ClassifyAgentModelTier("", Some(id)) == ClassifyAgentModelTier("", Some(other))
  {
    LowerIgnoresCase(id, other);
  }
}
