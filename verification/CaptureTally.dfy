/** The tally of `scripts/analyze-pi-fixtures.ts`: every captured line counted once, as
    stderr, as unparsable, or under its frame's signature, with per-field statistics. */
module CaptureTally {
  /** One own field of a frame: its key, its type name and its shortened example. */
  datatype Field = Field(key: string, kind: string, example: string)

  datatype Line = Blank | Stderr | Unparsable | Frame(signature: string, fields: seq<Field>)

  datatype Fixture = Fixture(scenario: string, lines: seq<Line>)

  datatype FieldStats = FieldStats(present: nat, examples: seq<string>, types: set<string>)

  datatype SignatureStats = SignatureStats(count: nat, fixtures: set<string>, fields: map<string, FieldStats>)

  datatype State = State(signatures: map<string, SignatureStats>, orderings: map<string, seq<string>>,
                         stderrCounts: map<string, nat>, unparsedCounts: map<string, nat>, totalLines: nat)

  const NoStats := SignatureStats(0, {}, map[])
  const NoField := FieldStats(0, [], {})
  const Start := State(map[], map[], map[], map[], 0)

  // -------------------------------------------------------------- one line

  function Bump(counts: map<string, nat>, key: string): map<string, nat> {
    counts[key := (if key in counts then counts[key] else 0) + 1]
  }

  function StatsOf(signatures: map<string, SignatureStats>, signature: string): SignatureStats {
    if signature in signatures then signatures[signature] else NoStats
  }

  function FieldOf(fields: map<string, FieldStats>, key: string): FieldStats {
    if key in fields then fields[key] else NoField
  }

  /** A set keeps the first three distinct examples. */
  function AddField(fields: map<string, FieldStats>, f: Field): map<string, FieldStats> {
    var stats := FieldOf(fields, f.key);
    var examples := if |stats.examples| < 3 && f.example !in stats.examples
                    then stats.examples + [f.example] else stats.examples;
    fields[f.key := FieldStats(stats.present + 1, examples, stats.types + {f.kind})]
  }

  function AddFields(fields: map<string, FieldStats>, fs: seq<Field>): map<string, FieldStats> {
    if fs == [] then fields else AddField(AddFields(fields, fs[..|fs| - 1]), fs[|fs| - 1])
  }

  function AddLine(s: State, scenario: string, line: Line): State {
    match line
    case Blank => s
    case Stderr => s.(totalLines := s.totalLines + 1, stderrCounts := Bump(s.stderrCounts, scenario))
    case Unparsable => s.(totalLines := s.totalLines + 1, unparsedCounts := Bump(s.unparsedCounts, scenario))
    case Frame(signature, fields) =>
      var stats := StatsOf(s.signatures, signature);
      s.(totalLines := s.totalLines + 1,
         signatures := s.signatures[signature :=
           SignatureStats(stats.count + 1, stats.fixtures + {scenario}, AddFields(stats.fields, fields))])
  }

  function AddLines(s: State, scenario: string, lines: seq<Line>): State {
    if lines == [] then s else AddLine(AddLines(s, scenario, lines[..|lines| - 1]), scenario, lines[|lines| - 1])
  }

  /** The frames of a fixture, by signature, in order. */
  function Sequence(lines: seq<Line>): seq<string> {
    if lines == [] then []
    else
      var last := lines[|lines| - 1];
      Sequence(lines[..|lines| - 1]) + if last.Frame? then [last.signature] else []
  }

  function AddFixture(s: State, f: Fixture): State {
    var t := AddLines(s, f.scenario, f.lines);
    t.(orderings := t.orderings[f.scenario := Sequence(f.lines)])
  }

  function Analyse(fixtures: seq<Fixture>): State {
    if fixtures == [] then Start else AddFixture(Analyse(fixtures[..|fixtures| - 1]), fixtures[|fixtures| - 1])
  }

  // -------------------------------------------------- the script, in place

  class Analyser {
    var signatures: map<string, SignatureStats>
    var orderings: map<string, seq<string>>
    var stderrCounts: map<string, nat>
    var unparsedCounts: map<string, nat>
    var totalLines: nat

    ghost function Abstract(): State
      reads this
    {
      State(signatures, orderings, stderrCounts, unparsedCounts, totalLines)
    }

    constructor ()
      ensures Abstract() == Start
    {
      signatures, orderings, stderrCounts, unparsedCounts, totalLines := map[], map[], map[], map[], 0;
    }

    /** The inner loop over one frame's fields. */
    method CountFields(stats: SignatureStats, fs: seq<Field>) returns (fields: map<string, FieldStats>)
      ensures fields == AddFields(stats.fields, fs)
    {
      fields := stats.fields;
      for k := 0 to |fs|
        invariant fields == AddFields(stats.fields, fs[..k])
      {
        assert fs[..k + 1][..k] == fs[..k];
        fields := AddField(fields, fs[k]);
      }
      assert fs[..|fs|] == fs;
    }

    method CountLine(scenario: string, line: Line)
      modifies this
      ensures Abstract() == AddLine(old(Abstract()), scenario, line)
    {
      if line.Blank? { return; }
      totalLines := totalLines + 1;
      if line.Stderr? {
        stderrCounts := Bump(stderrCounts, scenario);
        return;
      }
      if line.Unparsable? {
        unparsedCounts := Bump(unparsedCounts, scenario);
        return;
      }
      var stats := StatsOf(signatures, line.signature);
      var fields := CountFields(stats, line.fields);
      signatures := signatures[line.signature :=
        SignatureStats(stats.count + 1, stats.fixtures + {scenario}, fields)];
    }

    method CountFixture(f: Fixture)
      modifies this
      ensures Abstract() == AddFixture(old(Abstract()), f)
    {
      var sequence: seq<string> := [];
      for k := 0 to |f.lines|
        invariant Abstract() == AddLines(old(Abstract()), f.scenario, f.lines[..k])
        invariant sequence == Sequence(f.lines[..k])
      {
        assert f.lines[..k + 1][..k] == f.lines[..k];
        CountLine(f.scenario, f.lines[k]);
        if f.lines[k].Frame? { sequence := sequence + [f.lines[k].signature]; }
      }
      assert f.lines[..|f.lines|] == f.lines;
      AddLinesKeepOrderings(old(Abstract()), f.scenario, f.lines);
      orderings := orderings[f.scenario := sequence];
    }

    method CountAll(fixtures: seq<Fixture>)
      requires Abstract() == Start
      modifies this
      ensures Abstract() == Analyse(fixtures)
    {
      for k := 0 to |fixtures|
        invariant Abstract() == Analyse(fixtures[..k])
      {
        assert fixtures[..k + 1][..k] == fixtures[..k];
        CountFixture(fixtures[k]);
      }
      assert fixtures[..|fixtures|] == fixtures;
    }
  }

  lemma {:induction false} AddLinesKeepOrderings(s: State, scenario: string, lines: seq<Line>)
    ensures AddLines(s, scenario, lines).orderings == s.orderings
  {
    if lines != [] { AddLinesKeepOrderings(s, scenario, lines[..|lines| - 1]); }
  }

  // ----------------------------------------------------------- conservation

  ghost function Sum(m: map<string, nat>): nat
    decreases |m|
  {
    if m == map[] then 0
    else
      var k :| k in m;
      m[k] + Sum(m - {k})
  }

  lemma {:induction false} SumPick(m: map<string, nat>, key: string)
    requires key in m
    ensures Sum(m) == m[key] + Sum(m - {key})
    decreases |m|
  {
    var k :| k in m && Sum(m) == m[k] + Sum(m - {k});
    if k != key {
      SumPick(m - {k}, key);
      SumPick(m - {key}, k);
      assert m - {k} - {key} == m - {key} - {k};
    }
  }

  lemma SumUpdate(m: map<string, nat>, key: string, value: nat)
    ensures Sum(m[key := value]) + (if key in m then m[key] else 0) == Sum(m) + value
  {
    SumPick(m[key := value], key);
    assert m[key := value] - {key} == m - {key};
    if key in m {
      SumPick(m, key);
    } else {
      assert m - {key} == m;
    }
  }

  function Counts(signatures: map<string, SignatureStats>): map<string, nat> {
    map signature | signature in signatures :: signatures[signature].count
  }

  ghost predicate Balanced(s: State) {
    s.totalLines == Sum(s.stderrCounts) + Sum(s.unparsedCounts) + Sum(Counts(s.signatures))
  }

  lemma BumpAddsOne(counts: map<string, nat>, key: string)
    ensures Sum(Bump(counts, key)) == Sum(counts) + 1
  {
    SumUpdate(counts, key, Bump(counts, key)[key]);
  }

  lemma FrameAddsOne(signatures: map<string, SignatureStats>, signature: string, stats: SignatureStats)
    requires stats.count == StatsOf(signatures, signature).count + 1
    ensures Sum(Counts(signatures[signature := stats])) == Sum(Counts(signatures)) + 1
  {
    assert Counts(signatures[signature := stats]) == Counts(signatures)[signature := stats.count];
    SumUpdate(Counts(signatures), signature, stats.count);
  }

  lemma LineBalanced(s: State, scenario: string, line: Line)
    requires Balanced(s)
    ensures Balanced(AddLine(s, scenario, line))
  {
    match line
    case Blank =>
    case Stderr => BumpAddsOne(s.stderrCounts, scenario);
    case Unparsable => BumpAddsOne(s.unparsedCounts, scenario);
    case Frame(signature, fields) =>
      FrameAddsOne(s.signatures, signature, AddLine(s, scenario, line).signatures[signature]);
  }

  lemma {:induction false} LinesBalanced(s: State, scenario: string, lines: seq<Line>)
    requires Balanced(s)
    ensures Balanced(AddLines(s, scenario, lines))
  {
    if lines != [] {
      LinesBalanced(s, scenario, lines[..|lines| - 1]);
      LineBalanced(AddLines(s, scenario, lines[..|lines| - 1]), scenario, lines[|lines| - 1]);
    }
  }

  /** Whatever was captured: the total is the stderr lines, plus the unparsable ones,
      plus the frames under every signature. */
  lemma {:induction false} Conservation(fixtures: seq<Fixture>)
    ensures Balanced(Analyse(fixtures))
  {
    if fixtures == [] {
      assert Counts(map[]) == map[];
    } else {
      Conservation(fixtures[..|fixtures| - 1]);
      var f := fixtures[|fixtures| - 1];
      LinesBalanced(Analyse(fixtures[..|fixtures| - 1]), f.scenario, f.lines);
    }
  }

  // --------------------------------------------- what the statistics count

  /** The captured lines, fixture by fixture. */
  function AllLines(fixtures: seq<Fixture>): seq<Line> {
    if fixtures == [] then [] else AllLines(fixtures[..|fixtures| - 1]) + fixtures[|fixtures| - 1].lines
  }

  predicate HasKey(fs: seq<Field>, key: string) {
    exists f :: f in fs && f.key == key
  }

  predicate Carries(line: Line, key: string) {
    line.Frame? && HasKey(line.fields, key)
  }

  function FramesOf(lines: seq<Line>, signature: string): nat {
    if lines == [] then 0
    else
      var last := lines[|lines| - 1];
      FramesOf(lines[..|lines| - 1], signature) + if last.Frame? && last.signature == signature then 1 else 0
  }

  function Carrying(lines: seq<Line>, signature: string, key: string): nat {
    if lines == [] then 0
    else
      var last := lines[|lines| - 1];
      Carrying(lines[..|lines| - 1], signature, key)
      + if last.Frame? && last.signature == signature && Carries(last, key) then 1 else 0
  }

  /** A parsed object has each key once. */
  ghost predicate KeysOnce(fs: seq<Field>) {
    forall i, j :: 0 <= i < j < |fs| ==> fs[i].key != fs[j].key
  }

  ghost predicate ParsedLines(lines: seq<Line>) {
    forall k :: 0 <= k < |lines| && lines[k].Frame? ==> KeysOnce(lines[k].fields)
  }

  lemma {:induction false} FieldsCounted(fields: map<string, FieldStats>, fs: seq<Field>, key: string)
    requires KeysOnce(fs)
    ensures FieldOf(AddFields(fields, fs), key).present
         == FieldOf(fields, key).present + if HasKey(fs, key) then 1 else 0
  {
    if fs != [] {
      var front, last := fs[..|fs| - 1], fs[|fs| - 1];
      FieldsCounted(fields, front, key);
    }
  }

  ghost predicate Counted(s: State, lines: seq<Line>, signature: string, key: string) {
    var stats := StatsOf(s.signatures, signature);
    stats.count == FramesOf(lines, signature) && FieldOf(stats.fields, key).present == Carrying(lines, signature, key)
  }

  lemma CountsSnoc(lines: seq<Line>, line: Line, signature: string, key: string)
    ensures FramesOf(lines + [line], signature)
         == FramesOf(lines, signature) + if line.Frame? && line.signature == signature then 1 else 0
    ensures Carrying(lines + [line], signature, key)
         == Carrying(lines, signature, key)
            + if line.Frame? && line.signature == signature && Carries(line, key) then 1 else 0
  {
    assert (lines + [line])[..|lines|] == lines;
  }

  lemma LineCounted(s: State, lines: seq<Line>, scenario: string, line: Line, signature: string, key: string)
    requires Counted(s, lines, signature, key)
    requires line.Frame? ==> KeysOnce(line.fields)
    ensures Counted(AddLine(s, scenario, line), lines + [line], signature, key)
  {
    CountsSnoc(lines, line, signature, key);
    if line.Frame? && line.signature == signature {
      FieldsCounted(StatsOf(s.signatures, signature).fields, line.fields, key);
    } else {
      OtherStats(s, scenario, line, signature);
    }
  }

  lemma OtherStats(s: State, scenario: string, line: Line, signature: string)
    requires !(line.Frame? && line.signature == signature)
    ensures StatsOf(AddLine(s, scenario, line).signatures, signature) == StatsOf(s.signatures, signature)
  {
  }

  lemma {:induction false} LinesCounted(s: State, lines: seq<Line>, scenario: string, more: seq<Line>,
                                        signature: string, key: string)
    requires Counted(s, lines, signature, key) && ParsedLines(more)
    ensures Counted(AddLines(s, scenario, more), lines + more, signature, key)
  {
    if more == [] {
      assert lines + more == lines;
    } else {
      var front, last := more[..|more| - 1], more[|more| - 1];
      LinesCounted(s, lines, scenario, front, signature, key);
      LineCounted(AddLines(s, scenario, front), lines + front, scenario, last, signature, key);
      assert lines + more == lines + front + [last];
    }
  }

  /** Each signature's count is its frames; each field's count is the frames carrying it. */
  lemma {:induction false} EverythingCounted(fixtures: seq<Fixture>, signature: string, key: string)
    requires forall k :: 0 <= k < |fixtures| ==> ParsedLines(fixtures[k].lines)
    ensures Counted(Analyse(fixtures), AllLines(fixtures), signature, key)
  {
    if fixtures != [] {
      var front, f := fixtures[..|fixtures| - 1], fixtures[|fixtures| - 1];
      EverythingCounted(front, signature, key);
      LinesCounted(Analyse(front), AllLines(front), f.scenario, f.lines, signature, key);
    }
  }

  lemma {:induction false} CarryingBounded(lines: seq<Line>, signature: string, key: string)
    ensures Carrying(lines, signature, key) <= FramesOf(lines, signature)
    ensures Carrying(lines, signature, key) == FramesOf(lines, signature) <==>
      forall line :: line in lines && line.Frame? && line.signature == signature ==> Carries(line, key)
  {
    if lines != [] {
      CarryingBounded(lines[..|lines| - 1], signature, key);
      assert lines == lines[..|lines| - 1] + [lines[|lines| - 1]];
    }
  }

  /** The report's test for `always`. */
  predicate ReportedAlways(s: State, signature: string, key: string) {
    var stats := StatsOf(s.signatures, signature);
    FieldOf(stats.fields, key).present == stats.count
  }

  /** A field is reported `always` exactly when every frame of its signature carries it. */
  lemma {:induction false} AlwaysMeansAlways(fixtures: seq<Fixture>, signature: string, key: string)
    requires forall k :: 0 <= k < |fixtures| ==> ParsedLines(fixtures[k].lines)
    ensures ReportedAlways(Analyse(fixtures), signature, key) <==>
      forall line :: line in AllLines(fixtures) && line.Frame? && line.signature == signature ==> Carries(line, key)
  {
    EverythingCounted(fixtures, signature, key);
    CarryingBounded(AllLines(fixtures), signature, key);
  }

  // -------------------------------------------------------------- orderings

  function Occurrences(s: seq<string>, name: string): nat {
    if s == [] then 0 else Occurrences(s[..|s| - 1], name) + if s[|s| - 1] == name then 1 else 0
  }

  ghost predicate ScenariosDiffer(fixtures: seq<Fixture>) {
    forall i, j :: 0 <= i < j < |fixtures| ==> fixtures[i].scenario != fixtures[j].scenario
  }

  lemma {:induction false} SequenceHoldsFrames(lines: seq<Line>, signature: string)
    ensures Occurrences(Sequence(lines), signature) == FramesOf(lines, signature)
  {
    if lines != [] {
      var front, last := lines[..|lines| - 1], lines[|lines| - 1];
      SequenceHoldsFrames(front, signature);
      if last.Frame? {
        assert (Sequence(front) + [last.signature])[..|Sequence(front)|] == Sequence(front);
      } else {
        assert Sequence(front) + [] == Sequence(front);
      }
    }
  }

  lemma {:induction false} FramesAppend(a: seq<Line>, b: seq<Line>, signature: string)
    ensures FramesOf(a + b, signature) == FramesOf(a, signature) + FramesOf(b, signature)
  {
    if b == [] {
      assert a + b == a;
    } else {
      FramesAppend(a, b[..|b| - 1], signature);
      assert (a + b)[..|a + b| - 1] == a + b[..|b| - 1];
    }
  }

  /** Each scenario's recorded ordering is its own frames in order. */
  lemma {:induction false} OrderingsKept(fixtures: seq<Fixture>, k: nat)
    requires ScenariosDiffer(fixtures) && k < |fixtures|
    ensures fixtures[k].scenario in Analyse(fixtures).orderings
    ensures Analyse(fixtures).orderings[fixtures[k].scenario] == Sequence(fixtures[k].lines)
  {
    var front, last := fixtures[..|fixtures| - 1], fixtures[|fixtures| - 1];
    AddLinesKeepOrderings(Analyse(front), last.scenario, last.lines);
    if k < |front| {
      OrderingsKept(front, k);
    }
  }

  function OccurrencesInOrderings(fixtures: seq<Fixture>, orderings: map<string, seq<string>>, signature: string): nat
    requires forall k :: 0 <= k < |fixtures| ==> fixtures[k].scenario in orderings
  {
    if fixtures == [] then 0
    else
      var last := fixtures[|fixtures| - 1];
      OccurrencesInOrderings(fixtures[..|fixtures| - 1], orderings, signature)
      + Occurrences(orderings[last.scenario], signature)
  }

  lemma {:induction false} OrderingsTotal(fixtures: seq<Fixture>, orderings: map<string, seq<string>>,
                                          signature: string)
    requires forall k :: 0 <= k < |fixtures| ==>
      fixtures[k].scenario in orderings && orderings[fixtures[k].scenario] == Sequence(fixtures[k].lines)
    ensures OccurrencesInOrderings(fixtures, orderings, signature) == FramesOf(AllLines(fixtures), signature)
  {
    if fixtures != [] {
      var front, last := fixtures[..|fixtures| - 1], fixtures[|fixtures| - 1];
      OrderingsTotal(front, orderings, signature);
      SequenceHoldsFrames(last.lines, signature);
      FramesAppend(AllLines(front), last.lines, signature);
    }
  }

  /** Over distinct scenarios the orderings together hold exactly the counted frames. */
  lemma OrderingsHoldCounts(fixtures: seq<Fixture>, signature: string)
    requires ScenariosDiffer(fixtures)
    requires forall k :: 0 <= k < |fixtures| ==> ParsedLines(fixtures[k].lines)
    requires forall k :: 0 <= k < |fixtures| ==> fixtures[k].scenario in Analyse(fixtures).orderings
    ensures OccurrencesInOrderings(fixtures, Analyse(fixtures).orderings, signature)
         == StatsOf(Analyse(fixtures).signatures, signature).count
  {
    forall k | 0 <= k < |fixtures|
      ensures Analyse(fixtures).orderings[fixtures[k].scenario] == Sequence(fixtures[k].lines)
    {
      OrderingsKept(fixtures, k);
    }
    OrderingsTotal(fixtures, Analyse(fixtures).orderings, signature);
    EverythingCounted(fixtures, signature, "");
  }

  // ------------------------------------------------------ the other counters

  /** Lines of one kind in one scenario. */
  function StderrLines(lines: seq<Line>): nat {
    if lines == [] then 0 else StderrLines(lines[..|lines| - 1]) + if lines[|lines| - 1].Stderr? then 1 else 0
  }

  function UnparsedLines(lines: seq<Line>): nat {
    if lines == [] then 0 else UnparsedLines(lines[..|lines| - 1]) + if lines[|lines| - 1].Unparsable? then 1 else 0
  }

  function NonBlankLines(lines: seq<Line>): nat {
    if lines == [] then 0 else NonBlankLines(lines[..|lines| - 1]) + if lines[|lines| - 1].Blank? then 0 else 1
  }

  function CountOf(counts: map<string, nat>, key: string): nat { if key in counts then counts[key] else 0 }

  lemma {:induction false} LinesMoveCounters(s: State, scenario: string, lines: seq<Line>, key: string)
    ensures
      var t := AddLines(s, scenario, lines);
      && t.totalLines == s.totalLines + NonBlankLines(lines)
      && CountOf(t.stderrCounts, key)
         == CountOf(s.stderrCounts, key) + (if key == scenario then StderrLines(lines) else 0)
      && CountOf(t.unparsedCounts, key)
         == CountOf(s.unparsedCounts, key) + (if key == scenario then UnparsedLines(lines) else 0)
  {
    if lines != [] { LinesMoveCounters(s, scenario, lines[..|lines| - 1], key); }
  }

  /** Every line but a blank one is in the total; each scenario's stderr and unparsable
      counts are its own lines of that kind. */
  lemma {:induction false} OwnCounters(fixtures: seq<Fixture>, k: nat)
    requires ScenariosDiffer(fixtures) && k < |fixtures|
    ensures Analyse(fixtures).totalLines == NonBlankLines(AllLines(fixtures))
    ensures CountOf(Analyse(fixtures).stderrCounts, fixtures[k].scenario) == StderrLines(fixtures[k].lines)
    ensures CountOf(Analyse(fixtures).unparsedCounts, fixtures[k].scenario) == UnparsedLines(fixtures[k].lines)
  {
    var front, last := fixtures[..|fixtures| - 1], fixtures[|fixtures| - 1];
    TotalCounted(fixtures);
    LinesMoveCounters(Analyse(front), last.scenario, last.lines, fixtures[k].scenario);
    if k < |front| {
      OwnCounters(front, k);
    } else {
      NotYetCounted(front, last.scenario);
    }
  }

  lemma {:induction false} NotYetCounted(fixtures: seq<Fixture>, scenario: string)
    requires forall k :: 0 <= k < |fixtures| ==> fixtures[k].scenario != scenario
    ensures CountOf(Analyse(fixtures).stderrCounts, scenario) == 0
    ensures CountOf(Analyse(fixtures).unparsedCounts, scenario) == 0
  {
    if fixtures != [] {
      var front, last := fixtures[..|fixtures| - 1], fixtures[|fixtures| - 1];
      NotYetCounted(front, scenario);
      LinesMoveCounters(Analyse(front), last.scenario, last.lines, scenario);
    }
  }

  lemma {:induction false} TotalCounted(fixtures: seq<Fixture>)
    ensures Analyse(fixtures).totalLines == NonBlankLines(AllLines(fixtures))
  {
    if fixtures != [] {
      var front, last := fixtures[..|fixtures| - 1], fixtures[|fixtures| - 1];
      TotalCounted(front);
      LinesMoveCounters(Analyse(front), last.scenario, last.lines, "");
      NonBlankAppend(AllLines(front), last.lines);
    }
  }

  lemma {:induction false} NonBlankAppend(a: seq<Line>, b: seq<Line>)
    ensures NonBlankLines(a + b) == NonBlankLines(a) + NonBlankLines(b)
  {
    if b == [] {
      assert a + b == a;
    } else {
      NonBlankAppend(a, b[..|b| - 1]);
      assert (a + b)[..|a + b| - 1] == a + b[..|b| - 1];
    }
  }
}
