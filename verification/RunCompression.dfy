/** `compressSequence` of `scripts/analyze-pi-fixtures.ts`: consecutive equal signatures
    collapsed into counted runs. */
module RunCompression {
  datatype Run = Run(name: string, count: nat)

  function Repeat(name: string, count: nat): (r: seq<string>)
    ensures |r| == count
    ensures forall k :: 0 <= k < count ==> r[k] == name
  {
    if count == 0 then [] else [name] + Repeat(name, count - 1)
  }

  function Expand(runs: seq<Run>): seq<string> {
    if runs == [] then [] else Expand(runs[..|runs| - 1]) + Repeat(runs[|runs| - 1].name, runs[|runs| - 1].count)
  }

  function Total(runs: seq<Run>): nat {
    if runs == [] then 0 else Total(runs[..|runs| - 1]) + runs[|runs| - 1].count
  }

  ghost predicate Positive(runs: seq<Run>) {
    forall k :: 0 <= k < |runs| ==> runs[k].count > 0
  }

  ghost predicate NeighboursDiffer(runs: seq<Run>) {
    forall k :: 0 <= k < |runs| - 1 ==> runs[k].name != runs[k + 1].name
  }

  /** The two nested loops: `end` walks to the end of the run that starts at `index`. */
  method CompressSequence(sequence: seq<string>) returns (runs: seq<Run>)
    ensures Expand(runs) == sequence
    ensures Positive(runs) && NeighboursDiffer(runs)
  {
    runs := [];
    var index := 0;
    while index < |sequence|
      invariant 0 <= index <= |sequence|
      invariant Expand(runs) == sequence[..index]
      invariant Positive(runs) && NeighboursDiffer(runs)
      invariant runs != [] && index < |sequence| ==> runs[|runs| - 1].name != sequence[index]
    {
      var end := index;
      while end + 1 < |sequence| && sequence[end + 1] == sequence[index]
        invariant index <= end < |sequence|
        invariant forall k :: index <= k <= end ==> sequence[k] == sequence[index]
      {
        end := end + 1;
      }
      var length := end - index + 1;
      var run := Run(sequence[index], length);
      assert (runs + [run])[..|runs|] == runs;
      assert sequence[index..end + 1] == Repeat(run.name, length);
      assert sequence[..end + 1] == sequence[..index] + sequence[index..end + 1];
      runs := runs + [run];
      index := end + 1;
    }
    assert sequence[..|sequence|] == sequence;
  }

  lemma {:induction false} CountsSum(runs: seq<Run>)
    ensures Total(runs) == |Expand(runs)|
  {
    if runs != [] { CountsSum(runs[..|runs| - 1]); }
  }

  /** Places where a sequence changes from one element to the next. */
  function Changes(s: seq<string>): nat {
    if |s| < 2 then 0
    else Changes(s[..|s| - 1]) + if s[|s| - 2] == s[|s| - 1] then 0 else 1
  }

  lemma {:induction false} ChangesOfRepeat(s: seq<string>, name: string, count: nat)
    requires count > 0
    ensures Changes(s + Repeat(name, count))
         == if s == [] || s[|s| - 1] == name then Changes(s) else Changes(s) + 1
  {
    var t := s + Repeat(name, count);
    var shorter := s + Repeat(name, count - 1);
    assert t[..|t| - 1] == shorter;
    if count == 1 {
      assert shorter == s;
    } else {
      ChangesOfRepeat(s, name, count - 1);
      assert t[|t| - 2] == name == t[|t| - 1];
    }
  }

  /** However a sequence is cut into constant runs, it has at most one change per run
      boundary. */
  lemma {:induction false} ChangesBounded(runs: seq<Run>)
    ensures Expand(runs) != [] ==> Changes(Expand(runs)) + 1 <= |runs|
  {
    if runs != [] {
      var front, last := runs[..|runs| - 1], runs[|runs| - 1];
      ChangesBounded(front);
      if last.count == 0 {
        assert Expand(front) + [] == Expand(front);
      } else {
        ChangesOfRepeat(Expand(front), last.name, last.count);
      }
    }
  }

  lemma {:induction false} LastOfExpand(runs: seq<Run>)
    requires runs != [] && Positive(runs)
    ensures Expand(runs) != [] && Expand(runs)[|Expand(runs)| - 1] == runs[|runs| - 1].name
  {}

  /** And with positive counts and differing neighbours, exactly one. */
  lemma {:induction false} ChangesExact(runs: seq<Run>)
    requires Positive(runs) && NeighboursDiffer(runs)
    ensures runs != [] ==> Changes(Expand(runs)) + 1 == |runs|
  {
    if runs != [] {
      var front, last := runs[..|runs| - 1], runs[|runs| - 1];
      ChangesExact(front);
      ChangesOfRepeat(Expand(front), last.name, last.count);
      if front != [] {
        LastOfExpand(front);
        assert runs[|runs| - 2].name != runs[|runs| - 1].name;
      }
    }
  }

  /** No other decomposition into constant runs, zero counts and repeated neighbours
      allowed, has fewer runs. */
  lemma Minimal(runs: seq<Run>, others: seq<Run>)
    requires Positive(runs) && NeighboursDiffer(runs)
    requires Expand(others) == Expand(runs)
    ensures |runs| <= |others|
  {
    if runs != [] {
      ChangesExact(runs);
      LastOfExpand(runs);
      ChangesBounded(others);
    }
  }

  function Trailing(s: seq<string>, name: string): nat {
    if s == [] || s[|s| - 1] != name then 0 else 1 + Trailing(s[..|s| - 1], name)
  }

  lemma {:induction false} TrailingRepeat(a: seq<string>, name: string, count: nat)
    requires a == [] || a[|a| - 1] != name
    ensures Trailing(a + Repeat(name, count), name) == count
  {
    var s := a + Repeat(name, count);
    if count == 0 {
      assert s == a;
    } else {
      TrailingRepeat(a, name, count - 1);
      assert s[..|s| - 1] == a + Repeat(name, count - 1);
    }
  }

  lemma SameLastRun(a: seq<string>, b: seq<string>, name: string, m: nat, n: nat)
    requires a + Repeat(name, m) == b + Repeat(name, n)
    requires a == [] || a[|a| - 1] != name
    requires b == [] || b[|b| - 1] != name
    ensures a == b && m == n
  {
    var s := a + Repeat(name, m);
    TrailingRepeat(a, name, m);
    TrailingRepeat(b, name, n);
    assert a == s[..|a|] && b == s[..|b|];
  }

  /** The compressed form is the only one with positive counts and differing neighbours. */
  lemma {:induction false} CanonicalUnique(runs: seq<Run>, others: seq<Run>)
    requires Positive(runs) && NeighboursDiffer(runs)
    requires Positive(others) && NeighboursDiffer(others)
    requires Expand(others) == Expand(runs)
    ensures runs == others
  {
    if runs == [] {
      if others != [] { LastOfExpand(others); }
    } else {
      LastOfExpand(runs);
      if others != [] { LastOfExpand(others); }
      var front, last := runs[..|runs| - 1], runs[|runs| - 1];
      var front', last' := others[..|others| - 1], others[|others| - 1];
      if front != [] { LastOfExpand(front); assert runs[|runs| - 2].name != runs[|runs| - 1].name; }
      if front' != [] { LastOfExpand(front'); assert others[|others| - 2].name != others[|others| - 1].name; }
      SameLastRun(Expand(front), Expand(front'), last.name, last.count, last'.count);
      CanonicalUnique(front, front');
      assert runs == front + [last] && others == front' + [last'];
    }
  }
}
