/** The compute-queue transitions of `playground/compute-queue-preview.tsx`: cancelling
    a job and starting one over the slot limit, by filter, stable sort and renumbering. */
module QueuePreview {
  import opened Common

  datatype JobState = Queued | Running | Succeeded | Failed | Cancelled

  /** `rest` stands for the fields no transition touches. */
  datatype Job = Job(id: string, state: JobState, position: Option<int>, startedAt: Option<int>, rest: int)

  datatype Queue = Queue(enabled: bool, inUse: nat, jobs: seq<Job>, slots: int)

  // ---------------------------------------------------------- transitions

  function Without(jobs: seq<Job>, id: string): seq<Job> {
    if jobs == [] then []
    else if jobs[0].id == id then Without(jobs[1..], id)
    else [jobs[0]] + Without(jobs[1..], id)
  }

  function InState(jobs: seq<Job>, state: JobState): seq<Job> {
    if jobs == [] then []
    else if jobs[0].state == state then [jobs[0]] + InState(jobs[1..], state)
    else InState(jobs[1..], state)
  }

  function Key(job: Job): int {
    if job.position.Some? then job.position.value else 0
  }

  function Insert(job: Job, sorted: seq<Job>): (r: seq<Job>)
    ensures |r| == |sorted| + 1
  {
    if sorted == [] then [job]
    else if Key(job) <= Key(sorted[0]) then [job] + sorted
    else [sorted[0]] + Insert(job, sorted[1..])
  }

  /** Ascending by position, equal positions left in their order. */
  function StableSort(jobs: seq<Job>): (r: seq<Job>)
    ensures |r| == |jobs|
  {
    if jobs == [] then [] else Insert(jobs[0], StableSort(jobs[1..]))
  }

  function Ids(jobs: seq<Job>): (r: seq<string>)
    ensures |r| == |jobs|
    ensures forall k :: 0 <= k < |r| ==> r[k] == jobs[k].id
  {
    if jobs == [] then [] else [jobs[0].id] + Ids(jobs[1..])
  }

  predicate FirstAt(ids: seq<string>, id: string, k: int) {
    0 <= k < |ids| && ids[k] == id && id !in ids[..k]
  }

  lemma {:induction false} FirstExists(ids: seq<string>, id: string)
    requires id in ids
    ensures exists k :: 0 <= k < |ids| && FirstAt(ids, id, k)
  {
    if ids[0] == id {
      assert FirstAt(ids, id, 0);
    } else {
      FirstExists(ids[1..], id);
      var k :| 0 <= k < |ids[1..]| && FirstAt(ids[1..], id, k);
      assert ids[..k + 1] == [ids[0]] + ids[1..][..k];
      assert FirstAt(ids, id, k + 1);
    }
  }

  /** The first index holding the id, or -1. */
  function IndexOf(ids: seq<string>, id: string): (index: int)
    ensures -1 <= index < |ids|
    ensures index >= 0 ==> FirstAt(ids, id, index)
    ensures index < 0 <==> id !in ids
  {
    if id !in ids then -1
    else
      FirstExists(ids, id);
      assert forall i, j :: FirstAt(ids, id, i) && FirstAt(ids, id, j) ==> i == j;
      var k :| 0 <= k < |ids| && FirstAt(ids, id, k);
      k
  }

  /** The waiting line: queued ids by position. */
  function Line(jobs: seq<Job>): seq<string> {
    Ids(StableSort(InState(jobs, Queued)))
  }

  function Placed(job: Job, line: seq<string>): Job {
    if job.state == Queued then job.(position := Some(IndexOf(line, job.id) + 1)) else job
  }

  function Renumber(jobs: seq<Job>, line: seq<string>): (r: seq<Job>)
    ensures |r| == |jobs|
    ensures forall k :: 0 <= k < |r| ==> r[k] == Placed(jobs[k], line)
  {
    if jobs == [] then [] else [Placed(jobs[0], line)] + Renumber(jobs[1..], line)
  }

  function WithoutJob(q: Queue, id: string): Queue {
    var remaining := Without(q.jobs, id);
    var jobs := Renumber(remaining, Line(remaining));
    q.(inUse := |InState(jobs, Running)|, jobs := jobs)
  }

  function Find(jobs: seq<Job>, id: string): Option<Job> {
    if jobs == [] then None
    else if jobs[0].id == id then Some(jobs[0])
    else Find(jobs[1..], id)
  }

  function WithJobStarted(q: Queue, id: string, now: int): Queue {
    var found := Find(q.jobs, id);
    if found.None? || found.value.state != Queued then q
    else
      var rest := WithoutJob(q, id);
      var started := found.value.(position := None, startedAt := Some(now), state := Running);
      rest.(inUse := rest.inUse + 1, jobs := rest.jobs + [started])
  }

  // ------------------------------------------------------- the stable sort

  ghost predicate Sorted(jobs: seq<Job>) {
    jobs == [] || (Sorted(jobs[1..]) && forall j :: j in jobs ==> Key(jobs[0]) <= Key(j))
  }

  function WithKey(jobs: seq<Job>, key: int): seq<Job> {
    if jobs == [] then []
    else if Key(jobs[0]) == key then [jobs[0]] + WithKey(jobs[1..], key)
    else WithKey(jobs[1..], key)
  }

  lemma {:induction false} InsertMembers(job: Job, sorted: seq<Job>)
    ensures forall j :: j in Insert(job, sorted) <==> j == job || j in sorted
  {
    if sorted != [] { InsertMembers(job, sorted[1..]); }
  }

  lemma {:induction false} InsertSorted(job: Job, sorted: seq<Job>)
    requires Sorted(sorted)
    ensures Sorted(Insert(job, sorted))
    ensures forall key :: WithKey(Insert(job, sorted), key) == WithKey([job] + sorted, key)
  {
    if sorted != [] && Key(job) > Key(sorted[0]) {
      InsertSorted(job, sorted[1..]);
      InsertMembers(job, sorted[1..]);
      forall key ensures WithKey(Insert(job, sorted), key) == WithKey([job] + sorted, key) {
        assert ([job] + sorted)[1..] == sorted;
        assert ([job] + sorted[1..])[1..] == sorted[1..];
      }
    }
  }

  lemma {:induction false} SortMembers(jobs: seq<Job>)
    ensures forall j :: j in StableSort(jobs) <==> j in jobs
  {
    if jobs != [] {
      SortMembers(jobs[1..]);
      InsertMembers(jobs[0], StableSort(jobs[1..]));
    }
  }

  lemma {:induction false} SortSorts(jobs: seq<Job>)
    ensures Sorted(StableSort(jobs))
    ensures SameByKey(StableSort(jobs), jobs)
  {
    if jobs != [] {
      var rest := StableSort(jobs[1..]);
      SortSorts(jobs[1..]);
      InsertSorted(jobs[0], rest);
      forall key ensures WithKey(StableSort(jobs), key) == WithKey(jobs, key) {
        assert ([jobs[0]] + rest)[1..] == rest;
      }
    }
  }

  lemma {:induction false} WithKeyMembers(jobs: seq<Job>, key: int)
    ensures forall j :: j in WithKey(jobs, key) <==> j in jobs && Key(j) == key
  {
    if jobs != [] { WithKeyMembers(jobs[1..], key); }
  }

  lemma WithKeyHead(jobs: seq<Job>)
    ensures jobs != [] ==> |WithKey(jobs, Key(jobs[0]))| > 0
  {}

  ghost predicate SameByKey(xs: seq<Job>, ys: seq<Job>) {
    forall key :: WithKey(xs, key) == WithKey(ys, key)
  }

  lemma {:induction false} SortedUnique(xs: seq<Job>, ys: seq<Job>)
    requires Sorted(xs) && Sorted(ys)
    requires SameByKey(xs, ys)
    ensures xs == ys
  {
    WithKeyHead(xs);
    WithKeyHead(ys);
    if xs != [] {
      WithKeyMembers(ys, Key(xs[0]));
      assert xs[0] in WithKey(xs, Key(xs[0]));
      assert xs[0] in ys;
      WithKeyMembers(xs, Key(ys[0]));
      assert ys[0] in WithKey(ys, Key(ys[0]));
      assert ys[0] in xs;
      assert Key(xs[0]) == Key(ys[0]);
      assert WithKey(xs, Key(xs[0]))[0] == xs[0] && WithKey(ys, Key(xs[0]))[0] == ys[0];
      forall key ensures WithKey(xs[1..], key) == WithKey(ys[1..], key) {
        assert WithKey(xs, key) == WithKey(ys, key);
        if key == Key(xs[0]) {
          assert WithKey(xs, key)[1..] == WithKey(xs[1..], key);
          assert WithKey(ys, key)[1..] == WithKey(ys[1..], key);
        }
      }
      SortedUnique(xs[1..], ys[1..]);
    }
  }

  /** There is one stable sort: the only ascending list that keeps, for every
      position, the jobs sharing it in their order. */
  lemma StableSortCharacterised(jobs: seq<Job>, ys: seq<Job>)
    ensures ys == StableSort(jobs) <==> Sorted(ys) && SameByKey(ys, jobs)
  {
    SortSorts(jobs);
    if Sorted(ys) && SameByKey(ys, jobs) {
      SortedUnique(ys, StableSort(jobs));
    }
  }

  // --------------------------------------------- removal against the sort

  lemma {:induction false} WithoutMembers(jobs: seq<Job>, id: string)
    ensures forall j :: j in Without(jobs, id) <==> j in jobs && j.id != id
  {
    if jobs != [] { WithoutMembers(jobs[1..], id); }
  }

  lemma {:induction false} InsertWithout(job: Job, sorted: seq<Job>, id: string)
    requires Sorted(sorted)
    ensures Without(Insert(job, sorted), id)
         == if job.id == id then Without(sorted, id) else Insert(job, Without(sorted, id))
  {
    if sorted != [] {
      if Key(job) <= Key(sorted[0]) {
        assert ([job] + sorted)[1..] == sorted;
        WithoutMembers(sorted, id);
        if Without(sorted, id) != [] {
          assert Without(sorted, id)[0] in sorted;
        }
      } else {
        InsertWithout(job, sorted[1..], id);
        assert ([sorted[0]] + Insert(job, sorted[1..]))[1..] == Insert(job, sorted[1..]);
      }
    }
  }

  lemma {:induction false} SortWithout(jobs: seq<Job>, id: string)
    ensures StableSort(Without(jobs, id)) == Without(StableSort(jobs), id)
  {
    if jobs != [] {
      SortWithout(jobs[1..], id);
      SortSorts(jobs[1..]);
      InsertWithout(jobs[0], StableSort(jobs[1..]), id);
    }
  }

  lemma {:induction false} InStateWithout(jobs: seq<Job>, id: string, state: JobState)
    ensures InState(Without(jobs, id), state) == Without(InState(jobs, state), id)
  {
    if jobs != [] { InStateWithout(jobs[1..], id, state); }
  }

  function Minus(ids: seq<string>, id: string): seq<string> {
    if ids == [] then []
    else if ids[0] == id then Minus(ids[1..], id)
    else [ids[0]] + Minus(ids[1..], id)
  }

  lemma {:induction false} IdsWithout(jobs: seq<Job>, id: string)
    ensures Ids(Without(jobs, id)) == Minus(Ids(jobs), id)
  {
    if jobs != [] { IdsWithout(jobs[1..], id); }
  }

  /** Removing a job removes it from the waiting line and moves nobody else in it. */
  lemma LineWithout(jobs: seq<Job>, id: string)
    ensures Line(Without(jobs, id)) == Minus(Line(jobs), id)
  {
    InStateWithout(jobs, id, Queued);
    SortWithout(InState(jobs, Queued), id);
    IdsWithout(StableSort(InState(jobs, Queued)), id);
  }

  // --------------------------------------------------------- renumbering

  ghost predicate Distinct(ids: seq<string>) {
    forall i, j :: 0 <= i < j < |ids| ==> ids[i] != ids[j]
  }

  lemma {:induction false} MinusMembers(ids: seq<string>, id: string)
    ensures forall i :: i in Minus(ids, id) <==> i in ids && i != id
  {
    if ids != [] { MinusMembers(ids[1..], id); }
  }

  lemma {:induction false} MinusDistinct(ids: seq<string>, id: string)
    requires Distinct(ids)
    ensures Distinct(Minus(ids, id))
  {
    if ids != [] {
      MinusDistinct(ids[1..], id);
      MinusMembers(ids[1..], id);
      assert ids[0] !in ids[1..];
    }
  }

  lemma {:induction false} InStateMembers(jobs: seq<Job>, state: JobState)
    ensures forall j :: j in InState(jobs, state) <==> j in jobs && j.state == state
  {
    if jobs != [] { InStateMembers(jobs[1..], state); }
  }

  lemma {:induction false} InStateIds(jobs: seq<Job>, state: JobState)
    requires Distinct(Ids(jobs))
    ensures Distinct(Ids(InState(jobs, state)))
    ensures forall id :: id in Ids(InState(jobs, state)) ==> id in Ids(jobs)
  {
    if jobs != [] {
      assert Ids(jobs)[1..] == Ids(jobs[1..]);
      InStateIds(jobs[1..], state);
      assert Ids(jobs)[0] !in Ids(jobs[1..]);
    }
  }

  lemma {:induction false} InsertIds(job: Job, sorted: seq<Job>)
    requires job.id !in Ids(sorted) && Distinct(Ids(sorted))
    ensures Distinct(Ids(Insert(job, sorted)))
    ensures forall id :: id in Ids(Insert(job, sorted)) <==> id == job.id || id in Ids(sorted)
  {
    if sorted != [] {
      assert Ids(sorted)[1..] == Ids(sorted[1..]);
      if Key(job) > Key(sorted[0]) {
        InsertIds(job, sorted[1..]);
        assert Ids(sorted)[0] !in Ids(sorted[1..]);
      } else {
        assert Ids([job] + sorted) == [job.id] + Ids(sorted) by { assert ([job] + sorted)[1..] == sorted; }
      }
    }
  }

  lemma {:induction false} SortIds(jobs: seq<Job>)
    requires Distinct(Ids(jobs))
    ensures Distinct(Ids(StableSort(jobs)))
    ensures forall id :: id in Ids(StableSort(jobs)) <==> id in Ids(jobs)
  {
    if jobs != [] {
      assert Ids(jobs)[1..] == Ids(jobs[1..]);
      SortIds(jobs[1..]);
      assert Ids(jobs)[0] !in Ids(jobs[1..]);
      InsertIds(jobs[0], StableSort(jobs[1..]));
    }
  }

  // ---------------------------------------------------- dense positions

  function Keys(jobs: seq<Job>): (r: seq<int>)
    ensures |r| == |jobs|
    ensures forall k :: 0 <= k < |r| ==> r[k] == Key(jobs[k])
  {
    if jobs == [] then [] else [Key(jobs[0])] + Keys(jobs[1..])
  }

  ghost predicate Apart(keys: seq<int>) {
    forall i, j :: 0 <= i < j < |keys| ==> keys[i] != keys[j]
  }

  ghost predicate Within(jobs: seq<Job>, n: nat) {
    forall j :: j in jobs ==> 1 <= Key(j) <= n
  }

  ghost predicate AllPlaced(jobs: seq<Job>) {
    forall j :: j in jobs ==> j.position.Some?
  }

  /** The waiting positions are exactly 1..n: n distinct values between 1 and n. */
  ghost predicate Dense(jobs: seq<Job>) {
    var queued := InState(jobs, Queued);
    && Distinct(Ids(jobs))
    && AllPlaced(queued)
    && Apart(Keys(queued))
    && Within(queued, |queued|)
  }

  lemma {:induction false} InsertKeys(job: Job, sorted: seq<Job>)
    requires Key(job) !in Keys(sorted) && Apart(Keys(sorted))
    ensures Apart(Keys(Insert(job, sorted)))
    ensures forall k :: k in Keys(Insert(job, sorted)) <==> k == Key(job) || k in Keys(sorted)
  {
    if sorted == [] || Key(job) <= Key(sorted[0]) {
      assert [job] + sorted == Insert(job, sorted);
    } else {
      var rest := sorted[1..];
      assert Keys(sorted)[1..] == Keys(rest) && Keys(sorted)[0] !in Keys(rest);
      InsertKeys(job, rest);
    }
  }

  lemma {:induction false} SortKeys(jobs: seq<Job>)
    requires Apart(Keys(jobs))
    ensures Apart(Keys(StableSort(jobs)))
    ensures forall k :: k in Keys(StableSort(jobs)) <==> k in Keys(jobs)
  {
    if jobs != [] {
      assert Keys(jobs)[1..] == Keys(jobs[1..]);
      SortKeys(jobs[1..]);
      assert Keys(jobs)[0] !in Keys(jobs[1..]);
      InsertKeys(jobs[0], StableSort(jobs[1..]));
    }
  }

  ghost predicate Ascending(keys: seq<int>) {
    forall i, j :: 0 <= i < j < |keys| ==> keys[i] <= keys[j]
  }

  lemma {:induction false} SortedAscending(jobs: seq<Job>)
    requires Sorted(jobs)
    ensures Ascending(Keys(jobs))
  {
    if jobs != [] {
      var keys := Keys(jobs);
      SortedAscending(jobs[1..]);
      assert keys[1..] == Keys(jobs[1..]);
      forall i, j | 0 <= i < j < |keys| ensures keys[i] <= keys[j] {
        assert jobs[j] in jobs;
        assert i > 0 ==> keys[i] == keys[1..][i - 1] && keys[j] == keys[1..][j - 1];
      }
    }
  }

  /** n distinct ascending values between 1 and n are 1..n. */
  lemma AscendingRanks(keys: seq<int>)
    requires Ascending(keys) && Apart(keys)
    requires forall i :: 0 <= i < |keys| ==> 1 <= keys[i] <= |keys|
    ensures forall i :: 0 <= i < |keys| ==> keys[i] == i + 1
  {
    for i := 0 to |keys|
      invariant forall k :: 0 <= k < i ==> keys[k] >= k + 1
    {
      assert i > 0 ==> keys[i - 1] < keys[i];
    }
    for i := |keys| downto 0
      invariant forall k :: i <= k < |keys| ==> keys[k] <= k + 1
    {
      assert i + 1 < |keys| ==> keys[i] < keys[i + 1];
    }
  }

  /** The i-th job has position i + 1. */
  ghost predicate InOrder(jobs: seq<Job>) {
    forall i :: 0 <= i < |jobs| ==> Key(jobs[i]) == i + 1
  }

  ghost predicate Covers(all: seq<Job>, some: seq<Job>) {
    forall j :: j in some ==> j in all
  }

  ghost predicate Named(ids: seq<string>, jobs: seq<Job>) {
    |ids| == |jobs| && forall i :: 0 <= i < |jobs| ==> ids[i] == jobs[i].id
  }

  lemma LineParts(queued: seq<Job>)
    ensures Covers(queued, StableSort(queued)) && Covers(StableSort(queued), queued)
    ensures Named(Ids(StableSort(queued)), StableSort(queued))
  {
    SortMembers(queued);
  }

  lemma SortKeepsPositions(jobs: seq<Job>, sorted: seq<Job>, n: nat)
    requires sorted == StableSort(jobs)
    requires Apart(Keys(jobs)) && Within(jobs, n)
    ensures Sorted(sorted) && Apart(Keys(sorted)) && Within(sorted, n)
  {
    SortKeys(jobs);
    SortSorts(jobs);
    LineParts(jobs);
  }

  lemma SortedDense(queued: seq<Job>, sorted: seq<Job>)
    requires sorted == StableSort(queued)
    requires Apart(Keys(queued)) && Within(queued, |queued|)
    ensures InOrder(sorted)
  {
    SortKeepsPositions(queued, sorted, |queued|);
    DenseInOrder(sorted);
  }

  lemma DenseInOrder(jobs: seq<Job>)
    requires Sorted(jobs) && Apart(Keys(jobs)) && Within(jobs, |jobs|)
    ensures InOrder(jobs)
  {
    SortedAscending(jobs);
    forall i | 0 <= i < |jobs| ensures 1 <= Keys(jobs)[i] <= |jobs| {
      assert jobs[i] in jobs;
    }
    AscendingRanks(Keys(jobs));
  }

  /** A job standing at its one-based index in a line. */
  ghost predicate Stands(job: Job, line: seq<string>) {
    job.id in line && job.position == Some(IndexOf(line, job.id) + 1)
  }

  ghost predicate Ranked(queued: seq<Job>, line: seq<string>) {
    forall k :: 0 <= k < |queued| ==> Stands(queued[k], line)
  }

  /** With dense positions every waiting job stands at its own index in the line. */
  lemma DenseRanked(queued: seq<Job>)
    requires Distinct(Ids(queued)) && AllPlaced(queued)
    requires Apart(Keys(queued)) && Within(queued, |queued|)
    ensures Ranked(queued, Ids(StableSort(queued)))
  {
    var s := StableSort(queued);
    SortedDense(queued, s);
    SortIds(queued);
    LineParts(queued);
    StandInOrder(s, queued, Ids(s));
  }

  lemma StandInOrder(s: seq<Job>, queued: seq<Job>, line: seq<string>)
    requires Named(line, s) && InOrder(s) && Covers(s, queued)
    requires Distinct(line) && AllPlaced(queued)
    ensures Ranked(queued, line)
  {
    forall i | 0 <= i < |queued| ensures Stands(queued[i], line) {
      assert queued[i] in queued;
      var k :| 0 <= k < |s| && s[k] == queued[i];
      assert line[k] in line;
    }
  }

  /** A ranking by any list as long as the line makes that list the line. */
  lemma RankedLine(queued: seq<Job>, sorted: seq<Job>, ids: seq<string>, line: seq<string>)
    requires sorted == StableSort(queued) && ids == Ids(sorted)
    requires Distinct(Ids(queued))
    requires |line| == |queued| && Ranked(queued, line)
    ensures ids == line
  {
    SortedDense(queued, sorted);
    LineParts(queued);
    OrderIsLine(sorted, queued, ids, line);
  }

  lemma OrderIsLine(s: seq<Job>, queued: seq<Job>, ids: seq<string>, line: seq<string>)
    requires Named(ids, s) && |line| == |s| && InOrder(s)
    requires Ranked(queued, line) && Covers(queued, s)
    ensures ids == line
  {
    forall i | 0 <= i < |s| ensures ids[i] == line[i] {
      assert s[i] in s;
      var k :| 0 <= k < |queued| && queued[k] == s[i];
      assert Stands(queued[k], line);
      assert Key(s[i]) == i + 1;
    }
  }

  // ------------------------------------------------------------ one cancel

  lemma {:induction false} RenumberIds(jobs: seq<Job>, line: seq<string>)
    ensures Ids(Renumber(jobs, line)) == Ids(jobs)
  {
    if jobs != [] { RenumberIds(jobs[1..], line); }
  }

  lemma {:induction false} RenumberInState(jobs: seq<Job>, line: seq<string>, state: JobState)
    ensures InState(Renumber(jobs, line), state) == Renumber(InState(jobs, state), line)
  {
    if jobs != [] { RenumberInState(jobs[1..], line, state); }
  }

  lemma {:induction false} RenumberWithout(jobs: seq<Job>, line: seq<string>, id: string)
    ensures Without(Renumber(jobs, line), id) == Renumber(Without(jobs, id), line)
  {
    if jobs != [] { RenumberWithout(jobs[1..], line, id); }
  }

  lemma RenumberTwice(jobs: seq<Job>, first: seq<string>, second: seq<string>)
    ensures Renumber(Renumber(jobs, first), second) == Renumber(jobs, second)
  {}

  lemma WithoutDistinct(jobs: seq<Job>, id: string)
    requires Distinct(Ids(jobs))
    ensures Distinct(Ids(Without(jobs, id)))
  {
    IdsWithout(jobs, id);
    MinusDistinct(Ids(jobs), id);
  }

  lemma PlacedStand(queued: seq<Job>)
    requires forall j :: j in queued ==> j.state == Queued
    ensures Ranked(Renumber(queued, Ids(StableSort(queued))), Ids(StableSort(queued)))
  {
    LineParts(queued);
    PlacedInLine(queued, StableSort(queued), Ids(StableSort(queued)));
  }

  lemma PlacedInLine(queued: seq<Job>, s: seq<Job>, line: seq<string>)
    requires forall j :: j in queued ==> j.state == Queued
    requires Covers(s, queued) && Named(line, s)
    ensures Ranked(Renumber(queued, line), line)
  {
    forall k | 0 <= k < |queued| ensures Stands(Renumber(queued, line)[k], line) {
      assert queued[k] in queued;
      var at :| 0 <= at < |s| && s[at] == queued[k];
      assert line[at] in line;
    }
  }

  /** After renumbering, the positions are dense and the line is the one used. */
  lemma RenumberedLine(jobs: seq<Job>)
    requires Distinct(Ids(jobs))
    ensures Dense(Renumber(jobs, Line(jobs)))
    ensures Line(Renumber(jobs, Line(jobs))) == Line(jobs)
  {
    var line := Line(jobs);
    var queued := InState(jobs, Queued);
    RenumberInState(jobs, line, Queued);
    RenumberIds(jobs, line);
    RenumberIds(queued, line);
    InStateIds(jobs, Queued);
    InStateMembers(jobs, Queued);
    PlacedStand(queued);
    var sorted := StableSort(Renumber(queued, line));
    RankedLine(Renumber(queued, line), sorted, Ids(sorted), line);
  }

  /** Whatever the positions were, missing or tied: a cancel takes the job out of the
      line, keeps everybody else's order, and leaves dense positions. */
  lemma CancelKeepsLine(q: Queue, id: string)
    requires Distinct(Ids(q.jobs))
    ensures
      var after := WithoutJob(q, id);
      && Dense(after.jobs)
      && Line(after.jobs) == Minus(Line(q.jobs), id)
      && Ids(after.jobs) == Minus(Ids(q.jobs), id)
  {
    WithoutDistinct(q.jobs, id);
    RenumberedLine(Without(q.jobs, id));
    LineWithout(q.jobs, id);
    IdsWithout(q.jobs, id);
    RenumberIds(Without(q.jobs, id), Line(Without(q.jobs, id)));
  }

  // ----------------------------------------------------- cancels in a row

  function WithoutAll(jobs: seq<Job>, ids: seq<string>): seq<Job> {
    if ids == [] then jobs else Without(WithoutAll(jobs, ids[..|ids| - 1]), ids[|ids| - 1])
  }

  function CancelAll(q: Queue, ids: seq<string>): Queue {
    if ids == [] then q else WithoutJob(CancelAll(q, ids[..|ids| - 1]), ids[|ids| - 1])
  }

  /** The queue with its jobs renumbered in their line and its slots recounted. */
  function Settled(q: Queue, jobs: seq<Job>): Queue {
    var placed := Renumber(jobs, Line(jobs));
    q.(inUse := |InState(placed, Running)|, jobs := placed)
  }

  lemma {:induction false} WithoutAllDistinct(jobs: seq<Job>, ids: seq<string>)
    requires Distinct(Ids(jobs))
    ensures Distinct(Ids(WithoutAll(jobs, ids)))
  {
    if ids != [] {
      WithoutAllDistinct(jobs, ids[..|ids| - 1]);
      WithoutDistinct(WithoutAll(jobs, ids[..|ids| - 1]), ids[|ids| - 1]);
    }
  }

  lemma CancelSettled(q: Queue, jobs: seq<Job>, id: string)
    requires Distinct(Ids(jobs))
    ensures WithoutJob(Settled(q, jobs), id) == Settled(q, Without(jobs, id))
  {
    var line := Line(jobs);
    var rest := Without(jobs, id);
    RenumberWithout(jobs, line, id);
    RenumberedLine(jobs);
    LineWithout(Renumber(jobs, line), id);
    LineWithout(jobs, id);
    RenumberTwice(rest, line, Line(rest));
  }

  /** Any row of cancels is one cancel of all of them. */
  lemma {:induction false} CancelsAreOneCancel(q: Queue, ids: seq<string>)
    requires Distinct(Ids(q.jobs)) && ids != []
    ensures CancelAll(q, ids) == Settled(q, WithoutAll(q.jobs, ids))
  {
    var front, last := ids[..|ids| - 1], ids[|ids| - 1];
    if front == [] {
      assert CancelAll(q, front) == q && WithoutAll(q.jobs, front) == q.jobs;
    } else {
      CancelsAreOneCancel(q, front);
      WithoutAllDistinct(q.jobs, front);
      CancelSettled(q, WithoutAll(q.jobs, front), last);
    }
  }

  function Keep(jobs: seq<Job>, gone: set<string>): seq<Job> {
    if jobs == [] then []
    else if jobs[0].id in gone then Keep(jobs[1..], gone)
    else [jobs[0]] + Keep(jobs[1..], gone)
  }

  lemma {:induction false} KeepWithout(jobs: seq<Job>, gone: set<string>, id: string)
    ensures Without(Keep(jobs, gone), id) == Keep(jobs, gone + {id})
  {
    if jobs != [] { KeepWithout(jobs[1..], gone, id); }
  }

  lemma {:induction false} KeepAll(jobs: seq<Job>)
    ensures Keep(jobs, {}) == jobs
  {
    if jobs != [] { KeepAll(jobs[1..]); }
  }

  lemma {:induction false} WithoutAllKeeps(jobs: seq<Job>, ids: seq<string>)
    ensures WithoutAll(jobs, ids) == Keep(jobs, set id | id in ids)
  {
    if ids == [] {
      KeepAll(jobs);
      assert (set id | id in ids) == {};
    } else {
      var front := ids[..|ids| - 1];
      WithoutAllKeeps(jobs, front);
      KeepWithout(jobs, (set id | id in front), ids[|ids| - 1]);
      assert ids == front + [ids[|ids| - 1]];
      assert (set id | id in ids) == (set id | id in front) + {ids[|ids| - 1]};
    }
  }

  /** Cancels commute, even from tied or missing positions: only which jobs were
      cancelled matters, not the order, nor how often. */
  lemma CancelsCommute(q: Queue, ids: seq<string>, others: seq<string>)
    requires Distinct(Ids(q.jobs)) && ids != [] && others != []
    requires (set id | id in ids) == (set id | id in others)
    ensures CancelAll(q, ids) == CancelAll(q, others)
  {
    CancelsAreOneCancel(q, ids);
    CancelsAreOneCancel(q, others);
    WithoutAllKeeps(q.jobs, ids);
    WithoutAllKeeps(q.jobs, others);
  }

  // ------------------------------------------------------------ closed form

  /** Where a job stands once another one leaves: one place nearer if it stood behind. */
  function Moved(job: Job, gone: Option<int>): Job {
    if job.state == Queued && job.position.Some? && gone.Some? && job.position.value > gone.value
    then job.(position := Some(job.position.value - 1)) else job
  }

  function PlaceOf(jobs: seq<Job>, id: string): Option<int> {
    if jobs == [] then None
    else if jobs[0].id == id && jobs[0].state == Queued then jobs[0].position
    else PlaceOf(jobs[1..], id)
  }

  function MovedAll(jobs: seq<Job>, gone: Option<int>): (r: seq<Job>)
    ensures |r| == |jobs|
    ensures forall k :: 0 <= k < |r| ==> r[k] == Moved(jobs[k], gone)
  {
    if jobs == [] then [] else [Moved(jobs[0], gone)] + MovedAll(jobs[1..], gone)
  }

  lemma {:induction false} MinusSplit(ids: seq<string>, k: nat)
    requires Distinct(ids) && k < |ids|
    ensures Minus(ids, ids[k]) == ids[..k] + ids[k + 1..]
  {
    if k == 0 {
      assert ids[0] !in ids[1..];
      MinusNothing(ids[1..], ids[0]);
    } else {
      MinusSplit(ids[1..], k - 1);
      assert ids[..k] + ids[k + 1..] == [ids[0]] + (ids[1..][..k - 1] + ids[1..][k..]);
    }
  }

  lemma IndexOfMinus(ids: seq<string>, gone: string, id: string)
    requires Distinct(ids) && id in ids && id != gone
    ensures IndexOf(Minus(ids, gone), id)
         == if gone in ids && IndexOf(ids, gone) < IndexOf(ids, id) then IndexOf(ids, id) - 1 else IndexOf(ids, id)
  {
    if gone in ids {
      var g, k := IndexOf(ids, gone), IndexOf(ids, id);
      var rest := ids[..g] + ids[g + 1..];
      MinusSplit(ids, g);
      MinusDistinct(ids, gone);
    } else {
      MinusNothing(ids, gone);
    }
  }

  lemma {:induction false} MinusNothing(ids: seq<string>, gone: string)
    requires gone !in ids
    ensures Minus(ids, gone) == ids
  {
    if ids != [] {
      assert ids[0] in ids;
      MinusNothing(ids[1..], gone);
    }
  }

  lemma {:induction false} PlaceOfQueued(jobs: seq<Job>, id: string)
    requires Distinct(Ids(jobs))
    ensures forall j :: j in jobs && j.id == id && j.state == Queued ==> PlaceOf(jobs, id) == j.position
    ensures PlaceOf(jobs, id).Some? ==> exists j :: j in jobs && j.id == id && j.state == Queued
  {
    if jobs != [] {
      assert Ids(jobs)[1..] == Ids(jobs[1..]);
      PlaceOfQueued(jobs[1..], id);
      forall j | j in jobs[1..] ensures j.id != jobs[0].id {
        var k :| 0 <= k < |jobs[1..]| && jobs[1..][k] == j;
        assert Ids(jobs)[k + 1] == j.id && Ids(jobs)[0] == jobs[0].id;
      }
    }
  }

  /** Everybody waiting in a dense queue stands at its index in the line. */
  lemma StandsInLine(jobs: seq<Job>, queued: seq<Job>, line: seq<string>)
    requires Dense(jobs) && queued == InState(jobs, Queued) && line == Ids(StableSort(queued))
    ensures Distinct(line) && Ranked(queued, line)
  {
    InStateIds(jobs, Queued);
    SortIds(queued);
    DenseRanked(queued);
  }

  /** The line holds nobody but the waiting. */
  ghost predicate Held(queued: seq<Job>, line: seq<string>) {
    forall id :: id in line ==> exists k :: 0 <= k < |queued| && queued[k].id == id
  }

  lemma LineHeld(queued: seq<Job>, line: seq<string>)
    requires line == Ids(StableSort(queued))
    ensures Held(queued, line)
  {
    var sorted := StableSort(queued);
    LineParts(queued);
    forall id | id in line ensures exists k :: 0 <= k < |queued| && queued[k].id == id {
      var i :| 0 <= i < |line| && line[i] == id;
      assert sorted[i] in sorted;
      var k :| 0 <= k < |queued| && queued[k] == sorted[i];
    }
  }

  /** The place a cancel frees, read off the line. */
  lemma FreedPlace(jobs: seq<Job>, queued: seq<Job>, line: seq<string>, id: string)
    requires Distinct(Ids(jobs)) && queued == InState(jobs, Queued)
    requires Held(queued, line) && Ranked(queued, line)
    ensures PlaceOf(jobs, id) == if id in line then Some(IndexOf(line, id) + 1) else None
  {
    if id in line {
      var k :| 0 <= k < |queued| && queued[k].id == id;
      SomethingFreed(jobs, queued, line, k);
    } else {
      NothingFreed(jobs, queued, line, id);
    }
  }

  lemma SomethingFreed(jobs: seq<Job>, queued: seq<Job>, line: seq<string>, k: nat)
    requires Distinct(Ids(jobs)) && queued == InState(jobs, Queued)
    requires k < |queued| && Ranked(queued, line)
    ensures PlaceOf(jobs, queued[k].id) == Some(IndexOf(line, queued[k].id) + 1)
  {
    InStateMembers(jobs, Queued);
    assert queued[k] in queued && Stands(queued[k], line);
    PlaceOfQueued(jobs, queued[k].id);
  }

  lemma NothingFreed(jobs: seq<Job>, queued: seq<Job>, line: seq<string>, id: string)
    requires Distinct(Ids(jobs)) && queued == InState(jobs, Queued)
    requires Ranked(queued, line) && id !in line
    ensures PlaceOf(jobs, id).None?
  {
    InStateMembers(jobs, Queued);
    assert forall k :: 0 <= k < |queued| ==> Stands(queued[k], line) && queued[k].id != id;
    PlaceOfQueued(jobs, id);
  }

  lemma OneMoves(line: seq<string>, id: string, job: Job)
    requires Distinct(line) && job.id != id
    requires job.state == Queued ==> Stands(job, line)
    ensures Placed(job, Minus(line, id))
         == Moved(job, if id in line then Some(IndexOf(line, id) + 1) else None)
  {
    if job.state == Queued {
      IndexOfMinus(line, id, job.id);
    }
  }

  /** Cancelling in a dense queue, by filter, sort and renumber, is the closed form:
      whoever stood behind the cancelled job moves up one place, the rest stay. */
  lemma CancelClosedForm(q: Queue, id: string)
    requires Dense(q.jobs)
    ensures WithoutJob(q, id).jobs == MovedAll(Without(q.jobs, id), PlaceOf(q.jobs, id))
  {
    var queued := InState(q.jobs, Queued);
    var line := Ids(StableSort(queued));
    StandsInLine(q.jobs, queued, line);
    LineHeld(queued, line);
    FreedPlace(q.jobs, queued, line, id);
    LineWithout(q.jobs, id);
    EverybodyMoves(q.jobs, queued, line, id);
  }

  lemma EverybodyMoves(jobs: seq<Job>, queued: seq<Job>, line: seq<string>, id: string)
    requires Distinct(Ids(jobs)) && queued == InState(jobs, Queued)
    requires Distinct(line) && Ranked(queued, line)
    ensures Renumber(Without(jobs, id), Minus(line, id))
         == MovedAll(Without(jobs, id), if id in line then Some(IndexOf(line, id) + 1) else None)
  {
    var rest := Without(jobs, id);
    WithoutMembers(jobs, id);
    InStateMembers(jobs, Queued);
    forall k | 0 <= k < |rest|
      ensures Placed(rest[k], Minus(line, id))
           == Moved(rest[k], if id in line then Some(IndexOf(line, id) + 1) else None)
    {
      assert rest[k] in rest;
      if rest[k].state == Queued {
        assert rest[k] in queued;
        var i :| 0 <= i < |queued| && queued[i] == rest[k];
        assert Stands(queued[i], line);
      }
      OneMoves(line, id, rest[k]);
    }
  }

  // -------------------------------------------------------------- start now

  lemma {:induction false} InStateAppend(jobs: seq<Job>, job: Job, state: JobState)
    ensures InState(jobs + [job], state)
         == if job.state == state then InState(jobs, state) + [job] else InState(jobs, state)
  {
    if jobs == [] {
      assert jobs + [job] == [job];
      assert [job][1..] == [];
    } else {
      InStateAppend(jobs[1..], job, state);
      assert (jobs + [job])[1..] == jobs[1..] + [job];
    }
  }

  lemma {:induction false} WithoutAppend(jobs: seq<Job>, job: Job, id: string)
    ensures Without(jobs + [job], id) == Without(jobs, id) + if job.id == id then [] else [job]
  {
    if jobs == [] {
      assert jobs + [job] == [job];
      assert [job][1..] == [];
    } else {
      WithoutAppend(jobs[1..], job, id);
      assert (jobs + [job])[1..] == jobs[1..] + [job];
    }
  }

  lemma {:induction false} WithoutNobody(jobs: seq<Job>, id: string)
    requires id !in Ids(jobs)
    ensures Without(jobs, id) == jobs
  {
    if jobs != [] {
      assert Ids(jobs)[0] in Ids(jobs) && Ids(jobs)[1..] == Ids(jobs[1..]);
      WithoutNobody(jobs[1..], id);
    }
  }

  lemma {:induction false} FindId(jobs: seq<Job>, id: string)
    ensures Find(jobs, id).Some? ==> Find(jobs, id).value.id == id && id in Ids(jobs)
  {
    if jobs != [] {
      FindId(jobs[1..], id);
      assert Ids(jobs)[0] == jobs[0].id && Ids(jobs)[1..] == Ids(jobs[1..]);
    }
  }

  lemma {:induction false} MinusMultiset(ids: seq<string>, id: string)
    requires Distinct(ids) && id in ids
    ensures multiset(Minus(ids, id)) + multiset{id} == multiset(ids)
  {
    assert ids == [ids[0]] + ids[1..];
    if ids[0] == id {
      MinusNothing(ids[1..], id);
    } else {
      MinusMultiset(ids[1..], id);
    }
  }

  /** Start-now loses and gains nobody. */
  lemma StartConserves(q: Queue, id: string, now: int)
    requires Distinct(Ids(q.jobs))
    ensures multiset(Ids(WithJobStarted(q, id, now).jobs)) == multiset(Ids(q.jobs))
    ensures Distinct(Ids(WithJobStarted(q, id, now).jobs))
  {
    var found := Find(q.jobs, id);
    if found.Some? && found.value.state == Queued {
      FindId(q.jobs, id);
      StartedIds(q, id, now);
      MovedToEnd(Ids(q.jobs), id);
    }
  }

  lemma StartedIds(q: Queue, id: string, now: int)
    requires Distinct(Ids(q.jobs))
    requires Find(q.jobs, id).Some? && Find(q.jobs, id).value.state == Queued
    ensures Ids(WithJobStarted(q, id, now).jobs) == Minus(Ids(q.jobs), id) + [id]
  {
    var started := Find(q.jobs, id).value.(position := None, startedAt := Some(now), state := Running);
    FindId(q.jobs, id);
    CancelKeepsLine(q, id);
  }

  lemma MovedToEnd(ids: seq<string>, id: string)
    requires Distinct(ids) && id in ids
    ensures multiset(Minus(ids, id) + [id]) == multiset(ids)
    ensures Distinct(Minus(ids, id) + [id])
  {
    MinusMultiset(ids, id);
    MinusDistinct(ids, id);
    MinusMembers(ids, id);
  }

  /** It keeps the waiting positions dense and the slot count the running count. */
  lemma StartWellFormed(q: Queue, id: string, now: int)
    requires WellFormed(q)
    ensures WellFormed(WithJobStarted(q, id, now))
  {
    var found := Find(q.jobs, id);
    if found.Some? && found.value.state == Queued {
      var rest := WithoutJob(q, id).jobs;
      var started := found.value.(position := None, startedAt := Some(now), state := Running);
      StartConserves(q, id, now);
      CancelKeepsLine(q, id);
      InStateAppend(rest, started, Queued);
      InStateAppend(rest, started, Running);
    }
  }

  /** The fields no renumbering touches. */
  predicate SameButPosition(a: Job, b: Job) {
    a.id == b.id && a.state == b.state && a.startedAt == b.startedAt && a.rest == b.rest
  }

  /** The job is among these, up to the position it holds if it is queued. */
  ghost predicate Kept(jobs: seq<Job>, job: Job) {
    exists other :: other in jobs && SameButPosition(other, job) && (job.state != Queued ==> other == job)
  }

  /** A cancel touches no field of anybody else but the positions of the queued, and sets
      the slots in use to the jobs left running. */
  lemma CancelTouchesPositions(q: Queue, id: string, job: Job)
    ensures
      var after := WithoutJob(q, id);
      && (job in after.jobs ==> job.id != id && Kept(q.jobs, job))
      && (job in q.jobs && job.id != id ==> Kept(after.jobs, job))
      && after.inUse == |InState(after.jobs, Running)|
      && after.enabled == q.enabled && after.slots == q.slots
  {
    var rest := Without(q.jobs, id);
    var jobs := Renumber(rest, Line(rest));
    WithoutMembers(q.jobs, id);
    if job in jobs {
      var k :| 0 <= k < |jobs| && jobs[k] == job;
      assert rest[k] in rest;
    }
    if job in rest {
      var k :| 0 <= k < |rest| && rest[k] == job;
      assert jobs[k] in jobs;
    }
  }

  lemma {:induction false} FindAt(jobs: seq<Job>, job: Job)
    requires Distinct(Ids(jobs)) && job in jobs
    ensures Find(jobs, job.id) == Some(job)
  {
    if jobs[0] != job {
      assert Ids(jobs)[1..] == Ids(jobs[1..]);
      var k :| 0 <= k < |jobs[1..]| && jobs[1..][k] == job;
      assert Ids(jobs)[k + 1] == job.id && Ids(jobs)[0] == jobs[0].id;
      FindAt(jobs[1..], job);
    }
  }

  lemma {:induction false} FindNone(jobs: seq<Job>, id: string)
    requires forall job :: job in jobs && job.id == id ==> job.state != Queued
    ensures Find(jobs, id).Some? ==> Find(jobs, id).value.state != Queued
  {
    if jobs != [] {
      assert jobs[0] in jobs;
      FindNone(jobs[1..], id);
    }
  }

  /** Starting a queued job makes it run at once: it holds no place, it started now, and
      nothing else about it changed; it takes a slot whatever the limit; and everybody else
      is as a cancel of it leaves them. */
  lemma StartRuns(q: Queue, job: Job, now: int)
    requires Distinct(Ids(q.jobs)) && job in q.jobs && job.state == Queued
    ensures
      var after := WithJobStarted(q, job.id, now);
      var started := Job(job.id, Running, None, Some(now), job.rest);
      && (forall j :: j in after.jobs && j.id == job.id <==> j == started)
      && (forall j :: j in after.jobs && j.id != job.id <==> j in WithoutJob(q, job.id).jobs)
      && after.inUse == WithoutJob(q, job.id).inUse + 1
      && after.enabled == q.enabled && after.slots == q.slots
  {
    FindAt(q.jobs, job);
    forall j { CancelTouchesPositions(q, job.id, j); }
  }

  ghost predicate Runs(jobs: seq<Job>, id: string) {
    exists job :: job in jobs && job.id == id && job.state == Running
  }

  /** So the running jobs are those there were and it. */
  lemma RunningAfterStart(q: Queue, job: Job, now: int, id: string)
    requires Distinct(Ids(q.jobs)) && job in q.jobs && job.state == Queued
    ensures Runs(WithJobStarted(q, job.id, now).jobs, id) <==> id == job.id || Runs(q.jobs, id)
  {
    StartRuns(q, job, now);
    var after := WithJobStarted(q, job.id, now).jobs;
    if id == job.id {
      assert Job(id, Running, None, Some(now), job.rest) in after;
    } else {
      if Runs(after, id) {
        var j :| j in after && j.id == id && j.state == Running;
        CancelTouchesPositions(q, job.id, j);
      }
      if Runs(q.jobs, id) {
        var j :| j in q.jobs && j.id == id && j.state == Running;
        CancelTouchesPositions(q, job.id, j);
        assert j in after;
      }
    }
  }

  /** A job that is gone, or no longer queued, cannot be started. */
  lemma StartOfNobody(q: Queue, id: string, now: int)
    requires forall job :: job in q.jobs && job.id == id ==> job.state != Queued
    ensures WithJobStarted(q, id, now) == q
  {
    FindNone(q.jobs, id);
  }

  /** Starting a job and stopping it again is cancelling it outright. */
  lemma StartThenStop(q: Queue, id: string, now: int)
    requires Distinct(Ids(q.jobs))
    ensures WithoutJob(WithJobStarted(q, id, now), id) == WithoutJob(q, id)
  {
    var found := Find(q.jobs, id);
    if found.Some? && found.value.state == Queued {
      var remaining := Without(q.jobs, id);
      var rest := WithoutJob(q, id);
      var started := found.value.(position := None, startedAt := Some(now), state := Running);
      FindId(q.jobs, id);
      CancelKeepsLine(q, id);
      MinusMembers(Ids(q.jobs), id);
      WithoutAppend(rest.jobs, started, id);
      WithoutNobody(rest.jobs, id);
      assert Without(rest.jobs + [started], id) == rest.jobs;
      WithoutDistinct(q.jobs, id);
      RenumberedLine(remaining);
      RenumberTwice(remaining, Line(remaining), Line(remaining));
    }
  }

  lemma {:induction false} FindOther(jobs: seq<Job>, line: seq<string>, gone: string, id: string)
    requires id != gone
    ensures Find(Renumber(Without(jobs, gone), line), id)
         == match Find(jobs, id) case None => None case Some(job) => Some(Placed(job, line))
  {
    if jobs != [] { FindOther(jobs[1..], line, gone, id); }
  }

  lemma {:induction false} WithoutSwap(jobs: seq<Job>, a: string, b: string)
    ensures Without(Without(jobs, a), b) == Without(Without(jobs, b), a)
  {
    if jobs != [] { WithoutSwap(jobs[1..], a, b); }
  }

  lemma {:induction false} RenumberAppend(jobs: seq<Job>, job: Job, line: seq<string>)
    requires job.state != Queued
    ensures Renumber(jobs + [job], line) == Renumber(jobs, line) + [job]
  {
    if jobs != [] {
      RenumberAppend(jobs[1..], job, line);
      assert (jobs + [job])[1..] == jobs[1..] + [job];
    }
  }

  /** A cancel passes a running job appended at the end by. */
  lemma CancelBesideRunning(q: Queue, running: Job, id: string)
    requires running.state == Running && running.id != id
    ensures WithoutJob(q.(jobs := q.jobs + [running]), id)
         == var c := WithoutJob(q, id); c.(inUse := c.inUse + 1, jobs := c.jobs + [running])
  {
    var rest := Without(q.jobs, id);
    WithoutAppend(q.jobs, running, id);
    InStateAppend(rest, running, Queued);
    RenumberAppend(rest, running, Line(rest));
    InStateAppend(Renumber(rest, Line(rest)), running, Running);
  }

  /** Starting one job and cancelling another commute. */
  lemma StartAndCancelCommute(q: Queue, a: string, b: string, now: int)
    requires Distinct(Ids(q.jobs)) && a != b
    ensures WithoutJob(WithJobStarted(q, a, now), b) == WithJobStarted(WithoutJob(q, b), a, now)
  {
    var found := Find(q.jobs, a);
    FindOther(q.jobs, Line(Without(q.jobs, b)), b, a);
    FindId(q.jobs, a);
    if found.Some? && found.value.state == Queued {
      var started := found.value.(position := None, startedAt := Some(now), state := Running);
      var alone := Settled(q, Without(q.jobs, a));
      assert WithJobStarted(q, a, now) == alone.(inUse := alone.inUse + 1, jobs := alone.jobs + [started]);
      CancelBesideRunning(alone.(inUse := alone.inUse + 1), started, b);
      WithoutDistinct(q.jobs, a);
      WithoutDistinct(q.jobs, b);
      CancelSettled(q, Without(q.jobs, a), b);
      CancelSettled(q, Without(q.jobs, b), a);
      WithoutSwap(q.jobs, a, b);
    }
  }

  // ---------------------------------------------------------------- any run

  datatype Action = Cancel(id: string) | StartNow(id: string, now: int)

  function Act(q: Queue, a: Action): Queue {
    match a
    case Cancel(id) => WithoutJob(q, id)
    case StartNow(id, now) => WithJobStarted(q, id, now)
  }

  function Run(q: Queue, actions: seq<Action>): Queue {
    if actions == [] then q
    else Act(Run(q, actions[..|actions| - 1]), actions[|actions| - 1])
  }

  /** Dense positions, and the slots in use are the running jobs. */
  ghost predicate WellFormed(q: Queue) {
    Dense(q.jobs) && q.inUse == |InState(q.jobs, Running)|
  }

  lemma CancelWellFormed(q: Queue, id: string)
    requires Distinct(Ids(q.jobs))
    ensures WellFormed(WithoutJob(q, id))
  {
    CancelKeepsLine(q, id);
  }

  /** Every run of cancels and starts keeps a queue well formed. */
  lemma {:induction false} EveryRun(q: Queue, actions: seq<Action>)
    requires WellFormed(q)
    ensures WellFormed(Run(q, actions))
  {
    if actions != [] {
      var before := Run(q, actions[..|actions| - 1]);
      EveryRun(q, actions[..|actions| - 1]);
      match actions[|actions| - 1]
      case Cancel(id) => CancelWellFormed(before, id);
      case StartNow(id, now) => StartWellFormed(before, id, now);
    }
  }
}
