/** Launch work held back until the first window has painted (`src/main/main.ts`). */
module BootLatch {
  /** A deferred closure: its name, and what its body does in turn. A body may register
      further tasks, arm the release again, or throw. */
  datatype Task = Task(name: nat, body: Body)
  datatype Body = End | Throw | ReleaseThen(rest: Body) | RegisterThen(task: Task, rest: Body)

  datatype Outcome = Outcome(log: seq<nat>, threw: bool)

  // -------------------------------------- what running a task does, once painted

  /** Registering runs the child there and then; its exception is the parent's too. */
  function Execute(task: Task): Outcome
    decreases task, 0
  {
    var o := ExecuteBody(task.body);
    Outcome([task.name] + o.log, o.threw)
  }

  function ExecuteBody(body: Body): Outcome
    decreases body, 1
  {
    match body
    case End => Outcome([], false)
    case Throw => Outcome([], true)
    case ReleaseThen(rest) => ExecuteBody(rest)
    case RegisterThen(child, rest) =>
      var o := Execute(child);
      if o.threw then o else Outcome(o.log + ExecuteBody(rest).log, ExecuteBody(rest).threw)
  }

  /** The release loop: the first exception leaves it, with the tasks already spliced out. */
  function ExecuteAll(tasks: seq<Task>): Outcome {
    if tasks == [] then Outcome([], false)
    else
      var o := Execute(tasks[0]);
      if o.threw then o
      else Outcome(o.log + ExecuteAll(tasks[1..]).log, ExecuteAll(tasks[1..]).threw)
  }

  // ------------------------------------------------------------ the latch, in place

  class BootWork {
    var deferredUntilFirstPaint: seq<Task>
    var firstWindowPainted: bool
    /** The names of the tasks started so far. */
    var log: seq<nat>

    ghost function Abstract(): State
      reads this
    {
      State(firstWindowPainted, deferredUntilFirstPaint, log)
    }

    constructor ()
      ensures Abstract() == Launched()
    {
      deferredUntilFirstPaint, firstWindowPainted, log := [], false, [];
    }

    method RunTask(task: Task) returns (threw: bool)
      requires firstWindowPainted
      modifies this
      ensures firstWindowPainted && deferredUntilFirstPaint == old(deferredUntilFirstPaint)
      ensures log == old(log) + Execute(task).log && threw == Execute(task).threw
      decreases 1, task, 0
    {
      log := log + [task.name];
      threw := RunBody(task.body);
    }

    method RunBody(body: Body) returns (threw: bool)
      requires firstWindowPainted
      modifies this
      ensures firstWindowPainted && deferredUntilFirstPaint == old(deferredUntilFirstPaint)
      ensures log == old(log) + ExecuteBody(body).log && threw == ExecuteBody(body).threw
      decreases 1, body, 1
    {
      match body
      case End =>
        threw := false;
      case Throw =>
        threw := true;
      case ReleaseThen(rest) =>
        threw := ReleaseDeferredBootWork();
        threw := RunBody(rest);
      case RegisterThen(child, rest) =>
        threw := WhenFirstWindowPainted(child);
        if threw { return; }
        threw := RunBody(rest);
    }

    method WhenFirstWindowPainted(task: Task) returns (threw: bool)
      modifies this
      ensures Abstract() == Step(old(Abstract()), Registered(task))
      ensures threw == (old(firstWindowPainted) && Execute(task).threw)
      decreases 1, task, 1
    {
      if firstWindowPainted {
        threw := RunTask(task);
        return;
      }
      deferredUntilFirstPaint := deferredUntilFirstPaint + [task];
      threw := false;
    }

    method ReleaseDeferredBootWork() returns (threw: bool)
      modifies this
      ensures Abstract() == Step(old(Abstract()), Released)
      ensures threw == (!old(firstWindowPainted) && ExecuteAll(old(deferredUntilFirstPaint)).threw)
      decreases if firstWindowPainted then 0 else 2
    {
      if firstWindowPainted { return false; }
      firstWindowPainted := true;
      var spliced := deferredUntilFirstPaint;
      deferredUntilFirstPaint := [];
      threw := RunSpliced(spliced);
    }

    method RunSpliced(spliced: seq<Task>) returns (threw: bool)
      requires firstWindowPainted
      modifies this
      ensures firstWindowPainted && deferredUntilFirstPaint == old(deferredUntilFirstPaint)
      ensures log == old(log) + ExecuteAll(spliced).log && threw == ExecuteAll(spliced).threw
      decreases 2, 0
    {
      var i := 0;
      while i < |spliced|
        invariant 0 <= i <= |spliced|
        invariant firstWindowPainted && deferredUntilFirstPaint == old(deferredUntilFirstPaint)
        invariant log + ExecuteAll(spliced[i..]).log == old(log) + ExecuteAll(spliced).log
        invariant ExecuteAll(spliced[i..]).threw == ExecuteAll(spliced).threw
      {
        assert spliced[i..][0] == spliced[i] && spliced[i..][1..] == spliced[i + 1..];
        ghost var before := log;
        threw := RunTask(spliced[i]);
        if threw { return; }
        assert before + (Execute(spliced[i]).log + ExecuteAll(spliced[i + 1..]).log)
            == log + ExecuteAll(spliced[i + 1..]).log;
        i := i + 1;
      }
      threw := false;
    }
  }

  // ---------------------------------------------------------------- any run

  datatype State = State(painted: bool, deferred: seq<Task>, log: seq<nat>)
  datatype Event = Registered(task: Task) | Released

  function Launched(): State { State(false, [], []) }

  function Step(s: State, event: Event): State {
    match event
    case Registered(task) =>
      if s.painted then s.(log := s.log + Execute(task).log) else s.(deferred := s.deferred + [task])
    case Released =>
      if s.painted then s else State(true, [], s.log + ExecuteAll(s.deferred).log)
  }

  function Run(s: State, events: seq<Event>): State
    decreases |events|
  {
    if events == [] then s else Run(Step(s, events[0]), events[1..])
  }

  /** The tasks registered by a run, in order. */
  function Tasks(events: seq<Event>): seq<Task> {
    if events == [] then []
    else if events[0].Registered? then [events[0].task] + Tasks(events[1..])
    else Tasks(events[1..])
  }

  /** What each of them logs when run on its own, one after the other. */
  function Logs(tasks: seq<Task>): seq<nat> {
    if tasks == [] then [] else Execute(tasks[0]).log + Logs(tasks[1..])
  }

  lemma {:induction false} AfterRelease(s: State, events: seq<Event>)
    requires s.painted && s.deferred == []
    ensures Run(s, events) == State(true, [], s.log + Logs(Tasks(events)))
    decreases |events|
  {
    if events == [] {
      assert s.log + Logs(Tasks(events)) == s.log;
    } else {
      var t := Step(s, events[0]);
      AfterRelease(t, events[1..]);
      if events[0].Registered? {
        assert s.log + Execute(events[0].task).log + Logs(Tasks(events[1..]))
            == s.log + (Execute(events[0].task).log + Logs(Tasks(events[1..])));
      }
    }
  }

  lemma {:induction false} BeforeRelease(s: State, events: seq<Event>)
    requires !s.painted
    requires forall k :: 0 <= k < |events| ==> events[k].Registered?
    ensures Run(s, events) == State(false, s.deferred + Tasks(events), s.log)
    decreases |events|
  {
    if events == [] {
      assert s.deferred + Tasks(events) == s.deferred;
    } else {
      BeforeRelease(Step(s, events[0]), events[1..]);
      assert s.deferred + [events[0].task] + Tasks(events[1..]) == s.deferred + ([events[0].task] + Tasks(events[1..]));
    }
  }

  lemma {:induction false} RunAppend(s: State, first: seq<Event>, second: seq<Event>)
    ensures Run(s, first + second) == Run(Run(s, first), second)
    decreases |first|
  {
    if first == [] {
      assert first + second == second;
    } else {
      RunAppend(Step(s, first[0]), first[1..], second);
      assert (first + second)[1..] == first[1..] + second;
    }
  }

  /** Any run: nothing is started before the first release; that release starts the waiting
      tasks in the order they were registered, up to the first that throws, and drops the
      rest; whatever is registered later starts at once; and later releases do nothing. */
  lemma EveryRun(early: seq<Event>, late: seq<Event>)
    requires forall k :: 0 <= k < |early| ==> early[k].Registered?
    ensures Run(Launched(), early) == State(false, Tasks(early), [])
    ensures Run(Launched(), early + [Released] + late)
         == State(true, [], ExecuteAll(Tasks(early)).log + Logs(Tasks(late)))
  {
    UntilRelease(early);
    RunAround(Launched(), early, Released, late);
    FromRelease(Tasks(early), late);
  }

  lemma UntilRelease(early: seq<Event>)
    requires forall k :: 0 <= k < |early| ==> early[k].Registered?
    ensures Run(Launched(), early) == State(false, Tasks(early), [])
  {
    BeforeRelease(Launched(), early);
    assert [] + Tasks(early) == Tasks(early);
  }

  lemma FromRelease(waiting: seq<Task>, late: seq<Event>)
    ensures Run(Step(State(false, waiting, []), Released), late)
         == State(true, [], ExecuteAll(waiting).log + Logs(Tasks(late)))
  {
    var log := ExecuteAll(waiting).log;
    assert [] + log == log;
    AfterRelease(State(true, [], log), late);
  }

  lemma RunAround(s: State, before: seq<Event>, event: Event, after: seq<Event>)
    ensures Run(s, before + [event] + after) == Run(Step(Run(s, before), event), after)
  {
    RunAppend(s, before + [event], after);
    RunAppend(s, before, [event]);
  }

  // ---------------------------------------------- no task lost, none twice

  /** A body that cannot throw, nor any task it registers. */
  predicate Calm(body: Body) {
    match body
    case End => true
    case Throw => false
    case ReleaseThen(rest) => Calm(rest)
    case RegisterThen(child, rest) => Calm(child.body) && Calm(rest)
  }

  /** Every task in a body, each before the ones it registers. */
  function Names(body: Body): seq<nat> {
    match body
    case End => []
    case Throw => []
    case ReleaseThen(rest) => Names(rest)
    case RegisterThen(child, rest) => [child.name] + Names(child.body) + Names(rest)
  }

  function TaskNames(task: Task): seq<nat> { [task.name] + Names(task.body) }

  lemma {:induction false} CalmRunsEverything(body: Body)
    requires Calm(body)
    ensures ExecuteBody(body) == Outcome(Names(body), false)
  {
    match body
    case End =>
    case Throw =>
    case ReleaseThen(rest) => CalmRunsEverything(rest);
    case RegisterThen(child, rest) =>
      CalmRunsEverything(child.body);
      CalmRunsEverything(rest);
  }

  /** Every task registered by a run, directly or by another task, outer before inner. */
  function AllNames(tasks: seq<Task>): seq<nat> {
    if tasks == [] then [] else TaskNames(tasks[0]) + AllNames(tasks[1..])
  }

  lemma {:induction false} CalmLogs(tasks: seq<Task>)
    requires forall k :: 0 <= k < |tasks| ==> Calm(tasks[k].body)
    ensures Logs(tasks) == AllNames(tasks)
    ensures ExecuteAll(tasks) == Outcome(AllNames(tasks), false)
  {
    if tasks != [] {
      CalmRunsEverything(tasks[0].body);
      CalmLogs(tasks[1..]);
    }
  }

  lemma {:induction false} AllNamesAppend(first: seq<Task>, second: seq<Task>)
    ensures AllNames(first + second) == AllNames(first) + AllNames(second)
  {
    if first == [] {
      assert first + second == second;
    } else {
      var task, rest := first[0], first[1..];
      AllNamesAppend(rest, second);
      assert [task] + rest == first && [task] + (rest + second) == first + second;
      Associative(TaskNames(task), AllNames(rest), AllNames(second));
    }
  }

  lemma Associative(a: seq<nat>, b: seq<nat>, c: seq<nat>)
    ensures a + b + c == a + (b + c)
  {
  }

  /** When no task throws, the moment of the release does not show: every task registered,
      by the launch or by another task, is started exactly once and in the same order
      wherever the release falls among the registrations. */
  lemma TimingIrrelevant(early: seq<Event>, late: seq<Event>)
    requires forall k :: 0 <= k < |early| ==> early[k].Registered?
    requires forall k :: 0 <= k < |Tasks(early)| ==> Calm(Tasks(early)[k].body)
    requires forall k :: 0 <= k < |Tasks(late)| ==> Calm(Tasks(late)[k].body)
    ensures Run(Launched(), early + [Released] + late).log == AllNames(Tasks(early) + Tasks(late))
  {
    EveryRun(early, late);
    CalmLogs(Tasks(early));
    CalmLogs(Tasks(late));
    AllNamesAppend(Tasks(early), Tasks(late));
  }

  /** The release delays the waiting tasks without dropping any exactly when none but the
      last of them throws. */
  lemma {:induction false} NothingDroppedExactly(tasks: seq<Task>)
    ensures ExecuteAll(tasks).log == Logs(tasks)
       <==> forall k :: 0 <= k < |tasks| - 1 ==> !Execute(tasks[k]).threw
    ensures |ExecuteAll(tasks).log| <= |Logs(tasks)|
  {
    if |tasks| > 1 {
      var first, rest := Execute(tasks[0]), tasks[1..];
      NothingDroppedExactly(rest);
      if first.threw {
        assert |Execute(rest[0]).log| > 0;
        assert |Logs(rest)| > 0;
        assert |ExecuteAll(tasks).log| < |Logs(tasks)|;
      } else {
        RestAgrees(first.log, ExecuteAll(rest).log, Logs(rest));
        assert forall k :: 0 < k < |tasks| ==> tasks[k] == rest[k - 1];
        assert forall k :: 0 <= k < |rest| ==> rest[k] == tasks[k + 1];
      }
    } else if |tasks| == 1 {
      assert tasks[1..] == [];
      assert Execute(tasks[0]).log + [] == Execute(tasks[0]).log;
    }
  }

  lemma RestAgrees(first: seq<nat>, a: seq<nat>, b: seq<nat>)
    ensures first + a == first + b <==> a == b
  {
    assert (first + a)[|first|..] == a && (first + b)[|first|..] == b;
  }
}
