/** The scenario a demo window is showing (`demo/demo-runtime.ts`) and the timer that
    replays a live one (`demo/playhead.ts`). */
module DemoReplay {
  import opened Common

  /** How much of a transcript to show: a count, everything, or a timed replay. */
  datatype Playhead = Live | First(count: nat) | Everything

  datatype Scenario<+Event> = Scenario(transcript: seq<Event>, rest: int)

  /** One interval: it closes over the scenario it replays and its own index. */
  datatype Timer<+Event> = Timer(source: seq<Event>, index: nat, running: bool)

  datatype State<+Event> = State(
    source: Scenario<Event>,
    playhead: Playhead,
    shown: seq<Event>,
    stopReplay: Option<nat>,
    timers: seq<Timer<Event>>,
    broadcasts: seq<Event>)

  // ------------------------------------------------------------ the steps

  function ApplyPlayhead<Event>(transcript: seq<Event>, playhead: Playhead): seq<Event> {
    match playhead
    case Live => []
    case First(count) => if count <= |transcript| then transcript[..count] else transcript
    case Everything => transcript
  }

  function Construct<Event>(scenario: Scenario<Event>, playhead: Playhead): State<Event> {
    State(scenario, playhead, ApplyPlayhead(scenario.transcript, playhead), None, [], [])
  }

  function StartReplay<Event>(s: State<Event>): State<Event> {
    s.(stopReplay := Some(|s.timers|), timers := s.timers + [Timer(s.source.transcript, 0, true)])
  }

  function Stop<Event>(timers: seq<Timer<Event>>, id: Option<nat>): (r: seq<Timer<Event>>)
    ensures |r| == |timers|
  {
    if id.Some? && id.value < |timers| then timers[id.value := timers[id.value].(running := false)] else timers
  }

  function Apply<Event>(s: State<Event>, scenario: Scenario<Event>, playhead: Playhead): State<Event> {
    var t := s.(
      timers := Stop(s.timers, s.stopReplay),
      stopReplay := None,
      source := scenario,
      playhead := playhead,
      shown := ApplyPlayhead(scenario.transcript, playhead));
    if playhead == Live then StartReplay(t) else t
  }

  function Start<Event>(s: State<Event>): State<Event> {
    if s.playhead == Live then StartReplay(s) else s
  }

  /** One firing of one interval; a cleared interval never fires. */
  function Tick<Event>(s: State<Event>, id: nat): State<Event> {
    if id >= |s.timers| || !s.timers[id].running then s
    else
      var timer := s.timers[id];
      if timer.index >= |timer.source| then s.(timers := s.timers[id := timer.(running := false)])
      else
        var event := timer.source[timer.index];
        s.(shown := s.shown + [event],
           broadcasts := s.broadcasts + [event],
           timers := s.timers[id := timer.(index := timer.index + 1)])
  }

  // ------------------------------------------------ the runtime, in place

  class DemoRuntime<Event> {
    var source: Scenario<Event>
    var playhead: Playhead
    var shown: seq<Event>
    var stopReplay: Option<nat>
    /** The window's intervals, and the broadcasts its channels delivered. */
    var timers: seq<Timer<Event>>
    var broadcasts: seq<Event>

    ghost function Abstract(): State<Event>
      reads this
    {
      State(source, playhead, shown, stopReplay, timers, broadcasts)
    }

    constructor (scenario: Scenario<Event>, playhead: Playhead)
      ensures Abstract() == Construct(scenario, playhead)
    {
      this.source, this.playhead := scenario, playhead;
      shown := ApplyPlayhead(scenario.transcript, playhead);
      stopReplay, timers, broadcasts := None, [], [];
    }

    method BeginReplay()
      modifies this
      ensures Abstract() == StartReplay(old(Abstract()))
    {
      stopReplay := Some(|timers|);
      timers := timers + [Timer(source.transcript, 0, true)];
    }

    method ApplyScenario(scenario: Scenario<Event>, playhead: Playhead)
      modifies this
      ensures Abstract() == Apply(old(Abstract()), scenario, playhead)
    {
      if stopReplay.Some? { timers := Stop(timers, stopReplay); }
      stopReplay := None;
      source := scenario;
      this.playhead := playhead;
      shown := ApplyPlayhead(scenario.transcript, playhead);
      if playhead == Live { BeginReplay(); }
    }

    method StartLive()
      modifies this
      ensures Abstract() == Start(old(Abstract()))
    {
      if playhead == Live { BeginReplay(); }
    }

    method TimerFires(id: nat)
      requires id < |timers| && timers[id].running
      modifies this
      ensures Abstract() == Tick(old(Abstract()), id)
    {
      var timer := timers[id];
      if timer.index >= |timer.source| {
        timers := timers[id := timer.(running := false)];
        return;
      }
      var event := timer.source[timer.index];
      shown := shown + [event];
      broadcasts := broadcasts + [event];
      timers := timers[id := timer.(index := timer.index + 1)];
    }
  }

  // ---------------------------------------------------------------- any run

  datatype Action<+Event> = Reapply(scenario: Scenario<Event>, playhead: Playhead) | Fire(id: nat)

  function Act<Event>(s: State<Event>, a: Action<Event>): State<Event> {
    match a
    case Reapply(scenario, playhead) => Apply(s, scenario, playhead)
    case Fire(id) => Tick(s, id)
  }

  function Run<Event>(s: State<Event>, actions: seq<Action<Event>>): State<Event> {
    if actions == [] then s
    else Act(Run(s, actions[..|actions| - 1]), actions[|actions| - 1])
  }

  /** The scenario and playhead most recently applied. */
  function Applied<Event>(scenario: Scenario<Event>, playhead: Playhead,
                          actions: seq<Action<Event>>): (Scenario<Event>, Playhead) {
    if actions == [] then (scenario, playhead)
    else
      var last := actions[|actions| - 1];
      if last.Reapply? then (last.scenario, last.playhead)
      else Applied(scenario, playhead, actions[..|actions| - 1])
  }

  /** How many intervals a run has set up. */
  function Intervals<Event>(playhead: Playhead, actions: seq<Action<Event>>): nat {
    if actions == [] then (if playhead == Live then 1 else 0)
    else
      var last := actions[|actions| - 1];
      Intervals(playhead, actions[..|actions| - 1]) + if last.Reapply? && last.playhead == Live then 1 else 0
  }

  /** Ticks of the newest interval since the last apply. */
  function TicksSince<Event>(playhead: Playhead, actions: seq<Action<Event>>): nat {
    if actions == [] then 0
    else
      var front, last := actions[..|actions| - 1], actions[|actions| - 1];
      if last.Reapply? then 0
      else TicksSince(playhead, front) + if last.id + 1 == Intervals(playhead, front) then 1 else 0
  }

  /** What was broadcast before the last apply. */
  function Earlier<Event>(scenario: Scenario<Event>, playhead: Playhead, actions: seq<Action<Event>>): seq<Event> {
    if actions == [] then []
    else
      var front, last := actions[..|actions| - 1], actions[|actions| - 1];
      if last.Reapply? then Run(Start(Construct(scenario, playhead)), front).broadcasts
      else Earlier(scenario, playhead, front)
  }

  /** The part of a transcript a number of ticks has replayed. */
  function Replayed<Event>(source: Scenario<Event>, ticks: nat): seq<Event> {
    source.transcript[..Min(ticks, |source.transcript|)]
  }

  /** What a window is showing, given what was applied last, the ticks since, and what had
      been broadcast before. */
  ghost predicate Showing<Event>(s: State<Event>, source: Scenario<Event>, head: Playhead, ticks: nat,
                                 earlier: seq<Event>) {
    && s.source == source && s.playhead == head
    && s.shown == (if head == Live then Replayed(source, ticks) else ApplyPlayhead(source.transcript, head))
    && s.broadcasts == earlier + (if head == Live then Replayed(source, ticks) else [])
  }

  /** At most the newest interval still runs, and only under a live playhead. */
  ghost predicate OneReplay<Event>(s: State<Event>, intervals: nat, ticks: nat) {
    && |s.timers| == intervals
    && (forall k :: 0 <= k < intervals && s.timers[k].running ==> s.playhead == Live && k == intervals - 1)
    && (s.playhead == Live ==>
          && intervals > 0 && s.stopReplay == Some(intervals - 1)
          && s.timers[intervals - 1].source == s.source.transcript
          && s.timers[intervals - 1].index == Min(ticks, |s.source.transcript|)
          && (s.timers[intervals - 1].running || s.timers[intervals - 1].index == |s.source.transcript|))
    && (s.playhead != Live ==> s.stopReplay == None)
  }

  /** What a run of a window started live or still has come to. */
  ghost predicate Told<Event>(scenario: Scenario<Event>, playhead: Playhead, actions: seq<Action<Event>>) {
    var s := Run(Start(Construct(scenario, playhead)), actions);
    var (source, head) := Applied(scenario, playhead, actions);
    var ticks := TicksSince(playhead, actions);
    && Showing(s, source, head, ticks, Earlier(scenario, playhead, actions))
    && OneReplay(s, Intervals(playhead, actions), ticks)
  }

  /** `start` called once before any apply, then any interleaving of applies and timer
      ticks, stale timers included: a still shows its cut; a live window has shown, and
      broadcast since it was applied, exactly the first min(ticks, n) events in order. */
  lemma {:induction false} EveryRun<Event>(scenario: Scenario<Event>, playhead: Playhead, actions: seq<Action<Event>>)
    ensures Told(scenario, playhead, actions)
  {
    if actions != [] {
      var front, last := actions[..|actions| - 1], actions[|actions| - 1];
      EveryRun(scenario, playhead, front);
      assert actions == front + [last];
      match last
      case Reapply(next, head) => ReapplyTold(scenario, playhead, front, next, head);
      case Fire(id) => FireTold(scenario, playhead, front, id);
    }
  }

  lemma ReapplyTold<Event>(scenario: Scenario<Event>, playhead: Playhead, front: seq<Action<Event>>,
                           next: Scenario<Event>, head: Playhead)
    requires Told(scenario, playhead, front)
    ensures Told(scenario, playhead, front + [Reapply(next, head)])
  {
    assert (front + [Reapply(next, head)])[..|front|] == front;
    var s := Run(Start(Construct(scenario, playhead)), front);
    ReapplyOneReplay(s, Intervals(playhead, front), TicksSince(playhead, front), next, head);
  }

  lemma FireTold<Event>(scenario: Scenario<Event>, playhead: Playhead, front: seq<Action<Event>>, id: nat)
    requires Told(scenario, playhead, front)
    ensures Told(scenario, playhead, front + [Fire(id)])
  {
    assert (front + [Fire(id)])[..|front|] == front;
    var s := Run(Start(Construct(scenario, playhead)), front);
    var (source, head) := Applied(scenario, playhead, front);
    var intervals, ticks := Intervals(playhead, front), TicksSince(playhead, front);
    FireShows(s, source, head, intervals, ticks, Earlier(scenario, playhead, front), id);
    FireOneReplay(s, intervals, ticks, id);
  }

  lemma ReapplyOneReplay<Event>(s: State<Event>, intervals: nat, ticks: nat, next: Scenario<Event>, head: Playhead)
    requires OneReplay(s, intervals, ticks)
    ensures OneReplay(Apply(s, next, head), intervals + if head == Live then 1 else 0, 0)
  {
  }

  function Counted(ticks: nat, intervals: nat, id: nat): nat { ticks + if id + 1 == intervals then 1 else 0 }

  lemma FireOneReplay<Event>(s: State<Event>, intervals: nat, ticks: nat, id: nat)
    requires OneReplay(s, intervals, ticks)
    ensures OneReplay(Tick(s, id), intervals, Counted(ticks, intervals, id))
  {
  }

  lemma FireShows<Event>(s: State<Event>, source: Scenario<Event>, head: Playhead, intervals: nat, ticks: nat,
                         earlier: seq<Event>, id: nat)
    requires Showing(s, source, head, ticks, earlier) && OneReplay(s, intervals, ticks)
    ensures Showing(Tick(s, id), source, head, Counted(ticks, intervals, id), earlier)
  {
    if id < |s.timers| && s.timers[id].running && s.timers[id].index < |source.transcript| {
      assert ticks < |source.transcript|;
      OneMore(source, ticks, earlier);
    }
  }

  lemma OneMore<Event>(source: Scenario<Event>, ticks: nat, earlier: seq<Event>)
    requires ticks < |source.transcript|
    ensures Replayed(source, ticks + 1) == Replayed(source, ticks) + [source.transcript[ticks]]
    ensures earlier + Replayed(source, ticks) + [source.transcript[ticks]] == earlier + Replayed(source, ticks + 1)
  {
  }

  /** The transcript on screen is always a prefix of the one most recently applied. */
  lemma ShownIsPrefix<Event>(scenario: Scenario<Event>, playhead: Playhead, actions: seq<Action<Event>>)
    ensures
      var s := Run(Start(Construct(scenario, playhead)), actions);
      s.shown <= s.source.transcript
  {
    EveryRun(scenario, playhead, actions);
  }

  /** A still shows the cut that was asked for: that many events, or all there are. */
  lemma StillShowsItsCut<Event>(scenario: Scenario<Event>, playhead: Playhead, actions: seq<Action<Event>>)
    ensures
      var s := Run(Start(Construct(scenario, playhead)), actions);
      var (source, head) := Applied(scenario, playhead, actions);
      && (head == Everything ==> s.shown == source.transcript)
      && (head.First? ==> |s.shown| == Min(head.count, |source.transcript|) && s.shown <= source.transcript)
  {
    EveryRun(scenario, playhead, actions);
  }

  /** A stopped replay changes nothing further: whatever was applied before, only the
      newest interval of a live window can still move anything. */
  lemma StaleTimerInert<Event>(scenario: Scenario<Event>, playhead: Playhead, actions: seq<Action<Event>>, id: nat)
    requires Applied(scenario, playhead, actions).1 != Live || id + 1 != Intervals(playhead, actions)
    ensures
      var s := Run(Start(Construct(scenario, playhead)), actions);
      Act(s, Fire(id)) == s
  {
    EveryRun(scenario, playhead, actions);
  }

  /** How often a run of ticks fires one interval. */
  function Fired(ids: seq<nat>, id: nat): nat {
    if ids == [] then 0 else Fired(ids[..|ids| - 1], id) + if ids[|ids| - 1] == id then 1 else 0
  }

  function TickAll<Event>(s: State<Event>, ids: seq<nat>): State<Event> {
    if ids == [] then s else Tick(TickAll(s, ids[..|ids| - 1]), ids[|ids| - 1])
  }

  function Twice<Event>(scenario: Scenario<Event>): State<Event> { Start(Start(Construct(scenario, Live))) }

  /** Two intervals replay the one scenario, each from its own index. */
  ghost predicate BothReplay<Event>(s: State<Event>, scenario: Scenario<Event>, a: nat, b: nat) {
    var n := |scenario.transcript|;
    && |s.timers| == 2
    && s.timers[0].source == s.timers[1].source == scenario.transcript
    && s.timers[0].index == Min(a, n) && s.timers[1].index == Min(b, n)
    && (s.timers[0].index < n ==> s.timers[0].running) && (s.timers[1].index < n ==> s.timers[1].running)
    && multiset(s.shown) == multiset(Replayed(scenario, a)) + multiset(Replayed(scenario, b))
  }

  /** `start` must come once and first: a second live start leaks an interval, and over any
      interleaving of the two each event is on screen once for each that has reached it. */
  lemma {:induction false} SecondStartRepeats<Event>(scenario: Scenario<Event>, ids: seq<nat>)
    ensures BothReplay(TickAll(Twice(scenario), ids), scenario, Fired(ids, 0), Fired(ids, 1))
  {
    if ids != [] {
      var front, id := ids[..|ids| - 1], ids[|ids| - 1];
      SecondStartRepeats(scenario, front);
      OneOfTwo(TickAll(Twice(scenario), front), scenario, Fired(front, 0), Fired(front, 1), id);
    }
  }

  lemma OneOfTwo<Event>(s: State<Event>, scenario: Scenario<Event>, a: nat, b: nat, id: nat)
    requires BothReplay(s, scenario, a, b)
    ensures BothReplay(Tick(s, id), scenario, a + if id == 0 then 1 else 0, b + if id == 1 then 1 else 0)
  {
    var ticks := if id == 0 then a else b;
    if id < 2 && ticks < |scenario.transcript| {
      OneMore(scenario, ticks, []);
    }
  }
}
