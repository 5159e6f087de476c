/** The readiness watcher of a demo window (`demo/demo-shell.tsx`) and the gestures it
    applies through the runtime (`demo/demo-runtime.ts`). */
module Readiness {
  import opened Common

  const GESTURE_SETTLE_POLLS: nat := 4

  datatype State<+Gesture> = State(
    gestures: seq<Gesture>,
    cursor: nat,
    performed: seq<Gesture>,
    settlePolls: nat,
    fontsReady: bool,
    idlePolls: nat,
    ready: bool)

  /** What the watcher lives through: the fonts arriving, one firing of its interval, which
      finds queries in flight or not and the next gesture's target mounted or not, and
      another scenario being applied under it. */
  datatype Signal<+Gesture> = FontsReady | Poll(fetching: bool, found: bool) | Swap(gestures: seq<Gesture>)

  function SettlePolls<Gesture>(gestures: seq<Gesture>): nat {
    if |gestures| > 0 then GESTURE_SETTLE_POLLS else 0
  }

  function Watch<Gesture>(gestures: seq<Gesture>): State<Gesture> {
    State(gestures, 0, [], SettlePolls(gestures), false, 0, false)
  }

  function OnPoll<Gesture>(s: State<Gesture>, fetching: bool, found: bool): State<Gesture> {
    if s.ready then s
    else if !s.fontsReady || fetching then s.(idlePolls := 0)
    else if s.cursor < |s.gestures| then
      if !found then s.(idlePolls := 0)
      else s.(idlePolls := 0, cursor := s.cursor + 1, performed := s.performed + [s.gestures[s.cursor]])
    else if s.idlePolls < s.settlePolls then s.(idlePolls := s.idlePolls + 1)
    else s.(ready := true)
  }

  function Step<Gesture>(s: State<Gesture>, signal: Signal<Gesture>): State<Gesture> {
    match signal
    case FontsReady => s.(fontsReady := true)
    case Poll(fetching, found) => OnPoll(s, fetching, found)
    case Swap(gestures) => s.(gestures := gestures, cursor := 0)
  }

  function Run<Gesture>(s: State<Gesture>, signals: seq<Signal<Gesture>>): State<Gesture> {
    if signals == [] then s
    else Step(Run(s, signals[..|signals| - 1]), signals[|signals| - 1])
  }

  // ------------------------------------------------ the watcher, in place

  class Watcher<Gesture> {
    var gestures: seq<Gesture>
    var interactionCursor: nat
    var performed: seq<Gesture>
    const settlePolls: nat
    var fontsReady: bool
    var idlePolls: nat
    var ready: bool

    ghost function Abstract(): State<Gesture>
      reads this
    {
      State(gestures, interactionCursor, performed, settlePolls, fontsReady, idlePolls, ready)
    }

    constructor (gestures: seq<Gesture>)
      ensures Abstract() == Watch(gestures)
    {
      this.gestures, interactionCursor, performed := gestures, 0, [];
      settlePolls := if |gestures| > 0 then GESTURE_SETTLE_POLLS else 0;
      fontsReady, idlePolls, ready := false, 0, false;
    }

    /** True while a gesture is pending or was performed, false once the list is spent. */
    method ApplyNextInteraction(found: bool) returns (busy: bool)
      modifies this`interactionCursor, this`performed
      ensures busy == (old(interactionCursor) < |gestures|)
      ensures interactionCursor == old(interactionCursor) + if busy && found then 1 else 0
      ensures performed == old(performed) + if busy && found then [gestures[old(interactionCursor)]] else []
    {
      if interactionCursor >= |gestures| { return false; }
      if !found { return true; }
      performed := performed + [gestures[interactionCursor]];
      interactionCursor := interactionCursor + 1;
      return true;
    }

    method IntervalFires(fetching: bool, found: bool)
      requires !ready
      modifies this
      ensures Abstract() == OnPoll(old(Abstract()), fetching, found)
    {
      if !fontsReady || fetching {
        idlePolls := 0;
        return;
      }
      var busy := ApplyNextInteraction(found);
      if busy {
        idlePolls := 0;
        return;
      }
      if idlePolls < settlePolls {
        idlePolls := idlePolls + 1;
        return;
      }
      ready := true;
    }

    method FontsLoad()
      modifies this
      ensures Abstract() == Step(old(Abstract()), FontsReady)
    {
      fontsReady := true;
    }

    method ApplyScenario(gestures: seq<Gesture>)
      modifies this
      ensures Abstract() == Step(old(Abstract()), Swap(gestures))
    {
      this.gestures, interactionCursor := gestures, 0;
    }
  }

  // ------------------------------- the same story, told of the signals alone

  predicate FontsLoaded<Gesture>(signals: seq<Signal<Gesture>>) {
    exists k :: 0 <= k < |signals| && signals[k].FontsReady?
  }

  /** The gestures of the scenario on screen. */
  function Shown<Gesture>(first: seq<Gesture>, signals: seq<Signal<Gesture>>): seq<Gesture> {
    if signals == [] then first
    else
      var last := signals[|signals| - 1];
      if last.Swap? then last.gestures else Shown(first, signals[..|signals| - 1])
  }

  /** Polls since the last swap that could perform a gesture, had one been left. */
  function Chances<Gesture>(signals: seq<Signal<Gesture>>): nat {
    if signals == [] then 0
    else
      var front, last := signals[..|signals| - 1], signals[|signals| - 1];
      match last
      case Swap(_) => 0
      case FontsReady => Chances(front)
      case Poll(fetching, found) => Chances(front) + if FontsLoaded(front) && !fetching && found then 1 else 0
  }

  /** A poll that found the fonts loaded, nothing in flight and no gesture left. */
  predicate Quiet<Gesture>(first: seq<Gesture>, before: seq<Signal<Gesture>>, fetching: bool) {
    FontsLoaded(before) && !fetching && Chances(before) >= |Shown(first, before)|
  }

  /** How many polls in a row, up to now, were quiet. */
  function QuietPolls<Gesture>(first: seq<Gesture>, signals: seq<Signal<Gesture>>): nat {
    if signals == [] then 0
    else
      var front, last := signals[..|signals| - 1], signals[|signals| - 1];
      if !last.Poll? then QuietPolls(first, front)
      else if Quiet(first, front, last.fetching) then QuietPolls(first, front) + 1
      else 0
  }

  /** At some moment so far more than `settlePolls` polls in a row had been quiet. */
  ghost predicate Settled<Gesture>(first: seq<Gesture>, settlePolls: nat, signals: seq<Signal<Gesture>>) {
    exists k :: 0 <= k <= |signals| && QuietPolls(first, signals[..k]) > settlePolls
  }

  /** Gestures performed for the scenarios shown before this one. */
  function Earlier<Gesture>(first: seq<Gesture>, signals: seq<Signal<Gesture>>): seq<Gesture> {
    if signals == [] then []
    else
      var front, last := signals[..|signals| - 1], signals[|signals| - 1];
      if last.Swap? then Run(Watch(first), front).performed else Earlier(first, front)
  }

  /** A window still watched: each gesture of the scenario on screen has been performed at
      most once and in order, one for each poll that had the chance. */
  ghost predicate Watching<Gesture>(s: State<Gesture>, first: seq<Gesture>, signals: seq<Signal<Gesture>>) {
    && s.fontsReady == FontsLoaded(signals)
    && s.gestures == Shown(first, signals)
    && s.cursor == Min(Chances(signals), |s.gestures|)
    && s.performed == Earlier(first, signals) + s.gestures[..s.cursor]
    && s.idlePolls == QuietPolls(first, signals)
  }

  /** Ready exactly when more polls in a row than the watcher settles for were quiet, a
      watcher's number being fixed by the scenario it started with. */
  lemma {:induction false} ReadyExactly<Gesture>(first: seq<Gesture>, signals: seq<Signal<Gesture>>)
    ensures
      var s := Run(Watch(first), signals);
      && s.settlePolls == SettlePolls(first)
      && (s.ready <==> Settled(first, SettlePolls(first), signals))
      && (!s.ready ==> Watching(s, first, signals))
  {
    if signals == [] {
      assert signals[..0] == signals;
    } else {
      var front, last := signals[..|signals| - 1], signals[|signals| - 1];
      ReadyExactly(first, front);
      assert signals == front + [last];
      SettledStep(first, SettlePolls(first), front, last);
      var s := Run(Watch(first), front);
      if !s.ready {
        NotSettledNow(first, SettlePolls(first), front);
        match last
        case FontsReady => StepFonts(s, first, front);
        case Swap(gestures) => StepSwap(s, first, front, gestures);
        case Poll(fetching, found) =>
      }
    }
  }

  lemma SettledStep<Gesture>(first: seq<Gesture>, settlePolls: nat, front: seq<Signal<Gesture>>, last: Signal<Gesture>)
    ensures Settled(first, settlePolls, front + [last])
        <==> Settled(first, settlePolls, front) || QuietPolls(first, front + [last]) > settlePolls
  {
    var all := front + [last];
    assert all[..|all|] == all;
    assert forall k :: 0 <= k <= |front| ==> all[..k] == front[..k];
    if QuietPolls(first, all) > settlePolls {
      assert QuietPolls(first, all[..|all|]) > settlePolls;
    }
    if k :| 0 <= k <= |front| && QuietPolls(first, front[..k]) > settlePolls {
      assert QuietPolls(first, all[..k]) > settlePolls;
    }
  }

  lemma NotSettledNow<Gesture>(first: seq<Gesture>, settlePolls: nat, signals: seq<Signal<Gesture>>)
    requires !Settled(first, settlePolls, signals)
    ensures QuietPolls(first, signals) <= settlePolls
  {
    assert signals[..|signals|] == signals;
  }

  lemma FontsLoadedStep<Gesture>(front: seq<Signal<Gesture>>, last: Signal<Gesture>)
    ensures FontsLoaded(front + [last]) == (FontsLoaded(front) || last.FontsReady?)
  {
    var all := front + [last];
    assert all[|front|] == last;
    if k :| 0 <= k < |front| && front[k].FontsReady? {
      assert all[k].FontsReady?;
    }
  }

  lemma StepFonts<Gesture>(s: State<Gesture>, first: seq<Gesture>, front: seq<Signal<Gesture>>)
    requires Watching(s, first, front)
    ensures Watching(Step(s, FontsReady), first, front + [FontsReady])
    ensures QuietPolls(first, front + [FontsReady]) == QuietPolls(first, front)
  {
    FontsLoadedStep(front, FontsReady);
    assert (front + [FontsReady])[..|front|] == front;
  }

  lemma StepSwap<Gesture>(s: State<Gesture>, first: seq<Gesture>, front: seq<Signal<Gesture>>, gestures: seq<Gesture>)
    requires Watching(s, first, front)
    requires s == Run(Watch(first), front)
    ensures Watching(Step(s, Swap(gestures)), first, front + [Swap(gestures)])
    ensures QuietPolls(first, front + [Swap(gestures)]) == QuietPolls(first, front)
  {
    FontsLoadedStep(front, Swap(gestures));
    assert (front + [Swap(gestures)])[..|front|] == front;
    assert s.performed + gestures[..0] == s.performed;
  }

  /** The poll that makes a window ready has performed every gesture of the scenario on
      screen, each once and in order, and ends exactly settlePolls + 1 quiet ones. */
  lemma BecomesReady<Gesture>(first: seq<Gesture>, front: seq<Signal<Gesture>>, fetching: bool, found: bool)
    requires !Run(Watch(first), front).ready
    requires OnPoll(Run(Watch(first), front), fetching, found).ready
    ensures
      var s := OnPoll(Run(Watch(first), front), fetching, found);
      && s.performed == Earlier(first, front) + Shown(first, front)
      && s.cursor == |Shown(first, front)|
      && QuietPolls(first, front + [Signal<Gesture>.Poll(fetching, found)]) == SettlePolls(first) + 1
  {
    ReadyExactly(first, front);
    NotSettledNow(first, SettlePolls(first), front);
    var s := Run(Watch(first), front);
    assert s.gestures[..s.cursor] == s.gestures;
    assert (front + [Signal<Gesture>.Poll(fetching, found)])[..|front|] == front;
  }

  // ------------------------------------------------- how long it takes

  /** Polls left to readiness when nothing holds the watcher up. */
  function Needed<Gesture>(s: State<Gesture>): nat
    requires s.cursor <= |s.gestures| && s.idlePolls <= s.settlePolls
  {
    if s.ready then 0
    else if s.cursor < |s.gestures| then |s.gestures| - s.cursor + s.settlePolls + 1
    else s.settlePolls - s.idlePolls + 1
  }

  ghost predicate Bounded<Gesture>(s: State<Gesture>) {
    s.cursor <= |s.gestures| && s.idlePolls <= s.settlePolls
  }

  function Smooth<Gesture>(n: nat): (r: seq<Signal<Gesture>>)
    ensures |r| == n && forall k :: 0 <= k < n ==> r[k] == Poll(false, true)
  {
    seq(n, _ => Poll(false, true))
  }

  /** With the fonts loaded, nothing in flight and targets mounted, readiness is reached
      after exactly the polls needed and not one earlier: from zeroed idle polls that is
      the gestures left plus settlePolls plus one. */
  lemma {:induction false} ReachedInExactly<Gesture>(s: State<Gesture>, n: nat)
    requires Bounded(s) && s.fontsReady && !s.ready
    ensures Bounded(Run(s, Smooth(n)))
    ensures Needed(Run(s, Smooth(n))) == if n < Needed(s) then Needed(s) - n else 0
    ensures Run(s, Smooth(n)).ready <==> n >= Needed(s)
    ensures Run(s, Smooth(n)).fontsReady
    ensures s.idlePolls == 0 ==> Needed(s) == |s.gestures| - s.cursor + s.settlePolls + 1
  {
    if n > 0 {
      ReachedInExactly(s, n - 1);
      assert Smooth<Gesture>(n)[..n - 1] == Smooth<Gesture>(n - 1);
    }
  }

  /** Whatever happens in between, the pair (gestures left, settle polls left) only grows
      in its second part, and every poll that is not held up lowers it. */
  lemma MeasureFalls<Gesture>(s: State<Gesture>, fetching: bool, found: bool)
    requires Bounded(s) && !s.ready
    ensures
      var t := OnPoll(s, fetching, found);
      var left, leftAfter := |s.gestures| - s.cursor, |t.gestures| - t.cursor;
      var settle, settleAfter := s.settlePolls - s.idlePolls, t.settlePolls - t.idlePolls;
      var heldUp := !s.fontsReady || fetching || (left > 0 && !found);
      && Bounded(t)
      && leftAfter <= left
      && (heldUp ==> leftAfter == left && settleAfter == s.settlePolls && !t.ready)
      && (!heldUp ==> t.ready || leftAfter < left || (leftAfter == left && settleAfter < settle))
      && (t.ready ==> left == 0 && settle == 0)
  {
  }

  /** A gesture whose target never mounts keeps the window from ever being called ready. */
  lemma {:induction false} MissingTargetNeverReady<Gesture>(first: seq<Gesture>, signals: seq<Signal<Gesture>>)
    requires forall k :: 0 <= k < |signals| ==> !signals[k].Swap?
    requires Chances(signals) < |first|
    ensures !Run(Watch(first), signals).ready
    ensures Shown(first, signals) == first
    ensures QuietPolls(first, signals) == 0
  {
    if signals != [] {
      var front, last := signals[..|signals| - 1], signals[|signals| - 1];
      assert signals[|signals| - 1] == last && !last.Swap?;
      MissingTargetNeverReady(first, front);
      ReadyExactly(first, front);
      ReadyExactly(first, signals);
      assert signals == front + [last];
      SettledStep(first, SettlePolls(first), front, last);
    }
  }

  /** The settle polls are those of the scenario the watcher started with: whatever is on
      screen by then, the window waits through GESTURE_SETTLE_POLLS quiet polls before the
      one that makes it ready exactly when that first scenario had gestures. */
  lemma WaitsThroughExactly<Gesture>(first: seq<Gesture>, front: seq<Signal<Gesture>>, fetching: bool, found: bool)
    requires !Run(Watch(first), front).ready
    requires OnPoll(Run(Watch(first), front), fetching, found).ready
    ensures QuietPolls(first, front) >= GESTURE_SETTLE_POLLS <==> |first| > 0
    ensures |first| == 0 ==> QuietPolls(first, front) == 0
  {
    BecomesReady(first, front, fetching, found);
    assert (front + [Signal<Gesture>.Poll(fetching, found)])[..|front|] == front;
  }

  /** So gestures swapped in under a watcher that started without any are followed by a
      single quiet poll; the four a scenario with gestures is meant to wait through are
      skipped. */
  lemma SwapSkipsSettling<Gesture>(gesture: Gesture)
    ensures
      var signals := [FontsReady, Swap([gesture]), Poll(false, true), Poll(false, true)];
      && !Run(Watch<Gesture>([]), signals[..3]).ready
      && Run(Watch<Gesture>([]), signals).ready
      && QuietPolls([], signals) == 1
  {
    var a := Signal<Gesture>.FontsReady;
    var b := Swap([gesture]);
    var c := Signal<Gesture>.Poll(false, true);
    var all := [a, b, c, c];
    assert all[..3] == [a, b, c] && [a, b, c][..2] == [a, b] && [a, b][..1] == [a] && [a][..0] == [];
    assert Run(Watch<Gesture>([]), []) == Watch<Gesture>([]);
    assert Run(Watch<Gesture>([]), [a]) == Step(Watch<Gesture>([]), a);
    var s2 := Run(Watch<Gesture>([]), [a, b]);
    assert s2 == Step(Step(Watch<Gesture>([]), a), b);
    var s3 := Run(Watch<Gesture>([]), [a, b, c]);
    assert s3 == Step(s2, c) && !s3.ready && s3.cursor == 1;
    assert Run(Watch<Gesture>([]), all) == Step(s3, c);
    ReadyExactly([], all[..3]);
    BecomesReady([], all[..3], false, true);
    assert all[..3] + [c] == all;
  }
}
