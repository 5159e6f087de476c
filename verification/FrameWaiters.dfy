/** The waiters of one capture session (`scripts/capture-pi-fixtures.ts`): each waits
    for the first frame its predicate accepts, or for its timeout, whichever is first. */
module FrameWaiters {
  /** `id` stands for the waiter object's identity: the number of `waitFor` calls before it. */
  datatype Waiter<!Frame> = Waiter(id: nat, title: string, pred: Frame -> bool)

  /** One call of a waiter's `resolve` or `reject`. */
  datatype Settlement<+Frame> = Resolved(id: nat, frame: Frame) | Rejected(id: nat, title: string)

  datatype State<!Frame> = State(next: nat, waiting: seq<Waiter<Frame>>, settled: seq<Settlement<Frame>>)

  datatype Event<!Frame> =
    | Register(title: string, pred: Frame -> bool)
    | Arrive(frame: Frame)
    | Expire(id: nat)

  // ------------------------------------------------------------ one step

  function Unmatched<Frame>(ws: seq<Waiter<Frame>>, frame: Frame): seq<Waiter<Frame>> {
    if ws == [] then []
    else if ws[0].pred(frame) then Unmatched(ws[1..], frame)
    else [ws[0]] + Unmatched(ws[1..], frame)
  }

  function Resolutions<Frame>(ws: seq<Waiter<Frame>>, frame: Frame): seq<Settlement<Frame>> {
    if ws == [] then []
    else if ws[0].pred(frame) then [Resolved(ws[0].id, frame)] + Resolutions(ws[1..], frame)
    else Resolutions(ws[1..], frame)
  }

  function WithoutId<Frame>(ws: seq<Waiter<Frame>>, id: nat): seq<Waiter<Frame>> {
    if ws == [] then []
    else if ws[0].id == id then ws[1..]
    else [ws[0]] + WithoutId(ws[1..], id)
  }

  function Rejections<Frame>(ws: seq<Waiter<Frame>>, id: nat): seq<Settlement<Frame>> {
    if ws == [] then []
    else if ws[0].id == id then [Rejected(id, ws[0].title)]
    else Rejections(ws[1..], id)
  }

  function Step<Frame>(s: State<Frame>, e: Event<Frame>): State<Frame> {
    match e
    case Register(title, pred) => s.(next := s.next + 1, waiting := s.waiting + [Waiter(s.next, title, pred)])
    case Arrive(frame) =>
      s.(waiting := Unmatched(s.waiting, frame), settled := s.settled + Resolutions(s.waiting, frame))
    case Expire(id) =>
      s.(waiting := WithoutId(s.waiting, id), settled := s.settled + Rejections(s.waiting, id))
  }

  function Run<Frame>(s: State<Frame>, es: seq<Event<Frame>>): State<Frame>
    decreases |es|
  {
    if es == [] then s else Run(Step(s, es[0]), es[1..])
  }

  // ------------------------------------------------- the session in place

  datatype Line<+Frame> = Stderr | Unparsable | Parsed(frame: Frame)

  class Session<!Frame> {
    var next: nat
    var waiters: seq<Waiter<Frame>>
    var settled: seq<Settlement<Frame>>

    ghost function Abstract(): State<Frame>
      reads this
    {
      State(next, waiters, settled)
    }

    constructor ()
      ensures Abstract() == State(0, [], [])
    {
      next, waiters, settled := 0, [], [];
    }

    method WaitFor(title: string, pred: Frame -> bool) returns (id: nat)
      modifies this
      ensures id == old(next)
      ensures Abstract() == Step(old(Abstract()), Register(title, pred))
    {
      id := next;
      waiters := waiters + [Waiter(id, title, pred)];
      next := next + 1;
    }

    method IndexOf(id: nat) returns (index: int)
      ensures -1 <= index < |waiters|
      ensures index == -1 ==> WithoutId(waiters, id) == waiters && Rejections(waiters, id) == []
      ensures index != -1 ==>
        && WithoutId(waiters, id) == waiters[..index] + waiters[index + 1..]
        && Rejections(waiters, id) == [Rejected(id, waiters[index].title)]
    {
      index := 0;
      while index < |waiters|
        invariant 0 <= index <= |waiters|
        invariant WithoutId(waiters, id) == waiters[..index] + WithoutId(waiters[index..], id)
        invariant Rejections(waiters, id) == Rejections(waiters[index..], id)
      {
        assert waiters[index..][1..] == waiters[index + 1..];
        if waiters[index].id == id { return; }
        index := index + 1;
      }
      index := -1;
    }

    /** The timeout callback: a waiter already gone is left alone. */
    method TimeOut(id: nat)
      modifies this
      ensures Abstract() == Step(old(Abstract()), Expire(id))
    {
      var index := IndexOf(id);
      if index != -1 {
        var waiter := waiters[index];
        waiters := waiters[..index] + waiters[index + 1..];
        settled := settled + [Rejected(id, waiter.title)];
      }
    }

    /** One line of the child: only a parsed stdout frame reaches the waiters, through
        the loop that splices matches out while walking. */
    method Record(line: Line<Frame>)
      modifies this
      ensures Abstract() == if line.Parsed? then Step(old(Abstract()), Arrive(line.frame)) else old(Abstract())
    {
      if !line.Parsed? { return; }
      ghost var ws, log := waiters, settled;
      ghost var seen := 0;
      var i := 0;
      while i < |waiters|
        invariant next == old(next)
        invariant 0 <= seen <= |ws|
        invariant i == |Unmatched(ws[..seen], line.frame)|
        invariant waiters == Unmatched(ws[..seen], line.frame) + ws[seen..]
        invariant settled == log + Resolutions(ws[..seen], line.frame)
        decreases |ws| - seen
      {
        WalkOne(ws, seen, line.frame);
        SpliceAt(Unmatched(ws[..seen], line.frame), ws, seen);
        var waiter := waiters[i];
        if waiter.pred(line.frame) {
          waiters := waiters[..i] + waiters[i + 1..];
          settled := settled + [Resolved(waiter.id, line.frame)];
          i := i - 1;
        }
        i := i + 1;
        seen := seen + 1;
      }
      assert ws[..seen] == ws;
    }
  }

  lemma {:induction false} UnmatchedAppend<Frame>(a: seq<Waiter<Frame>>, b: seq<Waiter<Frame>>, frame: Frame)
    ensures Unmatched(a + b, frame) == Unmatched(a, frame) + Unmatched(b, frame)
    ensures Resolutions(a + b, frame) == Resolutions(a, frame) + Resolutions(b, frame)
  {
    if a == [] {
      assert a + b == b;
    } else {
      assert (a + b)[1..] == a[1..] + b;
      UnmatchedAppend(a[1..], b, frame);
    }
  }

  /** What the walk's splice leaves, and what its step keeps. */
  lemma SpliceAt<T>(kept: seq<T>, all: seq<T>, seen: nat)
    requires seen < |all|
    ensures
      var now := kept + all[seen..];
      && now[|kept|] == all[seen]
      && now[..|kept|] + now[|kept| + 1..] == kept + all[seen + 1..]
      && now == (kept + [all[seen]]) + all[seen + 1..]
  {}

  lemma WalkOne<Frame>(ws: seq<Waiter<Frame>>, seen: nat, frame: Frame)
    requires seen < |ws|
    ensures Unmatched(ws[..seen + 1], frame)
         == Unmatched(ws[..seen], frame) + if ws[seen].pred(frame) then [] else [ws[seen]]
    ensures Resolutions(ws[..seen + 1], frame)
         == Resolutions(ws[..seen], frame) + if ws[seen].pred(frame) then [Resolved(ws[seen].id, frame)] else []
  {
    assert ws[..seen + 1] == ws[..seen] + [ws[seen]];
    UnmatchedAppend(ws[..seen], [ws[seen]], frame);
  }

  // --------------------------------------------------- every interleaving

  /** How a wait ended, read off the events alone. */
  datatype Fate<+Frame> = Unregistered | Waiting | GotFrame(frame: Frame) | TimedOut(title: string)

  /** The first event after a registration that concerns the waiter decides its fate. */
  function Outcome<Frame>(w: Waiter<Frame>, es: seq<Event<Frame>>): Fate<Frame> {
    if es == [] then Waiting
    else match es[0]
      case Arrive(frame) => if w.pred(frame) then GotFrame(frame) else Outcome(w, es[1..])
      case Expire(id) => if id == w.id then TimedOut(w.title) else Outcome(w, es[1..])
      case Register(_, _) => Outcome(w, es[1..])
  }

  /** The fate of registration number `id`, counting registrations from `first`. */
  function FateOf<Frame>(es: seq<Event<Frame>>, first: nat, id: nat): Fate<Frame> {
    if es == [] then Unregistered
    else match es[0]
      case Register(title, pred) =>
        if first == id then Outcome(Waiter(id, title, pred), es[1..]) else FateOf(es[1..], first + 1, id)
      case _ => FateOf(es[1..], first, id)
  }

  /** The calls a fate makes on the waiter: never more than one. */
  function CallsOf<Frame>(id: nat, fate: Fate<Frame>): seq<Settlement<Frame>> {
    match fate
    case GotFrame(frame) => [Resolved(id, frame)]
    case TimedOut(title) => [Rejected(id, title)]
    case _ => []
  }

  function About<Frame>(log: seq<Settlement<Frame>>, id: nat): seq<Settlement<Frame>> {
    if log == [] then []
    else if log[0].id == id then [log[0]] + About(log[1..], id)
    else About(log[1..], id)
  }

  /** Waiting ids are in registration order and none reaches the counter. */
  ghost predicate Ordered<Frame>(ws: seq<Waiter<Frame>>, next: nat) {
    ws == [] ||
    (ws[0].id < next && (forall w :: w in ws[1..] ==> ws[0].id < w.id) && Ordered(ws[1..], next))
  }

  lemma {:induction false} AboutAppend<Frame>(a: seq<Settlement<Frame>>, b: seq<Settlement<Frame>>, id: nat)
    ensures About(a + b, id) == About(a, id) + About(b, id)
  {
    if a == [] {
      assert a + b == b;
    } else {
      AboutAppend(a[1..], b, id);
      assert (a + b)[1..] == a[1..] + b && (a + b)[0] == a[0];
    }
  }

  ghost predicate Has<Frame>(ws: seq<Waiter<Frame>>, id: nat) {
    exists w :: w in ws && w.id == id
  }

  lemma {:induction false} UnmatchedKeeps<Frame>(ws: seq<Waiter<Frame>>, frame: Frame)
    ensures forall w :: w in Unmatched(ws, frame) <==> w in ws && !w.pred(frame)
  {
    if ws != [] { UnmatchedKeeps(ws[1..], frame); }
  }

  lemma {:induction false} BelowCounter<Frame>(ws: seq<Waiter<Frame>>, next: nat)
    requires Ordered(ws, next)
    ensures forall w :: w in ws ==> w.id < next
  {
    if ws != [] { BelowCounter(ws[1..], next); }
  }

  lemma {:induction false} RegisterOrdered<Frame>(ws: seq<Waiter<Frame>>, w: Waiter<Frame>)
    requires Ordered(ws, w.id)
    ensures Ordered(ws + [w], w.id + 1)
    ensures !Has(ws, w.id)
  {
    if ws != [] {
      RegisterOrdered(ws[1..], w);
      assert (ws + [w])[1..] == ws[1..] + [w];
    }
  }

  lemma {:induction false} ArriveOrdered<Frame>(ws: seq<Waiter<Frame>>, next: nat, frame: Frame)
    requires Ordered(ws, next)
    ensures Ordered(Unmatched(ws, frame), next)
  {
    if ws != [] {
      ArriveOrdered(ws[1..], next, frame);
      UnmatchedKeeps(ws[1..], frame);
    }
  }

  lemma {:induction false} ExpireOrdered<Frame>(ws: seq<Waiter<Frame>>, next: nat, id: nat)
    requires Ordered(ws, next)
    ensures Ordered(WithoutId(ws, id), next)
    ensures forall w :: w in WithoutId(ws, id) <==> w in ws && w.id != id
  {
    if ws != [] && ws[0].id != id {
      ExpireOrdered(ws[1..], next, id);
    }
  }

  /** What one arriving frame says to one id: exactly its own resolution, if it matched. */
  lemma {:induction false} AboutResolutions<Frame>(ws: seq<Waiter<Frame>>, next: nat, frame: Frame, id: nat)
    requires Ordered(ws, next)
    ensures !Has(ws, id) ==> About(Resolutions(ws, frame), id) == []
    ensures forall w :: w in ws && w.id == id ==>
      About(Resolutions(ws, frame), id) == if w.pred(frame) then [Resolved(id, frame)] else []
  {
    if ws != [] {
      AboutResolutions(ws[1..], next, frame, id);
      if ws[0].id == id {
        assert !Has(ws[1..], id);
      } else if Has(ws[1..], id) {
        assert Has(ws, id);
      }
    }
  }

  lemma {:induction false} AboutRejections<Frame>(ws: seq<Waiter<Frame>>, next: nat, expired: nat, id: nat)
    requires Ordered(ws, next)
    ensures !Has(ws, id) || expired != id ==> About(Rejections(ws, expired), id) == []
    ensures forall w :: w in ws && w.id == id == expired ==>
      About(Rejections(ws, expired), id) == [Rejected(id, w.title)]
  {
    if ws != [] && ws[0].id != expired {
      AboutRejections(ws[1..], next, expired, id);
      if Has(ws[1..], id) {
        assert Has(ws, id);
      }
    }
  }

  lemma StepOrdered<Frame>(s: State<Frame>, e: Event<Frame>)
    requires Ordered(s.waiting, s.next)
    ensures Ordered(Step(s, e).waiting, Step(s, e).next)
  {
    match e
    case Register(title, pred) => RegisterOrdered(s.waiting, Waiter(s.next, title, pred));
    case Arrive(frame) => ArriveOrdered(s.waiting, s.next, frame);
    case Expire(id) => ExpireOrdered(s.waiting, s.next, id);
  }

  /** One step, seen by one id that is not waiting: silence. */
  lemma SilentStep<Frame>(s: State<Frame>, e: Event<Frame>, id: nat)
    requires Ordered(s.waiting, s.next)
    requires !Has(s.waiting, id)
    ensures About(Step(s, e).settled, id) == About(s.settled, id)
    ensures id < s.next ==> !Has(Step(s, e).waiting, id)
    ensures !e.Register? ==> !Has(Step(s, e).waiting, id)
  {
    match e
    case Register(_, _) =>
    case Arrive(frame) =>
      AboutAppend(s.settled, Resolutions(s.waiting, frame), id);
      AboutResolutions(s.waiting, s.next, frame, id);
      UnmatchedKeeps(s.waiting, frame);
    case Expire(gone) =>
      AboutAppend(s.settled, Rejections(s.waiting, gone), id);
      AboutRejections(s.waiting, s.next, gone, id);
      ExpireOrdered(s.waiting, s.next, gone);
  }

  /** Once settled, a waiter is never called again. */
  lemma {:induction false} NeverAgain<Frame>(s: State<Frame>, es: seq<Event<Frame>>, id: nat)
    requires Ordered(s.waiting, s.next)
    requires id < s.next && !Has(s.waiting, id)
    ensures About(Run(s, es).settled, id) == About(s.settled, id)
    ensures !Has(Run(s, es).waiting, id)
    decreases |es|
  {
    if es != [] {
      SilentStep(s, es[0], id);
      StepOrdered(s, es[0]);
      NeverAgain(Step(s, es[0]), es[1..], id);
    }
  }

  /** A waiter's calls over the rest of a run are the ones its outcome makes. */
  lemma {:induction false} WaitingRun<Frame>(s: State<Frame>, es: seq<Event<Frame>>, w: Waiter<Frame>)
    requires Ordered(s.waiting, s.next)
    requires w in s.waiting
    ensures About(Run(s, es).settled, w.id) == About(s.settled, w.id) + CallsOf(w.id, Outcome(w, es))
    ensures Has(Run(s, es).waiting, w.id) <==> Outcome(w, es).Waiting?
    decreases |es|
  {
    if es == [] {
    } else {
      var t := Step(s, es[0]);
      StepOrdered(s, es[0]);
      WaitingStep(s, es[0], w);
      BelowCounter(s.waiting, s.next);
      if w in t.waiting {
        WaitingRun(t, es[1..], w);
      } else {
        NeverAgain(t, es[1..], w.id);
      }
    }
  }

  lemma WaitingStep<Frame>(s: State<Frame>, e: Event<Frame>, w: Waiter<Frame>)
    requires Ordered(s.waiting, s.next)
    requires w in s.waiting
    ensures w in Step(s, e).waiting <==> !Decides(e, w)
    ensures Decides(e, w) ==> !Has(Step(s, e).waiting, w.id)
    ensures About(Step(s, e).settled, w.id) == About(s.settled, w.id) + CallsOf(w.id, Outcome(w, [e]))
  {
    match e
    case Register(_, _) =>
    case Arrive(frame) =>
      AboutAppend(s.settled, Resolutions(s.waiting, frame), w.id);
      AboutResolutions(s.waiting, s.next, frame, w.id);
      UnmatchedKeeps(s.waiting, frame);
    case Expire(gone) =>
      AboutAppend(s.settled, Rejections(s.waiting, gone), w.id);
      AboutRejections(s.waiting, s.next, gone, w.id);
      ExpireOrdered(s.waiting, s.next, gone);
  }

  ghost predicate Decides<Frame>(e: Event<Frame>, w: Waiter<Frame>) {
    match e
    case Register(_, _) => false
    case Arrive(frame) => w.pred(frame)
    case Expire(id) => id == w.id
  }

  lemma {:induction false} RunFates<Frame>(s: State<Frame>, es: seq<Event<Frame>>, id: nat)
    requires Ordered(s.waiting, s.next)
    requires s.next <= id
    ensures About(Run(s, es).settled, id) == About(s.settled, id) + CallsOf(id, FateOf(es, s.next, id))
    ensures Has(Run(s, es).waiting, id) <==> FateOf(es, s.next, id).Waiting?
    decreases |es|
  {
    BelowCounter(s.waiting, s.next);
    if es != [] {
      var t := Step(s, es[0]);
      StepOrdered(s, es[0]);
      if es[0].Register? && s.next == id {
        var w := Waiter(id, es[0].title, es[0].pred);
        assert t.waiting[|s.waiting|] == w;
        WaitingRun(t, es[1..], w);
      } else {
        SilentStep(s, es[0], id);
        RunFates(t, es[1..], id);
      }
    }
  }

  /** Over every interleaving of registrations, frames and timeouts: the calls made on
      any waiter are exactly those of the first event that concerned it, so it settles
      at most once, and it is still waiting exactly when there was no such event. */
  lemma SettlesOnce<Frame>(es: seq<Event<Frame>>, id: nat)
    ensures
      var end := Run(State(0, [], []), es);
      && About(end.settled, id) == CallsOf(id, FateOf(es, 0, id))
      && |About(end.settled, id)| <= 1
      && (Has(end.waiting, id) <==> FateOf(es, 0, id).Waiting?)
  {
    RunFates(State(0, [], []), es, id);
  }

  lemma {:induction false} RunOrdered<Frame>(s: State<Frame>, es: seq<Event<Frame>>)
    requires Ordered(s.waiting, s.next)
    ensures Ordered(Run(s, es).waiting, Run(s, es).next)
    decreases |es|
  {
    if es != [] {
      StepOrdered(s, es[0]);
      RunOrdered(Step(s, es[0]), es[1..]);
    }
  }

  ghost predicate InRegistrationOrder<Frame>(batch: seq<Settlement<Frame>>) {
    forall i, j :: 0 <= i < j < |batch| ==> batch[i].id < batch[j].id
  }

  /** In every reachable session, one frame resolves its waiters in registration order. */
  lemma ResolvedInRegistrationOrder<Frame>(es: seq<Event<Frame>>, frame: Frame)
    ensures InRegistrationOrder(Resolutions(Run(State(0, [], []), es).waiting, frame))
  {
    var s := Run(State(0, [], []), es);
    RunOrdered(State(0, [], []), es);
    BatchOrdered(s.waiting, s.next, frame);
  }

  lemma {:induction false} BatchFromWaiting<Frame>(ws: seq<Waiter<Frame>>, frame: Frame, i: nat)
    requires i < |Resolutions(ws, frame)|
    ensures Has(ws, Resolutions(ws, frame)[i].id)
  {
    if !ws[0].pred(frame) || i > 0 {
      BatchFromWaiting(ws[1..], frame, if ws[0].pred(frame) then i - 1 else i);
    }
  }

  lemma {:induction false} BatchOrdered<Frame>(ws: seq<Waiter<Frame>>, next: nat, frame: Frame)
    requires Ordered(ws, next)
    ensures InRegistrationOrder(Resolutions(ws, frame))
  {
    if ws != [] {
      BatchOrdered(ws[1..], next, frame);
      var batch, rest := Resolutions(ws, frame), Resolutions(ws[1..], frame);
      if ws[0].pred(frame) {
        assert InRegistrationOrder(rest);
        forall i, j | 0 <= i < j < |batch| ensures batch[i].id < batch[j].id {
          assert batch[j] == rest[j - 1];
          if i == 0 {
            BatchFromWaiting(ws[1..], frame, j - 1);
          } else {
            assert batch[i] == rest[i - 1];
          }
        }
      }
    }
  }
}
