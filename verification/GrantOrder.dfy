/** The order in which the compute queue grants its slots
    (`src/main/compute-queue/grant-order.ts`): round-robin across workspaces, oldest
    grant first, first-in-first-out within one. */
module GrantOrder {
  import opened Common

  /** `sequence` is the enqueue counter, different for every job. */
  datatype Entry = Entry(id: string, sequence: int, workspaceId: string)

  /** A workspace's latest grant; one that never had any comes before all others. */
  datatype Tick = Never | At(n: int)

  predicate Earlier(a: Tick, b: Tick) {
    b.At? && (a.Never? || a.n < b.n)
  }

  function TickOf(ticks: map<string, int>, workspace: string): Tick {
    if workspace in ticks then At(ticks[workspace]) else Never
  }

  // ------------------------------------------------- the order it promises

  /** Served first: the workspace granted longest ago, then the earliest job. */
  predicate Precedes(a: Entry, b: Entry, ticks: map<string, int>) {
    var s, t := TickOf(ticks, a.workspaceId), TickOf(ticks, b.workspaceId);
    Earlier(s, t) || (s == t && a.sequence < b.sequence)
  }

  ghost predicate IsNext(e: Entry, waiting: set<Entry>, ticks: map<string, int>) {
    e in waiting && forall f :: f in waiting && f != e ==> Precedes(e, f, ticks)
  }

  ghost predicate SequencesDiffer(waiting: set<Entry>) {
    forall e, f :: e in waiting && f in waiting && e != f ==> e.sequence != f.sequence
  }

  /** The queue granting everything it holds, one job at a time: each is the next one
      at that moment, and its workspace then carries the newest tick. */
  ghost predicate Grants(waiting: set<Entry>, ticks: map<string, int>, now: int, order: seq<Entry>) {
    if order == [] then waiting == {}
    else
      && IsNext(order[0], waiting, ticks)
      && Grants(waiting - {order[0]}, ticks[order[0].workspaceId := now + 1], now + 1, order[1..])
  }

  /** The order is determined by what waits and when each workspace was last served. */
  lemma {:induction false} OrderUnique(waiting: set<Entry>, ticks: map<string, int>, now: int, a: seq<Entry>,
                                       b: seq<Entry>)
    requires Grants(waiting, ticks, now, a) && Grants(waiting, ticks, now, b)
    ensures a == b
    decreases |a|
  {
    if a != [] {
      assert b != [] by { assert a[0] in waiting; }
      OrderUnique(waiting - {a[0]}, ticks[a[0].workspaceId := now + 1], now + 1, a[1..], b[1..]);
    }
  }

  /** No workspace's tick is above the counter. */
  ghost predicate Bounded(ticks: map<string, int>, now: int) {
    forall w :: w in ticks ==> ticks[w] <= now
  }

  // -------------------------------------------------------- its properties

  /** Every waiting job is granted exactly once, and nothing else is. */
  lemma {:induction false} GrantsEveryoneOnce(waiting: set<Entry>, ticks: map<string, int>, now: int, order: seq<Entry>)
    requires Grants(waiting, ticks, now, order)
    ensures |order| == |waiting|
    ensures forall e :: e in waiting <==> e in order
    ensures forall i, j :: 0 <= i < j < |order| ==> order[i] != order[j]
    decreases |order|
  {
    if order != [] {
      GrantsEveryoneOnce(waiting - {order[0]}, ticks[order[0].workspaceId := now + 1], now + 1, order[1..]);
      assert order[0] !in order[1..];
      assert order == [order[0]] + order[1..];
    }
  }

  /** Whose turn it is: a workspace that was never granted comes before all others, then the
      one granted longest ago, and a tie goes to whichever has the earliest job waiting. */
  ghost predicate HasTheTurn(e: Entry, waiting: set<Entry>, ticks: map<string, int>) {
    var w := e.workspaceId;
    && e in waiting
    && (w !in ticks ==> forall f :: f in waiting && f.workspaceId !in ticks ==> e.sequence <= f.sequence)
    && (w in ticks ==> forall f :: f in waiting ==>
          && f.workspaceId in ticks && ticks[w] <= ticks[f.workspaceId]
          && (ticks[f.workspaceId] == ticks[w] ==> e.sequence <= f.sequence))
  }

  /** The order starts with the job that has the turn. */
  lemma FirstHasTheTurn(waiting: set<Entry>, ticks: map<string, int>, now: int, order: seq<Entry>)
    requires Grants(waiting, ticks, now, order) && order != []
    ensures HasTheTurn(order[0], waiting, ticks)
  {
    var e := order[0];
    assert forall f :: f in waiting && f != e ==> Precedes(e, f, ticks);
  }

  /** And every later one is granted to the job that has the turn by then. */
  lemma {:induction false} EachHasTheTurn(waiting: set<Entry>, ticks: map<string, int>, now: int, order: seq<Entry>,
                                          k: nat)
    requires Grants(waiting, ticks, now, order) && k < |order|
    ensures HasTheTurn(order[k], Elements(order[k..]), TicksAfter(ticks, now, order[..k]))
    decreases |order|
  {
    if k == 0 {
      GrantsEveryoneOnce(waiting, ticks, now, order);
      assert Elements(order) == waiting && order[0..] == order;
      FirstHasTheTurn(waiting, ticks, now, order);
    } else {
      EachHasTheTurn(waiting - {order[0]}, ticks[order[0].workspaceId := now + 1], now + 1, order[1..], k - 1);
      assert order[1..][k - 1..] == order[k..] && order[..k][1..] == order[1..][..k - 1];
    }
  }

  /** Within one workspace, first in is first out. */
  lemma {:induction false} FirstInFirstOut(waiting: set<Entry>, ticks: map<string, int>, now: int, order: seq<Entry>,
                                           i: nat, j: nat)
    requires Grants(waiting, ticks, now, order)
    requires i < j < |order| && order[i].workspaceId == order[j].workspaceId
    ensures order[i].sequence < order[j].sequence
    decreases |order|
  {
    if i == 0 {
      GrantsEveryoneOnce(waiting, ticks, now, order);
      assert order[j] in waiting && order[j] != order[0];
      assert Precedes(order[0], order[j], ticks);
    } else {
      FirstInFirstOut(waiting - {order[0]}, ticks[order[0].workspaceId := now + 1], now + 1, order[1..], i - 1, j - 1);
    }
  }

  /** A workspace with a tick above the asker's waits until the asker has been served. */
  lemma {:induction false} ServedBefore(waiting: set<Entry>, ticks: map<string, int>, now: int, order: seq<Entry>,
                                        j: nat, e: Entry)
    requires Grants(waiting, ticks, now, order) && Bounded(ticks, now)
    requires j < |order| && e in order[j..] && e.workspaceId != order[j].workspaceId
    requires Earlier(TickOf(ticks, e.workspaceId), TickOf(ticks, order[j].workspaceId))
    ensures exists k :: 0 <= k < j && order[k].workspaceId == e.workspaceId
    decreases |order|
  {
    GrantsEveryoneOnce(waiting, ticks, now, order);
    assert e in order;
    if j == 0 {
      assert false;
    } else if order[0].workspaceId == e.workspaceId {
      assert order[0].workspaceId == e.workspaceId;
    } else {
      var ticks' := ticks[order[0].workspaceId := now + 1];
      assert order[1..][j - 1..] == order[j..];
      ServedBefore(waiting - {order[0]}, ticks', now + 1, order[1..], j - 1, e);
      var k :| 0 <= k < j - 1 && order[1..][k].workspaceId == e.workspaceId;
      assert order[k + 1].workspaceId == e.workspaceId;
    }
  }

  /** Round-robin: between two grants to one workspace, every other workspace that still
      has a job waiting after the second gets one in between. */
  lemma {:induction false} RoundRobin(waiting: set<Entry>, ticks: map<string, int>, now: int, order: seq<Entry>,
                                      i: nat, j: nat, e: Entry)
    requires Grants(waiting, ticks, now, order) && Bounded(ticks, now)
    requires i < j < |order| && order[i].workspaceId == order[j].workspaceId
    requires e in order[j..] && e.workspaceId != order[j].workspaceId
    ensures exists k :: i < k < j && order[k].workspaceId == e.workspaceId
    decreases |order|
  {
    var ticks' := ticks[order[0].workspaceId := now + 1];
    var rest := order[1..];
    assert rest[j - 1..] == order[j..];
    var k: nat;
    if i == 0 {
      ServedBefore(waiting - {order[0]}, ticks', now + 1, rest, j - 1, e);
      k :| 0 <= k < j - 1 && rest[k].workspaceId == e.workspaceId;
    } else {
      RoundRobin(waiting - {order[0]}, ticks', now + 1, rest, i - 1, j - 1, e);
      k :| i - 1 < k < j - 1 && rest[k].workspaceId == e.workspaceId;
    }
    assert order[k + 1].workspaceId == e.workspaceId;
  }

  // ----------------------------------------------------- the lanes version

  function Insert(e: Entry, sorted: seq<Entry>): seq<Entry> {
    if sorted == [] then [e]
    else if e.sequence <= sorted[0].sequence then [e] + sorted
    else [sorted[0]] + Insert(e, sorted[1..])
  }

  function SortBySequence(queued: seq<Entry>): seq<Entry> {
    if queued == [] then [] else Insert(queued[0], SortBySequence(queued[1..]))
  }

  ghost predicate Ascending(s: seq<Entry>) {
    forall i, j :: 0 <= i < j < |s| ==> s[i].sequence < s[j].sequence
  }

  ghost predicate SameJobs(a: seq<Entry>, b: seq<Entry>) {
    forall e :: e in a <==> e in b
  }

  lemma {:induction false} InsertAscending(e: Entry, sorted: seq<Entry>)
    requires Ascending(sorted)
    requires forall f :: f in sorted ==> f.sequence != e.sequence
    ensures Ascending(Insert(e, sorted))
    ensures forall f :: f in Insert(e, sorted) <==> f == e || f in sorted
    ensures |Insert(e, sorted)| == |sorted| + 1
  {
    if sorted != [] && e.sequence > sorted[0].sequence {
      InsertAscending(e, sorted[1..]);
      var rest := Insert(e, sorted[1..]);
      AscendingCons(sorted[0], rest, sorted, e);
    } else if sorted != [] {
      assert sorted[0] in sorted;
    }
  }

  lemma AscendingCons(head: Entry, rest: seq<Entry>, sorted: seq<Entry>, e: Entry)
    requires Ascending(rest) && Ascending(sorted) && sorted != [] && head == sorted[0]
    requires forall f :: f in rest ==> f == e || f in sorted[1..]
    requires head.sequence < e.sequence
    ensures Ascending([head] + rest)
  {
    forall k | 0 <= k < |rest| ensures head.sequence < rest[k].sequence {
      assert rest[k] in rest;
      if rest[k] != e {
        var m :| 0 <= m < |sorted[1..]| && sorted[1..][m] == rest[k];
        assert sorted[m + 1] == rest[k];
      }
    }
  }

  lemma {:induction false} SortAscending(queued: seq<Entry>)
    requires forall i, j :: 0 <= i < j < |queued| ==> queued[i].sequence != queued[j].sequence
    ensures Ascending(SortBySequence(queued))
    ensures SameJobs(SortBySequence(queued), queued)
    ensures |SortBySequence(queued)| == |queued|
  {
    if queued != [] {
      SortAscending(queued[1..]);
      forall f | f in SortBySequence(queued[1..]) ensures f.sequence != queued[0].sequence {
        assert f in queued[1..];
      }
      InsertAscending(queued[0], SortBySequence(queued[1..]));
    }
  }

  function Lane(s: seq<Entry>, workspace: string): seq<Entry> {
    if s == [] then []
    else
      var last := s[|s| - 1];
      Lane(s[..|s| - 1], workspace) + if last.workspaceId == workspace then [last] else []
  }

  lemma {:induction false} LaneMembers(s: seq<Entry>, workspace: string)
    ensures forall e :: e in Lane(s, workspace) <==> e in s && e.workspaceId == workspace
  {
    if s != [] {
      LaneMembers(s[..|s| - 1], workspace);
      assert s == s[..|s| - 1] + [s[|s| - 1]];
    }
  }

  lemma {:induction false} LaneAscending(s: seq<Entry>, workspace: string)
    requires Ascending(s)
    ensures Ascending(Lane(s, workspace))
  {
    if s != [] {
      var front := s[..|s| - 1];
      LaneAscending(front, workspace);
      LaneMembers(front, workspace);
      var lane := Lane(front, workspace);
      forall k | 0 <= k < |lane| ensures lane[k].sequence < s[|s| - 1].sequence {
        assert lane[k] in front;
      }
    }
  }

  /** The lanes built from the sorted queue, in order of first appearance. */
  ghost predicate LanesOf(lanes: map<string, seq<Entry>>, names: seq<string>, s: seq<Entry>) {
    && (forall w :: w in names <==> w in lanes)
    && (forall e :: e in s ==> e.workspaceId in lanes)
    && (forall w :: w in lanes ==> lanes[w] == Lane(s, w))
  }

  method BuildLanes(s: seq<Entry>) returns (lanes: map<string, seq<Entry>>, names: seq<string>)
    ensures LanesOf(lanes, names, s)
  {
    lanes, names := map[], [];
    for k := 0 to |s|
      invariant LanesOf(lanes, names, s[..k])
    {
      var entry := s[k];
      var w := entry.workspaceId;
      LanesExtend(lanes, names, s[..k], entry);
      assert s[..k + 1] == s[..k] + [entry];
      if w !in lanes { names := names + [w]; }
      lanes := lanes[w := (if w in lanes then lanes[w] else []) + [entry]];
    }
    assert s[..|s|] == s;
  }

  lemma LanesExtend(lanes: map<string, seq<Entry>>, names: seq<string>, s: seq<Entry>, e: Entry)
    requires LanesOf(lanes, names, s)
    ensures
      var w := e.workspaceId;
      LanesOf(lanes[w := (if w in lanes then lanes[w] else []) + [e]],
              if w in lanes then names else names + [w], s + [e])
  {
    var w := e.workspaceId;
    var lane := if w in lanes then lanes[w] else [];
    assert lane == Lane(s, w) by {
      if w !in lanes { NoLaneYet(s, w); }
    }
    var more := lanes[w := lane + [e]];
    assert forall v :: v in more ==> more[v] == Lane(s + [e], v);
  }

  lemma NoLaneYet(s: seq<Entry>, w: string)
    requires forall e :: e in s ==> e.workspaceId != w
    ensures Lane(s, w) == []
  {
    if s != [] {
      assert s[|s| - 1] in s;
      NoLaneYet(s[..|s| - 1], w);
    }
  }

  function CursorOf(cursors: map<string, nat>, w: string): nat {
    if w in cursors then cursors[w] else 0
  }

  /** What is left in a lane. */
  function Left(lanes: map<string, seq<Entry>>, cursors: map<string, nat>, w: string): seq<Entry> {
    if w in lanes && CursorOf(cursors, w) <= |lanes[w]| then lanes[w][CursorOf(cursors, w)..] else []
  }

  /** Each lane is one workspace's jobs, earliest first. */
  ghost predicate LanesOk(lanes: map<string, seq<Entry>>) {
    forall w :: w in lanes ==> LaneOk(lanes[w], w)
  }

  ghost predicate LaneOk(lane: seq<Entry>, w: string) {
    Ascending(lane) && forall e :: e in lane ==> e.workspaceId == w
  }

  /** What waits is what is left in the lanes. */
  ghost predicate WaitsInLanes(waiting: set<Entry>, lanes: map<string, seq<Entry>>, cursors: map<string, nat>) {
    forall e :: e in waiting <==> e in Left(lanes, cursors, e.workspaceId)
  }

  /** The chosen lane's head is not beaten by any other lane's head. */
  ghost predicate BestLane(w: string, names: seq<string>, lanes: map<string, seq<Entry>>,
                           cursors: map<string, nat>, ticks: map<string, int>) {
    && Left(lanes, cursors, w) != []
    && forall v :: v in names && Left(lanes, cursors, v) != [] ==>
         !Better(TickOf(ticks, v), Left(lanes, cursors, v)[0], TickOf(ticks, w), Left(lanes, cursors, w)[0])
  }

  predicate Better(tick: Tick, head: Entry, bestTick: Tick, bestHead: Entry) {
    Earlier(tick, bestTick) || (tick == bestTick && head.sequence < bestHead.sequence)
  }

  ghost predicate Exhausted(names: seq<string>, lanes: map<string, seq<Entry>>, cursors: map<string, nat>) {
    forall v :: v in names ==> Left(lanes, cursors, v) == []
  }

  method PickNextLane(names: seq<string>, lanes: map<string, seq<Entry>>, cursors: map<string, nat>,
                      ticks: map<string, int>)
    returns (best: Option<string>)
    ensures best.None? ==> Exhausted(names, lanes, cursors)
    ensures best.Some? ==> best.value in names && BestLane(best.value, names, lanes, cursors, ticks)
    ensures best.Some? ==> LaneHasTheTurn(best.value, names, lanes, cursors, ticks)
  {
    best := None;
    for k := 0 to |names|
      invariant best.None? ==> Exhausted(names[..k], lanes, cursors)
      invariant best.Some? ==> best.value in names && BestLane(best.value, names[..k], lanes, cursors, ticks)
    {
      var left := Left(lanes, cursors, names[k]);
      if left != [] {
        if best.None? || Better(TickOf(ticks, names[k]), left[0],
                                TickOf(ticks, best.value), Left(lanes, cursors, best.value)[0]) {
          best := Some(names[k]);
        }
      }
    }
    assert names[..|names|] == names;
    if best.Some? { BestHasTheTurn(best.value, names, lanes, cursors, ticks); }
  }

  /** The lane's workspace has the turn among those with jobs left. */
  ghost predicate LaneHasTheTurn(w: string, names: seq<string>, lanes: map<string, seq<Entry>>,
                                 cursors: map<string, nat>, ticks: map<string, int>) {
    var left := Left(lanes, cursors, w);
    && left != []
    && forall v :: v in names && Left(lanes, cursors, v) != [] ==>
         var head := Left(lanes, cursors, v)[0];
         if w !in ticks then v in ticks || left[0].sequence <= head.sequence
         else v in ticks && (ticks[w] < ticks[v] || (ticks[w] == ticks[v] && left[0].sequence <= head.sequence))
  }

  lemma BestHasTheTurn(w: string, names: seq<string>, lanes: map<string, seq<Entry>>,
                       cursors: map<string, nat>, ticks: map<string, int>)
    requires BestLane(w, names, lanes, cursors, ticks)
    ensures LaneHasTheTurn(w, names, lanes, cursors, ticks)
  {
  }

  lemma LeftOk(lanes: map<string, seq<Entry>>, cursors: map<string, nat>, w: string)
    requires LanesOk(lanes)
    ensures LaneOk(Left(lanes, cursors, w), w)
  {
    var left := Left(lanes, cursors, w);
    if w in lanes {
      assert LaneOk(lanes[w], w);
      forall e | e in left ensures e.workspaceId == w {
        assert e in lanes[w];
      }
    }
  }

  lemma HeadFirst(lane: seq<Entry>, w: string, f: Entry)
    requires LaneOk(lane, w) && f in lane
    ensures lane[0].workspaceId == w && lane[0].sequence <= f.sequence
  {
    var k :| 0 <= k < |lane| && lane[k] == f;
    assert lane[0] in lane;
  }

  lemma HeadIsNext(w: string, waiting: set<Entry>, names: seq<string>, lanes: map<string, seq<Entry>>,
                   cursors: map<string, nat>, ticks: map<string, int>)
    requires forall v :: v in names <==> v in lanes
    requires LanesOk(lanes) && WaitsInLanes(waiting, lanes, cursors) && SequencesDiffer(waiting)
    requires BestLane(w, names, lanes, cursors, ticks)
    ensures IsNext(Left(lanes, cursors, w)[0], waiting, ticks)
    ensures Left(lanes, cursors, w)[0].workspaceId == w
  {
    var head := Left(lanes, cursors, w)[0];
    LeftOk(lanes, cursors, w);
    assert head in Left(lanes, cursors, w);
    assert head in waiting;
    forall f | f in waiting && f != head ensures Precedes(head, f, ticks) {
      var left := Left(lanes, cursors, f.workspaceId);
      LeftOk(lanes, cursors, f.workspaceId);
      HeadFirst(left, f.workspaceId, f);
      assert left[0] in left;
      assert left[0] in waiting;
      assert !Better(TickOf(ticks, f.workspaceId), left[0], TickOf(ticks, w), head);
    }
  }

  lemma LeftAfter(lanes: map<string, seq<Entry>>, cursors: map<string, nat>, w: string, v: string)
    requires Left(lanes, cursors, w) != []
    ensures
      var cursors' := cursors[w := CursorOf(cursors, w) + 1];
      Left(lanes, cursors', v) == if v == w then Left(lanes, cursors, w)[1..] else Left(lanes, cursors, v)
  {}

  lemma TakeHead(w: string, waiting: set<Entry>, lanes: map<string, seq<Entry>>, cursors: map<string, nat>)
    requires LanesOk(lanes) && WaitsInLanes(waiting, lanes, cursors)
    requires Left(lanes, cursors, w) != []
    ensures
      var head := Left(lanes, cursors, w)[0];
      WaitsInLanes(waiting - {head}, lanes, cursors[w := CursorOf(cursors, w) + 1])
  {
    var left := Left(lanes, cursors, w);
    LeftOk(lanes, cursors, w);
    assert left[0] in left;
    forall e
      ensures e in waiting - {left[0]}
         <==> e in Left(lanes, cursors[w := CursorOf(cursors, w) + 1], e.workspaceId)
    {
      LeftAfter(lanes, cursors, w, e.workspaceId);
    }
  }

  // ------------------------------------------------------------- the loop

  ghost predicate GrantsPrefix(waiting: set<Entry>, ticks: map<string, int>, now: int, order: seq<Entry>) {
    order == [] ||
    (&& IsNext(order[0], waiting, ticks)
     && GrantsPrefix(waiting - {order[0]}, ticks[order[0].workspaceId := now + 1], now + 1, order[1..]))
  }

  ghost function Elements(order: seq<Entry>): set<Entry> {
    set e | e in order
  }

  ghost function TicksAfter(ticks: map<string, int>, now: int, order: seq<Entry>): map<string, int>
    decreases |order|
  {
    if order == [] then ticks
    else TicksAfter(ticks[order[0].workspaceId := now + 1], now + 1, order[1..])
  }

  lemma {:induction false} GrantOneMore(waiting: set<Entry>, ticks: map<string, int>, now: int, order: seq<Entry>,
                                        e: Entry)
    requires GrantsPrefix(waiting, ticks, now, order)
    requires IsNext(e, waiting - Elements(order), TicksAfter(ticks, now, order))
    ensures GrantsPrefix(waiting, ticks, now, order + [e])
    ensures TicksAfter(ticks, now, order + [e])
         == TicksAfter(ticks, now, order)[e.workspaceId := now + |order| + 1]
    ensures Elements(order + [e]) == Elements(order) + {e}
    decreases |order|
  {
    if order == [] {
      assert waiting - Elements(order) == waiting;
      assert ([e])[1..] == [] && [] + [e] == [e];
    } else {
      assert order == [order[0]] + order[1..];
      assert waiting - Elements(order) == (waiting - {order[0]}) - Elements(order[1..]);
      GrantOneMore(waiting - {order[0]}, ticks[order[0].workspaceId := now + 1], now + 1, order[1..], e);
      assert (order + [e])[1..] == order[1..] + [e];
    }
  }

  lemma {:induction false} PrefixComplete(waiting: set<Entry>, ticks: map<string, int>, now: int, order: seq<Entry>)
    requires GrantsPrefix(waiting, ticks, now, order)
    requires waiting - Elements(order) == {}
    ensures Grants(waiting, ticks, now, order)
    decreases |order|
  {
    if order == [] {
      assert waiting - Elements(order) == waiting;
    } else {
      assert order == [order[0]] + order[1..];
      assert waiting - Elements(order) == (waiting - {order[0]}) - Elements(order[1..]);
      PrefixComplete(waiting - {order[0]}, ticks[order[0].workspaceId := now + 1], now + 1, order[1..]);
    }
  }

  /** The larger of zero and every tick. */
  ghost predicate IsNewest(now: int, ticks: map<string, int>) {
    && now >= 0
    && Bounded(ticks, now)
    && (now == 0 || exists w :: w in ticks && ticks[w] == now)
  }

  method NewestTick(ticks: map<string, int>) returns (now: int)
    ensures IsNewest(now, ticks)
  {
    now := 0;
    var workspaces := ticks.Keys;
    while workspaces != {}
      invariant workspaces <= ticks.Keys
      invariant now >= 0 && (now == 0 || exists w :: w in ticks && ticks[w] == now)
      invariant forall w :: w in ticks && w !in workspaces ==> ticks[w] <= now
      decreases |workspaces|
    {
      var w :| w in workspaces;
      if ticks[w] > now { now := ticks[w]; }
      workspaces := workspaces - {w};
    }
  }

  function Ids(entries: seq<Entry>): (ids: seq<string>)
    ensures |ids| == |entries|
  {
    if entries == [] then [] else Ids(entries[..|entries| - 1]) + [entries[|entries| - 1].id]
  }

  /** What the loop knows: the jobs granted so far form a prefix of the promised order,
      and the rest still waits in the lanes under the simulated ticks. */
  ghost predicate Underway(all: set<Entry>, last: map<string, int>, newest: int, granted: seq<Entry>,
                           ticks: map<string, int>, tick: int) {
    && GrantsPrefix(all, last, newest, granted)
    && ticks == TicksAfter(last, newest, granted)
    && tick == newest + |granted|
    && |Elements(granted)| == |granted| && Elements(granted) <= all
  }

  lemma GrantStep(all: set<Entry>, last: map<string, int>, newest: int, granted: seq<Entry>, e: Entry,
                  ticks: map<string, int>, tick: int)
    requires Underway(all, last, newest, granted, ticks, tick)
    requires IsNext(e, all - Elements(granted), ticks)
    ensures Underway(all, last, newest, granted + [e], ticks[e.workspaceId := tick + 1], tick + 1)
    ensures all - Elements(granted + [e]) == all - Elements(granted) - {e}
  {
    GrantOneMore(all, last, newest, granted, e);
  }

  lemma AllGranted(queued: seq<Entry>, granted: set<Entry>)
    requires granted <= Elements(queued) && |granted| >= |queued|
    ensures Elements(queued) - granted == {}
  {
    ElementsCount(queued);
    var rest := Elements(queued) - granted;
    assert Elements(queued) == granted + rest;
  }

  lemma ElementsCount(s: seq<Entry>)
    ensures |Elements(s)| <= |s|
  {
    if s != [] {
      ElementsCount(s[1..]);
      assert s == [s[0]] + s[1..];
      assert Elements(s) == {s[0]} + Elements(s[1..]);
    }
  }

  /** What the loop never changes. */
  ghost predicate Fixed(all: set<Entry>, names: seq<string>, lanes: map<string, seq<Entry>>) {
    && (forall v :: v in names <==> v in lanes)
    && LanesOk(lanes)
    && SequencesDiffer(all)
  }

  /** What it keeps. */
  ghost predicate LoopInv(all: set<Entry>, last: map<string, int>, newest: int, granted: seq<Entry>,
                          lanes: map<string, seq<Entry>>, cursors: map<string, nat>,
                          ticks: map<string, int>, tick: int) {
    && Underway(all, last, newest, granted, ticks, tick)
    && WaitsInLanes(all - Elements(granted), lanes, cursors)
  }

  lemma LoopStep(all: set<Entry>, last: map<string, int>, newest: int, granted: seq<Entry>,
                 names: seq<string>, lanes: map<string, seq<Entry>>,
                 cursors: map<string, nat>, ticks: map<string, int>, tick: int, w: string)
    requires Fixed(all, names, lanes)
    requires LoopInv(all, last, newest, granted, lanes, cursors, ticks, tick)
    requires BestLane(w, names, lanes, cursors, ticks)
    ensures LoopInv(all, last, newest, granted + [Left(lanes, cursors, w)[0]], lanes,
                    cursors[w := CursorOf(cursors, w) + 1], ticks[w := tick + 1], tick + 1)
  {
    HeadIsNext(w, all - Elements(granted), names, lanes, cursors, ticks);
    TakeHead(w, all - Elements(granted), lanes, cursors);
    GrantStep(all, last, newest, granted, Left(lanes, cursors, w)[0], ticks, tick);
  }

  lemma LoopDone(queued: seq<Entry>, last: map<string, int>, newest: int, granted: seq<Entry>,
                 names: seq<string>, lanes: map<string, seq<Entry>>,
                 cursors: map<string, nat>, ticks: map<string, int>, tick: int)
    requires Fixed(Elements(queued), names, lanes)
    requires LoopInv(Elements(queued), last, newest, granted, lanes, cursors, ticks, tick)
    requires |granted| >= |queued| || Exhausted(names, lanes, cursors)
    ensures Grants(Elements(queued), last, newest, granted)
  {
    if |granted| >= |queued| {
      AllGranted(queued, Elements(granted));
    } else {
    }
    PrefixComplete(Elements(queued), last, newest, granted);
  }

  /** One turn of the loop: the best lane's head is granted and its workspace gets the
      newest tick. */
  method GrantNext(ghost all: set<Entry>, ghost last: map<string, int>, ghost newest: int, ghost granted: seq<Entry>,
                   names: seq<string>, lanes: map<string, seq<Entry>>,
                   cursors: map<string, nat>, ticks: map<string, int>, tick: int)
    returns (entry: Option<Entry>, cursors': map<string, nat>, ticks': map<string, int>)
    requires Fixed(all, names, lanes)
    requires LoopInv(all, last, newest, granted, lanes, cursors, ticks, tick)
    ensures entry.None? ==> Exhausted(names, lanes, cursors) && cursors' == cursors && ticks' == ticks
    ensures entry.Some? ==> LoopInv(all, last, newest, granted + [entry.value], lanes, cursors', ticks', tick + 1)
  {
    var next := PickNextLane(names, lanes, cursors, ticks);
    if next.None? { return None, cursors, ticks; }
    LoopStep(all, last, newest, granted, names, lanes, cursors, ticks, tick, next.value);
    entry := Some(Left(lanes, cursors, next.value)[0]);
    cursors' := cursors[next.value := CursorOf(cursors, next.value) + 1];
    ticks' := ticks[next.value := tick + 1];
  }

  method GrantAll(queued: seq<Entry>, last: map<string, int>, newest: int,
                  names: seq<string>, lanes: map<string, seq<Entry>>)
    returns (order: seq<string>, ghost granted: seq<Entry>)
    requires Fixed(Elements(queued), names, lanes)
    requires LoopInv(Elements(queued), last, newest, [], lanes, map[], last, newest)
    ensures order == Ids(granted)
    ensures Grants(Elements(queued), last, newest, granted)
  {
    var simulatedTick, ticks := newest, last;
    var cursors: map<string, nat> := map[];
    order, granted := [], [];
    while |order| < |queued|
      invariant order == Ids(granted)
      invariant LoopInv(Elements(queued), last, newest, granted, lanes, cursors, ticks, simulatedTick)
      decreases |queued| - |order|
    {
      var entry, cursors', ticks' :=
        GrantNext(Elements(queued), last, newest, granted, names, lanes, cursors, ticks, simulatedTick);
      if entry.None? { break; }
      order := order + [entry.value.id];
      granted := granted + [entry.value];
      cursors, ticks, simulatedTick := cursors', ticks', simulatedTick + 1;
    }
    LoopDone(queued, last, newest, granted, names, lanes, cursors, ticks, simulatedTick);
  }

  /** The ids of what the queue promises to grant, one after the other, from the newest
      tick on. */
  ghost predicate Promised(order: seq<string>, queued: seq<Entry>, ticks: map<string, int>) {
    exists newest: int, granted: seq<Entry> ::
      IsNewest(newest, ticks) && Grants(Elements(queued), ticks, newest, granted) && order == Ids(granted)
  }

  /** The promise leaves no choice. */
  lemma PromiseUnique(a: seq<string>, b: seq<string>, queued: seq<Entry>, ticks: map<string, int>)
    requires Promised(a, queued, ticks) && Promised(b, queued, ticks)
    ensures a == b
  {
    var m, s :| IsNewest(m, ticks) && Grants(Elements(queued), ticks, m, s) && a == Ids(s);
    var n, t :| IsNewest(n, ticks) && Grants(Elements(queued), ticks, n, t) && b == Ids(t);
    assert m == n;
    OrderUnique(Elements(queued), ticks, m, s, t);
  }

  method ComputeGrantOrder(queued: seq<Entry>, lastGrantTicks: map<string, int>) returns (order: seq<string>)
    requires forall i, j :: 0 <= i < j < |queued| ==> queued[i].sequence != queued[j].sequence
    ensures Promised(order, queued, lastGrantTicks)
    ensures queued != [] ==>
              order != [] && exists e :: HasTheTurn(e, Elements(queued), lastGrantTicks) && e.id == order[0]
  {
    var sorted := SortBySequence(queued);
    SortAscending(queued);
    var lanes, names := BuildLanes(sorted);
    var tick := NewestTick(lastGrantTicks);
    Begin(queued, sorted, lanes, names, lastGrantTicks, tick);
    ghost var granted: seq<Entry>;
    order, granted := GrantAll(queued, lastGrantTicks, tick, names, lanes);
    if queued != [] {
      assert queued[0] in Elements(queued);
      FirstHasTheTurn(Elements(queued), lastGrantTicks, tick, granted);
      IdsAt(granted, 0);
    }
  }

  lemma {:induction false} IdsAt(entries: seq<Entry>, k: nat)
    requires k < |entries|
    ensures Ids(entries)[k] == entries[k].id
  {
    if k < |entries| - 1 { IdsAt(entries[..|entries| - 1], k); }
  }

  lemma Begin(queued: seq<Entry>, sorted: seq<Entry>, lanes: map<string, seq<Entry>>, names: seq<string>,
              last: map<string, int>, newest: int)
    requires Ascending(sorted) && SameJobs(sorted, queued) && LanesOf(lanes, names, sorted)
    requires forall i, j :: 0 <= i < j < |queued| ==> queued[i].sequence != queued[j].sequence
    ensures Fixed(Elements(queued), names, lanes)
    ensures LoopInv(Elements(queued), last, newest, [], lanes, map[], last, newest)
  {
    forall w | w in lanes ensures LaneOk(lanes[w], w) {
      LaneAscending(sorted, w);
      LaneMembers(sorted, w);
    }
    forall e ensures e in Elements(queued) - Elements([]) <==> e in Left(lanes, map[], e.workspaceId) {
      LaneMembers(sorted, e.workspaceId);
      if e.workspaceId in lanes {
        assert lanes[e.workspaceId][0..] == lanes[e.workspaceId];
      }
    }
  }

  // ------------------------------------------------------- places that hold

  /** Granting the head leaves exactly the rest of the order: as long as jobs are granted
      in turn, a place in the line is when its job is served. */
  lemma GrantingKeepsPromise(waiting: set<Entry>, ticks: map<string, int>, now: int, order: seq<Entry>,
                             newest: int, recomputed: seq<Entry>)
    requires Grants(waiting, ticks, now, order) && order != []
    requires IsNewest(now, ticks)
    requires
      var ticks' := ticks[order[0].workspaceId := now + 1];
      IsNewest(newest, ticks') && Grants(waiting - {order[0]}, ticks', newest, recomputed)
    ensures newest == now + 1 && recomputed == order[1..]
  {
    var ticks' := ticks[order[0].workspaceId := now + 1];
    assert ticks'[order[0].workspaceId] == now + 1;
    OrderUnique(waiting - {order[0]}, ticks', now + 1, recomputed, order[1..]);
  }

  /** Two tick tables that rank the waiting jobs alike. */
  ghost predicate Alike(waiting: set<Entry>, s: map<string, int>, t: map<string, int>) {
    forall e, f :: e in waiting && f in waiting ==> (Precedes(e, f, s) <==> Precedes(e, f, t))
  }

  /** Only the ranking matters, not the ticks themselves. */
  lemma {:induction false} AlikeOrder(waiting: set<Entry>, s: map<string, int>, m: int, t: map<string, int>, n: int,
                                      order: seq<Entry>)
    requires Alike(waiting, s, t) && Bounded(s, m) && Bounded(t, n)
    requires Grants(waiting, s, m, order)
    ensures Grants(waiting, t, n, order)
    decreases |order|
  {
    if order != [] {
      var w := order[0].workspaceId;
      AlikeOrder(waiting - {order[0]}, s[w := m + 1], m + 1, t[w := n + 1], n + 1, order[1..]);
    }
  }

  function Without(order: seq<Entry>, e: Entry): seq<Entry> {
    if order == [] then []
    else if order[0] == e then order[1..]
    else [order[0]] + Without(order[1..], e)
  }

  function FirstOf(order: seq<Entry>, w: string): (m: nat)
    ensures m <= |order|
    ensures m < |order| ==> order[m].workspaceId == w
    ensures forall k :: 0 <= k < m ==> order[k].workspaceId != w
  {
    if order == [] || order[0].workspaceId == w then 0 else 1 + FirstOf(order[1..], w)
  }

  /** Every job ahead of the workspace's first one precedes it under these ticks. */
  ghost predicate AllPrecede(order: seq<Entry>, w: string, ticks: map<string, int>) {
    var m := FirstOf(order, w);
    m < |order| ==> forall k :: 0 <= k < m ==> Precedes(order[k], order[m], ticks)
  }

  /** At the moment a job would be granted, whoever is granted between it and the next job
      of its workspace goes before that one too, as the ticks then are. */
  ghost predicate MovesUp(order: seq<Entry>, gone: Entry, ticks: map<string, int>, now: int)
    decreases |order|
  {
    order != [] ==>
      if order[0] == gone then AllPrecede(order[1..], gone.workspaceId, ticks)
      else MovesUp(order[1..], gone, ticks[order[0].workspaceId := now + 1], now + 1)
  }

  // ------------------------------------ two tables that differ in one workspace

  predicate NoLaterThan(tick: Tick, n: int) { tick.At? ==> tick.n <= n }

  predicate RankAlike(o: map<string, int>, n: map<string, int>, u: string, v: string) {
    && (Earlier(TickOf(o, u), TickOf(o, v)) <==> Earlier(TickOf(n, u), TickOf(n, v)))
    && (Earlier(TickOf(o, v), TickOf(o, u)) <==> Earlier(TickOf(n, v), TickOf(n, u)))
  }

  ghost predicate OthersRankAlike(o: map<string, int>, n: map<string, int>, w: string) {
    forall u: string, v: string :: u != w && v != w ==> RankAlike(o, n, u, v)
  }

  lemma GrantKeepsRanks(o: map<string, int>, n: map<string, int>, w: string, oNow: int, nNow: int, g: string)
    requires OthersRankAlike(o, n, w) && Bounded(o, oNow) && Bounded(n, nNow)
    ensures OthersRankAlike(o[g := oNow + 1], n[g := nNow + 1], w)
  {
    var o', n' := o[g := oNow + 1], n[g := nNow + 1];
    forall u: string, v: string | u != w && v != w ensures RankAlike(o', n', u, v) {
      assert RankAlike(o, n, u, v);
    }
  }

  /** Once the one workspace has been granted in both, they rank everything alike. */
  lemma AlikeOnceLevel(o: map<string, int>, n: map<string, int>, w: string, oNow: int, nNow: int, waiting: set<Entry>)
    requires OthersRankAlike(o, n, w) && Bounded(o, oNow) && Bounded(n, nNow)
    ensures Alike(waiting, o[w := oNow + 1], n[w := nNow + 1])
  {
    var o', n' := o[w := oNow + 1], n[w := nNow + 1];
    forall e, f | e in waiting && f in waiting ensures Precedes(e, f, o') <==> Precedes(e, f, n') {
      if e.workspaceId != w && f.workspaceId != w { assert RankAlike(o, n, e.workspaceId, f.workspaceId); }
    }
  }

  /** With nothing waiting in that workspace they rank what waits alike. */
  lemma AlikeWithout(o: map<string, int>, n: map<string, int>, w: string, waiting: set<Entry>)
    requires OthersRankAlike(o, n, w)
    requires forall e :: e in waiting ==> e.workspaceId != w
    ensures Alike(waiting, o, n)
  {
    forall e, f | e in waiting && f in waiting ensures Precedes(e, f, o) <==> Precedes(e, f, n) {
      assert RankAlike(o, n, e.workspaceId, f.workspaceId);
    }
  }

  /** Two clocks: w was granted in the first table when its clock went past `base`, and not
      in the second; since then, when the second stood at `start`, both granted the same. */
  ghost predicate Apart(o: map<string, int>, n: map<string, int>, base: int, start: map<string, int>, bound: int,
                        w: string) {
    && TickOf(o, w) == At(base + 1) && TickOf(n, w) == TickOf(start, w)
    && Bounded(start, bound) && OthersRankAlike(o, n, w)
    && forall v: string :: v != w ==> Idle(o, n, base, start, v) || Granted(o, n, base, bound, v)
  }

  predicate Idle(o: map<string, int>, n: map<string, int>, base: int, start: map<string, int>, v: string) {
    NoLaterThan(TickOf(o, v), base) && TickOf(n, v) == TickOf(start, v)
  }

  predicate Granted(o: map<string, int>, n: map<string, int>, base: int, bound: int, v: string) {
    v in o && v in n && o[v] > base + 1 && n[v] > bound
  }

  lemma ApartAfterGrant(o: map<string, int>, n: map<string, int>, base: int, start: map<string, int>, bound: int,
                        w: string, oNow: int, nNow: int, v: string)
    requires Apart(o, n, base, start, bound, w) && v != w
    requires oNow > base && nNow >= bound && Bounded(o, oNow) && Bounded(n, nNow)
    ensures Apart(o[v := oNow + 1], n[v := nNow + 1], base, start, bound, w)
  {
    var o', n' := o[v := oNow + 1], n[v := nNow + 1];
    GrantKeepsRanks(o, n, w, oNow, nNow, v);
    forall u: string {:trigger Idle(o', n', base, start, u)} | u != w
      ensures Idle(o', n', base, start, u) || Granted(o', n', base, bound, u)
    {
      assert Idle(o, n, base, start, u) || Granted(o, n, base, bound, u);
    }
  }

  /** w's next job comes up in the first table only when everybody else waiting has had a
      turn since: in the second it is next as well. */
  lemma NextInBoth(o: map<string, int>, n: map<string, int>, base: int, start: map<string, int>, bound: int,
                   waiting: set<Entry>, head: Entry)
    requires Apart(o, n, base, start, bound, head.workspaceId) && IsNext(head, waiting, o)
    ensures IsNext(head, waiting, n)
  {
    var w := head.workspaceId;
    forall f | f in waiting && f != head ensures Precedes(head, f, n) {
      assert Precedes(head, f, o);
      assert f.workspaceId != w ==> Idle(o, n, base, start, f.workspaceId) || Granted(o, n, base, bound, f.workspaceId);
    }
  }

  /** Another workspace granted while w waits has had no turn since, and its job is next in
      the second table exactly when it precedes w's first. */
  lemma StaysNext(o: map<string, int>, n: map<string, int>, base: int, start: map<string, int>, bound: int,
                  waiting: set<Entry>, head: Entry, first: Entry)
    requires Apart(o, n, base, start, bound, first.workspaceId) && IsNext(head, waiting, o)
    requires first in waiting && head.workspaceId != first.workspaceId
    requires forall f :: f in waiting && f.workspaceId == first.workspaceId ==> first.sequence <= f.sequence
    ensures IsNext(head, waiting, n) <==> Precedes(head, first, start)
  {
    var v, w := head.workspaceId, first.workspaceId;
    assert Precedes(head, first, o);
    assert Idle(o, n, base, start, v) || Granted(o, n, base, bound, v);
    assert Precedes(head, first, n) <==> Precedes(head, first, start);
    forall f | f in waiting && f != head && Precedes(head, first, n) ensures Precedes(head, f, n) {
      assert Precedes(head, f, o);
      if f.workspaceId != w { assert RankAlike(o, n, v, f.workspaceId); }
    }
  }

  lemma FirstIsEarliest(waiting: set<Entry>, ticks: map<string, int>, now: int, order: seq<Entry>, w: string)
    requires Grants(waiting, ticks, now, order)
    ensures FirstOf(order, w) < |order| ==>
              var first := order[FirstOf(order, w)];
              first in waiting && forall f :: f in waiting && f.workspaceId == w ==> first.sequence <= f.sequence
    ensures FirstOf(order, w) == |order| ==> forall f :: f in waiting ==> f.workspaceId != w
  {
    var m := FirstOf(order, w);
    GrantsEveryoneOnce(waiting, ticks, now, order);
    forall f | f in waiting && f.workspaceId == w ensures m < |order| && order[m].sequence <= f.sequence {
      var j :| 0 <= j < |order| && order[j] == f;
      if m < j { FirstInFirstOut(waiting, ticks, now, order, m, j); }
    }
  }

  /** The order of the first table is the second's as well exactly when everybody granted
      ahead of w's next job precedes it as the second stood when the two parted. */
  lemma {:induction false} SameOrderExactly(waiting: set<Entry>, o: map<string, int>, oNow: int, n: map<string, int>,
                                            nNow: int, base: int, start: map<string, int>, bound: int, w: string,
                                            order: seq<Entry>)
    requires Grants(waiting, o, oNow, order)
    requires Bounded(o, oNow) && Bounded(n, nNow) && oNow > base && nNow >= bound
    requires Apart(o, n, base, start, bound, w)
    ensures Grants(waiting, n, nNow, order) <==> AllPrecede(order, w, start)
    decreases |order|
  {
    FirstIsEarliest(waiting, o, oNow, order, w);
    if FirstOf(order, w) == |order| {
      AlikeWithout(o, n, w, waiting);
      AlikeOrder(waiting, o, oNow, n, nNow, order);
    } else {
      var v, rest := order[0].workspaceId, waiting - {order[0]};
      if v == w {
        NextInBoth(o, n, base, start, bound, waiting, order[0]);
        AlikeOnceLevel(o, n, w, oNow, nNow, rest);
        AlikeOrder(rest, o[w := oNow + 1], oNow + 1, n[w := nNow + 1], nNow + 1, order[1..]);
      } else {
        StaysNext(o, n, base, start, bound, waiting, order[0], order[FirstOf(order, w)]);
        ApartAfterGrant(o, n, base, start, bound, w, oNow, nNow, v);
        SameOrderExactly(rest, o[v := oNow + 1], oNow + 1, n[v := nNow + 1], nNow + 1,
                         base, start, bound, w, order[1..]);
      }
    }
  }

  /** The job whose turn it is gets none, or was granted earlier than its turn: the second
      table is the queue without that turn. The rest of the order holds exactly when all
      granted before the next job of its workspace precede that one. */
  lemma TurnSkipped(left: set<Entry>, o: map<string, int>, oNow: int, n: map<string, int>, nNow: int, w: string,
                    rest: seq<Entry>)
    requires Grants(left, o[w := oNow + 1], oNow + 1, rest)
    requires OthersRankAlike(o, n, w) && Bounded(o, oNow) && Bounded(n, nNow)
    ensures Grants(left, n, nNow, rest) <==> AllPrecede(rest, w, n)
  {
    var granted := o[w := oNow + 1];
    forall u: string, v: string | u != w && v != w ensures RankAlike(granted, n, u, v) {
      assert RankAlike(o, n, u, v);
    }
    forall v: string {:trigger Idle(granted, n, oNow, n, v)} | v != w ensures Idle(granted, n, oNow, n, v) {}
    SameOrderExactly(left, granted, oNow + 1, n, nNow, oNow, n, nNow, w, rest);
  }

  // -------------------------------------------------------------- cancelling

  lemma {:induction false} WithoutHolds(waiting: set<Entry>, ticks: map<string, int>, now: int, order: seq<Entry>,
                                        gone: Entry)
    requires Grants(waiting, ticks, now, order) && Bounded(ticks, now)
    requires gone in waiting
    ensures Grants(waiting - {gone}, ticks, now, Without(order, gone)) <==> MovesUp(order, gone, ticks, now)
    decreases |order|
  {
    if order[0] == gone {
      TurnSkipped(waiting - {gone}, ticks, now, ticks, now, gone.workspaceId, order[1..]);
    } else {
      var ticks' := ticks[order[0].workspaceId := now + 1];
      WithoutHolds(waiting - {order[0]}, ticks', now + 1, order[1..], gone);
      WithoutCons(waiting, order, gone);
    }
  }

  lemma WithoutCons(waiting: set<Entry>, order: seq<Entry>, gone: Entry)
    requires order != [] && order[0] != gone
    ensures Without(order, gone) != [] && Without(order, gone)[0] == order[0]
    ensures Without(order, gone)[1..] == Without(order[1..], gone)
    ensures waiting - {order[0]} - {gone} == waiting - {gone} - {order[0]}
  {
  }

  /** Cancelling a job moves everybody behind it up one place, and nobody else, exactly when
      all who are granted between it and the next job of its workspace precede that job at
      the moment its own turn comes. */
  lemma CancelMovesUpExactly(waiting: set<Entry>, ticks: map<string, int>, now: int, order: seq<Entry>, gone: Entry,
                             recomputed: seq<Entry>)
    requires Grants(waiting, ticks, now, order) && Bounded(ticks, now)
    requires gone in waiting
    requires Grants(waiting - {gone}, ticks, now, recomputed)
    ensures recomputed == Without(order, gone) <==> MovesUp(order, gone, ticks, now)
  {
    WithoutHolds(waiting, ticks, now, order, gone);
    if MovesUp(order, gone, ticks, now) {
      OrderUnique(waiting - {gone}, ticks, now, recomputed, Without(order, gone));
    }
  }

  /** So it does whenever the cancelled job is the last its workspace has waiting. */
  lemma {:induction false} CancelLastMovesUp(waiting: set<Entry>, ticks: map<string, int>, now: int, order: seq<Entry>,
                                             gone: Entry)
    requires Grants(waiting, ticks, now, order)
    requires forall f :: f in waiting && f != gone && f.workspaceId == gone.workspaceId ==> f.sequence < gone.sequence
    ensures MovesUp(order, gone, ticks, now)
    decreases |order|
  {
    if order != [] {
      var ticks' := ticks[order[0].workspaceId := now + 1];
      var left := waiting - {order[0]};
      if order[0] == gone {
        forall f | f in left ensures f.workspaceId != gone.workspaceId {
          assert Precedes(gone, f, ticks);
        }
        FirstIsEarliest(left, ticks', now + 1, order[1..], gone.workspaceId);
      } else {
        CancelLastMovesUp(left, ticks', now + 1, order[1..], gone);
      }
    }
  }

  // --------------------------------------------------------- starting at once

  predicate GrantedSince(base: int, ticks: map<string, int>, w: string) { w in ticks && ticks[w] > base }

  /** When a job is granted out of turn its workspace takes the newest tick at once. Read
      along the order, with `base` the newest tick before: if the job is the first of its
      workspace, nobody granted between its turn and its workspace's next may have had one
      since `base`; if another comes first, at that one's turn everybody else still waiting
      must have had one, and then the rest must move up as for a cancel. */
  ghost predicate StartMovesUp(order: seq<Entry>, started: Entry, ticks: map<string, int>, now: int, base: int)
    decreases |order|
  {
    order != [] ==>
      var w, rest, ticks' := started.workspaceId, order[1..], ticks[order[0].workspaceId := now + 1];
      if order[0].workspaceId != w then StartMovesUp(rest, started, ticks', now + 1, base)
      else if order[0] == started then
        FirstOf(rest, w) < |rest| ==>
          forall k :: 0 <= k < FirstOf(rest, w) ==> !GrantedSince(base, ticks, rest[k].workspaceId)
      else
        && (forall k :: 0 <= k < |rest| ==> rest[k].workspaceId == w || GrantedSince(base, ticks, rest[k].workspaceId))
        && MovesUp(rest, started, ticks', now + 1)
  }

  /** The queue as it was, and as it is with w's tick taken at `base`: one clock behind the
      other, and everybody else granted alike since. */
  ghost predicate Ahead(o: map<string, int>, n: map<string, int>, base: int, w: string) {
    && NoLaterThan(TickOf(o, w), base) && TickOf(n, w) == At(base + 1)
    && OthersRankAlike(o, n, w)
    && forall v: string :: v != w ==> SinceAlike(o, n, base, v)
  }

  predicate SinceAlike(o: map<string, int>, n: map<string, int>, base: int, v: string) {
    if GrantedSince(base, o, v) then v in n && n[v] > base + 1 else NoLaterThan(TickOf(n, v), base)
  }

  lemma AheadAfterGrant(o: map<string, int>, n: map<string, int>, base: int, w: string, oNow: int, nNow: int, v: string)
    requires Ahead(o, n, base, w) && v != w
    requires oNow >= base && nNow > base && Bounded(o, oNow) && Bounded(n, nNow)
    ensures Ahead(o[v := oNow + 1], n[v := nNow + 1], base, w)
  {
    var o', n' := o[v := oNow + 1], n[v := nNow + 1];
    GrantKeepsRanks(o, n, w, oNow, nNow, v);
    forall u: string | u != w ensures SinceAlike(o', n', base, u) {
      assert SinceAlike(o, n, base, u);
    }
  }

  /** Ahead of w's first job nothing changes. */
  lemma StillNext(o: map<string, int>, n: map<string, int>, base: int, waiting: set<Entry>, head: Entry, started: Entry)
    requires Ahead(o, n, base, started.workspaceId) && IsNext(head, waiting, o)
    requires started in waiting && head.workspaceId != started.workspaceId
    ensures IsNext(head, waiting - {started}, n)
  {
    var v, w := head.workspaceId, started.workspaceId;
    assert Precedes(head, started, o);
    assert SinceAlike(o, n, base, v);
    forall f | f in waiting - {started} && f != head ensures Precedes(head, f, n) {
      assert Precedes(head, f, o);
      if f.workspaceId != w { assert RankAlike(o, n, v, f.workspaceId); }
    }
  }

  /** Another job of w, whose turn it was, keeps it exactly when everybody else waiting has
      had one since. */
  lemma SiblingNext(o: map<string, int>, n: map<string, int>, base: int, waiting: set<Entry>, head: Entry,
                    started: Entry)
    requires Ahead(o, n, base, head.workspaceId) && IsNext(head, waiting, o)
    requires head != started
    requires head.workspaceId == started.workspaceId
    ensures IsNext(head, waiting - {started}, n) <==>
              forall f :: f in waiting && f != head ==>
                f.workspaceId == head.workspaceId || GrantedSince(base, o, f.workspaceId)
  {
    var w := head.workspaceId;
    forall f | f in waiting && f != head
      ensures f != started ==>
        (Precedes(head, f, n) <==> f.workspaceId == w || GrantedSince(base, o, f.workspaceId))
    {
      assert Precedes(head, f, o);
      if f.workspaceId != w { assert SinceAlike(o, n, base, f.workspaceId); }
    }
  }

  lemma EverybodyBehind(waiting: set<Entry>, ticks: map<string, int>, now: int, order: seq<Entry>, base: int)
    requires Grants(waiting, ticks, now, order) && order != []
    ensures (forall f :: f in waiting && f != order[0] ==>
               f.workspaceId == order[0].workspaceId || GrantedSince(base, ticks, f.workspaceId))
       <==> (forall k :: 0 <= k < |order[1..]| ==>
               || order[1..][k].workspaceId == order[0].workspaceId
               || GrantedSince(base, ticks, order[1..][k].workspaceId))
  {
    var ticks' := ticks[order[0].workspaceId := now + 1];
    GrantsEveryoneOnce(waiting - {order[0]}, ticks', now + 1, order[1..]);
    forall f | f in waiting && f != order[0] ensures exists k :: 0 <= k < |order[1..]| && order[1..][k] == f {
      assert f in order[1..];
    }
    forall k | 0 <= k < |order[1..]| ensures order[1..][k] in waiting && order[1..][k] != order[0] {
      assert order[1..][k] in order[1..];
    }
  }

  /** Between the started job's turn and the next of its workspace: those precede it who
      have had no turn since. */
  lemma IdlePrecede(o: map<string, int>, n: map<string, int>, base: int, w: string, rest: seq<Entry>)
    requires Ahead(o, n, base, w)
    ensures AllPrecede(rest, w, n)
       <==> (FirstOf(rest, w) < |rest| ==>
               forall k :: 0 <= k < FirstOf(rest, w) ==> !GrantedSince(base, o, rest[k].workspaceId))
  {
    var m := FirstOf(rest, w);
    if m < |rest| {
      forall k | 0 <= k < m
        ensures Precedes(rest[k], rest[m], n) <==> !GrantedSince(base, o, rest[k].workspaceId)
      {
        assert SinceAlike(o, n, base, rest[k].workspaceId);
      }
    }
  }

  lemma SiblingTurn(waiting: set<Entry>, o: map<string, int>, oNow: int, n: map<string, int>, nNow: int, base: int,
                    order: seq<Entry>, started: Entry)
    requires Grants(waiting, o, oNow, order) && started in waiting
    requires Ahead(o, n, base, started.workspaceId) && Bounded(o, oNow) && Bounded(n, nNow)
    requires order != [] && order[0] != started && order[0].workspaceId == started.workspaceId
    ensures Grants(waiting - {started}, n, nNow, Without(order, started))
       <==> StartMovesUp(order, started, o, oNow, base)
  {
    var w, rest := started.workspaceId, waiting - {order[0]};
    var o', n' := o[w := oNow + 1], n[w := nNow + 1];
    WithoutCons(waiting, order, started);
    SiblingNext(o, n, base, waiting, order[0], started);
    EverybodyBehind(waiting, o, oNow, order, base);
    WithoutHolds(rest, o', oNow + 1, order[1..], started);
    AlikeOnceLevel(o, n, w, oNow, nNow, rest - {started});
    var tail := Without(order[1..], started);
    if Grants(rest - {started}, o', oNow + 1, tail) {
      AlikeOrder(rest - {started}, o', oNow + 1, n', nNow + 1, tail);
    }
    if Grants(rest - {started}, n', nNow + 1, tail) {
      AlikeOrder(rest - {started}, n', nNow + 1, o', oNow + 1, tail);
    }
  }

  lemma {:induction false} StartHolds(waiting: set<Entry>, o: map<string, int>, oNow: int, n: map<string, int>,
                                      nNow: int, base: int,
                                      order: seq<Entry>, started: Entry)
    requires Grants(waiting, o, oNow, order) && started in waiting
    requires Ahead(o, n, base, started.workspaceId) && Bounded(o, oNow) && Bounded(n, nNow)
    requires oNow >= base && nNow > base
    ensures Grants(waiting - {started}, n, nNow, Without(order, started))
       <==> StartMovesUp(order, started, o, oNow, base)
    decreases |order|
  {
    var w, v := started.workspaceId, order[0].workspaceId;
    if order[0] == started {
      TurnSkipped(waiting - {started}, o, oNow, n, nNow, w, order[1..]);
      IdlePrecede(o, n, base, w, order[1..]);
    } else if v == w {
      SiblingTurn(waiting, o, oNow, n, nNow, base, order, started);
    } else {
      StillNext(o, n, base, waiting, order[0], started);
      AheadAfterGrant(o, n, base, w, oNow, nNow, v);
      StartHolds(waiting - {order[0]}, o[v := oNow + 1], oNow + 1, n[v := nNow + 1], nNow + 1, base,
                 order[1..], started);
      WithoutCons(waiting, order, started);
    }
  }

  /** Starting a queued job at once, as the service does for the user, leaves the others in
      their order exactly when the condition read along it holds. */
  lemma StartMovesUpExactly(waiting: set<Entry>, ticks: map<string, int>, now: int, order: seq<Entry>, started: Entry,
                            recomputed: seq<Entry>)
    requires Grants(waiting, ticks, now, order) && Bounded(ticks, now)
    requires started in waiting
    requires Grants(waiting - {started}, ticks[started.workspaceId := now + 1], now + 1, recomputed)
    ensures recomputed == Without(order, started) <==> StartMovesUp(order, started, ticks, now, now)
  {
    var w := started.workspaceId;
    var after := ticks[w := now + 1];
    forall v: string | v != w ensures SinceAlike(ticks, after, now, v) {}
    StartHolds(waiting, ticks, now, after, now + 1, now, order, started);
    if StartMovesUp(order, started, ticks, now, now) {
      OrderUnique(waiting - {started}, after, now + 1, recomputed, Without(order, started));
    }
  }

  /** It need not: with jobs a1, a2 of one workspace and b1 of another, none ever served,
      b1 stands second; once a1 is cancelled a2 overtakes b1, which stays second. */
  lemma CancelCanOvertake()
    ensures
      var a1, a2, b1 := Entry("a1", 1, "A"), Entry("a2", 2, "A"), Entry("b1", 3, "B");
      && Grants({a1, a2, b1}, map[], 0, [a1, b1, a2])
      && Grants({a2, b1}, map[], 0, [a2, b1])
  {
    var a1, a2, b1 := Entry("a1", 1, "A"), Entry("a2", 2, "A"), Entry("b1", 3, "B");
    var after := map["A" := 1];
    assert {a1, a2, b1} - {a1} == {a2, b1} && {a2, b1} - {b1} == {a2} && {a2, b1} - {a2} == {b1};
    assert [a1, b1, a2][1..] == [b1, a2] && [b1, a2][1..] == [a2] && [a2, b1][1..] == [b1];
    assert "A" != "B";
    assert Grants({a2}, after["B" := 2], 2, [a2]);
    assert Grants({a2, b1}, after, 1, [b1, a2]);
    assert Grants({b1}, after, 1, [b1]);
  }

  /** Nor need starting one: in the same line, once a2 is started a1 falls behind b1. */
  lemma StartCanHoldBack()
    ensures
      var a1, a2, b1 := Entry("a1", 1, "A"), Entry("a2", 2, "A"), Entry("b1", 3, "B");
      && Grants({a1, a2, b1}, map[], 0, [a1, b1, a2])
      && Grants({a1, b1}, map["A" := 1], 1, [b1, a1])
  {
    var a1, a2, b1 := Entry("a1", 1, "A"), Entry("a2", 2, "A"), Entry("b1", 3, "B");
    CancelCanOvertake();
    assert {a1, b1} - {b1} == {a1} && [b1, a1][1..] == [a1];
    assert "A" != "B";
    assert Grants({a1}, map["A" := 1, "B" := 2], 2, [a1]);
  }
}
