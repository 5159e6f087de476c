/** The subscription registry behind the demo bridge (`demo/demo-bridge.ts`): a map of
    listener sets that unsubscribe closures keep hold of after the map has let go. */
module BroadcastChannels {
  /** A JavaScript `Set`, in insertion order. */
  function Added<L(==)>(s: seq<L>, x: L): seq<L> { if x in s then s else s + [x] }

  function Removed<L(==)>(s: seq<L>, x: L): seq<L> {
    if s == [] then [] else if s[0] == x then Removed(s[1..], x) else [s[0]] + Removed(s[1..], x)
  }

  /** Every set made so far by number, which of them each channel is mapped to, and for each
      subscription made so far the set and listener its unsubscribe closes over. */
  datatype State<L> = State(sets: seq<seq<L>>, current: map<string, nat>, tokens: seq<Token<L>>)
  datatype Token<L> = Token(id: nat, listener: L)

  function Fresh<L>(): State<L> { State([], map[], []) }

  function Subscribed<L(==)>(s: State<L>, channel: string, listener: L): State<L> {
    if channel in s.current && s.current[channel] < |s.sets| then
      var id := s.current[channel];
      s.(sets := s.sets[id := Added(s.sets[id], listener)], tokens := s.tokens + [Token(id, listener)])
    else
      var id := |s.sets|;
      State(s.sets + [[listener]], s.current[channel := id], s.tokens + [Token(id, listener)])
  }

  function Unsubscribed<L(==)>(s: State<L>, token: Token<L>): State<L> {
    if token.id < |s.sets| then s.(sets := s.sets[token.id := Removed(s.sets[token.id], token.listener)]) else s
  }

  function Cleared<L>(s: State<L>): State<L> { s.(current := map[]) }

  function Emitted<L>(s: State<L>, channel: string): seq<L> {
    if channel in s.current && s.current[channel] < |s.sets| then s.sets[s.current[channel]] else []
  }

  // ------------------------------------------------ the registry, in the heap

  class ListenerSet<L(==)> {
    var members: seq<L>

    constructor ()
      ensures members == []
    {
      members := [];
    }

    method Add(x: L)
      modifies this
      ensures members == Added(old(members), x)
    {
      if x !in members { members := members + [x]; }
    }

    method Delete(x: L)
      modifies this
      ensures members == Removed(old(members), x)
    {
      members := Removed(members, x);
    }
  }

  class DemoBroadcastChannels<L(==)> {
    var listeners: map<string, ListenerSet<L>>
    ghost var made: seq<ListenerSet<L>>
    ghost var current: map<string, nat>
    ghost var tokens: seq<Token<L>>

    ghost predicate Valid()
      reads this
    {
      && (forall i, j :: 0 <= i < j < |made| ==> made[i] != made[j])
      && listeners.Keys == current.Keys
      && (forall c :: c in current ==> current[c] < |made| && listeners[c] == made[current[c]])
    }

    ghost function Abstract(): State<L>
      reads this, made
    {
      State(seq(|made|, i requires 0 <= i < |made| reads this, made => made[i].members), current, tokens)
    }

    constructor ()
      ensures Valid() && Abstract() == Fresh() && made == []
    {
      listeners, made, current, tokens := map[], [], map[], [];
    }

    /** Registers the listener; the closure returned holds the set, not the channel. */
    method Subscribe(channel: string, listener: L) returns (registered: ListenerSet<L>)
      requires Valid()
      modifies this, made
      ensures Valid() && old(made) <= made && fresh(set s | s in made && s !in old(made))
      ensures Abstract() == Subscribed(old(Abstract()), channel, listener)
      ensures |tokens| > 0 && tokens[|tokens| - 1].id < |made| && made[tokens[|tokens| - 1].id] == registered
    {
      if channel in listeners {
        registered := listeners[channel];
        Join(registered, channel, listener);
      } else {
        registered := new ListenerSet<L>();
        Open(registered, channel, listener);
      }
    }

    method Join(registered: ListenerSet<L>, channel: string, listener: L)
      requires Valid() && channel in current && made[current[channel]] == registered
      modifies registered, `tokens
      ensures Valid() && Abstract() == Subscribed(old(Abstract()), channel, listener)
      ensures tokens == old(tokens) + [Token(current[channel], listener)]
    {
      ghost var before := Abstract();
      registered.Add(listener);
      tokens := tokens + [Token(current[channel], listener)];
      assert Abstract().sets == before.sets[current[channel] := registered.members];
    }

    method Open(registered: ListenerSet<L>, channel: string, listener: L)
      requires Valid() && channel !in listeners && registered !in made && registered.members == []
      modifies this, registered
      ensures made == old(made) + [registered]
      ensures Valid() && Abstract() == Subscribed(old(Abstract()), channel, listener)
      ensures tokens == old(tokens) + [Token(|old(made)|, listener)]
    {
      ghost var before := Abstract();
      registered.Add(listener);
      current := current[channel := |made|];
      tokens := tokens + [Token(|made|, listener)];
      made := made + [registered];
      listeners := listeners[channel := registered];
      assert registered.members == [listener];
      assert Abstract().sets == before.sets + [[listener]];
    }

    /** What that closure does when it is called, however late. */
    method Unsubscribe(registered: ListenerSet<L>, listener: L, ghost id: nat)
      requires Valid() && id < |made| && made[id] == registered
      modifies registered
      ensures Valid() && Abstract() == Unsubscribed(old(Abstract()), Token(id, listener))
    {
      ghost var before := Abstract();
      registered.Delete(listener);
      assert Abstract().sets == Unsubscribed(before, Token(id, listener)).sets;
    }

    /** The listeners a payload is delivered to, in order. */
    method Emit(channel: string) returns (delivered: seq<L>)
      requires Valid()
      ensures delivered == Emitted(Abstract(), channel)
    {
      delivered := [];
      if channel in listeners { delivered := listeners[channel].members; }
    }

    method Clear()
      requires Valid()
      modifies `listeners, `current
      ensures Valid() && Abstract() == Cleared(old(Abstract()))
    {
      listeners, current := map[], map[];
    }
  }

  // ---------------------------------------------------------------- any run

  /** Unsubscribe(k) calls what the run's k-th subscription returned. */
  datatype Event<L> = Subscribe(channel: string, listener: L) | Unsubscribe(k: nat) | Clear

  function Step<L(==)>(s: State<L>, event: Event<L>): State<L> {
    match event
    case Subscribe(channel, listener) => Subscribed(s, channel, listener)
    case Unsubscribe(k) => if k < |s.tokens| then Unsubscribed(s, s.tokens[k]) else s
    case Clear => Cleared(s)
  }

  function Run<L(==)>(events: seq<Event<L>>): State<L> {
    if events == [] then Fresh() else Step(Run(events[..|events| - 1]), events[|events| - 1])
  }

  // ----------------------------- the registry without a heap: lists and dates

  function Subscriptions<L>(events: seq<Event<L>>): seq<(string, L)> {
    if events == [] then []
    else
      var front, last := events[..|events| - 1], events[|events| - 1];
      if last.Subscribe? then Subscriptions(front) + [(last.channel, last.listener)] else Subscriptions(front)
  }

  /** How many subscriptions were made before the last clear. */
  function Expired<L>(events: seq<Event<L>>): nat {
    if events == [] then 0
    else
      var front, last := events[..|events| - 1], events[|events| - 1];
      if last.Clear? then |Subscriptions(front)| else Expired(front)
  }

  /** Who is listening on a channel: an unsubscribe counts only if nothing was cleared since
      its subscription, and then only on the channel that was made on. */
  function Listening<L(==)>(events: seq<Event<L>>, channel: string): seq<L> {
    if events == [] then []
    else
      var front, last := events[..|events| - 1], events[|events| - 1];
      match last
      case Subscribe(c, l) => if c == channel then Added(Listening(front, channel), l) else Listening(front, channel)
      case Clear => []
      case Unsubscribe(k) =>
        if Expired(front) <= k < |Subscriptions(front)| && Subscriptions(front)[k].0 == channel
        then Removed(Listening(front, channel), Subscriptions(front)[k].1)
        else Listening(front, channel)
  }

  /** The heap told of the run: an unexpired closure holds the set its channel is mapped to,
      an expired one a set no channel is mapped to. */
  ghost predicate Dated<L>(s: State<L>, subscriptions: seq<(string, L)>, expired: nat) {
    && expired <= |subscriptions| == |s.tokens|
    && (forall c :: c in s.current ==> s.current[c] < |s.sets|)
    && (forall c, d :: c in s.current && d in s.current && s.current[c] == s.current[d] ==> c == d)
    && (forall k :: 0 <= k < |s.tokens| ==>
          s.tokens[k].id < |s.sets| && s.tokens[k].listener == subscriptions[k].1)
    && (forall k :: expired <= k < |s.tokens| ==>
          subscriptions[k].0 in s.current && s.current[subscriptions[k].0] == s.tokens[k].id)
    && (forall k, c :: 0 <= k < expired && c in s.current ==> s.current[c] != s.tokens[k].id)
  }

  /** Sharing sets in the heap is not observable: every run delivers what the lists say. */
  lemma {:induction false} HeapRefinesLists<L>(events: seq<Event<L>>, channel: string)
    ensures Emitted(Run(events), channel) == Listening(events, channel)
    ensures Dated(Run(events), Subscriptions(events), Expired(events))
  {
    if events != [] {
      var front, last := events[..|events| - 1], events[|events| - 1];
      HeapRefinesLists(front, channel);
      if last.Subscribe? {
        SubscribeStep(Run(front), Subscriptions(front), Expired(front), last.channel, last.listener, channel);
      }
    }
  }

  lemma SubscribeStep<L>(s: State<L>, subscriptions: seq<(string, L)>, expired: nat, c: string, l: L, channel: string)
    requires Dated(s, subscriptions, expired)
    ensures Dated(Subscribed(s, c, l), subscriptions + [(c, l)], expired)
    ensures Emitted(Subscribed(s, c, l), channel)
         == if c == channel then Added(Emitted(s, channel), l) else Emitted(s, channel)
  {
    if c !in s.current { OpenStep(s, subscriptions, expired, c, l); }
  }

  lemma OpenStep<L>(s: State<L>, subscriptions: seq<(string, L)>, expired: nat, c: string, l: L)
    requires Dated(s, subscriptions, expired) && c !in s.current
    ensures Dated(Subscribed(s, c, l), subscriptions + [(c, l)], expired)
  {
  }

  /** An unsubscribe taken before a clear cannot remove a listener registered after it. */
  lemma StaleUnsubscribeInert<L>(events: seq<Event<L>>, k: nat, channel: string)
    requires k < Expired(events)
    ensures Emitted(Run(events + [Unsubscribe(k)]), channel) == Emitted(Run(events), channel)
  {
    HeapRefinesLists(events, channel);
    HeapRefinesLists(events + [Unsubscribe(k)], channel);
    assert (events + [Unsubscribe(k)])[..|events|] == events;
  }

  lemma {:induction false} InRemoved<L>(s: seq<L>, x: L, y: L)
    ensures y in Removed(s, x) <==> y in s && y != x
  {
    if s != [] {
      InRemoved(s[1..], x, y);
      assert s == [s[0]] + s[1..];
    }
  }

  predicate Distinct<L(==)>(s: seq<L>) { forall i, j :: 0 <= i < j < |s| ==> s[i] != s[j] }

  lemma {:induction false} RemovedDistinct<L>(s: seq<L>, x: L)
    requires Distinct(s)
    ensures Distinct(Removed(s, x))
  {
    if s != [] {
      RemovedDistinct(s[1..], x);
      InRemoved(s[1..], x, s[0]);
      assert s[0] !in s[1..];
    }
  }

  /** Whether a listener is on a channel: the last event that concerned it there was a
      subscription. A clear concerns everybody, an unsubscribe whoever it was taken for, if
      nothing was cleared since it was. */
  ghost predicate OnChannel<L>(events: seq<Event<L>>, channel: string, listener: L) {
    events != [] &&
      var front, last := events[..|events| - 1], events[|events| - 1];
      match last
      case Subscribe(c, l) => (c == channel && l == listener) || OnChannel(front, channel, listener)
      case Clear => false
      case Unsubscribe(k) =>
        && !(Expired(front) <= k < |Subscriptions(front)| && Subscriptions(front)[k] == (channel, listener))
        && OnChannel(front, channel, listener)
  }

  /** A payload reaches exactly the listeners on its channel. */
  lemma {:induction false} ReachesExactly<L>(events: seq<Event<L>>, channel: string, listener: L)
    ensures listener in Emitted(Run(events), channel) <==> OnChannel(events, channel, listener)
  {
    HeapRefinesLists(events, channel);
    if events != [] {
      var front, last := events[..|events| - 1], events[|events| - 1];
      ReachesExactly(front, channel, listener);
      HeapRefinesLists(front, channel);
      if last.Unsubscribe? && last.k < |Subscriptions(front)| {
        InRemoved(Listening(front, channel), Subscriptions(front)[last.k].1, listener);
      }
    }
  }

  /** A newcomer is reached last, and nobody else's turn changes. */
  lemma NewcomerLast<L>(events: seq<Event<L>>, channel: string, listener: L)
    ensures
      var before := Emitted(Run(events), channel);
      Emitted(Run(events + [Subscribe(channel, listener)]), channel)
      == if OnChannel(events, channel, listener) then before else before + [listener]
  {
    ReachesExactly(events, channel, listener);
    HeapRefinesLists(events, channel);
    HeapRefinesLists(events + [Subscribe(channel, listener)], channel);
    assert (events + [Subscribe(channel, listener)])[..|events|] == events;
  }

  /** A payload reaches each listener once, however often it subscribed; and any one of its
      unexpired closures takes it off the channel. */
  lemma {:induction false} DeliveredOnce<L>(events: seq<Event<L>>, channel: string)
    ensures Distinct(Emitted(Run(events), channel))
  {
    HeapRefinesLists(events, channel);
    if events != [] {
      var front, last := events[..|events| - 1], events[|events| - 1];
      DeliveredOnce(front, channel);
      HeapRefinesLists(front, channel);
      if last.Unsubscribe? && last.k < |Subscriptions(front)| {
        RemovedDistinct(Listening(front, channel), Subscriptions(front)[last.k].1);
      }
    }
  }

  lemma OneUnsubscribeIsEnough<L>(events: seq<Event<L>>, k: nat)
    requires Expired(events) <= k < |Subscriptions(events)|
    ensures
      var (channel, listener) := Subscriptions(events)[k];
      listener !in Emitted(Run(events + [Unsubscribe(k)]), channel)
  {
    var (channel, listener) := Subscriptions(events)[k];
    HeapRefinesLists(events + [Unsubscribe(k)], channel);
    assert (events + [Unsubscribe(k)])[..|events|] == events;
    InRemoved(Listening(events, channel), listener, listener);
  }
}
