/** Arriving mid-session: seeding the projection from a snapshot's visible calls, against
    the full replay (`src/shared/agent-activity.ts`). */
module ActivitySnapshot {
  import opened AgentActivity

  /** The seeded projection shows the same calls; the finished ones it may not know. */
  ghost predicate Shadows(full: State, seeded: State) {
    && Inv(full)
    && seeded.currentTools == full.currentTools
    && seeded.resolved <= full.resolved
  }

  /** The finished calls the seeded side does not know about. */
  ghost function Stale(full: State, seeded: State): set<string> {
    full.resolved - seeded.resolved
  }

  /** The ids an event may start or update: the calls of an ending message are never
      read, and a call beside its own result in one message is already tombstoned. */
  ghost function Called(e: Envelope): set<string> {
    if !e.Message? then {}
    else (set id | id in Starts(OpsOf(e.payload))) - Results(OpsOf(e.payload))
  }

  ghost function Started(ops: seq<Op>): set<string> {
    set id | id in Starts(ops)
  }

  /** The seeded side still shadows, and learns no later what it did not know. */
  ghost predicate StaysShadowed(full: State, seeded: State, f: Result<State>, s: Result<State>) {
    && (f.Ok? <==> s.Ok?)
    && (f.Ok? ==> Shadows(f.value, s.value) && Stale(f.value, s.value) <= Stale(full, seeded))
  }

  lemma {:induction false} WithoutNothing(tools: seq<Tool>, id: string)
    requires forall t :: t in tools ==> t.id != id
    ensures WithoutTool(tools, id) == tools
  {
    if tools != [] {
      assert tools[0] in tools;
      WithoutNothing(tools[1..], id);
    }
  }

  lemma OpShadow(full: State, seeded: State, op: Op)
    requires Shadows(full, seeded)
    requires op.Upsert? ==> op.call.id !in Stale(full, seeded)
    ensures StaysShadowed(full, seeded, Apply(full, op), Apply(seeded, op))
  {
    ApplyKeepsInv(full, op);
    if op.Resolve? && op.target in Stale(full, seeded) {
      assert forall t :: t in full.currentTools ==> t.id != op.target;
      WithoutNothing(seeded.currentTools, op.target);
    }
  }

  lemma {:induction false} OpsShadow(full: State, seeded: State, ops: seq<Op>)
    requires Shadows(full, seeded)
    requires Started(ops) !! Stale(full, seeded)
    ensures StaysShadowed(full, seeded, ApplyAll(full, ops), ApplyAll(seeded, ops))
  {
    if ops != [] {
      var front, op := ops[..|ops| - 1], ops[|ops| - 1];
      assert Started(front) <= Started(ops);
      OpsShadow(full, seeded, front);
      if ApplyAll(full, front).Ok? {
        assert op.Upsert? ==> Starts(ops)[|Starts(ops)| - 1] == op.call.id;
        OpShadow(ApplyAll(full, front).value, ApplyAll(seeded, front).value, op);
      }
    }
  }

  lemma {:induction false} PartCallsResolveNothing(parts: seq<Part>)
    ensures Results(PartCalls(parts)) == {}
  {
    if parts != [] {
      var front, last := parts[..|parts| - 1], parts[|parts| - 1];
      PartCallsResolveNothing(front);
      if last.CallPart? {
        assert (PartCalls(front) + [Upsert(last.call, Absent)])[..|PartCalls(front)|] == PartCalls(front);
      } else {
        assert PartCalls(front) + [] == PartCalls(front);
      }
    }
  }

  lemma {:induction false} OpsAppend(a: seq<Op>, b: seq<Op>)
    ensures Starts(a + b) == Starts(a) + Starts(b)
    ensures Results(a + b) == Results(a) + Results(b)
  {
    if b == [] {
      assert a + b == a;
    } else {
      OpsAppend(a, b[..|b| - 1]);
      assert (a + b)[..|a + b| - 1] == a + b[..|b| - 1];
    }
  }

  /** Results first, then calls: a stale id resolved in the message is no longer stale
      when its call is read. */
  lemma TwoPhaseShadow(full: State, seeded: State, results: seq<Op>, calls: seq<Op>)
    requires Shadows(full, seeded)
    requires Starts(results) == []
    requires (Started(calls) - Results(results)) !! Stale(full, seeded)
    ensures StaysShadowed(full, seeded, ApplyAll(full, results + calls), ApplyAll(seeded, results + calls))
  {
    ApplyAllAppend(full, results, calls);
    ApplyAllAppend(seeded, results, calls);
    OpsShadow(full, seeded, results);
    if ApplyAll(full, results).Ok? {
      var f, s := ApplyAll(full, results).value, ApplyAll(seeded, results).value;
      OpsShownInOrder(full, results);
      OpsShownInOrder(seeded, results);
      assert Stale(f, s) <= Stale(full, seeded) - Results(results);
      OpsShadow(f, s, calls);
    }
  }

  lemma PayloadShadow(full: State, seeded: State, payload: Payload)
    requires Shadows(full, seeded)
    requires Called(Message(payload)) !! Stale(full, seeded)
    ensures StaysShadowed(full, seeded, ApplyAll(full, OpsOf(payload)), ApplyAll(seeded, OpsOf(payload)))
  {
    if payload.AssistantMessage? {
      var results := PartResults(payload.parts);
      var calls := if payload.endsResponse then [] else PartCalls(payload.parts);
      PartResultsStartNothing(payload.parts);
      PartCallsResolveNothing(payload.parts);
      OpsAppend(results, calls);
      assert [] + Starts(calls) == Starts(calls);
      TwoPhaseShadow(full, seeded, results, calls);
    } else {
      assert payload.ToolResult? ==> Starts([Resolve(payload.id)]) == [];
      if payload.ToolCall? || payload.ToolUpdate? {
        assert Results(OpsOf(payload)) == {} by { assert OpsOf(payload)[..0] == []; }
      }
      OpsShadow(full, seeded, OpsOf(payload));
    }
  }

  /** A call the full side has tombstoned and the seeded side has not shows at once. */
  lemma StaleCallShows(full: State, seeded: State, ops: seq<Op>, id: string)
    requires Shadows(full, seeded)
    requires id in Started(ops) - Results(ops) && id in Stale(full, seeded)
    requires ApplyAll(full, ops).Ok? && ApplyAll(seeded, ops).Ok?
    ensures id in IdSet(ApplyAll(seeded, ops).value.currentTools)
    ensures id !in IdSet(ApplyAll(full, ops).value.currentTools)
  {
    OpsVisible(full, ops);
    OpsVisible(seeded, ops);
  }

  /** One event, on both sides: they agree afterwards exactly when it calls no stale id,
      and then the seeded side goes on shadowing. */
  lemma StepShadow(full: State, seeded: State, e: Envelope)
    requires Shadows(full, seeded)
    ensures Called(e) !! Stale(full, seeded) ==> StaysShadowed(full, seeded, Reduce(full, e), Reduce(seeded, e))
    ensures Reduce(full, e).Ok? && !(Called(e) !! Stale(full, seeded)) ==>
      Reduce(seeded, e).TypeError? || Reduce(seeded, e).value.currentTools != Reduce(full, e).value.currentTools
  {
    if e.Message? {
      MessageIsItsOps(full, e.payload);
      MessageIsItsOps(seeded, e.payload);
      var ops := OpsOf(e.payload);
      if e.payload.AssistantMessage? {
        PartResultsStartNothing(e.payload.parts);
        assert PartResults(e.payload.parts) + [] == PartResults(e.payload.parts);
      }
      if Called(e) !! Stale(full, seeded) {
        PayloadShadow(full, seeded, e.payload);
        if ApplyAll(full, ops).Ok? {
        }
      } else {
        var id :| id in Called(e) && id in Stale(full, seeded);
        if ApplyAll(full, ops).Ok? && ApplyAll(seeded, ops).Ok? {
          StaleCallShows(full, seeded, ops, id);
        }
      }
    } else {
    }
  }

  /** Both sides show the same calls now and after every further event. */
  ghost predicate SameAlong(full: State, seeded: State, es: seq<Envelope>)
    decreases |es|
  {
    && full.currentTools == seeded.currentTools
    && (es != [] && Reduce(full, es[0]).Ok? ==>
          && Reduce(seeded, es[0]).Ok?
          && SameAlong(Reduce(full, es[0]).value, Reduce(seeded, es[0]).value, es[1..]))
  }

  /** No event calls an id that is tombstoned on the full side only. */
  ghost predicate NoStaleCall(full: State, seeded: State, es: seq<Envelope>)
    decreases |es|
  {
    es != [] && Reduce(full, es[0]).Ok? ==>
      && Called(es[0]) !! Stale(full, seeded)
      && (Reduce(seeded, es[0]).Ok? ==>
            NoStaleCall(Reduce(full, es[0]).value, Reduce(seeded, es[0]).value, es[1..]))
  }

  /** A shadowing projection stays indistinguishable exactly as long as no event calls
      an id it does not know to be finished. */
  lemma {:induction false} SeededExactly(full: State, seeded: State, es: seq<Envelope>)
    requires Shadows(full, seeded)
    ensures SameAlong(full, seeded, es) <==> NoStaleCall(full, seeded, es)
    decreases |es|
  {
    if es != [] && Reduce(full, es[0]).Ok? {
      StepShadow(full, seeded, es[0]);
      if Called(es[0]) !! Stale(full, seeded) {
        SeededExactly(Reduce(full, es[0]).value, Reduce(seeded, es[0]).value, es[1..]);
      }
    }
  }

  ghost predicate CallsNone(es: seq<Envelope>, ids: set<string>) {
    forall e :: e in es ==> Called(e) !! ids
  }

  lemma {:induction false} NeverStale(full: State, seeded: State, es: seq<Envelope>, ids: set<string>)
    requires Shadows(full, seeded)
    requires Stale(full, seeded) <= ids && CallsNone(es, ids)
    ensures NoStaleCall(full, seeded, es)
    decreases |es|
  {
    if es != [] && Reduce(full, es[0]).Ok? {
      assert es[0] in es;
      StepShadow(full, seeded, es[0]);
      NeverStale(Reduce(full, es[0]).value, Reduce(seeded, es[0]).value, es[1..], ids);
    }
  }

  /** Seeding from what any history left visible, then folding any suffix, shows the
      same calls after every event as folding the whole history, provided the suffix
      calls nothing the history had finished. Resets on either side included. */
  lemma SnapshotSimulates(history: seq<Envelope>, suffix: seq<Envelope>)
    requires Run(Empty, history).Ok?
    requires CallsNone(suffix, Run(Empty, history).value.resolved)
    ensures
      var full := Run(Empty, history).value;
      SameAlong(full, State(Deduped(full.currentTools), {}), suffix)
  {
    var full := Run(Empty, history).value;
    EveryRun(Empty, history);
    DedupedIdentity(full.currentTools);
    var seeded := State(full.currentTools, {});
    NeverStale(full, seeded, suffix, full.resolved);
    SeededExactly(full, seeded, suffix);
  }
}
