/** The live tool-call projection of `src/shared/agent-activity.ts`: calls shown while
    they run, and tombstones that keep a finished call from coming back. */
module AgentActivity {

  // -------------------------------------------------------------- the wire

  /** `input` is opaque; a missing one is `undefined`. */
  datatype Input = Undefined | Given(token: int)

  /** Absent (`undefined`), explicitly cleared (`null`), or a presentation. */
  datatype Presentation = Absent | Cleared | Shown(token: int)

  /** An update always brings one, if only `null`. */
  type Replacing = p: Presentation | p != Absent witness Cleared

  datatype Tool = Tool(id: string, name: string, input: Input, presentation: Presentation)

  datatype Call = Call(id: string, name: string, input: Input)

  datatype Part = CallPart(call: Call) | ResultPart(id: string) | ProsePart

  datatype Payload =
    | ToolCall(call: Call)
    | ToolUpdate(call: Call, presentation: Replacing)
    | ToolResult(id: string)
    | AssistantMessage(parts: seq<Part>, endsResponse: bool)
    | OtherPayload

  datatype Status = Idle | Starting | Streaming | Closed | Errored

  datatype Envelope =
    | Error(recoverable: bool)
    | Shutdown
    | StatusChange(status: Status, previous: Status)
    | Message(payload: Payload)
    | OtherEnvelope

  datatype State = State(currentTools: seq<Tool>, resolved: set<string>)

  /** A step's value, or the TypeError the code throws. */
  datatype Result<+T> = Ok(value: T) | TypeError {
    predicate IsFailure() { TypeError? }
    function PropagateFailure<U>(): Result<U>
      requires TypeError?
    {
      TypeError
    }
    function Extract(): T
      requires Ok?
    {
      value
    }
  }

  const Empty := State([], {})

  // ------------------------------------------------------------ the reducer

  function FindIndex(tools: seq<Tool>, id: string): (index: int)
    ensures -1 <= index < |tools|
    ensures index >= 0 ==> tools[index].id == id
    ensures index < 0 ==> id !in Ids(tools)
  {
    if tools == [] then -1
    else if tools[0].id == id then 0
    else
      var index := FindIndex(tools[1..], id);
      if index < 0 then -1 else index + 1
  }

  function Ids(tools: seq<Tool>): (ids: seq<string>)
    ensures |ids| == |tools|
    ensures forall k :: 0 <= k < |ids| ==> ids[k] == tools[k].id
  {
    seq(|tools|, k requires 0 <= k < |tools| => tools[k].id)
  }

  /** What a start or an update makes of the entry it finds. A start keeps the
      presentation an update left; an update replaces it. */
  function Replacement(call: Call, update: Presentation, previous: Presentation): Tool {
    Tool(call.id, call.name, call.input, if update != Absent then update else previous)
  }

  /** `update` is `Absent` for a start. A first start without an input reads a field
      of a missing entry. */
  function UpsertTool(s: State, call: Call, update: Presentation): Result<State> {
    if call.id in s.resolved then Ok(s)
    else
      var index := FindIndex(s.currentTools, call.id);
      if index < 0 then
        if call.input == Undefined then TypeError
        else Ok(s.(currentTools := s.currentTools + [Replacement(call, update, Absent)]))
      else
        var next := Replacement(call, update, s.currentTools[index].presentation);
        if s.currentTools[index] == next then Ok(s)
        else Ok(s.(currentTools := s.currentTools[index := next]))
  }

  function WithoutTool(tools: seq<Tool>, id: string): seq<Tool> {
    if tools == [] then []
    else if tools[0].id == id then WithoutTool(tools[1..], id)
    else [tools[0]] + WithoutTool(tools[1..], id)
  }

  function ResolveTool(s: State, id: string): State {
    if id in s.resolved then s
    else State(WithoutTool(s.currentTools, id), s.resolved + {id})
  }

  function IdSet(tools: seq<Tool>): set<string> {
    set id | id in Ids(tools)
  }

  function SettleCurrentTools(s: State): State {
    if |s.currentTools| == 0 then s
    else State([], s.resolved + IdSet(s.currentTools))
  }

  /** First loop of an assistant message: its results. */
  function ResolveParts(s: State, parts: seq<Part>): State {
    if parts == [] then s
    else
      var last := parts[|parts| - 1];
      var before := ResolveParts(s, parts[..|parts| - 1]);
      if last.ResultPart? then ResolveTool(before, last.id) else before
  }

  /** Second loop of an assistant message: its calls. */
  function CallParts(s: State, parts: seq<Part>): Result<State> {
    if parts == [] then Ok(s)
    else
      var last := parts[|parts| - 1];
      var before :- CallParts(s, parts[..|parts| - 1]);
      if last.CallPart? then UpsertTool(before, last.call, Absent) else Ok(before)
  }

  function ReducePayload(s: State, payload: Payload): Result<State> {
    match payload
    case ToolResult(id) => Ok(ResolveTool(s, id))
    case ToolCall(call) => UpsertTool(s, call, Absent)
    case ToolUpdate(call, presentation) => UpsertTool(s, call, presentation)
    case AssistantMessage(parts, endsResponse) =>
      var next := ResolveParts(s, parts);
      if endsResponse then Ok(SettleCurrentTools(next)) else CallParts(next, parts)
    case OtherPayload => Ok(s)
  }

  function Reduce(s: State, e: Envelope): Result<State> {
    match e
    case Error(recoverable) => Ok(if recoverable then s else SettleCurrentTools(s))
    case Shutdown => Ok(SettleCurrentTools(s))
    case StatusChange(status, previous) =>
      if status == Starting then Ok(Empty)
      else if status == Streaming then
        Ok(if previous != Streaming && |s.currentTools| == 0 && |s.resolved| > 0 then Empty else s)
      else Ok(SettleCurrentTools(s))
    case Message(payload) => ReducePayload(s, payload)
    case OtherEnvelope => Ok(s)
  }

  function Run(s: State, es: seq<Envelope>): Result<State>
    decreases |es|
  {
    if es == [] then Ok(s)
    else
      var next :- Reduce(s, es[0]);
      Run(next, es[1..])
  }

  /** `Map.set` on the id-keyed map: replace in place, or add at the end. */
  function MapSet(tools: seq<Tool>, tool: Tool): seq<Tool> {
    var index := FindIndex(tools, tool.id);
    if index < 0 then tools + [tool] else tools[index := tool]
  }

  function Deduped(tools: seq<Tool>): seq<Tool> {
    if tools == [] then []
    else MapSet(Deduped(tools[..|tools| - 1]), tools[|tools| - 1])
  }

  method CreateAgentActivityState(tools: seq<Tool>) returns (s: State)
    ensures s == State(Deduped(tools), {})
    ensures Ids(s.currentTools) == Firsts(Ids(tools))
    ensures forall tool :: tool in s.currentTools ==> IsLastOf(tools, tool)
  {
    var byId: seq<Tool> := [];
    for k := 0 to |tools|
      invariant byId == Deduped(tools[..k])
    {
      assert tools[..k + 1][..k] == tools[..k];
      byId := MapSet(byId, tools[k]);
    }
    assert tools[..|tools|] == tools;
    SeededInOrder(tools);
    forall tool | tool in byId ensures IsLastOf(tools, tool) { SeededWithLast(tools, tool); }
    s := State(byId, {});
  }

  /** The two loops over an assistant message's parts, results before calls. */
  method ReduceMessagePayload(s: State, payload: Payload) returns (r: Result<State>)
    ensures r == ReducePayload(s, payload)
  {
    match payload
    case ToolResult(id) => r := Ok(ResolveTool(s, id));
    case ToolCall(call) => r := UpsertTool(s, call, Absent);
    case ToolUpdate(call, presentation) => r := UpsertTool(s, call, presentation);
    case OtherPayload => r := Ok(s);
    case AssistantMessage(parts, endsResponse) =>
      var next := s;
      for k := 0 to |parts|
        invariant next == ResolveParts(s, parts[..k])
      {
        assert parts[..k + 1][..k] == parts[..k];
        if parts[k].ResultPart? { next := ResolveTool(next, parts[k].id); }
      }
      assert parts[..|parts|] == parts;
      if endsResponse { return Ok(SettleCurrentTools(next)); }
      r := Ok(next);
      for k := 0 to |parts|
        invariant r == CallParts(next, parts[..k])
      {
        assert parts[..k + 1][..k] == parts[..k];
        if r.Ok? && parts[k].CallPart? { r := UpsertTool(r.value, parts[k].call, Absent); }
      }
  }

  // ------------------------------------------------------- one id at a time

  /** A message as the sequence of single changes it makes. */
  datatype Op = Upsert(call: Call, update: Presentation) | Resolve(target: string)

  function IdOf(op: Op): string {
    match op
    case Upsert(call, _) => call.id
    case Resolve(target) => target
  }

  function Apply(s: State, op: Op): Result<State> {
    match op
    case Upsert(call, update) => UpsertTool(s, call, update)
    case Resolve(target) => Ok(ResolveTool(s, target))
  }

  function ApplyAll(s: State, ops: seq<Op>): Result<State> {
    if ops == [] then Ok(s)
    else
      var before :- ApplyAll(s, ops[..|ops| - 1]);
      Apply(before, ops[|ops| - 1])
  }

  ghost predicate Distinct(tools: seq<Tool>) {
    forall i, j :: 0 <= i < j < |tools| ==> tools[i].id != tools[j].id
  }

  /** Visible ids are unique and disjoint from the tombstones. */
  ghost predicate Inv(s: State) {
    && Distinct(s.currentTools)
    && (forall i :: 0 <= i < |s.currentTools| ==> s.currentTools[i].id !in s.resolved)
  }

  datatype Entry = Free | Live(tool: Tool) | Tombstone

  function EntryOf(s: State, id: string): Entry {
    if id in s.resolved then Tombstone
    else
      var index := FindIndex(s.currentTools, id);
      if index < 0 then Free else Live(s.currentTools[index])
  }

  /** The life of one call, told without any other call. */
  function Advance(entry: Entry, op: Op): Result<Entry> {
    match op
    case Resolve(_) => Ok(Tombstone)
    case Upsert(call, update) =>
      match entry
      case Tombstone => Ok(Tombstone)
      case Live(tool) => Ok(Live(Replacement(call, update, tool.presentation)))
      case Free => if call.input == Undefined then TypeError else Ok(Live(Replacement(call, update, Absent)))
  }

  function Life(entry: Entry, ops: seq<Op>, id: string): Result<Entry> {
    if ops == [] then Ok(entry)
    else
      var before :- Life(entry, ops[..|ops| - 1], id);
      var op := ops[|ops| - 1];
      if IdOf(op) == id then Advance(before, op) else Ok(before)
  }

  lemma {:induction false} WithoutToolKeeps(tools: seq<Tool>, id: string)
    ensures forall t :: t in WithoutTool(tools, id) <==> t in tools && t.id != id
  {
    if tools != [] { WithoutToolKeeps(tools[1..], id); }
  }

  lemma {:induction false} WithoutToolDistinct(tools: seq<Tool>, id: string)
    requires Distinct(tools)
    ensures Distinct(WithoutTool(tools, id))
  {
    if tools != [] {
      var rest := WithoutTool(tools[1..], id);
      WithoutToolDistinct(tools[1..], id);
      WithoutToolKeeps(tools[1..], id);
      if tools[0].id != id {
        DistinctCons(tools, rest);
      }
    }
  }

  lemma DistinctCons(tools: seq<Tool>, rest: seq<Tool>)
    requires tools != [] && Distinct(tools) && Distinct(rest)
    requires forall t :: t in rest ==> t in tools[1..]
    ensures Distinct([tools[0]] + rest)
  {
    var all := [tools[0]] + rest;
    forall i, j | 0 <= i < j < |all| ensures all[i].id != all[j].id {
      assert all[j] == rest[j - 1];
      if i == 0 {
        assert rest[j - 1] in tools[1..];
        var k :| 0 <= k < |tools[1..]| && tools[1..][k] == rest[j - 1];
        assert tools[k + 1] == all[j];
      } else {
        assert all[i] == rest[i - 1];
      }
    }
  }

  lemma ApplyKeepsInv(s: State, op: Op)
    requires Inv(s)
    ensures Apply(s, op).Ok? ==> Inv(Apply(s, op).value)
  {
    if op.Resolve? && op.target !in s.resolved {
      WithoutToolDistinct(s.currentTools, op.target);
      WithoutToolKeeps(s.currentTools, op.target);
      var rest := WithoutTool(s.currentTools, op.target);
      forall i | 0 <= i < |rest| ensures rest[i].id !in s.resolved + {op.target} {
        assert rest[i] in s.currentTools;
      }
    }
    if op.Upsert? && Apply(s, op).Ok? {
    }
  }

  lemma ResolveMembership(s: State, target: string)
    ensures forall t :: t in ResolveTool(s, target).currentTools <==>
      t in s.currentTools && (t.id != target || target in s.resolved)
  {
    WithoutToolKeeps(s.currentTools, target);
  }

  lemma UpsertMembership(s: State, call: Call, update: Presentation)
    requires Inv(s)
    requires UpsertTool(s, call, update).Ok?
    ensures forall t: Tool :: t.id != call.id ==>
      (t in UpsertTool(s, call, update).value.currentTools <==> t in s.currentTools)
  {
    var index := FindIndex(s.currentTools, call.id);
    if call.id !in s.resolved && index >= 0 {
      var next := Replacement(call, update, s.currentTools[index].presentation);
      var tools := s.currentTools[index := next];
      forall t: Tool | t.id != call.id ensures t in tools <==> t in s.currentTools {
        if t in s.currentTools {
          var k :| 0 <= k < |s.currentTools| && s.currentTools[k] == t;
          assert tools[k] == t;
        }
      }
    }
  }

  /** One change moves one entry, as that entry's own life says, and no other. */
  lemma ApplyMovesOneEntry(s: State, op: Op, id: string)
    requires Inv(s)
    ensures Apply(s, op).Ok? <==> Advance(EntryOf(s, IdOf(op)), op).Ok?
    ensures Apply(s, op).Ok? ==>
      EntryOf(Apply(s, op).value, id)
      == if IdOf(op) == id then Advance(EntryOf(s, id), op).value else EntryOf(s, id)
  {
    if Apply(s, op).Ok? {
      var t := Apply(s, op).value;
      ApplyKeepsInv(s, op);
      if op.Resolve? {
        ResolveMembership(s, op.target);
      } else {
        UpsertMembership(s, op.call, op.update);
        UpsertOwnEntry(s, op.call, op.update);
      }
    }
  }

  lemma UpsertOwnEntry(s: State, call: Call, update: Presentation)
    requires Inv(s)
    requires UpsertTool(s, call, update).Ok?
    ensures EntryOf(UpsertTool(s, call, update).value, call.id)
         == Advance(EntryOf(s, call.id), Upsert(call, update)).value
  {
    var t := UpsertTool(s, call, update).value;
    ApplyKeepsInv(s, Upsert(call, update));
    if call.id !in s.resolved {
      var index := FindIndex(s.currentTools, call.id);
      if index < 0 {
        assert t.currentTools[|s.currentTools|] == Replacement(call, update, Absent);
      } else {
        assert t.currentTools[index] == Replacement(call, update, s.currentTools[index].presentation);
      }
    }
  }

  /** Parallel calls do not interfere: after any interleaving of starts, updates and
      results, each id's entry is the one its own changes give, in their own order. */
  lemma {:induction false} Noninterference(s: State, ops: seq<Op>, id: string)
    requires Inv(s)
    ensures ApplyAll(s, ops).Ok? ==>
      && Inv(ApplyAll(s, ops).value)
      && Life(EntryOf(s, id), ops, id) == Ok(EntryOf(ApplyAll(s, ops).value, id))
  {
    if ops != [] && ApplyAll(s, ops).Ok? {
      var front, op := ops[..|ops| - 1], ops[|ops| - 1];
      Noninterference(s, front, id);
      ApplyKeepsInv(ApplyAll(s, front).value, op);
      ApplyMovesOneEntry(ApplyAll(s, front).value, op, id);
    }
  }

  /** The run throws exactly when some id's own life does. */
  lemma {:induction false} ThrowsExactly(s: State, ops: seq<Op>)
    requires Inv(s)
    ensures ApplyAll(s, ops).TypeError? <==> exists id :: Life(EntryOf(s, id), ops, id).TypeError?
  {
    if ops != [] {
      var front, op := ops[..|ops| - 1], ops[|ops| - 1];
      ThrowsExactly(s, front);
      if ApplyAll(s, front).TypeError? {
        var id :| Life(EntryOf(s, id), front, id).TypeError?;
        assert Life(EntryOf(s, id), ops, id).TypeError?;
      } else {
        var before := ApplyAll(s, front).value;
        Noninterference(s, front, IdOf(op));
        ApplyMovesOneEntry(before, op, IdOf(op));
        forall id ensures Life(EntryOf(s, id), ops, id).TypeError?
          <==> id == IdOf(op) && Advance(EntryOf(before, id), op).TypeError?
        {
          Noninterference(s, front, id);
        }
      }
    }
  }

  // -------------------------------------------------- order of appearance

  function Starts(ops: seq<Op>): seq<string> {
    if ops == [] then []
    else
      var op := ops[|ops| - 1];
      Starts(ops[..|ops| - 1]) + if op.Upsert? then [op.call.id] else []
  }

  function Results(ops: seq<Op>): set<string> {
    if ops == [] then {}
    else
      var op := ops[|ops| - 1];
      Results(ops[..|ops| - 1]) + if op.Resolve? then {op.target} else {}
  }

  /** First occurrences, in order. */
  function Firsts(ids: seq<string>): seq<string> {
    if ids == [] then []
    else
      var before, last := Firsts(ids[..|ids| - 1]), ids[|ids| - 1];
      if last in before then before else before + [last]
  }

  function Minus(ids: seq<string>, gone: set<string>): seq<string> {
    if ids == [] then []
    else if ids[0] in gone then Minus(ids[1..], gone)
    else [ids[0]] + Minus(ids[1..], gone)
  }

  lemma {:induction false} MinusAppend(a: seq<string>, b: seq<string>, gone: set<string>)
    ensures Minus(a + b, gone) == Minus(a, gone) + Minus(b, gone)
  {
    if a == [] {
      assert a + b == b;
    } else {
      MinusAppend(a[1..], b, gone);
      assert (a + b)[1..] == a[1..] + b && (a + b)[0] == a[0];
    }
  }

  lemma {:induction false} MinusKeeps(ids: seq<string>, gone: set<string>)
    ensures forall id :: id in Minus(ids, gone) <==> id in ids && id !in gone
  {
    if ids != [] { MinusKeeps(ids[1..], gone); }
  }

  lemma {:induction false} MinusMore(ids: seq<string>, gone: set<string>, id: string)
    ensures Minus(ids, gone + {id}) == Minus(Minus(ids, gone), {id})
  {
    if ids != [] { MinusMore(ids[1..], gone, id); }
  }

  lemma {:induction false} MinusNothing(ids: seq<string>, gone: set<string>)
    requires forall id :: id in ids ==> id !in gone
    ensures Minus(ids, gone) == ids
  {
    if ids != [] {
      assert ids[0] in ids;
      MinusNothing(ids[1..], gone);
    }
  }

  lemma {:induction false} WithoutToolIds(tools: seq<Tool>, id: string)
    ensures Ids(WithoutTool(tools, id)) == Minus(Ids(tools), {id})
  {
    if tools != [] {
      WithoutToolIds(tools[1..], id);
      assert Ids(tools)[1..] == Ids(tools[1..]);
      assert Ids(tools)[0] == tools[0].id;
      if tools[0].id != id {
        assert Ids([tools[0]] + WithoutTool(tools[1..], id)) == [tools[0].id] + Ids(WithoutTool(tools[1..], id));
      }
    }
  }

  lemma {:induction false} FirstsAreAll(ids: seq<string>)
    ensures forall id :: id in Firsts(ids) <==> id in ids
  {
    if ids != [] {
      var front := ids[..|ids| - 1];
      FirstsAreAll(front);
      assert ids == front + [ids[|ids| - 1]];
    }
  }

  lemma {:induction false} FirstsOfUnique(ids: seq<string>)
    requires forall i, j :: 0 <= i < j < |ids| ==> ids[i] != ids[j]
    ensures Firsts(ids) == ids
  {
    if ids != [] {
      var front := ids[..|ids| - 1];
      FirstsOfUnique(front);
      assert ids == front + [ids[|ids| - 1]];
    }
  }

  /** What a run of operations shows: what was ever started, in order of first start,
      minus everything resolved. */
  ghost predicate ShownBy(start: State, ops: seq<Op>, end: State) {
    && end.resolved == start.resolved + Results(ops)
    && Ids(end.currentTools) == Minus(Firsts(Ids(start.currentTools) + Starts(ops)), end.resolved)
  }

  lemma {:induction false} OpsShownInOrder(s: State, ops: seq<Op>)
    requires Inv(s)
    ensures ApplyAll(s, ops).Ok? ==> ShownBy(s, ops, ApplyAll(s, ops).value)
  {
    if ops == [] {
      FirstsOfUnique(Ids(s.currentTools));
      MinusNothing(Ids(s.currentTools), s.resolved);
      assert Ids(s.currentTools) + Starts(ops) == Ids(s.currentTools);
    } else if ApplyAll(s, ops).Ok? {
      var front, op := ops[..|ops| - 1], ops[|ops| - 1];
      OpsShownInOrder(s, front);
      assert ops == front + [op];
      ShownStep(s, front, op, ApplyAll(s, front).value);
    }
  }

  lemma ShownStep(start: State, front: seq<Op>, op: Op, before: State)
    requires ShownBy(start, front, before)
    requires Apply(before, op).Ok?
    ensures ShownBy(start, front + [op], Apply(before, op).value)
  {
    var ids := Ids(start.currentTools);
    assert (front + [op])[..|front|] == front;
    if op.Resolve? {
      assert ids + Starts(front + [op]) == ids + Starts(front);
      ResultStep(before, Firsts(ids + Starts(front)), op.target);
    } else {
      ShownStart(start, front, op, before);
    }
  }

  lemma ShownStart(start: State, front: seq<Op>, op: Op, before: State)
    requires op.Upsert? && ShownBy(start, front, before)
    requires Apply(before, op).Ok?
    ensures Apply(before, op).value.resolved == before.resolved
    ensures Ids(Apply(before, op).value.currentTools)
         == Minus(Firsts(Ids(start.currentTools) + Starts(front + [op])), before.resolved)
  {
    StartStep(Ids(start.currentTools), front, op, before.resolved);
  }

  lemma ResultStep(s: State, started: seq<string>, target: string)
    requires Ids(s.currentTools) == Minus(started, s.resolved)
    ensures
      var end := ResolveTool(s, target);
      && end.resolved == s.resolved + {target}
      && Ids(end.currentTools) == Minus(started, end.resolved)
  {
    if target !in s.resolved {
      WithoutToolIds(s.currentTools, target);
      MinusMore(started, s.resolved, target);
    } else {
      assert s.resolved + {target} == s.resolved;
    }
  }

  lemma StartStep(ids: seq<string>, front: seq<Op>, op: Op, gone: set<string>)
    requires op.Upsert?
    ensures
      var shown := Minus(Firsts(ids + Starts(front)), gone);
      Minus(Firsts(ids + Starts(front + [op])), gone)
      == if op.call.id in gone || op.call.id in shown then shown else shown + [op.call.id]
  {
    var started := ids + Starts(front);
    assert (front + [op])[..|front|] == front;
    assert ids + Starts(front + [op]) == started + [op.call.id];
    assert (started + [op.call.id])[..|started|] == started;
    MinusKeeps(Firsts(started), gone);
    MinusAppend(Firsts(started), [op.call.id], gone);
  }

  lemma OpsVisible(s: State, ops: seq<Op>)
    requires Inv(s)
    requires ApplyAll(s, ops).Ok?
    ensures IdSet(ApplyAll(s, ops).value.currentTools)
         == (IdSet(s.currentTools) + set id | id in Starts(ops)) - (s.resolved + Results(ops))
  {
    OpsShownInOrder(s, ops);
    MinusKeeps(Firsts(Ids(s.currentTools) + Starts(ops)), s.resolved + Results(ops));
    FirstsAreAll(Ids(s.currentTools) + Starts(ops));
  }

  // ------------------------------------------------ what a visible call shows

  predicate StartsOrUpdates(op: Op, id: string) { op.Upsert? && op.call.id == id }

  /** The presentation the latest update of a call brought; a start brings none. */
  function LastUpdate(entry: Entry, ops: seq<Op>, id: string): Presentation {
    if ops == [] then (if entry.Live? then entry.tool.presentation else Absent)
    else
      var last := ops[|ops| - 1];
      if StartsOrUpdates(last, id) && last.update != Absent then last.update
      else LastUpdate(entry, ops[..|ops| - 1], id)
  }

  /** A call as its latest start or update described it, or else as it was. */
  function Latest(entry: Entry, ops: seq<Op>, id: string): Entry {
    if ops == [] then entry
    else
      var last := ops[|ops| - 1];
      if StartsOrUpdates(last, id)
      then Live(Tool(id, last.call.name, last.call.input, LastUpdate(entry, ops, id)))
      else Latest(entry, ops[..|ops| - 1], id)
  }

  lemma {:induction false} LifeIsLatest(entry: Entry, ops: seq<Op>, id: string)
    requires entry != Tombstone
    requires forall k :: 0 <= k < |ops| ==> !(ops[k].Resolve? && ops[k].target == id)
    requires Life(entry, ops, id).Ok?
    ensures Life(entry, ops, id).value == Latest(entry, ops, id) != Tombstone
    ensures LastUpdate(entry, ops, id)
         == if Latest(entry, ops, id).Live? then Latest(entry, ops, id).tool.presentation else Absent
  {
    if ops != [] {
      var front, last := ops[..|ops| - 1], ops[|ops| - 1];
      assert !(last.Resolve? && last.target == id);
      LifeIsLatest(entry, front, id);
    }
  }

  lemma OpsShowLatest(s: State, ops: seq<Op>, id: string)
    requires Inv(s) && id !in s.resolved
    requires forall k :: 0 <= k < |ops| ==> !(ops[k].Resolve? && ops[k].target == id)
    requires ApplyAll(s, ops).Ok?
    ensures EntryOf(ApplyAll(s, ops).value, id) == Latest(EntryOf(s, id), ops, id)
  {
    Noninterference(s, ops, id);
    LifeIsLatest(EntryOf(s, id), ops, id);
  }

  // ------------------------------------------------ messages as operations

  function PartResults(parts: seq<Part>): seq<Op> {
    if parts == [] then []
    else
      var last := parts[|parts| - 1];
      PartResults(parts[..|parts| - 1]) + if last.ResultPart? then [Resolve(last.id)] else []
  }

  function PartCalls(parts: seq<Part>): seq<Op> {
    if parts == [] then []
    else
      var last := parts[|parts| - 1];
      PartCalls(parts[..|parts| - 1]) + if last.CallPart? then [Upsert(last.call, Absent)] else []
  }

  function OpsOf(payload: Payload): seq<Op> {
    match payload
    case ToolCall(call) => [Upsert(call, Absent)]
    case ToolUpdate(call, presentation) => [Upsert(call, presentation)]
    case ToolResult(id) => [Resolve(id)]
    case AssistantMessage(parts, endsResponse) => PartResults(parts) + if endsResponse then [] else PartCalls(parts)
    case OtherPayload => []
  }

  lemma {:induction false} ApplyAllAppend(s: State, a: seq<Op>, b: seq<Op>)
    ensures ApplyAll(s, a + b) ==
      if ApplyAll(s, a).TypeError? then TypeError else ApplyAll(ApplyAll(s, a).value, b)
  {
    if b == [] {
      assert a + b == a;
    } else {
      ApplyAllAppend(s, a, b[..|b| - 1]);
      assert (a + b)[..|a + b| - 1] == a + b[..|b| - 1];
    }
  }

  lemma {:induction false} ResolvePartsAsOps(s: State, parts: seq<Part>)
    ensures ApplyAll(s, PartResults(parts)) == Ok(ResolveParts(s, parts))
  {
    if parts != [] {
      var front, last := parts[..|parts| - 1], parts[|parts| - 1];
      ResolvePartsAsOps(s, front);
      if last.ResultPart? {
        ApplyAllAppend(s, PartResults(front), [Resolve(last.id)]);
      } else {
        assert PartResults(front) + [] == PartResults(front);
      }
    }
  }

  lemma {:induction false} CallPartsAsOps(s: State, parts: seq<Part>)
    ensures ApplyAll(s, PartCalls(parts)) == CallParts(s, parts)
  {
    if parts != [] {
      var front, last := parts[..|parts| - 1], parts[|parts| - 1];
      CallPartsAsOps(s, front);
      if last.CallPart? {
        ApplyAllAppend(s, PartCalls(front), [Upsert(last.call, Absent)]);
      } else {
        assert PartCalls(front) + [] == PartCalls(front);
      }
    }
  }

  /** Every message that does not end a response is exactly its operations: all its
      results first, then its calls; an ending one settles after its results. */
  lemma MessageIsItsOps(s: State, payload: Payload)
    ensures
      var changed := ApplyAll(s, OpsOf(payload));
      ReducePayload(s, payload) ==
        if changed.Ok? && payload.AssistantMessage? && payload.endsResponse
        then Ok(SettleCurrentTools(changed.value)) else changed
  {
    match payload
    case ToolCall(call) =>
    case ToolUpdate(call, presentation) =>
    case ToolResult(id) =>
    case OtherPayload =>
    case AssistantMessage(parts, endsResponse) =>
      ResolvePartsAsOps(s, parts);
      assert PartResults(parts) + [] == PartResults(parts);
      if !endsResponse {
        ApplyAllAppend(s, PartResults(parts), PartCalls(parts));
        CallPartsAsOps(ResolveParts(s, parts), parts);
      }
  }

  lemma {:induction false} PartResultsStartNothing(parts: seq<Part>)
    ensures Starts(PartResults(parts)) == []
  {
    if parts != [] {
      var front, last := parts[..|parts| - 1], parts[|parts| - 1];
      PartResultsStartNothing(front);
      if last.ResultPart? {
        assert (PartResults(front) + [Resolve(last.id)])[..|PartResults(front)|] == PartResults(front);
      } else {
        assert PartResults(front) + [] == PartResults(front);
      }
    }
  }

  /** A message resolves and starts exactly what its parts name. */
  lemma {:induction false} PartsRead(parts: seq<Part>, id: string)
    ensures id in Results(PartResults(parts)) <==> exists k :: 0 <= k < |parts| && parts[k] == ResultPart(id)
    ensures id in Starts(PartCalls(parts))
       <==> exists k :: 0 <= k < |parts| && parts[k].CallPart? && parts[k].call.id == id
  {
    if parts != [] {
      var front, last := parts[..|parts| - 1], parts[|parts| - 1];
      PartsRead(front, id);
      assert forall k :: 0 <= k < |front| ==> front[k] == parts[k];
      assert last == parts[|parts| - 1];
      LastOp(PartResults(front), PartCalls(front), last);
    }
  }

  lemma LastOp(results: seq<Op>, calls: seq<Op>, last: Part)
    ensures last.ResultPart? ==> Results(results + [Resolve(last.id)]) == Results(results) + {last.id}
    ensures last.CallPart? ==> Starts(calls + [Upsert(last.call, Absent)]) == Starts(calls) + [last.call.id]
    ensures results + [] == results && calls + [] == calls
  {
    if last.ResultPart? { assert (results + [Resolve(last.id)])[..|results|] == results; }
    if last.CallPart? { assert (calls + [Upsert(last.call, Absent)])[..|calls|] == calls; }
  }

  /** One payload about one call: a result finishes it; a start shows it and keeps what an
      update presented; an update shows it with what it presents; and a finished call is
      left alone. */
  lemma OneCall(s: State, payload: Payload, id: string)
    requires Inv(s) && ReducePayload(s, payload).Ok?
    ensures
      var t := ReducePayload(s, payload).value;
      var was := if EntryOf(s, id).Live? then EntryOf(s, id).tool.presentation else Absent;
      match payload
      case ToolResult(target) => target == id ==> EntryOf(t, id) == Tombstone
      case ToolCall(call) =>
        call.id == id && id !in s.resolved ==> EntryOf(t, id) == Live(Tool(id, call.name, call.input, was))
      case ToolUpdate(call, presentation) =>
        call.id == id && id !in s.resolved ==> EntryOf(t, id) == Live(Tool(id, call.name, call.input, presentation))
      case AssistantMessage(_, _) => true
      case OtherPayload => t == s
    ensures id in s.resolved ==> EntryOf(ReducePayload(s, payload).value, id) == Tombstone
  {
    MessageIsItsOps(s, payload);
    if payload.AssistantMessage? {
      PayloadStep(s, payload);
    } else if payload != OtherPayload {
      var op := OpsOf(payload)[0];
      assert OpsOf(payload)[..0] == [];
      ApplyMovesOneEntry(s, op, id);
    }
  }

  // ------------------------------------------------------ order independence

  /** The changes that name one id, in their own order. */
  function Lane(ops: seq<Op>, id: string): seq<Op> {
    if ops == [] then []
    else
      var op := ops[|ops| - 1];
      Lane(ops[..|ops| - 1], id) + if IdOf(op) == id then [op] else []
  }

  lemma {:induction false} LifeIsItsLane(entry: Entry, ops: seq<Op>, id: string)
    ensures Life(entry, ops, id) == Life(entry, Lane(ops, id), id)
  {
    if ops != [] {
      var front, op := ops[..|ops| - 1], ops[|ops| - 1];
      LifeIsItsLane(entry, front, id);
      if IdOf(op) == id {
        assert (Lane(front, id) + [op])[..|Lane(front, id)|] == Lane(front, id);
      } else {
        assert Lane(front, id) + [] == Lane(front, id);
      }
    }
  }

  lemma OpsInterleave(s: State, ops: seq<Op>, others: seq<Op>)
    requires Inv(s)
    requires forall id :: Lane(ops, id) == Lane(others, id)
    ensures ApplyAll(s, ops).Ok? <==> ApplyAll(s, others).Ok?
    ensures ApplyAll(s, ops).Ok? ==>
      forall id :: EntryOf(ApplyAll(s, ops).value, id) == EntryOf(ApplyAll(s, others).value, id)
  {
    forall id ensures Life(EntryOf(s, id), ops, id) == Life(EntryOf(s, id), others, id) {
      LifeIsItsLane(EntryOf(s, id), ops, id);
      LifeIsItsLane(EntryOf(s, id), others, id);
    }
    ThrowsExactly(s, ops);
    ThrowsExactly(s, others);
    if ApplyAll(s, ops).Ok? {
      forall id ensures EntryOf(ApplyAll(s, ops).value, id) == EntryOf(ApplyAll(s, others).value, id) {
        Noninterference(s, ops, id);
        Noninterference(s, others, id);
      }
    }
  }

  // ----------------------------------------------------- runs of messages

  /** Neither settles nor resets: a message that does not end its response, a recoverable
      error, or an envelope the projection does not read. */
  predicate Undisturbed(e: Envelope) {
    match e
    case Message(payload) => !(payload.AssistantMessage? && payload.endsResponse)
    case Error(recoverable) => recoverable
    case OtherEnvelope => true
    case _ => false
  }

  ghost predicate AllUndisturbed(es: seq<Envelope>) {
    forall k :: 0 <= k < |es| ==> Undisturbed(es[k])
  }

  /** Every change a run of messages makes, in order. */
  function Changes(es: seq<Envelope>): seq<Op> {
    if es == [] then []
    else (if es[0].Message? then OpsOf(es[0].payload) else []) + Changes(es[1..])
  }

  lemma {:induction false} RunIsChanges(s: State, es: seq<Envelope>)
    requires AllUndisturbed(es)
    ensures Run(s, es) == ApplyAll(s, Changes(es))
    decreases |es|
  {
    if es != [] {
      var e, rest := es[0], es[1..];
      assert Undisturbed(e);
      if e.Message? {
        MessageIsItsOps(s, e.payload);
        ApplyAllAppend(s, OpsOf(e.payload), Changes(rest));
      } else {
        assert [] + Changes(rest) == Changes(rest);
      }
      if Reduce(s, e).Ok? { RunIsChanges(Reduce(s, e).value, rest); }
    }
  }

  /** Over any run of calls, updates, results and messages that do not end a response, a
      result before its own call included: visible is what was ever started, in order of
      first start, minus everything resolved. */
  lemma ShownInOrderOfFirstStart(s: State, es: seq<Envelope>)
    requires Inv(s) && AllUndisturbed(es)
    ensures Run(s, es).Ok? ==> ShownBy(s, Changes(es), Run(s, es).value)
  {
    RunIsChanges(s, es);
    OpsShownInOrder(s, Changes(es));
  }

  /** The same, as sets of ids. */
  lemma VisibleIsStartedMinusResolved(s: State, es: seq<Envelope>)
    requires Inv(s) && AllUndisturbed(es)
    requires Run(s, es).Ok?
    ensures IdSet(Run(s, es).value.currentTools)
         == (IdSet(s.currentTools) + set id | id in Starts(Changes(es))) - (s.resolved + Results(Changes(es)))
  {
    RunIsChanges(s, es);
    OpsVisible(s, Changes(es));
  }

  /** Two runs that name each call by the same changes in the same order end the same,
      however they interleave the calls: both throw, or every id has the same entry, call
      for call and presentation for presentation. */
  lemma InterleavingIrrelevant(s: State, es: seq<Envelope>, others: seq<Envelope>)
    requires Inv(s) && AllUndisturbed(es) && AllUndisturbed(others)
    requires forall id :: Lane(Changes(es), id) == Lane(Changes(others), id)
    ensures Run(s, es).Ok? <==> Run(s, others).Ok?
    ensures Run(s, es).Ok? ==> forall id :: EntryOf(Run(s, es).value, id) == EntryOf(Run(s, others).value, id)
  {
    RunIsChanges(s, es);
    RunIsChanges(s, others);
    OpsInterleave(s, Changes(es), Changes(others));
  }

  /** A call still running shows the name and input of its latest start or update, and the
      presentation of its latest update, whatever happened to other calls in between. */
  lemma ShowsLatest(s: State, es: seq<Envelope>, id: string)
    requires Inv(s) && AllUndisturbed(es)
    requires id !in s.resolved && id !in Results(Changes(es))
    requires Run(s, es).Ok?
    ensures EntryOf(Run(s, es).value, id) == Latest(EntryOf(s, id), Changes(es), id)
  {
    RunIsChanges(s, es);
    ResultsAreResolved(Changes(es));
    OpsShowLatest(s, Changes(es), id);
  }

  lemma {:induction false} ResultsAreResolved(ops: seq<Op>)
    ensures forall k :: 0 <= k < |ops| && ops[k].Resolve? ==> ops[k].target in Results(ops)
  {
    if ops != [] {
      var front := ops[..|ops| - 1];
      ResultsAreResolved(front);
      forall k | 0 <= k < |ops| && ops[k].Resolve? ensures ops[k].target in Results(ops) {
        if k < |front| { assert front[k] == ops[k]; }
      }
    }
  }

  // ----------------------------------------------------- every run of events

  /** The two places the tombstones are dropped. */
  predicate Resets(s: State, e: Envelope) {
    e.StatusChange? &&
    (e.status == Starting ||
     (e.status == Streaming && e.previous != Streaming && |s.currentTools| == 0 && |s.resolved| > 0))
  }

  /** The events after which nothing can still be running. */
  predicate Settles(e: Envelope) {
    match e
    case Error(recoverable) => !recoverable
    case Shutdown => true
    case StatusChange(status, _) => status == Idle || status == Closed || status == Errored
    case Message(payload) => payload.AssistantMessage? && payload.endsResponse
    case OtherEnvelope => false
  }

  lemma PayloadStep(s: State, payload: Payload)
    requires Inv(s)
    requires ReducePayload(s, payload).Ok?
    ensures Inv(ReducePayload(s, payload).value)
    ensures s.resolved + Results(OpsOf(payload)) <= ReducePayload(s, payload).value.resolved
  {
    MessageIsItsOps(s, payload);
    Noninterference(s, OpsOf(payload), "");
    OpsShownInOrder(s, OpsOf(payload));
  }

  /** Every step from a well-formed state: visible ids stay unique and disjoint from
      the tombstones; tombstones are dropped only by a reset, which leaves nothing at
      all; a settling event leaves no call visible; a streaming status never changes
      what is visible. */
  lemma EveryStep(s: State, e: Envelope)
    requires Inv(s)
    requires Reduce(s, e).Ok?
    ensures Inv(Reduce(s, e).value)
    ensures Resets(s, e) ==> Reduce(s, e).value == Empty
    ensures !Resets(s, e) ==> s.resolved <= Reduce(s, e).value.resolved
    ensures Settles(e) ==> Reduce(s, e).value.currentTools == []
    ensures e.StatusChange? && e.status == Streaming ==> Reduce(s, e).value.currentTools == s.currentTools
  {
    if e.Message? {
      PayloadStep(s, e.payload);
    }
  }

  /** What else an event does. A settling one finishes every call it clears, beside those
      its own message resolved; one that neither settles, resets nor is a message does
      nothing. */
  lemma SettlingFinishes(s: State, e: Envelope)
    requires Inv(s)
    ensures Settles(e) ==>
              && Reduce(s, e).Ok?
              && Reduce(s, e).value.resolved
                 == s.resolved + IdSet(s.currentTools) + (if e.Message? then Results(OpsOf(e.payload)) else {})
    ensures !Settles(e) && !Resets(s, e) && !e.Message? ==> Reduce(s, e) == Ok(s)
  {
    if e.Message? && e.payload.AssistantMessage? {
      var ops := PartResults(e.payload.parts);
      ResolvePartsAsOps(s, e.payload.parts);
      PartResultsStartNothing(e.payload.parts);
      assert ops + [] == ops;
      OpsVisible(s, ops);
      OpsShownInOrder(s, ops);
    }
  }

  /** A call visible before a settling event is finished by it, and never visible again
      before a reset, whatever arrives late. */
  lemma SettledNeverReturns(s: State, e: Envelope, later: seq<Envelope>, id: string)
    requires Inv(s) && Settles(e) && id in Ids(s.currentTools)
    requires NoReset(Reduce(s, e).value, later)
    requires Run(Reduce(s, e).value, later).Ok?
    ensures id !in Ids(Run(Reduce(s, e).value, later).value.currentTools)
  {
    SettlingFinishes(s, e);
    EveryStep(s, e);
    NeverResurrected(Reduce(s, e).value, later, id);
  }

  lemma {:induction false} EveryRun(s: State, es: seq<Envelope>)
    requires Inv(s)
    ensures Run(s, es).Ok? ==> Inv(Run(s, es).value)
    decreases |es|
  {
    if es != [] && Reduce(s, es[0]).Ok? {
      EveryStep(s, es[0]);
      EveryRun(Reduce(s, es[0]).value, es[1..]);
    }
  }

  /** No event of the run resets the projection. */
  ghost predicate NoReset(s: State, es: seq<Envelope>)
    decreases |es|
  {
    es == [] || (!Resets(s, es[0]) && (Reduce(s, es[0]).Ok? ==> NoReset(Reduce(s, es[0]).value, es[1..])))
  }

  /** A finished call never comes back before a reset, whatever arrives late. */
  lemma {:induction false} NeverResurrected(s: State, es: seq<Envelope>, id: string)
    requires Inv(s)
    requires id in s.resolved
    requires NoReset(s, es)
    requires Run(s, es).Ok?
    ensures id in Run(s, es).value.resolved
    ensures id !in Ids(Run(s, es).value.currentTools)
    decreases |es|
  {
    if es == [] {
      assert forall k :: 0 <= k < |s.currentTools| ==> Ids(s.currentTools)[k] !in s.resolved;
    } else {
      EveryStep(s, es[0]);
      NeverResurrected(Reduce(s, es[0]).value, es[1..], id);
    }
  }

  lemma {:induction false} DedupedDistinct(tools: seq<Tool>)
    ensures Distinct(Deduped(tools))
  {
    if tools != [] {
      var front := Deduped(tools[..|tools| - 1]);
      DedupedDistinct(tools[..|tools| - 1]);
      if FindIndex(front, tools[|tools| - 1].id) < 0 {
        forall k | 0 <= k < |front| ensures front[k].id != tools[|tools| - 1].id {
          assert Ids(front)[k] == front[k].id;
        }
      }
    }
  }

  lemma LastIsNew(tools: seq<Tool>)
    requires Distinct(tools) && tools != []
    ensures
      var front, last := tools[..|tools| - 1], tools[|tools| - 1];
      Distinct(front) && MapSet(front, last) == tools
  {
    var front, last := tools[..|tools| - 1], tools[|tools| - 1];
    assert tools == front + [last];
  }

  lemma {:induction false} DedupedIdentity(tools: seq<Tool>)
    requires Distinct(tools)
    ensures Deduped(tools) == tools
  {
    if tools != [] {
      LastIsNew(tools);
      DedupedIdentity(tools[..|tools| - 1]);
    }
  }

  /** A seeded state shows the ids in order of first appearance. */
  lemma {:induction false} SeededInOrder(tools: seq<Tool>)
    ensures Ids(Deduped(tools)) == Firsts(Ids(tools))
  {
    if tools != [] {
      var front, last := tools[..|tools| - 1], tools[|tools| - 1];
      SeededInOrder(front);
      assert Ids(tools)[..|tools| - 1] == Ids(front);
      FirstsAreAll(Ids(front));
    }
  }

  /** The tool is among the tools, and none after it has its id. */
  ghost predicate IsLastOf(tools: seq<Tool>, tool: Tool) {
    exists k :: 0 <= k < |tools| && LastAt(tools, k) && tools[k] == tool
  }

  predicate LastAt(tools: seq<Tool>, k: nat)
    requires k < |tools|
  {
    forall j :: k < j < |tools| ==> tools[j].id != tools[k].id
  }

  lemma LastOfMore(front: seq<Tool>, last: Tool, tool: Tool)
    requires IsLastOf(front, tool) && last.id != tool.id
    ensures IsLastOf(front + [last], tool)
  {
    var k :| 0 <= k < |front| && LastAt(front, k) && front[k] == tool;
    var all := front + [last];
    assert all[k] == tool && LastAt(all, k);
  }

  /** And each with its last value. */
  lemma {:induction false} SeededWithLast(tools: seq<Tool>, tool: Tool)
    requires tool in Deduped(tools)
    ensures IsLastOf(tools, tool)
  {
    var front, last := tools[..|tools| - 1], tools[|tools| - 1];
    assert tools == front + [last];
    if tool == last {
      assert LastAt(tools, |tools| - 1);
    } else {
      DedupedDistinct(tools);
      MapSetMembers(Deduped(front), last, tool);
      SeededWithLast(front, tool);
      LastOfMore(front, last, tool);
    }
  }

  lemma MapSetMembers(tools: seq<Tool>, tool: Tool, other: Tool)
    requires Distinct(MapSet(tools, tool)) && other != tool && other in MapSet(tools, tool)
    ensures other in tools && other.id != tool.id
  {
    var index := FindIndex(tools, tool.id);
    var set' := MapSet(tools, tool);
    var at := if index < 0 then |tools| else index;
    assert set'[at] == tool;
    var i :| 0 <= i < |set'| && set'[i] == other;
    assert i != at;
    assert tools[i] == other;
  }

  /** A reducer step throws exactly when it upserts, without an input, an id that is
      neither shown nor tombstoned at that moment. */
  lemma StepThrowsExactly(s: State, e: Envelope)
    requires Inv(s)
    ensures Reduce(s, e).TypeError? <==>
      e.Message? && exists id :: Life(EntryOf(s, id), OpsOf(e.payload), id).TypeError?
  {
    if e.Message? {
      MessageIsItsOps(s, e.payload);
      ThrowsExactly(s, OpsOf(e.payload));
    }
  }
}
