/** Numbering, timing and grouping of a staged conversation (`demo/transcript.ts`). */
module Transcript {
  const STEP_INTERVAL_MS: int := 1_400
  const TRAILING_GAP_MS: int := 2_600
  /** The largest distance from the epoch a `Date` can hold; `toISOString` throws past it. */
  const MAX_TIME_MS: int := 8_640_000_000_000_000

  datatype Body =
    | Prompt(text: string)
    | Text(text: string)
    | Reasoning(text: string)
    | ToolCall(id: string)
    | ToolResult(id: string)

  datatype Payload = Message(body: Body) | ContextUsage(tokens: int)

  /** `${branchId}-turn-${index}`, before it is rendered. */
  datatype TurnId = TurnId(branchId: string, index: nat)

  datatype Event = Event(branchId: string, createdAt: int, ordinal: nat, payload: Payload, turnId: TurnId)

  datatype Result<+T> = Ok(value: T) | RangeError

  /** A parsed timestamp, or the NaN an unreadable one parses to. */
  datatype Clock = At(ms: int) | NotATime

  predicate IsPrompt(payload: Payload) {
    payload.Message? && payload.body.Prompt?
  }

  /** How many of the first n steps are prompts. */
  function Prompts(steps: seq<Payload>, n: nat): nat
    requires n <= |steps|
  {
    if n == 0 then 0 else Prompts(steps, n - 1) + if IsPrompt(steps[n - 1]) then 1 else 0
  }

  /** The event at index i, told of the steps alone. */
  function Placed(branchId: string, frozenMs: int, steps: seq<Payload>, i: nat): Event
    requires i < |steps|
  {
    Event(branchId, frozenMs - TRAILING_GAP_MS - (|steps| - i) * STEP_INTERVAL_MS, i + 1, steps[i],
          TurnId(branchId, Prompts(steps, i + 1)))
  }

  predicate HasTime(ms: int) { -MAX_TIME_MS <= ms <= MAX_TIME_MS }

  /** Whether every step can be stamped; the first one is stamped the furthest back. */
  predicate Stampable(frozenAt: Clock, count: nat) {
    count > 0 ==> frozenAt.At? && HasTime(frozenAt.ms - TRAILING_GAP_MS - count * STEP_INTERVAL_MS)
  }

  method BuildTranscript(branchId: string, frozenAt: Clock, steps: seq<Payload>) returns (r: Result<seq<Event>>)
    requires frozenAt.At? ==> HasTime(frozenAt.ms)
    ensures r.Ok? <==> Stampable(frozenAt, |steps|)
    ensures r.Ok? ==> |r.value| == |steps|
    ensures r.Ok? ==> forall i :: 0 <= i < |steps| ==> r.value[i] == Placed(branchId, frozenAt.ms, steps, i)
  {
    var events: seq<Event> := [];
    var turnIndex := 0;
    var index := 0;
    while index < |steps|
      invariant 0 <= index <= |steps| && |events| == index
      invariant index > 0 ==> Stampable(frozenAt, |steps|)
      invariant turnIndex == Prompts(steps, index)
      invariant forall i :: 0 <= i < index ==> events[i] == Placed(branchId, frozenAt.ms, steps, i)
    {
      if frozenAt.NotATime? { return RangeError; }
      var startMs := frozenAt.ms - TRAILING_GAP_MS - |steps| * STEP_INTERVAL_MS;
      var createdAt := startMs + index * STEP_INTERVAL_MS;
      if !HasTime(createdAt) { return RangeError; }
      var event := Event(branchId, createdAt, index + 1, steps[index], TurnId(branchId, turnIndex));
      if IsPrompt(event.payload) {
        turnIndex := turnIndex + 1;
        event := event.(turnId := TurnId(branchId, turnIndex));
      }
      events := events + [event];
      index := index + 1;
    }
    return Ok(events);
  }

  lemma {:induction false} PromptsBetween(steps: seq<Payload>, i: nat, j: nat)
    requires i <= j <= |steps|
    ensures Prompts(steps, i) <= Prompts(steps, j)
    ensures Prompts(steps, i) == Prompts(steps, j) <==> forall k :: i <= k < j ==> !IsPrompt(steps[k])
    decreases j
  {
    if i < j {
      PromptsBetween(steps, i, j - 1);
    }
  }

  /** Two events share a turn exactly when no prompt lies after the earlier one up to and
      including the later: a prompt opens its own turn. */
  lemma SharesTurnExactly(branchId: string, frozenMs: int, steps: seq<Payload>, i: nat, j: nat)
    requires i <= j < |steps|
    ensures Placed(branchId, frozenMs, steps, i).turnId == Placed(branchId, frozenMs, steps, j).turnId
       <==> forall k :: i < k <= j ==> !IsPrompt(steps[k])
    ensures Placed(branchId, frozenMs, steps, i).turnId.index <= Placed(branchId, frozenMs, steps, j).turnId.index
  {
    PromptsBetween(steps, i + 1, j + 1);
  }

  /** Every stamp is earlier than the next, and than the frozen clock by more than the
      trailing gap. */
  lemma StampsClimb(branchId: string, frozenMs: int, steps: seq<Payload>, i: nat, j: nat)
    requires i < j < |steps|
    ensures
      var earlier, later := Placed(branchId, frozenMs, steps, i), Placed(branchId, frozenMs, steps, j);
      && earlier.createdAt < later.createdAt < frozenMs - TRAILING_GAP_MS
      && earlier.ordinal < later.ordinal
  {
    assert (|steps| - i) * STEP_INTERVAL_MS > (|steps| - j) * STEP_INTERVAL_MS >= STEP_INTERVAL_MS;
  }

  /** Of any transcript with an event, exactly the last lands 4,000 ms before the frozen
      clock: a whole interval further back than its constant names. */
  lemma LastStamp(branchId: string, frozenMs: int, steps: seq<Payload>, i: nat)
    requires i < |steps|
    ensures Placed(branchId, frozenMs, steps, i).createdAt == frozenMs - 4_000 <==> i == |steps| - 1
    ensures Placed(branchId, frozenMs, steps, i).createdAt <= frozenMs - 4_000
  {
    assert (|steps| - i) * STEP_INTERVAL_MS >= STEP_INTERVAL_MS;
  }
}
