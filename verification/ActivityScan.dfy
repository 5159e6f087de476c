/** Arriving mid-session without a snapshot: rebuilding the visible calls by a newest-first
    scan of the persisted events, against the full replay
    (`src/main/agent-runtime/session/session-activity-snapshot.ts`). */
module ActivityScan {
  import opened AgentActivity
  import opened ActivitySnapshot

  predicate EndsCurrentActivity(e: Envelope) {
    match e
    case Shutdown => true
    case Error(recoverable) => !recoverable
    case StatusChange(status, _) => status == Idle || status == Closed || status == Errored
    case _ => false
  }

  predicate BeginsCurrentActivity(e: Envelope) {
    e.StatusChange? && (e.status == Starting || (e.status == Streaming && e.previous != Streaming))
  }

  /** One persisted row: hidden by a checkpoint, or unreadable, or an envelope. */
  datatype Row = Row(hidden: bool, payload: Envelope, readable: bool)

  function Visible(rows: seq<Row>): seq<Envelope> {
    if rows == [] then []
    else
      var last := rows[|rows| - 1];
      Visible(rows[..|rows| - 1]) + if last.hidden || !last.readable then [] else [last.payload]
  }

  /** What the scan finds: a turn already over, or the events since it began. */
  datatype Scan = Ended | Replay(turn: seq<Envelope>)

  function ScanBack(es: seq<Envelope>): Scan {
    if es == [] then Replay([])
    else
      var last := es[|es| - 1];
      if EndsCurrentActivity(last) then Ended
      else if BeginsCurrentActivity(last) then Replay([last])
      else Then(ScanBack(es[..|es| - 1]), [last])
  }

  function Then(scan: Scan, later: seq<Envelope>): Scan {
    match scan
    case Ended => Ended
    case Replay(turn) => Replay(turn + later)
  }

  function ToolsOf(r: Result<State>): Result<seq<Tool>> {
    var s :- r;
    Ok(s.currentTools)
  }

  function CurrentTools(es: seq<Envelope>): Result<seq<Tool>> {
    match ScanBack(es)
    case Ended => Ok([])
    case Replay(turn) => ToolsOf(Run(Empty, turn))
  }

  /** The scan: newest row first, stopping at a boundary, then the turn replayed. */
  method ReadCurrentTools(rows: seq<Row>) returns (r: Result<seq<Tool>>)
    ensures r == CurrentTools(Visible(rows))
  {
    var payloads: seq<Envelope> := [];
    var k := |rows|;
    assert rows[..k] == rows;
    while k > 0
      invariant 0 <= k <= |rows|
      invariant ScanBack(Visible(rows)) == Then(ScanBack(Visible(rows[..k])), payloads)
    {
      k := k - 1;
      var row := rows[k];
      OneRow(rows, k, payloads);
      if row.hidden || !row.readable { continue; }
      if EndsCurrentActivity(row.payload) { return Ok([]); }
      payloads := [row.payload] + payloads;
      if BeginsCurrentActivity(row.payload) {
        r := Replayed(payloads);
        return;
      }
    }
    assert [] + payloads == payloads;
    r := Replayed(payloads);
  }

  lemma OneRow(rows: seq<Row>, k: nat, payloads: seq<Envelope>)
    requires k < |rows|
    ensures
      var scan := Then(ScanBack(Visible(rows[..k + 1])), payloads);
      var row := rows[k];
      scan ==
        if row.hidden || !row.readable then Then(ScanBack(Visible(rows[..k])), payloads)
        else if EndsCurrentActivity(row.payload) then Ended
        else if BeginsCurrentActivity(row.payload) then Replay([row.payload] + payloads)
        else Then(ScanBack(Visible(rows[..k])), [row.payload] + payloads)
  {
    assert rows[..k + 1][..k] == rows[..k];
    var before := Visible(rows[..k]);
    if rows[k].hidden || !rows[k].readable {
      assert before + [] == before;
    } else {
      assert (before + [rows[k].payload])[..|before|] == before;
    }
  }

  method Replayed(payloads: seq<Envelope>) returns (r: Result<seq<Tool>>)
    ensures r == ToolsOf(Run(Empty, payloads))
  {
    var state := Ok(Empty);
    for k := 0 to |payloads|
      invariant state == Run(Empty, payloads[..k])
    {
      assert payloads[..k + 1] == payloads[..k] + [payloads[k]];
      RunAppend(Empty, payloads[..k], [payloads[k]]);
      if state.Ok? {
        assert Run(state.value, [payloads[k]]) == Reduce(state.value, payloads[k]) by {
          assert [payloads[k]][1..] == [];
        }
        state := Reduce(state.value, payloads[k]);
      }
    }
    assert payloads[..|payloads|] == payloads;
    r := ToolsOf(state);
  }

  lemma {:induction false} RunAppend(s: State, a: seq<Envelope>, b: seq<Envelope>)
    ensures Run(s, a + b) == if Run(s, a).TypeError? then TypeError else Run(Run(s, a).value, b)
    decreases |a|
  {
    if a == [] {
      assert a + b == b;
    } else {
      assert (a + b)[1..] == a[1..] + b;
      if Reduce(s, a[0]).Ok? { RunAppend(Reduce(s, a[0]).value, a[1..], b); }
    }
  }

  lemma RunSnoc(s: State, es: seq<Envelope>)
    requires es != []
    ensures
      var before := Run(s, es[..|es| - 1]);
      Run(s, es) == if before.TypeError? then TypeError else Reduce(before.value, es[|es| - 1])
  {
    var front, last := es[..|es| - 1], es[|es| - 1];
    assert es == front + [last];
    RunAppend(s, front, [last]);
    if Run(s, front).Ok? {
      assert [last][1..] == [];
    }
  }

  // ------------------------------------- when the scan equals the full replay

  predicate OpensTurn(e: Envelope) {
    e.StatusChange? && e.status == Streaming && e.previous != Streaming
  }

  /** The scan answers what folding the whole history shows. */
  ghost predicate Agrees(es: seq<Envelope>) {
    Run(Empty, es).Ok? ==> CurrentTools(es) == Ok(Run(Empty, es).value.currentTools)
  }

  /** And it did so after every event, as long as the fold did not throw. */
  ghost predicate AgreesThroughout(es: seq<Envelope>) {
    Agrees(es) && (es != [] ==> AgreesThroughout(es[..|es| - 1]))
  }

  /** What may come next: a turn opens over calls only if none is showing, and once a turn
      is over, until something begins, only finished calls are named. */
  ghost predicate MayFollow(front: seq<Envelope>, last: Envelope) {
    Run(Empty, front).Ok? ==>
      && (OpensTurn(last) ==> Run(Empty, front).value.currentTools == [])
      && (ScanBack(front).Ended? && !BeginsCurrentActivity(last) ==> Called(last) <= Run(Empty, front).value.resolved)
  }

  /** Every event could follow those before it; one that makes the fold throw is the end. */
  ghost predicate Orderly(es: seq<Envelope>) {
    es != [] ==>
      && Orderly(es[..|es| - 1])
      && (Run(Empty, es).Ok? ==> MayFollow(es[..|es| - 1], es[|es| - 1]))
  }

  /** From an empty projection an event shows nothing exactly when it calls nothing but
      finished calls. */
  lemma ShowsNothingExactly(s: State, e: Envelope)
    requires Inv(s) && s.currentTools == []
    requires Reduce(s, e).Ok?
    ensures Reduce(s, e).value.currentTools == [] <==> Called(e) <= s.resolved
  {
    if e.Message? {
      MessageIsItsOps(s, e.payload);
      if e.payload.AssistantMessage? && e.payload.endsResponse {
        PartResultsStartNothing(e.payload.parts);
        assert PartResults(e.payload.parts) + [] == PartResults(e.payload.parts);
      } else {
        var tools := ApplyAll(s, OpsOf(e.payload)).value.currentTools;
        assert tools != [] ==> Ids(tools)[0] in IdSet(tools);
        OpsVisible(s, OpsOf(e.payload));
        assert Called(e) <= s.resolved <==> IdSet(tools) == {};
      }
    }
  }

  /** What the scan has in hand on a history it has agreed with throughout: the very state
      of the fold, or a turn over with nothing showing. */
  ghost predicate InStep(es: seq<Envelope>) {
    Run(Empty, es).Ok? ==>
      match ScanBack(es)
      case Ended => Run(Empty, es).value.currentTools == []
      case Replay(turn) => Run(Empty, turn) == Run(Empty, es)
  }

  /** One event on such a history: both still agree exactly when it may follow. */
  lemma OneMoreEvent(front: seq<Envelope>, last: Envelope, s: State)
    requires InStep(front) && Run(Empty, front) == Ok(s) && Reduce(s, last).Ok?
    ensures Agrees(front + [last]) <==> MayFollow(front, last)
    ensures MayFollow(front, last) ==> InStep(front + [last])
  {
    var es := front + [last];
    assert es[..|front|] == front;
    RunSnoc(Empty, es);
    EveryRun(Empty, front);
    EveryStep(s, last);
    if EndsCurrentActivity(last) {
      assert Called(last) == {};
    } else if BeginsCurrentActivity(last) {
      assert Run(Empty, [last]) == Reduce(Empty, last) by { assert [last][1..] == []; }
    } else if ScanBack(front).Ended? {
      ShowsNothingExactly(s, last);
    } else {
      var turn := ScanBack(front).turn;
      RunSnoc(Empty, turn + [last]);
      assert (turn + [last])[..|turn|] == turn;
    }
  }

  lemma {:induction false} OrderlyInStep(es: seq<Envelope>)
    ensures AgreesThroughout(es) <==> Orderly(es)
    ensures Orderly(es) ==> InStep(es)
  {
    if es != [] {
      var front, last := es[..|es| - 1], es[|es| - 1];
      OrderlyInStep(front);
      RunSnoc(Empty, es);
      if Run(Empty, es).Ok? && Orderly(front) {
        assert es == front + [last];
        OneMoreEvent(front, last, Run(Empty, front).value);
      }
    }
  }

  /** The newest-first scan answers, after every event, exactly what folding the whole
      branch shows, if and only if no turn opens over a showing call and no call is named
      for the first time after a turn is over and before the next begins. */
  lemma ScanIsFullReplay(es: seq<Envelope>)
    ensures AgreesThroughout(es) <==> Orderly(es)
  {
    OrderlyInStep(es);
  }

  /** Whether a turn is open, read off the events alone: opened by a streaming status that
      was not already streaming, closed by an end or by a new process starting. */
  predicate InTurn(es: seq<Envelope>) {
    if es == [] then false
    else
      var last := es[|es| - 1];
      if EndsCurrentActivity(last) then false
      else if BeginsCurrentActivity(last) then last.status == Streaming
      else InTurn(es[..|es| - 1])
  }

  /** Calls appear only inside a turn, and no turn opens inside another. */
  ghost predicate Bracketed(es: seq<Envelope>) {
    es == [] ||
    (var front, last := es[..|es| - 1], es[|es| - 1];
     && Bracketed(front)
     && (Called(last) != {} ==> InTurn(front))
     && (OpensTurn(last) ==> !InTurn(front)))
  }

  lemma {:induction false} QuietOutsideTurns(es: seq<Envelope>)
    requires Bracketed(es) && !InTurn(es)
    requires Run(Empty, es).Ok?
    ensures Run(Empty, es).value.currentTools == []
  {
    if es != [] {
      var front, last := es[..|es| - 1], es[|es| - 1];
      RunSnoc(Empty, es);
      EveryRun(Empty, front);
      if !EndsCurrentActivity(last) && !BeginsCurrentActivity(last) {
        QuietOutsideTurns(front);
        ShowsNothingExactly(Run(Empty, front).value, last);
      } else {
        EveryStep(Run(Empty, front).value, last);
      }
    }
  }

  lemma {:induction false} EndedIsOutside(es: seq<Envelope>)
    requires ScanBack(es).Ended?
    ensures !InTurn(es)
  {
    if es != [] && !EndsCurrentActivity(es[|es| - 1]) {
      EndedIsOutside(es[..|es| - 1]);
    }
  }

  /** Histories with their calls inside turns that do not nest are orderly, whatever the
      fold made of them. */
  lemma {:induction false} BracketedIsOrderly(es: seq<Envelope>)
    requires Bracketed(es)
    ensures Orderly(es)
  {
    if es != [] {
      var front, last := es[..|es| - 1], es[|es| - 1];
      BracketedIsOrderly(front);
      if Run(Empty, front).Ok? {
        if OpensTurn(last) { QuietOutsideTurns(front); }
        if ScanBack(front).Ended? { EndedIsOutside(front); }
      }
    }
  }

  /** Whenever calls are showing, a turn opened over them leaves them in the full replay
      and loses them from the scan. */
  lemma TurnOpenedOverCalls(es: seq<Envelope>)
    requires Run(Empty, es).Ok? && Run(Empty, es).value.currentTools != []
    ensures
      var more := es + [StatusChange(Streaming, Idle)];
      CurrentTools(more) == Ok([]) && ToolsOf(Run(Empty, more)) == Ok(Run(Empty, es).value.currentTools)
  {
    var opening := StatusChange(Streaming, Idle);
    var more := es + [opening];
    assert more[..|more| - 1] == es && more[|more| - 1] == opening;
    RunSnoc(Empty, more);
    assert ScanBack(more) == Replay([opening]);
    assert Run(Empty, [opening]) == Ok(Empty) by { assert [opening][1..] == []; }
  }

  /** And a first call after an end is in the full replay only. */
  lemma CallOutsideTurn(es: seq<Envelope>, end: Envelope, call: Call)
    requires EndsCurrentActivity(end)
    requires Run(Empty, es).Ok? && call.input != Undefined
    requires call.id !in Reduce(Run(Empty, es).value, end).value.resolved
    ensures
      var more := es + [end] + [Message(ToolCall(call))];
      CurrentTools(more) == Ok([]) && ToolsOf(Run(Empty, more)) == Ok([Replacement(call, Absent, Absent)])
  {
    var first := Message(ToolCall(call));
    var ended := es + [end];
    assert ended[..|es|] == es && ended[|es|] == end;
    assert (ended + [first])[..|ended|] == ended;
    RunSnoc(Empty, ended);
    RunSnoc(Empty, ended + [first]);
    assert ScanBack(ended + [first]) == Then(ScanBack(ended), [first]) == Ended;
    EveryRun(Empty, es);
    EveryStep(Run(Empty, es).value, end);
    FirstCall(Reduce(Run(Empty, es).value, end).value, call);
  }

  lemma FirstCall(s: State, call: Call)
    requires s.currentTools == [] && call.id !in s.resolved && call.input != Undefined
    ensures ToolsOf(Reduce(s, Message(ToolCall(call)))) == Ok([Replacement(call, Absent, Absent)])
  {
    assert [] + [Replacement(call, Absent, Absent)] == [Replacement(call, Absent, Absent)];
  }
}
