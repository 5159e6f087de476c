/** The hand-kept signature table of `scripts/analyze-pi-fixtures.ts` and its lookup: the
    first entry that matches. The documentation promises the longest one. */
module SignatureClassifier {
  datatype Impact = Timeline | Metadata | Noise | Unclassified

  datatype Row = Row(prefix: string, impact: Impact)

  /** A prefix matches itself and everything that continues it after a colon. */
  predicate Matches(signature: string, prefix: string) {
    signature == prefix || prefix + ":" <= signature
  }

  function FirstMatch(table: seq<Row>, signature: string): (index: int)
    ensures -1 <= index < |table|
  {
    if table == [] then -1
    else if Matches(signature, table[0].prefix) then 0
    else
      var index := FirstMatch(table[1..], signature);
      if index < 0 then -1 else index + 1
  }

  function Classify(table: seq<Row>, signature: string): Impact {
    var index := FirstMatch(table, signature);
    if index < 0 then Unclassified else table[index].impact
  }

  lemma {:induction false} FirstMatchIsFirst(table: seq<Row>, signature: string)
    ensures
      var index := FirstMatch(table, signature);
      && (index >= 0 ==> Matches(signature, table[index].prefix))
      && forall k :: 0 <= k < (if index < 0 then |table| else index) ==> !Matches(signature, table[k].prefix)
  {
    if table != [] && !Matches(signature, table[0].prefix) {
      FirstMatchIsFirst(table[1..], signature);
      var rest := FirstMatch(table[1..], signature);
      forall k | 0 < k < (if rest < 0 then |table| else rest + 1) ensures !Matches(signature, table[k].prefix) {
        assert table[k] == table[1..][k - 1];
      }
    }
  }

  // ------------------------------------------------ first versus longest

  ghost predicate DistinctPrefixes(table: seq<Row>) {
    forall i, j :: 0 <= i < j < |table| ==> table[i].prefix != table[j].prefix
  }

  /** No entry hides a longer one behind it. */
  ghost predicate LongerFirst(table: seq<Row>) {
    forall i, j :: 0 <= i < j < |table| ==> !(table[i].prefix + ":" <= table[j].prefix)
  }

  /** The first match is a longest match. */
  ghost predicate FirstIsLongest(table: seq<Row>, signature: string) {
    var index := FirstMatch(table, signature);
    index >= 0 ==>
      forall k :: 0 <= k < |table| && Matches(signature, table[k].prefix) ==>
        |table[k].prefix| <= |table[index].prefix|
  }

  /** For a table without repeated prefixes, taking the first match is taking the
      longest, on every signature, exactly when no entry precedes one that continues it. */
  lemma FirstIsLongestExactly(table: seq<Row>)
    requires DistinctPrefixes(table)
    ensures LongerFirst(table) <==> forall signature :: FirstIsLongest(table, signature)
  {
    if LongerFirst(table) {
      forall signature ensures FirstIsLongest(table, signature) {
        LongerFirstSuffices(table, signature);
      }
    } else {
      var i, j :| 0 <= i < j < |table| && table[i].prefix + ":" <= table[j].prefix;
      HiddenEntry(table, i, j);
    }
  }

  lemma LongerFirstSuffices(table: seq<Row>, signature: string)
    requires LongerFirst(table)
    ensures FirstIsLongest(table, signature)
  {
    var index := FirstMatch(table, signature);
    FirstMatchIsFirst(table, signature);
    if index >= 0 {
      forall k | 0 <= k < |table| && Matches(signature, table[k].prefix)
        ensures |table[k].prefix| <= |table[index].prefix|
      {
        if |table[index].prefix| < |table[k].prefix| {
          assert false;
        }
      }
    }
  }

  lemma HiddenEntry(table: seq<Row>, i: nat, j: nat)
    requires DistinctPrefixes(table)
    requires i < j < |table| && table[i].prefix + ":" <= table[j].prefix
    ensures !FirstIsLongest(table, table[j].prefix)
  {
    var signature := table[j].prefix;
    FirstMatchIsFirst(table, signature);
    var index := FirstMatch(table, signature);
    assert Matches(signature, table[i].prefix) && Matches(signature, table[j].prefix);
    assert 0 <= index <= i;
    assert table[index].prefix != signature;
    assert |table[index].prefix| < |signature|;
  }

  // ------------------------------------------------------ the shipped table

  const CLASSIFICATION: seq<Row> := [
    Row("message_start", Timeline),
    Row("message_update", Timeline),
    Row("message_end", Timeline),
    Row("tool_execution_start", Timeline),
    Row("tool_execution_update", Timeline),
    Row("tool_execution_end", Timeline),
    Row("agent_start", Metadata),
    Row("agent_end", Metadata),
    Row("turn_start", Noise),
    Row("turn_end", Noise),
    Row("response", Metadata),
    Row("extension_ui_request:confirm", Timeline),
    Row("extension_ui_request:select", Timeline),
    Row("extension_ui_request:input", Timeline),
    Row("extension_ui_request:editor", Timeline),
    Row("extension_ui_request", Noise),
    Row("queue_update", Metadata),
    Row("compaction_start", Metadata),
    Row("compaction_end", Metadata),
    Row("auto_retry_start", Metadata),
    Row("auto_retry_end", Metadata),
    Row("extension_error", Metadata)
  ]

  const DIALOG_STEM: string := "extension_ui_request"

  lemma PlainPair(p: string, q: string)
    requires ':' !in q
    ensures !(p + ":" <= q)
  {
    if p + ":" <= q { ColonFree(q, p); }
  }

  lemma ColonFree(q: string, p: string)
    requires p + ":" <= q
    ensures ':' in q
  {
    assert q[|p|] == (p + ":")[|p|];
  }

  lemma OneColon(stem: string, tail: string, p: string)
    requires ':' !in stem && ':' !in tail
    requires p + ":" <= stem + ":" + tail
    ensures p == stem
  {
    var q := stem + ":" + tail;
    assert q[|p|] == (p + ":")[|p|] == ':';
    assert forall k :: 0 <= k < |stem| ==> q[k] == stem[k] && stem[k] in stem;
    assert forall k :: |stem| < k < |q| ==> q[k] == tail[k - |stem| - 1] && tail[k - |stem| - 1] in tail;
    assert p == q[..|p|] && stem == q[..|stem|];
  }

  predicate IsDialog(j: nat) { 11 <= j < 15 }

  lemma MessageAndToolNames(j: nat)
    requires j < 6
    ensures ':' !in CLASSIFICATION[j].prefix
  {
    if j == 0 {
      assert ':' !in "message_start";
    } else if j == 1 {
      assert ':' !in "message_update";
    } else if j == 2 {
      assert ':' !in "message_end";
    } else if j == 3 {
      assert ':' !in "tool_execution_start";
    } else if j == 4 {
      assert ':' !in "tool_execution_update";
    } else if j == 5 {
      assert ':' !in "tool_execution_end";
    }
  }

  lemma AgentAndTurnNames(j: nat)
    requires 6 <= j < 11
    ensures ':' !in CLASSIFICATION[j].prefix
  {
    if j == 6 {
      assert ':' !in "agent_start";
    } else if j == 7 {
      assert ':' !in "agent_end";
    } else if j == 8 {
      assert ':' !in "turn_start";
    } else if j == 9 {
      assert ':' !in "turn_end";
    } else if j == 10 {
      assert ':' !in "response";
    }
  }

  lemma LaterNames(j: nat)
    requires 15 <= j < 22
    ensures ':' !in CLASSIFICATION[j].prefix
  {
    if j == 15 {
      assert ':' !in "extension_ui_request";
    } else if j == 16 {
      assert ':' !in "queue_update";
    } else if j == 17 {
      assert ':' !in "compaction_start";
    } else if j == 18 {
      assert ':' !in "compaction_end";
    } else if j == 19 {
      assert ':' !in "auto_retry_start";
    } else if j == 20 {
      assert ':' !in "auto_retry_end";
    } else if j == 21 {
      assert ':' !in "extension_error";
    }
  }

  function Method(j: nat): string
    requires IsDialog(j)
  {
    if j == 11 then "confirm" else if j == 12 then "select" else if j == 13 then "input" else "editor"
  }

  lemma DialogNames(j: nat)
    requires IsDialog(j)
    ensures CLASSIFICATION[j].prefix == DIALOG_STEM + ":" + Method(j)
  {
    if j == 11 {
      assert "extension_ui_request:confirm" == "extension_ui_request" + ":" + "confirm";
    } else if j == 12 {
      assert "extension_ui_request:select" == "extension_ui_request" + ":" + "select";
    } else if j == 13 {
      assert "extension_ui_request:input" == "extension_ui_request" + ":" + "input";
    } else {
      assert "extension_ui_request:editor" == "extension_ui_request" + ":" + "editor";
    }
  }

  lemma DialogParts(j: nat)
    requires IsDialog(j)
    ensures ':' !in DIALOG_STEM && ':' !in Method(j)
  {
    assert ':' !in "extension_ui_request";
    assert ':' !in "confirm" && ':' !in "select" && ':' !in "input" && ':' !in "editor";
  }

  lemma StemComesLast(i: nat)
    requires i < 15
    ensures CLASSIFICATION[i].prefix != DIALOG_STEM
  {
    if i < 11 {
      assert CLASSIFICATION[i].prefix[0] != 'e';
    } else {
      DialogNames(i);
      assert |CLASSIFICATION[i].prefix| > |DIALOG_STEM|;
    }
  }

  /** The shipped table lists the dialog entries before their stem, and no other entry
      continues another: its first match is its longest, for every signature. */
  lemma ShippedFirstIsLongest(signature: string)
    ensures FirstIsLongest(CLASSIFICATION, signature)
  {
    forall i, j | 0 <= i < j < |CLASSIFICATION|
      ensures !(CLASSIFICATION[i].prefix + ":" <= CLASSIFICATION[j].prefix)
    {
      ShippedPair(i, j);
    }
    LongerFirstSuffices(CLASSIFICATION, signature);
  }

  lemma ShippedPair(i: nat, j: nat)
    requires i < j < |CLASSIFICATION|
    ensures !(CLASSIFICATION[i].prefix + ":" <= CLASSIFICATION[j].prefix)
  {
    if IsDialog(j) {
      DialogNames(j);
      DialogParts(j);
      StemComesLast(i);
      if CLASSIFICATION[i].prefix + ":" <= CLASSIFICATION[j].prefix {
        OneColon(DIALOG_STEM, Method(j), CLASSIFICATION[i].prefix);
      }
    } else {
      if j < 6 { MessageAndToolNames(j); } else if j < 11 { AgentAndTurnNames(j); } else { LaterNames(j); }
      PlainPair(CLASSIFICATION[i].prefix, CLASSIFICATION[j].prefix);
    }
  }

  // ------------------------------------------- what the table says of dialogs

  /** The signature of a dialog frame carries its method. */
  function DialogSignature(tail: string): string {
    DIALOG_STEM + ":" + tail
  }

  lemma MatchesBehindStem(tail: string, entry: string)
    ensures Matches(DialogSignature(tail), DialogSignature(entry)) <==> Matches(tail, entry)
  {
    var s, p := DialogSignature(tail), DialogSignature(entry);
    var n := |DIALOG_STEM| + 1;
    assert s[n..] == tail && p[n..] == entry;
    assert s == s[..n] + tail && p == s[..n] + entry;
    if entry + ":" <= tail {
      assert tail == (entry + ":") + tail[|entry| + 1..];
      assert s == (p + ":") + tail[|entry| + 1..];
    }
    if p + ":" <= s {
      assert (p + ":")[n..] == entry + ":";
      assert s[..|p| + 1][n..] == tail[..|entry| + 1];
    }
  }

  ghost predicate NamesADialog(tail: string) {
    exists j :: IsDialog(j) && Matches(tail, Method(j))
  }

  lemma EarlierRowsMiss(tail: string, i: nat)
    requires i < 11
    ensures !Matches(DialogSignature(tail), CLASSIFICATION[i].prefix)
  {
    assert CLASSIFICATION[i].prefix[0] != 'e';
    assert (CLASSIFICATION[i].prefix + ":")[0] != 'e';
    assert DialogSignature(tail)[0] == 'e';
  }

  lemma FirstBetween(table: seq<Row>, signature: string, low: nat, high: nat)
    requires low <= high < |table|
    requires Matches(signature, table[high].prefix)
    requires forall k :: 0 <= k < low ==> !Matches(signature, table[k].prefix)
    ensures low <= FirstMatch(table, signature) <= high
    ensures Matches(signature, table[FirstMatch(table, signature)].prefix)
    ensures forall k :: 0 <= k < FirstMatch(table, signature) ==> !Matches(signature, table[k].prefix)
  {
    FirstMatchIsFirst(table, signature);
  }

  lemma DialogRow(j: nat, tail: string)
    requires IsDialog(j)
    ensures Matches(DialogSignature(tail), CLASSIFICATION[j].prefix) <==> Matches(tail, Method(j))
    ensures CLASSIFICATION[j].impact == Timeline
  {
    DialogNames(j);
    MatchesBehindStem(tail, Method(j));
  }

  lemma StemRow(tail: string)
    ensures Matches(DialogSignature(tail), CLASSIFICATION[15].prefix)
    ensures CLASSIFICATION[15].impact == Noise
  {
    assert CLASSIFICATION[15].prefix == DIALOG_STEM;
    assert DIALOG_STEM + ":" <= DialogSignature(tail);
  }

  /** A request from an extension is a timeline item exactly when its method is one of
      the four dialogs (or continues one after a colon); any other is noise. */
  lemma DialogsAreTimeline(table: seq<Row>, tail: string)
    requires table == CLASSIFICATION
    ensures Classify(table, DialogSignature(tail)) == if NamesADialog(tail) then Timeline else Noise
  {
    var signature := DialogSignature(tail);
    StemRow(tail);
    forall k | 0 <= k < 11 ensures !Matches(signature, table[k].prefix) { EarlierRowsMiss(tail, k); }
    FirstBetween(table, signature, 11, 15);
    var index := FirstMatch(table, signature);
    if index < 15 {
      DialogRow(index, tail);
    } else {
      forall j | IsDialog(j) ensures !Matches(tail, Method(j)) { DialogRow(j, tail); }
    }
  }

  /** A table whose entries all say something gives a signature the impact of the first entry
      that matches it, and leaves it unclassified exactly when none does. */
  lemma ClassifiedExactly(table: seq<Row>, signature: string)
    requires forall k :: 0 <= k < |table| ==> table[k].impact != Unclassified
    ensures Classify(table, signature) == Unclassified
       <==> forall k :: 0 <= k < |table| ==> !Matches(signature, table[k].prefix)
    ensures forall k :: 0 <= k < |table| && Matches(signature, table[k].prefix)
              && (forall j :: 0 <= j < k ==> !Matches(signature, table[j].prefix))
              ==> Classify(table, signature) == table[k].impact
  {
    FirstMatchIsFirst(table, signature);
  }

  /** The shipped one is such a table. */
  lemma ShippedTableClassifies()
    ensures forall k :: 0 <= k < |CLASSIFICATION| ==> CLASSIFICATION[k].impact != Unclassified
  {
  }
}
