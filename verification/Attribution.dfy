/** From SUBMIT to PERSIST: each row is about one submitted testcase and about the result of the
    token Judge0 issued for that testcase, whatever was deleted or added in between. */
module Attribution {
  import opened Collections
  import opened Judge0Repository
  import opened Verdict
  import opened Evaluation

  // ----- SUBMIT -----

  function Payloads<Payload>(testcases: seq<Testcase>, build: Testcase -> Payload): (r: seq<Payload>)
    ensures |r| == |testcases| && forall i :: 0 <= i < |r| ==> r[i] == build(testcases[i])
  {
    seq(|testcases|, i requires 0 <= i < |testcases| => build(testcases[i]))
  }

  /** submit_testcases: one token (or None) per testcase, issued for that testcase's payload. */
  method SubmitTestcases<Payload>(judge: Judge0<Payload>, testcases: seq<Testcase>, build: Testcase -> Payload,
                                  batchSize: nat)
    returns (r: Reply<seq<Option<Token>>>)
    requires batchSize > 0
    modifies judge
    ensures r.Ok? ==> |r.value| == |testcases|
                      && judge.issued == old(judge.issued) + Zip(Payloads(testcases, build), r.value)
    ensures r.Ok? <==> AllSucceed(judge.fails, old(judge.requests),
                                  old(judge.requests) + Chunks(|testcases|, batchSize))
  {
    r := SubmitBatch(judge, Payloads(testcases, build), batchSize);
  }

  /** The token map stored in the pending context. */
  function Entries(testcases: seq<Testcase>, tokens: seq<Option<Token>>): (r: seq<TokenEntry>)
    requires |testcases| == |tokens|
    ensures |r| == |testcases|
    ensures forall i :: 0 <= i < |r| ==> r[i] == TokenEntry(tokens[i], testcases[i].id)
  {
    seq(|testcases|, i requires 0 <= i < |testcases| => TokenEntry(tokens[i], testcases[i].id))
  }

  // ----- PERSIST -----

  /** {tc.id: tc for tc in testcases} */
  function ById(testcases: seq<Testcase>): map<TestcaseId, Testcase> {
    if testcases == [] then map[]
    else ById(testcases[..|testcases| - 1])[testcases[|testcases| - 1].id := testcases[|testcases| - 1]]
  }

  function AlignedTestcases(entries: seq<TokenEntry>, byId: map<TestcaseId, Testcase>): seq<Testcase> {
    if entries == [] then []
    else (if entries[0].testcase in byId then [byId[entries[0].testcase]] else [])
         + AlignedTestcases(entries[1..], byId)
  }

  function AlignedTokens(entries: seq<TokenEntry>, byId: map<TestcaseId, Testcase>): seq<Option<Token>> {
    if entries == [] then []
    else (if entries[0].testcase in byId then [entries[0].token] else []) + AlignedTokens(entries[1..], byId)
  }

  /** The tokens PERSIST and the poller ask Judge0 for. */
  function ValidTokens(entries: seq<TokenEntry>): seq<Token> {
    if entries == [] then []
    else (if Usable(entries[0].token) then [entries[0].token.value] else []) + ValidTokens(entries[1..])
  }

  /** The entries whose testcase still exists, in order. */
  function Kept(entries: seq<TokenEntry>, byId: map<TestcaseId, Testcase>): seq<TokenEntry> {
    if entries == [] then []
    else (if entries[0].testcase in byId then [entries[0]] else []) + Kept(entries[1..], byId)
  }

  /** The two filtered lists stay aligned with each other. */
  lemma {:induction false} Aligned(entries: seq<TokenEntry>, byId: map<TestcaseId, Testcase>)
    ensures |AlignedTestcases(entries, byId)| == |AlignedTokens(entries, byId)| == |Kept(entries, byId)|
    ensures forall j :: 0 <= j < |Kept(entries, byId)| ==>
              var e := Kept(entries, byId)[j];
              e.testcase in byId && AlignedTestcases(entries, byId)[j] == byId[e.testcase]
              && AlignedTokens(entries, byId)[j] == e.token
  {
    if entries != [] {
      Aligned(entries[1..], byId);
    }
  }

  lemma {:induction false} KeptMembers(entries: seq<TokenEntry>, byId: map<TestcaseId, Testcase>)
    ensures forall e :: e in Kept(entries, byId) <==> e in entries && e.testcase in byId
  {
    if entries != [] {
      KeptMembers(entries[1..], byId);
      assert entries == [entries[0]] + entries[1..];
    }
  }

  ghost predicate DistinctTestcases(entries: seq<TokenEntry>) {
    forall i, j :: 0 <= i < j < |entries| ==> entries[i].testcase != entries[j].testcase
  }

  lemma {:induction false} KeptDistinct(entries: seq<TokenEntry>, byId: map<TestcaseId, Testcase>)
    requires DistinctTestcases(entries)
    ensures DistinctTestcases(Kept(entries, byId))
  {
    if entries != [] {
      var rest := Kept(entries[1..], byId);
      KeptDistinct(entries[1..], byId);
      KeptMembers(entries[1..], byId);
      forall j | 0 <= j < |rest| ensures rest[j].testcase != entries[0].testcase {
        assert rest[j] in rest;
        var i :| 0 <= i < |entries[1..]| && entries[1..][i] == rest[j];
        assert entries[i + 1] == rest[j];
      }
    }
  }

  /** The entry that the j-th kept one is. */
  ghost function Position(entries: seq<TokenEntry>, byId: map<TestcaseId, Testcase>, j: nat): (i: nat)
    requires j < |Kept(entries, byId)|
    ensures i < |entries| && entries[i] == Kept(entries, byId)[j]
  {
    if entries[0].testcase !in byId then 1 + Position(entries[1..], byId, j)
    else if j == 0 then 0
    else 1 + Position(entries[1..], byId, j - 1)
  }

  lemma {:induction false} PositionsGrow(entries: seq<TokenEntry>, byId: map<TestcaseId, Testcase>, j: nat, k: nat)
    requires j < k < |Kept(entries, byId)|
    ensures Position(entries, byId, j) < Position(entries, byId, k)
  {
    if entries[0].testcase !in byId {
      PositionsGrow(entries[1..], byId, j, k);
    } else if j > 0 {
      PositionsGrow(entries[1..], byId, j - 1, k - 1);
    }
  }

  /** Filtering keeps the order. */
  lemma KeptInOrder(entries: seq<TokenEntry>, byId: map<TestcaseId, Testcase>, j: nat, k: nat, a: nat, b: nat)
    requires DistinctTestcases(entries) && j < k < |Kept(entries, byId)| && a < |entries| && b < |entries|
    requires Kept(entries, byId)[j].testcase == entries[a].testcase
    requires Kept(entries, byId)[k].testcase == entries[b].testcase
    ensures a < b
  {
    hide Kept;
    PositionsGrow(entries, byId, j, k);
    assert Position(entries, byId, j) == a && Position(entries, byId, k) == b;
  }

  /** ById answers with a testcase of the list that has the id asked for. */
  lemma {:induction false} ByIdFinds(testcases: seq<Testcase>)
    ensures forall t :: t in testcases ==> t.id in ById(testcases)
    ensures forall id :: id in ById(testcases) ==> ById(testcases)[id] in testcases && ById(testcases)[id].id == id
  {
    if testcases != [] {
      var init := testcases[..|testcases| - 1];
      ByIdFinds(init);
      assert testcases == init + [testcases[|testcases| - 1]];
    }
  }

  /** Of testcases with the same id the last one stays. */
  lemma {:induction false} ByIdLast(testcases: seq<Testcase>, i: nat)
    requires i < |testcases| && forall j :: i < j < |testcases| ==> testcases[j].id != testcases[i].id
    ensures testcases[i].id in ById(testcases) && ById(testcases)[testcases[i].id] == testcases[i]
  {
    var n := |testcases| - 1;
    if i < n {
      assert testcases[n].id != testcases[i].id;
      ByIdLast(testcases[..n], i);
    }
  }

  lemma {:induction false} ValidMembers(entries: seq<TokenEntry>)
    ensures forall e :: e in entries && Usable(e.token) ==> e.token.value in ValidTokens(entries)
  {
    if entries != [] {
      ValidMembers(entries[1..]);
      assert entries == [entries[0]] + entries[1..];
    }
  }

  /** Looking a stored token up in the fetched batch finds what Judge0 reports for that token. */
  lemma FetchIsLookup(entries: seq<TokenEntry>, known: map<Token, Judge0Result>, e: TokenEntry)
    requires e in entries
    ensures ResultOf(Fetched(known, ValidTokens(entries)), e.token)
         == if Usable(e.token) then Lookup(known, e.token.value) else None
  {
    ValidMembers(entries);
  }

  /** The rows PERSIST writes. */
  function PersistRows(entries: seq<TokenEntry>, present: seq<Testcase>, results: map<Token, Judge0Result>,
                       timedOut: bool, passes: Strategy): seq<Row>
  {
    Aligned(entries, ById(present));
    RowsFor(AlignedTestcases(entries, ById(present)), AlignedTokens(entries, ById(present)), results, timedOut, passes)
  }

  /** The row stands for the entry: its testcase, its token, and that token's own result. */
  ghost predicate Attributes(row: Row, e: TokenEntry, present: seq<Testcase>, known: map<Token, Judge0Result>,
                             timedOut: bool, passes: Strategy)
  {
    exists t :: t in present && t.id == e.testcase == row.testcase && row.token == e.token
                && row == RowFor(t, e.token, Fetched(known, if Usable(e.token) then [e.token.value] else []),
                                 timedOut, passes)
  }

  lemma RowOfEntry(entries: seq<TokenEntry>, present: seq<Testcase>, known: map<Token, Judge0Result>,
                   timedOut: bool, passes: Strategy, j: nat)
    requires j < |Kept(entries, ById(present))|
    ensures var rows := PersistRows(entries, present, Fetched(known, ValidTokens(entries)), timedOut, passes);
            |rows| == |Kept(entries, ById(present))|
            && Attributes(rows[j], Kept(entries, ById(present))[j], present, known, timedOut, passes)
  {
    hide Kept, AlignedTestcases, AlignedTokens, ValidTokens, ById, Lookup;
    var e := Kept(entries, ById(present))[j];
    Aligned(entries, ById(present));
    KeptMembers(entries, ById(present));
    ByIdFinds(present);
    FetchIsLookup(entries, known, e);
    assert Usable(e.token) ==> ResultOf(Fetched(known, [e.token.value]), e.token) == Lookup(known, e.token.value);
    var t := ById(present)[e.testcase];
    assert t in present && t.id == e.testcase;
  }

  /** The row belongs to one submitted testcase, and its token was issued for that testcase. */
  ghost predicate Traced<Payload>(
      row: Row, testcases: seq<Testcase>, build: Testcase -> Payload, entries: seq<TokenEntry>,
      issued: seq<(Payload, Option<Token>)>, from: nat,
      present: seq<Testcase>, known: map<Token, Judge0Result>, timedOut: bool, passes: Strategy)
    requires |entries| == |testcases| && from + |testcases| <= |issued|
  {
    exists i :: (0 <= i < |testcases|
                 && Attributes(row, entries[i], present, known, timedOut, passes)
                 && issued[from + i] == (build(testcases[i]), row.token))
  }

  /** Every row is attributed to one submitted testcase, every submitted testcase that still exists
      has exactly one row, and the rows keep the order of submission. */
  lemma EndToEnd<Payload>(
      testcases: seq<Testcase>, build: Testcase -> Payload, tokens: seq<Option<Token>>,
      issued: seq<(Payload, Option<Token>)>, from: nat,
      present: seq<Testcase>, known: map<Token, Judge0Result>, timedOut: bool, passes: Strategy)
    requires forall i, j :: 0 <= i < j < |testcases| ==> testcases[i].id != testcases[j].id
    requires |tokens| == |testcases| && from + |testcases| <= |issued|
    requires issued[from..from + |testcases|] == Zip(Payloads(testcases, build), tokens)
    ensures var entries := Entries(testcases, tokens);
            var rows := PersistRows(entries, present, Fetched(known, ValidTokens(entries)), timedOut, passes);
            && (forall j :: 0 <= j < |rows| ==>
                  Traced(rows[j], testcases, build, entries, issued, from, present, known, timedOut, passes))
            && (forall i :: 0 <= i < |testcases| && testcases[i].id in ById(present) ==>
                  exists j :: 0 <= j < |rows| && rows[j].testcase == testcases[i].id)
            && (forall j, k :: 0 <= j < k < |rows| ==> rows[j].testcase != rows[k].testcase)
            && (forall j, k, a, b :: 0 <= j < k < |rows| && 0 <= a < |testcases| && 0 <= b < |testcases|
                                     && testcases[a].id == rows[j].testcase && testcases[b].id == rows[k].testcase
                                     ==> a < b)
  {
    hide PersistRows, Attributes, ValidTokens, Fetched, Kept, ById;
    var entries := Entries(testcases, tokens);
    var kept := Kept(entries, ById(present));
    var rows := PersistRows(entries, present, Fetched(known, ValidTokens(entries)), timedOut, passes);
    RowCount(entries, present, known, timedOut, passes);
    KeptMembers(entries, ById(present));
    KeptDistinct(entries, ById(present));
    forall j | 0 <= j < |rows|
      ensures rows[j].testcase == kept[j].testcase
      ensures Traced(rows[j], testcases, build, entries, issued, from, present, known, timedOut, passes)
    {
      RowOfEntry(entries, present, known, timedOut, passes, j);
      AttributedFields(rows[j], kept[j], present, known, timedOut, passes);
      assert kept[j] in entries;
      var i :| 0 <= i < |entries| && entries[i] == kept[j];
      assert issued[from..from + |testcases|][i] == issued[from + i];
    }
    forall j, k, a, b | 0 <= j < k < |rows| && 0 <= a < |testcases| && 0 <= b < |testcases|
                        && testcases[a].id == rows[j].testcase && testcases[b].id == rows[k].testcase
      ensures a < b
    {
      KeptInOrder(entries, ById(present), j, k, a, b);
    }
    forall i | 0 <= i < |testcases| && testcases[i].id in ById(present)
      ensures exists j :: 0 <= j < |rows| && rows[j].testcase == testcases[i].id
    {
      assert entries[i] in kept;
      var j :| 0 <= j < |kept| && kept[j] == entries[i];
      assert rows[j].testcase == testcases[i].id;
    }
  }

  lemma AttributedFields(row: Row, e: TokenEntry, present: seq<Testcase>, known: map<Token, Judge0Result>,
                         timedOut: bool, passes: Strategy)
    requires Attributes(row, e, present, known, timedOut, passes)
    ensures row.testcase == e.testcase && row.token == e.token
  {
  }

  lemma RowCount(entries: seq<TokenEntry>, present: seq<Testcase>, known: map<Token, Judge0Result>,
                 timedOut: bool, passes: Strategy)
    ensures |PersistRows(entries, present, Fetched(known, ValidTokens(entries)), timedOut, passes)|
         == |Kept(entries, ById(present))|
  {
    Aligned(entries, ById(present));
  }

  // ----- deadlines -----

  /** The poller's all_done test for one submission. */
  predicate AllDone(entries: seq<TokenEntry>, results: map<Token, Judge0Result>) {
    var tokens := ValidTokens(entries);
    |tokens| > 0 && forall i :: 0 <= i < |tokens| ==> tokens[i] in results && IsTerminal(results[tokens[i]])
  }

  /** A terminal result Judge0 has reported once is what it goes on reporting. */
  ghost predicate Stable(earlier: map<Token, Judge0Result>, later: map<Token, Judge0Result>) {
    forall t :: t in earlier && IsTerminal(earlier[t]) ==> t in later && later[t] == earlier[t]
  }

  /** When the poller found everything done, PERSIST finds a result for exactly the testcases that
      have a token, and judges them by the results the poller saw. */
  lemma DoneMeansJudged(entries: seq<TokenEntry>, polled: map<Token, Judge0Result>, known: map<Token, Judge0Result>,
                        e: TokenEntry)
    requires AllDone(entries, polled) && Stable(polled, known) && e in entries
    ensures var result := ResultOf(Fetched(known, ValidTokens(entries)), e.token);
            (result == None <==> !Usable(e.token))
            && (Usable(e.token) ==> IsTerminal(result.value) && result.value.statusId == polled[e.token.value].statusId)
  {
    ValidMembers(entries);
    if Usable(e.token) {
      var i :| 0 <= i < |ValidTokens(entries)| && ValidTokens(entries)[i] == e.token.value;
      assert ValidTokens(entries)[i] in polled;
    }
  }

  /** The tokens asked for are the usable ones of the entries, and no others. */
  lemma {:induction false} TokensAsked(entries: seq<TokenEntry>)
    ensures forall t :: t in ValidTokens(entries)
                        <==> exists i :: 0 <= i < |entries| && entries[i].token == Some(t) && t != ""
  {
    if entries != [] {
      var rest := entries[1..];
      TokensAsked(rest);
      forall t ensures t in ValidTokens(entries)
                       <==> exists i :: 0 <= i < |entries| && entries[i].token == Some(t) && t != ""
      {
        if i :| 0 <= i < |rest| && rest[i].token == Some(t) && t != "" {
          assert entries[i + 1].token == Some(t);
        }
        if i :| 0 < i < |entries| && entries[i].token == Some(t) && t != "" {
          assert rest[i - 1].token == Some(t);
        }
        assert entries[0].token == Some(t) && t != "" ==> t in ValidTokens(entries);
      }
    }
  }

  /** A submission is done exactly when it has a usable token and every usable token of it is reported with
      a final status: any of 3 to 14, accepted or not. */
  lemma DoneMeans(entries: seq<TokenEntry>, results: map<Token, Judge0Result>)
    ensures AllDone(entries, results)
            <==> (exists i :: 0 <= i < |entries| && entries[i].token.Some? && entries[i].token.value != "")
                 && (forall i :: 0 <= i < |entries| && entries[i].token.Some? && entries[i].token.value != "" ==>
                       entries[i].token.value in results && results[entries[i].token.value].statusId.Some?
                       && 3 <= results[entries[i].token.value].statusId.value <= 14)
  {
    TokensAsked(entries);
    var tokens := ValidTokens(entries);
    if AllDone(entries, results) {
      assert tokens[0] in tokens;
      forall i | 0 <= i < |entries| && entries[i].token.Some? && entries[i].token.value != ""
        ensures entries[i].token.value in results && IsTerminal(results[entries[i].token.value])
      {
        assert entries[i].token == Some(entries[i].token.value);
        assert entries[i].token.value in tokens;
      }
    } else {
      if |tokens| > 0 {
        var k :| 0 <= k < |tokens| && !(tokens[k] in results && IsTerminal(results[tokens[k]]));
        assert tokens[k] in tokens;
      } else {
        forall i | 0 <= i < |entries| ensures !(entries[i].token.Some? && entries[i].token.value != "") {
          if entries[i].token.Some? {
            assert entries[i].token == Some(entries[i].token.value);
          }
        }
      }
    }
  }

  /** No terminal result yet for the testcase. */
  predicate Unresolved(token: Option<Token>, results: map<Token, Judge0Result>) {
    ResultOf(results, token) == None || !IsTerminal(ResultOf(results, token).value)
  }

  /** persist's documentation promises TLE for every unresolved testcase of a timed-out submission.
      It holds exactly for those Judge0 reports nothing about: a testcase still queued or running
      is reported, and is recorded as SYSTEM_ERROR. */
  lemma TimedOutUnresolvedIff(testcase: Testcase, token: Option<Token>, results: map<Token, Judge0Result>,
                              passes: Strategy)
    requires Unresolved(token, results)
    ensures var row := RowFor(testcase, token, results, true, passes);
            (row.status == TLE <==> ResultOf(results, token) == None)
            && (row.status == SystemError <==> ResultOf(results, token) != None)
  {
  }

  // ----- the verdict that is shown -----

  /** The published verdict and Submission.status agree exactly when a row was written: with none
      left the published verdict is AC and the property says SYSTEM_ERROR. */
  lemma ShownAsPublishedIff(rows: seq<Row>)
    ensures ModelStatus(true, Statuses(rows)) == Some(FirstFailure(Statuses(rows))) <==> rows != []
    ensures FirstFailure(Statuses(rows)) == AC <==> CountOf(Statuses(rows), AC) == |rows|
    ensures rows == [] ==> FirstFailure(Statuses(rows)) == AC && ModelStatus(true, Statuses(rows)) == Some(SystemError)
  {
    AcceptedIffAllPass(Statuses(rows));
  }

  /** An early exit publishes its status without rows: only SYSTEM_ERROR reads back unchanged. */
  lemma EarlyExitShownIff(status: Status)
    ensures ModelStatus(true, Statuses([])) == Some(status) <==> status == SystemError
  {
    assert Statuses([]) == [];
  }
}
