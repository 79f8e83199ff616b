/** The aggregator: the report on a task graph that has been run. */
module Aggregators {
  import opened Common
  import opened TaskGraphs
  import opened TaskRuns
  import opened TaskManagement
  import opened TaskLedger
  import opened Texts

  datatype Line = Line(general: string, objective: string, status: Status, attempts: int,
                       result: Option<Value>, error: Option<string>)

  datatype Report = Report(objective: string, summary: string, action: Option<string>,
                           total: nat, completed: nat, failed: nat, breakdown: seq<Line>)

  /** What a result says under "answer" and under "action", if it is a dictionary and says anything. */
  datatype Reader = Reader(answer: Value -> Option<string>, action: Value -> Option<string>)

  function LineOf(task: Task): Line
    reads task
  {
    Line(task.owner, task.objective, task.status, task.attempts,
         if task.status == Completed then task.result else None, task.error)
  }

  lemma {:induction false} TakeNext<T>(s: seq<T>, k: nat)
    requires k < |s|
    ensures s[..k + 1] == s[..k] + [s[k]] && Elements(s[..k + 1]) == Elements(s[..k]) + {s[k]}
  {
  }

  /** The completed tasks among some keys. */
  ghost function DoneAmong(keys: seq<Id>, m: States): set<Id> {
    set t | t in keys && t in m && m[t].status == Completed
  }

  lemma {:induction false} DoneNext(keys: seq<Id>, m: States, k: nat)
    requires k < |keys| && Distinct(keys) && keys[k] in m
    ensures |DoneAmong(keys[..k + 1], m)| == |DoneAmong(keys[..k], m)| + if m[keys[k]].status == Completed then 1 else 0
  {
    TakeNext(keys, k);
    assert keys[k] !in keys[..k];
    if m[keys[k]].status == Completed {
      assert DoneAmong(keys[..k + 1], m) == DoneAmong(keys[..k], m) + {keys[k]};
    } else {
      assert DoneAmong(keys[..k + 1], m) == DoneAmong(keys[..k], m);
    }
  }

  lemma {:induction false} DoneAll(keys: seq<Id>, m: States)
    requires Elements(keys) == m.Keys
    ensures DoneAmong(keys[..|keys|], m) == WithStatus(m, Completed)
  {
    assert keys[..|keys|] == keys;
    forall t
      ensures t in DoneAmong(keys, m) <==> t in WithStatus(m, Completed)
    {
      assert t in keys <==> t in Elements(keys);
    }
  }

  // ------------------------------------------------------------------ answers and actions

  ghost predicate AreResults(graph: TaskGraph, results: seq<Option<Value>>)
    reads graph, graph.tasks.Values
  {
    && |results| == |graph.keys|
    && forall i :: 0 <= i < |results| ==>
       graph.keys[i] in graph.tasks && results[i] == graph.tasks[graph.keys[i]].result
  }

  /** The results of the tasks in creation order. */
  method Results(graph: TaskGraph) returns (results: seq<Option<Value>>)
    requires graph.Valid()
    ensures AreResults(graph, results)
  {
    results := [];
    for k := 0 to |graph.keys|
      invariant |results| == k
      invariant forall i :: 0 <= i < k ==>
                graph.keys[i] in graph.tasks && results[i] == graph.tasks[graph.keys[i]].result
    {
      assert graph.keys[k] in Elements(graph.keys);
      results := results + [graph.tasks[graph.keys[k]].result];
    }
  }

  function Says(result: Option<Value>, read: Value -> Option<string>): Option<string> {
    match result
    case Some(v) => read(v)
    case None => None
  }

  /** The answers there are, in order. */
  function Answers(results: seq<Option<Value>>, reader: Reader): seq<string> {
    if results == [] then []
    else
      Answers(results[..|results| - 1], reader) +
      match Says(results[|results| - 1], reader.answer) case Some(a) => [a] case None => []
  }

  ghost predicate SaysFirst(results: seq<Option<Value>>, read: Value -> Option<string>, k: nat) {
    k < |results| && Says(results[k], read) != None && forall i :: 0 <= i < k ==> Says(results[i], read) == None
  }

  /** The first action, for the app to open. */
  method FirstAction(results: seq<Option<Value>>, reader: Reader) returns (action: Option<string>)
    ensures action == None <==> forall i :: 0 <= i < |results| ==> Says(results[i], reader.action) == None
    ensures action != None ==>
            exists k: nat :: SaysFirst(results, reader.action, k) && action == Says(results[k], reader.action)
  {
    for k := 0 to |results|
      invariant forall i :: 0 <= i < k ==> Says(results[i], reader.action) == None
    {
      action := Says(results[k], reader.action);
      if action.Some? {
        assert SaysFirst(results, reader.action, k);
        return;
      }
    }
    action := None;
  }

  // ------------------------------------------------------------------ the summary

  function Decimal(n: nat): string {
    if n < 10 then [(48 + n) as char] else Decimal(n / 10) + [(48 + n % 10) as char]
  }

  /** The generals of the lines that are not completed. */
  function Failing(breakdown: seq<Line>): seq<string> {
    if breakdown == [] then []
    else
      var last := breakdown[|breakdown| - 1];
      Failing(breakdown[..|breakdown| - 1]) + if last.status == Completed then [] else [last.general]
  }

  function Summarize(objective: string, breakdown: seq<Line>, completed: nat, failed: nat): string {
    var parts := ["Objective: " + objective + ".",
                  Decimal(completed) + "/" + Decimal(completed + failed) + " subtasks completed."];
    Join(if failed > 0 then parts + ["Failed via: " + Join(Failing(breakdown), ", ") + "."] else parts, " ")
  }

  /** The answers, or without any an account of the run. */
  function Summary(objective: string, answers: seq<string>, breakdown: seq<Line>, completed: nat, failed: nat): string {
    if answers != [] then Join(answers, "\n\n") else Summarize(objective, breakdown, completed, failed)
  }

  /** As many generals are named as failing as there are steps that are not completed. */
  lemma {:induction false} FailingCount(breakdown: seq<Line>, completed: nat)
    requires completed == |CompletedLines(breakdown)|
    ensures |Failing(breakdown)| + completed == |breakdown|
  {
    if breakdown != [] {
      FailingCount(breakdown[..|breakdown| - 1], |CompletedLines(breakdown[..|breakdown| - 1])|);
    }
  }

  function CompletedLines(breakdown: seq<Line>): seq<Line> {
    if breakdown == [] then []
    else
      var last := breakdown[|breakdown| - 1];
      CompletedLines(breakdown[..|breakdown| - 1]) + if last.status == Completed then [last] else []
  }

  // ------------------------------------------------------------------ merge

  /**
   The lines of the report: counts the completed tasks and all others, and lists every task once in
   creation order.
   */
  method Breakdown(graph: TaskGraph) returns (completed: nat, failed: nat, breakdown: seq<Line>)
    requires graph.Valid()
    ensures |graph.keys| == |breakdown| == completed + failed
    ensures completed == |WithStatus(graph.Snapshot(), Completed)| == |CompletedLines(breakdown)|
    ensures forall i :: 0 <= i < |graph.keys| ==>
              graph.keys[i] in graph.tasks && breakdown[i] == LineOf(graph.tasks[graph.keys[i]])
  {
    completed, failed, breakdown := 0, 0, [];
    ghost var m := graph.Snapshot();
    for k := 0 to |graph.keys|
      invariant completed + failed == |breakdown| == k
      invariant completed == |DoneAmong(graph.keys[..k], m)| == |CompletedLines(breakdown)|
      invariant forall i :: 0 <= i < k ==>
                  graph.keys[i] in graph.tasks && breakdown[i] == LineOf(graph.tasks[graph.keys[i]])
    {
      assert graph.keys[k] in Elements(graph.keys);
      DoneNext(graph.keys, m, k);
      var line := LineOf(graph.tasks[graph.keys[k]]);
      assert (breakdown + [line])[..k] == breakdown;
      if line.status == Completed {
        completed := completed + 1;
      } else {
        failed := failed + 1;
      }
      breakdown := breakdown + [line];
    }
    DoneAll(graph.keys, m);
  }

  /** The action of a report is the first there is. */
  ghost predicate OpensFirst(results: seq<Option<Value>>, reader: Reader, action: Option<string>) {
    if action == None then forall i :: 0 <= i < |results| ==> Says(results[i], reader.action) == None
    else exists k: nat :: SaysFirst(results, reader.action, k) && action == Says(results[k], reader.action)
  }

  method Merge(objective: string, graph: TaskGraph, reader: Reader)
    returns (r: Report, ghost results: seq<Option<Value>>)
    requires graph.Valid()
    ensures AreResults(graph, results) && OpensFirst(results, reader, r.action)
    ensures r.summary == Summary(objective, Answers(results, reader), r.breakdown, r.completed, r.failed)
    ensures r.objective == objective && r.total == |graph.keys| == |r.breakdown| == r.completed + r.failed
    ensures r.completed == |WithStatus(graph.Snapshot(), Completed)| && r.failed == |Failing(r.breakdown)|
    ensures forall i :: 0 <= i < |graph.keys| ==>
              graph.keys[i] in graph.tasks && r.breakdown[i] == LineOf(graph.tasks[graph.keys[i]])
  {
    var ordered := Results(graph);
    results := ordered;
    var action := FirstAction(ordered, reader);
    var completed, failed, breakdown := Breakdown(graph);
    FailingCount(breakdown, completed);
    var summary := Summary(objective, Answers(ordered, reader), breakdown, completed, failed);
    r := Report(objective, summary, action, |graph.keys|, completed, failed, breakdown);
  }

  // ------------------------------------------------------------------ what the summary says

  predicate IsOpen(breakdown: seq<Line>, i: nat) {
    i < |breakdown| && breakdown[i].status != Completed
  }

  function Open(breakdown: seq<Line>): nat -> bool {
    (i: nat) => IsOpen(breakdown, i)
  }

  lemma {:induction false} FailingUpTo(breakdown: seq<Line>, n: nat)
    requires n <= |breakdown|
    ensures
      var ix := Positions(n, Open(breakdown));
      && |Failing(breakdown[..n])| == |ix|
      && forall k :: 0 <= k < |ix| ==>
           ix[k] < |breakdown| && Failing(breakdown[..n])[k] == breakdown[ix[k]].general
  {
    if n > 0 {
      FailingUpTo(breakdown, n - 1);
      assert breakdown[..n][..n - 1] == breakdown[..n - 1];
    }
  }

  /** The generals named are those of the lines that are not completed, in their order. */
  lemma {:induction false} FailingMeaning(breakdown: seq<Line>) returns (ix: seq<nat>)
    ensures Picks(ix, |breakdown|, Open(breakdown)) && |Failing(breakdown)| == |ix|
    ensures forall k :: 0 <= k < |ix| ==> ix[k] < |breakdown| && Failing(breakdown)[k] == breakdown[ix[k]].general
  {
    ix := Positions(|breakdown|, Open(breakdown));
    PositionsPick(|breakdown|, Open(breakdown));
    FailingUpTo(breakdown, |breakdown|);
    assert breakdown[..|breakdown|] == breakdown;
  }

  predicate HasAnswer(results: seq<Option<Value>>, reader: Reader, i: nat) {
    i < |results| && Says(results[i], reader.answer).Some?
  }

  function Answered(results: seq<Option<Value>>, reader: Reader): nat -> bool {
    (i: nat) => HasAnswer(results, reader, i)
  }

  lemma {:induction false} AnswersUpTo(results: seq<Option<Value>>, reader: Reader, n: nat)
    requires n <= |results|
    ensures
      var ix := Positions(n, Answered(results, reader));
      && |Answers(results[..n], reader)| == |ix|
      && forall k :: 0 <= k < |ix| ==>
           ix[k] < |results| && Some(Answers(results[..n], reader)[k]) == Says(results[ix[k]], reader.answer)
  {
    if n > 0 {
      AnswersUpTo(results, reader, n - 1);
      assert results[..n][..n - 1] == results[..n - 1];
    }
  }

  /** The answers are those of the results that have one, in their order. */
  lemma {:induction false} AnswersMeaning(results: seq<Option<Value>>, reader: Reader) returns (ix: seq<nat>)
    ensures Picks(ix, |results|, Answered(results, reader)) && |Answers(results, reader)| == |ix|
    ensures forall k :: 0 <= k < |ix| ==>
              ix[k] < |results| && Some(Answers(results, reader)[k]) == Says(results[ix[k]], reader.answer)
  {
    ix := Positions(|results|, Answered(results, reader));
    PositionsPick(|results|, Answered(results, reader));
    AnswersUpTo(results, reader, |results|);
    assert results[..|results|] == results;
  }

  /** The number some numerals stand for. */
  function NumberOf(numerals: string): int {
    if numerals == "" then 0
    else NumberOf(numerals[..|numerals| - 1]) * 10 + (numerals[|numerals| - 1] as int - '0' as int)
  }

  /** A number is written in numerals, without leading zeros. */
  lemma {:induction false} DecimalMeaning(n: nat)
    ensures NumberOf(Decimal(n)) == n && Decimal(n) != ""
    ensures forall c :: c in Decimal(n) ==> '0' <= c <= '9'
    ensures n > 0 ==> Decimal(n)[0] != '0'
  {
    if n < 10 {
      assert Decimal(n)[..0] == "";
      assert NumberOf("") == 0;
    } else {
      DecimalMeaning(n / 10);
      var front, last := Decimal(n / 10), (48 + n % 10) as char;
      assert (front + [last])[..|front|] == front;
      assert forall c :: c in front + [last] ==> c in front || c == last;
    }
  }

  /** Without any answer, the summary accounts for the run; with answers, it is the answers. */
  lemma {:induction false} SummaryMeaning(objective: string, answers: seq<string>, breakdown: seq<Line>,
                                          completed: nat, failed: nat)
    ensures
      var goal := "Objective: " + objective + ".";
      var count := Decimal(completed) + "/" + Decimal(completed + failed) + " subtasks completed.";
      var failing := "Failed via: " + Join(Failing(breakdown), ", ") + ".";
      Summary(objective, answers, breakdown, completed, failed) ==
      if answers != [] then Join(answers, "\n\n")
      else if failed == 0 then goal + " " + count
      else goal + " " + count + " " + failing
  {
    var goal := "Objective: " + objective + ".";
    var count := Decimal(completed) + "/" + Decimal(completed + failed) + " subtasks completed.";
    var failing := "Failed via: " + Join(Failing(breakdown), ", ") + ".";
    JoinTwo(goal, count, " ");
    JoinThree(goal, count, failing, " ");
  }

  lemma {:induction false} JoinTwo(a: string, b: string, sep: string)
    ensures Join([a, b], sep) == a + sep + b
  {
    assert [a, b][1..] == [b];
  }

  lemma {:induction false} JoinThree(a: string, b: string, c: string, sep: string)
    ensures Join([a, b, c], sep) == a + sep + b + sep + c
    ensures [a, b] + [c] == [a, b, c]
  {
    assert [a, b, c][1..] == [b, c];
    JoinTwo(b, c, sep);
    assert a + sep + (b + sep + c) == a + sep + b + sep + c;
  }
}
