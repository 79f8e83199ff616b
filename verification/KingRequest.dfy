/**
 A request to the king from end to end: recall, plan, run, report with the monitor's
 snapshot, and remember the exchange.
 */
module KingRequests {
  import opened ClauseCuts
  import opened Planning
  import opened TaskManagement
  import opened Aggregators
  import opened Embeddings
  import opened Memories
  import opened MemoryObjects
  import opened TaskGraphs
  import T = TaskRuns
  import B = EventBuses
  import K = King
  import M = Monitors
  import L = ProgressLedger

  /** What the king answers: the merged report and, under "progress", the monitor's snapshot. */
  datatype Response = Response(report: Report, progress: M.ProgressReport)

  /** The scope and owner of what is remembered. */
  function Conversation(owner: string): Tag {
    Tag("conversation", owner)
  }

  /** The record of a request and its summary. */
  function Exchange(id: string, owner: string, objective: string, summary: string, now: real): Record {
    Record(id, "conversation", owner, "exchange", "Q: " + objective + "\nA: " + summary, "{}", now)
  }

  /** These are the events that reach the monitor of a request with this log, on a bus that drains. */
  ghost predicate Reaches(heard: seq<(T.Topic, B.Payload)>, log: seq<T.Event>, maxRetries: int, before: seq<B.Action>,
                          group: B.Group, rest: seq<B.Action>) {
    var n := |B.Run(B.NewBus(maxRetries), before).subs|;
    && L.Watched(maxRetries, before, group, rest, log)
    && heard == L.Heard(maxRetries, before + L.Subscribing(L.WatchKeys(group)) + rest, n)
  }

  /** A monitor that is handed some events, one after the other. */
  method Watch(heard: seq<(T.Topic, B.Payload)>) returns (p: M.ProgressReport)
    ensures p == M.Tallies(heard)
  {
    var m := new M.ProgressMonitor<B.Payload>();
    L.RunHandlers(m, heard);
    assert m.events == heard;
    p := m.Snapshot();
  }

  /** Plans, runs and reports while the monitor hears `heard`. */
  method Serve(objective: string, sp: Splitter, rt: Router, uuid: nat -> Id, replies: K.Replies, reader: Reader,
               tm: TaskManager, heard: seq<(T.Topic, B.Payload)>)
    returns (response: Response, ghost q: K.Request, ghost f: nat)
    requires forall i: nat, j: nat :: i < j ==> uuid(i) != uuid(j)
    modifies tm
    ensures Served(response, objective, sp, rt, replies, reader, heard, q, f)
    ensures tm.log == old(tm.log) + q.end.log
  {
    var report;
    report, q, f := K.PlanAndRun(objective, sp, rt, uuid, replies, reader, tm);
    var progress := Watch(heard);
    response := Response(report, progress);
  }

  /**
   The report is that of a finished run of the objective's plan, whose first undelivered
   group `f` decides how every step ends; the progress is the snapshot of a monitor that
   heard `heard`.
   */
  ghost predicate Served(response: Response, objective: string, sp: Splitter, rt: Router, replies: K.Replies,
                         reader: Reader, heard: seq<(T.Topic, B.Payload)>, q: K.Request, f: nat) {
    && K.RanThrough(q, objective, sp, rt, replies)
    && K.ReportBalances(response.report, q.end) && K.ReportsOn(response.report, q, objective, reader)
    && K.FirstUndelivered(replies, q.ids, PlanClauses(sp, objective), PlanDepth(sp, objective), f)
    && (forall i :: 0 <= i < |q.ids| ==> K.StepEnds(PlanClauses(sp, objective), q.ids, replies, q.end, f, i))
    && (forall i :: 0 <= i < |q.ids| ==>
         K.LineTells(response.report.breakdown[i], q, PlanClauses(sp, objective), replies, i))
    && response.progress == M.Tallies(heard)
  }

  /** If what the monitor heard is what the bus carried of the run, the progress balances and matches the report. */
  lemma {:induction false} ProgressMatchesReport(response: Response, objective: string, sp: Splitter, rt: Router,
                                                 replies: K.Replies, reader: Reader,
                                                 heard: seq<(T.Topic, B.Payload)>, q: K.Request, f: nat,
                                                 maxRetries: int, before: seq<B.Action>, group: B.Group,
                                                 rest: seq<B.Action>)
    requires Served(response, objective, sp, rt, replies, reader, heard, q, f)
    requires Reaches(heard, q.end.log, maxRetries, before, group, rest)
    ensures L.TalliesMatch(response.progress, response.report, q.end)
  {
    L.TalliesMatchReport(maxRetries, before, group, rest, response.report, q.end);
  }

  /** What is recalled for a request. */
  function ContextOf(table: seq<Record>, embed: Embedder, objective: string, owner: string, round: real -> real)
    : seq<Found>
  {
    Rounded(TableRecall(table, embed, objective, Conversation(owner), 5), round)
  }

  /**
   The context of a request: at most five records, and all there are when they are fewer,
   of the owner's conversation, each with the rounded score of its content against the
   objective; and none left out scores better than one that is there.
   */
  lemma {:induction false} ContextIsTopFive(table: seq<Record>, embed: Embedder, objective: string, owner: string,
                                            round: real -> real, r: Record)
    ensures
      var context := ContextOf(table, embed, objective, owner, round);
      var score := Dot(embed(objective), embed(r.content));
      var owned := r in table && r.scope == "conversation" && r.owner == owner;
      && |context| == (if |WithTag(table, Tag("conversation", owner))| < 5
                       then |WithTag(table, Tag("conversation", owner))| else 5)
      && (forall i :: 0 <= i < |context| && context[i].record == r ==> owned && context[i].score == round(score))
      && (owned && (forall i :: 0 <= i < |context| ==> context[i].record != r) ==>
          forall i :: 0 <= i < |context| ==> Dot(embed(objective), embed(context[i].record.content)) >= score)
  {
    var tag := Tag("conversation", owner);
    var top := TableRecall(table, embed, objective, tag, 5);
    RecallIsTopK(table, embed, objective, tag, 5, r);
    AsManyMatch(table, embed, objective, tag);
    forall i | 0 <= i < |top|
      ensures top[i].score == Dot(embed(objective), embed(top[i].record.content))
      ensures top[i].record in table && Tag(top[i].record.scope, top[i].record.owner) == tag
    {
      RecalledMember(table, embed, objective, tag, 5, top[i]);
    }
  }

  /**
   `execute`.  The memory, if there is one, is asked for the best five of the owner's
   conversation before and gains the exchange after; the planner does not use the context.
   */
  method Execute(objective: string, owner: string, sp: Splitter, rt: Router, uuid: nat -> Id, replies: K.Replies,
                 reader: Reader, tm: TaskManager, memory: MemoryManager?, round: real -> real, id: string, now: real,
                 heard: seq<(T.Topic, B.Payload)>)
    returns (response: Response, context: seq<Found>, ghost q: K.Request, ghost f: nat)
    requires forall i: nat, j: nat :: i < j ==> uuid(i) != uuid(j)
    requires memory != null ==> memory.Valid()
    modifies tm, if memory == null then {} else {memory.longTerm, memory.semantic}
    ensures Served(response, objective, sp, rt, replies, reader, heard, q, f)
    ensures tm.log == old(tm.log) + q.end.log
    ensures memory == null ==> context == []
    ensures memory != null ==>
      (memory.Valid()
       && context == ContextOf(old(Table(memory.Model().rows)), memory.semantic.embed, objective, owner, round)
       && Table(memory.Model().rows) ==
          TableRemember(old(Table(memory.Model().rows)),
                        Record(id, "conversation", owner, "exchange",
                               "Q: " + objective + "\nA: " + response.report.summary, "{}", now)))
  {
    context := [];
    if memory != null {
      context := memory.Recall(objective, Conversation(owner), 5, round);
    }
    response, q, f := Serve(objective, sp, rt, uuid, replies, reader, tm, heard);
    assert memory != null ==> memory.Model() == old(memory.Model());
    if memory != null {
      memory.Remember(Exchange(id, owner, objective, response.report.summary, now));
    }
  }
}
