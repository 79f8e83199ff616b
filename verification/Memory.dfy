/**
 The memory façade over two stores, as values, and the one table it stands for.
 */
module Memories {
  import opened Common
  import opened Dicts
  import opened Rankings
  import opened Embeddings

  datatype Record = Record(id: string, scope: string, owner: string, kind: string, content: string, metadata: string,
                           ts: real)
  datatype Tag = Tag(scope: string, owner: string)
  datatype Hit = Hit(id: string, score: real)
  datatype Found = Found(record: Record, score: real)

  type Embedder = string -> seq<real>

  datatype Memory = Memory(rows: Dict<Record>, vectors: Dict<seq<real>>, tags: Dict<Tag>)

  function Blank(): Memory {
    Memory(Empty(), Empty(), Empty())
  }

  function Remembered(m: Memory, embed: Embedder, r: Record): Memory {
    Memory(Put(m.rows, r.id, r), Put(m.vectors, r.id, embed(r.content)), Put(m.tags, r.id, Tag(r.scope, r.owner)))
  }

  function Forgotten(m: Memory, id: string): Memory {
    Memory(Pop(m.rows, id), Pop(m.vectors, id), Pop(m.tags, id))
  }

  /** The scored ids with a tag, in index order. */
  function Candidates(keys: seq<string>, vectors: map<string, seq<real>>, tags: map<string, Tag>, qv: seq<real>,
                      tag: Tag): seq<Hit> {
    if keys == [] then []
    else
      var id := keys[|keys| - 1];
      Candidates(keys[..|keys| - 1], vectors, tags, qv, tag) +
      if id in vectors && id in tags && tags[id] == tag then [Hit(id, Dot(qv, vectors[id]))] else []
  }

  function ScoreOf(h: Hit): real { h.score }

  function Searched(vectors: Dict<seq<real>>, tags: Dict<Tag>, qv: seq<real>, tag: Tag, k: int): seq<Hit> {
    Prefix(Ranked(Candidates(vectors.keys, vectors.at, tags.at, qv, tag), ScoreOf), k)
  }

  /** `hydrate`: the rows of the hits, in their order, without the ids that have none. */
  function RowsOf(rows: map<string, Record>, hits: seq<Hit>): seq<Record> {
    if hits == [] then []
    else
      var last := hits[|hits| - 1];
      RowsOf(rows, hits[..|hits| - 1]) + if last.id in rows then [rows[last.id]] else []
  }

  lemma {:induction false} RowsOfAll(rows: map<string, Record>, hits: seq<Hit>)
    requires forall i :: 0 <= i < |hits| ==> hits[i].id in rows
    ensures |RowsOf(rows, hits)| == |hits|
    ensures forall i :: 0 <= i < |hits| ==> RowsOf(rows, hits)[i] == rows[hits[i].id]
  {
    if hits != [] {
      RowsOfAll(rows, hits[..|hits| - 1]);
    }
  }

  // ------------------------------------------------------------------ one table

  /** The live records, oldest id first. */
  function Table(rows: Dict<Record>): seq<Record> {
    Map(rows.keys, RowAt(rows.at))
  }

  const NOBODY := Record("", "", "", "", "", "", 0.0)

  function RowAt(rows: map<string, Record>): string -> Record {
    (id: string) => if id in rows then rows[id] else NOBODY
  }

  function Ids(table: seq<Record>): seq<string> {
    Map(table, (r: Record) => r.id)
  }

  /** Remembering in one table: a new record goes last, an old id is overwritten where it is. */
  function TableRemember(table: seq<Record>, r: Record): seq<Record> {
    if r.id in Ids(table) then Map(table, (t: Record) => if t.id == r.id then r else t) else table + [r]
  }

  function TableForget(table: seq<Record>, id: string): seq<Record> {
    if table == [] then []
    else TableForget(table[..|table| - 1], id) + if table[|table| - 1].id == id then [] else [table[|table| - 1]]
  }

  /** The records with a tag, scored against a query. */
  function Matching(table: seq<Record>, embed: Embedder, query: string, tag: Tag): seq<Found> {
    if table == [] then []
    else
      var r := table[|table| - 1];
      Matching(table[..|table| - 1], embed, query, tag) +
      if Tag(r.scope, r.owner) == tag then [Found(r, Dot(embed(query), embed(r.content)))] else []
  }

  function FoundScore(f: Found): real { f.score }

  /** What recall hands out: the records with their scores rounded. */
  function Rounded(found: seq<Found>, round: real -> real): seq<Found> {
    Map(found, (f: Found) => Found(f.record, round(f.score)))
  }

  function TableRecall(table: seq<Record>, embed: Embedder, query: string, tag: Tag, k: int): seq<Found> {
    Prefix(Ranked(Matching(table, embed, query, tag), FoundScore), k)
  }

  function WithTag(table: seq<Record>, tag: Tag): seq<Record> {
    if table == [] then []
    else
      var r := table[|table| - 1];
      WithTag(table[..|table| - 1], tag) + if Tag(r.scope, r.owner) == tag then [r] else []
  }

  function TimeOf(r: Record): real { r.ts }

  /** The latest records of a scope and owner, newest first. */
  function TableHistory(table: seq<Record>, tag: Tag, limit: int): seq<Record> {
    Prefix(Ranked(WithTag(table, tag), TimeOf), limit)
  }

  // ------------------------------------------------------------------ the two stores agree

  ghost predicate InSync(m: Memory, embed: Embedder) {
    && WellKeyed(m.rows) && WellKeyed(m.vectors) && WellKeyed(m.tags)
    && m.vectors.keys == m.rows.keys && m.tags.keys == m.rows.keys
    && (forall id :: id in m.rows.at ==> RowAgrees(m, embed, id))
  }

  ghost predicate RowAgrees(m: Memory, embed: Embedder, id: string)
    requires id in m.rows.at
  {
    var r := m.rows.at[id];
    && r.id == id
    && id in m.vectors.at && m.vectors.at[id] == embed(r.content)
    && id in m.tags.at && m.tags.at[id] == Tag(r.scope, r.owner)
  }

  lemma {:induction false} RememberKeepsSync(m: Memory, embed: Embedder, r: Record)
    requires InSync(m, embed)
    ensures InSync(Remembered(m, embed, r), embed)
  {
    PutKeepsKeyed(m.rows, r.id, r);
    PutKeepsKeyed(m.vectors, r.id, embed(r.content));
    PutKeepsKeyed(m.tags, r.id, Tag(r.scope, r.owner));
    var n := Remembered(m, embed, r);
    assert r.id in m.rows.at <==> r.id in m.vectors.at;
    assert r.id in m.rows.at <==> r.id in m.tags.at;
    forall id | id in n.rows.at
      ensures RowAgrees(n, embed, id)
    {
      if id != r.id {
        assert RowAgrees(m, embed, id);
      }
    }
  }

  lemma {:induction false} ForgetKeepsSync(m: Memory, embed: Embedder, id: string)
    requires InSync(m, embed)
    ensures InSync(Forgotten(m, id), embed)
  {
    PopKeepsKeyed(m.rows, id);
    PopKeepsKeyed(m.vectors, id);
    PopKeepsKeyed(m.tags, id);
    var n := Forgotten(m, id);
    forall x | x in n.rows.at
      ensures RowAgrees(n, embed, x)
    {
      assert RowAgrees(m, embed, x);
    }
  }

  // ------------------------------------------------------------------ and stand for the table

  lemma {:induction false} IdsOfTable(keys: seq<string>, rows: map<string, Record>)
    requires forall id :: id in keys ==> id in rows && rows[id].id == id
    ensures Ids(Map(keys, RowAt(rows))) == keys
  {
  }

  lemma {:induction false} RememberIsTableRemember(m: Memory, embed: Embedder, r: Record)
    requires InSync(m, embed)
    ensures Table(Remembered(m, embed, r).rows) == TableRemember(Table(m.rows), r)
  {
    forall id | id in m.rows.keys
      ensures id in m.rows.at && m.rows.at[id].id == id
    {
      assert RowAgrees(m, embed, id);
    }
    IdsOfTable(m.rows.keys, m.rows.at);
    if r.id in m.rows.at {
      OverwriteInTable(m.rows.keys, m.rows.at, r);
    } else {
      AppendToTable(m.rows.keys, m.rows.at, r);
    }
  }

  lemma {:induction false} OverwriteInTable(keys: seq<string>, rows: map<string, Record>, r: Record)
    requires forall id :: id in keys ==> id in rows && rows[id].id == id
    ensures Map(keys, RowAt(rows[r.id := r])) ==
            Map(Map(keys, RowAt(rows)), (t: Record) => if t.id == r.id then r else t)
  {
    var after := Map(keys, RowAt(rows[r.id := r]));
    var swapped := Map(Map(keys, RowAt(rows)), (t: Record) => if t.id == r.id then r else t);
    forall i | 0 <= i < |keys|
      ensures after[i] == swapped[i]
    {
      assert keys[i] in keys;
    }
  }

  lemma {:induction false} AppendToTable(keys: seq<string>, rows: map<string, Record>, r: Record)
    requires r.id !in rows && forall id :: id in keys ==> id in rows
    ensures Map(keys + [r.id], RowAt(rows[r.id := r])) == Map(keys, RowAt(rows)) + [r]
  {
    var put := rows[r.id := r];
    forall i | 0 <= i < |keys|
      ensures Map(keys, RowAt(put))[i] == Map(keys, RowAt(rows))[i]
    {
      assert keys[i] in keys;
    }
    MapAppend(keys, r.id, RowAt(put));
  }

  lemma {:induction false} TableWithout(keys: seq<string>, rows: map<string, Record>, id: string)
    requires forall k :: k in keys ==> k in rows && rows[k].id == k
    ensures Map(Without(keys, id), RowAt(rows - {id})) == TableForget(Map(keys, RowAt(rows)), id)
  {
    if keys != [] {
      var n := |keys| - 1;
      var front, last := keys[..n], keys[n];
      TableWithout(front, rows, id);
      assert Map(keys, RowAt(rows))[..n] == Map(front, RowAt(rows));
      if last != id {
        MapAppend(Without(front, id), last, RowAt(rows - {id}));
      }
    }
  }

  lemma {:induction false} ForgetIsTableForget(m: Memory, embed: Embedder, id: string)
    requires InSync(m, embed)
    ensures Table(Forgotten(m, id).rows) == TableForget(Table(m.rows), id)
  {
    forall k | k in m.rows.keys
      ensures k in m.rows.at && m.rows.at[k].id == k
    {
      assert RowAgrees(m, embed, k);
    }
    TableWithout(m.rows.keys, m.rows.at, id);
  }

  // ------------------------------------------------------------------ recall

  /** A hit with its record. */
  function Hydrate(rows: map<string, Record>): Hit -> Found {
    (h: Hit) => Found(RowAt(rows)(h.id), h.score)
  }

  /** A hit of the index is a row of the other store with the score of its content. */
  predicate Genuine(h: Hit, rows: map<string, Record>, vectors: map<string, seq<real>>, qv: seq<real>) {
    h.id in rows && h.id in vectors && h.score == Dot(qv, vectors[h.id])
  }

  lemma {:induction false} CandidatesMatch(keys: seq<string>, m: Memory, embed: Embedder, query: string, tag: Tag)
    requires forall id :: id in keys ==> id in m.rows.at && RowAgrees(m, embed, id)
    ensures
      var hits := Candidates(keys, m.vectors.at, m.tags.at, embed(query), tag);
      && Map(hits, Hydrate(m.rows.at)) == Matching(Map(keys, RowAt(m.rows.at)), embed, query, tag)
      && forall i :: 0 <= i < |hits| ==> Genuine(hits[i], m.rows.at, m.vectors.at, embed(query))
  {
    if keys != [] {
      var n := |keys| - 1;
      var id := keys[n];
      CandidatesMatch(keys[..n], m, embed, query, tag);
      assert id in keys && RowAgrees(m, embed, id);
      assert Map(keys, RowAt(m.rows.at))[..n] == Map(keys[..n], RowAt(m.rows.at));
      var hits := Candidates(keys[..n], m.vectors.at, m.tags.at, embed(query), tag);
      MapAppend(hits, Hit(id, Dot(embed(query), m.vectors.at[id])), Hydrate(m.rows.at));
    }
  }

  lemma {:induction false} PrefixMaps<A, B>(s: seq<A>, f: A -> B, k: int)
    ensures Map(Prefix(s, k), f) == Prefix(Map(s, f), k)
  {
  }

  /**
   Searching the index and fetching the rows of the hits gives what the one table
   gives: the first `k` of its matching records by score, oldest first among equals.
   Every hit has its row, so nothing is lost on the way.
   */
  lemma {:induction false} SearchIsTableRecall(m: Memory, embed: Embedder, query: string, tag: Tag, k: int)
    requires InSync(m, embed)
    ensures
      var hits := Searched(m.vectors, m.tags, embed(query), tag, k);
      && Map(hits, Hydrate(m.rows.at)) == TableRecall(Table(m.rows), embed, query, tag, k)
      && forall i :: 0 <= i < |hits| ==> Genuine(hits[i], m.rows.at, m.vectors.at, embed(query))
  {
    var all := Candidates(m.vectors.keys, m.vectors.at, m.tags.at, embed(query), tag);
    CandidatesMatch(m.vectors.keys, m, embed, query, tag);
    RankedMaps(all, Hydrate(m.rows.at), ScoreOf, FoundScore);
    PrefixMaps(Ranked(all, ScoreOf), Hydrate(m.rows.at), k);
    var hits := Searched(m.vectors, m.tags, embed(query), tag, k);
    forall i | 0 <= i < |hits|
      ensures Genuine(hits[i], m.rows.at, m.vectors.at, embed(query))
    {
      assert hits[i] == Ranked(all, ScoreOf)[i];
      RankedMember(all, ScoreOf, hits[i]);
    }
  }

  // ------------------------------------------------------------------ whole runs

  datatype Op = Remember(record: Record) | Forget(id: string)

  function Run(embed: Embedder, ops: seq<Op>): Memory {
    if ops == [] then Blank()
    else
      var m := Run(embed, ops[..|ops| - 1]);
      match ops[|ops| - 1]
      case Remember(r) => Remembered(m, embed, r)
      case Forget(id) => Forgotten(m, id)
  }

  function TableRun(ops: seq<Op>): seq<Record> {
    if ops == [] then []
    else
      var t := TableRun(ops[..|ops| - 1]);
      match ops[|ops| - 1]
      case Remember(r) => TableRemember(t, r)
      case Forget(id) => TableForget(t, id)
  }

  /** After any run the two stores agree, and the façade is the one table. */
  lemma {:induction false} StoresAreOneTable(embed: Embedder, ops: seq<Op>)
    ensures InSync(Run(embed, ops), embed) && Table(Run(embed, ops).rows) == TableRun(ops)
  {
    if ops != [] {
      StoresAreOneTable(embed, ops[..|ops| - 1]);
      var m := Run(embed, ops[..|ops| - 1]);
      match ops[|ops| - 1] {
        case Remember(r) =>
          RememberKeepsSync(m, embed, r);
          RememberIsTableRemember(m, embed, r);
        case Forget(id) =>
          ForgetKeepsSync(m, embed, id);
          ForgetIsTableForget(m, embed, id);
      }
    }
  }

  // ------------------------------------------------------------------ what the table gives

  lemma {:induction false} MatchingMember(table: seq<Record>, embed: Embedder, query: string, tag: Tag, f: Found)
    ensures f in Matching(table, embed, query, tag) <==>
            f.record in table && Tag(f.record.scope, f.record.owner) == tag
            && f.score == Dot(embed(query), embed(f.record.content))
  {
    if table != [] {
      var n := |table| - 1;
      MatchingMember(table[..n], embed, query, tag, f);
      assert table == table[..n] + [table[n]];
    }
  }

  /**
   Recall is a top-k: it returns live records of its scope and owner only, as many as
   there are up to `k`, best first, and none left out scores better than one returned.
   */
  lemma {:induction false} RecallIsTopK(table: seq<Record>, embed: Embedder, query: string, tag: Tag, k: nat, r: Record)
    ensures
      var all := Matching(table, embed, query, tag);
      var top := TableRecall(table, embed, query, tag, k);
      var f := Found(r, Dot(embed(query), embed(r.content)));
      && |top| == (if k <= |all| then k else |all|)
      && Descending(top, FoundScore)
      && (f in top ==> r in table && Tag(r.scope, r.owner) == tag)
      && (r in table && Tag(r.scope, r.owner) == tag && f !in top ==>
         forall i :: 0 <= i < |top| ==> top[i].score >= f.score)
  {
    var all := Matching(table, embed, query, tag);
    var ranked := Ranked(all, FoundScore);
    var f := Found(r, Dot(embed(query), embed(r.content)));
    RankedIsStableSort(all, FoundScore);
    MatchingMember(table, embed, query, tag, f);
    RankedMember(all, FoundScore, f);
    if f in ranked && f !in Prefix(ranked, k) {
      var i :| 0 <= i < |ranked| && ranked[i] == f;
      var top := Prefix(ranked, k);
      assert forall j :: 0 <= j < |top| ==> top[j] == ranked[j] && top[j] in top;
      forall j | 0 <= j < |top|
        ensures top[j].score >= f.score
      {
        assert FoundScore(ranked[j]) >= FoundScore(ranked[i]);
      }
    }
  }

  lemma {:induction false} RecalledMember(table: seq<Record>, embed: Embedder, query: string, tag: Tag, k: int,
                                          f: Found)
    requires f in TableRecall(table, embed, query, tag, k)
    ensures f.record in table && Tag(f.record.scope, f.record.owner) == tag
    ensures f.score == Dot(embed(query), embed(f.record.content))
  {
    var all := Matching(table, embed, query, tag);
    RankedMember(all, FoundScore, f);
    MatchingMember(table, embed, query, tag, f);
  }

  lemma {:induction false} AsManyMatch(table: seq<Record>, embed: Embedder, query: string, tag: Tag)
    ensures |Matching(table, embed, query, tag)| == |WithTag(table, tag)|
  {
    if table != [] {
      AsManyMatch(table[..|table| - 1], embed, query, tag);
    }
  }

  lemma {:induction false} ForgetDrops(table: seq<Record>, id: string, r: Record)
    ensures r in TableForget(table, id) <==> r in table && r.id != id
  {
    if table != [] {
      var n := |table| - 1;
      ForgetDrops(table[..n], id, r);
      assert table == table[..n] + [table[n]];
    }
  }

  /** What was forgotten is not recalled again, whatever the query, scope and number asked for. */
  lemma {:induction false} ForgottenIsNotRecalled(table: seq<Record>, id: string, embed: Embedder, query: string,
                                                  tag: Tag, k: int, f: Found)
    requires f in TableRecall(TableForget(table, id), embed, query, tag, k)
    ensures f.record.id != id && f.record in table
  {
    var left := TableForget(table, id);
    var all := Matching(left, embed, query, tag);
    RankedMember(all, FoundScore, f);
    MatchingMember(left, embed, query, tag, f);
    ForgetDrops(table, id, f.record);
  }

  // ------------------------------------------------------------------ the order of the history

  ghost predicate Ascending(records: seq<Record>) {
    forall i, j :: 0 <= i <= j < |records| ==> records[i].ts <= records[j].ts
  }

  /** All of them carry the same time stamp. */
  ghost predicate Simultaneous(records: seq<Record>) {
    forall r, s :: r in records && s in records ==> r.ts == s.ts
  }

  lemma {:induction false} WithTagMember(table: seq<Record>, tag: Tag, r: Record)
    ensures r in WithTag(table, tag) <==> r in table && Tag(r.scope, r.owner) == tag
  {
    if table != [] {
      var n := |table| - 1;
      WithTagMember(table[..n], tag, r);
      assert table == table[..n] + [table[n]];
    }
  }

  /**
   The history is newest first, whatever the limit.  So it is also chronological if and
   only if all records it returns carry the same time stamp; and when the limit leaves
   none out, if and only if all records of that scope and owner do.
   */
  lemma {:induction false} HistoryIsNewestFirst(table: seq<Record>, tag: Tag, limit: int)
    ensures
      var history := TableHistory(table, tag, limit);
      && Descending(history, TimeOf)
      && (Ascending(history) <==> Simultaneous(history))
      && (limit >= |WithTag(table, tag)| ==> (Ascending(history) <==> Simultaneous(WithTag(table, tag))))
  {
    var all := WithTag(table, tag);
    var ranked := Ranked(all, TimeOf);
    RankedIsStableSort(all, TimeOf);
    DescendingIsAscending(TableHistory(table, tag, limit));
    if limit >= |all| {
      assert TableHistory(table, tag, limit) == ranked;
      forall r: Record
        ensures r in ranked <==> r in all
      {
        RankedMember(all, TimeOf, r);
      }
    }
  }

  /** At least `n` of them carry the latest time stamp. */
  ghost predicate LatestAtLeast(records: seq<Record>, n: nat) {
    exists r :: r in records && (forall s :: s in records ==> s.ts <= r.ts) && |WithKey(records, TimeOf, r.ts)| >= n
  }

  lemma {:induction false} FirstIsLatest(all: seq<Record>, r: Record)
    requires all != [] && r in all
    ensures Ranked(all, TimeOf)[0] in all && r.ts <= Ranked(all, TimeOf)[0].ts
  {
    var ranked := Ranked(all, TimeOf);
    RankedIsStableSort(all, TimeOf);
    RankedMember(all, TimeOf, ranked[0]);
    RankedMember(all, TimeOf, r);
    var i :| 0 <= i < |ranked| && ranked[i] == r;
    assert TimeOf(ranked[0]) >= TimeOf(ranked[i]);
  }

  lemma {:induction false} LatestIsFront(all: seq<Record>, n: nat)
    requires 1 <= n <= |all|
    ensures LatestAtLeast(all, n) <==> Ranked(all, TimeOf)[n - 1].ts == Ranked(all, TimeOf)[0].ts
  {
    var ranked := Ranked(all, TimeOf);
    RankedIsStableSort(all, TimeOf);
    FirstKeyIsFront(ranked, TimeOf, n);
    assert WithKey(ranked, TimeOf, ranked[0].ts) == WithKey(all, TimeOf, ranked[0].ts);
    forall r | r in all
      ensures ranked[0] in all && r.ts <= ranked[0].ts
    {
      FirstIsLatest(all, r);
    }
    assert all[0] in all && ranked[0] in all;
  }

  /**
   The history is chronological if and only if it is empty or the records of that scope
   and owner with the latest time stamp are at least as many as it returns.
   */
  lemma {:induction false} HistoryIsChronologicalExactlyWhen(table: seq<Record>, tag: Tag, limit: int)
    ensures
      var all := WithTag(table, tag);
      var n := |Prefix(all, limit)|;
      Ascending(TableHistory(table, tag, limit)) <==> n == 0 || LatestAtLeast(all, n)
  {
    var all := WithTag(table, tag);
    var ranked, n := Ranked(all, TimeOf), |Prefix(all, limit)|;
    var history := TableHistory(table, tag, limit);
    RankedIsStableSort(all, TimeOf);
    assert |history| == n && forall i :: 0 <= i < n ==> history[i] == ranked[i];
    if n > 0 {
      LatestIsFront(all, n);
      AscendingEnds(history);
    }
  }

  lemma {:induction false} AscendingEnds(records: seq<Record>)
    requires records != [] && forall i, j :: 0 <= i <= j < |records| ==> TimeOf(records[i]) >= TimeOf(records[j])
    ensures Ascending(records) <==> records[|records| - 1].ts == records[0].ts
  {
    forall i | 0 <= i < |records|
      ensures TimeOf(records[0]) >= TimeOf(records[i]) >= TimeOf(records[|records| - 1])
    {
    }
  }

  /** Two records, remembered one after the other, come back the other way round. */
  lemma {:induction false} HistoryIsNotChronological(a: Record, b: Record, tag: Tag)
    requires Tag(a.scope, a.owner) == Tag(b.scope, b.owner) == tag && a.ts < b.ts
    ensures TableHistory([a, b], tag, 50) == [b, a] && !Ascending([b, a])
  {
    assert [a, b][..1] == [a] && [a][..0] == [];
    assert WithTag([a], tag) == [a] && WithTag([a, b], tag) == [a, b];
    assert Ranked([a], TimeOf) == [a] && Ranked([a, b], TimeOf) == Place([a], b, TimeOf) == [b, a];
    assert [b, a][0].ts > [b, a][1].ts;
  }

  lemma {:induction false} DescendingIsAscending(records: seq<Record>)
    requires forall i, j :: 0 <= i <= j < |records| ==> records[i].ts >= records[j].ts
    ensures Ascending(records) <==> Simultaneous(records)
  {
    if Ascending(records) {
      forall r, s | r in records && s in records
        ensures r.ts == s.ts
      {
        var i :| 0 <= i < |records| && records[i] == r;
        var j :| 0 <= j < |records| && records[j] == s;
        assert records[0].ts >= records[i].ts >= records[|records| - 1].ts;
        assert records[0].ts >= records[j].ts >= records[|records| - 1].ts;
      }
    }
    if Simultaneous(records) {
      forall i, j | 0 <= i <= j < |records|
        ensures records[i].ts <= records[j].ts
      {
        assert records[i] in records && records[j] in records;
      }
    }
  }

  /** It holds records of its scope and owner only, up to the limit, and none left out is newer than one it holds. */
  lemma {:induction false} HistoryIsLatest(table: seq<Record>, tag: Tag, limit: nat, r: Record)
    ensures
      var history := TableHistory(table, tag, limit);
      && |history| == (if limit <= |WithTag(table, tag)| then limit else |WithTag(table, tag)|)
      && (r in history ==> r in table && Tag(r.scope, r.owner) == tag)
      && (r in table && Tag(r.scope, r.owner) == tag && r !in history ==> forall h :: h in history ==> h.ts >= r.ts)
  {
    var all := WithTag(table, tag);
    var ranked := Ranked(all, TimeOf);
    RankedIsStableSort(all, TimeOf);
    WithTagMember(table, tag, r);
    RankedMember(all, TimeOf, r);
    if r in ranked && r !in Prefix(ranked, limit) {
      var i :| 0 <= i < |ranked| && ranked[i] == r;
      var top := Prefix(ranked, limit);
      assert forall j :: 0 <= j < |top| ==> top[j] == ranked[j] && top[j] in top;
      forall h | h in top
        ensures h.ts >= r.ts
      {
        var j :| 0 <= j < |top| && top[j] == h;
        assert TimeOf(ranked[j]) >= TimeOf(ranked[i]);
      }
    }
  }

  // ------------------------------------------------------------------ the order of the table

  function IsTagged(table: seq<Record>, tag: Tag): nat -> bool {
    (i: nat) => i < |table| && Tag(table[i].scope, table[i].owner) == tag
  }

  lemma {:induction false} TaggedUpTo(table: seq<Record>, embed: Embedder, query: string, tag: Tag, n: nat)
    requires n <= |table|
    ensures
      var ix := Positions(n, IsTagged(table, tag));
      && |Matching(table[..n], embed, query, tag)| == |WithTag(table[..n], tag)| == |ix|
      && forall k :: 0 <= k < |ix| ==>
           && ix[k] < |table| && WithTag(table[..n], tag)[k] == table[ix[k]]
           && Matching(table[..n], embed, query, tag)[k] ==
              Found(table[ix[k]], Dot(embed(query), embed(table[ix[k]].content)))
  {
    if n > 0 {
      TaggedUpTo(table, embed, query, tag, n - 1);
      assert table[..n][..n - 1] == table[..n - 1];
    }
  }

  /** Records are matched, and listed, in the order in which they were first remembered; so ties keep that order. */
  lemma {:induction false} MatchedInOrder(table: seq<Record>, embed: Embedder, query: string, tag: Tag)
    returns (ix: seq<nat>)
    ensures Picks(ix, |table|, IsTagged(table, tag))
    ensures |Matching(table, embed, query, tag)| == |WithTag(table, tag)| == |ix|
    ensures forall k :: 0 <= k < |ix| ==>
      && ix[k] < |table| && WithTag(table, tag)[k] == table[ix[k]]
      && Matching(table, embed, query, tag)[k] ==
         Found(table[ix[k]], Dot(embed(query), embed(table[ix[k]].content)))
  {
    ix := Positions(|table|, IsTagged(table, tag));
    PositionsPick(|table|, IsTagged(table, tag));
    TaggedUpTo(table, embed, query, tag, |table|);
    assert table[..|table|] == table;
  }

  function IsKept(table: seq<Record>, id: string): nat -> bool {
    (i: nat) => i < |table| && table[i].id != id
  }

  lemma {:induction false} ForgetUpTo(table: seq<Record>, id: string, n: nat)
    requires n <= |table|
    ensures
      var ix := Positions(n, IsKept(table, id));
      && |TableForget(table[..n], id)| == |ix|
      && forall k :: 0 <= k < |ix| ==> ix[k] < |table| && TableForget(table[..n], id)[k] == table[ix[k]]
  {
    if n > 0 {
      ForgetUpTo(table, id, n - 1);
      assert table[..n][..n - 1] == table[..n - 1];
    }
  }

  /** A new record goes last and an old id is overwritten where it is; forgetting leaves the rest as it was. */
  lemma {:induction false} TableKeepsOrder(table: seq<Record>, r: Record, id: string) returns (ix: seq<nat>)
    ensures (forall i :: 0 <= i < |table| ==> table[i].id != r.id) ==> TableRemember(table, r) == table + [r]
    ensures (exists i :: 0 <= i < |table| && table[i].id == r.id) ==>
      && |TableRemember(table, r)| == |table|
      && forall i :: 0 <= i < |table| ==> TableRemember(table, r)[i] == if table[i].id == r.id then r else table[i]
    ensures Picks(ix, |table|, IsKept(table, id)) && |TableForget(table, id)| == |ix|
    ensures forall k :: 0 <= k < |ix| ==> ix[k] < |table| && TableForget(table, id)[k] == table[ix[k]]
  {
    if exists i :: 0 <= i < |table| && table[i].id == r.id {
      var i :| 0 <= i < |table| && table[i].id == r.id;
      assert Ids(table)[i] == r.id;
    }
    ix := Positions(|table|, IsKept(table, id));
    PositionsPick(|table|, IsKept(table, id));
    ForgetUpTo(table, id, |table|);
    assert table[..|table|] == table;
  }
}
