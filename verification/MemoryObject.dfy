/**
 The memory façade and its stores as objects.
 */
module MemoryObjects {
  import opened Dicts
  import opened Rankings
  import opened Embeddings
  import opened Memories

  class InMemoryLongTermStore {
    var rows: Dict<Record>

    constructor ()
      ensures rows == Empty()
    {
      rows := Empty();
    }

    method Insert(r: Record)
      modifies this
      ensures rows == Put(old(rows), r.id, r)
    {
      rows := Put(rows, r.id, r);
    }

    method Delete(id: string)
      modifies this
      ensures rows == Pop(old(rows), id)
    {
      rows := Pop(rows, id);
    }

    /** The rows of some ids, in their order; ids without a row are passed over. */
    method Hydrate(hits: seq<Hit>) returns (records: seq<Record>)
      ensures records == RowsOf(rows.at, hits)
    {
      records := [];
      for n := 0 to |hits|
        invariant records == RowsOf(rows.at, hits[..n])
      {
        assert hits[..n + 1][..n] == hits[..n];
        if hits[n].id in rows.at {
          records := records + [rows.at[hits[n].id]];
        }
      }
      assert hits[..|hits|] == hits;
    }

    method Query(tag: Tag, limit: int) returns (latest: seq<Record>)
      requires WellKeyed(rows)
      ensures latest == TableHistory(Table(rows), tag, limit)
    {
      var found: seq<Record> := [];
      for n := 0 to |rows.keys|
        invariant found == WithTag(Table(rows)[..n], tag)
      {
        assert rows.keys[n] in rows.keys;
        var r := rows.at[rows.keys[n]];
        assert Table(rows)[..n + 1][..n] == Table(rows)[..n];
        if r.scope == tag.scope && r.owner == tag.owner {
          found := found + [r];
        }
      }
      assert Table(rows)[..|rows.keys|] == Table(rows);
      latest := Prefix(Ranked(found, TimeOf), limit);
    }
  }

  class InMemorySemanticStore {
    const embed: Embedder
    var vectors: Dict<seq<real>>
    var tags: Dict<Tag>

    constructor (embed: Embedder)
      ensures this.embed == embed && vectors == Empty() && tags == Empty()
    {
      this.embed := embed;
      vectors, tags := Empty(), Empty();
    }

    method Upsert(id: string, text: string, tag: Tag)
      modifies this
      ensures vectors == Put(old(vectors), id, embed(text)) && tags == Put(old(tags), id, tag)
    {
      vectors := Put(vectors, id, embed(text));
      tags := Put(tags, id, tag);
    }

    method Delete(id: string)
      modifies this
      ensures vectors == Pop(old(vectors), id) && tags == Pop(old(tags), id)
    {
      vectors := Pop(vectors, id);
      tags := Pop(tags, id);
    }

    /** The best `k` ids with a tag; a vector without a payload would be an error of the store. */
    method Search(query: string, k: int, tag: Tag) returns (hits: seq<Hit>)
      requires WellKeyed(vectors) && WellKeyed(tags) && vectors.keys == tags.keys
      ensures hits == Searched(vectors, tags, embed(query), tag, k)
    {
      var qv := embed(query);
      var scored: seq<Hit> := [];
      for n := 0 to |vectors.keys|
        invariant scored == Candidates(vectors.keys[..n], vectors.at, tags.at, qv, tag)
      {
        var id := vectors.keys[n];
        assert id in vectors.keys && id in tags.keys;
        assert vectors.keys[..n + 1][..n] == vectors.keys[..n];
        if tags.at[id].scope == tag.scope && tags.at[id].owner == tag.owner {
          var score := Cosine(qv, vectors.at[id]);
          scored := scored + [Hit(id, score)];
        }
      }
      assert vectors.keys[..|vectors.keys|] == vectors.keys;
      hits := Prefix(Ranked(scored, ScoreOf), k);
    }
  }

  lemma {:induction false} HydratedIds(m: Memory, embed: Embedder, hits: seq<Hit>, qv: seq<real>)
    requires InSync(m, embed)
    requires forall i :: 0 <= i < |hits| ==> Genuine(hits[i], m.rows.at, m.vectors.at, qv)
    ensures forall i :: 0 <= i < |hits| ==> hits[i].id in m.rows.at && m.rows.at[hits[i].id].id == hits[i].id
  {
    forall i | 0 <= i < |hits|
      ensures hits[i].id in m.rows.at && m.rows.at[hits[i].id].id == hits[i].id
    {
      assert Genuine(hits[i], m.rows.at, m.vectors.at, qv);
      assert RowAgrees(m, embed, hits[i].id);
    }
  }

  class MemoryManager {
    const longTerm: InMemoryLongTermStore
    const semantic: InMemorySemanticStore

    constructor (embed: Embedder)
      ensures Model() == Blank() && Valid() && semantic.embed == embed
      ensures fresh(longTerm) && fresh(semantic)
    {
      longTerm := new InMemoryLongTermStore();
      semantic := new InMemorySemanticStore(embed);
    }

    ghost function Model(): Memory
      reads longTerm, semantic
    {
      Memory(longTerm.rows, semantic.vectors, semantic.tags)
    }

    ghost predicate Valid()
      reads longTerm, semantic
    {
      InSync(Model(), semantic.embed)
    }

    method Remember(r: Record)
      requires Valid()
      modifies longTerm, semantic
      ensures Valid() && Model() == Remembered(old(Model()), semantic.embed, r)
      ensures Table(Model().rows) == TableRemember(old(Table(Model().rows)), r)
    {
      RememberKeepsSync(Model(), semantic.embed, r);
      RememberIsTableRemember(Model(), semantic.embed, r);
      longTerm.Insert(r);
      semantic.Upsert(r.id, r.content, Tag(r.scope, r.owner));
    }

    method Forget(id: string)
      requires Valid()
      modifies longTerm, semantic
      ensures Valid() && Model() == Forgotten(old(Model()), id)
      ensures Table(Model().rows) == TableForget(old(Table(Model().rows)), id)
    {
      ForgetKeepsSync(Model(), semantic.embed, id);
      ForgetIsTableForget(Model(), semantic.embed, id);
      longTerm.Delete(id);
      semantic.Delete(id);
    }

    /** Search, hydrate, then look each score up again by id, rounding it; the last entry of an id counts. */
    method Recall(query: string, tag: Tag, k: int, round: real -> real) returns (found: seq<Found>)
      requires Valid()
      ensures found == Rounded(TableRecall(Table(Model().rows), semantic.embed, query, tag, k), round)
    {
      SearchIsTableRecall(Model(), semantic.embed, query, tag, k);
      var hits := semantic.Search(query, k, tag);
      var records := longTerm.Hydrate(hits);
      var scores := Scores(hits, semantic.embed(query));
      HydratedIds(Model(), semantic.embed, hits, semantic.embed(query));
      RowsOfAll(longTerm.rows.at, hits);
      found := Join(hits, records, scores, round);
      assert found == Rounded(Map(hits, Memories.Hydrate(longTerm.rows.at)), round);
    }

    /** One entry a record, with the score looked up by its id. */
    static method Join(hits: seq<Hit>, records: seq<Record>, scores: map<string, real>, round: real -> real)
      returns (found: seq<Found>)
      requires |records| == |hits|
      requires forall i :: 0 <= i < |hits| ==> hits[i].id in scores && scores[hits[i].id] == hits[i].score
      requires forall i :: 0 <= i < |hits| ==> records[i].id == hits[i].id
      ensures |found| == |hits| && forall i :: 0 <= i < |hits| ==> found[i] == Found(records[i], round(hits[i].score))
    {
      found := [];
      for n := 0 to |records|
        invariant |found| == n && forall i :: 0 <= i < n ==> found[i] == Found(records[i], round(hits[i].score))
      {
        var r := records[n];
        found := found + [Found(r, round(if r.id in scores then scores[r.id] else 0.0))];
      }
    }

    /** `dict(hits)`. */
    method Scores(hits: seq<Hit>, qv: seq<real>) returns (scores: map<string, real>)
      requires forall i :: 0 <= i < |hits| ==> Genuine(hits[i], longTerm.rows.at, semantic.vectors.at, qv)
      ensures forall i :: 0 <= i < |hits| ==> hits[i].id in scores && scores[hits[i].id] == hits[i].score
    {
      scores := map[];
      for n := 0 to |hits|
        invariant forall i :: 0 <= i < n ==> hits[i].id in scores
        invariant forall id :: id in scores ==>
                  id in semantic.vectors.at && scores[id] == Dot(qv, semantic.vectors.at[id])
      {
        assert Genuine(hits[n], longTerm.rows.at, semantic.vectors.at, qv);
        scores := scores[hits[n].id := hits[n].score];
      }
      forall i | 0 <= i < |hits|
        ensures hits[i].id in scores && scores[hits[i].id] == hits[i].score
      {
        assert Genuine(hits[i], longTerm.rows.at, semantic.vectors.at, qv);
      }
    }

    method History(tag: Tag, limit: int) returns (latest: seq<Record>)
      requires Valid()
      ensures latest == TableHistory(Table(Model().rows), tag, limit)
    {
      latest := longTerm.Query(tag, limit);
    }
  }
}
