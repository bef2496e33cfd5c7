/** `KnowledgeGraphManager` and the two display formatters: the invalidate-then-insert
    workflow, the derived views of the store, the rebuild on load, and the text
    rendering of timelines and query results. */
module Utils {
  import opened Wrappers
  import opened Seqs
  import opened Text
  import opened Dicts
  import opened Models
  import opened TemporalAgent

  // ---------------------------------------------------------------------------
  // The invalidate-then-insert workflow, on store values

  /** A statement with one more invalidating id. */
  function Mark(s: Statement, byId: string): Statement {
    s.(invalidatedBy := s.invalidatedBy + [byId])
  }

  /** `invalidate_statement` for each id in turn. */
  function InvalidateAll(g: Graph, ids: seq<string>, byId: string): Graph {
    if ids == [] then g
    else InvalidateAll(g, ids[..|ids| - 1], byId).Invalidate(ids[|ids| - 1], byId)
  }

  lemma InvalidateAllSnoc(g: Graph, ids: seq<string>, k: nat, byId: string)
    requires k < |ids|
    ensures InvalidateAll(g, ids[..k + 1], byId) == InvalidateAll(g, ids[..k], byId).Invalidate(ids[k], byId)
  {
    assert ids[..k + 1][..k] == ids[..k];
  }

  /** One step of `add_statement_text` / `add_document`: conflicts are computed against
      the store as it is, each conflicting statement is marked, then the statement is
      added. */
  function Ingest(g: Graph, s: Statement): Graph {
    InvalidateAll(g, ConflictIds(s, Values(g.statements)), s.id).Add(s)
  }

  /** The steps for a list of statements, in order, each against the store left by
      the ones before it. */
  function IngestAll(g: Graph, ss: seq<Statement>): Graph {
    if ss == [] then g
    else Ingest(IngestAll(g, ss[..|ss| - 1]), ss[|ss| - 1])
  }

  /** Marking a list of distinct ids marks each stored one once and touches nothing
      else; unknown ids are ignored. */
  lemma {:induction false} InvalidateAllEffect(g: Graph, ids: seq<string>, byId: string)
    requires NoDup(ids)
    ensures var r := InvalidateAll(g, ids, byId);
      && r.entities == g.entities
      && r.statements.keys == g.statements.keys
      && r.statements.items.Keys == g.statements.items.Keys
      && forall k :: k in g.statements.items ==>
           r.statements.items[k] == if k in ids then Mark(g.statements.items[k], byId) else g.statements.items[k]
  {
    if ids != [] {
      var init, last := ids[..|ids| - 1], ids[|ids| - 1];
      assert NoDup(init) by {
        forall i, j | 0 <= i < j < |init| ensures init[i] != init[j] {
          assert init[i] == ids[i] && init[j] == ids[j];
        }
      }
      InvalidateAllEffect(g, init, byId);
      var r' := InvalidateAll(g, init, byId);
      InvalidateEffect(r', last, byId);
      assert last !in init by {
        forall i | 0 <= i < |init| ensures init[i] != last {
          assert init[i] == ids[i];
        }
      }
      assert forall k :: k in ids <==> k in init || k == last by {
        assert ids == init + [last];
      }
    }
  }

  /** Marking keeps the store's invariant and soundness. */
  lemma {:induction false} InvalidateAllPreserves(g: Graph, ids: seq<string>, byId: string)
    requires g.Valid()
    ensures InvalidateAll(g, ids, byId).Valid()
    ensures g.Sound() ==> InvalidateAll(g, ids, byId).Sound()
  {
    if ids != [] {
      InvalidateAllPreserves(g, ids[..|ids| - 1], byId);
      InvalidatePreserves(InvalidateAll(g, ids[..|ids| - 1], byId), ids[|ids| - 1], byId);
    }
  }

  /** On a consistent store the stored statements, listed by id, are the keys. */
  lemma IdsOfValues(g: Graph)
    requires g.Valid()
    ensures Ids(Values(g.statements)) == g.statements.keys
  {
  }

  /** An id is marked by the new statement exactly when the statement stored under it
      conflicts with the new one. */
  lemma ConflictIdsOfStore(g: Graph, s: Statement, k: string)
    requires g.Valid()
    ensures NoDup(ConflictIds(s, Values(g.statements)))
    ensures k in ConflictIds(s, Values(g.statements)) <==>
      k in g.statements.items && Conflicts(s, g.statements.items[k])
  {
    var vs := Values(g.statements);
    IdsOfValues(g);
    ConflictIdsNoDup(s, vs);
    ConflictIdsMembership(s, vs, k);
    if k in g.statements.items && Conflicts(s, g.statements.items[k]) {
      var j :| 0 <= j < |g.statements.keys| && g.statements.keys[j] == k;
      assert vs[j].id == k;
    }
  }

  /** One stored statement other than the new one after a workflow step: marked by
      the new id exactly when the new statement conflicts with it. */
  lemma IngestMarks(g: Graph, s: Statement, k: string)
    requires g.Valid() && k in g.statements.items && k != s.id
    ensures var r := Ingest(g, s);
      && k in r.statements.items
      && r.statements.items[k] ==
           if Conflicts(s, g.statements.items[k]) then Mark(g.statements.items[k], s.id)
           else g.statements.items[k]
  {
    var ids := ConflictIds(s, Values(g.statements));
    ConflictIdsOfStore(g, s, k);
    InvalidateAllEffect(g, ids, s.id);
  }

  /** `add_statement_text`'s effect on a consistent store: the new statement is stored
      exactly as given (it never marks itself), every other stored statement gains the
      new id once when the new statement conflicts with it and is unchanged otherwise,
      and the invariant still holds. */
  lemma IngestEffect(g: Graph, s: Statement)
    requires g.Valid()
    ensures var r := Ingest(g, s);
      && r.Valid()
      && r.statements.items.Keys == g.statements.items.Keys + {s.id}
      && r.statements.items[s.id] == s
      && forall k :: k in g.statements.items && k != s.id ==>
           r.statements.items[k] ==
             if Conflicts(s, g.statements.items[k]) then Mark(g.statements.items[k], s.id)
             else g.statements.items[k]
  {
    IngestValid(g, s);
    IngestStores(g, s);
    forall k | k in g.statements.items && k != s.id
      ensures Ingest(g, s).statements.items[k] ==
        if Conflicts(s, g.statements.items[k]) then Mark(g.statements.items[k], s.id) else g.statements.items[k]
    {
      IngestMarks(g, s, k);
    }
  }

  /** A workflow step keeps the store's invariant. */
  lemma IngestValid(g: Graph, s: Statement)
    requires g.Valid()
    ensures Ingest(g, s).Valid()
  {
    var ids := ConflictIds(s, Values(g.statements));
    InvalidateAllPreserves(g, ids, s.id);
    AddPreservesValid(InvalidateAll(g, ids, s.id), s);
  }

  /** A workflow step stores the new statement exactly as given and keeps every other
      key; a new id goes to the end of the key order, a known one keeps its place. */
  lemma IngestStores(g: Graph, s: Statement)
    requires g.Valid()
    ensures var r := Ingest(g, s);
      && r.statements.items.Keys == g.statements.items.Keys + {s.id}
      && r.statements.items[s.id] == s
    ensures s.id in g.statements.items ==> Ingest(g, s).statements.keys == g.statements.keys
    ensures s.id !in g.statements.items ==> Ingest(g, s).statements.keys == g.statements.keys + [s.id]
  {
    var ids := ConflictIds(s, Values(g.statements));
    ConflictIdsOfStore(g, s, s.id);
    InvalidateAllEffect(g, ids, s.id);
    AddEffect(InvalidateAll(g, ids, s.id), s, s.id);
  }

  /** A statement under a fresh id also keeps the index sound. */
  lemma IngestFreshPreservesSound(g: Graph, s: Statement)
    requires g.Valid() && g.Sound() && s.id !in g.statements.items
    ensures Ingest(g, s).Sound()
  {
    var ids := ConflictIds(s, Values(g.statements));
    ConflictIdsOfStore(g, s, s.id);
    InvalidateAllEffect(g, ids, s.id);
    InvalidateAllPreserves(g, ids, s.id);
    AddFreshPreservesSound(InvalidateAll(g, ids, s.id), s);
  }

  lemma IngestAllSnoc(g: Graph, ss: seq<Statement>, i: nat)
    requires i < |ss|
    ensures IngestAll(g, ss[..i + 1]) == Ingest(IngestAll(g, ss[..i]), ss[i])
  {
    assert ss[..i + 1][..i] == ss[..i];
  }

  /** `add_document` keeps the store's invariant. */
  lemma {:induction false} IngestAllPreservesValid(g: Graph, ss: seq<Statement>)
    requires g.Valid()
    ensures IngestAll(g, ss).Valid()
  {
    if ss != [] {
      IngestAllPreservesValid(g, ss[..|ss| - 1]);
      IngestEffect(IngestAll(g, ss[..|ss| - 1]), ss[|ss| - 1]);
    }
  }

  /** Ingesting a document in two parts is ingesting it at once: each statement sees
      the statements before it, including those of the same document. */
  lemma {:induction false} IngestAllConcat(g: Graph, a: seq<Statement>, b: seq<Statement>)
    ensures IngestAll(g, a + b) == IngestAll(IngestAll(g, a), b)
  {
    if b == [] {
      assert a + b == a;
    } else {
      var init, last := b[..|b| - 1], b[|b| - 1];
      assert (a + b)[..|a + b| - 1] == a + init;
      assert (a + b)[|a + b| - 1] == last;
      calc {
        IngestAll(g, a + b);
        Ingest(IngestAll(g, a + init), last);
        { IngestAllConcat(g, a, init); }
        Ingest(IngestAll(IngestAll(g, a), init), last);
        IngestAll(IngestAll(g, a), b);
      }
    }
  }

  // ---------------------------------------------------------------------------
  // Rebuilding a store from saved records

  /** What `save_to_file` writes, apart from the time stamp: the statements by id and
      the entity index. */
  datatype SavedGraph = SavedGraph(statements: Dict<string, Statement>, entities: Index)

  function Save(g: Graph): SavedGraph {
    SavedGraph(g.statements, g.entities)
  }

  /** `add_statement` for each record in turn, from an empty store. */
  function AddAll(g: Graph, ss: seq<Statement>): Graph {
    if ss == [] then g else AddAll(g, ss[..|ss| - 1]).Add(ss[|ss| - 1])
  }

  lemma AddAllSnoc(g: Graph, ss: seq<Statement>, i: nat)
    requires i < |ss|
    ensures AddAll(g, ss[..i + 1]) == AddAll(g, ss[..i]).Add(ss[i])
  {
    assert ss[..i + 1][..i] == ss[..i];
  }

  function Rebuild(records: seq<Statement>): Graph {
    AddAll(EmptyGraph, records)
  }

  /** Ids that are distinct in a list stay distinct in any prefix, and the last one
      is not among the others. */
  lemma IdsPrefix(ss: seq<Statement>)
    requires ss != [] && NoDup(Ids(ss))
    ensures NoDup(Ids(ss[..|ss| - 1]))
    ensures forall i :: 0 <= i < |ss| - 1 ==> ss[i].id != ss[|ss| - 1].id
  {
    IdsSnoc(ss);
    assert Ids(ss[..|ss| - 1]) == Ids(ss)[..|ss| - 1];
    forall i | 0 <= i < |ss| - 1 ensures ss[i].id != ss[|ss| - 1].id {
      assert Ids(ss)[i] == ss[i].id && Ids(ss)[|ss| - 1] == ss[|ss| - 1].id;
    }
  }

  /** Adding records with distinct ids to an empty store stores exactly the records,
      under their ids, in record order. */
  lemma {:induction false} RebuildStatements(ss: seq<Statement>)
    requires NoDup(Ids(ss))
    ensures var r := Rebuild(ss);
      && r.statements.keys == Ids(ss)
      && (forall i :: 0 <= i < |ss| ==> ss[i].id in r.statements.items && r.statements.items[ss[i].id] == ss[i])
  {
    if ss != [] {
      var init, last := ss[..|ss| - 1], ss[|ss| - 1];
      IdsPrefix(ss);
      RebuildStatements(init);
      var g := Rebuild(init);
      assert Rebuild(ss).statements == Put(g.statements, last.id, last);
      assert last.id !in g.statements.items;
      IdsSnoc(ss);
      PutRecords(g.statements, ss, init);
    }
  }

  /** Storing the last record under its id keeps the earlier records, whose ids differ. */
  lemma PutRecords(d: Dict<string, Statement>, ss: seq<Statement>, init: seq<Statement>)
    requires ss != [] && init == ss[..|ss| - 1]
    requires forall i :: 0 <= i < |ss| - 1 ==> ss[i].id != ss[|ss| - 1].id
    requires forall i :: 0 <= i < |init| ==> init[i].id in d.items && d.items[init[i].id] == init[i]
    ensures var last := ss[|ss| - 1]; var r := Put(d, last.id, last);
      forall i :: 0 <= i < |ss| ==> ss[i].id in r.items && r.items[ss[i].id] == ss[i]
  {
    var last := ss[|ss| - 1];
    var r := Put(d, last.id, last);
    forall i | 0 <= i < |ss| ensures ss[i].id in r.items && r.items[ss[i].id] == ss[i] {
      if i < |init| {
        assert ss[i] == init[i];
      }
    }
  }

  /** The rebuilt store is consistent, whatever the saved statements. */
  lemma {:induction false} RebuildValid(ss: seq<Statement>)
    ensures Rebuild(ss).Valid()
  {
    if ss == [] {
      EmptyGraphValid();
    } else {
      var init, last := ss[..|ss| - 1], ss[|ss| - 1];
      RebuildValid(init);
      assert Rebuild(ss) == Rebuild(init).Add(last);
      AddPreservesValid(Rebuild(init), last);
    }
  }

  /** Saved statements with distinct ids rebuild an index that is sound. */
  lemma {:induction false} RebuildSound(ss: seq<Statement>)
    requires NoDup(Ids(ss))
    ensures Rebuild(ss).Sound()
  {
    if ss == [] {
      EmptyGraphValid();
    } else {
      var init, last := ss[..|ss| - 1], ss[|ss| - 1];
      IdsPrefix(ss);
      RebuildValid(init);
      RebuildSound(init);
      RebuildStatements(init);
      var g := Rebuild(init);
      assert Rebuild(ss) == g.Add(last);
      assert last.id !in g.statements.keys;
      AddFreshPreservesSound(g, last);
    }
  }

  /** Being indexed is being in the entity's bucket. */
  lemma IndexedInBucket(g: Graph, e: string, id: string)
    ensures g.Indexed(e, id) <==> id in Bucket(g.entities, e)
  {
  }

  /** `add_statement` puts its id into the buckets of exactly the entities it mentions
      and removes nothing. */
  lemma AddBucketMembership(g: Graph, s: Statement, e: string, id: string)
    ensures id in Bucket(g.Add(s).entities, e) <==>
      id in Bucket(g.entities, e) || (s.Mentions(e) && s.id == id)
  {
    AddEffect(g, s, e);
  }

  /** In the rebuilt store an id is indexed under an entity exactly when a record with
      that id mentions the entity. */
  lemma {:induction false} RebuildIndex(ss: seq<Statement>, e: string, id: string)
    ensures id in Bucket(Rebuild(ss).entities, e) <==>
      exists i :: 0 <= i < |ss| && ss[i].id == id && ss[i].Mentions(e)
  {
    if ss != [] {
      var init, last := ss[..|ss| - 1], ss[|ss| - 1];
      RebuildIndex(init, e, id);
      var g := Rebuild(init);
      assert Rebuild(ss) == g.Add(last);
      AddBucketMembership(g, last, e, id);
      RecordsMentionSplit(ss, e, id);
    }
  }

  lemma RecordsMentionSplit(ss: seq<Statement>, e: string, id: string)
    requires ss != []
    ensures var init, last := ss[..|ss| - 1], ss[|ss| - 1];
      (exists i :: 0 <= i < |ss| && ss[i].id == id && ss[i].Mentions(e)) <==>
      (exists i :: 0 <= i < |init| && init[i].id == id && init[i].Mentions(e)) || (last.id == id && last.Mentions(e))
  {
    var init := ss[..|ss| - 1];
    if exists i :: 0 <= i < |ss| && ss[i].id == id && ss[i].Mentions(e) {
      var i :| 0 <= i < |ss| && ss[i].id == id && ss[i].Mentions(e);
      if i < |init| {
        assert init[i] == ss[i];
      }
    }
    if exists i :: 0 <= i < |init| && init[i].id == id && init[i].Mentions(e) {
      var i :| 0 <= i < |init| && init[i].id == id && init[i].Mentions(e);
      assert ss[i] == init[i];
    }
  }

  /** Loading a saved consistent store gives back the same statements, in the same
      order. */
  lemma LoadStatements(g: Graph)
    requires g.Valid()
    ensures Rebuild(Values(Save(g).statements)).statements == g.statements
  {
    var vs := Values(g.statements);
    IdsOfValues(g);
    RebuildStatements(vs);
    var r := Rebuild(vs);
    forall k | k in g.statements.items ensures k in r.statements.items && r.statements.items[k] == g.statements.items[k] {
      var j := KeyPosition(g, k);
      assert vs[j].id == k;
    }
    assert r.statements.items == g.statements.items;
  }

  /** Where a stored id sits in the key order, and so in `values()`. */
  lemma KeyPosition(g: Graph, k: string) returns (j: nat)
    requires g.Valid() && k in g.statements.items
    ensures j < |Values(g.statements)| && g.statements.keys[j] == k
    ensures Values(g.statements)[j] == g.statements.items[k] && Values(g.statements)[j].id == k
  {
    j :| 0 <= j < |g.statements.keys| && g.statements.keys[j] == k;
  }

  /** Loading a saved consistent, sound store indexes an id under an entity exactly
      when the saved store did. */
  lemma LoadIndexed(g: Graph, e: string, id: string)
    requires g.Valid() && g.Sound()
    ensures Rebuild(Values(g.statements)).Indexed(e, id) <==> g.Indexed(e, id)
  {
    var vs := Values(g.statements);
    IdsOfValues(g);
    RebuildIndex(vs, e, id);
    IndexedInBucket(Rebuild(vs), e, id);
    if g.Indexed(e, id) {
      LoadKeepsIndexed(g, e, id);
    }
    if exists i :: 0 <= i < |vs| && vs[i].id == id && vs[i].Mentions(e) {
      var i :| 0 <= i < |vs| && vs[i].id == id && vs[i].Mentions(e);
      SavedMentionIndexed(g, e, i);
    }
  }

  /** An id the saved store indexes under `e` belongs to a saved record that mentions `e`. */
  lemma LoadKeepsIndexed(g: Graph, e: string, id: string)
    requires g.Valid() && g.Sound() && g.Indexed(e, id)
    ensures exists i :: (0 <= i < |Values(g.statements)| && Values(g.statements)[i].id == id &&
                         Values(g.statements)[i].Mentions(e))
  {
    var vs := Values(g.statements);
    assert id in g.statements.items;
    var j :| 0 <= j < |g.statements.keys| && g.statements.keys[j] == id;
    assert vs[j].id == id && vs[j].Mentions(e);
  }

  /** A saved record that mentions `e` is indexed under `e` in the saved store. */
  lemma SavedMentionIndexed(g: Graph, e: string, i: nat)
    requires g.Valid() && i < |Values(g.statements)| && Values(g.statements)[i].Mentions(e)
    ensures g.Indexed(e, Values(g.statements)[i].id)
  {
    var vs := Values(g.statements);
    IdsOfValues(g);
    assert Ids(vs)[i] == vs[i].id;
    assert g.statements.items[vs[i].id] == vs[i];
  }

  /** Saving a consistent, sound store and loading it back gives the same statements,
      in the same order, and an index with the same entities and the same ids under
      each entity (the rebuilt buckets may list them in another order: the saved index
      itself is not read back). */
  lemma SaveLoadRoundTrip(g: Graph)
    requires g.Valid() && g.Sound()
    ensures var r := Rebuild(Values(Save(g).statements));
      && r.statements == g.statements
      && r.entities.items.Keys == g.entities.items.Keys
      && forall e, id :: r.Indexed(e, id) <==> g.Indexed(e, id)
  {
    var r := Rebuild(Values(g.statements));
    LoadStatements(g);
    IdsOfValues(g);
    RebuildValid(Values(g.statements));
    RebuildSound(Values(g.statements));
    forall e, id ensures r.Indexed(e, id) <==> g.Indexed(e, id) {
      LoadIndexed(g, e, id);
    }
    forall e ensures e in r.entities.items <==> e in g.entities.items {
      if e in g.entities.items {
        assert g.Indexed(e, g.entities.items[e][0]);
      }
      if e in r.entities.items {
        assert r.Indexed(e, r.entities.items[e][0]);
      }
    }
  }

  // ---------------------------------------------------------------------------
  // Statistics

  /** `get_statistics`' result. */
  datatype Statistics = Statistics(
    totalStatements: nat,
    totalEntities: nat,
    temporalClasses: Dict<string, nat>,
    factTypes: Dict<string, nat>,
    statementsWithTemporalEvents: nat,
    invalidatedStatements: nat)

  /** `counts[k] = counts.get(k, 0) + 1`. */
  function Tally(counts: Dict<string, nat>, k: string): Dict<string, nat> {
    Put(counts, k, Get(counts, k, 0) + 1)
  }

  /** The counting dictionary built from `keys` in order. */
  function TallyAll(keys: seq<string>): Dict<string, nat> {
    if keys == [] then Empty() else Tally(TallyAll(keys[..|keys| - 1]), keys[|keys| - 1])
  }

  function ClassValues(ss: seq<Statement>): seq<string> {
    seq(|ss|, i requires 0 <= i < |ss| => ss[i].temporalClass.Value())
  }

  function FactValues(ss: seq<Statement>): seq<string> {
    seq(|ss|, i requires 0 <= i < |ss| => ss[i].factType.Value())
  }

  predicate Invalidated(s: Statement) {
    s.invalidatedBy != []
  }

  /** The statistics of a store, counted over its statements in store order. */
  function StatisticsOf(g: Graph): (r: Statistics)
    ensures r.totalStatements == |Values(g.statements)|
    ensures r.statementsWithTemporalEvents <= r.totalStatements
    ensures r.invalidatedStatements <= r.totalStatements
  {
    var ss := Values(g.statements);
    Statistics(|g.statements.keys|, |g.entities.keys|,
               TallyAll(ClassValues(ss)), TallyAll(FactValues(ss)),
               |Filter(ss, HasEvent)|, |Filter(ss, Invalidated)|)
  }

  /** The count under a key is the number of times the key occurs, and the keys
      counted are exactly the keys that occur. */
  lemma {:induction false} TallyAllCounts(keys: seq<string>, k: string)
    ensures Get(TallyAll(keys), k, 0) == multiset(keys)[k]
    ensures k in TallyAll(keys).items <==> k in keys
  {
    if keys != [] {
      var init := keys[..|keys| - 1];
      TallyAllCounts(init, k);
      assert keys == init + [keys[|keys| - 1]];
    }
  }

  function Sum(xs: seq<nat>): nat {
    if xs == [] then 0 else Sum(xs[..|xs| - 1]) + xs[|xs| - 1]
  }

  /** Replacing one element changes the sum by the difference. */
  lemma {:induction false} SumUpdate(xs: seq<nat>, i: nat, v: nat)
    requires i < |xs|
    ensures Sum(xs[i := v]) + xs[i] == Sum(xs) + v
  {
    var init := xs[..|xs| - 1];
    if i == |xs| - 1 {
      assert xs[i := v][..|xs| - 1] == init;
    } else {
      SumUpdate(init, i, v);
      assert xs[i := v][..|xs| - 1] == init[i := v];
    }
  }

  /** Counting one more key adds one to the sum of the counts. */
  lemma TallySum(counts: Dict<string, nat>, k: string)
    ensures Sum(Values(Tally(counts, k))) == Sum(Values(counts)) + 1
  {
    if k in counts.items {
      var j :| 0 <= j < |counts.keys| && counts.keys[j] == k;
      TallySumPresent(counts, k, j);
    } else {
      var vs := Values(counts);
      assert Tally(counts, k) == Put(counts, k, 1);
      ValuesPutAbsent(counts, k, 1);
      assert (vs + [1])[..|vs|] == vs;
    }
  }

  lemma TallySumPresent(counts: Dict<string, nat>, k: string, j: nat)
    requires j < |counts.keys| && counts.keys[j] == k
    ensures Sum(Values(Tally(counts, k))) == Sum(Values(counts)) + 1
  {
    var vs := Values(counts);
    var v := counts.items[k] + 1;
    assert Tally(counts, k) == Put(counts, k, v);
    ValuesPutPresent(counts, k, v, j);
    assert vs[j] == counts.items[k];
    SumUpdate(vs, j, v);
  }

  /** The counts add up to the number of keys counted. */
  lemma {:induction false} TallyAllSum(keys: seq<string>)
    ensures Sum(Values(TallyAll(keys))) == |keys|
  {
    if keys != [] {
      TallyAllSum(keys[..|keys| - 1]);
      TallySum(TallyAll(keys[..|keys| - 1]), keys[|keys| - 1]);
    }
  }

  lemma StatisticsOfValues(g: Graph, ss: seq<Statement>)
    requires ss == Values(g.statements)
    ensures StatisticsOf(g) == Statistics(|g.statements.keys|, |g.entities.keys|,
                                          TallyAll(ClassValues(ss)), TallyAll(FactValues(ss)),
                                          |Filter(ss, HasEvent)|, |Filter(ss, Invalidated)|)
  {
  }

  /** Counting one more statement extends each count by that statement alone. */
  lemma StatisticsStep(ss: seq<Statement>, i: nat)
    requires i < |ss|
    ensures TallyAll(ClassValues(ss[..i + 1])) == Tally(TallyAll(ClassValues(ss[..i])), ss[i].temporalClass.Value())
    ensures TallyAll(FactValues(ss[..i + 1])) == Tally(TallyAll(FactValues(ss[..i])), ss[i].factType.Value())
    ensures |Filter(ss[..i + 1], HasEvent)| == |Filter(ss[..i], HasEvent)| + if HasEvent(ss[i]) then 1 else 0
    ensures |Filter(ss[..i + 1], Invalidated)| == |Filter(ss[..i], Invalidated)| + if Invalidated(ss[i]) then 1 else 0
  {
    assert ss[..i + 1][..i] == ss[..i];
    assert ClassValues(ss[..i + 1]) == ClassValues(ss[..i]) + [ss[i].temporalClass.Value()];
    assert FactValues(ss[..i + 1]) == FactValues(ss[..i]) + [ss[i].factType.Value()];
  }

  /** The class counts and the fact-type counts each add up to
      the number of statements, each count is the number of statements of that class
      or type, and the invalidated count is that of the statements with a non-empty
      `invalidated_by`. */
  lemma StatisticsSpec(g: Graph, c: TemporalClass, f: FactType)
    ensures var r := StatisticsOf(g); var ss := Values(g.statements);
      && Sum(Values(r.temporalClasses)) == r.totalStatements
      && Sum(Values(r.factTypes)) == r.totalStatements
      && Get(r.temporalClasses, c.Value(), 0) == multiset(ClassValues(ss))[c.Value()]
      && Get(r.factTypes, f.Value(), 0) == multiset(FactValues(ss))[f.Value()]
      && r.invalidatedStatements == |Filter(ss, Invalidated)|
  {
    var ss := Values(g.statements);
    TallyAllSum(ClassValues(ss));
    TallyAllSum(FactValues(ss));
    TallyAllCounts(ClassValues(ss), c.Value());
    TallyAllCounts(FactValues(ss), f.Value());
  }

  // ---------------------------------------------------------------------------
  // The manager

  /** `KnowledgeGraphManager`: a store, the extraction oracles and the answering
      oracle. */
  class KnowledgeGraphManager {
    var kg: KnowledgeGraph
    const agent: Extractor
    const summarize: Summarizer

    constructor (agent: Extractor, summarize: Summarizer)
      ensures fresh(kg) && kg.Snapshot() == EmptyGraph
      ensures this.agent == agent && this.summarize == summarize
    {
      kg := new KnowledgeGraph();
      this.agent := agent;
      this.summarize := summarize;
    }

    /** The loop body shared by `add_document` and `add_statement_text`: the ids that
        conflict with the statement are computed from the store as it is, each is
        invalidated by the statement, and the statement is added. */
    method Integrate(statement: Statement)
      modifies kg
      ensures kg.Snapshot() == Ingest(old(kg.Snapshot()), statement)
    {
      ghost var start := kg.Snapshot();
      var existingStatements := Values(kg.statements);
      var invalidatedIds := CheckInvalidation(statement, existingStatements);
      for k := 0 to |invalidatedIds|
        invariant kg.Snapshot() == InvalidateAll(start, invalidatedIds[..k], statement.id)
      {
        InvalidateAllSnoc(start, invalidatedIds, k, statement.id);
        kg.InvalidateStatement(invalidatedIds[k], statement.id);
      }
      assert invalidatedIds[..|invalidatedIds|] == invalidatedIds;
      kg.AddStatement(statement);
    }

    /** `add_document`: the document's statements, each integrated in turn. */
    method AddDocument(text: string, source: Option<string>, referenceDate: Instant)
      returns (statements: seq<Statement>)
      modifies kg
      ensures statements == ProcessEach(agent, Chunks(text), source, referenceDate)
      ensures kg.Snapshot() == IngestAll(old(kg.Snapshot()), statements)
    {
      ghost var start := kg.Snapshot();
      statements := ProcessDocument(agent, text, source, referenceDate);
      for i := 0 to |statements|
        invariant kg.Snapshot() == IngestAll(start, statements[..i])
      {
        IngestAllSnoc(start, statements, i);
        Integrate(statements[i]);
      }
      assert statements[..|statements|] == statements;
    }

    /** `add_statement_text`, with the statement's id passed in. */
    method AddStatementText(text: string, statementId: string, source: Option<string>, referenceDate: Instant)
      returns (statement: Statement)
      modifies kg
      ensures statement == ProcessStatement(agent, text, statementId, source, referenceDate)
      ensures kg.Snapshot() == Ingest(old(kg.Snapshot()), statement)
    {
      statement := ProcessStatement(agent, text, statementId, source, referenceDate);
      Integrate(statement);
    }

    /** `query_entity`: an entity query without a question, so never an answer. */
    method QueryEntity(entity: string, timestamp: Option<Instant>) returns (result: QueryResult)
      ensures var all := kg.Snapshot().StatementsFor(entity);
        && result.statements == (if entity == "" then []
                                 else if timestamp.Some? then Filter(all, ValidAtOf(timestamp.value))
                                 else all)
        && result.timeline == (if entity == "" then [] else Timeline(all))
        && result.answer == None
        && result.confidence == 0.8
    {
      result := Query(kg, TemporalQuery(Some(entity), None, timestamp, None, None), summarize);
    }

    /** `query_natural_language`: a question without an entity or a range, so nothing
        is retrieved and a non-empty question always gets the fixed reply for an empty
        context. */
    method QueryNaturalLanguage(question: string) returns (result: QueryResult)
      ensures result.statements == [] && result.timeline == []
      ensures result.answer == if question == "" then None else Some(NoInformationAnswer)
      ensures result.confidence == 0.8
    {
      result := Query(kg, TemporalQuery(None, None, None, None, Some(question)), summarize);
    }

    /** `get_entity_timeline`. */
    method GetEntityTimeline(entity: string) returns (timeline: seq<TimelineEntry>)
      ensures timeline == Timeline(kg.Snapshot().StatementsFor(entity))
    {
      timeline := kg.GetTimelineForEntity(entity);
    }

    /** `get_all_entities`: every indexed entity once, in index order. */
    function GetAllEntities(): (r: seq<string>)
      reads this, kg
      ensures NoDup(r) && |r| == |kg.entities.items|
      ensures forall e :: e in r <==> e in kg.entities.items
    {
      EntityKeysCount(kg.entities);
      kg.entities.keys
    }

    /** `get_statistics`. */
    method GetStatistics() returns (stats: Statistics)
      ensures stats == StatisticsOf(kg.Snapshot())
    {
      ghost var g := kg.Snapshot();
      var ss := Values(kg.statements);
      var temporalClasses: Dict<string, nat> := Empty();
      var factTypes: Dict<string, nat> := Empty();
      var withEvents := 0;
      var invalidated := 0;
      for i := 0 to |ss|
        invariant temporalClasses == TallyAll(ClassValues(ss[..i]))
        invariant factTypes == TallyAll(FactValues(ss[..i]))
        invariant withEvents == |Filter(ss[..i], HasEvent)|
        invariant invalidated == |Filter(ss[..i], Invalidated)|
      {
        StatisticsStep(ss, i);
        var statement := ss[i];
        temporalClasses := Tally(temporalClasses, statement.temporalClass.Value());
        factTypes := Tally(factTypes, statement.factType.Value());
        if statement.temporalEvent.Some? {
          withEvents := withEvents + 1;
        }
        if statement.invalidatedBy != [] {
          invalidated := invalidated + 1;
        }
      }
      assert ss[..|ss|] == ss;
      StatisticsOfValues(g, ss);
      stats := Statistics(|kg.statements.keys|, |kg.entities.keys|, temporalClasses, factTypes,
                          withEvents, invalidated);
    }

    /** The rebuild in `load_from_file`: a fresh store to which every saved statement is
        added in saved order; the saved index is not read. */
    method LoadFromFile(data: SavedGraph)
      modifies this
      ensures fresh(kg) && kg.Snapshot() == Rebuild(Values(data.statements))
    {
      kg := new KnowledgeGraph();
      var records := Values(data.statements);
      for i := 0 to |records|
        invariant fresh(kg)
        invariant kg.Snapshot() == AddAll(EmptyGraph, records[..i])
      {
        AddAllSnoc(EmptyGraph, records, i);
        kg.AddStatement(records[i]);
      }
      assert records[..|records|] == records;
    }
  }

  /** A dictionary has as many entries as its order lists keys. */
  lemma EntityKeysCount(d: Index)
    ensures |d.items| == |d.keys|
  {
    NoDupCard(d.keys);
    assert d.items.Keys == set k | k in d.keys;
  }

  /** A list without duplicates has as many distinct elements as entries. */
  lemma {:induction false} NoDupCard<T>(s: seq<T>)
    requires NoDup(s)
    ensures |set x | x in s| == |s|
  {
    if s != [] {
      var init := s[..|s| - 1];
      assert NoDup(init) by {
        forall i, j | 0 <= i < j < |init| ensures init[i] != init[j] {
          assert init[i] == s[i] && init[j] == s[j];
        }
      }
      NoDupCard(init);
      assert (set x | x in s) == (set x | x in init) + {s[|s| - 1]};
      assert s[|s| - 1] !in init by {
        forall i | 0 <= i < |init| ensures init[i] != s[|s| - 1] {
          assert init[i] == s[i];
        }
      }
    }
  }

  // ---------------------------------------------------------------------------
  // Display formatting

  /** The calendar emoji as the source text spells it: its UTF-8 bytes read as
      Windows-1252. */
  const Calendar: string := "\U{F0}\U{178}\U{201C}\U{2026}"

  /** The bullet as the source text spells it, garbled the same way. */
  const BulletMark: string := "\U{E2}\U{20AC}\U{A2}"

  const NoTimelineEvents: string := "No timeline events found."
  const NoRelevantInformation: string := "No relevant information found."

  /** The lines of one timeline entry; `show` renders an instant. */
  function EntryLines(x: TimelineEntry, show: Instant -> string): seq<string> {
    var te := x.temporalEvent;
    ["\n" + Calendar + " Statement: " + x.text,
     "   Type: " + x.temporalClass.Value() + " (" + x.factType.Value() + ")"]
    + (if x.triplets != [] then ["   Triplets:"] + BulletLines(x.triplets) else [])
    + (if te.tCreated.Some? then ["   Created: " + show(te.tCreated.value)] else [])
    + (if te.tValid.Some? then ["   Valid from: " + show(te.tValid.value)] else [])
    + (if te.tInvalid.Some? then ["   Valid until: " + show(te.tInvalid.value)] else [])
    + (if te.tExpired.Some? then ["   Expires: " + show(te.tExpired.value)] else [])
    + [Repeat('-', 30)]
  }

  function BulletLines(items: seq<string>): (r: seq<string>)
    ensures |r| == |items|
    ensures forall i :: 0 <= i < |r| ==> r[i] == "     " + BulletMark + " " + items[i]
  {
    seq(|items|, i requires 0 <= i < |items| => "     " + BulletMark + " " + items[i])
  }

  function EntriesLines(timeline: seq<TimelineEntry>, show: Instant -> string): seq<string> {
    if timeline == [] then []
    else EntriesLines(timeline[..|timeline| - 1], show) + EntryLines(timeline[|timeline| - 1], show)
  }

  /** `format_timeline_for_display`. */
  function FormatTimelineForDisplay(timeline: seq<TimelineEntry>, show: Instant -> string): string {
    if timeline == [] then NoTimelineEvents
    else Join("\n", ["Timeline of Events:", Repeat('=', 50)] + EntriesLines(timeline, show))
  }

  /** The fixed text is shown exactly when there are no events: otherwise the text
      starts with the heading. */
  lemma TimelineEmptyText(timeline: seq<TimelineEntry>, show: Instant -> string)
    ensures FormatTimelineForDisplay(timeline, show) == NoTimelineEvents <==> timeline == []
    ensures timeline != [] ==> "Timeline of Events:\n" <= FormatTimelineForDisplay(timeline, show)
  {
    if timeline != [] {
      var f := FormatTimelineForDisplay(timeline, show);
      assert f[..20] == "Timeline of Events:\n";
      assert f[0] != NoTimelineEvents[0];
    }
  }

  /** Every entry of the timeline is shown, under its text. */
  lemma {:induction false} TimelineShowsEveryEntry(timeline: seq<TimelineEntry>, show: Instant -> string, i: nat)
    requires i < |timeline|
    ensures "\n" + Calendar + " Statement: " + timeline[i].text in EntriesLines(timeline, show)
  {
    var init := timeline[..|timeline| - 1];
    if i < |init| {
      TimelineShowsEveryEntry(init, show, i);
      assert init[i] == timeline[i];
    } else {
      assert EntryLines(timeline[i], show)[0] == "\n" + Calendar + " Statement: " + timeline[i].text;
    }
  }

  /** The lines of the `i`-th statement (counting from one) of a query result. */
  function StatementLines(st: Statement, i: nat, show: Instant -> string): seq<string> {
    ["\n" + DecimalString(i) + ". " + st.text,
     "   Type: " + st.temporalClass.Value() + " (" + st.factType.Value() + ")",
     "   Source: " + (if Truthy(st.source) then st.source.value else "Unknown")]
    + (if st.triplets != [] then ["   Triplets:"] + BulletLines(TripletStrings(st.triplets)) else [])
    + (if st.temporalEvent.Some? && st.temporalEvent.value.tValid.Some?
       then ["   Valid from: " + show(st.temporalEvent.value.tValid.value)] else [])
    + (if st.temporalEvent.Some? && st.temporalEvent.value.tInvalid.Some?
       then ["   Valid until: " + show(st.temporalEvent.value.tInvalid.value)] else [])
    + (if st.invalidatedBy != [] then ["   Invalidated by: " + Join(", ", st.invalidatedBy)] else [])
  }

  function TripletStrings(ts: seq<Triplet>): seq<string> {
    seq(|ts|, i requires 0 <= i < |ts| => ts[i].ToString())
  }

  /** `enumerate(statements, 1)`. */
  function StatementsLines(ss: seq<Statement>, show: Instant -> string): seq<string> {
    if ss == [] then []
    else StatementsLines(ss[..|ss| - 1], show) + StatementLines(ss[|ss| - 1], |ss|, show)
  }

  /** The lines of `format_query_result` before its closing "nothing found" line. */
  function LeadingLines(result: QueryResult, show: Instant -> string): seq<string> {
    (if Truthy(result.answer) then ["Answer: " + result.answer.value, ""] else [])
    + (if result.statements != [] then
         ["Found " + DecimalString(|result.statements|) + " relevant statements:", Repeat('=', 50)]
         + StatementsLines(result.statements, show)
       else [])
    + (if result.timeline != [] then ["\n" + FormatTimelineForDisplay(result.timeline, show)] else [])
  }

  /** The lines `format_query_result` joins. */
  function QueryResultLines(result: QueryResult, show: Instant -> string): seq<string> {
    LeadingLines(result, show)
    + (if result.statements == [] && !Truthy(result.answer) then [NoRelevantInformation] else [])
  }

  /** `format_query_result`. */
  function FormatQueryResult(result: QueryResult, show: Instant -> string): string {
    Join("\n", QueryResultLines(result, show))
  }

  /** A line that cannot be the "nothing found" line: empty, or not starting with `N`. */
  predicate NotSentinelLike(line: string) {
    line == [] || line[0] != 'N'
  }

  /** Every statement line starts with a newline or a space. */
  lemma {:induction false} StatementsLinesIndented(ss: seq<Statement>, show: Instant -> string)
    ensures NoneSentinelLike(StatementsLines(ss, show))
  {
    if ss != [] {
      StatementsLinesIndented(ss[..|ss| - 1], show);
      StatementLinesIndented(ss[|ss| - 1], |ss|, show);
      NoneSentinelLikeConcat(StatementsLines(ss[..|ss| - 1], show), StatementLines(ss[|ss| - 1], |ss|, show));
    }
  }

  /** The lines of one statement start with a newline or a space. */
  lemma StatementLinesIndented(st: Statement, i: nat, show: Instant -> string)
    ensures NoneSentinelLike(StatementLines(st, i, show))
  {
    var te := st.temporalEvent;
    HeadLinesNotSentinel(st, i);
    TripletLinesNotSentinel(st.triplets);
    if te.Some? && te.value.tValid.Some? {
      IndentedNotSentinel("   Valid from: ", show(te.value.tValid.value));
    }
    if te.Some? && te.value.tInvalid.Some? {
      IndentedNotSentinel("   Valid until: ", show(te.value.tInvalid.value));
    }
    if st.invalidatedBy != [] {
      IndentedNotSentinel("   Invalidated by: ", Join(", ", st.invalidatedBy));
    }
    NoneSentinelLikeConcat5(
      ["\n" + DecimalString(i) + ". " + st.text,
       "   Type: " + st.temporalClass.Value() + " (" + st.factType.Value() + ")",
       "   Source: " + (if Truthy(st.source) then st.source.value else "Unknown")],
      if st.triplets != [] then ["   Triplets:"] + BulletLines(TripletStrings(st.triplets)) else [],
      if te.Some? && te.value.tValid.Some? then ["   Valid from: " + show(te.value.tValid.value)] else [],
      if te.Some? && te.value.tInvalid.Some? then ["   Valid until: " + show(te.value.tInvalid.value)] else [],
      if st.invalidatedBy != [] then ["   Invalidated by: " + Join(", ", st.invalidatedBy)] else []);
  }

  lemma HeadLinesNotSentinel(st: Statement, i: nat)
    ensures NoneSentinelLike(["\n" + DecimalString(i) + ". " + st.text,
                              "   Type: " + st.temporalClass.Value() + " (" + st.factType.Value() + ")",
                              "   Source: " + (if Truthy(st.source) then st.source.value else "Unknown")])
  {
    assert ("\n" + DecimalString(i) + ". " + st.text)[0] == '\n';
    assert ("   Type: " + st.temporalClass.Value() + " (" + st.factType.Value() + ")")[0] == ' ';
    assert ("   Source: " + (if Truthy(st.source) then st.source.value else "Unknown"))[0] == ' ';
  }

  lemma TripletLinesNotSentinel(ts: seq<Triplet>)
    ensures NoneSentinelLike(if ts != [] then ["   Triplets:"] + BulletLines(TripletStrings(ts)) else [])
  {
    if ts != [] {
      var b := ["   Triplets:"] + BulletLines(TripletStrings(ts));
      forall k | 0 <= k < |b| ensures NotSentinelLike(b[k]) {
        if k > 0 {
          assert b[k] == BulletLines(TripletStrings(ts))[k - 1];
        }
      }
    }
  }

  lemma IndentedNotSentinel(caption: string, value: string)
    requires caption != [] && caption[0] == ' '
    ensures NoneSentinelLike([caption + value])
  {
    assert (caption + value)[0] == ' ';
  }

  lemma NoneSentinelLikeConcat5(a: seq<string>, b: seq<string>, c: seq<string>, d: seq<string>, e: seq<string>)
    requires NoneSentinelLike(a) && NoneSentinelLike(b) && NoneSentinelLike(c)
    requires NoneSentinelLike(d) && NoneSentinelLike(e)
    ensures NoneSentinelLike(a + b + c + d + e)
  {
    NoneSentinelLikeConcat3(a, b, c);
    NoneSentinelLikeConcat3(a + b + c, d, e);
  }

  predicate NoneSentinelLike(lines: seq<string>) {
    forall k :: 0 <= k < |lines| ==> NotSentinelLike(lines[k])
  }

  lemma NoneSentinelLikeConcat(a: seq<string>, b: seq<string>)
    requires NoneSentinelLike(a) && NoneSentinelLike(b)
    ensures NoneSentinelLike(a + b)
  {
    forall k | 0 <= k < |a + b| ensures NotSentinelLike((a + b)[k]) {
      if k >= |a| {
        assert (a + b)[k] == b[k - |a|];
      }
    }
  }

  lemma StatementBlockNotSentinel(ss: seq<Statement>, show: Instant -> string)
    ensures NoneSentinelLike(["Found " + DecimalString(|ss|) + " relevant statements:", Repeat('=', 50)]
                             + StatementsLines(ss, show))
  {
    StatementsLinesIndented(ss, show);
    HeaderNotSentinel(DecimalString(|ss|), StatementsLines(ss, show));
  }

  /** The two heading lines of the statement block are not the "nothing found" line. */
  lemma HeaderNotSentinel(count: string, lines: seq<string>)
    requires NoneSentinelLike(lines)
    ensures NoneSentinelLike(["Found " + count + " relevant statements:", Repeat('=', 50)] + lines)
  {
    var header := ["Found " + count + " relevant statements:", Repeat('=', 50)];
    assert header[0][0] == 'F' && header[1][0] == '=';
    NoneSentinelLikeConcat(header, lines);
  }

  /** None of the leading lines can be the closing "nothing found" line. */
  lemma LeadingLinesNotSentinel(result: QueryResult, show: Instant -> string)
    ensures NoneSentinelLike(LeadingLines(result, show))
  {
    var a := if Truthy(result.answer) then ["Answer: " + result.answer.value, ""] else [];
    var b := if result.statements != [] then
               ["Found " + DecimalString(|result.statements|) + " relevant statements:", Repeat('=', 50)]
               + StatementsLines(result.statements, show)
             else [];
    var c := if result.timeline != [] then ["\n" + FormatTimelineForDisplay(result.timeline, show)] else [];
    if Truthy(result.answer) {
      AnswerNotSentinel(result.answer.value);
    }
    if result.statements != [] {
      StatementBlockNotSentinel(result.statements, show);
    }
    if result.timeline != [] {
      TimelineNotSentinel(FormatTimelineForDisplay(result.timeline, show));
    }
    NoneSentinelLikeConcat3(a, b, c);
  }

  lemma AnswerNotSentinel(answer: string)
    ensures NoneSentinelLike(["Answer: " + answer, ""])
  {
    assert ("Answer: " + answer)[0] == 'A';
  }

  lemma TimelineNotSentinel(text: string)
    ensures NoneSentinelLike(["\n" + text])
  {
    assert ("\n" + text)[0] == '\n';
  }

  lemma NoneSentinelLikeConcat3(a: seq<string>, b: seq<string>, c: seq<string>)
    requires NoneSentinelLike(a) && NoneSentinelLike(b) && NoneSentinelLike(c)
    ensures NoneSentinelLike(a + b + c)
  {
    NoneSentinelLikeConcat(a, b);
    NoneSentinelLikeConcat(a + b, c);
  }

  /** "No relevant information found." is one of the lines exactly when there are no
      statements and no answer. */
  lemma NoInformationLine(result: QueryResult, show: Instant -> string)
    ensures NoRelevantInformation in QueryResultLines(result, show) <==>
      result.statements == [] && !Truthy(result.answer)
  {
    if !(result.statements == [] && !Truthy(result.answer)) {
      LeadingLinesNotSentinel(result, show);
      assert !NotSentinelLike(NoRelevantInformation);
    }
  }

  /** With an answer the text starts with the answer line; without one it does not
      start with `A`. */
  lemma AnswerFirst(result: QueryResult, show: Instant -> string)
    ensures var f := FormatQueryResult(result, show);
      && (Truthy(result.answer) ==> "Answer: " + result.answer.value + "\n" <= f)
      && (|f| > 0 && f[0] == 'A' <==> Truthy(result.answer))
  {
  }
}
