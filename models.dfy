/** The data model of the temporal knowledge graph and the in-memory store
    (`KnowledgeGraph`): statements by id plus an inverted index from entity names
    to the ids of the statements that mention them. */
module Models {
  import opened Wrappers
  import opened Seqs
  import opened Text
  import opened Dicts

  /** An instant, counted from `datetime.min`; so `datetime.min` is the least instant. */
  type Instant = nat

  const MinInstant: Instant := 0

  datatype TemporalClass = Atemporal | Static | Dynamic {
    /** The enum's string value. */
    function Value(): string {
      match this
      case Atemporal => "atemporal"
      case Static => "static"
      case Dynamic => "dynamic"
    }
  }

  datatype FactType = Fact | Opinion | Prediction {
    /** The enum's string value. */
    function Value(): string {
      match this
      case Fact => "fact"
      case Opinion => "opinion"
      case Prediction => "prediction"
    }
  }

  /** Four optional instants: when a statement was recorded (`tCreated`), a hard
      cutoff (`tExpired`) and the validity window `[tValid, tInvalid)`. */
  datatype TemporalEvent = TemporalEvent(
    tCreated: Option<Instant>,
    tExpired: Option<Instant>,
    tValid: Option<Instant>,
    tInvalid: Option<Instant>)
  {
    /** `TemporalEvent.is_valid_at`: three early exits, then true. */
    predicate IsValidAt(t: Instant) {
      if tValid.Some? && t < tValid.value then false
      else if tInvalid.Some? && t >= tInvalid.value then false
      else if tExpired.Some? && t >= tExpired.value then false
      else true
    }

    /** The first instant at which the event no longer holds, if any: the earlier
        of `tInvalid` and `tExpired`. */
    function Deadline(): Option<Instant> {
      match (tInvalid, tExpired)
      case (None, None) => None
      case (Some(a), None) => Some(a)
      case (None, Some(b)) => Some(b)
      case (Some(a), Some(b)) => Some(if a <= b then a else b)
    }
  }

  /** An event with all four instants unset. */
  const Unbounded: TemporalEvent := TemporalEvent(None, None, None, None)

  /** The containment test is membership in the half-open window from `tValid`
      (or the minimum instant) up to the deadline. */
  lemma ValidityWindow(e: TemporalEvent, t: Instant)
    ensures e.IsValidAt(t) <==>
      e.tValid.GetOr(MinInstant) <= t && (e.Deadline().None? || t < e.Deadline().value)
  {
  }

  /** Each bound rules out the instants on its wrong side; with none of them
      violated, the event holds. */
  lemma ValidityBounds(e: TemporalEvent, t: Instant)
    ensures e.tValid.Some? && t < e.tValid.value ==> !e.IsValidAt(t)
    ensures e.tInvalid.Some? && t >= e.tInvalid.value ==> !e.IsValidAt(t)
    ensures e.tExpired.Some? && t >= e.tExpired.value ==> !e.IsValidAt(t)
    ensures ((e.tValid.None? || e.tValid.value <= t)
             && (e.tInvalid.None? || t < e.tInvalid.value)
             && (e.tExpired.None? || t < e.tExpired.value)) ==> e.IsValidAt(t)
  {
  }

  /** An event with nothing set holds at every instant. */
  lemma UnboundedAlwaysValid(t: Instant)
    ensures Unbounded.IsValidAt(t)
  {
  }

  /** The instants at which an event holds form an interval. */
  lemma ValidityIsInterval(e: TemporalEvent, t1: Instant, t2: Instant, t3: Instant)
    requires t1 <= t2 <= t3 && e.IsValidAt(t1) && e.IsValidAt(t3)
    ensures e.IsValidAt(t2)
  {
  }

  /** A subject-predicate-object fact fragment (`object` is a keyword here). */
  datatype Triplet = Triplet(subject: string, pred: string, obj: string) {
    /** `Triplet.__str__`: `"subject" - "predicate" - "object"`. */
    function ToString(): string {
      "\"" + subject + "\" - \"" + pred + "\" - \"" + obj + "\""
    }

    predicate QuoteFree() {
      '"' !in subject && '"' !in pred && '"' !in obj
    }
  }

  /** The position of the first quote in `s`, or `|s|` when there is none. */
  function FirstQuote(s: string): (r: nat)
    ensures r <= |s|
  {
    if s == [] || s[0] == '"' then 0 else 1 + FirstQuote(s[1..])
  }

  lemma {:induction false} FirstQuoteAfter(a: string, x: string)
    requires '"' !in a
    ensures FirstQuote(a + "\"" + x) == |a|
  {
    if a != [] {
      assert (a + "\"" + x)[1..] == a[1..] + "\"" + x;
      FirstQuoteAfter(a[1..], x);
    }
  }

  /** Cutting at the first quote: when neither `a` nor `b` contains a quote, the
      quote that follows them is the first one and pins down both halves. */
  lemma SplitAtQuote(a: string, x: string, b: string, y: string)
    requires '"' !in a && '"' !in b
    requires a + "\"" + x == b + "\"" + y
    ensures a == b && x == y
  {
    var s := a + "\"" + x;
    FirstQuoteAfter(a, x);
    FirstQuoteAfter(b, y);
    assert a == s[..|a|] && b == s[..|b|];
    assert x == s[|a| + 1..] && y == s[|b| + 1..];
  }

  /** The text after the subject's closing quote. */
  function AfterSubject(t: Triplet): string {
    " - \"" + t.pred + "\"" + AfterPredicate(t)
  }

  /** The text after the predicate's closing quote. */
  function AfterPredicate(t: Triplet): string {
    " - \"" + t.obj + "\""
  }

  lemma ToStringShape(t: Triplet)
    ensures t.ToString()[1..] == t.subject + "\"" + AfterSubject(t)
    ensures AfterSubject(t)[4..] == t.pred + "\"" + AfterPredicate(t)
    ensures AfterPredicate(t)[4..] == t.obj + "\"" + ""
  {
    AfterSubjectShape(t);
    AfterPredicateShape(t);
  }

  lemma AfterSubjectShape(t: Triplet)
    ensures AfterSubject(t)[4..] == t.pred + "\"" + AfterPredicate(t)
  {
  }

  lemma AfterPredicateShape(t: Triplet)
    ensures AfterPredicate(t)[4..] == t.obj + "\"" + ""
  {
  }

  /** The display form identifies the triplet as long as no field contains a quote. */
  lemma ToStringInjective(t1: Triplet, t2: Triplet)
    requires t1.QuoteFree() && t2.QuoteFree()
    requires t1.ToString() == t2.ToString()
    ensures t1 == t2
  {
    ToStringShape(t1);
    ToStringShape(t2);
    SplitAtQuote(t1.subject, AfterSubject(t1), t2.subject, AfterSubject(t2));
    SplitAtQuote(t1.pred, AfterPredicate(t1), t2.pred, AfterPredicate(t2));
    SplitAtQuote(t1.obj, "", t2.obj, "");
  }

  /** With quotes inside the fields, two different triplets can print alike. */
  lemma ToStringAmbiguousWithQuotes()
    ensures Triplet("a\" - \"b", "c", "d").ToString() == Triplet("a", "b\" - \"c", "d").ToString()
  {
  }

  /** A statement: source text, classification, triplets, optional validity
      information, provenance, and the ids of the statements that superseded it. */
  datatype Statement = Statement(
    id: string,
    text: string,
    temporalClass: TemporalClass,
    factType: FactType,
    triplets: seq<Triplet>,
    temporalEvent: Option<TemporalEvent>,
    source: Option<string>,
    confidence: real,
    invalidatedBy: seq<string>)
  {
    /** `Statement.is_valid_at`: delegated to the event, true when there is none. */
    predicate IsValidAt(t: Instant) {
      match temporalEvent
      case None => true
      case Some(e) => e.IsValidAt(t)
    }

    /** Some triplet has `e` as its subject or its object. */
    predicate Mentions(e: string) {
      MentionedBy(triplets, e)
    }
  }

  predicate MentionedBy(ts: seq<Triplet>, e: string) {
    exists i :: 0 <= i < |ts| && (ts[i].subject == e || ts[i].obj == e)
  }

  /** A statement without an event holds at every instant. */
  lemma StatementWithoutEventAlwaysValid(s: Statement, t: Instant)
    requires s.temporalEvent.None?
    ensures s.IsValidAt(t)
  {
  }

  predicate HasEvent(s: Statement) {
    s.temporalEvent.Some?
  }

  // ---------------------------------------------------------------------------
  // The entity index

  type Index = Dict<string, seq<string>>

  /** `entities.get(e, [])`. */
  function Bucket(ents: Index, e: string): seq<string> {
    Get(ents, e, [])
  }

  /** One step of the indexing loop of `add_statement`: create the bucket of `e`
      if needed, then append `id` unless it is already there. */
  function IndexEntity(ents: Index, e: string, id: string): (r: Index)
    ensures forall x :: x in r.items <==> x in ents.items || x == e
    ensures ents.keys <= r.keys
    ensures Bucket(r, e) == if id in Bucket(ents, e) then Bucket(ents, e) else Bucket(ents, e) + [id]
    ensures forall e' :: e' != e ==> Bucket(r, e') == Bucket(ents, e')
  {
    var created := if e in ents.items then ents else Put(ents, e, []);
    if id in created.items[e] then created else Put(created, e, created.items[e] + [id])
  }

  /** The whole indexing loop of `add_statement`, for the triplets `ts` in order
      (subject first, then object, for each triplet). */
  function IndexTriplets(ents: Index, id: string, ts: seq<Triplet>): Index {
    if ts == [] then ents
    else
      var t := ts[|ts| - 1];
      IndexEntity(IndexEntity(IndexTriplets(ents, id, ts[..|ts| - 1]), t.subject, id), t.obj, id)
  }

  lemma IndexTripletsSnoc(ents: Index, id: string, ts: seq<Triplet>, i: nat)
    requires i < |ts|
    ensures IndexTriplets(ents, id, ts[..i + 1]) ==
      IndexEntity(IndexEntity(IndexTriplets(ents, id, ts[..i]), ts[i].subject, id), ts[i].obj, id)
  {
    assert ts[..i + 1][..i] == ts[..i];
  }

  lemma MentionedBySplit(ts: seq<Triplet>, e: string)
    requires ts != []
    ensures MentionedBy(ts, e) <==>
      MentionedBy(ts[..|ts| - 1], e) || ts[|ts| - 1].subject == e || ts[|ts| - 1].obj == e
  {
    var init := ts[..|ts| - 1];
    if MentionedBy(ts, e) {
      var i :| 0 <= i < |ts| && (ts[i].subject == e || ts[i].obj == e);
      if i < |ts| - 1 { assert init[i] == ts[i]; }
    }
    if MentionedBy(init, e) {
      var i :| 0 <= i < |init| && (init[i].subject == e || init[i].obj == e);
      assert ts[i] == init[i];
    }
  }

  /** Indexing adds `id` once to the bucket of every entity the triplets mention,
      at the end and only if it is not already there, creates the buckets that were
      missing after the existing ones, and leaves every other bucket alone. */
  lemma {:induction false} IndexTripletsEffect(ents: Index, id: string, ts: seq<Triplet>, e: string)
    ensures var r := IndexTriplets(ents, id, ts);
      && (e in r.items <==> e in ents.items || MentionedBy(ts, e))
      && ents.keys <= r.keys
      && Bucket(r, e) ==
           if MentionedBy(ts, e) && id !in Bucket(ents, e) then Bucket(ents, e) + [id] else Bucket(ents, e)
  {
    if ts != [] {
      var init := ts[..|ts| - 1];
      var t := ts[|ts| - 1];
      var r0 := IndexTriplets(ents, id, init);
      assert IndexTriplets(ents, id, ts) == IndexEntity(IndexEntity(r0, t.subject, id), t.obj, id);
      IndexTripletsEffect(ents, id, init, e);
      MentionedBySplit(ts, e);
      IndexPairKeys(r0, t.subject, t.obj, id, e);
      IndexPairBucket(r0, t.subject, t.obj, id, e);
    }
  }

  /** Indexing one triplet creates the buckets of its subject and object and keeps the
      existing ones in order. */
  lemma IndexPairKeys(ents: Index, subject: string, obj: string, id: string, e: string)
    ensures var r := IndexEntity(IndexEntity(ents, subject, id), obj, id);
      (e in r.items <==> e in ents.items || e == subject || e == obj) && ents.keys <= r.keys
  {
    var r1 := IndexEntity(ents, subject, id);
    var r2 := IndexEntity(r1, obj, id);
    assert e in r1.items <==> e in ents.items || e == subject;
    assert e in r2.items <==> e in r1.items || e == obj;
    PrefixTrans(ents.keys, r1.keys, r2.keys);
  }

  /** Indexing one triplet adds `id` to the subject's and the object's bucket. */
  lemma IndexPairBucket(ents: Index, subject: string, obj: string, id: string, e: string)
    ensures Bucket(IndexEntity(IndexEntity(ents, subject, id), obj, id), e) ==
      if (e == subject || e == obj) && id !in Bucket(ents, e) then Bucket(ents, e) + [id] else Bucket(ents, e)
  {
    var r1 := IndexEntity(ents, subject, id);
    if e == subject && id !in Bucket(ents, e) {
      assert id in Bucket(r1, e);
    }
  }

  // ---------------------------------------------------------------------------
  // The store as a value

  /** The test "this id is stored". */
  function Stored(statements: Dict<string, Statement>): string -> bool {
    k => k in statements.items
  }

  /** `[statements[sid] for sid in ids if sid in statements]`: the statements of the
      stored ids, one for each, in the order of `ids`. */
  function Resolve(statements: Dict<string, Statement>, ids: seq<string>): (r: seq<Statement>)
    ensures |r| <= |ids|
    ensures (forall i :: 0 <= i < |ids| ==> ids[i] in statements.items) ==>
      |r| == |ids| && forall i :: 0 <= i < |ids| ==> r[i] == statements.items[ids[i]]
    ensures forall i :: 0 <= i < |ids| && ids[i] in statements.items ==> statements.items[ids[i]] in r
  {
    if ids == [] then []
    else
      var last := ids[|ids| - 1];
      Resolve(statements, ids[..|ids| - 1]) + (if last in statements.items then [statements.items[last]] else [])
  }

  /** Resolving is filtering then looking up: one statement for each stored id, in the
      order of `ids`, and nothing for the unknown ones. */
  lemma {:induction false} ResolveKnown(statements: Dict<string, Statement>, ids: seq<string>)
    ensures var r, known := Resolve(statements, ids), Filter(ids, Stored(statements));
      |r| == |known| && forall j :: 0 <= j < |r| ==> r[j] == statements.items[known[j]]
  {
    if ids != [] {
      var init, last := ids[..|ids| - 1], ids[|ids| - 1];
      ResolveKnown(statements, init);
      assert Stored(statements)(last) == (last in statements.items);
    }
  }

  /** The value of a `KnowledgeGraph`: its two dictionaries. */
  datatype Graph = Graph(statements: Dict<string, Statement>, entities: Index) {

    /** `add_statement`: store (or overwrite) by id, then index every triplet. */
    function Add(s: Statement): Graph {
      Graph(Put(statements, s.id, s), IndexTriplets(entities, s.id, s.triplets))
    }

    /** `invalidate_statement`: append `by` to the target's `invalidated_by`;
        nothing happens for an unknown id. */
    function Invalidate(id: string, byId: string): Graph {
      if id in statements.items then
        var s := statements.items[id];
        Graph(Put(statements, id, s.(invalidatedBy := s.invalidatedBy + [byId])), entities)
      else this
    }

    /** `get_statements_for_entity`. */
    function StatementsFor(e: string): seq<Statement> {
      Resolve(statements, Bucket(entities, e))
    }

    /** `get_valid_statements_at`. */
    function ValidAt(t: Instant): seq<Statement> {
      Filter(Values(statements), (s: Statement) => s.IsValidAt(t))
    }

    predicate Indexed(e: string, id: string) {
      e in entities.items && id in entities.items[e]
    }

    /** Every statement is stored under its own id. */
    predicate KeysMatchIds() {
      forall k :: k in statements.items ==> statements.items[k].id == k
    }

    /** Every indexed id is a stored statement. */
    predicate Closed() {
      forall e, id :: e in entities.items && id in entities.items[e] ==> id in statements.items
    }

    /** Buckets are non-empty and free of duplicates. */
    predicate BucketsWellFormed() {
      forall e :: e in entities.items ==> entities.items[e] != [] && NoDup(entities.items[e])
    }

    /** Every triplet of a stored statement is indexed under its subject and object. */
    predicate Complete() {
      forall k, i :: k in statements.items && 0 <= i < |statements.items[k].triplets| ==>
        Indexed(statements.items[k].triplets[i].subject, k) && Indexed(statements.items[k].triplets[i].obj, k)
    }

    /** The store's invariant. */
    predicate Valid() {
      KeysMatchIds() && Closed() && BucketsWellFormed() && Complete()
    }

    /** The converse of completeness: an id is indexed under an entity only if the
        statement stored under that id mentions the entity. */
    predicate Sound() {
      forall e, id :: e in entities.items && id in entities.items[e] ==>
        id in statements.items && statements.items[id].Mentions(e)
    }
  }

  const EmptyGraph: Graph := Graph(Empty(), Empty())

  lemma EmptyGraphValid()
    ensures EmptyGraph.Valid() && EmptyGraph.Sound()
  {
  }

  /** `add_statement`: the statement is stored under its id (overwriting, but keeping
      the position of, an existing entry), every other entry is unchanged, and each
      bucket gains the id once, at its end, exactly when the statement mentions the
      entity and the id is not there yet. */
  lemma AddEffect(g: Graph, s: Statement, e: string)
    ensures var r := g.Add(s);
      && r.statements.items == g.statements.items[s.id := s]
      && (s.id in g.statements.items ==> r.statements.keys == g.statements.keys)
      && (s.id !in g.statements.items ==> r.statements.keys == g.statements.keys + [s.id])
      && g.entities.keys <= r.entities.keys
      && (e in r.entities.items <==> e in g.entities.items || s.Mentions(e))
      && Bucket(r.entities, e) ==
           if s.Mentions(e) && s.id !in Bucket(g.entities, e) then Bucket(g.entities, e) + [s.id]
           else Bucket(g.entities, e)
  {
    IndexTripletsEffect(g.entities, s.id, s.triplets, e);
  }

  /** After `add_statement` on a valid store, the id occurs exactly once in the bucket
      of every entity the statement mentions. */
  lemma AddIndexesOnce(g: Graph, s: Statement, e: string)
    requires g.Valid() && s.Mentions(e)
    ensures var b := Bucket(g.Add(s).entities, e);
      NoDup(b) && s.id in b
  {
    AddEffect(g, s, e);
    var b0 := Bucket(g.entities, e);
    assert NoDup(b0) by {
      if e in g.entities.items {
        assert b0 == g.entities.items[e];
      }
    }
    if s.id !in b0 {
      NoDupAppend(b0, s.id);
    }
  }

  /** How one bucket changes under `add_statement`. */
  predicate BucketGrows(g: Graph, r: Graph, s: Statement, e: string) {
    && (e in r.entities.items <==> e in g.entities.items || s.Mentions(e))
    && (Bucket(r.entities, e) == Bucket(g.entities, e)
        || (s.Mentions(e) && s.id !in Bucket(g.entities, e) && Bucket(r.entities, e) == Bucket(g.entities, e) + [s.id]))
    && (s.Mentions(e) ==> r.Indexed(e, s.id))
  }

  lemma AddBucketsGrow(g: Graph, s: Statement)
    ensures forall e :: BucketGrows(g, g.Add(s), s, e)
  {
    forall e ensures BucketGrows(g, g.Add(s), s, e) {
      AddEffect(g, s, e);
    }
  }

  lemma AddPreservesBuckets(g: Graph, s: Statement)
    requires g.Valid()
    ensures g.Add(s).Closed() && g.Add(s).BucketsWellFormed()
  {
    var r := g.Add(s);
    AddBucketsGrow(g, s);
    forall e | e in r.entities.items
      ensures r.entities.items[e] != [] && NoDup(r.entities.items[e])
      ensures forall id :: id in r.entities.items[e] ==> id in r.statements.items
    {
      assert BucketGrows(g, r, s, e);
    }
  }

  lemma AddPreservesComplete(g: Graph, s: Statement)
    requires g.Valid()
    ensures g.Add(s).Complete()
  {
    var r := g.Add(s);
    AddBucketsGrow(g, s);
    forall k, i | k in r.statements.items && 0 <= i < |r.statements.items[k].triplets|
      ensures r.Indexed(r.statements.items[k].triplets[i].subject, k)
      ensures r.Indexed(r.statements.items[k].triplets[i].obj, k)
    {
      var t := r.statements.items[k].triplets[i];
      assert BucketGrows(g, r, s, t.subject) && BucketGrows(g, r, s, t.obj);
      if k == s.id {
        assert s.Mentions(t.subject) && s.Mentions(t.obj);
      } else {
        assert g.Indexed(t.subject, k) && g.Indexed(t.obj, k);
      }
    }
  }

  /** `add_statement` keeps the store's invariant. */
  lemma AddPreservesValid(g: Graph, s: Statement)
    requires g.Valid()
    ensures g.Add(s).Valid()
  {
    AddPreservesBuckets(g, s);
    AddPreservesComplete(g, s);
  }

  /** Adding a statement under a fresh id keeps the index sound. */
  lemma AddFreshPreservesSound(g: Graph, s: Statement)
    requires g.Valid() && g.Sound() && s.id !in g.statements.items
    ensures g.Add(s).Sound()
  {
    var r := g.Add(s);
    forall e, id | e in r.entities.items && id in r.entities.items[e]
      ensures id in r.statements.items && r.statements.items[id].Mentions(e)
    {
      AddEffect(g, s, e);
    }
  }

  /** `invalidate_statement`: for a known id exactly one element is appended to its
      `invalidated_by` and nothing else changes; an unknown id changes nothing. */
  lemma InvalidateEffect(g: Graph, id: string, byId: string)
    ensures var r := g.Invalidate(id, byId);
      && r.entities == g.entities
      && r.statements.keys == g.statements.keys
      && r.statements.items.Keys == g.statements.items.Keys
      && (forall k :: k in g.statements.items && k != id ==> r.statements.items[k] == g.statements.items[k])
      && (id in g.statements.items ==>
            r.statements.items[id] == g.statements.items[id].(invalidatedBy := g.statements.items[id].invalidatedBy + [byId]))
      && (id !in g.statements.items ==> r == g)
  {
  }

  /** `invalidate_statement` keeps the invariant and soundness. */
  lemma InvalidatePreserves(g: Graph, id: string, byId: string)
    requires g.Valid()
    ensures g.Invalidate(id, byId).Valid()
    ensures g.Sound() ==> g.Invalidate(id, byId).Sound()
  {
    var r := g.Invalidate(id, byId);
    forall k | k in r.statements.items
      ensures r.statements.items[k].triplets == g.statements.items[k].triplets
      ensures r.statements.items[k].id == g.statements.items[k].id
    {
    }
  }

  /** `get_statements_for_entity` on a valid store: the bucket's statements in bucket
      order, none skipped; an unknown entity gives the empty list; every stored
      statement that mentions the entity is among them, and with a sound index
      nothing else is. */
  lemma StatementsForEntity(g: Graph, e: string)
    requires g.Valid()
    ensures var r := g.StatementsFor(e);
      && |r| == |Bucket(g.entities, e)|
      && (forall i :: 0 <= i < |r| ==>
            r[i].id == Bucket(g.entities, e)[i] && r[i] == g.statements.items[r[i].id])
      && (e !in g.entities.items ==> r == [])
      && (forall k :: k in g.statements.items && g.statements.items[k].Mentions(e) ==> g.statements.items[k] in r)
      && (g.Sound() ==> forall i :: 0 <= i < |r| ==> r[i].Mentions(e))
  {
    var b := Bucket(g.entities, e);
    var r := g.StatementsFor(e);
    forall k | k in g.statements.items && g.statements.items[k].Mentions(e)
      ensures g.statements.items[k] in r
    {
      var ts := g.statements.items[k].triplets;
      var i :| 0 <= i < |ts| && (ts[i].subject == e || ts[i].obj == e);
      assert g.Indexed(e, k);
      var j :| 0 <= j < |b| && b[j] == k;
    }
  }

  /** `get_valid_statements_at`: the stored statements valid at `t`, in store order. */
  lemma ValidAtMembership(g: Graph, t: Instant, s: Statement)
    ensures s in g.ValidAt(t) <==> s in Values(g.statements) && s.IsValidAt(t)
  {
    var vs := Values(g.statements);
    if s in vs && s.IsValidAt(t) {
      var i :| 0 <= i < |vs| && vs[i] == s;
    }
  }

  // ---------------------------------------------------------------------------
  // Timelines

  /** One element of `get_timeline_for_entity`'s result. */
  datatype TimelineEntry = TimelineEntry(
    statementId: string,
    text: string,
    temporalClass: TemporalClass,
    factType: FactType,
    triplets: seq<string>,
    temporalEvent: TemporalEvent)

  function EntryOf(s: Statement): TimelineEntry
    requires s.temporalEvent.Some?
  {
    TimelineEntry(s.id, s.text, s.temporalClass, s.factType,
                  seq(|s.triplets|, i requires 0 <= i < |s.triplets| => s.triplets[i].ToString()),
                  s.temporalEvent.value)
  }

  /** The list the timeline loop builds before sorting: one entry per statement that
      has an event, in order. */
  function EntriesOf(ss: seq<Statement>): (r: seq<TimelineEntry>)
    ensures var withEvents := Filter(ss, HasEvent);
      |r| == |withEvents| && forall i :: 0 <= i < |r| ==> r[i] == EntryOf(withEvents[i])
  {
    if ss == [] then []
    else
      var last := ss[|ss| - 1];
      EntriesOf(ss[..|ss| - 1]) + (if last.temporalEvent.Some? then [EntryOf(last)] else [])
  }

  /** The sort key: `t_created`, else `t_valid`, else the minimum instant. */
  function SortKey(x: TimelineEntry): Instant {
    x.temporalEvent.tCreated.GetOr(x.temporalEvent.tValid.GetOr(MinInstant))
  }

  predicate SortedByKey(xs: seq<TimelineEntry>) {
    forall i, j :: 0 <= i < j < |xs| ==> SortKey(xs[i]) <= SortKey(xs[j])
  }

  function KeyIs(k: Instant): TimelineEntry -> bool {
    (x: TimelineEntry) => SortKey(x) == k
  }

  /** Insert `x` after every element whose key is not larger than its own. */
  function InsertByKey(xs: seq<TimelineEntry>, x: TimelineEntry): (r: seq<TimelineEntry>)
    ensures |r| == |xs| + 1
  {
    if xs == [] || SortKey(xs[|xs| - 1]) <= SortKey(x) then xs + [x]
    else InsertByKey(xs[..|xs| - 1], x) + [xs[|xs| - 1]]
  }

  /** `list.sort(key=SortKey)`, which is stable: insertion sort that inserts each
      element after the equal keys already placed. */
  function SortByKey(xs: seq<TimelineEntry>): (r: seq<TimelineEntry>)
    ensures |r| == |xs|
  {
    if xs == [] then []
    else InsertByKey(SortByKey(xs[..|xs| - 1]), xs[|xs| - 1])
  }

  /** Inserting adds exactly `x`. */
  lemma {:induction false} InsertByKeyMultiset(xs: seq<TimelineEntry>, x: TimelineEntry)
    ensures multiset(InsertByKey(xs, x)) == multiset(xs) + multiset{x}
  {
    if !(xs == [] || SortKey(xs[|xs| - 1]) <= SortKey(x)) {
      var init, last := xs[..|xs| - 1], xs[|xs| - 1];
      InsertByKeyMultiset(init, x);
      assert xs == init + [last];
    }
  }

  /** The sort is a permutation. */
  lemma {:induction false} SortByKeyMultiset(xs: seq<TimelineEntry>)
    ensures multiset(SortByKey(xs)) == multiset(xs)
  {
    if xs != [] {
      var init, last := xs[..|xs| - 1], xs[|xs| - 1];
      SortByKeyMultiset(init);
      InsertByKeyMultiset(SortByKey(init), last);
      assert xs == init + [last];
    }
  }

  lemma {:induction false} InsertByKeySorted(xs: seq<TimelineEntry>, x: TimelineEntry)
    requires SortedByKey(xs)
    ensures SortedByKey(InsertByKey(xs, x))
  {
    if !(xs == [] || SortKey(xs[|xs| - 1]) <= SortKey(x)) {
      var init := xs[..|xs| - 1];
      InsertByKeySorted(init, x);
      InsertByKeyMultiset(init, x);
      var r' := InsertByKey(init, x);
      forall y | y in r' ensures SortKey(y) <= SortKey(xs[|xs| - 1]) {
        assert y in multiset(r');
        if y != x {
          assert y in multiset(init);
          var i :| 0 <= i < |init| && init[i] == y;
          assert xs[i] == y;
        }
      }
    }
  }

  /** Inserting `x` adds it after the elements that share its key. */
  lemma {:induction false} InsertByKeyStable(xs: seq<TimelineEntry>, x: TimelineEntry, k: Instant)
    ensures Filter(InsertByKey(xs, x), KeyIs(k)) == Filter(xs, KeyIs(k)) + Filter([x], KeyIs(k))
  {
    var p := KeyIs(k);
    if xs == [] || SortKey(xs[|xs| - 1]) <= SortKey(x) {
      FilterConcat(xs, [x], p);
    } else {
      var init, last := xs[..|xs| - 1], xs[|xs| - 1];
      assert init + [last] == xs;
      calc {
        Filter(InsertByKey(xs, x), p);
        Filter(InsertByKey(init, x) + [last], p);
        { FilterConcat(InsertByKey(init, x), [last], p); }
        Filter(InsertByKey(init, x), p) + Filter([last], p);
        { InsertByKeyStable(init, x, k); }
        Filter(init, p) + (Filter([x], p) + Filter([last], p));
        { assert !(p(x) && p(last)); FilterSingletonsCommute(x, last, p); }
        Filter(init, p) + Filter([last], p) + Filter([x], p);
        { FilterConcat(init, [last], p); }
        Filter(xs, p) + Filter([x], p);
      }
    }
  }

  /** The sorted timeline is sorted by key. */
  lemma {:induction false} SortByKeySorted(xs: seq<TimelineEntry>)
    ensures SortedByKey(SortByKey(xs))
  {
    if xs != [] {
      SortByKeySorted(xs[..|xs| - 1]);
      InsertByKeySorted(SortByKey(xs[..|xs| - 1]), xs[|xs| - 1]);
    }
  }

  /** The sort is stable: for every key, the elements with that key keep their
      relative order. */
  lemma {:induction false} SortByKeyStable(xs: seq<TimelineEntry>, k: Instant)
    ensures Filter(SortByKey(xs), KeyIs(k)) == Filter(xs, KeyIs(k))
  {
    if xs != [] {
      var init, last := xs[..|xs| - 1], xs[|xs| - 1];
      SortByKeyStable(init, k);
      InsertByKeyStable(SortByKey(init), last, k);
      FilterConcat(init, [last], KeyIs(k));
      assert init + [last] == xs;
    }
  }

  /** `get_timeline_for_entity` as a function of the entity's statements. */
  function Timeline(ss: seq<Statement>): seq<TimelineEntry> {
    SortByKey(EntriesOf(ss))
  }

  /** The timeline holds exactly the entries of the statements that have an event,
      sorted by key, with equal keys in lookup order. */
  lemma TimelineSpec(ss: seq<Statement>, k: Instant)
    ensures multiset(Timeline(ss)) == multiset(EntriesOf(ss))
    ensures SortedByKey(Timeline(ss))
    ensures Filter(Timeline(ss), KeyIs(k)) == Filter(EntriesOf(ss), KeyIs(k))
  {
    SortByKeyMultiset(EntriesOf(ss));
    SortByKeySorted(EntriesOf(ss));
    SortByKeyStable(EntriesOf(ss), k);
  }

  // ---------------------------------------------------------------------------
  // The mutable store

  /** `KnowledgeGraph`: the two dictionaries, updated in place. */
  class KnowledgeGraph {
    var statements: Dict<string, Statement>
    var entities: Index

    function Snapshot(): Graph
      reads this
    {
      Graph(statements, entities)
    }

    constructor ()
      ensures Snapshot() == EmptyGraph
    {
      statements := Empty();
      entities := Empty();
    }

    /** `add_statement`. */
    method AddStatement(s: Statement)
      modifies this
      ensures Snapshot() == old(Snapshot()).Add(s)
    {
      statements := Put(statements, s.id, s);
      ghost var ents0 := entities;
      for i := 0 to |s.triplets|
        invariant statements == Put(old(statements), s.id, s)
        invariant entities == IndexTriplets(ents0, s.id, s.triplets[..i])
      {
        IndexTripletsSnoc(ents0, s.id, s.triplets, i);
        var t := s.triplets[i];
        IndexEntityInPlace(t.subject, s.id);
        IndexEntityInPlace(t.obj, s.id);
      }
      assert s.triplets[..|s.triplets|] == s.triplets;
    }

    /** The body of the indexing loop, once for the subject and once for the object:
        create the entity's bucket if needed, then append the id unless present. */
    method IndexEntityInPlace(e: string, id: string)
      modifies this
      ensures statements == old(statements)
      ensures entities == IndexEntity(old(entities), e, id)
    {
      if e !in entities.items {
        entities := Put(entities, e, []);
      }
      if id !in entities.items[e] {
        entities := Put(entities, e, entities.items[e] + [id]);
      }
    }

    /** `invalidate_statement`. */
    method InvalidateStatement(id: string, byId: string)
      modifies this
      ensures Snapshot() == old(Snapshot()).Invalidate(id, byId)
    {
      if id in statements.items {
        var s := statements.items[id];
        statements := Put(statements, id, s.(invalidatedBy := s.invalidatedBy + [byId]));
      }
    }

    /** `get_timeline_for_entity`: collect the entries of the entity's statements
        that have an event, then sort them by key. */
    method GetTimelineForEntity(e: string) returns (timeline: seq<TimelineEntry>)
      ensures timeline == Timeline(Snapshot().StatementsFor(e))
    {
      var stmts := Snapshot().StatementsFor(e);
      timeline := [];
      for i := 0 to |stmts|
        invariant timeline == EntriesOf(stmts[..i])
      {
        assert stmts[..i + 1][..i] == stmts[..i];
        var s := stmts[i];
        if s.temporalEvent.Some? {
          timeline := timeline + [EntryOf(s)];
        }
      }
      assert stmts[..|stmts|] == stmts;
      timeline := SortByKey(timeline);
    }
  }

  // ---------------------------------------------------------------------------
  // Queries

  /** `TemporalQuery`. */
  datatype TemporalQuery = TemporalQuery(
    entity: Option<string>,
    pred: Option<string>,
    timestamp: Option<Instant>,
    temporalRange: Option<(Instant, Instant)>,
    question: Option<string>)

  /** `QueryResult`. */
  datatype QueryResult = QueryResult(
    statements: seq<Statement>,
    timeline: seq<TimelineEntry>,
    answer: Option<string>,
    confidence: real)
}
