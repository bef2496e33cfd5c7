# Temporal knowledge graph: a verified model of the store, the resolver and the workflow

This project models the core of a temporal knowledge graph. A text is split into
sentence-like chunks, and each chunk becomes a statement with:
- a temporal class and a fact type;
- subject-predicate-object triplets;
- an optional temporal event (creation, validity window, expiry).

Statements go into an in-memory store. The store keeps statements by id plus an
inverted index from entity names to the ids of the statements that mention them.
When a new statement contradicts an older one (same subject and predicate, another
object, strictly later creation time), the older one is not deleted: the new id is
appended to its `invalidated_by` list. Queries look up an entity (optionally at an
instant) or scan a time range, and can ask a language model to answer a question
from the statements found. The manager adds the statistics, the rebuild of a saved
store and two text formatters.

Modules, one per source file plus shared helpers:

- `Models` (models.py): the data model, validity tests, triplet rendering, the store
  as a value (`Graph`) with its invariant (`Valid`: keys match ids, the index is
  closed, its buckets are non-empty and duplicate-free, and every triplet is
  indexed) and the converse (`Sound`). The class `KnowledgeGraph` updates the two
  dictionaries in place, and each method is proved against `Graph`. The timeline is
  a stable insertion sort on the key `t_created`, else `t_valid`, else the minimum
  instant.
- `TemporalAgent` (temporal_agent.py): conflict detection, the invalidation scan,
  chunking, id assignment in `process_document` and query routing. Chunking models
  `re.split(r'[.!?]+', text)` with a character scanner (`SplitFrom`).
- `Utils` (utils.py): the invalidate-then-insert workflow of
  `KnowledgeGraphManager` (a class holding the store), the statistics, the rebuild
  on load, and `format_timeline_for_display` / `format_query_result`.
- `Wrappers`, `Seqs`, `Text`, `Dicts`: `Option`, list filtering, the parts of `str`
  that the code uses (`strip`, `str(int)`, `join`, repetition), and Python's
  insertion-ordered `dict` (assigning to an existing key keeps its position).

Modelling conventions:
- Instants are natural numbers counted from `datetime.min`, which is instant 0.
  A `datetime` is always truthy, so `if te.t_valid` means "is set".
- The three extraction calls and the answering call are oracles. The extraction
  calls are the fields of an `Extractor`, each returning `None` where the source
  catches an exception; the source's fallbacks then apply (`STATIC`, `[]`, no
  event). The answering call is a `Summarizer`, whose `None` gives the fixed error
  reply.
- Rendering an instant is a parameter `show` of the formatters.

Two behaviours of the source are stated as lemmas rather than corrected:
- The range query includes a statement whose window ends exactly at the range
  start, although the statement is valid at no instant of the range
  (`RangeIncludesEndPoint`).
- `query_natural_language` sets neither an entity nor a range, so it retrieves
  nothing. A non-empty question therefore always gets the fixed reply "No relevant
  information found in the knowledge graph." (`QueryNaturalLanguage`).

## Model

| member | source | states |
|---|---|---|
| `Models.TemporalEvent.IsValidAt` | models.py:33-41 | `is_valid_at` of an event, with the same three tests in the same order; its meaning is stated by `ValidityWindow`, `ValidityBounds`, `UnboundedAlwaysValid` and `ValidityIsInterval` |
| `Models.ValidityWindow` | models.py:33-41 | an event holds at `t` exactly when `t` is at or after `t_valid` (or the minimum instant) and before the earlier of `t_invalid` and `t_expired` |
| `Models.ValidityBounds` | models.py:35-41 | a set `t_valid` excludes earlier instants; a set `t_invalid` or `t_expired` excludes that instant and later ones; with no bound violated the event holds |
| `Models.UnboundedAlwaysValid` | models.py:33-41 | an event with no instant set holds at every instant |
| `Models.ValidityIsInterval` | models.py:33-41 | the instants at which an event holds form an interval |
| `Models.Triplet.ToString` | models.py:50-51 | `__str__` of a triplet; `ToStringInjective` and `ToStringAmbiguousWithQuotes` state when renderings tell triplets apart |
| `Models.ToStringInjective` | models.py:50-51 | for triplets without double quotes, equal renderings `"s" - "p" - "o"` mean equal triplets |
| `Models.ToStringAmbiguousWithQuotes` | models.py:50-51 | with quotes inside the fields, two different triplets render the same |
| `Models.Statement.IsValidAt` | models.py:66-70 | `is_valid_at` of a statement: valid when it has no event, else as its event; stated by `StatementWithoutEventAlwaysValid` and `ValidAtMembership` |
| `Models.StatementWithoutEventAlwaysValid` | models.py:66-70 | a statement without a temporal event is valid at every instant |
| `Models.IndexTripletsEffect` | models.py:83-92 | the indexing loop adds the id once, at the end, to the bucket of every entity the triplets mention, creates missing buckets after existing ones, and leaves other buckets alone |
| `Models.IndexEntity` | models.py:87-92 | one indexing step creates the entity's bucket if missing, appends the id unless it is already there, and leaves every other bucket alone |
| `Models.Graph.Add` | models.py:78-92 | `add_statement` on the store value; `AddEffect`, `AddIndexesOnce`, `AddPreservesValid` and `AddFreshPreservesSound` state its effect |
| `Models.AddEffect` | models.py:78-92 | `add_statement` stores the statement under its id (overwriting in place, or appending a new key), keeps every other entry, and appends the id to a bucket exactly when the entity is mentioned and the id is not already there |
| `Models.AddIndexesOnce` | models.py:83-92 | after `add_statement` on a valid store, the id occurs exactly once in the bucket of every mentioned entity |
| `Models.AddPreservesValid` | models.py:78-92 | `add_statement` keeps the invariant: keys match ids, every indexed id is stored, buckets are non-empty and duplicate-free, every triplet is indexed |
| `Models.AddFreshPreservesSound` | models.py:78-92 | adding under a fresh id keeps every indexed id pointing at a statement that mentions the entity |
| `Models.EmptyGraphValid` | models.py:73-76 | the empty store satisfies the invariant and is sound |
| `Models.Graph.Invalidate` | models.py:103-106 | `invalidate_statement` on the store value; `InvalidateEffect` and `InvalidatePreserves` state its effect |
| `Models.InvalidateEffect` | models.py:103-106 | for a stored id exactly one element (`by`) is appended to its `invalidated_by` and nothing else changes; an unknown id changes nothing |
| `Models.InvalidatePreserves` | models.py:103-106 | `invalidate_statement` keeps the invariant and soundness |
| `Models.Resolve` | models.py:96-97 | at most one statement per id; with every id stored, exactly the statements of the ids in id order; every stored id's statement is kept |
| `Models.ResolveKnown` | models.py:96-97 | the result is the statements of the stored ids, one for each, in the order of the ids: unknown ids are dropped and nothing else is |
| `Models.Graph.StatementsFor` | models.py:94-97 | `get_statements_for_entity` on the store value; stated by `StatementsForEntity` |
| `Models.StatementsForEntity` | models.py:94-97 | on a valid store the result is the bucket's statements in bucket order; an unknown entity gives `[]`; every statement mentioning the entity is included, and with a sound index only those |
| `Models.Graph.ValidAt` | models.py:99-101 | `get_valid_statements_at` on the store value; stated by `ValidAtMembership` |
| `Models.ValidAtMembership` | models.py:99-101 | a statement is in the time slice exactly when it is stored and valid at the instant |
| `Models.EntriesOf` | models.py:110-123 | the timeline loop makes one entry per statement that has an event, in order, carrying its id, text, classes, rendered triplets and event |
| `Models.SortByKeySorted` | models.py:125-128 | the sort leaves the entries non-decreasing by `t_created`, else `t_valid`, else the minimum instant |
| `Models.SortByKeyStable` | models.py:125-128 | the sort is stable: entries with equal keys keep their relative order |
| `Models.SortByKeyMultiset` | models.py:125-128 | the sort is a permutation of its input |
| `Models.Timeline` | models.py:108-130 | the entries of the statements with events, sorted by key; stated by `TimelineSpec` |
| `Models.TimelineSpec` | models.py:108-130 | the timeline is a permutation of the entity's entries with events, sorted by key and stable |
| `Models.KnowledgeGraph.constructor` | models.py:73-76 | a new store is empty |
| `Models.KnowledgeGraph.AddStatement` | models.py:78-92 | the in-place dictionary and list updates leave exactly the store value `Add(s)` |
| `Models.KnowledgeGraph.IndexEntityInPlace` | models.py:87-92 | creating the bucket if needed and appending the id unless present changes the index exactly as one indexing step and leaves the statements alone |
| `Models.KnowledgeGraph.InvalidateStatement` | models.py:103-106 | the in-place append leaves exactly the store value `Invalidate(id, by)` |
| `Models.KnowledgeGraph.GetTimelineForEntity` | models.py:108-130 | the loop and sort return the timeline of the entity's statements |
| `TemporalAgent.Conflicts` | temporal_agent.py:239-256 | the relation `_statements_conflict` decides; `StatementsConflict` is proved to compute it, and `ConflictNeeds`, `ConflictIrreflexive` and `ConflictAsymmetric` state its properties |
| `TemporalAgent.StatementsConflict` | temporal_agent.py:239-256 | the nested loops with early return decide exactly: some triplet pair clashes, both statements have a creation instant, and the first is strictly later |
| `TemporalAgent.ConflictIrreflexive` | temporal_agent.py:253 | no statement conflicts with itself |
| `TemporalAgent.ConflictAsymmetric` | temporal_agent.py:250-254 | two statements never conflict with each other both ways |
| `TemporalAgent.ConflictNeeds` | temporal_agent.py:243-254 | a conflict needs events with creation instants on both sides and a pair with equal subject, equal predicate and unequal object |
| `TemporalAgent.CeoChangeScenario` | temporal_agent.py:239-256 | a later statement naming another CEO conflicts with the earlier one and not the other way round |
| `TemporalAgent.ConflictIds` | temporal_agent.py:227-237 | the collected ids are the ids of the conflicting existing statements, in input order |
| `TemporalAgent.CheckInvalidation` | temporal_agent.py:227-237 | the loop returns exactly those ids |
| `TemporalAgent.ConflictIdsMembership` | temporal_agent.py:227-237 | an id is returned exactly when some existing statement with that id conflicts with the new one |
| `TemporalAgent.ConflictIdsNoDup` | temporal_agent.py:227-237 | with distinct ids among the existing statements, no id is returned twice |
| `TemporalAgent.SplitRunsPieces` | temporal_agent.py:216 | the split pieces contain no `.`, `!` or `?` |
| `TemporalAgent.Chunks` | temporal_agent.py:213-225 | `_chunk_text` as a value; `ChunkText` is proved to compute it, and `ChunksOfPlainText`, `ChunksConcat`, `ChunkShape` and `ChunkIsStripped` state its properties |
| `TemporalAgent.ChunksOfPlainText` | temporal_agent.py:216-225 | a text without terminators is one chunk (its stripped form) when that is longer than 10 characters, else none |
| `TemporalAgent.ChunksConcat` | temporal_agent.py:216-225 | chunking a text with a terminator in the middle is chunking the two sides, in order |
| `TemporalAgent.ChunkShape` | temporal_agent.py:213-225 | every chunk is longer than 10 characters, contains no terminator and neither starts nor ends with whitespace |
| `TemporalAgent.ChunkIsStripped` | temporal_agent.py:221-222 | a chunk is its own `strip()` |
| `TemporalAgent.ChunkText` | temporal_agent.py:213-225 | the loop returns exactly the chunks |
| `TemporalAgent.StatementIdsDistinct` | temporal_agent.py:200-202 | different chunk indices give different ids, with or without a source |
| `TemporalAgent.ProcessStatement` | temporal_agent.py:159-190 | the statement has the given id, text and source, the classifier's class or `STATIC`, the extracted triplets or `[]`, the extracted event or none, type `FACT`, confidence 0.8 and no invalidations |
| `TemporalAgent.ProcessSentencesAll` | temporal_agent.py:199-209 | on chunks, the second length test keeps every one, so the loop processes each chunk with its own index |
| `TemporalAgent.ProcessEachIdsDistinct` | temporal_agent.py:200-202 | the statements of one document have distinct ids |
| `TemporalAgent.ProcessDocument` | temporal_agent.py:192-211 | the result is one statement per chunk, in order, with the positional ids, and the ids are distinct |
| `TemporalAgent.Top` | temporal_agent.py:316 | exactly the first 10 statements feed the context, and all of them when there are at most 10 |
| `TemporalAgent.AnswerQuestion` | temporal_agent.py:308-350 | `_answer_question`; stated by `AnswerCases` and `AnswerUsesFirstTen` |
| `TemporalAgent.AnswerCases` | temporal_agent.py:308-350 | with nothing relevant the fixed reply is given whatever the model would say; otherwise the reply is the model's, stripped, or the error reply |
| `TemporalAgent.AnswerUsesFirstTen` | temporal_agent.py:314-322 | statement lists that agree on their first ten get the same answer |
| `TemporalAgent.ContextTexts` | temporal_agent.py:314-322 | the context has a text line for every statement |
| `TemporalAgent.ContextOnlyTexts` | temporal_agent.py:314-322 | every text line of the context is the text of one of the statements |
| `TemporalAgent.RangeCoversValidInstants` | temporal_agent.py:284-298 | a statement whose window starts by some instant of the range and which is valid at that instant is in range |
| `TemporalAgent.RangeIncludesEndPoint` | temporal_agent.py:290-296 | a statement that stops being valid at the range start is still returned, while valid at no instant of the range |
| `TemporalAgent.Query` | temporal_agent.py:267-306 | an entity query returns the entity's statements (those valid at the timestamp when given) and its timeline; otherwise a range query returns the stored statements in range, in store order; otherwise nothing; an answer exactly when the question is non-empty; confidence 0.8 |
| `Text.StripDropsSpaces` | temporal_agent.py:221 | `strip()` removes only whitespace, at both ends |
| `Text.StripIdempotent` | temporal_agent.py:201 | stripping a stripped string changes nothing |
| `Text.DecimalStringInjective` | temporal_agent.py:202 | different indices print differently |
| `Utils.InvalidateAllEffect` | utils.py:79-81 | invalidating a list of distinct ids marks each stored one once with the new id and changes nothing else |
| `Utils.Ingest` | utils.py:73-84 | one workflow step: mark the conflicting statements, then add; stated by `IngestEffect`, `IngestStores`, `IngestMarks` and `IngestFreshPreservesSound` |
| `Utils.IngestEffect` | utils.py:73-84 | on a valid store the new statement ends up stored exactly as given (it never invalidates itself); every other stored statement gains the new id exactly when the new statement conflicts with it; the invariant holds |
| `Utils.IngestStores` | utils.py:73-84 | the workflow step stores the new statement under its id; a new id goes to the end of the key order and a known id keeps its place |
| `Utils.IngestMarks` | utils.py:76-81 | another stored statement gains the new id in `invalidated_by` exactly when the new statement conflicts with it, and is otherwise unchanged |
| `Utils.IngestFreshPreservesSound` | utils.py:73-84 | with a fresh id the workflow keeps the index sound |
| `Utils.IngestAllPreservesValid` | utils.py:53-65 | adding a document keeps the store's invariant |
| `Utils.IngestAllConcat` | utils.py:55-65 | a document's statements are integrated one by one, each against the store that already holds the earlier ones |
| `Utils.KnowledgeGraphManager.constructor` | utils.py:45-47 | a new manager holds a fresh empty store |
| `Utils.KnowledgeGraphManager.Integrate` | utils.py:76-84 | conflicts are computed on the store before the change, each conflicting statement is invalidated by the new id, then the statement is added |
| `Utils.KnowledgeGraphManager.AddStatementText` | utils.py:69-86 | returns the processed statement and leaves the store changed by exactly one workflow step |
| `Utils.KnowledgeGraphManager.AddDocument` | utils.py:49-67 | returns the document's statements and leaves the store changed by the workflow step for each, in order |
| `Utils.KnowledgeGraphManager.QueryEntity` | utils.py:88-92 | the entity's statements (filtered at the timestamp) and timeline, an empty result for an empty name, never an answer, confidence 0.8 |
| `Utils.KnowledgeGraphManager.QueryNaturalLanguage` | utils.py:94-98 | nothing is retrieved, and a non-empty question always gets the fixed no-information reply |
| `Utils.KnowledgeGraphManager.GetEntityTimeline` | utils.py:100-103 | the entity's timeline |
| `Utils.KnowledgeGraphManager.GetAllEntities` | utils.py:105-108 | every indexed entity exactly once, and nothing else |
| `Utils.KnowledgeGraphManager.GetStatistics` | utils.py:110-139 | the counting loop returns the statistics of the store |
| `Utils.StatisticsOf` | utils.py:113-137 | the statements-with-events count and the invalidated count are at most the statement count |
| `Utils.TallyAllCounts` | utils.py:124-129 | each count is the number of occurrences of its key, and exactly the occurring keys are counted |
| `Utils.TallyAllSum` | utils.py:124-129 | the counts sum to the number of statements counted |
| `Utils.StatisticsSpec` | utils.py:110-139 | the class counts and the fact-type counts each sum to `total_statements`, each count is the number of statements of that class or type, and the invalidated count is that of statements with a non-empty `invalidated_by` |
| `Utils.KnowledgeGraphManager.LoadFromFile` | utils.py:153-174 | the store is replaced by a fresh one to which every saved statement is added in saved order |
| `Utils.Save` | utils.py:141-151 | the saved dictionaries of `save_to_file`; stated by `LoadStatements`, `LoadIndexed` and `SaveLoadRoundTrip` |
| `Utils.RebuildStatements` | utils.py:160-171 | records with distinct ids are stored exactly, under their ids, in record order |
| `Utils.RebuildValid` | utils.py:160-171 | the rebuilt store satisfies the invariant, whatever the records |
| `Utils.RebuildSound` | utils.py:160-171 | records with distinct ids rebuild a sound index |
| `Utils.RebuildIndex` | utils.py:160-171 | the rebuilt index lists an id under an entity exactly when a record with that id mentions it; it depends only on the records |
| `Utils.LoadStatements` | utils.py:141-171 | saving then loading a valid store gives the same statements in the same order |
| `Utils.LoadIndexed` | utils.py:141-171 | saving then loading a valid, sound store indexes the same ids under each entity |
| `Utils.SaveLoadRoundTrip` | utils.py:141-171 | saving then loading a valid, sound store gives the same statements, the same entities and the same ids under each entity |
| `Utils.FormatTimelineForDisplay` | utils.py:177-209 | `format_timeline_for_display`; stated by `TimelineEmptyText` and `TimelineShowsEveryEntry` |
| `Utils.TimelineEmptyText` | utils.py:177-209 | the fixed "No timeline events found." is returned exactly for an empty timeline; otherwise the text starts with the heading |
| `Utils.TimelineShowsEveryEntry` | utils.py:187-188 | every timeline entry gets its statement line |
| `Utils.FormatQueryResult` | utils.py:212-251 | `format_query_result`; stated by `NoInformationLine` and `AnswerFirst` |
| `Utils.NoInformationLine` | utils.py:212-251 | "No relevant information found." is a line exactly when there are no statements and no answer |
| `Utils.AnswerFirst` | utils.py:217-219 | with an answer the text starts with the answer line; without one it does not start that way |

## Left out

- The language-model calls (`classify_temporal_type`, `extract_temporal_events`, `extract_triplets`, the completion in `_answer_question`): oracles; the prompts and the parsing of the replies are not modelled.
- Utils.KnowledgeGraphManager.AddStatementText: takes the statement id as a parameter. The source's default id (temporal_agent.py:163-164) hashes the text with Python's per-process seeded `hash`, which is not deterministic.
- `datetime.now()` defaults and date parsing (`fromisoformat`, the extractor's date handling): instants are natural numbers and the reference date is a parameter; how a `datetime` is printed is the `show` parameter of the formatters.
- JSON reading and writing, and the `saved_at` stamp: `LoadFromFile` takes the parsed records. As in the source, a record is stored under its own `id`, not under the key it was saved with, and the saved index is ignored.
- The API key check, `dotenv` and the OpenAI client setup in `KnowledgeGraphManager.__init__`: configuration only.
- `confidence` values are `real` constants, never computed with.
- Utils.KnowledgeGraphManager.AddDocument: returns the statements as extracted. In the source the returned objects are the stored ones, so later invalidations by the same document show up in them; statements are values here, and that aliasing is not modelled (the same holds for the statement returned by `add_statement_text` and for query results).
- Models.AddFreshPreservesSound: soundness is proved only for a fresh id. Re-adding an existing id overwrites the entry, and the buckets of entities that only the old version mentioned keep the id; the source does not clean them up.
- Printing a `TemporalClass` or `FactType` inside an f-string (utils.py:189) is modelled as the enum's value. Recent Python versions print `TemporalClass.STATIC` there instead.
- The `predicate` field of a query is carried but, as in the source, never used.
- `create_sample_data`, the Streamlit pages, the command-line demo and the media scripts: presentation, outside the core.
