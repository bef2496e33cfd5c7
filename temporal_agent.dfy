/** The non-language-model logic of `TemporalAgent` and `TemporalQueryEngine`:
    conflict detection, invalidation, chunking, id assignment and query routing.
    The language-model calls are oracles passed in as functions. */
module TemporalAgent {
  import opened Wrappers
  import opened Seqs
  import opened Text
  import opened Dicts
  import opened Models

  // ---------------------------------------------------------------------------
  // Conflicts and invalidation

  /** Same subject and predicate, different object. */
  predicate Clash(t1: Triplet, t2: Triplet) {
    t1.subject == t2.subject && t1.pred == t2.pred && t1.obj != t2.obj
  }

  /** Some triplet of `a` clashes with some triplet of `b`. */
  predicate HaveClash(a: seq<Triplet>, b: seq<Triplet>) {
    exists i, j :: 0 <= i < |a| && 0 <= j < |b| && Clash(a[i], b[j])
  }

  /** Both statements have an event with a creation instant, and `newer`'s is
      strictly later than `older`'s. */
  predicate CreatedLater(newer: Statement, older: Statement) {
    && newer.temporalEvent.Some? && older.temporalEvent.Some?
    && newer.temporalEvent.value.tCreated.Some? && older.temporalEvent.value.tCreated.Some?
    && newer.temporalEvent.value.tCreated.value > older.temporalEvent.value.tCreated.value
  }

  /** `newer` supersedes `older`: a clashing triplet pair and a strictly later
      creation instant. */
  predicate Conflicts(newer: Statement, older: Statement) {
    HaveClash(newer.triplets, older.triplets) && CreatedLater(newer, older)
  }

  /** `_statements_conflict`: every pair of triplets, returning at the first pair
      that clashes while the creation instants are in order. */
  method StatementsConflict(stmt1: Statement, stmt2: Statement) returns (r: bool)
    ensures r == Conflicts(stmt1, stmt2)
  {
    var i := 0;
    while i < |stmt1.triplets|
      invariant 0 <= i <= |stmt1.triplets|
      invariant forall i', j :: 0 <= i' < i && 0 <= j < |stmt2.triplets| ==>
        !(Clash(stmt1.triplets[i'], stmt2.triplets[j]) && CreatedLater(stmt1, stmt2))
    {
      var t1 := stmt1.triplets[i];
      var j := 0;
      while j < |stmt2.triplets|
        invariant 0 <= j <= |stmt2.triplets|
        invariant forall j' :: 0 <= j' < j ==> !(Clash(t1, stmt2.triplets[j']) && CreatedLater(stmt1, stmt2))
      {
        var t2 := stmt2.triplets[j];
        if t1.subject == t2.subject && t1.pred == t2.pred && t1.obj != t2.obj {
          if && stmt1.temporalEvent.Some? && stmt2.temporalEvent.Some?
             && stmt1.temporalEvent.value.tCreated.Some? && stmt2.temporalEvent.value.tCreated.Some?
          {
            if stmt1.temporalEvent.value.tCreated.value > stmt2.temporalEvent.value.tCreated.value {
              return true;
            }
          }
        }
        j := j + 1;
      }
      i := i + 1;
    }
    return false;
  }

  /** No statement conflicts with itself: the time comparison is strict. */
  lemma ConflictIrreflexive(s: Statement)
    ensures !Conflicts(s, s)
  {
  }

  /** Two statements never supersede each other. */
  lemma ConflictAsymmetric(a: Statement, b: Statement)
    ensures !(Conflicts(a, b) && Conflicts(b, a))
  {
  }

  /** A conflict needs creation instants on both sides and a clashing triplet pair. */
  lemma ConflictNeeds(a: Statement, b: Statement)
    requires Conflicts(a, b)
    ensures a.temporalEvent.Some? && a.temporalEvent.value.tCreated.Some?
    ensures b.temporalEvent.Some? && b.temporalEvent.value.tCreated.Some?
    ensures exists i, j :: (0 <= i < |a.triplets| && 0 <= j < |b.triplets| &&
      a.triplets[i].subject == b.triplets[j].subject && a.triplets[i].pred == b.triplets[j].pred &&
      a.triplets[i].obj != b.triplets[j].obj)
  {
  }

  const CeoJohn := Statement("s1", "TechCorp's CEO is John", Dynamic, Fact,
                             [Triplet("TechCorp", "hasCEO", "John")],
                             Some(TemporalEvent(Some(20200101), None, None, None)), None, 1.0, [])
  const CeoJane := Statement("s2", "TechCorp's CEO is Jane", Dynamic, Fact,
                             [Triplet("TechCorp", "hasCEO", "Jane")],
                             Some(TemporalEvent(Some(20240101), None, None, None)), None, 1.0, [])

  /** The CEO change: a later statement with another object for the same subject
      and predicate supersedes the earlier one, never the other way round. */
  lemma CeoChangeScenario()
    ensures Conflicts(CeoJane, CeoJohn) && !Conflicts(CeoJohn, CeoJane)
  {
    assert Clash(CeoJane.triplets[0], CeoJohn.triplets[0]);
  }

  function ConflictsWith(newer: Statement): Statement -> bool {
    (s: Statement) => Conflicts(newer, s)
  }

  function Ids(ss: seq<Statement>): seq<string> {
    seq(|ss|, i requires 0 <= i < |ss| => ss[i].id)
  }

  /** The ids of a list are the ids of all but its last statement, then the last id. */
  lemma IdsSnoc(ss: seq<Statement>)
    requires ss != []
    ensures Ids(ss) == Ids(ss[..|ss| - 1]) + [ss[|ss| - 1].id]
  {
    var a, b := Ids(ss), Ids(ss[..|ss| - 1]) + [ss[|ss| - 1].id];
    forall i | 0 <= i < |ss| ensures a[i] == b[i] {
      if i < |ss| - 1 {
        assert ss[..|ss| - 1][i] == ss[i];
      }
    }
  }

  /** The ids `check_invalidation` collects: those of the existing statements the
      new one conflicts with, in input order. */
  function ConflictIds(newer: Statement, existing: seq<Statement>): (r: seq<string>)
    ensures r == Ids(Filter(existing, ConflictsWith(newer)))
  {
    if existing == [] then []
    else
      var last := existing[|existing| - 1];
      ConflictIds(newer, existing[..|existing| - 1]) + (if Conflicts(newer, last) then [last.id] else [])
  }

  /** `check_invalidation`. */
  method CheckInvalidation(newStatement: Statement, existingStatements: seq<Statement>)
    returns (invalidatedIds: seq<string>)
    ensures invalidatedIds == ConflictIds(newStatement, existingStatements)
  {
    invalidatedIds := [];
    for k := 0 to |existingStatements|
      invariant invalidatedIds == ConflictIds(newStatement, existingStatements[..k])
    {
      assert existingStatements[..k + 1][..k] == existingStatements[..k];
      var existing := existingStatements[k];
      var conflict := StatementsConflict(newStatement, existing);
      if conflict {
        invalidatedIds := invalidatedIds + [existing.id];
      }
    }
    assert existingStatements[..|existingStatements|] == existingStatements;
  }

  /** An id is reported exactly when it belongs to an existing statement the new one
      conflicts with. */
  lemma ConflictIdsMembership(newer: Statement, existing: seq<Statement>, x: string)
    ensures x in ConflictIds(newer, existing) <==>
      exists k :: 0 <= k < |existing| && existing[k].id == x && Conflicts(newer, existing[k])
  {
    if x in ConflictIds(newer, existing) {
      ConflictIdsSound(newer, existing, x);
    }
    if exists k :: 0 <= k < |existing| && existing[k].id == x && Conflicts(newer, existing[k]) {
      var k :| 0 <= k < |existing| && existing[k].id == x && Conflicts(newer, existing[k]);
      ConflictIdsComplete(newer, existing, k);
    }
  }

  lemma ConflictIdsSound(newer: Statement, existing: seq<Statement>, x: string)
    requires x in ConflictIds(newer, existing)
    ensures exists k :: 0 <= k < |existing| && existing[k].id == x && Conflicts(newer, existing[k])
  {
    var f := Filter(existing, ConflictsWith(newer));
    var i :| 0 <= i < |f| && Ids(f)[i] == x;
    assert f[i] in existing && ConflictsWith(newer)(f[i]);
    var k :| 0 <= k < |existing| && existing[k] == f[i];
  }

  lemma ConflictIdsComplete(newer: Statement, existing: seq<Statement>, k: nat)
    requires k < |existing| && Conflicts(newer, existing[k])
    ensures existing[k].id in ConflictIds(newer, existing)
  {
    var f := Filter(existing, ConflictsWith(newer));
    assert ConflictsWith(newer)(existing[k]);
    assert existing[k] in f;
    var i :| 0 <= i < |f| && f[i] == existing[k];
    assert Ids(f)[i] == existing[k].id;
  }

  /** Ids that are distinct among the existing statements are reported at most once. */
  lemma {:induction false} ConflictIdsNoDup(newer: Statement, existing: seq<Statement>)
    requires NoDup(Ids(existing))
    ensures NoDup(ConflictIds(newer, existing))
  {
    if existing != [] {
      var init, last := existing[..|existing| - 1], existing[|existing| - 1];
      assert Ids(init) == Ids(existing)[..|init|];
      ConflictIdsNoDup(newer, init);
      if Conflicts(newer, last) {
        ConflictIdsMembership(newer, init, last.id);
        forall k | 0 <= k < |init| ensures init[k].id != last.id {
          assert Ids(existing)[k] == init[k].id && Ids(existing)[|init|] == last.id;
        }
      }
    }
  }

  // ---------------------------------------------------------------------------
  // Chunking

  /** The characters of the class `[.!?]`. */
  predicate IsTerminator(c: char) {
    c == '.' || c == '!' || c == '?'
  }

  predicate NoTerminator(s: string) {
    forall k :: 0 <= k < |s| ==> !IsTerminator(s[k])
  }

  /** `re.split(r'[.!?]+', s)` as a left-to-right scan: `piece` is the text gathered
      since the last run of terminators, and `inRun` says the previous character was a
      terminator (the piece is then still empty). A run of terminators closes the piece
      it follows, so a leading run yields an empty first piece and a trailing run an
      empty last one. */
  function SplitFrom(s: string, piece: string, inRun: bool): (r: seq<string>)
    ensures |r| >= 1
  {
    if s == [] then [piece]
    else if IsTerminator(s[0]) then
      if inRun then SplitFrom(s[1..], piece, true)
      else [piece] + SplitFrom(s[1..], "", true)
    else SplitFrom(s[1..], piece + [s[0]], false)
  }

  /** The pieces `re.split(r'[.!?]+', s)` returns. */
  function SplitRuns(s: string): (r: seq<string>)
    ensures |r| >= 1
  {
    SplitFrom(s, "", false)
  }

  /** Whether the scan is inside a run of terminators after reading `s`. */
  function RunAfter(s: string, inRun: bool): bool {
    if s == [] then inRun else IsTerminator(s[|s| - 1])
  }

  function Last<T>(s: seq<T>): T
    requires |s| >= 1
  {
    s[|s| - 1]
  }

  function Init<T>(s: seq<T>): seq<T>
    requires |s| >= 1
  {
    s[..|s| - 1]
  }

  /** Strips each piece and keeps those longer than ten characters, in order. */
  function KeepChunks(frags: seq<string>): seq<string> {
    if frags == [] then []
    else
      var c := Strip(frags[|frags| - 1]);
      KeepChunks(frags[..|frags| - 1]) + (if |c| > 10 then [c] else [])
  }

  /** What `_chunk_text` returns: the stripped pieces longer than ten characters. */
  function Chunks(text: string): seq<string> {
    KeepChunks(SplitRuns(text))
  }

  /** `_chunk_text`. */
  method ChunkText(text: string) returns (cleaned: seq<string>)
    ensures cleaned == Chunks(text)
  {
    var sentences := SplitRuns(text);
    cleaned := [];
    for k := 0 to |sentences|
      invariant cleaned == KeepChunks(sentences[..k])
    {
      assert sentences[..k + 1][..k] == sentences[..k];
      var sentence := Strip(sentences[k]);
      if |sentence| > 10 {
        cleaned := cleaned + [sentence];
      }
    }
    assert sentences[..|sentences|] == sentences;
  }

  /** A chunk is a long, terminator-free piece without whitespace at either end. */
  predicate IsChunk(c: string) {
    && |c| > 10 && NoTerminator(c)
    && !IsSpace(c[0]) && !IsSpace(c[|c| - 1])
  }

  lemma StripNoTerminator(f: string)
    requires NoTerminator(f)
    ensures NoTerminator(Strip(f))
  {
    var c := Strip(f);
    forall k | 0 <= k < |c| ensures !IsTerminator(c[k]) {
      StripChars(f, c[k]);
    }
  }

  lemma StripPlainIsChunk(f: string)
    requires NoTerminator(f) && |Strip(f)| > 10
    ensures IsChunk(Strip(f))
  {
    StripNoTerminator(f);
    StripEnds(f);
  }

  lemma {:induction false} KeepChunksShape(frags: seq<string>)
    requires forall i :: 0 <= i < |frags| ==> NoTerminator(frags[i])
    ensures forall i :: 0 <= i < |KeepChunks(frags)| ==> IsChunk(KeepChunks(frags)[i])
  {
    if frags != [] {
      var f := frags[|frags| - 1];
      KeepChunksShape(frags[..|frags| - 1]);
      if |Strip(f)| > 10 {
        StripPlainIsChunk(f);
      }
    }
  }

  /** The chunks that carry no material are the empty ones. */
  lemma KeepEmptyPiece()
    ensures KeepChunks([""]) == []
  {
    assert [""][..0] == [];
  }

  /** Every chunk is longer than ten characters, contains no terminator, and has no
      whitespace at either end (so stripping it again changes nothing). */
  lemma ChunkShape(text: string)
    ensures forall i :: 0 <= i < |Chunks(text)| ==> IsChunk(Chunks(text)[i])
  {
    SplitRunsPieces(text);
    KeepChunksShape(SplitRuns(text));
  }

  /** No piece of the split contains a terminator. */
  lemma {:induction false} SplitFromPieces(s: string, piece: string, inRun: bool)
    requires NoTerminator(piece)
    ensures forall i :: 0 <= i < |SplitFrom(s, piece, inRun)| ==> NoTerminator(SplitFrom(s, piece, inRun)[i])
  {
    if s != [] {
      if IsTerminator(s[0]) {
        SplitFromPieces(s[1..], if inRun then piece else "", true);
      } else {
        SplitFromPieces(s[1..], piece + [s[0]], false);
      }
    }
  }

  lemma SplitRunsPieces(s: string)
    ensures forall i :: 0 <= i < |SplitRuns(s)| ==> NoTerminator(SplitRuns(s)[i])
  {
    SplitFromPieces(s, "", false);
  }

  lemma {:induction false} KeepChunksConcat(a: seq<string>, b: seq<string>)
    ensures KeepChunks(a + b) == KeepChunks(a) + KeepChunks(b)
  {
    if b == [] {
      assert a + b == a;
    } else {
      var b' := b[..|b| - 1];
      assert (a + b)[..|a + b| - 1] == a + b';
      KeepChunksConcat(a, b');
    }
  }

  /** Scanning `x + y` is scanning `x` and carrying its open last piece into `y`. */
  lemma {:induction false} SplitFromConcat(x: string, y: string, piece: string, inRun: bool)
    ensures var p := SplitFrom(x, piece, inRun);
      SplitFrom(x + y, piece, inRun) == Init(p) + SplitFrom(y, Last(p), RunAfter(x, inRun))
  {
    if x == [] {
      assert x + y == y;
    } else {
      assert (x + y)[0] == x[0];
      assert (x + y)[1..] == x[1..] + y;
      assert RunAfter(x, inRun) == RunAfter(x[1..], IsTerminator(x[0]));
      if IsTerminator(x[0]) {
        var p' := if inRun then piece else "";
        SplitFromConcat(x[1..], y, p', true);
        if !inRun {
          var q := SplitFrom(x[1..], "", true);
          assert Init([piece] + q) == [piece] + Init(q);
        }
      } else {
        SplitFromConcat(x[1..], y, piece + [x[0]], false);
      }
    }
  }

  /** After a run of terminators the open piece is empty. */
  lemma {:induction false} RunLeavesEmptyPiece(s: string, piece: string, inRun: bool)
    requires inRun ==> piece == ""
    requires RunAfter(s, inRun)
    ensures Last(SplitFrom(s, piece, inRun)) == ""
  {
    if s != [] {
      assert RunAfter(s, inRun) == RunAfter(s[1..], IsTerminator(s[0]));
      if IsTerminator(s[0]) {
        RunLeavesEmptyPiece(s[1..], "", true);
      } else {
        RunLeavesEmptyPiece(s[1..], piece + [s[0]], false);
      }
    }
  }

  /** A piece without terminators is scanned into the open piece. */
  lemma {:induction false} SplitFromPlain(s: string, piece: string, inRun: bool)
    requires NoTerminator(s) && s != []
    ensures SplitFrom(s, piece, inRun) == [piece + s]
  {
    if |s| == 1 {
      assert s[1..] == [];
      assert piece + [s[0]] == piece + s;
    } else {
      SplitFromPlain(s[1..], piece + [s[0]], false);
      assert piece + [s[0]] + s[1..] == piece + s;
    }
  }

  /** Starting inside a run or not makes no difference to the chunks. */
  lemma StartInRun(b: string)
    ensures KeepChunks(SplitFrom(b, "", false)) == KeepChunks(SplitFrom(b, "", true))
  {
    if b != [] && IsTerminator(b[0]) {
      KeepChunksConcat([""], SplitFrom(b[1..], "", true));
      KeepEmptyPiece();
    }
  }

  /** A text without terminators is one chunk if it is long enough once stripped. */
  lemma ChunksOfPlainText(a: string)
    requires NoTerminator(a)
    ensures Chunks(a) == if |Strip(a)| > 10 then [Strip(a)] else []
  {
    PlainTextIsOnePiece(a);
    KeepSingle(a);
  }

  lemma PlainTextIsOnePiece(a: string)
    requires NoTerminator(a)
    ensures SplitRuns(a) == [a]
  {
    if a != [] {
      SplitFromPlain(a, "", false);
      assert "" + a == a;
    }
  }

  lemma KeepSingle(x: string)
    ensures KeepChunks([x]) == if |Strip(x)| > 10 then [Strip(x)] else []
  {
    assert [x][..0] == [];
  }

  /** Splitting a text at one terminator splits its chunks there: the chunks of
      `a + [c] + b` are those of `a` followed by those of `b`, so chunks come out in
      the order of the text. */
  lemma ChunksConcat(a: string, c: char, b: string)
    requires IsTerminator(c)
    ensures Chunks(a + [c] + b) == Chunks(a) + Chunks(b)
  {
    var p := SplitRuns(a);
    var mid: seq<string> := if RunAfter(a, false) then [] else [Last(p)];
    var tail := SplitFrom(b, "", true);
    SplitAtTerminator(a, c, b);
    KeepChunksConcat(Init(p) + mid, tail);
    KeepChunksConcat(Init(p), mid);
    ChunksByLastPiece(a);
    StartInRun(b);
  }

  lemma ChunksByLastPiece(a: string)
    ensures var p := SplitRuns(a);
      Chunks(a) == KeepChunks(Init(p)) + KeepChunks(if RunAfter(a, false) then [] else [Last(p)])
  {
    var p := SplitRuns(a);
    assert p == Init(p) + [Last(p)];
    KeepChunksConcat(Init(p), [Last(p)]);
    if RunAfter(a, false) {
      RunLeavesEmptyPiece(a, "", false);
      KeepEmptyPiece();
    }
  }

  /** The pieces of `a + [c] + b`: those of `a`, the last one only when `a` does not end
      in a run (which `c` then continues), then the pieces of `b` scanned as inside a run. */
  lemma SplitAtTerminator(a: string, c: char, b: string)
    requires IsTerminator(c)
    ensures var p := SplitRuns(a);
      SplitRuns(a + [c] + b) ==
        Init(p) + (if RunAfter(a, false) then [] else [Last(p)]) + SplitFrom(b, "", true)
  {
    var p := SplitRuns(a);
    assert a + [c] + b == a + ([c] + b);
    SplitFromConcat(a, [c] + b, "", false);
    assert ([c] + b)[1..] == b;
    if RunAfter(a, false) {
      RunLeavesEmptyPiece(a, "", false);
    }
  }

  /** A chunk is already stripped: stripping it again changes nothing. */
  lemma ChunkIsStripped(c: string)
    requires IsChunk(c)
    ensures Strip(c) == c
  {
    assert StripLeading(c) == c;
  }

  // ---------------------------------------------------------------------------
  // Statement processing

  /** The id `process_document` gives the statement made from chunk `i`: the source
      name when it is a non-empty string, `stmt` otherwise. (The `'doc'` fallback inside
      the source branch can never be taken.) */
  function StatementId(source: Option<string>, i: nat): string {
    if Truthy(source) then source.value + "_" + DecimalString(i)
    else "stmt_" + DecimalString(i)
  }

  /** Different chunk positions get different ids. */
  lemma StatementIdsDistinct(source: Option<string>, i: nat, j: nat)
    requires i != j
    ensures StatementId(source, i) != StatementId(source, j)
  {
    var prefix := if Truthy(source) then source.value + "_" else "stmt_";
    assert StatementId(source, i) == prefix + DecimalString(i);
    assert StatementId(source, j) == prefix + DecimalString(j);
    if StatementId(source, i) == StatementId(source, j) {
      assert DecimalString(i) == (prefix + DecimalString(i))[|prefix|..];
      assert DecimalString(j) == (prefix + DecimalString(j))[|prefix|..];
      DecimalStringInjective(i, j);
    }
  }

  /** The three language-model calls of `TemporalAgent`, as functions of what they are
      given. `None` stands for a call that raised or a reply that could not be used. */
  datatype Extractor = Extractor(
    classify: string -> Option<TemporalClass>,
    triplets: string -> Option<seq<Triplet>>,
    event: (string, Instant) -> Option<TemporalEvent>)

  /** `process_statement` with an explicit id and reference instant. */
  function ProcessStatement(x: Extractor, text: string, statementId: string, source: Option<string>,
                            referenceDate: Instant): (s: Statement)
    ensures s.id == statementId && s.text == text && s.source == source
    ensures s.factType == Fact && s.confidence == 0.8 && s.invalidatedBy == []
    ensures s.temporalClass == (if x.classify(text).Some? then x.classify(text).value else Static)
    ensures s.triplets == (if x.triplets(text).Some? then x.triplets(text).value else [])
    ensures s.temporalEvent == x.event(text, referenceDate)
  {
    Statement(statementId, text, x.classify(text).GetOr(Static), Fact, x.triplets(text).GetOr([]),
              x.event(text, referenceDate), source, 0.8, [])
  }

  /** The statements `process_document` keeps from a list of sentences: those longer
      than ten characters once stripped, each id numbered by its sentence's position. */
  function ProcessSentences(x: Extractor, sentences: seq<string>, source: Option<string>,
                            referenceDate: Instant): seq<Statement>
  {
    if sentences == [] then []
    else
      var i := |sentences| - 1;
      ProcessSentences(x, sentences[..i], source, referenceDate) +
        (if |Strip(sentences[i])| > 10
         then [ProcessStatement(x, sentences[i], StatementId(source, i), source, referenceDate)]
         else [])
  }

  /** One statement per sentence, sentence `k` with the id for position `k`. */
  function ProcessEach(x: Extractor, sentences: seq<string>, source: Option<string>,
                       referenceDate: Instant): seq<Statement>
  {
    seq(|sentences|, k requires 0 <= k < |sentences| =>
      ProcessStatement(x, sentences[k], StatementId(source, k), source, referenceDate))
  }

  lemma ProcessSentencesSnoc(x: Extractor, sentences: seq<string>, i: nat, source: Option<string>,
                             referenceDate: Instant)
    requires i < |sentences|
    ensures ProcessSentences(x, sentences[..i + 1], source, referenceDate) ==
      ProcessSentences(x, sentences[..i], source, referenceDate) +
      (if |Strip(sentences[i])| > 10
       then [ProcessStatement(x, sentences[i], StatementId(source, i), source, referenceDate)]
       else [])
  {
    assert sentences[..i + 1][..i] == sentences[..i];
  }

  /** A chunk passes the length test, so it adds its statement. */
  lemma ProcessSentencesStep(x: Extractor, sentences: seq<string>, source: Option<string>,
                             referenceDate: Instant)
    requires sentences != [] && IsChunk(sentences[|sentences| - 1])
    ensures var i := |sentences| - 1;
      ProcessSentences(x, sentences, source, referenceDate) ==
        ProcessSentences(x, sentences[..i], source, referenceDate) +
        [ProcessStatement(x, sentences[i], StatementId(source, i), source, referenceDate)]
  {
    ChunkIsStripped(sentences[|sentences| - 1]);
  }

  /** When every sentence is a chunk, each of them becomes a statement. */
  lemma {:induction false} ProcessSentencesAll(x: Extractor, sentences: seq<string>, source: Option<string>,
                                               referenceDate: Instant)
    requires forall k :: 0 <= k < |sentences| ==> IsChunk(sentences[k])
    ensures ProcessSentences(x, sentences, source, referenceDate) == ProcessEach(x, sentences, source, referenceDate)
  {
    if sentences != [] {
      var i := |sentences| - 1;
      ProcessSentencesStep(x, sentences, source, referenceDate);
      ProcessSentencesAll(x, sentences[..i], source, referenceDate);
      ProcessEachLast(x, sentences, source, referenceDate);
    }
  }

  lemma ProcessEachLast(x: Extractor, sentences: seq<string>, source: Option<string>, referenceDate: Instant)
    requires sentences != []
    ensures var i := |sentences| - 1;
      ProcessEach(x, sentences, source, referenceDate) ==
        ProcessEach(x, sentences[..i], source, referenceDate) +
        [ProcessStatement(x, sentences[i], StatementId(source, i), source, referenceDate)]
  {
    var i := |sentences| - 1;
    var a := ProcessEach(x, sentences, source, referenceDate);
    var pre := ProcessEach(x, sentences[..i], source, referenceDate);
    forall k | 0 <= k < i ensures a[k] == pre[k] {
      ProcessEachPrefix(x, sentences, i, k, source, referenceDate);
    }
    SeqSnoc(a, pre, ProcessStatement(x, sentences[i], StatementId(source, i), source, referenceDate));
  }

  lemma ProcessEachPrefix(x: Extractor, sentences: seq<string>, i: nat, k: nat, source: Option<string>,
                          referenceDate: Instant)
    requires k < i <= |sentences|
    ensures ProcessEach(x, sentences, source, referenceDate)[k] == ProcessEach(x, sentences[..i], source, referenceDate)[k]
  {
    assert sentences[..i][k] == sentences[k];
  }

  /** Every chunk of a text passes `process_document`'s length test. */
  lemma ProcessChunks(x: Extractor, text: string, source: Option<string>, referenceDate: Instant)
    ensures ProcessSentences(x, Chunks(text), source, referenceDate) == ProcessEach(x, Chunks(text), source, referenceDate)
  {
    ChunkShape(text);
    ProcessSentencesAll(x, Chunks(text), source, referenceDate);
  }

  /** The statements made from distinct positions have distinct ids. */
  lemma ProcessEachIdsDistinct(x: Extractor, sentences: seq<string>, source: Option<string>, referenceDate: Instant)
    ensures NoDup(Ids(ProcessEach(x, sentences, source, referenceDate)))
  {
    var r := ProcessEach(x, sentences, source, referenceDate);
    forall k1, k2 | 0 <= k1 < k2 < |r| ensures Ids(r)[k1] != Ids(r)[k2] {
      StatementIdsDistinct(source, k1, k2);
    }
  }

  /** `process_document`: one statement per chunk, in text order, statement `k` made
      from chunk `k` with the id for position `k`; the ids are distinct. */
  method ProcessDocument(x: Extractor, text: string, source: Option<string>, referenceDate: Instant)
    returns (statements: seq<Statement>)
    ensures statements == ProcessEach(x, Chunks(text), source, referenceDate)
    ensures NoDup(Ids(statements))
  {
    var sentences := ChunkText(text);
    statements := [];
    for i := 0 to |sentences|
      invariant statements == ProcessSentences(x, sentences[..i], source, referenceDate)
    {
      ProcessSentencesSnoc(x, sentences, i, source, referenceDate);
      if |Strip(sentences[i])| > 10 {
        var statementId := StatementId(source, i);
        var statement := ProcessStatement(x, sentences[i], statementId, source, referenceDate);
        statements := statements + [statement];
      }
    }
    assert sentences[..|sentences|] == sentences;
    ProcessChunks(x, text, source, referenceDate);
    ProcessEachIdsDistinct(x, sentences, source, referenceDate);
  }

  // ---------------------------------------------------------------------------
  // Queries

  /** One line of the context handed to the answering model. */
  datatype ContextLine = Bullet(text: string) | ValidFrom(instant: Instant) | ValidUntil(instant: Instant)

  /** The answering model: question and context to a reply, `None` when the call raises. */
  type Summarizer = (string, seq<ContextLine>) -> Option<string>

  const MaxContextStatements: nat := 10
  const NoInformationAnswer: string := "No relevant information found in the knowledge graph."
  const FailedAnswer: string := "Error generating answer from the knowledge graph."

  /** The context lines of one statement: its text, then its validity bounds when set. */
  function ContextLines(s: Statement): seq<ContextLine> {
    [Bullet(s.text)] +
    (if s.temporalEvent.Some? && s.temporalEvent.value.tValid.Some?
     then [ValidFrom(s.temporalEvent.value.tValid.value)] else []) +
    (if s.temporalEvent.Some? && s.temporalEvent.value.tInvalid.Some?
     then [ValidUntil(s.temporalEvent.value.tInvalid.value)] else [])
  }

  function Context(ss: seq<Statement>): seq<ContextLine> {
    if ss == [] then [] else Context(ss[..|ss| - 1]) + ContextLines(ss[|ss| - 1])
  }

  /** At most the first ten statements. */
  function Top(ss: seq<Statement>): (r: seq<Statement>)
    ensures |r| <= MaxContextStatements && r <= ss
    ensures |ss| <= MaxContextStatements ==> r == ss
    ensures |ss| > MaxContextStatements ==> r == ss[..MaxContextStatements]
  {
    if |ss| <= MaxContextStatements then ss else ss[..MaxContextStatements]
  }

  /** `_answer_question`. */
  function AnswerQuestion(question: string, relevant: seq<Statement>, summarize: Summarizer): string {
    if relevant == [] then NoInformationAnswer
    else
      match summarize(question, Context(Top(relevant)))
      case None => FailedAnswer
      case Some(reply) => Strip(reply)
  }

  /** With nothing relevant the fixed reply is given and the model is not consulted;
      otherwise the reply is the model's, stripped, or the failure text. */
  lemma AnswerCases(question: string, relevant: seq<Statement>, summarize: Summarizer, other: Summarizer)
    ensures relevant == [] ==>
      AnswerQuestion(question, relevant, summarize) == AnswerQuestion(question, relevant, other) == NoInformationAnswer
    ensures relevant != [] && summarize(question, Context(Top(relevant))).None? ==>
      AnswerQuestion(question, relevant, summarize) == FailedAnswer
    ensures relevant != [] && summarize(question, Context(Top(relevant))).Some? ==>
      var a := AnswerQuestion(question, relevant, summarize);
      a == Strip(summarize(question, Context(Top(relevant))).value) && Strip(a) == a
  {
    if relevant != [] && summarize(question, Context(Top(relevant))).Some? {
      StripIdempotent(summarize(question, Context(Top(relevant))).value);
    }
  }

  /** Only the first ten statements reach the model: lists that agree on those get the
      same answer. */
  lemma AnswerUsesFirstTen(question: string, a: seq<Statement>, b: seq<Statement>, summarize: Summarizer)
    requires a != [] && b != []
    requires Top(a) == Top(b)
    ensures AnswerQuestion(question, a, summarize) == AnswerQuestion(question, b, summarize)
  {
  }

  /** The context has a text line for every statement. */
  lemma {:induction false} ContextTexts(ss: seq<Statement>)
    ensures |Context(ss)| >= |ss|
    ensures forall k :: 0 <= k < |ss| ==> Bullet(ss[k].text) in Context(ss)
  {
    if ss != [] {
      var init, last := ss[..|ss| - 1], ss[|ss| - 1];
      ContextTexts(init);
      assert Context(ss) == Context(init) + ContextLines(last);
      forall k | 0 <= k < |ss| ensures Bullet(ss[k].text) in Context(ss) {
        if k < |init| {
          assert ss[k] == init[k];
        } else {
          assert ContextLines(last)[0] == Bullet(last.text);
        }
      }
    }
  }

  /** Every text line of the context is the text of one of the statements. */
  lemma {:induction false} ContextOnlyTexts(ss: seq<Statement>, l: ContextLine)
    requires l in Context(ss) && l.Bullet?
    ensures exists k :: 0 <= k < |ss| && ss[k].text == l.text
  {
    var init, last := ss[..|ss| - 1], ss[|ss| - 1];
    assert Context(ss) == Context(init) + ContextLines(last);
    if l in Context(init) {
      ContextOnlyTexts(init, l);
      var k :| 0 <= k < |init| && init[k].text == l.text;
      assert ss[k] == init[k];
    } else {
      assert last.text == l.text;
    }
  }

  /** The window a range query gives a statement: it starts at `t_valid`, or at
      `t_created` without one, and ends at `t_invalid`, or at `t_expired` without one. */
  function WindowStart(e: TemporalEvent): Option<Instant> {
    if e.tValid.Some? then e.tValid else e.tCreated
  }

  function WindowEnd(e: TemporalEvent): Option<Instant> {
    if e.tInvalid.Some? then e.tInvalid else e.tExpired
  }

  /** The statement's window overlaps `[start, end]`, both ends included; a statement
      without an event or without any start is never in range. */
  predicate InRange(s: Statement, start: Instant, end: Instant) {
    && s.temporalEvent.Some?
    && WindowStart(s.temporalEvent.value).Some?
    && WindowStart(s.temporalEvent.value).value <= end
    && (WindowEnd(s.temporalEvent.value).None? || WindowEnd(s.temporalEvent.value).value >= start)
  }

  function InRangeOf(start: Instant, end: Instant): Statement -> bool {
    (s: Statement) => InRange(s, start, end)
  }

  function ValidAtOf(t: Instant): Statement -> bool {
    (s: Statement) => s.IsValidAt(t)
  }

  /** A statement whose window has a start and which is valid at some instant of the
      range is in range. */
  lemma RangeCoversValidInstants(s: Statement, start: Instant, end: Instant, t: Instant)
    requires start <= t <= end
    requires s.temporalEvent.Some? && WindowStart(s.temporalEvent.value).Some?
    requires WindowStart(s.temporalEvent.value).value <= t
    requires s.IsValidAt(t)
    ensures InRange(s, start, end)
  {
  }

  /** The range test includes a window's end point although the statement is no longer
      valid there: a statement invalid from `start` on is reported for `[start, end]`
      while it is valid at no instant of that range. */
  lemma RangeIncludesEndPoint()
    ensures var s := Statement("s", "t", Dynamic, Fact, [],
                               Some(TemporalEvent(None, None, Some(0), Some(5))), None, 0.8, []);
      InRange(s, 5, 9) && forall t :: 5 <= t <= 9 ==> !s.IsValidAt(t)
  {
  }

  /** `TemporalQueryEngine.query`. An entity query returns the entity's statements
      (those valid at the timestamp, when one is given) and its timeline; otherwise a
      range query returns the stored statements in range, in store order; a question
      is answered from whatever was found. */
  method Query(kg: KnowledgeGraph, query: TemporalQuery, summarize: Summarizer) returns (result: QueryResult)
    ensures var g := kg.Snapshot();
      if Truthy(query.entity) then
        var all := g.StatementsFor(query.entity.value);
        && result.statements == (if query.timestamp.Some? then Filter(all, ValidAtOf(query.timestamp.value)) else all)
        && result.timeline == Timeline(all)
      else if query.temporalRange.Some? then
        && result.statements == Filter(Values(g.statements), InRangeOf(query.temporalRange.value.0, query.temporalRange.value.1))
        && result.timeline == []
      else
        result.statements == [] && result.timeline == []
    ensures result.answer == if Truthy(query.question)
                             then Some(AnswerQuestion(query.question.value, result.statements, summarize))
                             else None
    ensures result.confidence == 0.8
  {
    result := QueryResult([], [], None, 0.0);
    if Truthy(query.entity) {
      var statements := kg.Snapshot().StatementsFor(query.entity.value);
      if query.timestamp.Some? {
        statements := Filter(statements, ValidAtOf(query.timestamp.value));
      }
      var timeline := kg.GetTimelineForEntity(query.entity.value);
      result := result.(statements := statements, timeline := timeline);
    } else if query.temporalRange.Some? {
      var (startTime, endTime) := query.temporalRange.value;
      var values := Values(kg.statements);
      var statements := [];
      for k := 0 to |values|
        invariant statements == Filter(values[..k], InRangeOf(startTime, endTime))
      {
        assert values[..k + 1][..k] == values[..k];
        var stmt := values[k];
        if stmt.temporalEvent.Some? {
          var stmtStart := WindowStart(stmt.temporalEvent.value);
          var stmtEnd := WindowEnd(stmt.temporalEvent.value);
          if stmtStart.Some? && stmtStart.value <= endTime {
            if stmtEnd.None? || stmtEnd.value >= startTime {
              statements := statements + [stmt];
            }
          }
        }
      }
      assert values[..|values|] == values;
      result := result.(statements := statements);
    }
    if Truthy(query.question) {
      result := result.(answer := Some(AnswerQuestion(query.question.value, result.statements, summarize)));
    }
    result := result.(confidence := 0.8);
  }
}
