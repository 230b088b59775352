/** The question-answering service of backend/services/qa_service.py.

    The libraries the service calls (index loading, PDF parsing, index building,
    persisting, querying the language model, the database) are not modelled; each
    of their results is an input to the model. What is modelled is the service's
    own control flow: which branch runs, what ends up in the `storage/` directory,
    what is returned or raised, and how many attempts the retry decorator makes. */
module QaService {
  import opened Text

  datatype Option<T> = None | Some(value: T)

  // ---------------------------------------------------------------------------
  // Configuration
  // ---------------------------------------------------------------------------

  /** The settings the service fixes at start-up for the language model, the
      embedder and the chunker. */
  datatype ServiceContext = ServiceContext(
    apiKey: string,
    llmModel: string,
    temperature: real,
    maxTokens: nat,
    topP: real,
    requestTimeout: nat,
    embedModel: string,
    chunkSize: nat,
    chunkOverlap: nat,
    numOutput: nat)

  function Configured(apiKey: string): ServiceContext {
    ServiceContext(apiKey, "meta-llama/Llama-3-70b-chat-hf", 0.2, 768, 0.9, 45,
                   "BAAI/bge-small-en-v1.5", 512, 128, 1)
  }

  /** Chunks the query engine retrieves per question. */
  const SimilarityTopK: nat := 2

  /** The retry decorator stops after this many attempts. */
  const MaxAttempts: nat := 3

  // ---------------------------------------------------------------------------
  // Entities and the outcomes of external calls
  // ---------------------------------------------------------------------------

  /** A row of the `documents` table. */
  datatype Document = Document(id: int, name: string, path: string, size: int)

  /** One element PDFReader produces from a file. */
  datatype Page = Page(text: string)

  /** What PDFReader makes of an uploaded file that exists. */
  datatype Parse = Parsed(pages: seq<Page>) | Unreadable

  /** A vector index, known here only by the pages it was built from. */
  datatype Index = Index(pages: seq<Page>)

  /** A directory under `storage/`: a fully persisted index, or what a persist
      that failed part-way left behind. */
  datatype Stored = Complete(index: Index) | Partial

  /** What the query engine gives back: the text of the response, or the text
      of the exception it raised. */
  datatype Reply = Answered(text: string) | QueryFailed(error: string)

  /** How persisting a freshly built index ends: every file written, or the
      write raised, either before it touched the directory or part-way through. */
  datatype PersistOutcome = Written | FailedUntouched | FailedPartway

  /** The behaviour of the libraries during one attempt: whether loading a
      complete stored index succeeds, whether building an index from parsed
      pages succeeds, how persisting it ends, and what the query engine replies
      to a question on an index. */
  datatype AttemptWorld = AttemptWorld(
    loads: bool,
    builds: bool,
    persist: PersistOutcome,
    query: (Index, string) -> Reply)

  /** How `get_answer` ends: it returns an answer or raises an exception
      carrying a message. */
  datatype Outcome = Returned(answer: string) | Raised(message: string)

  // ---------------------------------------------------------------------------
  // Storage location
  // ---------------------------------------------------------------------------

  const StoragePrefix := "storage/doc_"

  /** `storage/doc_{doc_id}`. */
  function StoragePath(docId: int): string {
    StoragePrefix + IntToString(docId)
  }

  /** Every document has its own directory: persisting one document's index
      never overwrites another's. */
  lemma StoragePathsDistinct(a: int, b: int)
    requires a != b
    ensures StoragePath(a) != StoragePath(b)
  {
    if StoragePath(a) == StoragePath(b) {
      assert StoragePath(a)[|StoragePrefix|..] == IntToString(a);
      assert StoragePath(b)[|StoragePrefix|..] == IntToString(b);
      IntToStringInjective(a, b);
    }
  }

  // ---------------------------------------------------------------------------
  // Failure classification
  // ---------------------------------------------------------------------------

  const BusyMessage := "Server busy. Please wait and try again."
  const SlowMessage := "Processing took too long. Try a simpler question."
  const GenericPrefix := "Could not process your question: "

  /** The message of the exception `get_answer` raises for a failure whose text
      is `error`: a case-insensitive substring test, rate limiting first. */
  function Classify(error: string): (message: string)
    ensures message == BusyMessage || message == SlowMessage || message == GenericPrefix + error
  {
    var lowered := LowerAscii(error);
    if Contains(lowered, "rate limit") then BusyMessage
    else if Contains(lowered, "timeout") then SlowMessage
    else GenericPrefix + error
  }

  /** A failure that mentions "rate limit" in any letter case is reported as
      "server busy", whether or not it also mentions "timeout". */
  lemma ClassifyRateLimit(error: string)
    requires exists i :: OccursAt(LowerAscii(error), "rate limit", i)
    ensures Classify(error) == BusyMessage
  {
  }

  /** A failure that mentions "timeout" but not "rate limit" is reported as
      "took too long". */
  lemma ClassifyTimeout(error: string)
    requires forall i :: !OccursAt(LowerAscii(error), "rate limit", i)
    requires exists i :: OccursAt(LowerAscii(error), "timeout", i)
    ensures Classify(error) == SlowMessage
  {
  }

  /** Every other failure is reported generically, with its own text appended. */
  lemma ClassifyOther(error: string)
    requires forall i :: !OccursAt(LowerAscii(error), "rate limit", i)
    requires forall i :: !OccursAt(LowerAscii(error), "timeout", i)
    ensures Classify(error) == GenericPrefix + error
    ensures Classify(error)[|GenericPrefix|..] == error
  {
  }

  /** The exception raised while formatting the not-found message when the
      lookup finds no row: the message reads `doc.path` of `None`. */
  const NoneHasNoPath := "'NoneType' object has no attribute 'path'"

  const IndexFailure := "Failed to process document index"

  function NotFoundOrInvalid(docId: int, path: string): string {
    "Document " + IntToString(docId) + " not found or path invalid: " + path
  }

  lemma NoneHasNoPathLetters()
    ensures 'l' !in NoneHasNoPath && 'L' !in NoneHasNoPath
    ensures 'm' !in NoneHasNoPath && 'M' !in NoneHasNoPath
  {
    var a, b := "'NoneType' object ", "has no attribute 'path'";
    assert NoneHasNoPath == a + b;
    NoneHasNoPathHalvesLackLM(a);
    NoneHasNoPathHalvesLackLM(b);
  }

  /** The two halves of the attribute error's text hold no "l" and no "m". */
  lemma NoneHasNoPathHalvesLackLM(half: string)
    requires half == "'NoneType' object " || half == "has no attribute 'path'"
    ensures 'l' !in half && 'L' !in half && 'm' !in half && 'M' !in half
  {
  }

  /** The attribute error of a missing document is reported generically: it
      has no "l" for "rate limit" and no "m" for "timeout", in either case. */
  lemma ClassifyNoneHasNoPath()
    ensures Classify(NoneHasNoPath) == GenericPrefix + NoneHasNoPath
  {
    NoneHasNoPathLetters();
    NotContainsWithout(NoneHasNoPath, "rate limit", 5);
    NotContainsWithout(NoneHasNoPath, "timeout", 2);
  }

  /** The index failure text split around its one "r" and around its one "u". */
  lemma IndexFailureSpots()
    ensures IndexFailure == "Failed to p" + ['r'] + "ocess document index"
    ensures IndexFailure == "Failed to process doc" + ['u'] + "ment index"
  {
  }

  /** The pieces of the index failure text around its "r" hold no other "r",
      and the pieces around its "u" no other "u", in either case. */
  lemma IndexFailurePieceLacks(piece: string, c: char)
    requires ((piece == "Failed to p" || piece == "ocess document index") && (c == 'r' || c == 'R'))
          || ((piece == "Failed to process doc" || piece == "ment index") && (c == 'u' || c == 'U'))
    ensures c !in piece
  {
  }

  /** A failure to obtain an index is reported generically: its one "r" is
      followed by "o", not "a", and its one "u" by "m", not "t". */
  lemma ClassifyIndexFailure()
    ensures Classify(IndexFailure) == GenericPrefix + IndexFailure
  {
    IndexFailureSpots();
    var a, b := "Failed to p", "ocess document index";
    IndexFailurePieceLacks(a, 'r'); IndexFailurePieceLacks(a, 'R');
    IndexFailurePieceLacks(b, 'r'); IndexFailurePieceLacks(b, 'R');
    NotContainsAroundSpot(a, 'r', b, "rate limit", 0);
    var c, d := "Failed to process doc", "ment index";
    IndexFailurePieceLacks(c, 'u'); IndexFailurePieceLacks(c, 'U');
    IndexFailurePieceLacks(d, 'u'); IndexFailurePieceLacks(d, 'U');
    NotContainsAroundSpot(c, 'u', d, "timeout", 5);
  }

  // ---------------------------------------------------------------------------
  // Index resolution: `_get_index`
  // ---------------------------------------------------------------------------

  /** The index `_get_index` returns and the storage directory it leaves. */
  datatype Resolution = Resolution(index: Option<Index>, storage: map<string, Stored>)

  /** `_get_index`: load the stored index if there is one and it loads;
      otherwise parse the PDF, refuse an empty parse, build, persist, return.
      Every failure gives no index. Only the document's own directory can
      change, and only once an index has been built. */
  function ResolveIndex(storage: map<string, Stored>, docId: int, docPath: string,
                        uploads: map<string, Parse>, w: AttemptWorld): (r: Resolution)
    ensures forall p :: p != StoragePath(docId) ==>
              (p in r.storage <==> p in storage) && (p in storage ==> r.storage[p] == storage[p])
    ensures r.storage != storage ==>
              docPath in uploads && uploads[docPath].Parsed? && uploads[docPath].pages != [] && w.builds
  {
    var path := StoragePath(docId);
    if path in storage && storage[path].Complete? && w.loads then
      Resolution(Some(storage[path].index), storage)
    else if docPath !in uploads || uploads[docPath].Unreadable? then
      Resolution(None, storage)
    else if uploads[docPath].pages == [] || !w.builds then
      Resolution(None, storage)
    else if w.persist.Written? then
      Resolution(Some(Index(uploads[docPath].pages)), storage[path := Complete(Index(uploads[docPath].pages))])
    else if w.persist.FailedUntouched? then
      Resolution(None, storage)
    else
      Resolution(None, storage[path := Partial])
  }

  /** A stored index that loads is returned as it is: the PDF is not read,
      nothing is built and nothing is written, whatever those steps would do. */
  lemma LoadedIndexNeedsNoRebuild(storage: map<string, Stored>, docId: int, docPath: string,
                                  uploads: map<string, Parse>, w: AttemptWorld,
                                  uploads': map<string, Parse>, builds': bool, persist': PersistOutcome)
    requires StoragePath(docId) in storage && storage[StoragePath(docId)].Complete? && w.loads
    ensures ResolveIndex(storage, docId, docPath, uploads, w)
         == Resolution(Some(storage[StoragePath(docId)].index), storage)
    ensures ResolveIndex(storage, docId, docPath, uploads, w)
         == ResolveIndex(storage, docId, docPath, uploads', w.(builds := builds', persist := persist'))
  {
  }

  /** When no stored index loads, the index comes from the parsed PDF: an
      index is returned exactly when the file parses to at least one page and
      building and persisting both succeed, and it is built from those pages. */
  lemma RebuildFromPdf(storage: map<string, Stored>, docId: int, docPath: string,
                       uploads: map<string, Parse>, w: AttemptWorld)
    requires !(StoragePath(docId) in storage && storage[StoragePath(docId)].Complete? && w.loads)
    ensures var res := ResolveIndex(storage, docId, docPath, uploads, w);
      res.index.Some? <==>
        (docPath in uploads && uploads[docPath].Parsed? && uploads[docPath].pages != []
         && w.builds && w.persist.Written?)
    ensures var res := ResolveIndex(storage, docId, docPath, uploads, w);
      res.index.Some? ==> res.index.value.pages == uploads[docPath].pages != []
  {
  }

  /** Whatever index is returned is the one stored, complete, in the
      document's own directory. */
  lemma ReturnedIndexIsStored(storage: map<string, Stored>, docId: int, docPath: string,
                              uploads: map<string, Parse>, w: AttemptWorld)
    ensures var res := ResolveIndex(storage, docId, docPath, uploads, w);
      res.index.Some? ==> StoragePath(docId) in res.storage
                          && res.storage[StoragePath(docId)] == Complete(res.index.value)
  {
  }

  /** A stored index that failed to load survives a rebuild whose persist
      raises before writing: the next resolution whose load succeeds returns it. */
  lemma UnwrittenPersistKeepsStoredIndex(storage: map<string, Stored>, docId: int, docPath: string,
                                         uploads: map<string, Parse>, w: AttemptWorld,
                                         uploads': map<string, Parse>, w': AttemptWorld)
    requires StoragePath(docId) in storage && storage[StoragePath(docId)].Complete?
    requires w.persist.FailedUntouched? && w'.loads
    ensures var first := ResolveIndex(storage, docId, docPath, uploads, w);
      ResolveIndex(first.storage, docId, docPath, uploads', w').index
        == Some(storage[StoragePath(docId)].index)
  {
  }

  /** A persist that fails part-way leaves the directory unloadable: the next
      resolution has to rebuild from the PDF, whatever loading would do. */
  lemma PartialPersistForcesRebuild(storage: map<string, Stored>, docId: int, docPath: string,
                                    uploads: map<string, Parse>, w: AttemptWorld, w': AttemptWorld)
    requires docPath in uploads && uploads[docPath].Parsed? && uploads[docPath].pages != []
    requires !(StoragePath(docId) in storage && storage[StoragePath(docId)].Complete? && w.loads)
    requires w.builds && w.persist.FailedPartway?
    ensures var first := ResolveIndex(storage, docId, docPath, uploads, w);
      first.index.None?
      && ResolveIndex(first.storage, docId, docPath, uploads, w')
         == ResolveIndex(first.storage, docId, docPath, uploads, w'.(loads := false))
  {
  }

  /** An index that was built and persisted is found again by the next
      resolution, if loading succeeds then, without reading the PDF again. */
  lemma PersistedIndexReloads(storage: map<string, Stored>, docId: int, docPath: string,
                              uploads: map<string, Parse>, w: AttemptWorld,
                              uploads': map<string, Parse>, w': AttemptWorld)
    requires ResolveIndex(storage, docId, docPath, uploads, w).index.Some?
    requires w'.loads
    ensures var first := ResolveIndex(storage, docId, docPath, uploads, w);
      ResolveIndex(first.storage, docId, docPath, uploads', w') == first
  {
  }

  // ---------------------------------------------------------------------------
  // One attempt of `get_answer`
  // ---------------------------------------------------------------------------

  /** The outcome of one attempt and the storage directory it leaves. */
  datatype AttemptResult = AttemptResult(outcome: Outcome, storage: map<string, Stored>)

  /** The failure text of an attempt that does not get an answer, before it is
      classified. */
  function AttemptFailure(storage: map<string, Stored>, db: map<int, Document>,
                          uploads: map<string, Parse>, docId: int, question: string,
                          w: AttemptWorld): Option<string>
  {
    if docId !in db then Some(NoneHasNoPath)
    else if db[docId].path !in uploads then Some(NotFoundOrInvalid(docId, db[docId].path))
    else
      var res := ResolveIndex(storage, docId, db[docId].path, uploads, w);
      if res.index.None? then Some(IndexFailure)
      else match w.query(res.index.value, question)
        case Answered(_) => None
        case QueryFailed(e) => Some(e)
  }

  /** One pass through the body of `get_answer`: look up the document, check
      that its file exists, resolve the index, query it and strip the reply;
      any failure is re-raised with its classified message. Storage is touched
      only in the document's own directory, and not at all when the document or
      its file is missing. */
  function Attempt(storage: map<string, Stored>, db: map<int, Document>,
                   uploads: map<string, Parse>, docId: int, question: string,
                   w: AttemptWorld): (r: AttemptResult)
    ensures r.outcome.Raised? ==>
              r.outcome.message == BusyMessage || r.outcome.message == SlowMessage
              || (|GenericPrefix| <= |r.outcome.message| && r.outcome.message[..|GenericPrefix|] == GenericPrefix)
    ensures forall p :: p != StoragePath(docId) ==>
              (p in r.storage <==> p in storage) && (p in storage ==> r.storage[p] == storage[p])
    ensures docId !in db || db[docId].path !in uploads ==> r.storage == storage
    ensures docId in db && db[docId].path in uploads ==>
              r.storage == ResolveIndex(storage, docId, db[docId].path, uploads, w).storage
  {
    if docId !in db || db[docId].path !in uploads then
      AttemptResult(Raised(Classify(AttemptFailure(storage, db, uploads, docId, question, w).value)), storage)
    else
      var res := ResolveIndex(storage, docId, db[docId].path, uploads, w);
      var failure := AttemptFailure(storage, db, uploads, docId, question, w);
      if failure.Some? then AttemptResult(Raised(Classify(failure.value)), res.storage)
      else AttemptResult(Returned(Strip(w.query(res.index.value, question).text, PyWhitespace)), res.storage)
  }

  /** An attempt returns only when the document, its file, its index and the
      query all succeed, and then it returns the reply with the surrounding
      whitespace removed and nothing else changed. A failed attempt never
      returns: it raises one of the three classified messages. */
  lemma AttemptReturnsOnlyAnswers(storage: map<string, Stored>, db: map<int, Document>,
                                  uploads: map<string, Parse>, docId: int, question: string,
                                  w: AttemptWorld)
    ensures var a := Attempt(storage, db, uploads, docId, question, w);
      a.outcome.Returned? <==>
        (docId in db && db[docId].path in uploads
         && ResolveIndex(storage, docId, db[docId].path, uploads, w).index.Some?
         && w.query(ResolveIndex(storage, docId, db[docId].path, uploads, w).index.value, question).Answered?)
    ensures var a := Attempt(storage, db, uploads, docId, question, w);
      a.outcome.Returned? ==>
        IsStripOf(a.outcome.answer,
                  w.query(ResolveIndex(storage, docId, db[docId].path, uploads, w).index.value, question).text,
                  PyWhitespace)
    ensures var a := Attempt(storage, db, uploads, docId, question, w);
      a.outcome.Raised? ==>
        a.outcome.message == BusyMessage || a.outcome.message == SlowMessage
        || a.outcome.message[..|GenericPrefix|] == GenericPrefix
    ensures var a := Attempt(storage, db, uploads, docId, question, w);
      docId in db && db[docId].path !in uploads ==>
        a.outcome == Raised(Classify(NotFoundOrInvalid(docId, db[docId].path)))
    ensures var a := Attempt(storage, db, uploads, docId, question, w);
      docId in db && db[docId].path in uploads ==>
        var res := ResolveIndex(storage, docId, db[docId].path, uploads, w);
        res.index.Some? && w.query(res.index.value, question).QueryFailed? ==>
          a.outcome == Raised(Classify(w.query(res.index.value, question).error))
  {
    var a := Attempt(storage, db, uploads, docId, question, w);
    if a.outcome.Returned? {
      var res := ResolveIndex(storage, docId, db[docId].path, uploads, w);
      StripMeetsSpec(w.query(res.index.value, question).text, PyWhitespace);
    }
  }

  /** An attempt that returns an answer leaves the index it queried stored,
      complete, in the document's directory, where the next attempt whose load
      succeeds finds it. */
  lemma AnsweredAttemptLeavesIndexStored(storage: map<string, Stored>, db: map<int, Document>,
                                         uploads: map<string, Parse>, docId: int, question: string,
                                         w: AttemptWorld, w': AttemptWorld)
    requires Attempt(storage, db, uploads, docId, question, w).outcome.Returned?
    requires w'.loads
    ensures docId in db && db[docId].path in uploads
    ensures var res := ResolveIndex(storage, docId, db[docId].path, uploads, w);
      var a := Attempt(storage, db, uploads, docId, question, w);
      res.index.Some? && StoragePath(docId) in a.storage
      && a.storage[StoragePath(docId)] == Complete(res.index.value)
      && ResolveIndex(a.storage, docId, db[docId].path, uploads, w').index == res.index
  {
    AttemptReturnsOnlyAnswers(storage, db, uploads, docId, question, w);
    ReturnedIndexIsStored(storage, docId, db[docId].path, uploads, w);
    PersistedIndexReloads(storage, docId, db[docId].path, uploads, w, uploads, w');
  }

  /** A document id with no row raises the attribute error of reading `path`
      from `None`, reported generically, and touches no storage. */
  lemma AttemptMissingDocument(storage: map<string, Stored>, db: map<int, Document>,
                               uploads: map<string, Parse>, docId: int, question: string,
                               w: AttemptWorld)
    requires docId !in db
    ensures Attempt(storage, db, uploads, docId, question, w)
         == AttemptResult(Raised(GenericPrefix + NoneHasNoPath), storage)
  {
    ClassifyNoneHasNoPath();
  }

  /** When no index can be obtained the attempt raises the generic message
      about the document index. */
  lemma AttemptIndexFailure(storage: map<string, Stored>, db: map<int, Document>,
                            uploads: map<string, Parse>, docId: int, question: string,
                            w: AttemptWorld)
    requires docId in db && db[docId].path in uploads
    requires ResolveIndex(storage, docId, db[docId].path, uploads, w).index.None?
    ensures Attempt(storage, db, uploads, docId, question, w).outcome
         == Raised(GenericPrefix + IndexFailure)
  {
    ClassifyIndexFailure();
  }

  // ---------------------------------------------------------------------------
  // The retry decorator
  // ---------------------------------------------------------------------------

  /** One attempt as a function of the storage it starts from and of its world. */
  type Step = (map<string, Stored>, AttemptWorld) -> AttemptResult

  /** The attempts of `get_answer` for one document and question. */
  function AnswerStep(db: map<int, Document>, uploads: map<string, Parse>,
                      docId: int, question: string): Step
  {
    (storage, w) => Attempt(storage, db, uploads, docId, question, w)
  }

  /** The attempts run back to back without stopping, each starting from the
      storage the previous one left. */
  function Trace(step: Step, storage: map<string, Stored>, worlds: seq<AttemptWorld>)
    : (t: seq<AttemptResult>)
    ensures |t| == |worlds|
    decreases |worlds|
  {
    if worlds == [] then []
    else
      var a := step(storage, worlds[0]);
      [a] + Trace(step, a.storage, worlds[1..])
  }

  /** The outcome of the decorated call, how many attempts it made, and the
      storage directory it leaves. */
  datatype RetryResult = RetryResult(outcome: Outcome, attempts: nat, storage: map<string, Stored>)

  /** At most `budget` attempts: stop at the first that returns; when the last
      allowed attempt fails, re-raise its exception. */
  function Retry(step: Step, storage: map<string, Stored>, worlds: seq<AttemptWorld>, budget: nat)
    : (r: RetryResult)
    requires 1 <= budget <= |worlds|
    ensures 1 <= r.attempts <= budget
    ensures r.outcome.Raised? ==> r.attempts == budget
    decreases budget
  {
    var a := step(storage, worlds[0]);
    if a.outcome.Returned? || budget == 1 then RetryResult(a.outcome, 1, a.storage)
    else
      var r := Retry(step, a.storage, worlds[1..], budget - 1);
      RetryResult(r.outcome, r.attempts + 1, r.storage)
  }

  /** The retried call makes between one and `budget` attempts; it ends with the
      outcome of its last attempt, every earlier attempt failed, and it raises
      only when all `budget` attempts failed. So any failure class is retried,
      the first success is returned, and the last failure is re-raised. */
  lemma {:induction false} RetryFollowsTrace(step: Step, storage: map<string, Stored>,
                                             worlds: seq<AttemptWorld>, budget: nat)
    requires 1 <= budget <= |worlds|
    ensures var r := Retry(step, storage, worlds, budget);
      var t := Trace(step, storage, worlds);
      1 <= r.attempts <= budget
      && r.outcome == t[r.attempts - 1].outcome
      && r.storage == t[r.attempts - 1].storage
      && (forall k :: 0 <= k < r.attempts - 1 ==> t[k].outcome.Raised?)
      && (r.outcome.Raised? ==> r.attempts == budget && forall k :: 0 <= k < budget ==> t[k].outcome.Raised?)
    decreases budget
  {
    var a := step(storage, worlds[0]);
    var t := Trace(step, storage, worlds);
    assert t[0] == a;
    if !(a.outcome.Returned? || budget == 1) {
      RetryFollowsTrace(step, a.storage, worlds[1..], budget - 1);
      var t' := Trace(step, a.storage, worlds[1..]);
      assert forall k :: 0 <= k < |t'| ==> t[k + 1] == t'[k];
    }
  }

  /** Only the first `budget` attempts' worlds matter: nothing past them is
      ever consulted. */
  lemma {:induction false} RetryConsultsOnlyBudget(step: Step, storage: map<string, Stored>,
                                                   worlds: seq<AttemptWorld>, worlds': seq<AttemptWorld>,
                                                   budget: nat)
    requires 1 <= budget <= |worlds| && budget <= |worlds'|
    requires worlds[..budget] == worlds'[..budget]
    ensures Retry(step, storage, worlds, budget) == Retry(step, storage, worlds', budget)
    decreases budget
  {
    assert worlds[0] == worlds[..budget][0] == worlds'[0];
    if budget > 1 {
      var a := step(storage, worlds[0]);
      assert worlds[1..][..budget - 1] == worlds[..budget][1..];
      assert worlds'[1..][..budget - 1] == worlds'[..budget][1..];
      RetryConsultsOnlyBudget(step, a.storage, worlds[1..], worlds'[1..], budget - 1);
    }
  }

  /** Two failed attempts followed by a successful third one: the call returns
      the third attempt's answer, not either failure. */
  lemma RetryRecoversOnLastAttempt(step: Step, storage: map<string, Stored>, worlds: seq<AttemptWorld>)
    requires MaxAttempts <= |worlds|
    requires var t := Trace(step, storage, worlds);
      t[0].outcome.Raised? && t[1].outcome.Raised? && t[2].outcome.Returned?
    ensures var t := Trace(step, storage, worlds);
      Retry(step, storage, worlds, MaxAttempts) == RetryResult(t[2].outcome, MaxAttempts, t[2].storage)
  {
    RetryFollowsTrace(step, storage, worlds, MaxAttempts);
  }

  /** An attempt that fails the same way from a given storage whatever the
      libraries do is made `budget` times, and its failure is re-raised. */
  lemma {:induction false} RetryOfSteadyFailure(step: Step, storage: map<string, Stored>,
                                                worlds: seq<AttemptWorld>, budget: nat, message: string)
    requires 1 <= budget <= |worlds|
    requires forall w :: step(storage, w) == AttemptResult(Raised(message), storage)
    ensures Retry(step, storage, worlds, budget) == RetryResult(Raised(message), budget, storage)
    decreases budget
  {
    if budget > 1 {
      RetryOfSteadyFailure(step, storage, worlds[1..], budget - 1, message);
    }
  }

  /** Asking about a document id with no row raises, after all three attempts,
      the generic message for the attribute error, and writes no storage. */
  lemma RetryMissingDocument(storage: map<string, Stored>, db: map<int, Document>,
                             uploads: map<string, Parse>, docId: int, question: string,
                             worlds: seq<AttemptWorld>)
    requires MaxAttempts <= |worlds| && docId !in db
    ensures Retry(AnswerStep(db, uploads, docId, question), storage, worlds, MaxAttempts)
         == RetryResult(Raised(GenericPrefix + NoneHasNoPath), MaxAttempts, storage)
  {
    var step := AnswerStep(db, uploads, docId, question);
    forall w
      ensures step(storage, w) == AttemptResult(Raised(GenericPrefix + NoneHasNoPath), storage)
    {
      AttemptMissingDocument(storage, db, uploads, docId, question, w);
    }
    RetryOfSteadyFailure(step, storage, worlds, MaxAttempts, GenericPrefix + NoneHasNoPath);
  }

  // ---------------------------------------------------------------------------
  // The service object
  // ---------------------------------------------------------------------------

  /** The `storage/` directory on disk. */
  class Storage {
    var dirs: map<string, Stored>

    constructor ()
      ensures dirs == map[]
    {
      dirs := map[];
    }
  }

  class QAService {
    const context: ServiceContext
    const storage: Storage

    constructor (apiKey: string, storage: Storage)
      ensures context == Configured(apiKey) && this.storage == storage
    {
      this.context := Configured(apiKey);
      this.storage := storage;
    }

    /** `_get_index`: the index for the document, or none. */
    method GetIndex(docPath: string, docId: int, uploads: map<string, Parse>, w: AttemptWorld)
      returns (index: Option<Index>)
      modifies storage
      ensures Resolution(index, storage.dirs) == ResolveIndex(old(storage.dirs), docId, docPath, uploads, w)
    {
      var storagePath := StoragePath(docId);
      if storagePath in storage.dirs {
        var stored := storage.dirs[storagePath];
        if stored.Complete? && w.loads {
          return Some(stored.index);
        }
        // the load raised: fall through and rebuild
      }
      if docPath !in uploads || uploads[docPath].Unreadable? {
        return None;
      }
      var documents := uploads[docPath].pages;
      if documents == [] {
        return None;
      }
      if !w.builds {
        return None;
      }
      var built := Index(documents);
      if w.persist.FailedUntouched? {
        return None;
      }
      if w.persist.FailedPartway? {
        storage.dirs := storage.dirs[storagePath := Partial];
        return None;
      }
      storage.dirs := storage.dirs[storagePath := Complete(built)];
      return Some(built);
    }

    /** The body of `get_answer`, one attempt. */
    method AnswerOnce(docId: int, question: string, db: map<int, Document>,
                      uploads: map<string, Parse>, w: AttemptWorld)
      returns (outcome: Outcome)
      modifies storage
      ensures AttemptResult(outcome, storage.dirs)
           == Attempt(old(storage.dirs), db, uploads, docId, question, w)
    {
      var failure: string;
      if docId !in db {
        failure := NoneHasNoPath;
      } else if db[docId].path !in uploads {
        failure := NotFoundOrInvalid(docId, db[docId].path);
      } else {
        var doc := db[docId];
        var index := GetIndex(doc.path, docId, uploads, w);
        if index.None? {
          failure := IndexFailure;
        } else {
          var reply := w.query(index.value, question);
          if reply.Answered? {
            return Returned(Strip(reply.text, PyWhitespace));
          }
          failure := reply.error;
        }
      }
      outcome := Raised(Classify(failure));
    }

    /** `get_answer` under its retry decorator: up to `MaxAttempts` attempts,
      the world of attempt `k` being `worlds[k]`. */
    method GetAnswer(docId: int, question: string, db: map<int, Document>,
                     uploads: map<string, Parse>, worlds: seq<AttemptWorld>)
      returns (outcome: Outcome, attempts: nat)
      requires MaxAttempts <= |worlds|
      modifies storage
      ensures RetryResult(outcome, attempts, storage.dirs)
           == Retry(AnswerStep(db, uploads, docId, question), old(storage.dirs), worlds, MaxAttempts)
    {
      ghost var step := AnswerStep(db, uploads, docId, question);
      ghost var spec := Retry(step, storage.dirs, worlds, MaxAttempts);
      attempts := 0;
      outcome := Raised("");
      var done := false;
      while !done
        invariant 0 <= attempts <= MaxAttempts
        invariant done ==> spec == RetryResult(outcome, attempts, storage.dirs)
        invariant !done ==> attempts < MaxAttempts
        invariant !done ==>
                    var rest := Retry(step, storage.dirs, worlds[attempts..], MaxAttempts - attempts);
                    spec == RetryResult(rest.outcome, attempts + rest.attempts, rest.storage)
        decreases MaxAttempts - attempts, !done
      {
        assert worlds[attempts..][0] == worlds[attempts];
        assert worlds[attempts..][1..] == worlds[attempts + 1..];
        outcome := AnswerOnce(docId, question, db, uploads, worlds[attempts]);
        attempts := attempts + 1;
        done := outcome.Returned? || attempts == MaxAttempts;
      }
    }
  }
}
