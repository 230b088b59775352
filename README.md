# DocQA: question answering over uploaded PDFs, modelled in Dafny

DocQA lets a user upload a PDF and ask questions about it. The browser client
validates the file and the question before sending anything. The backend finds
the uploaded document, builds a vector index over its text or loads one it
persisted earlier, and asks a language model for an answer. The model covers
two pieces of code:

- **The question-answering service** (`backend/services/qa_service.py`, module
  `QaService` in `QaService.dfy`).
  - `_get_index` loads the index persisted under `storage/doc_<id>`. When there
    is none, or loading fails, it parses the PDF, refuses an empty parse,
    builds an index, persists it and returns it. Every failure gives no index.
  - `get_answer` looks up the document and checks that its file exists. It
    resolves the index, queries it and strips the reply. Any failure is
    re-raised as one of three messages: "rate limit" in the failure text means
    busy, "timeout" means too slow, and anything else gets a generic message
    with the failure text appended.
  - The retry decorator makes at most three attempts. It returns the first
    answer and re-raises the last attempt's exception.
  - The libraries and the database are not modelled as code. Each attempt's
    library behaviour is an `AttemptWorld` value: whether a stored index loads,
    whether building succeeds, how persisting ends (written, failed before
    writing, failed part-way), and what the query engine replies. The database is a map from ids to documents. The uploaded
    files are a map from paths to what the PDF reader makes of them.
  - The `storage/` directory is the class `Storage`, which holds a map. The
    service is the class `QAService`. Its methods `GetIndex`, `AnswerOnce` and
    `GetAnswer` update that map in place. Each method is proved equal to a
    specification function (`ResolveIndex`, `Attempt`, `Retry`) that the lemmas
    reason about.
- **The client's request validation** (`client/src/utils/api.js`, module `Api`
  in `Api.dfy`).
  - JavaScript values are a datatype with the language's own truthiness,
    `typeof` and property reads.
  - `uploadDocument` checks, in order, that a file is given, that it is a File
    or Blob, that its type is `application/pdf` and that it is at most 10 MiB.
  - `askQuestion` checks for a non-zero, non-NaN Number id, then for a question
    that is not blank after `trim()`.
  - The response interceptor picks the first truthy value among `detail`,
    `message` and the error's own `message`, and falls back to
    "Request failed".
  - `uploadAndAskQuestion` chains the two calls.

`Text.dfy` (module `Text`) holds the string operations both files rely on:
- Python's `in` and ASCII `lower()`.
- Stripping a whitespace set from both ends. This is Python's `str.strip()` with
  the `isspace()` characters and JavaScript's `trim()` with the ECMAScript
  WhiteSpace and LineTerminator characters.
- Python's `str(int)`.

Strip comes with a positional definition it is proved to meet, and that
definition is proved to fix the result uniquely.

Some facts about the code that the model records:
- The code has no in-memory index cache and no guard against two concurrent
  builds for one document.
- The answer is only stripped of whitespace. An empty answer is returned as it
  is, not treated as a failure.
- Every failure is retried, not only rate limiting and timeouts. A document
  that does not exist is also tried three times.
- The service's configuration (the language model, sampling, timeout, embedder
  and chunking settings, and `similarity_top_k`) is kept as a record of the
  settings only: `ServiceContext`, `Configured` and `SimilarityTopK`. No
  modelled outcome depends on them.

When `get_answer` is asked about a document id with no row, the model follows
the code. The not-found message reads `doc.path` on `None`, so the exception
actually raised is Python's attribute error. That exception is reported
generically as "Could not process your question: 'NoneType' object has no
attribute 'path'".

## Model

| member | source | states |
|---|---|---|
| `QaService.StoragePathsDistinct` | backend/services/qa_service.py:61 | distinct document ids get distinct `storage/doc_<id>` directories, so one document's index never overwrites another's |
| `QaService.Classify` | backend/services/qa_service.py:127-133 | the raised message is always the busy message, the slow message or the generic prefix followed by the failure text |
| `QaService.ClassifyRateLimit` | backend/services/qa_service.py:129-130 | a failure whose lower-cased text contains "rate limit" is reported as busy |
| `QaService.ClassifyTimeout` | backend/services/qa_service.py:131-132 | a failure that contains "timeout" in any case, but not "rate limit", is reported as too slow |
| `QaService.ClassifyOther` | backend/services/qa_service.py:133 | any other failure is reported with the generic prefix, and the original failure text follows that prefix unchanged |
| `QaService.ClassifyNoneHasNoPath` | backend/services/qa_service.py:104-105 | the attribute error raised for a missing document contains neither needle, so it is reported generically |
| `QaService.ClassifyIndexFailure` | backend/services/qa_service.py:112-113 | "Failed to process document index" contains neither needle, so it is reported generically |
| `QaService.LoadedIndexNeedsNoRebuild` | backend/services/qa_service.py:65-71 | a complete stored index that loads is returned as it is, with storage unchanged, whatever the parser, builder and persister would do |
| `QaService.RebuildFromPdf` | backend/services/qa_service.py:72-88 | without a loadable stored index, an index is returned exactly when the file exists, parses to at least one page, and building and persisting both succeed; it is built from exactly those pages |
| `QaService.ResolveIndex` | backend/services/qa_service.py:59-92 | only the document's own directory can change, no other is created, removed or altered, and nothing is written until an index has been built from a non-empty parse |
| `QaService.ReturnedIndexIsStored` | backend/services/qa_service.py:82-88 | a returned index is the one stored, complete, in the document's directory |
| `QaService.UnwrittenPersistKeepsStoredIndex` | backend/services/qa_service.py:72-92 | a stored index that failed to load survives a rebuild whose persist raises before writing, and the next resolution whose load succeeds returns it |
| `QaService.PartialPersistForcesRebuild` | backend/services/qa_service.py:82-92 | a persist that fails part-way gives no index and leaves a directory that the next resolution cannot load, so it rebuilds from the PDF |
| `QaService.PersistedIndexReloads` | backend/services/qa_service.py:61-88 | after an index is returned, the next resolution loads that same index from storage when loading succeeds, whatever the uploads then hold |
| `QaService.Attempt` | backend/services/qa_service.py:99-133 | a raised message is always the busy message, the slow message or one starting with the generic prefix; only the document's own directory can change; nothing changes when the document or its file is missing, and otherwise the storage left is exactly what resolving the index left |
| `QaService.AnsweredAttemptLeavesIndexStored` | backend/services/qa_service.py:82-125 | an attempt that returns an answer leaves the index it queried stored, complete, in the document's directory, and the next attempt whose load succeeds finds that same index |
| `QaService.AttemptReturnsOnlyAnswers` | backend/services/qa_service.py:101-133 | an attempt returns if and only if the document, its file, its index and the query all succeed; the answer is the reply stripped of surrounding whitespace; a failed attempt raises only one of the three classified messages; a missing file raises the classification of the not-found message, and a failed query raises the classification of the query's own error text, so a rate-limit or timeout error from the language model is reported as busy or too slow |
| `QaService.AttemptMissingDocument` | backend/services/qa_service.py:103-105 | an id with no row raises the generic message for the attribute error and leaves storage unchanged |
| `QaService.AttemptIndexFailure` | backend/services/qa_service.py:111-113 | when no index can be obtained the attempt raises the generic message about the document index |
| `QaService.Retry` | backend/services/qa_service.py:94-98 | the call makes at least one and at most the budget of attempts, and it raises only after using all of them |
| `QaService.RetryFollowsTrace` | backend/services/qa_service.py:94-98 | the retried call makes between one and the budget of attempts and ends with its last attempt's outcome and storage; every earlier attempt failed, and it raises only when all of them failed |
| `QaService.RetryConsultsOnlyBudget` | backend/services/qa_service.py:95 | nothing beyond the first three attempts can influence the result |
| `QaService.RetryRecoversOnLastAttempt` | backend/services/qa_service.py:94-98 | when the first two attempts fail and the third returns, the call returns the third attempt's answer and storage |
| `QaService.RetryOfSteadyFailure` | backend/services/qa_service.py:94-98 | an attempt that always fails with the same message and leaves storage as it was is made the full number of times, and that message is re-raised |
| `QaService.RetryMissingDocument` | backend/services/qa_service.py:94-105 | asking about a missing document raises the attribute-error message after exactly three attempts and writes no storage |
| `QaService.QAService.constructor` | backend/services/qa_service.py:24-51 | the service is configured with the fixed model, sampling, timeout, embedder and chunking settings and the given API key |
| `QaService.QAService.GetIndex` | backend/services/qa_service.py:59-92 | the returned index and the new storage are those `ResolveIndex` gives for the old storage |
| `QaService.QAService.AnswerOnce` | backend/services/qa_service.py:99-133 | the outcome and the new storage are those of one `Attempt` from the old storage |
| `QaService.QAService.GetAnswer` | backend/services/qa_service.py:94-133 | the outcome, the number of attempts and the new storage are those of `Retry` with a budget of three, from the old storage |
| `Text.StripMeetsSpec` | backend/services/qa_service.py:125 | the stripped answer is a slice of the reply with only whitespace outside it, and it neither starts nor ends with whitespace |
| `Text.StripSpecUnique` | backend/services/qa_service.py:125 | at most one string fits that description, so it defines stripping independently of how it is computed |
| `Text.StripEmptyIff` | client/src/utils/api.js:61-63 | a string trims to empty exactly when all its characters are whitespace |
| `Api.InterceptError` | client/src/utils/api.js:17-22 | a rejection is an engine TypeError exactly when the error is null or undefined; otherwise it is an Error whose message is truthy |
| `Api.FirstTruthyChoice` | client/src/utils/api.js:18-21 | a chain of JavaScript or-operators gives its earliest truthy operand, and it gives the fallback exactly when every operand is falsy |
| `Api.InterceptChoosesFirstTruthy` | client/src/utils/api.js:18-21 | the message is the first truthy one of the body's `detail`, the body's `message` and the error's `message`, and "Request failed" otherwise |
| `Api.InterceptWithoutResponse` | client/src/utils/api.js:18-21 | an error without a response is reported with its own message, or "Request failed" when that is falsy |
| `Api.UploadDocument` | client/src/utils/api.js:26-50 | an upload is sent if and only if the value is a File or Blob of type exactly `application/pdf` and at most 10 MiB, and the request carries that file; otherwise one of the four validation errors is thrown |
| `Api.UploadGuardOrder` | client/src/utils/api.js:28-39 | the first guard that fails decides the error: missing, then not a Blob, then wrong type, then too large |
| `Api.UploadSizeBoundary` | client/src/utils/api.js:37-39 | a PDF of exactly 10485760 bytes is accepted, and one of 10485761 bytes is rejected as too large |
| `Api.AskQuestion` | client/src/utils/api.js:56-73 | a question is sent if and only if the id is a valid Number and the question is a string that is not blank after trimming; the request carries the given id unchanged and a question that is never empty |
| `Api.DocumentIdCheck` | client/src/utils/api.js:58-60 | the id error is thrown exactly for non-Numbers, zero and NaN; negative, fractional and infinite Numbers pass |
| `Api.BlankQuestionRejected` | client/src/utils/api.js:61-63 | with a valid id, a missing question or a string made only of whitespace is rejected as required |
| `Api.AskSendsTrimmed` | client/src/utils/api.js:66-69 | a question with a non-whitespace character is sent with whitespace removed from both ends and nothing else |
| `Api.UploadAndAskQuestion` | client/src/utils/api.js:80-87 | the question is sent if and only if the upload was sent, its reply has a body and that body's `id` and the question pass the question checks; the upload is always sent first and the question second |
| `Api.UploadThenAsk` | client/src/utils/api.js:80-87 | when every step succeeds, the run sends the upload and then the question with the id from the upload's response body, and ends with that question request |
| `Api.QuestionCheckedAfterUpload` | client/src/utils/api.js:80-87 | a blank question is only rejected after the document has been uploaded, so the upload is sent and the question is not |
| `Api.InvalidFileSendsNothing` | client/src/utils/api.js:80-83 | a file the upload guards refuse sends no request at all |

## Left out

- QaService.QAService.constructor: always succeeds. In the source, a failure while starting the language-model client, the embedder or the service context is logged and re-raised. That failed start-up is not modelled.
- Api.InterceptError: the chosen message value is kept as it is. The string conversion that `new Error(...)` applies to a non-string value is not modelled.
- QaService.Classify: only ASCII letters are lower-cased. Python's `lower()` also lowers other letters, but no non-ASCII character lowers into a match for "rate limit" or "timeout", so the classification is the same.
- QaService.QAService.GetAnswer: requires one library behaviour per possible attempt (`MaxAttempts <= |worlds|`). This is how external calls are supplied to the model; the source demands nothing of its callers here.
- The exponential wait between attempts (`wait_exponential`): time is not modelled.
- Logging and `set_global_service_context`: they have no effect on the outcomes modelled.
- Index loading, PDF parsing, chunking, embedding, index building, persisting and the language model are library calls. Each one's success or reply is an input.
- The query engine's response mode, streaming and verbosity are not modelled. Only `similarity_top_k` is recorded, as the constant `SimilarityTopK`.
- A failed persist is assumed to end in one of two ways: it raised before writing anything, so the directory is as it was, or it wrote part of the index, so the directory no longer loads (`Partial`). A part-way write that still loads, possibly as a mixture of the old and new index, is not modelled.
- The text of a library exception is taken as given. Python's `str(e)` formatting of particular exception types is not modelled.
- The database session and SQLAlchemy query: the `documents` table is a map from id to row. The lookup is assumed never to raise. A query that raised would be classified and retried like any other failure, and the model does not cover that.
- Concurrency between requests: each call is modelled on its own.
- Axios itself is not modelled: the base URL, the 30-second timeout, headers, `FormData` and the transport. The functions return the request they would send.
- JavaScript strings are sequences of Unicode scalar values rather than UTF-16 code units. Property reads see own data properties of plain objects and the `type` and `size` of a Blob only. Getters, prototypes and objects with a `trim` method of their own are not modelled.
- The server's reply to a question is not modelled. `uploadAndAskQuestion` ends with the question request it sends.
- The FastAPI routes, the database models, the upload handler and the React components are not part of this model.
