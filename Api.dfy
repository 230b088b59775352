/** Request validation in the browser client, client/src/utils/api.js.

    JavaScript values are modelled as a datatype with the language's own
    truthiness, `typeof` and property reads. The network calls themselves are
    not modelled: what the functions below return is the request a call would
    send, or what it throws. */
module Api {
  import opened Text

  // ---------------------------------------------------------------------------
  // JavaScript values
  // ---------------------------------------------------------------------------

  /** A Number: only whether it is zero, NaN or infinite matters here. */
  datatype JsNumber = Finite(value: real) | NaN | Infinity(negative: bool)

  /** A JavaScript value. `Blob` stands for a Blob or a File (a File is a
      Blob), with its `type` and `size`; `Object` for any other object, with
      its own data properties. */
  datatype JsValue =
    | Undefined
    | Null
    | Boolean(b: bool)
    | Number(n: JsNumber)
    | BigInt(i: int)
    | Str(s: string)
    | Symbol
    | Function
    | Blob(isFile: bool, mimeType: string, size: nat)
    | Object(props: map<string, JsValue>)

  predicate Nullish(v: JsValue) {
    v.Undefined? || v.Null?
  }

  /** ToBoolean: `false`, zero, NaN, the empty string, `null` and `undefined`
      are falsy; everything else, every object included, is truthy. */
  predicate Truthy(v: JsValue) {
    match v
    case Undefined => false
    case Null => false
    case Boolean(b) => b
    case Number(n) => n.Infinity? || (n.Finite? && n.value != 0.0)
    case BigInt(i) => i != 0
    case Str(s) => s != ""
    case _ => true
  }

  /** The `typeof` operator. */
  function TypeOf(v: JsValue): string {
    match v
    case Undefined => "undefined"
    case Null => "object"
    case Boolean(_) => "boolean"
    case Number(_) => "number"
    case BigInt(_) => "bigint"
    case Str(_) => "string"
    case Symbol => "symbol"
    case Function => "function"
    case Blob(_, _, _) => "object"
    case Object(_) => "object"
  }

  /** `v.key` on a value that is neither null nor undefined: an own data
      property of a plain object, `type` or `size` of a Blob, and undefined for
      everything else. */
  function Get(v: JsValue, key: string): JsValue
    requires !Nullish(v)
  {
    match v
    case Object(props) => if key in props then props[key] else Undefined
    case Blob(_, mimeType, size) =>
      if key == "type" then Str(mimeType)
      else if key == "size" then Number(Finite(size as real))
      else Undefined
    case _ => Undefined
  }

  /** `v?.key`: undefined when `v` is null or undefined. */
  function OptionalGet(v: JsValue, key: string): JsValue {
    if Nullish(v) then Undefined else Get(v, key)
  }

  /** `a || b`: the left operand when it is truthy, else the right one. */
  function Or(a: JsValue, b: JsValue): JsValue {
    if Truthy(a) then a else b
  }

  /** What a call throws, or what its promise rejects with: an `Error`
      constructed from a value, or a TypeError raised by the engine. */
  datatype Failure = ErrorOf(message: JsValue) | EngineTypeError

  function Err(message: string): Failure {
    ErrorOf(Str(message))
  }

  // ---------------------------------------------------------------------------
  // The response interceptor
  // ---------------------------------------------------------------------------

  const RequestFailed := "Request failed"

  /** The values the interceptor tries, in order, before its fallback:
      `error.response?.data?.detail`, `error.response?.data?.message` and
      `error.message`. */
  function MessageCandidates(error: JsValue): seq<JsValue>
    requires !Nullish(error)
  {
    var data := OptionalGet(Get(error, "response"), "data");
    [OptionalGet(data, "detail"), OptionalGet(data, "message"), Get(error, "message")]
  }

  /** The rejection the interceptor turns a failed request into. The error is
      always an object for axios; a null or undefined one makes the first
      property read throw. */
  function InterceptError(error: JsValue): (f: Failure)
    ensures f.EngineTypeError? <==> Nullish(error)
    ensures f.ErrorOf? ==> Truthy(f.message)
  {
    if Nullish(error) then EngineTypeError
    else
      var data := OptionalGet(Get(error, "response"), "data");
      ErrorOf(Or(Or(Or(OptionalGet(data, "detail"), OptionalGet(data, "message")),
                    Get(error, "message")),
                 Str(RequestFailed)))
  }

  /** The first truthy value of `c`, or `fallback` when there is none. */
  function FirstTruthy(c: seq<JsValue>, fallback: JsValue): JsValue {
    if c == [] then fallback
    else if Truthy(c[0]) then c[0]
    else FirstTruthy(c[1..], fallback)
  }

  /** `r` is `c[k]`, which is truthy while every value before it is falsy. */
  ghost predicate FirstTruthyAt(c: seq<JsValue>, k: int, r: JsValue) {
    0 <= k < |c| && r == c[k] && Truthy(c[k]) && forall j :: 0 <= j < k ==> !Truthy(c[j])
  }

  /** FirstTruthy gives the earliest truthy value, or the fallback exactly
      when every value is falsy. */
  lemma {:induction false} FirstTruthyChoice(c: seq<JsValue>, fallback: JsValue)
    ensures (exists k :: FirstTruthyAt(c, k, FirstTruthy(c, fallback)))
         || (FirstTruthy(c, fallback) == fallback && forall j :: 0 <= j < |c| ==> !Truthy(c[j]))
  {
    if c == [] {
    } else if Truthy(c[0]) {
      assert FirstTruthy(c, fallback) == c[0];
      assert FirstTruthyAt(c, 0, c[0]);
    } else {
      FirstTruthyChoice(c[1..], fallback);
      var r := FirstTruthy(c, fallback);
      assert r == FirstTruthy(c[1..], fallback);
      if k :| FirstTruthyAt(c[1..], k, r) {
        assert FirstTruthyAt(c, k + 1, r);
      } else {
        forall j | 0 <= j < |c| ensures !Truthy(c[j]) {
          if j > 0 {
            assert c[j] == c[1..][j - 1];
          }
        }
      }
    }
  }

  /** The interceptor's message is the first truthy one of `detail`, then
      `message` of the response body, then the error's own `message`, and
      "Request failed" when all three are falsy. */
  lemma InterceptChoosesFirstTruthy(error: JsValue)
    requires !Nullish(error)
    ensures InterceptError(error) == ErrorOf(FirstTruthy(MessageCandidates(error), Str(RequestFailed)))
  {
    var c := MessageCandidates(error);
    var fallback := Str(RequestFailed);
    assert c[1..] == [c[1], c[2]] && c[1..][1..] == [c[2]] && c[1..][1..][1..] == [];
    assert FirstTruthy(c[1..][1..], fallback) == Or(c[2], fallback);
    assert FirstTruthy(c[1..], fallback) == Or(Or(c[1], c[2]), fallback);
    assert FirstTruthy(c, fallback) == Or(Or(Or(c[0], c[1]), c[2]), fallback);
  }

  /** A failure without a response (a network error, a timeout) is reported
      with the error's own message, or "Request failed" when it has none. */
  lemma InterceptWithoutResponse(error: JsValue)
    requires !Nullish(error) && Nullish(Get(error, "response"))
    ensures InterceptError(error) == ErrorOf(Or(Get(error, "message"), Str(RequestFailed)))
  {
  }

  // ---------------------------------------------------------------------------
  // uploadDocument
  // ---------------------------------------------------------------------------

  /** The upload limit: 10 MiB. */
  const MaxUploadBytes: nat := 10 * 1024 * 1024

  const PdfType := "application/pdf"

  /** A request the client sends: the PDF as the multipart field `file` to
      `/upload`, or a document id and question as JSON to `/question`. */
  datatype Request = Upload(file: JsValue) | Question(documentId: JsNumber, question: string)

  /** A call either sends its request or throws before sending anything. */
  datatype Call = Sends(request: Request) | Throws(failure: Failure)

  /** The guards of `uploadDocument`, in order: something is selected, it is a
      File or Blob, its MIME type is exactly PDF, it is at most 10 MiB. */
  function UploadDocument(file: JsValue): (r: Call)
    ensures r.Sends? <==> file.Blob? && file.mimeType == PdfType && file.size <= MaxUploadBytes
    ensures r.Sends? ==> r.request == Upload(file)
    ensures r.Throws? ==> r.failure in {Err("No file selected"), Err("Invalid file object"),
                                        Err("Only PDF files are allowed"), Err("File size exceeds 10MB")}
  {
    if !Truthy(file) then Throws(Err("No file selected"))
    else if !file.Blob? then Throws(Err("Invalid file object"))
    else if file.mimeType != PdfType then Throws(Err("Only PDF files are allowed"))
    else if file.size > MaxUploadBytes then Throws(Err("File size exceeds 10MB"))
    else Sends(Upload(file))
  }

  /** Each rejection is decided by the first guard that fails: a missing file
      is reported before anything else is looked at, a non-Blob before its
      type, and a wrong type before its size. */
  lemma UploadGuardOrder(file: JsValue)
    ensures !Truthy(file) ==> UploadDocument(file) == Throws(Err("No file selected"))
    ensures Truthy(file) && !file.Blob? ==> UploadDocument(file) == Throws(Err("Invalid file object"))
    ensures file.Blob? && file.mimeType != PdfType
            ==> UploadDocument(file) == Throws(Err("Only PDF files are allowed"))
    ensures file.Blob? && file.mimeType == PdfType && file.size > MaxUploadBytes
            ==> UploadDocument(file) == Throws(Err("File size exceeds 10MB"))
  {
  }

  /** Exactly 10 MiB is accepted; one byte more is not. */
  lemma UploadSizeBoundary(isFile: bool)
    ensures UploadDocument(Blob(isFile, PdfType, 10485760)) == Sends(Upload(Blob(isFile, PdfType, 10485760)))
    ensures UploadDocument(Blob(isFile, PdfType, 10485761)) == Throws(Err("File size exceeds 10MB"))
  {
  }

  // ---------------------------------------------------------------------------
  // askQuestion
  // ---------------------------------------------------------------------------

  /** A document id `askQuestion` accepts: a Number other than zero and NaN. */
  predicate ValidDocumentId(v: JsValue) {
    Truthy(v) && TypeOf(v) == "number"
  }

  /** The guards of `askQuestion`, in order, and the request it sends: the id
      as given and the question with surrounding whitespace removed. A value
      that is neither a string nor null/undefined has no `trim` method, so
      calling it throws. */
  function AskQuestion(documentId: JsValue, question: JsValue): (r: Call)
    ensures r.Sends? ==> r.request.Question? && r.request.question != ""
    ensures r.Sends? ==> documentId.Number? && r.request.documentId == documentId.n
    ensures r.Sends? <==> ValidDocumentId(documentId) && question.Str?
                          && Strip(question.s, JsWhitespace) != ""
  {
    if !ValidDocumentId(documentId) then Throws(Err("Valid document ID is required"))
    else if Nullish(question) then Throws(Err("Question is required"))
    else if !question.Str? then Throws(EngineTypeError)
    else if Strip(question.s, JsWhitespace) == "" then Throws(Err("Question is required"))
    else Sends(Question(documentId.n, Strip(question.s, JsWhitespace)))
  }

  /** The id check rejects exactly the values that are not Numbers, and the
      Numbers zero (either sign) and NaN; any other Number passes, negative,
      fractional and infinite ones included. */
  lemma DocumentIdCheck(documentId: JsValue, question: JsValue)
    ensures AskQuestion(documentId, question) == Throws(Err("Valid document ID is required"))
        <==> !(documentId.Number? && documentId.n != NaN && documentId.n != Finite(0.0))
  {
  }

  /** With a valid id, a string question made only of whitespace, or a missing
      one, is rejected as required. */
  lemma BlankQuestionRejected(documentId: JsValue, question: string)
    requires ValidDocumentId(documentId)
    requires forall k :: 0 <= k < |question| ==> question[k] in JsWhitespace
    ensures AskQuestion(documentId, Str(question)) == Throws(Err("Question is required"))
    ensures AskQuestion(documentId, Undefined) == Throws(Err("Question is required"))
    ensures AskQuestion(documentId, Null) == Throws(Err("Question is required"))
  {
    StripEmptyIff(question, JsWhitespace);
  }

  /** What is sent is the question trimmed: a slice of it with only whitespace
      cut from both ends, starting and ending with a non-whitespace character. */
  lemma AskSendsTrimmed(documentId: JsValue, question: string)
    requires ValidDocumentId(documentId)
    requires exists k :: 0 <= k < |question| && question[k] !in JsWhitespace
    ensures AskQuestion(documentId, Str(question)).Sends?
    ensures IsStripOf(AskQuestion(documentId, Str(question)).request.question, question, JsWhitespace)
  {
    StripEmptyIff(question, JsWhitespace);
    StripMeetsSpec(question, JsWhitespace);
  }

  // ---------------------------------------------------------------------------
  // uploadAndAskQuestion
  // ---------------------------------------------------------------------------

  /** How the upload request ended: the response body, or the failure the
      interceptor rejected with. */
  datatype Reply = Delivered(data: JsValue) | Rejected(failure: Failure)

  /** The requests a run sent, in order, and how its last call ended. */
  datatype Run = Run(sent: seq<Request>, last: Call)

  /** `uploadAndAskQuestion`: upload, read `id` from the response body, ask.
      The question is asked only when the upload was sent and answered with a
      body, and the upload is always sent first. */
  function UploadAndAskQuestion(file: JsValue, question: JsValue, uploadReply: Reply): (r: Run)
    ensures r.last.Sends? <==>
              UploadDocument(file).Sends? && uploadReply.Delivered? && !Nullish(uploadReply.data)
              && AskQuestion(Get(uploadReply.data, "id"), question).Sends?
    ensures r.sent == (if UploadDocument(file).Sends? then [Upload(file)] else [])
                      + (if r.last.Sends? then [r.last.request] else [])
  {
    match UploadDocument(file)
    case Throws(f) => Run([], Throws(f))
    case Sends(upload) =>
      match uploadReply
      case Rejected(f) => Run([upload], Throws(f))
      case Delivered(data) =>
        if Nullish(data) then Run([upload], Throws(EngineTypeError))
        else
          match AskQuestion(Get(data, "id"), question)
          case Throws(f) => Run([upload], Throws(f))
          case Sends(ask) => Run([upload, ask], Sends(ask))
  }

  /** When every step succeeds the run sends the upload, then the question
      with the id from the upload's response body, and ends with that request. */
  lemma UploadThenAsk(file: JsValue, question: JsValue, data: JsValue)
    requires UploadDocument(file).Sends? && !Nullish(data)
    requires AskQuestion(Get(data, "id"), question).Sends?
    ensures var ask := AskQuestion(Get(data, "id"), question).request;
      UploadAndAskQuestion(file, question, Delivered(data)) == Run([Upload(file), ask], Sends(ask))
      && ask.documentId == Get(data, "id").n
  {
  }

  /** The question is only checked after the upload has been sent: a blank
      question still uploads the document, then throws without asking. An
      invalid file sends nothing at all. */
  lemma QuestionCheckedAfterUpload(file: JsValue, question: string, data: JsValue)
    requires UploadDocument(file).Sends?
    requires !Nullish(data) && ValidDocumentId(Get(data, "id"))
    requires forall k :: 0 <= k < |question| ==> question[k] in JsWhitespace
    ensures UploadAndAskQuestion(file, Str(question), Delivered(data))
         == Run([Upload(file)], Throws(Err("Question is required")))
  {
    BlankQuestionRejected(Get(data, "id"), question);
  }

  /** A file the guards refuse sends no request, whatever the question. */
  lemma InvalidFileSendsNothing(file: JsValue, question: JsValue, uploadReply: Reply)
    requires UploadDocument(file).Throws?
    ensures UploadAndAskQuestion(file, question, uploadReply).sent == []
  {
  }
}
