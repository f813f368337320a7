/** The `POST /api/update` route (`action` in app/routes/api.update.ts).

    The route is a chain of guarded early returns: a method gate (405), a
    check of the shape of the parsed JSON body (400), and a fixed report
    saying that updates are not available in this environment (200).  An
    exception thrown while parsing the body is turned into a 500 response.
    The parsed body is a value of the small JSON datatype below, and the
    response is a status code with a typed payload. */
module UpdateRoute {

  import opened Wrappers

  /** A parsed JSON value.  Numbers are modelled as reals (no NaN). */
  datatype Json =
    | JNull
    | JBool(b: bool)
    | JNumber(n: real)
    | JString(s: string)
    | JArray(items: seq<Json>)
    | JObject(fields: map<string, Json>)

  /** What a thrown value is: an `Error` carries a message, anything else does not. */
  datatype Thrown = ErrorObject(message: string) | NonErrorValue

  /** The outcome of reading the request body: the parsed value, or what parsing threw. */
  datatype BodyRead = Parsed(value: Json) | Threw(thrown: Thrown)

  /** The only stage the route ever reports. */
  datatype Stage = Complete

  datatype Details = Details(
    updateReady: bool,
    changelog: string,
    compareUrl: string,
    currentCommit: string,
    remoteCommit: string,
    changedFiles: seq<string>,
    additions: int,
    deletions: int,
    commitMessages: seq<string>,
    totalSize: string)

  datatype UpdateProgress = UpdateProgress(stage: Stage, message: string, error: string, details: Details)

  /** The three shapes of JSON object the route answers with. */
  datatype Payload =
    | ErrorBody(error: string)
    | Report(progress: UpdateProgress)
    | FailureBody(success: bool, error: string)

  datatype Response = Response(status: nat, payload: Payload)

  const MethodNotAllowed := "Method not allowed"
  const InvalidBody := "Invalid request body: branch is required and must be a string"
  const NotAvailable := "Update functionality is not available in Cloudflare environment"
  const ManualUpdates := "Updates must be performed manually or through CI/CD"
  const UpdatesDisabled := "Updates are disabled in Cloudflare environment"
  const UnknownFailure := "Unknown error occurred while preparing update"

  /** JavaScript truthiness of a JSON value (`!body` is its negation). */
  predicate Truthy(v: Json)
  {
    match v
    case JNull => false
    case JBool(b) => b
    case JNumber(n) => n != 0.0
    case JString(s) => s != ""
    case JArray(_) => true
    case JObject(_) => true
  }

  /** The string JavaScript's `typeof` yields; note that `typeof null` is "object". */
  function TypeOf(v: Json): string
  {
    match v
    case JNull => "object"
    case JBool(_) => "boolean"
    case JNumber(_) => "number"
    case JString(_) => "string"
    case JArray(_) => "object"
    case JObject(_) => "object"
  }

  /** Property lookup `v[key]` on a value whose `typeof` is "object" and that is not null.
      A parsed array has only its indices and `length`; neither index keys nor prototype
      members are modelled, so an array answers only for "length". */
  function Property(v: Json, key: string): Option<Json>
  {
    match v
    case JObject(m) => if key in m then Some(m[key]) else None
    case JArray(items) => if key == "length" then Some(JNumber(|items| as real)) else None
    case _ => None
  }

  /** The guard of the 400 branch, written as the source evaluates it, left to right:
      `!body || typeof body !== 'object' || !('branch' in body) || typeof body.branch !== 'string'`. */
  predicate RejectsBody(body: Json)
  {
    || !Truthy(body)
    || TypeOf(body) != "object"
    || Property(body, "branch").None?
    || TypeOf(Property(body, "branch").value) != "string"
  }

  /** The shape the route accepts, stated directly: an object whose `branch` is a string. */
  predicate HasStringBranch(body: Json)
  {
    body.JObject? && "branch" in body.fields && body.fields["branch"].JString?
  }

  /** The guard rejects exactly the bodies that are not objects with a string `branch`. */
  lemma RejectsBodyExactly(body: Json)
    ensures RejectsBody(body) <==> !HasStringBranch(body)
  {
  }

  /** The fixed report returned for every accepted body. */
  function NotAvailableReport(): (p: UpdateProgress)
    ensures p.stage == Complete && !p.details.updateReady
    ensures p.details.additions == 0 && p.details.deletions == 0
    ensures p.details.changedFiles == [] && p.details.commitMessages == []
    ensures p.details.compareUrl == "" && p.details.currentCommit == "" && p.details.remoteCommit == ""
    ensures p.details.totalSize == "0 B"
    ensures p.message == NotAvailable && p.error == ManualUpdates && p.details.changelog == UpdatesDisabled
  {
    UpdateProgress(
      Complete,
      NotAvailable,
      ManualUpdates,
      Details(
        updateReady := false,
        changelog := UpdatesDisabled,
        compareUrl := "",
        currentCommit := "",
        remoteCommit := "",
        changedFiles := [],
        additions := 0,
        deletions := 0,
        commitMessages := [],
        totalSize := "0 B"))
  }

  /** The error message of the 500 response: the message of an `Error`, a fixed text otherwise. */
  function FailureMessage(t: Thrown): (m: string)
    ensures t.ErrorObject? ==> m == t.message
    ensures t.NonErrorValue? ==> m == UnknownFailure
  {
    match t
    case ErrorObject(msg) => msg
    case NonErrorValue => UnknownFailure
  }

  /** The route handler.  The body is consulted only after the method gate. */
  function Action(verb: string, body: BodyRead): (r: Response)
    ensures verb != "POST" ==> r == Response(405, ErrorBody(MethodNotAllowed))
    ensures verb == "POST" && body.Threw? ==>
              r == Response(500, FailureBody(false, FailureMessage(body.thrown)))
    ensures verb == "POST" && body.Parsed? && !HasStringBranch(body.value) ==>
              r == Response(400, ErrorBody(InvalidBody))
    ensures verb == "POST" && body.Parsed? && HasStringBranch(body.value) ==>
              r == Response(200, Report(NotAvailableReport()))
  {
    if verb != "POST" then
      Response(405, ErrorBody(MethodNotAllowed))
    else
      match body
      case Threw(t) => Response(500, FailureBody(false, FailureMessage(t)))
      case Parsed(v) =>
        RejectsBodyExactly(v);
        if RejectsBody(v) then Response(400, ErrorBody(InvalidBody))
        else Response(200, Report(NotAvailableReport()))
  }

  /** A request whose method is not POST gets the same answer whatever its body, even a body
      whose parsing would throw: the body is never read. */
  lemma MethodGateIgnoresBody(verb: string, b1: BodyRead, b2: BodyRead)
    requires verb != "POST"
    ensures Action(verb, b1) == Action(verb, b2)
    ensures Action(verb, b1).status == 405
  {
  }

  /** The value of `branch` influences no part of the response. */
  lemma BranchValueIrrelevant(m1: map<string, Json>, m2: map<string, Json>)
    requires "branch" in m1 && m1["branch"].JString?
    requires "branch" in m2 && m2["branch"].JString?
    ensures Action("POST", Parsed(JObject(m1))) == Action("POST", Parsed(JObject(m2)))
  {
  }

  /** The status code alone tells which payload shape the response carries, and the
      route never answers with any other status. */
  lemma StatusDeterminesPayload(verb: string, body: BodyRead)
    ensures var r := Action(verb, body);
            && r.status in {200, 400, 405, 500}
            && (r.status == 200 <==> r.payload.Report?)
            && (r.status == 500 <==> r.payload.FailureBody?)
            && (r.status == 500 ==> !r.payload.success)
            && (r.status == 400 || r.status == 405 <==> r.payload.ErrorBody?)
  {
  }

  /** A successful response never reports an update as ready, and its stage is `complete`. */
  lemma SuccessNeverReady(verb: string, body: BodyRead)
    requires Action(verb, body).status == 200
    ensures verb == "POST" && body.Parsed? && HasStringBranch(body.value)
    ensures Action(verb, body).payload.progress.stage == Complete
    ensures !Action(verb, body).payload.progress.details.updateReady
  {
  }

  /** Examples: `{}` is rejected with 400 and a GET with 405. */
  lemma EmptyObjectAndGet()
    ensures Action("POST", Parsed(JObject(map[]))) == Response(400, ErrorBody(InvalidBody))
    ensures Action("POST", Parsed(JObject(map["branch" := JNumber(1.0)]))).status == 400
    ensures Action("POST", Parsed(JNull)).status == 400
    ensures Action("GET", Threw(NonErrorValue)).status == 405
  {
  }
}
