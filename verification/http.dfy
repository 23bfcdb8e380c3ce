/** What the route handlers share: the parsed JSON body, the reply, the
    process-wide state the handlers read and change, and the content check
    every text-accepting route performs. */
module Http {
  import opened Wrappers
  import opened Text
  import opened RateLimit
  import opened Sessions
  import opened QuestionStore
  import opened Gateway

  /** A field of a parsed JSON body: absent, a string, or some other JSON
      value, of which only JavaScript truthiness matters here. */
  datatype JsonValue = Absent | Str(text: string) | Other(truthy: bool)

  predicate Truthy(v: JsonValue) {
    match v
    case Absent => false
    case Str(t) => t != ""
    case Other(t) => t
  }

  /** `await request.json()`: either the body does not parse (which throws)
      or it is an object with fields. */
  datatype Body = Unparseable | Json(fields: map<string, JsonValue>)

  function Field(b: Body, name: string): JsonValue
    requires b.Json?
  {
    if name in b.fields then b.fields[name] else Absent
  }

  const Ok := 200
  const Created := 201
  const BadRequest := 400
  const Unauthorized := 401
  const NotFound := 404
  const TooManyRequests := 429
  const InternalError := 500

  /** The JSON payload of a reply. */
  datatype Payload =
    | ErrorMessage(message: string)
    | Message(text: string)
    | SubmissionsExhausted(minutes: int)
    | CorrectedText(text: string)
    | LoggedIn(token: string)
    | Listing(questions: seq<Question>, answered: seq<QA>)
    | DeleteSucceeded

  /** Status, payload, the `Retry-After` seconds when sent, and the cookie
      when one is set. */
  datatype Reply = Reply(status: int, payload: Payload, retryAfter: Option<int>, cookie: Option<Cookie>)

  function Plain(status: int, payload: Payload): Reply {
    Reply(status, payload, None, None)
  }

  function Failed(status: int, message: string): Reply {
    Reply(status, ErrorMessage(message), None, None)
  }

  /** A call a handler makes to an outside service besides the store. */
  datatype Outbound = Notification(notify: NotifyPost) | CorrectionRequest(request: CorrectionPost)

  /** The process-wide state: the three limiter maps, the session store and
      the two tables. */
  datatype Server = Server(
    general: Counters,
    submissions: Counters,
    regenerations: Counters,
    sessions: Store,
    db: Db)

  datatype Outcome = Outcome(server: Server, reply: Reply, outbound: Option<Outbound>)

  /** How a route's text field fares: falsy, not a string (so `.trim()`
      throws), blank after trimming, too long after trimming, or accepted. */
  datatype ContentVerdict = Missing | Thrown | Blank | TooLong | Accepted(trimmed: string)

  /** `!content`, then `content.trim().length === 0`, then
      `content.trim().length > maxUnits`, lengths in UTF-16 code units. */
  function CheckContent(v: JsonValue, maxUnits: nat): (c: ContentVerdict)
    ensures c == Missing <==> !Truthy(v)
    ensures c == Thrown <==> Truthy(v) && v.Other?
    ensures c == Blank <==> v.Str? && v.text != "" && AllSpace(v.text)
    ensures c == TooLong <==> v.Str? && Utf16Length(Trim(v.text)) > maxUnits
    ensures c.Accepted? <==> v.Str? && !AllSpace(v.text) && Utf16Length(Trim(v.text)) <= maxUnits
    ensures c.Accepted? ==> c.trimmed == Trim(v.text) && Trimmed(c.trimmed) && c.trimmed != ""
  {
    if !Truthy(v) then Missing
    else if v.Other? then Thrown
    else if Trim(v.text) == "" then Blank
    else if Utf16Length(Trim(v.text)) > maxUnits then TooLong
    else Accepted(Trim(v.text))
  }

  /** The bound is inclusive: exactly `maxUnits` trimmed code units pass,
      one more is too long, and surrounding white space does not count. */
  lemma ContentBoundary(text: string, maxUnits: nat)
    requires maxUnits >= 1
    ensures Utf16Length(Trim(text)) == maxUnits ==> CheckContent(Str(text), maxUnits) == Accepted(Trim(text))
    ensures Utf16Length(Trim(text)) == maxUnits + 1 ==> CheckContent(Str(text), maxUnits) == TooLong
  {
    if Utf16Length(Trim(text)) >= 1 {
      assert Trim(text) != "";
    }
  }
}
