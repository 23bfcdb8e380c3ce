/** The public write endpoints: `POST /api/questions`
    (app/api/questions/route.ts) and `POST /api/questions/regenerate`
    (app/api/questions/regenerate/route.ts). Each request is one atomic step
    from a server state to a new state, a reply and at most one outbound
    call. */
module PublicRoutes {
  import opened Wrappers
  import opened Text
  import opened Environment
  import opened RateLimit
  import opened QuestionStore
  import opened Config
  import opened Gateway
  import opened Http

  const QuestionMaxUnits := 1000
  const RegenerateMaxUnits := 1000
  const NotificationTitle := "New Anonymous Question"

  const GeneralLimited := "Too many requests, please try again later."
  const ContentRequired := "Question content is required"
  const ContentTooLong := "Question must be less than 1000 characters"
  const Submitted := "Question submitted successfully"
  const ServerError := "Internal server error"
  const RegenerationLimited := "Too many regeneration requests, please try again later."
  const RegenerateContentRequired := "Content is required"
  const RegenerateContentTooLong := "Content must be less than 1000 characters"

  /** `POST /api/questions`. Both limiters are consulted, in order, before
      the body is read; the store insert is of the trimmed text and the
      notification carries the raw text. */
  function SubmitQuestion(s: Server, h: Headers, now: int, body: Body, env: Env,
                          newId: string, insertOk: bool): (o: Outcome)
    // Only the submission route's own state can change.
    ensures o.server.regenerations == s.regenerations && o.server.sessions == s.sessions
    // A general-limit rejection changes nothing, not even the submission counter.
    ensures !Check(s.general, ClientKey(h), now, GeneralPolicy).admitted ==>
      o == Outcome(s, Failed(TooManyRequests, GeneralLimited), None)
    ensures Check(s.general, ClientKey(h), now, GeneralPolicy).admitted ==>
      o.server.general == Check(s.general, ClientKey(h), now, GeneralPolicy).counters
      && o.server.submissions == CheckSubmission(s.submissions, ClientKey(h), now).counters
    // A submission-limit rejection tells the client how long to wait.
    ensures (Check(s.general, ClientKey(h), now, GeneralPolicy).admitted
             && !CheckSubmission(s.submissions, ClientKey(h), now).admitted) ==>
      o.reply.status == TooManyRequests
      && o.reply.retryAfter == CheckSubmission(s.submissions, ClientKey(h), now).retryAfter
    ensures o.reply.status == TooManyRequests <==>
      !Check(s.general, ClientKey(h), now, GeneralPolicy).admitted
      || !CheckSubmission(s.submissions, ClientKey(h), now).admitted
    // Past the limiters: 400 for a missing, blank or over-long text ...
    ensures o.reply.status == BadRequest <==>
      o.reply.status != TooManyRequests && body.Json?
      && CheckContent(Field(body, "content"), QuestionMaxUnits) in {Missing, Blank, TooLong}
    // ... 201 only with valid text and a successful insert ...
    ensures o.reply.status == Created <==>
      o.reply.status != TooManyRequests && body.Json?
      && CheckContent(Field(body, "content"), QuestionMaxUnits).Accepted? && insertOk
    ensures o.reply.status == Created ==>
      o.server.db == AddQuestion(s.db, Field(body, "content").text, newId, now, true).db
      && o.outbound == (var n := SendNotification(GetNtfyUrl(env), NotificationTitle, Field(body, "content").text);
                        if n.Some? then Some(Notification(n.value)) else None)
    // ... and the tables change only then.
    ensures o.reply.status != Created ==> o.server.db == s.db && o.outbound.None?
    ensures o.reply.status in {Created, BadRequest, TooManyRequests, InternalError}
  {
    var key := ClientKey(h);
    var general := Check(s.general, key, now, GeneralPolicy);
    if !general.admitted then Outcome(s, Failed(TooManyRequests, GeneralLimited), None)
    else
      var submit := CheckSubmission(s.submissions, key, now);
      var counted := s.(general := general.counters, submissions := submit.counters);
      if !submit.admitted then
        var wait := submit.retryAfter.value;
        Outcome(counted, Reply(TooManyRequests, SubmissionsExhausted(CeilDiv(wait, 60)), Some(wait), None), None)
      else AcceptQuestion(counted, now, body, env, newId, insertOk)
  }

  /** The submission route past both limiters: the body is read, the text
      checked, the trimmed text stored and the raw text announced. */
  function AcceptQuestion(s: Server, now: int, body: Body, env: Env, newId: string, insertOk: bool): (o: Outcome)
    ensures o.server == s.(db := o.server.db)
    ensures o.reply.status in {Created, BadRequest, InternalError}
    ensures o.reply.status == BadRequest <==>
      body.Json? && CheckContent(Field(body, "content"), QuestionMaxUnits) in {Missing, Blank, TooLong}
    ensures o.reply.status == Created <==>
      body.Json? && CheckContent(Field(body, "content"), QuestionMaxUnits).Accepted? && insertOk
    ensures o.reply.status == Created ==>
      o.server.db == AddQuestion(s.db, Field(body, "content").text, newId, now, true).db
      && o.outbound == (var n := SendNotification(GetNtfyUrl(env), NotificationTitle, Field(body, "content").text);
                        if n.Some? then Some(Notification(n.value)) else None)
    ensures o.reply.status != Created ==> o.server == s && o.outbound.None?
  {
    if body.Unparseable? then Outcome(s, Failed(InternalError, ServerError), None)
    else
      var content := Field(body, "content");
      match CheckContent(content, QuestionMaxUnits)
      case Missing => Outcome(s, Failed(BadRequest, ContentRequired), None)
      case Blank => Outcome(s, Failed(BadRequest, ContentRequired), None)
      case TooLong => Outcome(s, Failed(BadRequest, ContentTooLong), None)
      case Thrown => Outcome(s, Failed(InternalError, ServerError), None)
      case Accepted(_) =>
        var w := AddQuestion(s.db, content.text, newId, now, insertOk);
        if w.result.Failure? then Outcome(s, Failed(InternalError, ServerError), None)
        else
          var n := SendNotification(GetNtfyUrl(env), NotificationTitle, content.text);
          Outcome(s.(db := w.db), Plain(Created, Message(Submitted)),
                  if n.Some? then Some(Notification(n.value)) else None)
  }

  /** A submission request: its instant, body, and the store's side of the
      insert (the id it assigns, whether it succeeds). */
  datatype Submission = Submission(now: int, body: Body, newId: string, insertOk: bool)

  /** One client sending `reqs` in turn. */
  function SubmitAll(s: Server, h: Headers, env: Env, reqs: seq<Submission>): (r: (Server, seq<Reply>))
    ensures |r.1| == |reqs|
    decreases |reqs|
  {
    if reqs == [] then (s, [])
    else
      var o := SubmitQuestion(s, h, reqs[0].now, reqs[0].body, env, reqs[0].newId, reqs[0].insertOk);
      var rest := SubmitAll(o.server, h, env, reqs[1..]);
      (rest.0, [o.reply] + rest.1)
  }

  /** `used` submissions are counted in the hour that began at `start`, and
      the general counter has seen no more requests than that. */
  ghost predicate QuotaUsed(s: Server, key: string, start: int, used: nat) {
    && key in s.submissions && s.submissions[key] == Entry(used, start)
    && key in s.general && s.general[key].count <= used
  }

  lemma {:induction false} QuotaRun(s: Server, h: Headers, env: Env, reqs: seq<Submission>, start: int, used: nat)
    requires 1 <= used <= 5 && used + |reqs| <= 6
    requires QuotaUsed(s, ClientKey(h), start, used)
    requires forall i :: 0 <= i < |reqs| ==> start <= reqs[i].now < start + SubmissionPolicy.windowMs
    ensures forall i :: 0 <= i < |reqs| && used + i < 5 ==>
      SubmitAll(s, h, env, reqs).1[i].status != TooManyRequests
    ensures forall i :: 0 <= i < |reqs| && used + i == 5 ==>
      var rep := SubmitAll(s, h, env, reqs).1[i];
      rep.status == TooManyRequests && rep.retryAfter.Some? && 1 <= rep.retryAfter.value <= 3600
    decreases |reqs|
  {
    if reqs != [] {
      var key := ClientKey(h);
      var r := reqs[0];
      var o := SubmitQuestion(s, h, r.now, r.body, env, r.newId, r.insertOk);
      var general := Check(s.general, key, r.now, GeneralPolicy);
      assert general.admitted;
      assert general.counters[key].count <= used + 1;
      var submit := CheckSubmission(s.submissions, key, r.now);
      var rest := SubmitAll(o.server, h, env, reqs[1..]);
      assert SubmitAll(s, h, env, reqs).1 == [o.reply] + rest.1;
      if used < 5 {
        assert submit.admitted;
        assert o.reply.status != TooManyRequests;
        assert QuotaUsed(o.server, key, start, used + 1);
        forall i | 0 <= i < |reqs| - 1
          ensures start <= reqs[1..][i].now < start + SubmissionPolicy.windowMs
        {
          assert reqs[1..][i] == reqs[i + 1];
        }
        QuotaRun(o.server, h, env, reqs[1..], start, used + 1);
      } else {
        assert !submit.admitted;
        var d := start + SubmissionPolicy.windowMs - r.now;
        assert 1 <= d;
        assert o.reply.retryAfter == submit.retryAfter;
      }
    }
  }

  /** Six submissions from one client within an hour of the first, whatever
      their bodies and however the store fares: the first five pass both
      limiters and the sixth is refused with a `Retry-After` of 1 to 3600
      seconds. */
  lemma SixthSubmissionRefused(s: Server, h: Headers, env: Env, reqs: seq<Submission>)
    requires |reqs| == 6
    requires ClientKey(h) !in s.general && ClientKey(h) !in s.submissions
    requires forall i :: 0 <= i < 6 ==> reqs[0].now <= reqs[i].now < reqs[0].now + SubmissionPolicy.windowMs
    ensures forall i :: 0 <= i < 5 ==> SubmitAll(s, h, env, reqs).1[i].status != TooManyRequests
    ensures var last := SubmitAll(s, h, env, reqs).1[5];
      last.status == TooManyRequests && last.retryAfter.Some? && 1 <= last.retryAfter.value <= 3600
  {
    var key := ClientKey(h);
    var r := reqs[0];
    var o := SubmitQuestion(s, h, r.now, r.body, env, r.newId, r.insertOk);
    assert o.reply.status != TooManyRequests;
    assert QuotaUsed(o.server, key, r.now, 1);
    forall i | 0 <= i < 5
      ensures r.now <= reqs[1..][i].now < r.now + SubmissionPolicy.windowMs
    {
      assert reqs[1..][i] == reqs[i + 1];
    }
    QuotaRun(o.server, h, env, reqs[1..], r.now, 1);
    var rest := SubmitAll(o.server, h, env, reqs[1..]);
    assert SubmitAll(s, h, env, reqs).1 == [o.reply] + rest.1;
  }

  /** Past both limiters, exactly 1000 trimmed UTF-16 units are accepted
      and stored trimmed; one unit more is refused with 400 and stores
      nothing. */
  lemma LongestQuestionAccepted(s: Server, h: Headers, now: int, text: string, env: Env, newId: string)
    ensures var o := SubmitQuestion(s, h, now, Json(map["content" := Str(text)]), env, newId, true);
      && Check(s.general, ClientKey(h), now, GeneralPolicy).admitted
      && CheckSubmission(s.submissions, ClientKey(h), now).admitted
      ==> (Utf16Length(Trim(text)) == QuestionMaxUnits ==>
             o.reply.status == Created
             && o.server.db.questions == s.db.questions + [Question(newId, Trim(text), now, false)])
          && (Utf16Length(Trim(text)) == QuestionMaxUnits + 1 ==>
                o.reply.status == BadRequest && o.server.db == s.db)
  {
    var body := Json(map["content" := Str(text)]);
    assert Field(body, "content") == Str(text);
    ContentBoundary(text, QuestionMaxUnits);
  }

  /** A 400 still uses up quota: both counters have already been advanced. */
  lemma RejectedBodyStillCounts(s: Server, h: Headers, now: int, body: Body, env: Env, newId: string, insertOk: bool)
    requires SubmitQuestion(s, h, now, body, env, newId, insertOk).reply.status == BadRequest
    ensures var o := SubmitQuestion(s, h, now, body, env, newId, insertOk);
      && o.server.general == Check(s.general, ClientKey(h), now, GeneralPolicy).counters
      && o.server.submissions == Check(s.submissions, ClientKey(h), now, SubmissionPolicy).counters
      && ClientKey(h) in o.server.submissions
  {
  }

  /** `POST /api/questions/regenerate`: its own limiter, keyed preferring the
      platform address, before the body is read; then the correction, whose
      failures never surface: a valid request always gets 200 with the
      gateway's text, which is the raw input when the gateway reports an
      error. */
  function Regenerate(s: Server, ip: Option<string>, h: Headers, now: int, body: Body, env: Env,
                      transport: Transport): (o: Outcome)
    // Regeneration never touches the submission route's counters, sessions or tables.
    ensures o.server.general == s.general && o.server.submissions == s.submissions
    ensures o.server.sessions == s.sessions && o.server.db == s.db
    ensures o.server.regenerations ==
      Check(s.regenerations, RegenerationKey(ip, h), now, RegenerationPolicy).counters
    ensures o.reply.status == TooManyRequests <==>
      !Check(s.regenerations, RegenerationKey(ip, h), now, RegenerationPolicy).admitted
    ensures o.reply.status == BadRequest <==>
      o.reply.status != TooManyRequests && body.Json?
      && CheckContent(Field(body, "content"), RegenerateMaxUnits) in {Missing, Blank, TooLong}
    ensures o.reply.status == Ok <==>
      o.reply.status != TooManyRequests && body.Json?
      && CheckContent(Field(body, "content"), RegenerateMaxUnits).Accepted?
    ensures o.reply.status == Ok ==>
      var a := CorrectGrammar(Field(body, "content").text, GetApiConfig(env), transport);
      && o.reply.payload == CorrectedText(a.result.corrected)
      && o.outbound == (if a.sent.Some? then Some(CorrectionRequest(a.sent.value)) else None)
      && (a.result.error.Some? ==> o.reply.payload == CorrectedText(Field(body, "content").text))
    ensures o.reply.status != Ok ==> o.outbound.None?
    ensures o.reply.status in {Ok, BadRequest, TooManyRequests, InternalError}
  {
    var key := RegenerationKey(ip, h);
    var limit := Check(s.regenerations, key, now, RegenerationPolicy);
    if !limit.admitted then Outcome(s, Failed(TooManyRequests, RegenerationLimited), None)
    else CorrectSubmitted(s.(regenerations := limit.counters), body, env, transport)
  }

  /** The regeneration route past its limiter: the body is read, the text
      checked, and the correction's text returned. Nothing is stored. */
  function CorrectSubmitted(s: Server, body: Body, env: Env, transport: Transport): (o: Outcome)
    ensures o.server == s
    ensures o.reply.status in {Ok, BadRequest, InternalError}
    ensures o.reply.status == BadRequest <==>
      body.Json? && CheckContent(Field(body, "content"), RegenerateMaxUnits) in {Missing, Blank, TooLong}
    ensures o.reply.status == Ok <==>
      body.Json? && CheckContent(Field(body, "content"), RegenerateMaxUnits).Accepted?
    ensures o.reply.status == Ok ==>
      var a := CorrectGrammar(Field(body, "content").text, GetApiConfig(env), transport);
      && o.reply.payload == CorrectedText(a.result.corrected)
      && o.outbound == (if a.sent.Some? then Some(CorrectionRequest(a.sent.value)) else None)
      && (a.result.error.Some? ==> o.reply.payload == CorrectedText(Field(body, "content").text))
    ensures o.reply.status != Ok ==> o.outbound.None?
  {
    if body.Unparseable? then Outcome(s, Failed(InternalError, ServerError), None)
    else
      var content := Field(body, "content");
      match CheckContent(content, RegenerateMaxUnits)
      case Missing => Outcome(s, Failed(BadRequest, RegenerateContentRequired), None)
      case Blank => Outcome(s, Failed(BadRequest, RegenerateContentRequired), None)
      case TooLong => Outcome(s, Failed(BadRequest, RegenerateContentTooLong), None)
      case Thrown => Outcome(s, Failed(InternalError, ServerError), None)
      case Accepted(_) =>
        var a := CorrectGrammar(content.text, GetApiConfig(env), transport);
        Outcome(s, Plain(Ok, CorrectedText(a.result.corrected)),
                if a.sent.Some? then Some(CorrectionRequest(a.sent.value)) else None)
  }

  /** A regeneration request: its instant, body and the provider's reply. */
  datatype Regeneration = Regeneration(now: int, body: Body, transport: Transport)

  function RegenerateAll(s: Server, ip: Option<string>, h: Headers, env: Env, reqs: seq<Regeneration>)
    : (r: (Server, seq<Reply>))
    ensures |r.1| == |reqs|
    decreases |reqs|
  {
    if reqs == [] then (s, [])
    else
      var o := Regenerate(s, ip, h, reqs[0].now, reqs[0].body, env, reqs[0].transport);
      var rest := RegenerateAll(o.server, ip, h, env, reqs[1..]);
      (rest.0, [o.reply] + rest.1)
  }

  function Instants(reqs: seq<Regeneration>): (t: seq<int>)
    ensures |t| == |reqs| && forall i :: 0 <= i < |reqs| ==> t[i] == reqs[i].now
  {
    seq(|reqs|, i requires 0 <= i < |reqs| => reqs[i].now)
  }

  /** A client's regeneration requests are refused exactly when the
      regeneration limiter alone, fed their instants, refuses them. */
  lemma {:induction false} RegenerateAllFollowsLimiter(s: Server, ip: Option<string>, h: Headers, env: Env,
                                                       reqs: seq<Regeneration>)
    ensures forall i :: 0 <= i < |reqs| ==>
      (RegenerateAll(s, ip, h, env, reqs).1[i].status == TooManyRequests
       <==> !Run(s.regenerations, RegenerationKey(ip, h), Instants(reqs), RegenerationPolicy).1[i])
    decreases |reqs|
  {
    if reqs != [] {
      var key := RegenerationKey(ip, h);
      var o := Regenerate(s, ip, h, reqs[0].now, reqs[0].body, env, reqs[0].transport);
      var times := Instants(reqs);
      var step := Check(s.regenerations, key, times[0], RegenerationPolicy);
      RegenerateAllFollowsLimiter(o.server, ip, h, env, reqs[1..]);
      assert times[1..] == Instants(reqs[1..]);
      Prepend(o.reply, RegenerateAll(o.server, ip, h, env, reqs[1..]).1,
              step.admitted, Run(step.counters, key, times[1..], RegenerationPolicy).1);
    }
  }

  /** A reply and a verdict that agree, put in front of replies and verdicts
      that agree position by position, keep them in step. */
  lemma Prepend(first: Reply, rest: seq<Reply>, admitted: bool, verdicts: seq<bool>)
    requires |rest| == |verdicts|
    requires first.status == TooManyRequests <==> !admitted
    requires forall i :: 0 <= i < |rest| ==> (rest[i].status == TooManyRequests <==> !verdicts[i])
    ensures forall i :: 0 <= i < |rest| + 1 ==>
      (([first] + rest)[i].status == TooManyRequests <==> !([admitted] + verdicts)[i])
  {
  }

  /** Within 15 minutes of a client's first regeneration, its first ten
      requests pass the limiter and every later one gets 429. */
  lemma EleventhRegenerationRefused(s: Server, ip: Option<string>, h: Headers, env: Env, reqs: seq<Regeneration>)
    requires RegenerationKey(ip, h) !in s.regenerations && |reqs| > 0
    requires forall i :: 0 <= i < |reqs| ==> reqs[i].now - reqs[0].now <= RegenerationPolicy.windowMs
    ensures forall i :: 0 <= i < |reqs| ==>
      (RegenerateAll(s, ip, h, env, reqs).1[i].status == TooManyRequests <==> i >= 10)
  {
    RegenerateAllFollowsLimiter(s, ip, h, env, reqs);
    FreshKeyWindow(s.regenerations, RegenerationKey(ip, h), Instants(reqs), RegenerationPolicy);
  }
}
