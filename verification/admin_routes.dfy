/** The admin endpoints: answering (app/api/admin/answer/route.ts), listing
    and deleting (app/api/admin/questions/route.ts), gated by the identity
    provider's session and the email allow-list; and the password login
    (app/api/admin/login/route.ts), which issues a session of the local
    store. The identity provider is reduced to the session it reports, and
    the bcrypt comparison is a parameter. */
module AdminRoutes {
  import opened Wrappers
  import opened Text
  import opened Environment
  import opened Config
  import opened Sessions
  import opened AdminAllowList
  import opened QuestionStore
  import opened Ordering
  import opened Http

  const AnswerMaxUnits := 2000
  const NodeEnvVar := "NODE_ENV"

  const NotAuthorized := "Unauthorized"
  const ServerError := "Internal server error"
  const AnswerFieldsRequired := "Question ID and content are required"
  const AnswerEmpty := "Answer content cannot be empty"
  const AnswerTooLong := "Answer must be less than 2000 characters"
  const QuestionMissing := "Question not found"
  const AnswerPosted := "Answer posted successfully"
  const IdRequired := "Question ID required"
  const DeleteFailed := "Failed to delete question"
  const PasswordRequired := "Password is required"
  const InvalidPassword := "Invalid password"

  /** What `auth0.getSession()` reports: no session, or a signed-in user
      with the email the provider holds for them, if any. */
  datatype IdpSession = Anonymous | SignedIn(email: Option<string>)

  /** The gate every admin data route opens with: a session whose email the
      allow-list admits. */
  predicate Authorized(idp: IdpSession, env: Env) {
    idp.SignedIn? && IsAllowedUser(ParseAllowList(Lookup(env, AllowListVar)), idp.email)
  }

  /** Without an allow-list every signed-in user with an email passes; with
      one, the user's email must match an entry up to ASCII case. */
  lemma AuthorizedUsers(idp: IdpSession, env: Env)
    ensures Authorized(idp, env) ==> idp.SignedIn? && idp.email.Some? && idp.email.value != ""
    ensures AllowListVar !in env && idp.SignedIn? && idp.email.Some? && idp.email.value != "" ==>
      Authorized(idp, env)
    ensures Authorized(idp, env) && AllowListVar in env ==>
      exists e :: e in Split(env[AllowListVar], ',') && NormalizeEntry(e) == Lower(idp.email.value)
  {
    if Authorized(idp, env) && AllowListVar in env {
      var list := ParseAllowList(Lookup(env, AllowListVar));
      var fields := Split(env[AllowListVar], ',');
      var i :| 0 <= i < |list| && list[i] == Lower(idp.email.value);
      assert fields[i] in fields && NormalizeEntry(fields[i]) == Lower(idp.email.value);
    }
  }

  /** The request's question id as the store sees it: the text when it is a
      string. A non-string id is taken to match no row; what the store makes
      of one is not modelled. */
  function QuestionIdText(v: JsonValue): string {
    if v.Str? then v.text else ""
  }

  /** `POST /api/admin/answer`. Only the tables can change, and only past
      every check; a store failure after the answer row was inserted keeps
      that row (500). */
  function PostAnswer(s: Server, idp: IdpSession, env: Env, body: Body, answerId: string, now: int,
                      lookupOk: bool, insertOk: bool, updateOk: bool): (o: Outcome)
    ensures o.server == s.(db := o.server.db) && o.outbound.None?
    ensures !Authorized(idp, env) ==> o == Outcome(s, Failed(Unauthorized, NotAuthorized), None)
    ensures o.reply.status == Unauthorized <==> !Authorized(idp, env)
    ensures o.reply.status == BadRequest <==>
      Authorized(idp, env) && body.Json?
      && (!Truthy(Field(body, "questionId")) || !Truthy(Field(body, "content"))
          || CheckContent(Field(body, "content"), AnswerMaxUnits) in {Blank, TooLong})
    // A valid request reaches the store: an unconfigured client throws (500)
    // before the lookup, whose failure otherwise reads as "not found".
    ensures Authorized(idp, env) && body.Json? && Truthy(Field(body, "questionId"))
            && CheckContent(Field(body, "content"), AnswerMaxUnits).Accepted? && !StoreConfigured(env) ==>
      o == Outcome(s, Failed(InternalError, ServerError), None)
    ensures o.reply.status == NotFound <==>
      Authorized(idp, env) && body.Json? && Truthy(Field(body, "questionId"))
      && CheckContent(Field(body, "content"), AnswerMaxUnits).Accepted? && StoreConfigured(env)
      && (Field(body, "questionId").Other?
          || GetQuestionById(s.db, Field(body, "questionId").text, lookupOk).None?)
    // 201 exactly when the question exists and both writes succeed; then the
    // trimmed answer is appended and that question is flagged answered.
    ensures o.reply.status == Created <==>
      Authorized(idp, env) && body.Json? && Field(body, "questionId").Str?
      && Field(body, "questionId").text != ""
      && CheckContent(Field(body, "content"), AnswerMaxUnits).Accepted? && StoreConfigured(env)
      && GetQuestionById(s.db, Field(body, "questionId").text, lookupOk).Some? && insertOk && updateOk
    ensures o.reply.status == Created ==>
      var qid := Field(body, "questionId").text;
      && o.server.db.answers == s.db.answers + [Answer(answerId, qid, Trim(Field(body, "content").text), now)]
      && o.server.db.questions == MarkAnswered(s.db.questions, qid)
    ensures o.reply.status == InternalError ==> o.server.db.questions == s.db.questions
    // The one 500 that keeps a write: the answer row went in and only the
    // flag update failed. Every other 500 leaves the tables alone.
    ensures o.reply.status == InternalError ==>
      if body.Json? && Field(body, "questionId").Str? && StoreConfigured(env)
         && CheckContent(Field(body, "content"), AnswerMaxUnits).Accepted?
         && GetQuestionById(s.db, Field(body, "questionId").text, lookupOk).Some? && insertOk
      then o.server.db.answers == s.db.answers +
             [Answer(answerId, Field(body, "questionId").text, Trim(Field(body, "content").text), now)]
      else o.server.db == s.db
    ensures o.reply.status !in {Created, InternalError} ==> o.server == s
    ensures o.reply.status in {Created, BadRequest, Unauthorized, NotFound, InternalError}
  {
    if !Authorized(idp, env) then Outcome(s, Failed(Unauthorized, NotAuthorized), None)
    else AnswerSubmitted(s, body, env, answerId, now, lookupOk, insertOk, updateOk)
  }

  /** The answer route past the gate: both fields must be truthy, the text
      a non-blank string of at most 2000 units once trimmed, the store
      client must be configured, and the question must exist. */
  function AnswerSubmitted(s: Server, body: Body, env: Env, answerId: string, now: int,
                           lookupOk: bool, insertOk: bool, updateOk: bool): (o: Outcome)
    ensures o.server == s.(db := o.server.db) && o.outbound.None?
    ensures o.reply.status == BadRequest <==>
      body.Json?
      && (!Truthy(Field(body, "questionId")) || !Truthy(Field(body, "content"))
          || CheckContent(Field(body, "content"), AnswerMaxUnits) in {Blank, TooLong})
    ensures body.Json? && Truthy(Field(body, "questionId"))
            && CheckContent(Field(body, "content"), AnswerMaxUnits).Accepted? && !StoreConfigured(env) ==>
      o == Outcome(s, Failed(InternalError, ServerError), None)
    ensures o.reply.status == NotFound <==>
      body.Json? && Truthy(Field(body, "questionId"))
      && CheckContent(Field(body, "content"), AnswerMaxUnits).Accepted? && StoreConfigured(env)
      && (Field(body, "questionId").Other?
          || GetQuestionById(s.db, Field(body, "questionId").text, lookupOk).None?)
    ensures o.reply.status == Created <==>
      body.Json? && Field(body, "questionId").Str? && Field(body, "questionId").text != ""
      && CheckContent(Field(body, "content"), AnswerMaxUnits).Accepted? && StoreConfigured(env)
      && GetQuestionById(s.db, Field(body, "questionId").text, lookupOk).Some? && insertOk && updateOk
    ensures o.reply.status == Created ==>
      var qid := Field(body, "questionId").text;
      && o.server.db.answers == s.db.answers + [Answer(answerId, qid, Trim(Field(body, "content").text), now)]
      && o.server.db.questions == MarkAnswered(s.db.questions, qid)
    ensures o.reply.status == InternalError ==> o.server.db.questions == s.db.questions
    // The one 500 that keeps a write: the answer row went in and only the
    // flag update failed. Every other 500 leaves the tables alone.
    ensures o.reply.status == InternalError ==>
      if body.Json? && Field(body, "questionId").Str? && StoreConfigured(env)
         && CheckContent(Field(body, "content"), AnswerMaxUnits).Accepted?
         && GetQuestionById(s.db, Field(body, "questionId").text, lookupOk).Some? && insertOk
      then o.server.db.answers == s.db.answers +
             [Answer(answerId, Field(body, "questionId").text, Trim(Field(body, "content").text), now)]
      else o.server.db == s.db
    ensures o.reply.status !in {Created, InternalError} ==> o.server == s
    ensures o.reply.status in {Created, BadRequest, NotFound, InternalError}
  {
    if body.Unparseable? then Outcome(s, Failed(InternalError, ServerError), None)
    else
      var qid, content := Field(body, "questionId"), Field(body, "content");
      if !Truthy(qid) || !Truthy(content) then Outcome(s, Failed(BadRequest, AnswerFieldsRequired), None)
      else
        match CheckContent(content, AnswerMaxUnits)
        case Missing => Outcome(s, Failed(BadRequest, AnswerFieldsRequired), None)
        case Thrown => Outcome(s, Failed(InternalError, ServerError), None)
        case Blank => Outcome(s, Failed(BadRequest, AnswerEmpty), None)
        case TooLong => Outcome(s, Failed(BadRequest, AnswerTooLong), None)
        case Accepted(_) =>
          var w := AddAnswer(s.db, QuestionIdText(qid), content.text, answerId, now,
                             StoreConfigured(env), lookupOk && qid.Str?, insertOk, updateOk);
          match w.result
          case Failure(_) => Outcome(s.(db := w.db), Failed(InternalError, ServerError), None)
          case Success(None) => Outcome(s, Failed(NotFound, QuestionMissing), None)
          case Success(Some(_)) => Outcome(s.(db := w.db), Plain(Created, Message(AnswerPosted)), None)
  }

  /** Answering an unanswered question through the route, with every store
      call succeeding, gives 201 and keeps every question's answer count
      equal to its flag. */
  lemma AnswerRouteKeepsConsistent(s: Server, idp: IdpSession, env: Env, qid: string, content: string,
                                   answerId: string, now: int)
    requires Consistent(s.db)
    requires Authorized(idp, env) && StoreConfigured(env) && qid != ""
    requires CheckContent(Str(content), AnswerMaxUnits).Accepted?
    requires GetQuestionById(s.db, qid, true).Some? && !GetQuestionById(s.db, qid, true).value.answered
    ensures var o := PostAnswer(s, idp, env, Json(map["questionId" := Str(qid), "content" := Str(content)]),
                                answerId, now, true, true, true);
      o.reply.status == Created && Consistent(o.server.db)
  {
    var body := Json(map["questionId" := Str(qid), "content" := Str(content)]);
    assert Field(body, "questionId") == Str(qid) && Field(body, "content") == Str(content);
    AnswerKeepsConsistent(s.db, qid, content, answerId, now);
  }

  /** `GET /api/admin/questions`: every question, newest first, and the
      answered pairs, or 500 when any of the three reads fails. Nothing
      changes. */
  function GetQuestions(s: Server, idp: IdpSession, env: Env, questionsOk: bool, qaQuestionsOk: bool,
                        qaAnswersOk: bool): (o: Outcome)
    ensures o.server == s && o.outbound.None?
    ensures o.reply.status == Unauthorized <==> !Authorized(idp, env)
    ensures o.reply.status == Ok <==> Authorized(idp, env) && questionsOk && qaQuestionsOk && qaAnswersOk
    ensures o.reply.status in {Ok, Unauthorized, InternalError}
    ensures o.reply.status == Ok ==>
      o.reply.payload == Listing(GetAllQuestions(s.db, true).value, GetAllQA(s.db, true, true).value)
    ensures o.reply.status == Ok ==>
      var l := o.reply.payload;
      && multiset(l.questions) == multiset(s.db.questions)
      && NonIncreasing(l.questions, QuestionTime)
      && NonIncreasing(l.answered, AnswerTime)
      && (forall p :: p in l.answered ==> p.question in s.db.questions && p.question.answered
                                           && p.answer in s.db.answers && p.answer.questionId == p.question.id)
  {
    if !Authorized(idp, env) then Outcome(s, Failed(Unauthorized, NotAuthorized), None)
    else
      var questions := GetAllQuestions(s.db, questionsOk);
      var answered := GetAllQA(s.db, qaQuestionsOk, qaAnswersOk);
      if questions.Failure? || answered.Failure? then Outcome(s, Failed(InternalError, ServerError), None)
      else Outcome(s, Plain(Ok, Listing(questions.value, answered.value)), None)
  }

  /** `DELETE /api/admin/questions?id=...`: 400 without an id, 500 when the
      store reports an error, otherwise 200 with no question of that id
      left. Only the tables can change, and only on 200. */
  function DeleteQuestionRoute(s: Server, idp: IdpSession, env: Env, id: Option<string>, ok: bool,
                               cascade: bool): (o: Outcome)
    ensures o.server == s.(db := o.server.db) && o.outbound.None?
    ensures o.reply.status == Unauthorized <==> !Authorized(idp, env)
    ensures o.reply.status == BadRequest <==> Authorized(idp, env) && (id.None? || id.value == "")
    ensures o.reply.status == Ok <==> Authorized(idp, env) && id.Some? && id.value != "" && ok
    ensures o.reply.status in {Ok, BadRequest, Unauthorized, InternalError}
    ensures o.reply.status != Ok ==> o.server == s
    ensures o.reply.status == Ok ==>
      && (forall q :: q in o.server.db.questions <==> q in s.db.questions && q.id != id.value)
      && (forall a :: a in s.db.answers && a.questionId != id.value ==> a in o.server.db.answers)
      && (forall a :: a in o.server.db.answers ==> a in s.db.answers)
    ensures o.reply.status == Ok ==> o.server.db == DeleteQuestion(s.db, id.value, true, cascade).db
  {
    if !Authorized(idp, env) then Outcome(s, Failed(Unauthorized, NotAuthorized), None)
    else if id.None? || id.value == "" then Outcome(s, Failed(BadRequest, IdRequired), None)
    else
      var r := DeleteQuestion(s.db, id.value, ok, cascade);
      if !r.deleted then Outcome(s, Failed(InternalError, DeleteFailed), None)
      else Outcome(s.(db := r.db), Plain(Ok, DeleteSucceeded), None)
  }

  /** Once deleted (the delete succeeds for an authorised admin with a
      non-empty id), a question cannot be answered: answering it afterwards
      gets 404 (500 if the store client is not configured), whatever the
      store does with the writes, and changes nothing. */
  lemma DeletedQuestionCannotBeAnswered(s: Server, idp: IdpSession, env: Env, id: string, cascade: bool,
                                        content: string, answerId: string, now: int,
                                        lookupOk: bool, insertOk: bool, updateOk: bool)
    requires Authorized(idp, env) && id != ""
    requires CheckContent(Str(content), AnswerMaxUnits).Accepted?
    ensures var deleted := DeleteQuestionRoute(s, idp, env, Some(id), true, cascade).server;
      var o := PostAnswer(deleted, idp, env, Json(map["questionId" := Str(id), "content" := Str(content)]),
                          answerId, now, lookupOk, insertOk, updateOk);
      && DeleteQuestionRoute(s, idp, env, Some(id), true, cascade).reply.status == Ok
      && o.server == deleted
      && (StoreConfigured(env) ==> o.reply.status == NotFound)
      && (!StoreConfigured(env) ==> o.reply.status == InternalError)
  {
    assert DeleteQuestionRoute(s, idp, env, Some(id), true, cascade).reply.status == Ok;
    var deleted := DeleteQuestionRoute(s, idp, env, Some(id), true, cascade).server;
    assert forall q :: q in deleted.db.questions ==> q.id != id;
    AnswerToMissingQuestion(deleted, idp, env, id, content, answerId, now, lookupOk, insertOk, updateOk);
  }

  /** Answering an id no row carries is a 404 that changes nothing, or a
      500 when the store client is not configured. */
  lemma AnswerToMissingQuestion(s: Server, idp: IdpSession, env: Env, id: string, content: string,
                                answerId: string, now: int, lookupOk: bool, insertOk: bool, updateOk: bool)
    requires Authorized(idp, env) && id != ""
    requires CheckContent(Str(content), AnswerMaxUnits).Accepted?
    requires forall q :: q in s.db.questions ==> q.id != id
    ensures var o := PostAnswer(s, idp, env, Json(map["questionId" := Str(id), "content" := Str(content)]),
                                answerId, now, lookupOk, insertOk, updateOk);
      && o.server == s
      && (StoreConfigured(env) ==> o.reply.status == NotFound)
      && (!StoreConfigured(env) ==> o.reply.status == InternalError)
  {
    var body := Json(map["questionId" := Str(id), "content" := Str(content)]);
    assert Field(body, "questionId") == Str(id) && Field(body, "content") == Str(content);
    assert GetQuestionById(s.db, id, lookupOk).None?;
  }

  /** `process.env.NODE_ENV === 'production'`. */
  predicate Production(env: Env) {
    Lookup(env, NodeEnvVar) == Some("production")
  }

  /** `POST /api/admin/login` with `token` as the freshly generated session
      token and `bcrypt` as `bcrypt.compare`: a missing password is 400
      before the configuration is read; a missing hash, or a non-string
      password (which `bcrypt.compare` rejects by throwing), is 500; a
      mismatch is 401; a match issues a session and sets its cookie. Only
      the session store can change, and only on success. */
  function Login(s: Server, body: Body, env: Env, bcrypt: (string, string) -> bool, token: string,
                 now: int): (o: Outcome)
    ensures o.server == s.(sessions := o.server.sessions) && o.outbound.None?
    ensures o.reply.status == BadRequest <==> body.Json? && !Truthy(Field(body, "password"))
    ensures o.reply.status == Ok <==>
      body.Json? && Field(body, "password").Str? && Field(body, "password").text != ""
      && GetAdminPasswordHash(env).Success? && bcrypt(Field(body, "password").text, GetAdminPasswordHash(env).value)
    ensures o.reply.status == Unauthorized <==>
      body.Json? && Field(body, "password").Str? && Field(body, "password").text != ""
      && GetAdminPasswordHash(env).Success? && !bcrypt(Field(body, "password").text, GetAdminPasswordHash(env).value)
    ensures o.reply.status in {Ok, BadRequest, Unauthorized, InternalError}
    ensures o.reply.status != Ok ==> o.server == s && o.reply.cookie.None?
    ensures o.reply.status == Ok ==>
      && o.reply.payload == LoggedIn(token)
      && o.reply.cookie == Some(AuthCookie(token, Production(env)))
      && Hmac(SessionSecret(env), token) in o.server.sessions
      && o.server.sessions[Hmac(SessionSecret(env), token)] == now + SessionDurationMs
      && forall d :: d in o.server.sessions && d != Hmac(SessionSecret(env), token) ==>
           d in s.sessions && o.server.sessions[d] == s.sessions[d]
    // Issuing also sweeps: every other session survives exactly when it has
    // not expired, which is what `createSession` leaves in the store.
    ensures o.reply.status == Ok ==>
      forall d :: d != Hmac(SessionSecret(env), token) ==>
        (d in o.server.sessions <==> d in s.sessions && s.sessions[d] >= now)
    ensures o.reply.status == Ok ==> o.server.sessions == CreateSession(s.sessions, token, now, SessionSecret(env)).store
  {
    if body.Unparseable? then Outcome(s, Failed(InternalError, ServerError), None)
    else
      var password := Field(body, "password");
      if !Truthy(password) then Outcome(s, Failed(BadRequest, PasswordRequired), None)
      else
        match GetAdminPasswordHash(env)
        case Failure(_) => Outcome(s, Failed(InternalError, ServerError), None)
        case Success(hash) =>
          if password.Other? then Outcome(s, Failed(InternalError, ServerError), None)
          else if !bcrypt(password.text, hash) then Outcome(s, Failed(Unauthorized, InvalidPassword), None)
          else
            var issued := CreateSession(s.sessions, token, now, SessionSecret(env));
            Outcome(s.(sessions := issued.store),
                    Reply(Ok, LoggedIn(issued.token), None, Some(AuthCookie(issued.token, Production(env)))),
                    None)
  }

  /** A request without a password gets the same 400 whatever the
      configuration, the hash comparison or the clock. */
  lemma MissingPasswordIgnoresConfiguration(s: Server, body: Body, env1: Env, env2: Env,
                                            bcrypt1: (string, string) -> bool, bcrypt2: (string, string) -> bool,
                                            token1: string, token2: string, now1: int, now2: int)
    requires body.Json? && !Truthy(Field(body, "password"))
    ensures Login(s, body, env1, bcrypt1, token1, now1) == Login(s, body, env2, bcrypt2, token2, now2)
  {
  }

  /** A successful login is usable: until it expires, the session store it
      leaves accepts the token, whether presented as the cookie it set or as
      a bearer header. */
  lemma LoginThenAuthenticated(s: Server, body: Body, env: Env, bcrypt: (string, string) -> bool,
                               token: string, now: int, later: int)
    requires token != ""
    requires Login(s, body, env, bcrypt, token, now).reply.status == Ok
    requires now <= later <= now + SessionDurationMs
    ensures var o := Login(s, body, env, bcrypt, token, now);
      && RequireAuth(o.server.sessions, None, Some(o.reply.cookie.value.value), later, SessionSecret(env)).valid
      && RequireAuth(o.server.sessions, Some(BearerPrefix + token), None, later, SessionSecret(env)).valid
  {
    var o := Login(s, body, env, bcrypt, token, now);
    CookieRoundTrip(token, Production(env));
    BearerRoundTrip(token, None);
    var h := Hmac(SessionSecret(env), token);
    assert h in o.server.sessions && o.server.sessions[h] >= later;
  }
}
