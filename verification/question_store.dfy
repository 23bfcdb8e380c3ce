/** The data access of lib/data/questionService.ts over an in-memory model
    of the two tables. Each store round trip takes a flag saying whether the
    hosted store answered it without error; row ids and creation instants,
    which the store assigns, are inputs. */
module QuestionStore {
  import opened Wrappers
  import opened Text
  import opened Environment
  import opened Ordering

  const StoreUrlVar := "NEXT_PUBLIC_SUPABASE_URL"
  const StoreKeyVar := "NEXT_PUBLIC_SUPABASE_ANON_KEY"

  /** Whether `getSupabase()` can build its client (lib/supabase.ts): it
      throws, before any query is sent, unless both the store URL and its
      key are set. */
  predicate StoreConfigured(env: Env) {
    IsSet(env, StoreUrlVar) && IsSet(env, StoreKeyVar)
  }

  datatype Question = Question(id: string, content: string, timestamp: int, answered: bool)
  datatype Answer = Answer(id: string, questionId: string, content: string, timestamp: int)
  datatype QA = QA(question: Question, answer: Answer)

  /** The `questions` and `answers` tables, rows in storage order. */
  datatype Db = Db(questions: seq<Question>, answers: seq<Answer>)

  /** An error reported by the hosted store. */
  datatype StoreError = StoreError

  /** The tables after an operation, and its outcome. */
  datatype Written<T> = Written(db: Db, result: Result<T, StoreError>)

  function QuestionTime(q: Question): int { q.timestamp }
  function AnswerTime(p: QA): int { p.answer.timestamp }

  /** The questions whose `answered` flag equals `flag`, in table order. */
  function WithAnswered(qs: seq<Question>, flag: bool): (r: seq<Question>)
    ensures forall q :: q in r <==> q in qs && q.answered == flag
    ensures forall q :: multiset(r)[q] == (if q.answered == flag then multiset(qs)[q] else 0)
    ensures |r| <= |qs|
  {
    if qs == [] then []
    else
      assert qs == [qs[0]] + qs[1..];
      (if qs[0].answered == flag then [qs[0]] else []) + WithAnswered(qs[1..], flag)
  }

  /** The questions with the given id, in table order. */
  function WithId(qs: seq<Question>, id: string): (r: seq<Question>)
    ensures forall q :: q in r <==> q in qs && q.id == id
  {
    if qs == [] then []
    else
      assert qs == [qs[0]] + qs[1..];
      (if qs[0].id == id then [qs[0]] else []) + WithId(qs[1..], id)
  }

  /** `addQuestion`: appends an unanswered question holding the TRIMMED
      content and returns it; on a store error nothing is written. */
  function AddQuestion(db: Db, content: string, id: string, now: int, ok: bool): (w: Written<Question>)
    ensures ok ==> w.result == Success(Question(id, Trim(content), now, false))
    ensures ok ==> w.db == Db(db.questions + [Question(id, Trim(content), now, false)], db.answers)
    ensures !ok ==> w == Written(db, Failure(StoreError))
  {
    if !ok then Written(db, Failure(StoreError))
    else
      var q := Question(id, Trim(content), now, false);
      Written(Db(db.questions + [q], db.answers), Success(q))
  }

  /** `getUnansweredQuestions`: exactly the unanswered questions, newest
      first; a store error is raised. */
  function GetUnansweredQuestions(db: Db, ok: bool): (r: Result<seq<Question>, StoreError>)
    ensures r.Success? <==> ok
    ensures ok ==> NonIncreasing(r.value, QuestionTime)
    ensures ok ==> multiset(r.value) == multiset(WithAnswered(db.questions, false))
    ensures ok ==> forall q :: q in r.value <==> q in db.questions && !q.answered
  {
    if !ok then Failure(StoreError)
    else
      var r := SortDesc(WithAnswered(db.questions, false), QuestionTime);
      assert forall q :: q in r <==> q in multiset(r);
      Success(r)
  }

  /** `getAllQuestions`: every question, newest first. */
  function GetAllQuestions(db: Db, ok: bool): (r: Result<seq<Question>, StoreError>)
    ensures r.Success? <==> ok
    ensures ok ==> NonIncreasing(r.value, QuestionTime) && multiset(r.value) == multiset(db.questions)
  {
    if !ok then Failure(StoreError) else Success(SortDesc(db.questions, QuestionTime))
  }

  /** `getQuestionById` once the client exists: the single row with that
      id. Like the source's `.single()`, it yields nothing, not an error,
      when the store reports an error or when the id matches no row or
      several. (The throw of an unconfigured client is not caught here; see
      `AddAnswer`.) */
  function GetQuestionById(db: Db, id: string, ok: bool): (r: Option<Question>)
    ensures r.Some? <==> ok && |WithId(db.questions, id)| == 1
    ensures r.Some? ==> r.value == WithId(db.questions, id)[0]
    ensures r.Some? ==> ok && r.value in db.questions && r.value.id == id
    ensures r.Some? ==> forall q :: q in db.questions && q.id == id ==> q == r.value
    ensures (forall q :: q in db.questions ==> q.id != id) ==> r.None?
  {
    var matches := WithId(db.questions, id);
    if ok && |matches| == 1 then
      assert forall q :: q in matches ==> q == matches[0];
      Some(matches[0])
    else
      assert (forall q :: q in db.questions ==> q.id != id) ==> matches == [] by {
        if matches != [] { assert matches[0] in matches; }
      }
      None
  }

  /** `find`: the position of the first answer to question `qid`. */
  function FindAnswer(answers: seq<Answer>, qid: string): (i: Option<nat>)
    ensures i.Some? ==> i.value < |answers| && answers[i.value].questionId == qid
    ensures i.Some? ==> forall j :: 0 <= j < i.value ==> answers[j].questionId != qid
    ensures i.None? ==> forall j :: 0 <= j < |answers| ==> answers[j].questionId != qid
  {
    if answers == [] then None
    else if answers[0].questionId == qid then Some(0)
    else
      match FindAnswer(answers[1..], qid)
      case None => None
      case Some(k) => Some(k + 1)
  }

  /** The first answer to question `qid` in table order, if any. */
  function FirstAnswer(answers: seq<Answer>, qid: string): (a: Option<Answer>)
    ensures a.Some? ==> a.value in answers && a.value.questionId == qid
    ensures a.None? <==> forall b :: b in answers ==> b.questionId != qid
  {
    match FindAnswer(answers, qid)
    case None => None
    case Some(i) => Some(answers[i])
  }

  /** The in-memory join: each question paired with its first answer, those
      without one dropped, in question order. */
  function Join(qs: seq<Question>, answers: seq<Answer>): (r: seq<QA>)
    ensures |r| <= |qs|
    // Each row with an answer yields its pair once, and nothing else does.
    ensures forall p :: (multiset(r)[p] ==
      if FirstAnswer(answers, p.question.id) == Some(p.answer) then multiset(qs)[p.question] else 0)
    ensures forall p :: p in r ==> p.question in qs && FirstAnswer(answers, p.question.id) == Some(p.answer)
    ensures forall q :: q in qs && FirstAnswer(answers, q.id).Some? ==>
      QA(q, FirstAnswer(answers, q.id).value) in r
  {
    if qs == [] then []
    else
      assert qs == [qs[0]] + qs[1..];
      var rest := Join(qs[1..], answers);
      match FirstAnswer(answers, qs[0].id)
      case None => rest
      case Some(a) => [QA(qs[0], a)] + rest
  }

  /** `getAllQA`: the answered questions, each with the first answer that
      references it (answered questions without one are dropped), newest
      answer first. So every pair is an answered question with an answer of
      its own, there are no more pairs than answered questions, no answered
      question that has an answer is missing, and a pair occurs as often as
      its question's row does. */
  function GetAllQA(db: Db, questionsOk: bool, answersOk: bool): (r: Result<seq<QA>, StoreError>)
    ensures r.Success? <==> questionsOk && answersOk
    ensures r.Success? ==> NonIncreasing(r.value, AnswerTime)
    ensures r.Success? ==> |r.value| <= |WithAnswered(db.questions, true)|
    ensures r.Success? ==> forall p :: p in r.value ==>
      && p.question in db.questions && p.question.answered
      && p.answer in db.answers && p.answer.questionId == p.question.id
      && FirstAnswer(db.answers, p.question.id) == Some(p.answer)
    ensures r.Success? ==> forall q :: q in db.questions && q.answered && FirstAnswer(db.answers, q.id).Some? ==>
      QA(q, FirstAnswer(db.answers, q.id).value) in r.value
    ensures r.Success? ==> forall p :: (multiset(r.value)[p] ==
      if p.question.answered && FirstAnswer(db.answers, p.question.id) == Some(p.answer)
      then multiset(db.questions)[p.question] else 0)
  {
    if !questionsOk || !answersOk then Failure(StoreError)
    else
      var joined := Join(WithAnswered(db.questions, true), db.answers);
      var r := SortDesc(joined, AnswerTime);
      assert forall p :: p in r <==> p in multiset(r);
      assert forall p :: p in joined <==> p in multiset(joined);
      Success(r)
  }

  /** `update({ answered: true }).eq('id', id)`: flags the rows with that id
      and leaves every other row as it was. */
  function MarkAnswered(qs: seq<Question>, id: string): (r: seq<Question>)
    ensures |r| == |qs|
    ensures forall i :: 0 <= i < |qs| ==> r[i] == (if qs[i].id == id then qs[i].(answered := true) else qs[i])
  {
    seq(|qs|, i requires 0 <= i < |qs| => if qs[i].id == id then qs[i].(answered := true) else qs[i])
  }

  /** `addAnswer`: with an unconfigured client the lookup throws and
      nothing is written. Nothing found (or the lookup reported an error)
      gives "no answer" with both tables unchanged. Otherwise the trimmed
      answer row is inserted, then the question is flagged answered. The two
      writes are not atomic: when the flag update fails the answer row
      stays. */
  function AddAnswer(db: Db, questionId: string, content: string, answerId: string, now: int,
                     configured: bool, lookupOk: bool, insertOk: bool, updateOk: bool): (w: Written<Option<Answer>>)
    ensures !configured ==> w == Written(db, Failure(StoreError))
    ensures w.result == Success(None) <==> configured && GetQuestionById(db, questionId, lookupOk).None?
    ensures w.result == Success(None) ==> w.db == db
    ensures w.result.Success? && w.result.value.Some? ==>
      && w.result.value.value == Answer(answerId, questionId, Trim(content), now)
      && w.db == Db(MarkAnswered(db.questions, questionId), db.answers + [w.result.value.value])
    ensures w.result.Failure? ==> w.db.questions == db.questions
    ensures w.result.Failure? ==>
      w.db.answers == db.answers || w.db.answers == db.answers + [Answer(answerId, questionId, Trim(content), now)]
    ensures configured && GetQuestionById(db, questionId, lookupOk).Some? && !insertOk ==>
      w == Written(db, Failure(StoreError))
    ensures configured && GetQuestionById(db, questionId, lookupOk).Some? && insertOk && !updateOk ==>
      w == Written(Db(db.questions, db.answers + [Answer(answerId, questionId, Trim(content), now)]), Failure(StoreError))
    ensures w.result.Success? && w.result.value.Some? <==>
      configured && GetQuestionById(db, questionId, lookupOk).Some? && insertOk && updateOk
  {
    if !configured then Written(db, Failure(StoreError))
    else if GetQuestionById(db, questionId, lookupOk).None? then Written(db, Success(None))
    else
      var a := Answer(answerId, questionId, Trim(content), now);
      if !insertOk then Written(db, Failure(StoreError))
      else
        var inserted := Db(db.questions, db.answers + [a]);
        if !updateOk then Written(inserted, Failure(StoreError))
        else Written(Db(MarkAnswered(db.questions, questionId), inserted.answers), Success(Some(a)))
  }

  datatype Removal = Removal(db: Db, deleted: bool)

  /** `deleteQuestion`: true iff the store reported no error, in which case
      the rows with that id are gone. Whether the answer goes with its
      question is the schema's decision (`cascade`), not the code's. */
  function DeleteQuestion(db: Db, id: string, ok: bool, cascade: bool): (r: Removal)
    ensures r.deleted <==> ok
    ensures !ok ==> r.db == db
    ensures ok ==> forall q :: q in r.db.questions <==> q in db.questions && q.id != id
    ensures ok ==> forall a :: a in r.db.answers <==> a in db.answers && (cascade ==> a.questionId != id)
    // Each surviving row stays exactly as often as it was stored.
    ensures ok ==> forall q :: (multiset(r.db.questions)[q] == if q.id != id then multiset(db.questions)[q] else 0)
    ensures ok ==> forall a :: (multiset(r.db.answers)[a] ==
      if cascade && a.questionId == id then 0 else multiset(db.answers)[a])
  {
    if !ok then Removal(db, false)
    else
      Removal(Db(Without(db.questions, id), if cascade then AnswersWithout(db.answers, id) else db.answers), true)
  }

  /** The questions whose id is not `id`, in table order. */
  function Without(qs: seq<Question>, id: string): (r: seq<Question>)
    ensures forall q :: q in r <==> q in qs && q.id != id
    ensures forall q :: multiset(r)[q] == (if q.id != id then multiset(qs)[q] else 0)
  {
    if qs == [] then []
    else
      assert qs == [qs[0]] + qs[1..];
      (if qs[0].id != id then [qs[0]] else []) + Without(qs[1..], id)
  }

  /** The answers not referencing question `id`, in table order. */
  function AnswersWithout(answers: seq<Answer>, id: string): (r: seq<Answer>)
    ensures forall a :: a in r <==> a in answers && a.questionId != id
    ensures forall a :: multiset(r)[a] == (if a.questionId != id then multiset(answers)[a] else 0)
    ensures forall qid :: qid != id ==> AnswerCount(r, qid) == AnswerCount(answers, qid)
  {
    if answers == [] then []
    else
      assert answers == [answers[0]] + answers[1..];
      var rest := AnswersWithout(answers[1..], id);
      if answers[0].questionId != id then
        assert ([answers[0]] + rest)[1..] == rest;
        [answers[0]] + rest
      else rest
  }

  /** How many answers reference question `qid`. */
  function AnswerCount(answers: seq<Answer>, qid: string): nat {
    if answers == [] then 0
    else (if answers[0].questionId == qid then 1 else 0) + AnswerCount(answers[1..], qid)
  }

  lemma {:induction false} AnswerCountAppend(answers: seq<Answer>, a: Answer, qid: string)
    ensures AnswerCount(answers + [a], qid) == AnswerCount(answers, qid) + (if a.questionId == qid then 1 else 0)
  {
    if answers != [] {
      assert (answers + [a])[1..] == answers[1..] + [a];
      AnswerCountAppend(answers[1..], a, qid);
    }
  }

  /** The intended data invariant: a question is flagged answered exactly
      when one answer references it, and is never referenced twice. */
  ghost predicate Consistent(db: Db) {
    forall q :: q in db.questions ==> AnswerCount(db.answers, q.id) == (if q.answered then 1 else 0)
  }

  /** A successful delete keeps the tables consistent, whether or not the
      schema cascades to the answer: every surviving question has another
      id, so its answers are all still there. */
  lemma DeleteKeepsConsistent(db: Db, id: string, cascade: bool)
    requires Consistent(db)
    ensures Consistent(DeleteQuestion(db, id, true, cascade).db)
  {
  }

  /** Answering an unanswered question, with every store call succeeding,
      keeps the tables consistent. */
  lemma AnswerKeepsConsistent(db: Db, questionId: string, content: string, answerId: string, now: int)
    requires Consistent(db)
    requires GetQuestionById(db, questionId, true).Some?
    requires !GetQuestionById(db, questionId, true).value.answered
    ensures Consistent(AddAnswer(db, questionId, content, answerId, now, true, true, true, true).db)
  {
    var w := AddAnswer(db, questionId, content, answerId, now, true, true, true, true);
    var a := Answer(answerId, questionId, Trim(content), now);
    var target := GetQuestionById(db, questionId, true).value;
    forall q | q in w.db.questions
      ensures AnswerCount(w.db.answers, q.id) == (if q.answered then 1 else 0)
    {
      var i :| 0 <= i < |w.db.questions| && w.db.questions[i] == q;
      var old_q := db.questions[i];
      assert old_q in db.questions;
      AnswerCountAppend(db.answers, a, q.id);
      if old_q.id == questionId {
        assert old_q == target;
      }
    }
  }

  /** The flow does not stop a second answer to an answered question: it
      leaves that question referenced twice, outside the invariant. */
  lemma SecondAnswerBreaksConsistency(db: Db, questionId: string, content: string, answerId: string, now: int)
    requires Consistent(db)
    requires GetQuestionById(db, questionId, true).Some?
    requires GetQuestionById(db, questionId, true).value.answered
    ensures !Consistent(AddAnswer(db, questionId, content, answerId, now, true, true, true, true).db)
  {
    var w := AddAnswer(db, questionId, content, answerId, now, true, true, true, true);
    var q := GetQuestionById(db, questionId, true).value;
    var i :| 0 <= i < |db.questions| && db.questions[i] == q;
    assert w.db.questions[i] == q;
    AnswerCountAppend(db.answers, Answer(answerId, questionId, Trim(content), now), questionId);
    assert AnswerCount(w.db.answers, q.id) == 2;
  }

  /** The two writes are not atomic: if the flag update fails after the
      insert, an unanswered question is left with an answer. */
  lemma PartialAnswerBreaksConsistency(db: Db, questionId: string, content: string, answerId: string, now: int)
    requires Consistent(db)
    requires GetQuestionById(db, questionId, true).Some?
    requires !GetQuestionById(db, questionId, true).value.answered
    ensures var w := AddAnswer(db, questionId, content, answerId, now, true, true, true, false);
      w.result.Failure? && !Consistent(w.db)
  {
    var w := AddAnswer(db, questionId, content, answerId, now, true, true, true, false);
    var q := GetQuestionById(db, questionId, true).value;
    AnswerCountAppend(db.answers, Answer(answerId, questionId, Trim(content), now), questionId);
    assert q in w.db.questions && AnswerCount(w.db.answers, q.id) == 1;
  }

  /** A row appended under an id no other row has is the only match. */
  lemma {:induction false} WithIdFresh(qs: seq<Question>, x: Question)
    requires forall q :: q in qs ==> q.id != x.id
    ensures WithId(qs + [x], x.id) == [x]
  {
    if qs != [] {
      assert (qs + [x])[1..] == qs[1..] + [x];
      assert qs[0] in qs;
      WithIdFresh(qs[1..], x);
    }
  }

  /** A question submitted and then answered leaves the unanswered list and
      is published as exactly one pair, with both texts stored trimmed. */
  lemma AskAnswerPublish(db: Db, text: string, reply: string, qid: string, aid: string, t0: int, t1: int)
    requires forall q :: q in db.questions ==> q.id != qid
    requires forall a :: a in db.answers ==> a.questionId != qid
    ensures var asked := AddQuestion(db, text, qid, t0, true).db;
      Question(qid, Trim(text), t0, false) in GetUnansweredQuestions(asked, true).value
    ensures var asked := AddQuestion(db, text, qid, t0, true).db;
      var w := AddAnswer(asked, qid, reply, aid, t1, true, true, true, true);
      var pair := QA(Question(qid, Trim(text), t0, true), Answer(aid, qid, Trim(reply), t1));
      && w.result == Success(Some(pair.answer))
      && (forall u :: u in GetUnansweredQuestions(w.db, true).value ==> u.id != qid)
      && multiset(GetAllQA(w.db, true, true).value)[pair] == 1
      && (forall p :: p in GetAllQA(w.db, true, true).value && p.question.id == qid ==> p == pair)
  {
    var q := Question(qid, Trim(text), t0, false);
    var asked := AddQuestion(db, text, qid, t0, true).db;
    assert asked.questions == db.questions + [q];
    assert q in asked.questions;
    WithIdFresh(db.questions, q);
    var w := AddAnswer(asked, qid, reply, aid, t1, true, true, true, true);
    var a := Answer(aid, qid, Trim(reply), t1);
    assert w.db.answers == db.answers + [a];
    FreshAnswerFound(db.answers, a);
    MarkedFreshQuestion(db.questions, q);
  }

  /** An answer appended for a question no earlier answer references is the
      one the join finds. */
  lemma FreshAnswerFound(answers: seq<Answer>, a: Answer)
    requires forall b :: b in answers ==> b.questionId != a.questionId
    ensures FirstAnswer(answers + [a], a.questionId) == Some(a)
  {
    var all := answers + [a];
    var k := FindAnswer(all, a.questionId);
    assert all[|answers|] == a;
    assert k.Some?;
    assert all[k.value] in answers || k.value == |answers|;
  }

  /** Flagging a question appended under a fresh id flags that row, once,
      and no other row carries its id. */
  lemma MarkedFreshQuestion(qs: seq<Question>, q: Question)
    requires forall u :: u in qs ==> u.id != q.id
    ensures q.(answered := true) in MarkAnswered(qs + [q], q.id)
    ensures multiset(MarkAnswered(qs + [q], q.id))[q.(answered := true)] == 1
    ensures forall u :: u in MarkAnswered(qs + [q], q.id) && u.id == q.id ==> u == q.(answered := true)
  {
    var all := qs + [q];
    var marked := MarkAnswered(all, q.id);
    assert marked[|qs|] == q.(answered := true);
    forall i | 0 <= i < |qs|
      ensures marked[i].id != q.id
    {
      assert all[i] == qs[i] && qs[i] in qs;
    }
    assert marked == marked[..|qs|] + [q.(answered := true)];
    assert q.(answered := true) !in marked[..|qs|];
    forall u | u in marked && u.id == q.id
      ensures u == q.(answered := true)
    {
      var i :| 0 <= i < |marked| && marked[i] == u;
    }
  }
}
