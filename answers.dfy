/** routes/answers.js: POST /answers stores a batch of question -> answer
    pairs against a request (creating the request when none is given), one
    answer row per (request, question); GET /answers lists a request's answers. */
module Answers {
  import opened Common
  import opened Store

  /** An answer row as the response lists it: its id and its columns. */
  datatype AnswerRecord = AnswerRecord(id: Id, row: Answer)

  /** One element of GET /answers' `completedAnswers`. Its `questionId` is a
      model id, so the database `question_id` the route returns minus one. */
  datatype AnswerView = AnswerView(questionId: Id, answerText: string)

  datatype AnswersBody =
    | Rejected(message: string)
    | SaveFailed(message: string, error: string)
    | Saved(message: string, data: seq<AnswerRecord>)
    | Completed(completedAnswers: seq<AnswerView>)
    | Failure(error: string)

  /** `Object.entries(answers)`: (question id, answer text) pairs, one per key. */
  type Entries = seq<(Id, string)>

  /** The keys of a JavaScript object are distinct. */
  ghost predicate DistinctKeys(entries: Entries) {
    forall i, j :: 0 <= i < j < |entries| ==> entries[i].0 != entries[j].0
  }

  /** Find-then-update-or-create of the answer to one question of a request. */
  function Upsert(answers: seq<Answer>, requestId: Id, questionId: Id, text: string): seq<Answer> {
    match FindAnswer(answers, requestId, questionId)
    case None => answers + [Answer(requestId, questionId, text)]
    case Some(i) => answers[i := answers[i].(answer := text)]
  }

  /** The answers table after upserting the entries one after the other. */
  function UpsertAll(answers: seq<Answer>, requestId: Id, entries: Entries): seq<Answer> {
    if entries == [] then answers
    else
      var last := entries[|entries| - 1];
      Upsert(UpsertAll(answers, requestId, entries[..|entries| - 1]), requestId, last.0, last.1)
  }

  function IsUnknownQuestion(questionCount: nat): ((Id, string)) -> bool {
    (e: (Id, string)) => e.0 >= questionCount
  }

  /** The position of the first entry whose question does not exist, or
      |entries| when every question exists. */
  function FirstUnknown(entries: Entries, questionCount: nat): (k: nat)
    ensures k <= |entries|
    ensures forall i :: 0 <= i < k ==> entries[i].0 < questionCount
    ensures k < |entries| ==> entries[k].0 >= questionCount
  {
    match FindFirst(entries, IsUnknownQuestion(questionCount))
    case None => |entries|
    case Some(k) => k
  }

  const UnknownQuestionOpening: string := "Question with ID "
  const UnknownQuestionClosing: string := " not found."

  /** The error text of a rejected save. It names the question by the key
      the client sent, which is the database id: the model id plus one. */
  function UnknownQuestionError(questionId: Id): string {
    UnknownQuestionOpening + NatToString(questionId + 1) + UnknownQuestionClosing
  }

  /** The error text is the opening, the decimal digits of the question's
      database id, and the closing. */
  lemma UnknownQuestionErrorNamesId(questionId: Id)
    ensures var m := UnknownQuestionError(questionId);
      var o, c := |UnknownQuestionOpening|, |UnknownQuestionClosing|;
      && o + c < |m|
      && m[..o] == UnknownQuestionOpening
      && m[|m| - c..] == UnknownQuestionClosing
      && IsDigits(m[o..|m| - c])
      && DigitsValue(m[o..|m| - c]) == questionId + 1
  {
    var digits := NatToString(questionId + 1);
    var m := UnknownQuestionError(questionId);
    var o, c := |UnknownQuestionOpening|, |UnknownQuestionClosing|;
    assert m == UnknownQuestionOpening + digits + UnknownQuestionClosing;
    assert m[o..|m| - c] == digits;
    NatToStringValue(questionId + 1);
  }

  /** The entries whose question exists, in entry order. */
  function KnownEntries(entries: Entries, questionCount: nat): Entries {
    if entries == [] then []
    else
      var last := entries[|entries| - 1];
      KnownEntries(entries[..|entries| - 1], questionCount) + (if last.0 < questionCount then [last] else [])
  }

  /** An entry is known exactly when it is one of the entries and names an
      existing question. */
  lemma {:induction false} KnownEntriesMembers(entries: Entries, questionCount: nat)
    ensures forall e :: e in KnownEntries(entries, questionCount) <==> e in entries && e.0 < questionCount
  {
    if entries != [] {
      var init := entries[..|entries| - 1];
      var last := entries[|entries| - 1];
      KnownEntriesMembers(init, questionCount);
      assert entries == init + [last];
      assert forall e :: e in entries <==> e in init || e == last;
    }
  }

  /** Leaving entries out keeps the keys distinct. */
  lemma {:induction false} KnownEntriesDistinct(entries: Entries, questionCount: nat)
    requires DistinctKeys(entries)
    ensures DistinctKeys(KnownEntries(entries, questionCount))
  {
    if entries != [] {
      var init := entries[..|entries| - 1];
      var last := entries[|entries| - 1];
      var known := KnownEntries(init, questionCount);
      assert DistinctKeys(init) by {
        forall i, j | 0 <= i < j < |init| ensures init[i].0 != init[j].0 {
          assert init[i] == entries[i] && init[j] == entries[j];
        }
      }
      KnownEntriesDistinct(init, questionCount);
      if last.0 < questionCount {
        KnownEntriesMembers(init, questionCount);
        forall i | 0 <= i < |known| ensures known[i].0 != last.0 {
          assert known[i] in init;
          var j :| 0 <= j < |init| && init[j] == known[i];
          assert entries[j] == init[j];
        }
      }
    }
  }

  /** When every question exists, the known entries are all the entries. */
  lemma {:induction false} KnownEntriesAllKnown(entries: Entries, questionCount: nat)
    requires forall i :: 0 <= i < |entries| ==> entries[i].0 < questionCount
    ensures KnownEntries(entries, questionCount) == entries
  {
    if entries != [] {
      var init := entries[..|entries| - 1];
      KnownEntriesAllKnown(init, questionCount);
      assert entries == init + [entries[|entries| - 1]];
    }
  }

  /** After an upsert the request has exactly one answer to the question, holding
      the new text; an existing answer is updated where it stands (the table
      keeps its length), otherwise one row is appended; rows for other
      (request, question) pairs are untouched. */
  lemma UpsertStores(answers: seq<Answer>, requestId: Id, questionId: Id, text: string)
    requires AnswersUnique(answers)
    ensures var r := Upsert(answers, requestId, questionId, text);
      && AnswersUnique(r)
      && FindAnswer(r, requestId, questionId).Some?
      && r[FindAnswer(r, requestId, questionId).value] == Answer(requestId, questionId, text)
      && |r| == (if FindAnswer(answers, requestId, questionId).Some? then |answers| else |answers| + 1)
      && forall i :: 0 <= i < |answers| && (answers[i].requestId != requestId || answers[i].questionId != questionId)
           ==> r[i] == answers[i]
  {
    var r := Upsert(answers, requestId, questionId, text);
    match FindAnswer(answers, requestId, questionId)
    case None =>
      FindFirstAppend(answers, Answer(requestId, questionId, text), AnswerOf(requestId, questionId));
    case Some(k) =>
      FindFirstUpdate(answers, k, r[k], AnswerOf(requestId, questionId));
  }

  /** Answering the same question twice leaves one row holding the later text:
      the second upsert erases every trace of the first one's text. */
  lemma UpsertOverwrites(answers: seq<Answer>, requestId: Id, questionId: Id, first: string, second: string)
    ensures Upsert(Upsert(answers, requestId, questionId, first), requestId, questionId, second)
         == Upsert(answers, requestId, questionId, second)
  {
    var once := Upsert(answers, requestId, questionId, first);
    match FindAnswer(answers, requestId, questionId)
    case None =>
      FindFirstAppend(answers, Answer(requestId, questionId, first), AnswerOf(requestId, questionId));
    case Some(k) =>
      FindFirstUpdate(answers, k, once[k], AnswerOf(requestId, questionId));
  }

  /** An upsert for one question does not disturb the lookup of another
      question of the request, nor the row that lookup finds. */
  lemma UpsertKeepsOtherAnswer(answers: seq<Answer>, requestId: Id, questionId: Id, text: string, other: Id)
    requires other != questionId && FindAnswer(answers, requestId, other).Some?
    ensures var r := Upsert(answers, requestId, questionId, text);
      && FindAnswer(r, requestId, other) == FindAnswer(answers, requestId, other)
      && r[FindAnswer(answers, requestId, other).value] == answers[FindAnswer(answers, requestId, other).value]
  {
    match FindAnswer(answers, requestId, questionId)
    case None =>
      FindFirstAppend(answers, Answer(requestId, questionId, text), AnswerOf(requestId, other));
    case Some(i) =>
      FindFirstUpdateOther(answers, i, answers[i].(answer := text), AnswerOf(requestId, other));
  }

  /** A batch keeps one row per (request, question), only grows the table by
      at most one row per entry, and leaves the rows of other requests alone. */
  lemma {:induction false} UpsertAllKeepsTable(answers: seq<Answer>, requestId: Id, entries: Entries)
    requires AnswersUnique(answers)
    ensures var r := UpsertAll(answers, requestId, entries);
      && AnswersUnique(r)
      && |answers| <= |r| <= |answers| + |entries|
      && forall i :: 0 <= i < |answers| && answers[i].requestId != requestId ==> r[i] == answers[i]
  {
    if entries != [] {
      var init := entries[..|entries| - 1];
      var last := entries[|entries| - 1];
      UpsertAllKeepsTable(answers, requestId, init);
      UpsertStores(UpsertAll(answers, requestId, init), requestId, last.0, last.1);
    }
  }

  /** Upserting one more entry after a batch. */
  lemma UpsertAllSnoc(answers: seq<Answer>, requestId: Id, entries: Entries, e: (Id, string))
    ensures UpsertAll(answers, requestId, entries + [e]) == Upsert(UpsertAll(answers, requestId, entries), requestId, e.0, e.1)
  {
    assert (entries + [e])[..|entries|] == entries;
  }

  /** After a batch, every entry's question has exactly one answer in the
      request, holding the entry's text (entries name distinct questions). */
  lemma {:induction false} UpsertAllStores(answers: seq<Answer>, requestId: Id, entries: Entries)
    requires AnswersUnique(answers) && DistinctKeys(entries)
    ensures var r := UpsertAll(answers, requestId, entries);
      forall k :: 0 <= k < |entries| ==>
        FindAnswer(r, requestId, entries[k].0).Some? &&
        r[FindAnswer(r, requestId, entries[k].0).value] == Answer(requestId, entries[k].0, entries[k].1)
  {
    if entries != [] {
      var init := entries[..|entries| - 1];
      var last := entries[|entries| - 1];
      var mid := UpsertAll(answers, requestId, init);
      UpsertAllStores(answers, requestId, init);
      UpsertAllKeepsTable(answers, requestId, init);
      UpsertStores(mid, requestId, last.0, last.1);
      forall k | 0 <= k < |entries| - 1
        ensures var r := Upsert(mid, requestId, last.0, last.1);
          FindAnswer(r, requestId, entries[k].0).Some? &&
          r[FindAnswer(r, requestId, entries[k].0).value] == Answer(requestId, entries[k].0, entries[k].1)
      {
        assert init[k] == entries[k];
        UpsertKeepsOtherAnswer(mid, requestId, last.0, last.1, entries[k].0);
      }
    }
  }

  /** Whatever other entries fail, every entry naming an existing question
      ends up as the request's one answer to that question. */
  lemma KnownEntriesSaved(answers: seq<Answer>, requestId: Id, entries: Entries, questionCount: nat)
    requires AnswersUnique(answers) && DistinctKeys(entries)
    ensures var r := UpsertAll(answers, requestId, KnownEntries(entries, questionCount));
      forall k :: 0 <= k < |entries| && entries[k].0 < questionCount ==>
        FindAnswer(r, requestId, entries[k].0).Some? &&
        r[FindAnswer(r, requestId, entries[k].0).value] == Answer(requestId, entries[k].0, entries[k].1)
  {
    var known := KnownEntries(entries, questionCount);
    KnownEntriesMembers(entries, questionCount);
    KnownEntriesDistinct(entries, questionCount);
    UpsertAllStores(answers, requestId, known);
    forall k | 0 <= k < |entries| && entries[k].0 < questionCount
      ensures exists j :: 0 <= j < |known| && known[j] == entries[k]
    {
      assert entries[k] in known;
    }
  }

  /** Save one entry: update the request's answer to the question in place, or
      create it. Returns the id of the row that holds it. */
  method SaveAnswer(db: Db, requestId: Id, questionId: Id, text: string) returns (id: Id)
    requires db.Valid() && requestId < |db.requests| && questionId < |db.questions|
    modifies db`answers
    ensures db.Valid()
    ensures db.answers == Upsert(old(db.answers), requestId, questionId, text)
    ensures id < |db.answers| && db.answers[id] == Answer(requestId, questionId, text)
    ensures forall i :: (0 <= i < |old(db.answers)| &&
      (old(db.answers)[i].requestId != requestId || old(db.answers)[i].questionId != questionId)) ==>
      db.answers[i] == old(db.answers)[i]
  {
    UpsertStores(db.answers, requestId, questionId, text);
    var existing := FindAnswer(db.answers, requestId, questionId);
    if existing.Some? {
      id := existing.value;
      db.answers := db.answers[id := db.answers[id].(answer := text)];
    } else {
      id := |db.answers|;
      db.answers := db.answers + [Answer(requestId, questionId, text)];
    }
  }

  /** The reply records of the first |data| entries: each holds the entry's
      answer and the id of the row that stores it. */
  ghost predicate Recorded(answers: seq<Answer>, requestId: Id, entries: Entries, data: seq<AnswerRecord>) {
    && |data| <= |entries|
    && forall j :: 0 <= j < |data| ==>
         && data[j].row == Answer(requestId, entries[j].0, entries[j].1)
         && data[j].id < |answers|
         && answers[data[j].id] == data[j].row
  }

  /** Saves entry i, which names an existing question, and appends its record. */
  method SaveNext(db: Db, requestId: Id, entries: Entries, data: seq<AnswerRecord>) returns (next: seq<AnswerRecord>)
    requires db.Valid() && requestId < |db.requests| && DistinctKeys(entries)
    requires |data| < |entries| && entries[|data|].0 < |db.questions|
    requires Recorded(db.answers, requestId, entries, data)
    modifies db`answers
    ensures db.Valid()
    ensures db.answers == Upsert(old(db.answers), requestId, entries[|data|].0, entries[|data|].1)
    ensures |next| == |data| + 1 && Recorded(db.answers, requestId, entries, next)
  {
    var (questionId, text) := entries[|data|];
    ghost var before := db.answers;
    var id := SaveAnswer(db, requestId, questionId, text);
    next := data + [AnswerRecord(id, db.answers[id])];
    forall j | 0 <= j < |next|
      ensures next[j].row == Answer(requestId, entries[j].0, entries[j].1)
      ensures next[j].id < |db.answers| && db.answers[next[j].id] == next[j].row
    {
      if j < |data| {
        assert next[j] == data[j];
        assert entries[j].0 != questionId;
        assert before[data[j].id].questionId != questionId;
      }
    }
  }

  /** The state after handling the first i entries of a batch started on the
      answers table `before`: the known ones among them are upserted, the batch
      has failed iff one of them is unknown, and until then each has its record. */
  ghost predicate HandledUpTo(before: seq<Answer>, after: seq<Answer>, requestId: Id, entries: Entries,
                              questionCount: nat, i: nat, data: seq<AnswerRecord>, failed: bool)
    requires i <= |entries|
  {
    && after == UpsertAll(before, requestId, KnownEntries(entries[..i], questionCount))
    && (failed <==> FirstUnknown(entries, questionCount) < i)
    && (!failed ==> |data| == i && Recorded(after, requestId, entries, data))
  }

  /** Handles entry i: an unknown question fails the batch, a known one is
      saved whether or not the batch has already failed. */
  method SaveEntry(db: Db, requestId: Id, entries: Entries, i: nat, data: seq<AnswerRecord>, failed: bool,
                   ghost before: seq<Answer>)
    returns (data': seq<AnswerRecord>, failed': bool)
    requires db.Valid() && requestId < |db.requests| && DistinctKeys(entries) && i < |entries|
    requires HandledUpTo(before, db.answers, requestId, entries, |db.questions|, i, data, failed)
    modifies db`answers
    ensures db.Valid()
    ensures HandledUpTo(before, db.answers, requestId, entries, |db.questions|, i + 1, data', failed')
  {
    var (questionId, text) := entries[i];
    assert entries[..i + 1] == entries[..i] + [entries[i]];
    assert entries[..i + 1][..i] == entries[..i];
    ghost var known := KnownEntries(entries[..i], |db.questions|);
    assert KnownEntries(entries[..i + 1], |db.questions|) ==
      known + (if questionId < |db.questions| then [entries[i]] else []);
    data', failed' := data, failed;
    if questionId >= |db.questions| {
      assert known + [] == known;
      failed' := true;
    } else {
      UpsertAllSnoc(before, requestId, known, entries[i]);
      if failed {
        var _ := SaveAnswer(db, requestId, questionId, text);
      } else {
        data' := SaveNext(db, requestId, entries, data);
      }
    }
  }

  /** The step of POST /answers that runs once per entry. Every entry whose
      question exists is saved, also after an entry whose question does not:
      a failing entry does not stop the others. */
  method SaveEntries(db: Db, requestId: Id, entries: Entries)
    returns (data: seq<AnswerRecord>, failed: bool)
    requires db.Valid() && requestId < |db.requests| && DistinctKeys(entries)
    modifies db`answers
    ensures db.Valid()
    ensures failed <==> FirstUnknown(entries, |db.questions|) < |entries|
    ensures db.answers == UpsertAll(old(db.answers), requestId, KnownEntries(entries, |db.questions|))
    ensures !failed ==> |data| == |entries| && Recorded(db.answers, requestId, entries, data)
  {
    ghost var before := db.answers;
    data, failed := [], false;
    assert entries[..0] == [];
    var i := 0;
    while i < |entries|
      invariant 0 <= i <= |entries|
      invariant db.Valid()
      invariant HandledUpTo(before, db.answers, requestId, entries, |db.questions|, i, data, failed)
    {
      data, failed := SaveEntry(db, requestId, entries, i, data, failed, before);
      i := i + 1;
    }
    assert entries[..i] == entries;
  }

  /** The outcome of saving a batch into request `rid`: every entry naming an
      existing question is upserted; the reply is 500 naming the first
      unknown question in entry order, or, when there is none, 200 with one
      record per entry. */
  ghost predicate BatchSaved(before: seq<Answer>, after: seq<Answer>, rid: Id, entries: Entries,
                             questionCount: nat, reply: Reply<AnswersBody>) {
    var k := FirstUnknown(entries, questionCount);
    && after == UpsertAll(before, rid, KnownEntries(entries, questionCount))
    && (k < |entries| ==>
          reply == Reply(500, SaveFailed(SaveFailedMessage, UnknownQuestionError(entries[k].0))))
    && (k == |entries| ==>
          && reply.status == 200 && reply.body.Saved? && reply.body.message == SavedMessage
          && |reply.body.data| == |entries|
          && Recorded(after, rid, entries, reply.body.data))
  }

  /** Saves the batch into request `rid` and builds the reply. */
  method SaveBatch(db: Db, rid: Id, entries: Entries) returns (reply: Reply<AnswersBody>)
    requires db.Valid() && rid < |db.requests| && DistinctKeys(entries)
    modifies db`answers
    ensures db.Valid()
    ensures BatchSaved(old(db.answers), db.answers, rid, entries, |db.questions|, reply)
  {
    var data, failed := SaveEntries(db, rid, entries);
    if failed {
      var k := FirstUnknown(entries, |db.questions|);
      return Reply(500, SaveFailed(SaveFailedMessage, UnknownQuestionError(entries[k].0)));
    }
    reply := Reply(200, Saved(SavedMessage, data));
  }

  const SaveFailedMessage: string := "An error occurred while saving answers."
  const SavedMessage: string := "Answers saved successfully."
  const AuthRequiredMessage: string := "User authentication required to create a request."
  const UnknownServiceTypeOpening: string := "Invalid serviceType: "
  const UnknownServiceTypeClosing: string := ". No matching WizardStep found."

  /** The error text of a serviceType that no wizard step has. */
  function UnknownServiceTypeError(serviceType: string): string {
    UnknownServiceTypeOpening + serviceType + UnknownServiceTypeClosing
  }

  const InvalidAnswersMessage: string := "Invalid request. 'answers' and 'serviceType' are required."
  const MissingTargetMessage: string := "Either 'requestId' or 'serviceType' is required."

  /** The id the request body names, when such a request exists. */
  function ExistingRequest(requests: seq<Request>, requestId: Option<Id>): Option<Id> {
    if requestId.Some? && requestId.value < |requests| then requestId else None
  }

  /** The first of the three validations of POST /answers the body fails, as
      its 400 reply: `answers` missing or not an object; neither requestId nor
      serviceType; a serviceType that no wizard step has. */
  function Rejection(steps: seq<WizardStep>, requestId: Option<Id>, answers: Option<Entries>,
                     serviceType: Option<string>): (r: Option<Reply<AnswersBody>>)
    ensures answers.None? ==> r == Some(Reply(400, Rejected(InvalidAnswersMessage)))
    ensures answers.Some? && requestId.None? && !Truthy(serviceType) ==>
      r == Some(Reply(400, Rejected(MissingTargetMessage)))
    ensures answers.Some? && (requestId.Some? || Truthy(serviceType)) && Truthy(serviceType) &&
            FindStepByServiceType(steps, serviceType.value).None? ==>
      r == Some(Reply(400, Rejected(UnknownServiceTypeError(serviceType.value))))
    ensures r.None? <==>
      && answers.Some?
      && (requestId.Some? || Truthy(serviceType))
      && (Truthy(serviceType) ==> FindStepByServiceType(steps, serviceType.value).Some?)
  {
    if answers.None? then Some(Reply(400, Rejected(InvalidAnswersMessage)))
    else if requestId.None? && !Truthy(serviceType) then Some(Reply(400, Rejected(MissingTargetMessage)))
    else if Truthy(serviceType) && FindStepByServiceType(steps, serviceType.value).None? then
      Some(Reply(400, Rejected(UnknownServiceTypeError(serviceType.value))))
    else None
  }

  /** The request the answers go to: the existing one the body names, else a
      new "draft" request of the user (None when there is no user). */
  method TargetRequest(db: Db, requestId: Option<Id>, projectName: Option<string>, userId: Option<Id>)
    returns (target: Option<Id>)
    requires db.Valid()
    modifies db`requests
    ensures db.Valid()
    ensures ExistingRequest(old(db.requests), requestId).Some? ==>
      target == ExistingRequest(old(db.requests), requestId) && db.requests == old(db.requests)
    ensures ExistingRequest(old(db.requests), requestId).None? && userId.None? ==>
      target.None? && db.requests == old(db.requests)
    ensures ExistingRequest(old(db.requests), requestId).None? && userId.Some? ==>
      target == Some(|old(db.requests)|) && db.requests == old(db.requests) + [Request(userId, projectName, "draft")]
    ensures target.Some? ==> target.value < |db.requests|
  {
    target := ExistingRequest(db.requests, requestId);
    if target.None? && userId.Some? {
      target := Some(|db.requests|);
      db.requests := db.requests + [Request(userId, projectName, "draft")];
    }
  }

  /** POST /answers. Checks run in this order: `answers` missing or not an object
      (400); neither requestId nor serviceType (400); a serviceType no wizard
      step has (400); no existing request named and no authenticated user (401).
      None of them writes. When no existing request is named a fresh "draft"
      request is created for the user, named after the serviceType, on every
      such call. Then every entry naming an existing question is upserted; an
      unknown question makes the reply 500 naming it, but stops no other entry.
      The success reply lists one record per entry and no requestId. */
  method PostAnswers(db: Db, requestId: Option<Id>, answers: Option<Entries>, serviceType: Option<string>, userId: Option<Id>)
    returns (reply: Reply<AnswersBody>)
    requires db.Valid()
    requires answers.Some? ==> DistinctKeys(answers.value)
    modifies db`requests, db`answers
    ensures db.Valid()
    ensures Rejection(db.steps, requestId, answers, serviceType).Some? ==>
      reply == Rejection(db.steps, requestId, answers, serviceType).value &&
      db.requests == old(db.requests) && db.answers == old(db.answers)
    ensures Rejection(db.steps, requestId, answers, serviceType).None? &&
            ExistingRequest(old(db.requests), requestId).None? && userId.None? ==>
      reply == Reply(401, Rejected(AuthRequiredMessage)) &&
      db.requests == old(db.requests) && db.answers == old(db.answers)
    ensures Rejection(db.steps, requestId, answers, serviceType).None? &&
            (ExistingRequest(old(db.requests), requestId).Some? || userId.Some?) ==>
      var existing := ExistingRequest(old(db.requests), requestId);
      && db.requests == (if existing.Some? then old(db.requests)
                         else old(db.requests) + [Request(userId, serviceType, "draft")])
      && BatchSaved(old(db.answers), db.answers, if existing.Some? then existing.value else |old(db.requests)|,
                    answers.value, |db.questions|, reply)
  {
    var rejection := Rejection(db.steps, requestId, answers, serviceType);
    if rejection.Some? {
      return rejection.value;
    }
    var projectName := serviceType;
    if Truthy(serviceType) {
      var step := FindStepByServiceType(db.steps, serviceType.value);
      projectName := Some(db.steps[step.value].serviceType);
    }
    var target := TargetRequest(db, requestId, projectName, userId);
    if target.None? {
      return Reply(401, Rejected(AuthRequiredMessage));
    }
    reply := SaveBatch(db, target.value, answers.value);
  }

  // GET /answers

  /** The `requestId` query parameter: missing or empty, the number `parseInt`
      reads from it (a database id, so the model id plus one), or text that
      does not start with a number. */
  datatype RequestIdParam = Missing | Numeric(n: int) | NotNumeric

  /** `{ questionId, answerText }` for each answer row of the request whose
      database id is `serialId`. The query has no ORDER BY, so the database
      picks the order; the model takes table order. */
  function CompletedAnswers(answers: seq<Answer>, serialId: int): seq<AnswerView> {
    if answers == [] then []
    else
      var last := answers[|answers| - 1];
      CompletedAnswers(answers[..|answers| - 1], serialId) +
        (if last.requestId + 1 == serialId then [AnswerView(last.questionId, last.answer)] else [])
  }

  /** The positions of the rows of the request whose database id is `serialId`. */
  ghost function SerialRows(answers: seq<Answer>, serialId: int): set<nat> {
    set i | 0 <= i < |answers| && answers[i].requestId + 1 == serialId
  }

  /** The listing holds exactly the (question, text) pairs stored for the
      request, one element per answer row of the request. */
  lemma {:induction false} CompletedAnswersExact(answers: seq<Answer>, serialId: int)
    ensures forall v :: v in CompletedAnswers(answers, serialId) <==>
      exists i :: 0 <= i < |answers| && answers[i].requestId + 1 == serialId &&
                  v == AnswerView(answers[i].questionId, answers[i].answer)
    ensures |CompletedAnswers(answers, serialId)| == |SerialRows(answers, serialId)|
    ensures |CompletedAnswers(answers, serialId)| <= |answers|
  {
    if answers != [] {
      var init := answers[..|answers| - 1];
      CompletedAnswersExact(init, serialId);
      assert forall i :: 0 <= i < |init| ==> answers[i] == init[i];
      var rows := SerialRows(answers, serialId);
      var initRows := SerialRows(init, serialId);
      assert |init| !in initRows;
      if answers[|answers| - 1].requestId + 1 == serialId {
        assert rows == initRows + {|init|};
      } else {
        assert rows == initRows;
      }
      forall v ensures v in CompletedAnswers(answers, serialId) <==>
        exists i :: 0 <= i < |answers| && answers[i].requestId + 1 == serialId &&
                    v == AnswerView(answers[i].questionId, answers[i].answer)
      {
        if v in CompletedAnswers(init, serialId) {
          var i :| 0 <= i < |init| && init[i].requestId + 1 == serialId && v == AnswerView(init[i].questionId, init[i].answer);
          assert answers[i] == init[i];
        }
        if exists i :: 0 <= i < |answers| && answers[i].requestId + 1 == serialId &&
                       v == AnswerView(answers[i].questionId, answers[i].answer) {
          var i :| 0 <= i < |answers| && answers[i].requestId + 1 == serialId &&
                   v == AnswerView(answers[i].questionId, answers[i].answer);
          if i < |init| {
            assert init[i] == answers[i];
          }
        }
      }
    }
  }

  /** GET /answers?requestId=: 400 when the parameter is missing or not a number,
      otherwise 200 with the request's answers (empty for an unknown request). */
  function GetAnswers(answers: seq<Answer>, requestId: RequestIdParam): (r: Reply<AnswersBody>)
    ensures requestId.Missing? ==> r == Reply(400, Failure("Missing requestId"))
    ensures requestId.NotNumeric? ==> r == Reply(400, Failure("Invalid requestId"))
    ensures requestId.Numeric? ==> r.status == 200 && r.body.Completed?
    ensures requestId.Numeric? ==> forall v :: v in r.body.completedAnswers <==>
      exists i :: 0 <= i < |answers| && answers[i].requestId + 1 == requestId.n &&
                  v == AnswerView(answers[i].questionId, answers[i].answer)
    ensures requestId.Numeric? ==> |r.body.completedAnswers| == |SerialRows(answers, requestId.n)|
  {
    match requestId
    case Missing => Reply(400, Failure("Missing requestId"))
    case NotNumeric => Reply(400, Failure("Invalid requestId"))
    case Numeric(n) =>
      CompletedAnswersExact(answers, n);
      Reply(200, Completed(CompletedAnswers(answers, n)))
  }
}
