/** routes/proposals.js: read the proposal of a request, create or partially
    update it from a request body, and (re)generate its content from the
    request's answers through the upstream text-generation service. */
module Proposals {
  import opened Common
  import opened Store

  datatype ProposalBody = Failure(error: string) | Saved(proposal: Proposal)

  /** The body of POST /proposals apart from requestId. Every field is either
      absent (`undefined`) or given, possibly as `null` (None). */
  datatype ProposalInput = ProposalInput(
    proposalContent: Supplied<Option<string>>,
    projectOverview: Supplied<Option<string>>,
    projectScope: Supplied<Option<string>>,
    timeline: Supplied<Option<string>>,
    budget: Supplied<Option<string>>,
    termsAndConditions: Supplied<Option<string>>,
    nextSteps: Supplied<Option<string>>,
    deliverables: Supplied<Option<string>>,
    complianceRequirements: Supplied<Option<string>>,
    adminNotes: Supplied<Option<string>>,
    status: Supplied<Option<string>>,
    version: Supplied<Option<int>>)
  {
    /** The input for one section, addressed by name. */
    function SectionInput(s: Section): Supplied<Option<string>> {
      match s
      case ProjectOverview => projectOverview
      case ProjectScope => projectScope
      case Timeline => timeline
      case Budget => budget
      case TermsAndConditions => termsAndConditions
      case NextSteps => nextSteps
      case Deliverables => deliverables
      case ComplianceRequirements => complianceRequirements
      case AdminNotes => adminNotes
    }

    /** The update would put null into a NOT NULL column (proposalContent,
        status, version), which the model's validation rejects on save. */
    predicate SetsRequiredToNull() {
      proposalContent == Given(None) || status == Given(None) || version == Given(None)
    }
  }

  /** A body in which no field is supplied. */
  const NothingSupplied := ProposalInput(Absent, Absent, Absent, Absent, Absent, Absent,
                                         Absent, Absent, Absent, Absent, Absent, Absent)

  /** What a body field holds: `undefined` and `null` both read as None. */
  function Value<T>(f: Supplied<Option<T>>): Option<T> {
    if f.Given? then f.value else None
  }

  /** `version || 1` (0 is falsy). */
  function VersionOrOne(v: Supplied<Option<int>>): int {
    if v.Given? && v.value.Some? && v.value.value != 0 then v.value.value else 1
  }

  /** The proposal POST /proposals creates for a request that has none. */
  function Created(requestId: Id, f: ProposalInput): Proposal {
    Proposal(
      requestId,
      OrElse(Value(f.proposalContent), ""),
      VersionOrOne(f.version),
      OrElse(Value(f.status), "draft"),
      None,
      OrNull(Value(f.projectOverview)),
      OrNull(Value(f.projectScope)),
      OrNull(Value(f.timeline)),
      OrNull(Value(f.budget)),
      OrNull(Value(f.termsAndConditions)),
      OrNull(Value(f.nextSteps)),
      OrNull(Value(f.deliverables)),
      OrNull(Value(f.complianceRequirements)),
      OrNull(Value(f.adminNotes)))
  }

  /** `if (x !== undefined) proposal.x = x` for a nullable column. */
  function Overwrite<T>(f: Supplied<T>, current: T): T {
    if f.Given? then f.value else current
  }

  /** The same for a NOT NULL column, given that the value is not null. */
  function OverwriteRequired<T>(f: Supplied<Option<T>>, current: T): T
    requires f != Given(None)
  {
    if f.Given? then f.value.value else current
  }

  /** The existing proposal after the field-by-field partial update. */
  function Patched(p: Proposal, f: ProposalInput): Proposal
    requires !f.SetsRequiredToNull()
  {
    p.(proposalContent := OverwriteRequired(f.proposalContent, p.proposalContent),
       projectOverview := Overwrite(f.projectOverview, p.projectOverview),
       projectScope := Overwrite(f.projectScope, p.projectScope),
       timeline := Overwrite(f.timeline, p.timeline),
       budget := Overwrite(f.budget, p.budget),
       termsAndConditions := Overwrite(f.termsAndConditions, p.termsAndConditions),
       nextSteps := Overwrite(f.nextSteps, p.nextSteps),
       deliverables := Overwrite(f.deliverables, p.deliverables),
       complianceRequirements := Overwrite(f.complianceRequirements, p.complianceRequirements),
       adminNotes := Overwrite(f.adminNotes, p.adminNotes),
       status := OverwriteRequired(f.status, p.status),
       version := OverwriteRequired(f.version, p.version))
  }

  /** The proposals table after a successful POST /proposals for an existing request. */
  function Upserted(proposals: seq<Proposal>, requestId: Id, f: ProposalInput): seq<Proposal>
    requires FindProposal(proposals, requestId).Some? ==> !f.SetsRequiredToNull()
  {
    match FindProposal(proposals, requestId)
    case None => proposals + [Created(requestId, f)]
    case Some(i) => proposals[i := Patched(proposals[i], f)]
  }

  /** A new proposal: every section is the supplied text when that is truthy and
      null otherwise (`x || null`); with nothing supplied, content is "",
      version 1 and status "draft"; it has never been generated. */
  lemma CreatedDefaults(requestId: Id, f: ProposalInput)
    ensures forall s: Section :: (Created(requestId, f).SectionOf(s) ==
      if Truthy(Value(f.SectionInput(s))) then Value(f.SectionInput(s)) else None)
    ensures f.proposalContent == Absent ==> Created(requestId, f).proposalContent == ""
    ensures f.status == Absent ==> Created(requestId, f).status == "draft"
    ensures f.version == Absent ==> Created(requestId, f).version == 1
    ensures f.version == Given(Some(0)) ==> Created(requestId, f).version == 1
    ensures Created(requestId, f).requestId == requestId && Created(requestId, f).lastGeneratedAt == None
  {
  }

  /** The partial update overwrites exactly the supplied fields (`!== undefined`,
      so an explicit null or "" does overwrite) and keeps every other field. */
  lemma PatchedOnlySupplied(p: Proposal, f: ProposalInput)
    requires !f.SetsRequiredToNull()
    ensures forall s: Section :: (Patched(p, f).SectionOf(s) ==
      if f.SectionInput(s).Given? then f.SectionInput(s).value else p.SectionOf(s))
    ensures Patched(p, f).proposalContent ==
      (if f.proposalContent.Given? then f.proposalContent.value.value else p.proposalContent)
    ensures Patched(p, f).status == (if f.status.Given? then f.status.value.value else p.status)
    ensures Patched(p, f).version == (if f.version.Given? then f.version.value.value else p.version)
    ensures Patched(p, f).requestId == p.requestId && Patched(p, f).lastGeneratedAt == p.lastGeneratedAt
  {
  }

  /** Sending the same partial update twice has the effect of sending it once,
      and an update that supplies nothing changes nothing. */
  lemma PatchedIdempotent(p: Proposal, f: ProposalInput)
    requires !f.SetsRequiredToNull()
    ensures Patched(Patched(p, f), f) == Patched(p, f)
    ensures Patched(p, NothingSupplied) == p
  {
  }

  /** POST /proposals keeps one proposal per request: it patches the existing
      row in place (the table keeps its length) or appends the only one, and
      no other request's proposal changes. */
  lemma UpsertedOneRow(proposals: seq<Proposal>, requestId: Id, f: ProposalInput)
    requires ProposalsUnique(proposals)
    requires FindProposal(proposals, requestId).Some? ==> !f.SetsRequiredToNull()
    ensures ProposalsUnique(Upserted(proposals, requestId, f))
    ensures |Upserted(proposals, requestId, f)| ==
      (if FindProposal(proposals, requestId).Some? then |proposals| else |proposals| + 1)
    ensures forall i :: 0 <= i < |proposals| && proposals[i].requestId != requestId ==>
      Upserted(proposals, requestId, f)[i] == proposals[i]
    ensures ProposalFor(Upserted(proposals, requestId, f), requestId) ==
      Some(match ProposalFor(proposals, requestId)
           case None => Created(requestId, f)
           case Some(p) => Patched(p, f))
  {
    match FindProposal(proposals, requestId)
    case None =>
      FindFirstAppend(proposals, Created(requestId, f), ProposalOf(requestId));
    case Some(k) =>
      FindFirstUpdate(proposals, k, Patched(proposals[k], f), ProposalOf(requestId));
  }

  /** GET /proposals?requestId=: 400 without a requestId, 404 when the request
      has no proposal, otherwise the stored proposal unchanged. */
  method GetProposal(db: Db, requestId: Option<Id>) returns (reply: Reply<ProposalBody>)
    ensures requestId.None? ==> reply == Reply(400, Failure("Missing requestId query param."))
    ensures requestId.Some? && ProposalFor(db.proposals, requestId.value).None? ==>
      reply == Reply(404, Failure("Proposal not found."))
    ensures requestId.Some? && ProposalFor(db.proposals, requestId.value).Some? ==>
      reply == Reply(200, Saved(ProposalFor(db.proposals, requestId.value).value))
  {
    if requestId.None? {
      return Reply(400, Failure("Missing requestId query param."));
    }
    var found := FindProposal(db.proposals, requestId.value);
    if found.None? {
      return Reply(404, Failure("Proposal not found."));
    }
    reply := Reply(200, Saved(db.proposals[found.value]));
  }

  /** POST /proposals: 400 without a requestId and 404 for an unknown request,
      both without a write; then create the request's proposal or patch the
      existing one with the supplied fields. A null for a NOT NULL column fails
      the save: 500, nothing written. */
  method PostProposal(db: Db, requestId: Option<Id>, f: ProposalInput) returns (reply: Reply<ProposalBody>)
    requires db.Valid()
    modifies db`proposals
    ensures db.Valid()
    ensures requestId.None? ==>
      reply == Reply(400, Failure("Missing requestId in request body.")) && db.proposals == old(db.proposals)
    ensures requestId.Some? && requestId.value >= |db.requests| ==>
      reply == Reply(404, Failure("No matching Request found.")) && db.proposals == old(db.proposals)
    ensures requestId.Some? && requestId.value < |db.requests| &&
            FindProposal(old(db.proposals), requestId.value).Some? && f.SetsRequiredToNull() ==>
      reply == Reply(500, Failure("Internal Server Error")) && db.proposals == old(db.proposals)
    ensures requestId.Some? && requestId.value < |db.requests| &&
            (FindProposal(old(db.proposals), requestId.value).Some? ==> !f.SetsRequiredToNull()) ==>
      db.proposals == Upserted(old(db.proposals), requestId.value, f) &&
      reply.status == 200 && reply.body.Saved? &&
      ProposalFor(db.proposals, requestId.value) == Some(reply.body.proposal)
  {
    if requestId.None? {
      return Reply(400, Failure("Missing requestId in request body."));
    }
    var rid := requestId.value;
    if rid >= |db.requests| {
      return Reply(404, Failure("No matching Request found."));
    }
    var found := FindProposal(db.proposals, rid);
    if found.None? {
      UpsertedOneRow(db.proposals, rid, f);
      var proposal := Created(rid, f);
      ProposalAppendValid(db.proposals, proposal, |db.requests|);
      db.proposals := db.proposals + [proposal];
      reply := Reply(200, Saved(proposal));
    } else {
      if f.SetsRequiredToNull() {
        return Reply(500, Failure("Internal Server Error"));
      }
      UpsertedOneRow(db.proposals, rid, f);
      var proposal := Patched(db.proposals[found.value], f);
      ProposalReplaceValid(db.proposals, found.value, proposal, |db.requests|);
      db.proposals := db.proposals[found.value := proposal];
      reply := Reply(200, Saved(proposal));
    }
  }

  // POST /proposals/generate

  /** The answers `Request.findByPk(id, { include: answers })` loads: the
      request's rows of the answers table. The query has no ORDER BY, so the
      database picks their order; the model takes table order. */
  function RequestAnswers(answers: seq<Answer>, requestId: Id): seq<Answer> {
    if answers == [] then []
    else if answers[|answers| - 1].requestId == requestId
    then RequestAnswers(answers[..|answers| - 1], requestId) + [answers[|answers| - 1]]
    else RequestAnswers(answers[..|answers| - 1], requestId)
  }

  /** The text of an answer's question, or "Unknown question" when it has none. */
  function QuestionText(questions: seq<Question>, questionId: Id): string {
    if questionId < |questions| then questions[questionId].questionText else "Unknown question"
  }

  const QuestionLabel: string := "Question: "
  const AnswerLabel: string := "\nAnswer: "
  const BlockEnd: string := "\n\n"

  /** One prompt block: `Question: <q>\nAnswer: <a>\n\n`. */
  function AnswerBlock(a: Answer, questions: seq<Question>): string {
    QuestionLabel + QuestionText(questions, a.questionId) + AnswerLabel + a.answer + BlockEnd
  }

  /** The blocks of the given answers, concatenated in order. */
  function AnswersText(rows: seq<Answer>, questions: seq<Question>): string {
    if rows == [] then ""
    else AnswersText(rows[..|rows| - 1], questions) + AnswerBlock(rows[|rows| - 1], questions)
  }

  const DeveloperInstruction: string :=
    "You are a senior dev generating a cost-effective project proposal. " +
    "Format with Overview, Scope, Timeline, Budget, Deliverables, etc."

  /** The text of the user message before and after the answers text. */
  const UserOpening: string := "Based on these client answers:\n\n"
  const UserClosing: string :=
    "\n\nGenerate a concise but thorough project proposal. Use bullet points, short paragraphs, " +
    "and ensure it's cost-effective."

  /** The two chat messages sent upstream for a given answers text. */
  function ProposalMessages(answersText: string): seq<Message> {
    [Message("developer", DeveloperInstruction),
     Message("user", UserOpening + answersText + UserClosing)]
  }

  /** The positions of the request's rows in the answers table. */
  ghost function RequestRows(answers: seq<Answer>, requestId: Id): set<nat> {
    set i | 0 <= i < |answers| && answers[i].requestId == requestId
  }

  /** Exactly the request's answers are loaded, each row once: an answer row
      is loaded iff it belongs to the request, and there are as many loaded
      answers as the request has rows. */
  lemma {:induction false} RequestAnswersExact(answers: seq<Answer>, requestId: Id)
    ensures forall a :: a in RequestAnswers(answers, requestId) <==> a in answers && a.requestId == requestId
    ensures |RequestAnswers(answers, requestId)| == |RequestRows(answers, requestId)|
    ensures |RequestAnswers(answers, requestId)| <= |answers|
  {
    if answers != [] {
      var init := answers[..|answers| - 1];
      var last := answers[|answers| - 1];
      RequestAnswersExact(init, requestId);
      assert answers == init + [last];
      assert forall i :: 0 <= i < |init| ==> answers[i] == init[i];
      var rows := RequestRows(answers, requestId);
      var initRows := RequestRows(init, requestId);
      assert |init| !in initRows;
      if last.requestId == requestId {
        assert rows == initRows + {|init|};
      } else {
        assert rows == initRows;
      }
    }
  }

  /** The prompt text of a concatenation is the concatenation of the prompt texts. */
  lemma {:induction false} AnswersTextAppend(xs: seq<Answer>, ys: seq<Answer>, questions: seq<Question>)
    ensures AnswersText(xs + ys, questions) == AnswersText(xs, questions) + AnswersText(ys, questions)
    decreases |ys|
  {
    if ys == [] {
      assert xs + ys == xs;
      assert AnswersText(ys, questions) == [];
    } else {
      var init := ys[..|ys| - 1];
      var block := AnswerBlock(ys[|ys| - 1], questions);
      var before := AnswersText(xs, questions);
      var middle := AnswersText(init, questions);
      assert AnswersText(xs + ys, questions) == AnswersText(xs + init, questions) + block by {
        assert (xs + ys)[..|xs + ys| - 1] == xs + init;
        assert (xs + ys)[|xs + ys| - 1] == ys[|ys| - 1];
      }
      assert AnswersText(xs + init, questions) == before + middle by {
        AnswersTextAppend(xs, init, questions);
      }
      assert AnswersText(ys, questions) == middle + block;
      ConcatAssociative(before, middle, block);
    }
  }

  /** One block per answer in retrieval order: the text is the blocks before
      answer i, then answer i's block, then the blocks after it. */
  lemma AnswersTextBlockAt(rows: seq<Answer>, questions: seq<Question>, i: nat)
    requires i < |rows|
    ensures AnswersText(rows, questions) ==
      AnswersText(rows[..i], questions) + AnswerBlock(rows[i], questions) + AnswersText(rows[i + 1..], questions)
  {
    assert rows == rows[..i] + [rows[i]] + rows[i + 1..];
    AnswersTextAppend(rows[..i] + [rows[i]], rows[i + 1..], questions);
    AnswersTextAppend(rows[..i], [rows[i]], questions);
    assert AnswersText([rows[i]], questions) == AnswersText([], questions) + AnswerBlock(rows[i], questions);
  }

  /** The `answersText +=` loop of the generate route. */
  method BuildAnswersText(rows: seq<Answer>, questions: seq<Question>) returns (text: string)
    ensures text == AnswersText(rows, questions)
  {
    text := "";
    var i := 0;
    while i < |rows|
      invariant 0 <= i <= |rows|
      invariant text == AnswersText(rows[..i], questions)
    {
      assert rows[..i + 1][..i] == rows[..i];
      text := text + AnswerBlock(rows[i], questions);
      i := i + 1;
    }
    assert rows[..|rows|] == rows;
  }

  /** The proposals table after a generation that produced `content` at time `now`:
      a new proposal at version 1, or the existing one with the content
      replaced, the version bumped by one, the status reset to "draft" and the
      generation time restamped; its sections are left as they were. */
  function Generated(proposals: seq<Proposal>, requestId: Id, content: string, now: nat): seq<Proposal> {
    match FindProposal(proposals, requestId)
    case None =>
      proposals + [Proposal(requestId, content, 1, "draft", Some(now),
                            None, None, None, None, None, None, None, None, None)]
    case Some(i) =>
      proposals[i := proposals[i].(proposalContent := content, version := proposals[i].version + 1,
                                   status := "draft", lastGeneratedAt := Some(now))]
  }

  /** Generation keeps one proposal per request and touches no other request's
      proposal; the request's proposal afterwards is at version 1 when it had
      none and one above its previous version otherwise, in status "draft",
      holding the new content and time, with every section unchanged. */
  lemma GeneratedVersion(proposals: seq<Proposal>, requestId: Id, content: string, now: nat)
    requires ProposalsUnique(proposals)
    ensures ProposalsUnique(Generated(proposals, requestId, content, now))
    ensures forall i :: 0 <= i < |proposals| && proposals[i].requestId != requestId ==>
      Generated(proposals, requestId, content, now)[i] == proposals[i]
    ensures |Generated(proposals, requestId, content, now)| <= |proposals| + 1
    ensures var p := ProposalFor(Generated(proposals, requestId, content, now), requestId);
      && p.Some?
      && p.value.requestId == requestId
      && p.value.proposalContent == content
      && p.value.status == "draft"
      && p.value.lastGeneratedAt == Some(now)
      && p.value.version == (match ProposalFor(proposals, requestId)
                             case None => 1
                             case Some(q) => q.version + 1)
      && forall s: Section :: (p.value.SectionOf(s) ==
           match ProposalFor(proposals, requestId)
           case None => None
           case Some(q) => q.SectionOf(s))
  {
    var r := Generated(proposals, requestId, content, now);
    match FindProposal(proposals, requestId)
    case None =>
      FindFirstAppend(proposals, r[|proposals|], ProposalOf(requestId));
      forall s: Section ensures r[|proposals|].SectionOf(s) == None {
        match s
        case ProjectOverview =>
        case ProjectScope =>
        case Timeline =>
        case Budget =>
        case TermsAndConditions =>
        case NextSteps =>
        case Deliverables =>
        case ComplianceRequirements =>
        case AdminNotes =>
      }
    case Some(k) =>
      FindFirstUpdate(proposals, k, r[k], ProposalOf(requestId));
      forall s: Section ensures r[k].SectionOf(s) == proposals[k].SectionOf(s) {
        match s
        case ProjectOverview =>
        case ProjectScope =>
        case Timeline =>
        case Budget =>
        case TermsAndConditions =>
        case NextSteps =>
        case Deliverables =>
        case ComplianceRequirements =>
        case AdminNotes =>
      }
  }

  /** Two generations in a row for a request without a proposal leave it at
      version 2 in status "draft", holding the second content. */
  lemma GenerateTwice(proposals: seq<Proposal>, requestId: Id, first: string, second: string, t1: nat, t2: nat)
    requires ProposalsUnique(proposals)
    requires ProposalFor(proposals, requestId).None?
    ensures var once := Generated(proposals, requestId, first, t1);
      var twice := Generated(once, requestId, second, t2);
      && ProposalFor(once, requestId).Some? && ProposalFor(once, requestId).value.version == 1
      && ProposalFor(twice, requestId).Some? && ProposalFor(twice, requestId).value.version == 2
      && ProposalFor(twice, requestId).value.status == "draft"
      && ProposalFor(twice, requestId).value.proposalContent == second
  {
    GeneratedVersion(proposals, requestId, first, t1);
    GeneratedVersion(Generated(proposals, requestId, first, t1), requestId, second, t2);
  }

  /** Step 6 of the generate route: create the request's proposal at version 1,
      or bump the existing one's version and reset its status, content and time. */
  method RecordGeneration(db: Db, requestId: Id, content: string, now: nat) returns (proposal: Proposal)
    requires db.Valid() && requestId < |db.requests|
    modifies db`proposals
    ensures db.Valid()
    ensures db.proposals == Generated(old(db.proposals), requestId, content, now)
    ensures ProposalFor(db.proposals, requestId) == Some(proposal)
  {
    var existing := FindProposal(db.proposals, requestId);
    if existing.None? {
      proposal := Proposal(requestId, content, 1, "draft", Some(now), None, None, None, None, None, None, None, None, None);
      FindFirstAppend(db.proposals, proposal, ProposalOf(requestId));
      ProposalAppendValid(db.proposals, proposal, |db.requests|);
      db.proposals := db.proposals + [proposal];
    } else {
      var p := db.proposals[existing.value];
      proposal := p.(proposalContent := content, version := p.version + 1, status := "draft", lastGeneratedAt := Some(now));
      FindFirstUpdate(db.proposals, existing.value, proposal, ProposalOf(requestId));
      ProposalReplaceValid(db.proposals, existing.value, proposal, |db.requests|);
      db.proposals := db.proposals[existing.value := proposal];
    }
  }

  /** POST /proposals/generate: 400 without a requestId and 404 for an unknown
      request, both before any upstream call and without a write. Otherwise the
      prompt built from the request's answers is sent (there is no rate limit
      and no check that the request has answers); a failing call gives 500 with
      nothing written, and a reply is trimmed and recorded as the request's
      proposal content, creating version 1 or bumping the version. */
  method GenerateProposal(db: Db, requestId: Option<Id>, upstream: Upstream, now: nat)
    returns (reply: Reply<ProposalBody>, sent: Option<seq<Message>>)
    requires db.Valid()
    modifies db`proposals
    ensures db.Valid()
    ensures requestId.None? ==>
      reply == Reply(400, Failure("Missing requestId")) && sent == None && db.proposals == old(db.proposals)
    ensures requestId.Some? && requestId.value >= |db.requests| ==>
      reply == Reply(404, Failure("Request not found")) && sent == None && db.proposals == old(db.proposals)
    ensures requestId.Some? && requestId.value < |db.requests| ==>
      sent == Some(ProposalMessages(AnswersText(RequestAnswers(db.answers, requestId.value), db.questions)))
    ensures sent.Some? && upstream(sent.value).None? ==>
      reply == Reply(500, Failure("Failed to generate proposal.")) && db.proposals == old(db.proposals)
    ensures sent.Some? && upstream(sent.value).Some? ==>
      db.proposals == Generated(old(db.proposals), requestId.value, Trim(upstream(sent.value).value), now) &&
      reply.status == 200 && reply.body.Saved? &&
      ProposalFor(db.proposals, requestId.value) == Some(reply.body.proposal)
  {
    if requestId.None? {
      return Reply(400, Failure("Missing requestId")), None;
    }
    var rid := requestId.value;
    if rid >= |db.requests| {
      return Reply(404, Failure("Request not found")), None;
    }
    var answersText := BuildAnswersText(RequestAnswers(db.answers, rid), db.questions);
    var messages := ProposalMessages(answersText);
    sent := Some(messages);
    var completion := upstream(messages);
    if completion.None? {
      return Reply(500, Failure("Failed to generate proposal.")), sent;
    }
    var content := Trim(completion.value);
    var proposal := RecordGeneration(db, rid, content, now);
    reply := Reply(200, Saved(proposal));
  }
}
