/** The in-memory data store: one record type per table (the record
    shapes of the Sequelize models), the `findOne` lookup every route uses, the natural-key
    invariants of the tables, and the store object whose tables the route
    handlers update. A row's id is its position in its table; the database's
    serial id is that position plus one, so no id here is a falsy JavaScript value. */
module Store {
  import opened Common

  type Id = nat

  /** A JSON value as JavaScript holds it after `JSON.parse`, plus `undefined`. */
  datatype Js =
    | Undefined
    | Null
    | Bool(b: bool)
    | Num(n: int)
    | Str(s: string)
    | Arr(items: seq<Js>)
    | Obj(fields: map<string, Js>)

  datatype User = User(email: string, passwordHash: string, fullName: string, role: string)

  datatype WizardStep = WizardStep(stepNumber: int, title: string, description: string, serviceType: string)

  datatype Category = Category(title: string, description: string, sortOrder: nat, stepId: Id)

  datatype Question = Question(
    questionText: string, questionType: string, isRequired: bool,
    helpText: string, sortOrder: nat, categoryId: Id)

  /** `projectName` is nullable: a request created without a service type has none. */
  datatype Request = Request(userId: Option<Id>, projectName: Option<string>, status: string)

  datatype Answer = Answer(requestId: Id, questionId: Id, answer: string)

  /** The nine nullable text sections of a proposal. */
  datatype Section =
    | ProjectOverview | ProjectScope | Timeline | Budget | TermsAndConditions
    | NextSteps | Deliverables | ComplianceRequirements | AdminNotes

  /** `lastGeneratedAt` is a reading of an abstract clock. */
  datatype Proposal = Proposal(
    requestId: Id,
    proposalContent: string,
    version: int,
    status: string,
    lastGeneratedAt: Option<nat>,
    projectOverview: Option<string>,
    projectScope: Option<string>,
    timeline: Option<string>,
    budget: Option<string>,
    termsAndConditions: Option<string>,
    nextSteps: Option<string>,
    deliverables: Option<string>,
    complianceRequirements: Option<string>,
    adminNotes: Option<string>)
  {
    /** The value of one section, addressed by name. */
    function SectionOf(s: Section): Option<string> {
      match s
      case ProjectOverview => projectOverview
      case ProjectScope => projectScope
      case Timeline => timeline
      case Budget => budget
      case TermsAndConditions => termsAndConditions
      case NextSteps => nextSteps
      case Deliverables => deliverables
      case ComplianceRequirements => complianceRequirements
      case AdminNotes => adminNotes
    }
  }

  /** The four estimate columns of a comparison. */
  datatype Estimate = IndustryTime | FormitTime | IndustryCost | FormitCost

  /** The four estimates are stored as the JSON values read from the upstream
      reply. A new row stores `Undefined` as SQL NULL; an update leaves an
      `Undefined` estimate as it was (see `Comparisons.UpsertComparison`). */
  datatype Comparison = Comparison(
    requestId: Id,
    timelineIndustryTime: Js,
    timelineFormitTime: Js,
    budgetIndustryCost: Js,
    budgetFormitCost: Js)
  {
    /** The value of one estimate, addressed by name. */
    function EstimateOf(e: Estimate): Js {
      match e
      case IndustryTime => timelineIndustryTime
      case FormitTime => timelineFormitTime
      case IndustryCost => budgetIndustryCost
      case FormitCost => budgetFormitCost
    }
  }

  /** `Model.findOne({ where })`: a row that matches. The query has no ORDER
      BY, so among several matches the database picks one; the model takes
      the first by position. */
  function FindFirst<T>(rows: seq<T>, matches: T -> bool): (r: Option<Id>)
    ensures r.Some? ==> r.value < |rows| && matches(rows[r.value])
    ensures r.Some? ==> forall i :: 0 <= i < r.value ==> !matches(rows[i])
    ensures r.None? <==> forall i :: 0 <= i < |rows| ==> !matches(rows[i])
  {
    if rows == [] then None
    else if matches(rows[0]) then Some(0)
    else match FindFirst(rows[1..], matches)
      case None => None
      case Some(i) => Some(i + 1)
  }

  // The `where` clauses of the lookups, as named matchers.

  function HasEmail(email: string): User -> bool {
    (u: User) => u.email == email
  }

  function ProposalOf(requestId: Id): Proposal -> bool {
    (p: Proposal) => p.requestId == requestId
  }

  function ComparisonOf(requestId: Id): Comparison -> bool {
    (c: Comparison) => c.requestId == requestId
  }

  function AnswerOf(requestId: Id, questionId: Id): Answer -> bool {
    (a: Answer) => a.requestId == requestId && a.questionId == questionId
  }

  function StepOfService(serviceType: string): WizardStep -> bool {
    (w: WizardStep) => w.serviceType == serviceType
  }

  function RequestOf(userId: Id, projectName: string): Request -> bool {
    (r: Request) => r.userId == Some(userId) && r.projectName == Some(projectName)
  }

  function FindUserByEmail(users: seq<User>, email: string): Option<Id> {
    FindFirst(users, HasEmail(email))
  }

  function FindProposal(proposals: seq<Proposal>, requestId: Id): Option<Id> {
    FindFirst(proposals, ProposalOf(requestId))
  }

  /** The proposal stored for a request, if any. */
  function ProposalFor(proposals: seq<Proposal>, requestId: Id): Option<Proposal> {
    match FindProposal(proposals, requestId)
    case None => None
    case Some(i) => Some(proposals[i])
  }

  function FindComparison(comparisons: seq<Comparison>, requestId: Id): Option<Id> {
    FindFirst(comparisons, ComparisonOf(requestId))
  }

  function FindAnswer(answers: seq<Answer>, requestId: Id, questionId: Id): Option<Id> {
    FindFirst(answers, AnswerOf(requestId, questionId))
  }

  function FindStepByServiceType(steps: seq<WizardStep>, serviceType: string): Option<Id> {
    FindFirst(steps, StepOfService(serviceType))
  }

  function FindRequest(requests: seq<Request>, userId: Id, projectName: string): Option<Id> {
    FindFirst(requests, RequestOf(userId, projectName))
  }

  /** Appending a row does not move an earlier match; a new match is the appended row. */
  lemma FindFirstAppend<T>(rows: seq<T>, x: T, matches: T -> bool)
    ensures FindFirst(rows + [x], matches) ==
      (if FindFirst(rows, matches).Some? then FindFirst(rows, matches)
       else if matches(x) then Some(|rows|) else None)
  {
    var extended := rows + [x];
    if rows == [] {
      assert extended == [x] && extended[1..] == [];
    } else {
      assert extended[0] == rows[0];
      assert extended[1..] == rows[1..] + [x];
      if !matches(rows[0]) {
        FindFirstAppend(rows[1..], x, matches);
      }
    }
  }

  /** Overwriting the first match with another matching row keeps it the first match. */
  lemma FindFirstUpdate<T>(rows: seq<T>, k: nat, x: T, matches: T -> bool)
    requires FindFirst(rows, matches) == Some(k) && matches(x)
    ensures FindFirst(rows[k := x], matches) == Some(k)
  {
    var updated := rows[k := x];
    assert updated[k] == x;
    var r := FindFirst(updated, matches);
    assert r.Some?;
    assert forall i :: 0 <= i < k ==> updated[i] == rows[i] && !matches(rows[i]);
    assert !(r.value < k);
  }

  /** Overwriting a row that does not match with another that does not match
      leaves the result of the lookup unchanged. */
  lemma FindFirstUpdateOther<T>(rows: seq<T>, k: nat, x: T, matches: T -> bool)
    requires k < |rows| && !matches(rows[k]) && !matches(x)
    ensures FindFirst(rows[k := x], matches) == FindFirst(rows, matches)
  {
    assert forall i :: 0 <= i < |rows| && i != k ==> rows[k := x][i] == rows[i];
  }

  // Natural keys: at most one row per key.

  ghost predicate EmailsUnique(users: seq<User>) {
    forall i, j :: 0 <= i < j < |users| ==> users[i].email != users[j].email
  }

  ghost predicate AnswersUnique(answers: seq<Answer>) {
    forall i, j :: 0 <= i < j < |answers| ==>
      answers[i].requestId != answers[j].requestId || answers[i].questionId != answers[j].questionId
  }

  ghost predicate ProposalsUnique(proposals: seq<Proposal>) {
    forall i, j :: 0 <= i < j < |proposals| ==> proposals[i].requestId != proposals[j].requestId
  }

  ghost predicate ComparisonsUnique(comparisons: seq<Comparison>) {
    forall i, j :: 0 <= i < j < |comparisons| ==> comparisons[i].requestId != comparisons[j].requestId
  }

  // Foreign keys point at existing rows.

  ghost predicate AnswersLinked(answers: seq<Answer>, requestCount: nat, questionCount: nat) {
    forall i :: 0 <= i < |answers| ==> answers[i].requestId < requestCount && answers[i].questionId < questionCount
  }

  ghost predicate ProposalsLinked(proposals: seq<Proposal>, requestCount: nat) {
    forall i :: 0 <= i < |proposals| ==> proposals[i].requestId < requestCount
  }

  ghost predicate ComparisonsLinked(comparisons: seq<Comparison>, requestCount: nat) {
    forall i :: 0 <= i < |comparisons| ==> comparisons[i].requestId < requestCount
  }

  ghost predicate CategoriesLinked(categories: seq<Category>, stepCount: nat) {
    forall i :: 0 <= i < |categories| ==> categories[i].stepId < stepCount
  }

  ghost predicate QuestionsLinked(questions: seq<Question>, categoryCount: nat) {
    forall i :: 0 <= i < |questions| ==> questions[i].categoryId < categoryCount
  }

  /** Appending a proposal for a request that has none keeps the table valid. */
  lemma ProposalAppendValid(proposals: seq<Proposal>, p: Proposal, requestCount: nat)
    requires ProposalsUnique(proposals) && ProposalsLinked(proposals, requestCount)
    requires FindProposal(proposals, p.requestId).None? && p.requestId < requestCount
    ensures ProposalsUnique(proposals + [p]) && ProposalsLinked(proposals + [p], requestCount)
  {
    assert forall i :: 0 <= i < |proposals| ==> !ProposalOf(p.requestId)(proposals[i]);
  }

  /** Replacing a proposal by one for the same request keeps the table valid. */
  lemma ProposalReplaceValid(proposals: seq<Proposal>, k: nat, p: Proposal, requestCount: nat)
    requires ProposalsUnique(proposals) && ProposalsLinked(proposals, requestCount)
    requires k < |proposals| && proposals[k].requestId == p.requestId
    ensures ProposalsUnique(proposals[k := p]) && ProposalsLinked(proposals[k := p], requestCount)
  {
  }

  /** The database: one table per model. Tables only grow; rows are updated in place. */
  class Db {
    var users: seq<User>
    var steps: seq<WizardStep>
    var categories: seq<Category>
    var questions: seq<Question>
    var requests: seq<Request>
    var answers: seq<Answer>
    var proposals: seq<Proposal>
    var comparisons: seq<Comparison>

    ghost predicate Valid()
      reads this
    {
      && EmailsUnique(users)
      && AnswersUnique(answers)
      && ProposalsUnique(proposals)
      && ComparisonsUnique(comparisons)
      && AnswersLinked(answers, |requests|, |questions|)
      && ProposalsLinked(proposals, |requests|)
      && ComparisonsLinked(comparisons, |requests|)
      && CategoriesLinked(categories, |steps|)
      && QuestionsLinked(questions, |categories|)
    }

    constructor ()
      ensures Valid()
      ensures users == [] && steps == [] && categories == [] && questions == []
      ensures requests == [] && answers == [] && proposals == [] && comparisons == []
    {
      users, steps, categories, questions := [], [], [], [];
      requests, answers, proposals, comparisons := [], [], [], [];
    }
  }
}
