/** routes/comparisons.js: POST /generate-comparison asks the upstream service
    for an industry-vs-FormIT estimate of a request's proposal, reads four
    values out of the JSON reply and stores them as the request's comparison. */
module Comparisons {
  import opened Common
  import opened Store

  datatype ComparisonBody =
    | Failure(error: string)
    | BadOutput(error: string, rawOutput: string)
    | Stored(comparison: Comparison)

  /** Reading an attribute of a Proposal instance by name. Only the model's
      attribute names (camelCase) exist; any other name reads `undefined`. */
  function ProposalAttribute(p: Proposal, name: string): Option<string> {
    if name == "projectOverview" then p.projectOverview
    else if name == "projectScope" then p.projectScope
    else if name == "timeline" then p.timeline
    else if name == "budget" then p.budget
    else if name == "termsAndConditions" then p.termsAndConditions
    else if name == "nextSteps" then p.nextSteps
    else if name == "deliverables" then p.deliverables
    else if name == "complianceRequirements" then p.complianceRequirements
    else if name == "adminNotes" then p.adminNotes
    else None
  }

  /** The three values the prompt embeds, as the route reads them: by their
      snake_case column names, each with its `||` fallback. */
  function PromptFields(p: Proposal): (string, string, string) {
    (OrElse(ProposalAttribute(p, "project_overview"), "Not specified"),
     OrElse(ProposalAttribute(p, "project_scope"), "Not specified"),
     OrElse(ProposalAttribute(p, "compliance_requirements"), "None specified"))
  }

  /** Because a Proposal instance has no snake_case attributes, the prompt
      always carries the three fallbacks, whatever the proposal holds. */
  lemma PromptFieldsAlwaysFallbacks(p: Proposal)
    ensures PromptFields(p) == ("Not specified", "Not specified", "None specified")
  {
  }

  /** The fallback rule of the prompt: a truthy value is embedded as it is,
      anything else (absent, null, "") becomes the fallback. */
  lemma FallbackRule(value: Option<string>, fallback: string)
    ensures Truthy(value) ==> OrElse(value, fallback) == value.value
    ensures !Truthy(value) ==> OrElse(value, fallback) == fallback
  {
  }

  const PromptOpening: string :=
    "You are a senior project manager and cost/timeline estimation expert specializing in U.S. software development. " +
    "Your task is to produce a detailed comparative proposal estimate.\n    \n" +
    "        First, analyze the project details provided and estimate the industry-standard averages for cost and time " +
    "based on real-world data for similar software projects:\n"

  /** The labels that introduce the three embedded fields, each on its own line. */
  const OverviewLabel: string := "        - **Project Overview:** "
  const ScopeLabel: string := "\n        - **Scope:** "
  const ComplianceLabel: string := "\n        - **Compliance Requirements:** "

  const PromptClosing: string :=
    "\n    \n" +
    "        Then, explain how a streamlined, AI-enhanced process (FormIT's solution) can deliver the project faster " +
    "and at a lower cost compared to industry standards.\n    \n" +
    "        The output must be strictly in JSON format with the following keys:\n    \n" +
    "        {\n" +
    "          \"timeline\": { \"industry_estimate\": { \"time\": \"X weeks\", \"cost\": \"$Y\" }, " +
    "\"formit_estimate\": { \"time\": \"A weeks\", \"cost\": \"$B\" }, \"justification\": \"...\" },\n" +
    "          \"budget\": { \"industry_estimate\": { \"cost\": \"$Y\" }, \"formit_estimate\": { \"cost\": \"$B\" }, " +
    "\"justification\": \"...\" }\n" +
    "        }\n    \n" +
    "        - Base your estimates on real-world cost and timeline averages for software projects in the U.S.\n" +
    "        - Derive the estimates from the provided **Scope** and **Project Overview**.\n" +
    "        - Explain why AI-driven development methods reduce time and cost (e.g., AI-assisted coding, " +
    "automated testing, cloud deployment).\n" +
    "        - Do NOT include any extra text outside of the JSON object."

  /** The single system message sent upstream. */
  function ComparisonMessages(fields: (string, string, string)): seq<Message> {
    [Message("system",
       PromptOpening + OverviewLabel + fields.0 + ScopeLabel + fields.1 + ComplianceLabel + fields.2 + PromptClosing)]
  }

  /** JavaScript member access `v.key` for the keys the route reads
      ("timeline", "budget", "industry_estimate", "formit_estimate", "time",
      "cost"): a TypeError (None) on `undefined` or `null`; a missing key reads
      `undefined`, and so do these keys on a string, number, boolean or array,
      none of which has them as a property. */
  function Member(v: Js, key: string): Option<Js> {
    match v
    case Undefined => None
    case Null => None
    case Obj(fields) => Some(if key in fields then fields[key] else Undefined)
    case _ => Some(Undefined)
  }

  /** Following a chain of member accesses `v.k1.k2...`; None when one of them throws. */
  function Path(v: Js, keys: seq<string>): Option<Js>
    decreases |keys|
  {
    if keys == [] then Some(v)
    else match Member(v, keys[0])
      case None => None
      case Some(w) => Path(w, keys[1..])
  }

  /** `comparisonData` built from the parsed reply; None when an access throws. */
  function ExtractComparison(requestId: Id, data: Js): Option<Comparison> {
    var timeline := Member(data, "timeline");
    var budget := Member(data, "budget");
    if timeline.None? then None else
    var timelineIndustry := Member(timeline.value, "industry_estimate");
    if timelineIndustry.None? then None else
    var timelineIndustryTime := Member(timelineIndustry.value, "time");
    if timelineIndustryTime.None? then None else
    var timelineFormit := Member(timeline.value, "formit_estimate");
    if timelineFormit.None? then None else
    var timelineFormitTime := Member(timelineFormit.value, "time");
    if timelineFormitTime.None? then None else
    if budget.None? then None else
    var budgetIndustry := Member(budget.value, "industry_estimate");
    if budgetIndustry.None? then None else
    var budgetIndustryCost := Member(budgetIndustry.value, "cost");
    if budgetIndustryCost.None? then None else
    var budgetFormit := Member(budget.value, "formit_estimate");
    if budgetFormit.None? then None else
    var budgetFormitCost := Member(budgetFormit.value, "cost");
    if budgetFormitCost.None? then None else
    Some(Comparison(requestId, timelineIndustryTime.value, timelineFormitTime.value,
                    budgetIndustryCost.value, budgetFormitCost.value))
  }

  const TimelineIndustryTime: seq<string> := ["timeline", "industry_estimate", "time"]
  const TimelineFormitTime: seq<string> := ["timeline", "formit_estimate", "time"]
  const BudgetIndustryCost: seq<string> := ["budget", "industry_estimate", "cost"]
  const BudgetFormitCost: seq<string> := ["budget", "formit_estimate", "cost"]

  /** The stored record holds exactly the values found at the four paths, and
      the request id; extraction fails exactly when one of the paths cannot be
      followed (a missing parent object), while a missing leaf is extracted as
      `undefined`. */
  lemma ExtractTakesFourPaths(requestId: Id, data: Js)
    ensures ExtractComparison(requestId, data).Some? <==>
      Path(data, TimelineIndustryTime).Some? && Path(data, TimelineFormitTime).Some? &&
      Path(data, BudgetIndustryCost).Some? && Path(data, BudgetFormitCost).Some?
    ensures ExtractComparison(requestId, data).Some? ==>
      ExtractComparison(requestId, data).value ==
        Comparison(requestId, Path(data, TimelineIndustryTime).value, Path(data, TimelineFormitTime).value,
                   Path(data, BudgetIndustryCost).value, Path(data, BudgetFormitCost).value)
  {
    PathOfThree(data, TimelineIndustryTime);
    PathOfThree(data, TimelineFormitTime);
    PathOfThree(data, BudgetIndustryCost);
    PathOfThree(data, BudgetFormitCost);
  }

  /** A three-key path is three member accesses in a row. */
  lemma PathOfThree(v: Js, keys: seq<string>)
    requires |keys| == 3
    ensures Path(v, keys) ==
      match Member(v, keys[0])
      case None => None
      case Some(a) =>
        match Member(a, keys[1])
        case None => None
        case Some(b) => Member(b, keys[2])
  {
    var k1 := keys[1..];
    var k2 := k1[1..];
    assert k1[0] == keys[1] && k2[0] == keys[2] && k2[1..] == [];
    match Member(v, keys[0])
    case None =>
    case Some(a) =>
      assert Path(v, keys) == Path(a, k1);
      match Member(a, keys[1])
      case None =>
      case Some(b) =>
        assert Path(a, k1) == Path(b, k2);
        match Member(b, keys[2])
        case None =>
        case Some(c) =>
          assert Path(b, k2) == Path(c, k2[1..]) == Some(c);
  }

  /** `instance.update(values)` drops the `undefined` values before it sets
      and saves the rest, so an estimate the reply lacks keeps its stored
      value; every other estimate, null included, is overwritten. */
  function UpdatedComparison(existing: Comparison, c: Comparison): Comparison {
    Comparison(c.requestId,
      if c.timelineIndustryTime.Undefined? then existing.timelineIndustryTime else c.timelineIndustryTime,
      if c.timelineFormitTime.Undefined? then existing.timelineFormitTime else c.timelineFormitTime,
      if c.budgetIndustryCost.Undefined? then existing.budgetIndustryCost else c.budgetIndustryCost,
      if c.budgetFormitCost.Undefined? then existing.budgetFormitCost else c.budgetFormitCost)
  }

  /** The row the upsert leaves for the request, which the route also replies
      with: the new record when the request had no comparison, else the
      existing one updated with it. */
  function UpsertedRow(comparisons: seq<Comparison>, c: Comparison): Comparison {
    match FindComparison(comparisons, c.requestId)
    case None => c
    case Some(i) => UpdatedComparison(comparisons[i], c)
  }

  /** Upsert keyed by requestId: update the request's comparison or create it. */
  function UpsertComparison(comparisons: seq<Comparison>, c: Comparison): seq<Comparison> {
    match FindComparison(comparisons, c.requestId)
    case None => comparisons + [c]
    case Some(i) => comparisons[i := UpsertedRow(comparisons, c)]
  }

  /** The upsert keeps at most one comparison per request. Afterwards the
      request's one comparison holds each estimate of the new record, except
      that an `undefined` estimate keeps the value of the comparison it
      updates (and is NULL in a new row). The table grew only if the request
      had none, and no other request's comparison changed. */
  lemma UpsertComparisonOneRow(comparisons: seq<Comparison>, c: Comparison)
    requires ComparisonsUnique(comparisons)
    ensures var r := UpsertComparison(comparisons, c);
      var k := FindComparison(comparisons, c.requestId);
      && ComparisonsUnique(r)
      && FindComparison(r, c.requestId).Some?
      && r[FindComparison(r, c.requestId).value] == UpsertedRow(comparisons, c)
      && UpsertedRow(comparisons, c).requestId == c.requestId
      && (forall e: Estimate :: UpsertedRow(comparisons, c).EstimateOf(e) ==
            if k.Some? && c.EstimateOf(e).Undefined? then comparisons[k.value].EstimateOf(e) else c.EstimateOf(e))
      && |r| == (if k.Some? then |comparisons| else |comparisons| + 1)
      && forall i :: 0 <= i < |comparisons| && comparisons[i].requestId != c.requestId ==> r[i] == comparisons[i]
  {
    match FindComparison(comparisons, c.requestId)
    case None =>
      FindFirstAppend(comparisons, c, ComparisonOf(c.requestId));
    case Some(k) =>
      FindFirstUpdate(comparisons, k, UpsertedRow(comparisons, c), ComparisonOf(c.requestId));
  }

  /** The find-then-update-or-create step of the route; it returns the row it
      leaves, as the route replies with `existingComparison`. */
  method StoreComparison(db: Db, c: Comparison) returns (stored: Comparison)
    requires db.Valid() && c.requestId < |db.requests|
    modifies db`comparisons
    ensures db.Valid()
    ensures db.comparisons == UpsertComparison(old(db.comparisons), c)
    ensures stored == UpsertedRow(old(db.comparisons), c)
  {
    UpsertComparisonOneRow(db.comparisons, c);
    var existing := FindComparison(db.comparisons, c.requestId);
    if existing.Some? {
      stored := UpdatedComparison(db.comparisons[existing.value], c);
      db.comparisons := db.comparisons[existing.value := stored];
    } else {
      stored := c;
      db.comparisons := db.comparisons + [c];
    }
  }

  /** The STRING columns' schema validation: an array or an object fails it
      ("string violation"); every other JSON value, null included, passes. */
  predicate StringColumnAccepts(v: Js) {
    !v.Arr? && !v.Obj?
  }

  /** Whether `create` or `update` accepts the record: no estimate is an array or an object. */
  predicate EstimatesAccepted(c: Comparison) {
    forall e: Estimate :: StringColumnAccepts(c.EstimateOf(e))
  }

  const MissingRequestId: string := "Missing requestId in request body."
  const NoProposal: string := "No proposal found for this request."
  const GenerationFailed: string := "Failed to generate comparison."
  const InvalidJson: string := "The AI did not return valid JSON. Please refine your prompt."

  /** The steps after the upstream reply: the trimmed text is parsed; a reply
      that does not parse gives 400 with that text; parsed JSON missing a
      parent object, or an estimate the columns reject, gives 500; none of
      these writes. Otherwise the four values are upserted as the request's
      comparison and the row left by the upsert is returned. */
  ghost predicate OutputStored(before: seq<Comparison>, after: seq<Comparison>, requestId: Id,
                               rawOutput: string, parse: string -> Option<Js>, reply: Reply<ComparisonBody>) {
    var data := parse(rawOutput);
    && (data.None? ==> reply == Reply(400, BadOutput(InvalidJson, rawOutput)) && after == before)
    && (data.Some? && ExtractComparison(requestId, data.value).None? ==>
          reply == Reply(500, Failure(GenerationFailed)) && after == before)
    && (data.Some? && ExtractComparison(requestId, data.value).Some? ==>
          var c := ExtractComparison(requestId, data.value).value;
          && (!EstimatesAccepted(c) ==> reply == Reply(500, Failure(GenerationFailed)) && after == before)
          && (EstimatesAccepted(c) ==>
                reply == Reply(200, Stored(UpsertedRow(before, c))) && after == UpsertComparison(before, c)))
  }

  method StoreOutput(db: Db, requestId: Id, rawOutput: string, parse: string -> Option<Js>)
    returns (reply: Reply<ComparisonBody>)
    requires db.Valid() && requestId < |db.requests|
    modifies db`comparisons
    ensures db.Valid()
    ensures OutputStored(old(db.comparisons), db.comparisons, requestId, rawOutput, parse, reply)
  {
    var data := parse(rawOutput);
    if data.None? {
      return Reply(400, BadOutput(InvalidJson, rawOutput));
    }
    var comparisonData := ExtractComparison(requestId, data.value);
    if comparisonData.None? {
      return Reply(500, Failure(GenerationFailed));
    }
    if !EstimatesAccepted(comparisonData.value) {
      return Reply(500, Failure(GenerationFailed));
    }
    var stored := StoreComparison(db, comparisonData.value);
    reply := Reply(200, Stored(stored));
  }

  /** POST /generate-comparison. A missing requestId gives 400 and a request
      without a proposal 404, both before any upstream call. A failing call
      gives 500 without a write. Otherwise the trimmed reply is parsed and
      stored as `StoreOutput` says. */
  method GenerateComparison(db: Db, requestId: Option<Id>, upstream: Upstream, parse: string -> Option<Js>)
    returns (reply: Reply<ComparisonBody>, sent: Option<seq<Message>>)
    requires db.Valid()
    modifies db`comparisons
    ensures db.Valid()
    ensures requestId.None? ==>
      reply == Reply(400, Failure(MissingRequestId)) && sent == None &&
      db.comparisons == old(db.comparisons)
    ensures requestId.Some? && ProposalFor(db.proposals, requestId.value).None? ==>
      reply == Reply(404, Failure(NoProposal)) && sent == None &&
      db.comparisons == old(db.comparisons)
    ensures requestId.Some? && ProposalFor(db.proposals, requestId.value).Some? ==>
      sent == Some(ComparisonMessages(PromptFields(ProposalFor(db.proposals, requestId.value).value)))
    ensures sent.Some? && upstream(sent.value).None? ==>
      reply == Reply(500, Failure(GenerationFailed)) && db.comparisons == old(db.comparisons)
    ensures sent.Some? && upstream(sent.value).Some? ==>
      OutputStored(old(db.comparisons), db.comparisons, requestId.value, Trim(upstream(sent.value).value), parse, reply)
  {
    if requestId.None? {
      return Reply(400, Failure(MissingRequestId)), None;
    }
    var rid := requestId.value;
    var found := FindProposal(db.proposals, rid);
    if found.None? {
      return Reply(404, Failure(NoProposal)), None;
    }
    var proposal := db.proposals[found.value];
    assert ProposalFor(db.proposals, rid) == Some(proposal);
    assert rid < |db.requests| by {
      assert ProposalOf(rid)(proposal);
    }
    var messages := ComparisonMessages(PromptFields(proposal));
    sent := Some(messages);
    var completion := upstream(messages);
    if completion.None? {
      return Reply(500, Failure(GenerationFailed)), sent;
    }
    var rawOutput := Trim(completion.value);
    ghost var before := db.comparisons;
    reply := StoreOutput(db, rid, rawOutput, parse);
    assert upstream(sent.value) == completion;
    assert OutputStored(before, db.comparisons, rid, rawOutput, parse, reply);
  }
}
