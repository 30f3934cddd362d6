# FormIT backend: proposal workflow, answers, requests, auth and seeding

This project models the core of the FormIT backend in Dafny and proves
properties of the model. FormIT is an Express/Sequelize service for a
consulting intake questionnaire. Clients answer wizard questions, answers are
stored per request, and an upstream text-generation service writes a project
proposal and an industry-vs-FormIT cost comparison from them.

The store is a class, `Store.Db`, with one `seq` field per table. A row's id
is its position in its table. The database's serial id is that position plus
one, so no id here is a falsy JavaScript value. Route handlers are methods
that update these fields. Their `ensures` clauses tie the new tables and the
reply to pure functions, and lemmas prove what those functions promise.

| module | file | models |
|---|---|---|
| `Common` | common.dfy | options, replies, JavaScript truthiness, `||` fallbacks, `String.prototype.trim` |
| `Store` | store.dfy | the table records, `findOne`, the one-row-per-key invariants, the store object |
| `Proposals` | proposals.dfy | GET /api (read a proposal), POST /api (create or partial update) and POST /api/generate: the proposals router is mounted at /api (server.js:53) |
| `Comparisons` | comparisons.dfy | POST /api/comparison/generate-comparison |
| `Answers` | answers.dfy | POST /api/answers (batch upsert) and GET /api/answers |
| `Requests` | requests.dfy | POST /api/requests/findOrCreate and POST /api/requests |
| `Auth` | auth.dfy | POST /api/auth/register and POST /api/auth/login |
| `AuthMiddleware` | auth_middleware.dfy | the bearer-token middleware |
| `RoleMiddleware` | role_middleware.dfy | the role gate |
| `UpdateRole` | update_role.dfy | the promote-to-admin script |
| `Seed` | seed.dfy | the insertion loop of the seeding script |

Foreign code becomes a function parameter:
- the OpenAI call is `Upstream`, which returns None when the call throws;
- `JSON.parse` is `string -> Option<Js>`;
- `bcrypt.hash`, `bcrypt.compare`, `jwt.sign` and `jwt.verify` are parameters too;
- the clock is a `now: nat` parameter.

The generation methods also return the messages they sent. That is how the
contracts can say that a failed validation never calls the upstream service.

Behaviours of the code worth knowing before reading the model:
- Regeneration does not rewrite the proposal's sections. It replaces
  `proposalContent` with the trimmed reply text, bumps the version, resets
  the status and restamps the time. The sections stay as they were
  (`Proposals.GeneratedVersion`).
- The upstream reply for a proposal is not parsed as JSON. It is stored as text
  (routes/proposals.js:208-225).
- The rate limit on regeneration is commented out (routes/proposals.js:163-174).
  No 429 reply exists and generation is never throttled.
- A failing upstream call gives 500 (routes/proposals.js:228-231,
  routes/comparisons.js:121-123).
- The comparison prompt reads `proposal.project_overview`, `project_scope` and
  `compliance_requirements`. A Proposal instance only has the camelCase
  attributes, so the prompt always embeds the three fallbacks
  (`Comparisons.PromptFieldsAlwaysFallbacks`).
- POST /answers can leave a partial write. An entry naming an unknown question
  makes the reply 500, but every entry whose question exists is still saved,
  before or after it in the batch. A request created for the batch stays created.
- POST /requests is mounted without the auth middleware (server.js:52), so
  `req.user` is never set there. The model takes the user id as a parameter.

## Model

| member | source | states |
|---|---|---|
| Common.TrimCutsWhitespace | routes/proposals.js:208 | `trim()` returns the slice of its input between the leading and the trailing whitespace. Whitespace is ECMAScript's WhiteSpace (every Unicode space separator included) and LineTerminator. Everything it cuts is whitespace, and neither end of the result is whitespace. |
| Common.TrimCutsUnicodeSpaces | routes/comparisons.js:80 | `trim()` also cuts the ideographic, Ogham and figure spaces: "\u3000x\u1680\u2007" trims to "x". |
| Common.TrimIdempotent | routes/comparisons.js:80 | Trimming a trimmed text changes nothing. |
| Common.NatToString | routes/answers.js:67 | A number renders in a template literal as a non-empty string of decimal digits. |
| Common.NatToStringValue | routes/answers.js:67 | The rendered digits denote the number rendered, with no leading zero. |
| Store.FindFirst | routes/proposals.js:30 | `findOne` returns a matching row (the model takes the first by position), or none exactly when no row matches. |
| Proposals.GetProposal | routes/proposals.js:24-39 | No requestId gives 400. No proposal for the request gives 404. Otherwise 200 with the stored proposal. |
| Proposals.CreatedDefaults | routes/proposals.js:92-108 | A new proposal holds each section when that section is truthy and null otherwise. The defaults are content "", version 1 (also for version 0) and status "draft". It is never generated. |
| Proposals.PatchedOnlySupplied | routes/proposals.js:109-127 | The partial update overwrites exactly the fields that are not `undefined`, including explicit nulls and "". Every other field is kept. |
| Proposals.PatchedIdempotent | routes/proposals.js:109-127 | Sending the same partial update twice equals sending it once. An update that supplies nothing changes nothing. |
| Proposals.UpsertedOneRow | routes/proposals.js:89-127 | After the upsert, each request still has at most one proposal. The table grows only when the request had none, and no other request's proposal changes. The request's proposal is the created or the patched one. |
| Proposals.PostProposal | routes/proposals.js:61-134 | No requestId gives 400 and an unknown request 404, both without a write. A null for a NOT NULL column of an existing proposal gives 500 without a write. Otherwise the table becomes the upsert, and the reply is the request's stored proposal. |
| Proposals.RequestAnswersExact | routes/proposals.js:150-158 | The loaded answers are exactly the request's answer rows, each row once: their number is the number of the request's rows. |
| Proposals.AnswersTextAppend | routes/proposals.js:177-181 | The prompt text of concatenated answer lists is the concatenation of their texts. |
| Proposals.AnswersTextBlockAt | routes/proposals.js:177-181 | Each answer contributes exactly one `Question:/Answer:` block, in retrieval order. |
| Proposals.BuildAnswersText | routes/proposals.js:177-181 | The `+=` loop builds exactly the blocks of all the answers. |
| Proposals.GeneratedVersion | routes/proposals.js:211-226 | Generation keeps one proposal per request and touches no other request's proposal. Afterwards the request's proposal is at version 1 if it had none, otherwise one above the previous version. It is in status "draft", holds the new content and time, and its sections are unchanged. |
| Proposals.GenerateTwice | routes/proposals.js:211-226 | Two generations for a request without a proposal reach version 2, in "draft", holding the second content. |
| Proposals.RecordGeneration | routes/proposals.js:211-226 | The table becomes the generation update and the store stays valid. The returned proposal is the request's stored one. |
| Proposals.GenerateProposal | routes/proposals.js:142-233 | No requestId gives 400 and an unknown request 404, without any upstream call or write. Otherwise the two messages are built from the request's answers and sent. A failing call gives 500 without a write. Otherwise the trimmed reply is recorded as the generation and returned. |
| Comparisons.PromptFieldsAlwaysFallbacks | routes/comparisons.js:48-50 | Read by snake_case names, the prompt fields are always "Not specified", "Not specified" and "None specified". |
| Comparisons.FallbackRule | routes/comparisons.js:48-50 | `x \|\| fallback` embeds a truthy value as it is, and anything else as the fallback. |
| Comparisons.ExtractTakesFourPaths | routes/comparisons.js:99-105 | Extraction succeeds exactly when all four member-access paths can be followed. The record then holds the four values found there and the request id. |
| Comparisons.PathOfThree | routes/comparisons.js:101-104 | A three-key path is three member accesses in a row, failing at the first one that throws. |
| Comparisons.UpsertComparisonOneRow | routes/comparisons.js:109-116 | After the upsert the request has exactly one comparison. It holds each estimate of the new record, except that an `undefined` estimate keeps the value of the comparison being updated, because `update()` drops undefined values. The table grew only if the request had none, and other requests' comparisons are unchanged. |
| Comparisons.StoreComparison | routes/comparisons.js:109-116 | The update-or-create step writes exactly the upsert, keeps the store valid, and returns the row it leaves for the request. |
| Comparisons.StoreOutput | routes/comparisons.js:84-123 | Unparsable output gives 400 with the raw text. A missing parent object gives 500. An estimate that is an array or an object fails the STRING columns' validation (models/Comparison.js:19-38) and gives 500. None of these writes. Otherwise the extracted record is upserted, and the row the upsert leaves is returned with 200. |
| Comparisons.GenerateComparison | routes/comparisons.js:14-125 | No requestId gives 400 and a request without a proposal 404, before any upstream call and without a write. The prompt is built from the proposal. A failing call gives 500 without a write. Otherwise the trimmed reply is stored as `StoreOutput` states. |
| Answers.FirstUnknown | routes/answers.js:61-68 | The position of the first entry, in entry order, whose question does not exist: every entry before it names an existing question. |
| Answers.UnknownQuestionErrorNamesId | routes/answers.js:67 | The error text is "Question with ID ", the decimal digits of the question's database id, and " not found.". |
| Answers.KnownEntriesMembers | routes/answers.js:61-68 | The entries that get saved are exactly the entries naming an existing question. |
| Answers.KnownEntriesDistinct | routes/answers.js:61-63 | The saved entries keep the distinct keys of the answers object. |
| Answers.KnownEntriesAllKnown | routes/answers.js:61-68 | When every question exists, every entry is saved. |
| Answers.KnownEntriesSaved | routes/answers.js:61-92 | Whatever other entries fail, each entry naming an existing question ends up as the request's one answer to that question, holding the entry's text. |
| Answers.UpsertStores | routes/answers.js:70-90 | After one upsert the request has exactly one answer to the question, holding the new text. An existing row is updated in place, otherwise one row is appended. No other (request, question) row changes. |
| Answers.UpsertOverwrites | routes/answers.js:70-90 | Answering the same question twice equals answering it once with the later text. |
| Answers.UpsertKeepsOtherAnswer | routes/answers.js:70-90 | Upserting one question neither moves nor changes another question's answer. |
| Answers.UpsertAllKeepsTable | routes/answers.js:61-92 | A batch keeps one row per (request, question). It adds at most one row per entry and leaves other requests' rows alone. |
| Answers.UpsertAllStores | routes/answers.js:61-92 | After a batch, every entry's question has exactly one answer in the request, holding the entry's text. |
| Answers.SaveAnswer | routes/answers.js:70-90 | Saving one entry writes exactly the upsert. It returns the id of the row holding the answer, and other rows are unchanged. |
| Answers.SaveNext | routes/answers.js:63-91 | Saving the next entry writes its upsert and records it with the id of the row that holds it. |
| Answers.SaveEntry | routes/answers.js:63-91 | Handling one entry: an unknown question fails the batch, and a known one is saved whether or not the batch has already failed. |
| Answers.SaveEntries | routes/answers.js:61-92 | The write is exactly the upsert of every entry naming an existing question, in entry order. The batch fails exactly when some entry names an unknown question, and otherwise records every entry. |
| Answers.SaveBatch | routes/answers.js:61-103 | Every known entry is saved. An unknown question gives 500 naming the first one in entry order. Otherwise 200 with one record per entry. |
| Answers.Rejection | routes/answers.js:13-40 | Answers that are missing or not an object, neither target given, or an unknown serviceType give their 400 replies, checked in this order. No rejection happens exactly when all three checks pass. |
| Answers.TargetRequest | routes/answers.js:42-58 | An existing request named by requestId is used as it is. Otherwise a new "draft" request of the user is created, named after the service type. Without a user there is no target. |
| Answers.PostAnswers | routes/answers.js:7-105 | A rejection gives its 400 without a write. No existing request and no user gives 401 without a write. Otherwise the target request is found or created, and the batch is saved as `SaveBatch` states: every known entry is saved even when the reply is 500. |
| Answers.CompletedAnswersExact | routes/answers.js:123-137 | The listing holds exactly the (question, text) pairs stored for the request whose database id is the parsed number, one element per row of that request. |
| Answers.GetAnswers | routes/answers.js:108-144 | A missing requestId gives 400 "Missing requestId" and a non-numeric one 400 "Invalid requestId". Otherwise 200 with exactly the answers of the request whose database id `parseInt` read, one element per answer row. |
| Requests.FindOrCreateFinds | routes/requests.js:17-29 | The request returned belongs to the user and has the service type. The table is unchanged if one existed, and otherwise grows by exactly that request. |
| Requests.FindOrCreateIdempotent | routes/requests.js:17-29 | A second identical call returns the same request and creates nothing. |
| Requests.FindOrCreateRequest | routes/requests.js:8-39 | A falsy serviceType gives 400 without a write. Otherwise the request is found or created, and its id and service type are returned. |
| Requests.CreateAsWrittenNeverFindsItsOwn | routes/requests.js:55-66 | The request POST /requests creates is never found by its own lookup. Each further call creates another one. |
| Requests.CreateAsWrittenTwice | routes/requests.js:55-66 | Two identical calls on an empty table create two requests, ids 0 and 1. |
| Requests.CreateRequest | routes/requests.js:44-73 | No user id or a falsy serviceType gives 400 without a write. Otherwise the as-written find-or-create runs and its request id is returned. |
| Requests.CreateRequestAsMounted | routes/requests.js:47-53 | Mounted without the auth middleware, the route has no user id, so every call answers 400 without a write. |
| Auth.Register | routes/auth.js:14-61 | A falsy field gives 400 and a taken email 400, without a write. Otherwise a "client" user storing the password's hash is appended. The reply is 201 with its public fields, or 500 when the welcome email fails after the user was created. |
| Auth.AuthenticateExact | routes/auth.js:74-83 | With unique emails, authentication yields user i exactly when i has the email and the password checks against i's hash. |
| Auth.RegisterThenAuthenticate | routes/auth.js:30-83 | A just-registered user authenticates with the same password, provided the check accepts a password against its own hash. |
| Auth.Login | routes/auth.js:64-111 | A falsy field gives 400. An unknown email and a wrong password give the same 401. Otherwise 200 with a one-hour token of the user's id, email and role, and the user's public fields. |
| AuthMiddleware.SplitJoin | middleware/auth.js:7 | `split(' ')` loses no text: joining the parts gives the header back, and no part holds a space. |
| AuthMiddleware.SplitFirstWord | middleware/auth.js:7 | A word followed by the end or by a space is the first part of the split. |
| AuthMiddleware.BearerTokenOf | middleware/auth.js:7 | The token of "scheme token" or "scheme token more" is the second word. |
| AuthMiddleware.NoTokenInOneWord | middleware/auth.js:7-8 | A one-word header has no token. |
| AuthMiddleware.Authorize | middleware/auth.js:3-17 | A missing or empty header, or one without a second word, gives 401. A token that does not verify gives 400. Neither sets the user nor calls `next`. Otherwise the user becomes the decoded payload and `next` is called. |
| RoleMiddleware.RoleGate | middleware/role.js:1-8 | The gate either calls `next` or answers 403 "Access denied". |
| RoleMiddleware.RoleGatePasses | middleware/role.js:3-5 | The gate passes exactly the users whose role is one of the required roles. |
| RoleMiddleware.AbsentUserDenied | middleware/role.js:3-5 | A request without a user is refused with 403. |
| RoleMiddleware.EmptyRolesDenyAll | middleware/role.js:3-5 | An empty role list refuses everyone. |
| RoleMiddleware.RoleGateMonotone | middleware/role.js:3-5 | Allowing more roles never refuses a user who was let through. |
| UpdateRole.PromoteUnknownEmail | updateRole.js:6-11 | Promotion changes nothing when no user has the email. |
| UpdateRole.PromoteChangesOnlyRole | updateRole.js:14-21 | Promotion changes only the role of the user with the email, to "admin". The emails stay unique. |
| UpdateRole.PromoteIdempotent | updateRole.js:14-21 | Promoting twice equals promoting once. |
| UpdateRole.ChangeRoleToAdmin | updateRole.js:3-27 | The table becomes the promotion. `save` runs exactly when the user exists and is not yet an admin. |
| Seed.CategoryRowsAt | seedData.js:463-469 | Each category row has its title, "" for a missing description, its 1-based position as sortOrder, and its step's id. |
| Seed.QuestionRowsAt | seedData.js:471-479 | Each question row has its text, type "text" and help text "" when missing, its required flag, its 1-based position, and its category's id. |
| Seed.StepQuestionsCount | seedData.js:471-479 | A step creates one question row per question entry of its categories. |
| Seed.SeedCounts | seedData.js:455-482 | Seeding creates one step row per step, one category row per category entry and one question row per question entry. |
| Seed.SeedOnlyAppends | seedData.js:455-482 | Seeding only appends: the tables after a prefix of the steps are prefixes of the final tables. |
| Seed.SeedUpTo | seedData.js:455-482 | Seeding steps 0..k is seeding steps 0..k-1 and then step k. |
| Seed.SeededStepAt | seedData.js:456-461 | The step row created for step j is that step's row (title, number, "" description, service type). |
| Seed.LastCategoryBlock | seedData.js:463-469 | The last step's categories are the last block of category rows. |
| Seed.SeededCategoryBlock | seedData.js:463-469 | Step j's categories form one consecutive block right after the earlier steps' categories, and all point at step j's row. |
| Seed.StepQuestionsLinked | seedData.js:471-479 | Every question row of a step points at one of that step's new categories. |
| Seed.SeedKeepsLinks | seedData.js:455-482 | Seeding keeps every category pointing at an existing step and every question at an existing category. |
| Seed.SeedCategory | seedData.js:463-480 | Creating a category appends its row, then its questions' rows, all pointing at it. |
| Seed.SeedStep | seedData.js:455-481 | Creating a step appends its row, then its categories each followed by its questions, as the step function states. |
| Seed.SeedSteps | seedData.js:455-482 | The seeding loop produces exactly the seeded tables. |
| Seed.SeedAll | seedData.js:455-482 | Seeding a valid store keeps it valid and produces exactly the seeded tables. |

## Left out

- The OpenAI client, `JSON.parse`, bcrypt and jsonwebtoken are function parameters. Their internals are foreign code.
- The welcome email is a `mailed` flag on `Auth.Register`. The message text and the mail transport are I/O.
- Express wiring, CORS, request parsing and logging are not modelled. Database connection, migrations and `sequelize.sync` are not modelled either.
- The 500 replies from database failures are not modelled, except those the model can name: a NOT NULL violation on a proposal update, an unknown question in an answers batch, a failed welcome email, a JSON path that throws, and a comparison estimate that is an array or an object (Sequelize's "string violation"). Foreign-key violations are not modelled.
- Answers.PostAnswers: handles the entries one after the other. `Promise.all` starts every entry's callback, and a rejection cancels none of the others, so every known entry is saved in both. The model creates new answer rows in entry order; in the source their order, and so their ids, depends on timing.
- Answers.SaveBatch: names the first unknown question in entry order in the 500 reply. In the source the message is that of whichever lookup rejects first, which depends on timing. The reply may also be sent before the other entries' saves finish; the model states only the final table.
- Answers.PostAnswers: assumes the entries of `answers` name distinct question ids. Two distinct keys such as "1" and "01" name the same question once coerced; that coercion is left out, as the line on parsed entries below says.
- Answers.UnknownQuestionErrorNamesId: the source echoes the client's key as sent, so a key such as "010" appears with its leading zero. The model renders the database id the key denotes.
- Answers.PostAnswers: takes `answers` as parsed (question id, text) entries. JavaScript coercion of keys and values and `typeof` checks on non-object values are reduced to None for "missing or not an object".
- Answers.GetAnswers: the `parseInt` reading of the query string is an input (`RequestIdParam`). The eager-loaded question text is not returned by the route, so it is not modelled. The listed `questionId` is the model id, one less than the database `question_id` the route returns.
- Store.FindFirst / Requests.FindOrCreateRequest: `findOne` has no ORDER BY, so when several rows match, the source leaves unspecified which one comes back; the model takes the first by position. Several requests can match a (user, serviceType) lookup, because POST /api/answers without a requestId creates a new request on every call (routes/answers.js:53-57), and POST /api/requests/findOrCreate (routes/requests.js:18-20) may then return any of them. The choice does not matter for the proposal, comparison, answer and user lookups, whose keys `Store.Db.Valid` keeps unique, nor for the wizard-step lookup of routes/answers.js:28-33, which only tests that a step exists.
- Proposals.GenerateProposal / Answers.GetAnswers: the answer rows come back in an order the source leaves unspecified, because the queries (routes/proposals.js:150-158, routes/answers.js:123-137) have no ORDER BY. The model uses table order, so the order of the prompt's blocks and of the listing is one the database may choose differently, for instance after an answer row is updated.
- Auth.Login: the token's `iat` and `exp` claims and the signing secret live inside `jwt.sign`, which is a parameter.
- Concurrency between requests is not modelled. Each handler runs alone on the store, so the read-then-write races of the upserts are not captured.
- The real clock is the `now` parameter of `Proposals.GenerateProposal`.
- The literal questionnaire of seedData.js (the step, category and question texts before line 455) is the `stepsData` parameter of `Seed.SeedAll`. The script's connection handling and `process.exit` are left out.
- Common.Trim: its own contract only bounds the length. What `trim()` does is stated in `Common.TrimCutsWhitespace` and `Common.TrimIdempotent`.
- The email of the promote script is hard-coded in updateRole.js. Here it is a parameter of `UpdateRole.ChangeRoleToAdmin`. Its console messages are left out.

## Findings

| source | as written | input that shows it | evidently intended | confidence | as-written member | corrected member |
|---|---|---|---|---|---|---|
| routes/requests.js:56-66 | The lookup filters on `project_name` and the create passes `project_name`, which is not an attribute of the Request model. The created request has a null projectName, so it never matches its own lookup. | Not reachable as mounted: server.js:52 puts no auth middleware before this route, so `req.user?.id` is undefined and every call answers 400 (Requests.CreateRequestAsMounted). With an authenticated caller, two calls by user 0 for service type "web" on an empty table create two requests, ids 0 and 1. | A find-or-create keyed on (user, projectName) that creates the request with its projectName set, as POST /requests/findOrCreate does. A second call finds the first request. | not executed | Requests.CreateAsWrittenNeverFindsItsOwn | Requests.FindOrCreateIdempotent |
