/** routes/requests.js: the two routes that find or create a user's request
    for a service type. A request row carries the service type in `projectName`. */
module Requests {
  import opened Common
  import opened Store

  datatype RequestsBody =
    | Failure(message: string)
    | Found(requestId: Id, serviceType: Option<string>)
    | Created(message: string, requestId: Id)

  /** Find-or-create by (user, serviceType): the first request of that user
      whose projectName is the service type, else a new "draft" request. The
      new table and the id of the request returned. */
  function FindOrCreate(requests: seq<Request>, userId: Id, serviceType: string): (seq<Request>, Id) {
    match FindRequest(requests, userId, serviceType)
    case Some(i) => (requests, i)
    case None => (requests + [Request(Some(userId), Some(serviceType), "draft")], |requests|)
  }

  /** The request returned belongs to the user and carries the service type;
      the table is unchanged when such a request existed and otherwise grew by
      exactly that request. */
  lemma FindOrCreateFinds(requests: seq<Request>, userId: Id, serviceType: string)
    ensures var (rs, id) := FindOrCreate(requests, userId, serviceType);
      && id < |rs| && rs[id].userId == Some(userId) && rs[id].projectName == Some(serviceType)
      && (FindRequest(requests, userId, serviceType).Some? ==> rs == requests)
      && (FindRequest(requests, userId, serviceType).None? ==>
            rs == requests + [Request(Some(userId), Some(serviceType), "draft")])
  {
  }

  /** Find-or-create is idempotent: a second call with the same user and
      service type returns the same request and creates nothing. */
  lemma FindOrCreateIdempotent(requests: seq<Request>, userId: Id, serviceType: string)
    ensures var (rs, id) := FindOrCreate(requests, userId, serviceType);
      FindOrCreate(rs, userId, serviceType) == (rs, id)
  {
    var (rs, id) := FindOrCreate(requests, userId, serviceType);
    if FindRequest(requests, userId, serviceType).None? {
      FindFirstAppend(requests, Request(Some(userId), Some(serviceType), "draft"), RequestOf(userId, serviceType));
    }
  }

  /** POST /requests/findOrCreate, behind the auth middleware (the user id is
      that of the verified token). A falsy serviceType gives 400 and creates
      nothing; otherwise the request is found or created, and the reply's
      serviceType is the request's projectName, which is the service type asked for. */
  method FindOrCreateRequest(db: Db, userId: Id, serviceType: Option<string>) returns (reply: Reply<RequestsBody>)
    requires db.Valid()
    modifies db`requests
    ensures db.Valid()
    ensures !Truthy(serviceType) ==>
      reply == Reply(400, Failure("serviceType is required.")) && db.requests == old(db.requests)
    ensures Truthy(serviceType) ==>
      var (rs, id) := FindOrCreate(old(db.requests), userId, serviceType.value);
      db.requests == rs && reply == Reply(200, Found(id, Some(serviceType.value)))
  {
    if !Truthy(serviceType) {
      return Reply(400, Failure("serviceType is required."));
    }
    FindOrCreateFinds(db.requests, userId, serviceType.value);
    var existing := FindRequest(db.requests, userId, serviceType.value);
    var id;
    if existing.Some? {
      id := existing.value;
    } else {
      id := |db.requests|;
      db.requests := db.requests + [Request(Some(userId), Some(serviceType.value), "draft")];
    }
    reply := Reply(200, Found(id, db.requests[id].projectName));
  }

  /** What POST /requests does as written: the lookup matches on the
      `project_name` column, but the create passes `project_name`, which is not
      an attribute of the Request model and is dropped, so the new request has
      no projectName. */
  function CreateAsWritten(requests: seq<Request>, userId: Id, serviceType: string): (seq<Request>, Id) {
    match FindRequest(requests, userId, serviceType)
    case Some(i) => (requests, i)
    case None => (requests + [Request(Some(userId), None, "draft")], |requests|)
  }

  /** The request POST /requests creates is never found by its own lookup, so
      once a user has no request for a service type, every further call
      creates one more. */
  lemma CreateAsWrittenNeverFindsItsOwn(requests: seq<Request>, userId: Id, serviceType: string)
    requires FindRequest(requests, userId, serviceType).None?
    ensures var (rs, id) := CreateAsWritten(requests, userId, serviceType);
      && FindRequest(rs, userId, serviceType).None?
      && CreateAsWritten(rs, userId, serviceType).1 == id + 1
      && |CreateAsWritten(rs, userId, serviceType).0| == |requests| + 2
  {
    FindFirstAppend(requests, Request(Some(userId), None, "draft"), RequestOf(userId, serviceType));
  }

  /** Two identical calls on an empty table create two requests. */
  lemma CreateAsWrittenTwice()
    ensures var (rs, id) := CreateAsWritten([], 0, "web");
      id == 0 && CreateAsWritten(rs, 0, "web") == (rs + [Request(Some(0), None, "draft")], 1)
  {
    CreateAsWrittenNeverFindsItsOwn([], 0, "web");
  }

  /** POST /requests. No middleware sets the user on this route, so the user
      id is a parameter. A missing user id or a falsy serviceType gives 400 and
      creates nothing; otherwise the as-written find-or-create runs. */
  method CreateRequest(db: Db, userId: Option<Id>, serviceType: Option<string>) returns (reply: Reply<RequestsBody>)
    requires db.Valid()
    modifies db`requests
    ensures db.Valid()
    ensures userId.None? || !Truthy(serviceType) ==>
      reply == Reply(400, Failure("User ID and service type are required.")) && db.requests == old(db.requests)
    ensures userId.Some? && Truthy(serviceType) ==>
      var (rs, id) := CreateAsWritten(old(db.requests), userId.value, serviceType.value);
      db.requests == rs && reply == Reply(200, Created("Request created successfully.", id))
  {
    if userId.None? || !Truthy(serviceType) {
      return Reply(400, Failure("User ID and service type are required."));
    }
    var existing := FindRequest(db.requests, userId.value, serviceType.value);
    var id;
    if existing.Some? {
      id := existing.value;
    } else {
      id := |db.requests|;
      db.requests := db.requests + [Request(userId, None, "draft")];
    }
    reply := Reply(200, Created("Request created successfully.", id));
  }

  /** POST /requests as the server mounts it: no middleware sets `req.user`,
      so the user id is always missing and every call is answered 400 without
      a write; the duplicate creation above needs an authenticated caller. */
  method CreateRequestAsMounted(db: Db, serviceType: Option<string>) returns (reply: Reply<RequestsBody>)
    requires db.Valid()
    modifies db`requests
    ensures db.Valid()
    ensures reply == Reply(400, Failure("User ID and service type are required."))
    ensures db.requests == old(db.requests)
  {
    reply := CreateRequest(db, None, serviceType);
  }
}
