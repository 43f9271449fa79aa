/** What one use-case operation does to the committed table and the cache, with
    every answer of the environment (faults and elapsed time) as an input. */
module AccountOps {
  import opened Domain
  import opened AppErrors
  import opened AccountTable
  import opened Cache

  datatype World = World(table: Table, cache: Store<Account>)

  /** The environment of one operation: the cache-aside read it makes (failing
      lookup, time to load and to store, load and store faults), the faults of
      its table write, of its eviction and of its commit, and the time until the
      transaction has ended. */
  datatype IO = IO(
    lookupFails: bool, loadPause: nat, loadFault: Option<string>,
    storePause: nat, storeFault: Option<string>,
    writeFault: Option<string>, evictFault: Option<string>,
    commitPause: nat, commitFault: Option<string>)

  /** A driver or library error with an arbitrary text. */
  function DriverFailure(text: string): Err {
    Wrapped(text, Plain("driver failure"))
  }

  function Raised(fault: Option<string>): Option<Err> {
    match fault
    case None => None
    case Some(text) => Some(DriverFailure(text))
  }

  function ReadSide(io: IO): ReadIO {
    ReadIO(io.lookupFails, io.loadPause, io.storePause, Raised(io.storeFault))
  }

  // ---- the repository over a table view, and its cached reads ----

  function InnerGet(view: Table, q: Query, fault: Option<string>): Result<Account, Err> {
    match fault
    case Some(text) => Failure(ReadErr(DriverFailure(text)))
    case None =>
      match Find(view, q)
      case Some(a) => Success(a)
      case None => Failure(ReadErr(ERR_NO_ROWS))
  }

  function CachedGet(view: Table, cache: Store<Account>, q: Query, ttl: nat, io: IO)
    : (Store<Account>, Result<Account, Err>)
  {
    CacheAside(cache, Key(q), InnerGet(view, q, io.loadFault), ttl, ReadSide(io))
  }

  /** A write of the inner repository: the view it leaves or its error. */
  function InnerInsert(view: Table, a: Account, fault: Option<string>): Result<Table, Err> {
    match fault
    case Some(text) => Failure(WriteErr(DriverFailure(text)))
    case None =>
      match Insert(view, a)
      case Some(view') => Success(view')
      case None => Failure(WriteErr(ERR_UNIQUE_VIOLATION))
  }

  function InnerUpdate(view: Table, p: UpdateParams, fault: Option<string>): Result<Table, Err> {
    match fault
    case Some(text) => Failure(WriteErr(DriverFailure(text)))
    case None =>
      match Patch(view, p)
      case Some(view') => Success(view')
      case None => Failure(ERR_ACCOUNT_NOT_FOUND)
  }

  function InnerDelete(view: Table, id: string, fault: Option<string>): Result<Table, Err> {
    match fault
    case Some(text) => Failure(Derive(ERR_INTERNAL, ByCause(DriverFailure(text))))
    case None =>
      match Remove(view, id)
      case Some(view') => Success(view')
      case None => Failure(ERR_ACCOUNT_NOT_FOUND)
  }

  function Invalidate(cache: Store<Account>, id: string, fault: Option<string>): Store<Account> {
    if fault.Some? then cache else cache.Evict(IdKey(id))
  }

  // ---- transaction bodies ----

  datatype Body<T> = Body(view: Table, cache: Store<Account>, result: Result<T, Err>)

  /** None: the email is free. */
  function EmailVerdict(r: Result<Account, Err>, email: string): Option<Err> {
    match r
    case Success(_) => Some(Derive(ERR_ACCOUNT_ALREADY_EXISTS, ByMetadata("email", email)))
    case Failure(e) => if Is(e, ERR_ACCOUNT_NOT_FOUND) then None else Some(e)
  }

  function CreateBody(view: Table, cache: Store<Account>, a: Account, ttl: nat, io: IO): Body<Account> {
    var (cache', r) := CachedGet(view, cache, ByEmail(a.email), ttl, io);
    match EmailVerdict(r, a.email)
    case Some(e) => Body(view, cache', Failure(e))
    case None =>
      match InnerInsert(view, a, io.writeFault)
      case Failure(e) => Body(view, cache', Failure(e))
      case Success(view') => Body(view', cache', Success(a))
  }

  function UpdateBody(view: Table, cache: Store<Account>, p: UpdateParams, ttl: nat, io: IO): Body<Account> {
    match InnerUpdate(view, p, io.writeFault)
    case Failure(e) => Body(view, cache, Failure(e))
    case Success(view') =>
      var (cache', r) := CachedGet(view', Invalidate(cache, p.id, io.evictFault), ById(p.id), ttl, io);
      Body(view', cache', r)
  }

  function DeleteBody(view: Table, cache: Store<Account>, id: string, io: IO): Body<()> {
    match InnerDelete(view, id, io.writeFault)
    case Failure(e) => Body(view, cache, Failure(e))
    case Success(view') => Body(view', Invalidate(cache, id, io.evictFault), Success(()))
  }

  /** Commit-or-rollback: the body's view becomes the committed table only when
      the body succeeds and the commit does. The cache is outside of it. */
  function Transact<T>(table: Table, body: Body<T>, io: IO): (World, Result<T, Err>) {
    var cache := body.cache.Advance(io.commitPause);
    if body.result.Failure? then (World(table, cache), body.result)
    else if io.commitFault.Some? then (World(table, cache), Failure(DriverFailure(io.commitFault.value)))
    else (World(body.view, cache), body.result)
  }

  // ---- operations ----

  datatype CreateRequest =
    CreateRequest(email: string, firstName: string, lastName: string, status: int)

  datatype Limit = LimitFault(text: string) | Denied(retryAfter: string) | Allowed
  datatype Policy = PolicyFault(text: string) | Weak | Strong
  datatype Hashing = HashFault(text: string) | Hashed(hash: string)

  /** The answers of the rate limiter and of the password service. */
  datatype Gate = Gate(limit: Limit, policy: Policy, hashing: Hashing)

  predicate ValidEmail(email: string) {
    email != "" && '@' in email
  }

  /** The checks before the transaction, in their order; the hash on success. */
  function Admit(req: CreateRequest, gate: Gate): Result<string, Err> {
    match gate.limit
    case LimitFault(text) => Failure(Derive(ERR_INTERNAL, ByCause(DriverFailure(text))))
    case Denied(retryAfter) => Failure(Derive(ERR_TOO_MANY_REQUESTS, ByMetadata("retry_after", retryAfter)))
    case Allowed =>
      if !ValidEmail(req.email) then Failure(Derive(ERR_INVALID_EMAIL, ByMetadata("email", req.email)))
      else
        match gate.policy
        case PolicyFault(text) => Failure(Derive(ERR_INTERNAL, ByCause(DriverFailure(text))))
        case Weak => Failure(ERR_WEAK_PASSWORD)
        case Strong =>
          match gate.hashing
          case HashFault(text) => Failure(Derive(ERR_INTERNAL, ByCause(DriverFailure(text))))
          case Hashed(hash) => Success(hash)
  }

  function NewAccount(req: CreateRequest, hash: string, id: string, now: Time): Account {
    Account(id, req.email, req.firstName, req.lastName, hash,
            if ValidStatus(req.status) then req.status else STATUS_ACTIVE, now, now, None)
  }

  function Create(w: World, req: CreateRequest, gate: Gate, newId: string, ttl: nat, io: IO)
    : (World, Result<Account, Err>)
  {
    match Admit(req, gate)
    case Failure(e) => (w, Failure(e))
    case Success(hash) =>
      var a := NewAccount(req, hash, newId, w.cache.now);
      Transact(w.table, CreateBody(w.table, w.cache, a, ttl, io), io)
  }

  const ERR_ID_REQUIRED := Derive(ERR_INVALID_REQUEST, ByMessage("account id is required"))

  function Get(w: World, id: string, ttl: nat, io: IO): (World, Result<Account, Err>) {
    if id == "" then (w, Failure(ERR_ID_REQUIRED))
    else
      var (cache, r) := CachedGet(w.table, w.cache, ById(id), ttl, io);
      (World(w.table, cache), r)
  }

  datatype UpdateRequest =
    UpdateRequest(id: string, firstName: Option<string>, lastName: Option<string>, status: Option<int>)

  function ParamsOf(req: UpdateRequest, now: Time): UpdateParams {
    UpdateParams(req.id, req.firstName, req.lastName, req.status, now)
  }

  /** The request error of an update, if any. */
  function UpdateRefused(req: UpdateRequest): Option<Err> {
    if req.id == "" then Some(ERR_ID_REQUIRED)
    else if req.status.Some? && !ValidStatus(req.status.value) then Some(ERR_INVALID_STATUS)
    else None
  }

  function Update(w: World, req: UpdateRequest, ttl: nat, io: IO): (World, Result<Account, Err>) {
    match UpdateRefused(req)
    case Some(e) => (w, Failure(e))
    case None => Transact(w.table, UpdateBody(w.table, w.cache, ParamsOf(req, w.cache.now), ttl, io), io)
  }

  function Delete(w: World, id: string, io: IO): (World, Result<(), Err>) {
    if id == "" then (w, Failure(ERR_ID_REQUIRED))
    else Transact(w.table, DeleteBody(w.table, w.cache, id, io), io)
  }
}
