/** What a caller of each use-case operation can rely on, stated from the request,
    the rows, the cache entries and the environment alone: when it succeeds, what
    its errors look like on both transports, which row it writes field by field,
    and what it leaves in the cache. */
module AccountAnswers {
  import opened Domain
  import opened AppErrors
  import opened AccountTable
  import opened Cache
  import opened AccountOps

  /** The lookup works and finds an entry in force. */
  predicate Readable(w: World, key: string, io: IO) {
    !io.lookupFails && key in w.cache.entries && w.cache.now < w.cache.entries[key].expiresAt
  }

  // ---- create ----

  /** The limiter, the email, the password policy and the hashing let it pass. */
  predicate Admitted(req: CreateRequest, gate: Gate) {
    gate.limit.Allowed? && req.email != "" && '@' in req.email && gate.policy.Strong? && gate.hashing.Hashed?
  }

  lemma CreateSucceedsExactly(w: World, req: CreateRequest, gate: Gate, newId: string, ttl: nat, io: IO)
    ensures Create(w, req, gate, newId, ttl, io).1.Success? <==>
      && Admitted(req, gate) && !Readable(w, EmailKey(req.email), io)
      && io.loadFault.None? && io.writeFault.None? && io.commitFault.None?
      && !EmailTaken(w.table, req.email) && newId !in w.table
  {
    if io.loadFault.Some? { DriverFailuresRender(io.loadFault.value); }
    if io.storeFault.Some? { DriverFailuresRender(io.storeFault.value); }
  }

  /** Past admission a readable entry under the email key is a rejection, whatever
      the table says. */
  lemma DuplicateIsRejected(w: World, req: CreateRequest, gate: Gate, newId: string, ttl: nat, io: IO)
    requires Admitted(req, gate) && Readable(w, EmailKey(req.email), io)
    ensures var (w', r) := Create(w, req, gate, newId, ttl, io);
      && r.Failure? && Is(r.error, ERR_ACCOUNT_ALREADY_EXISTS)
      && Renders(r.error, "account_already_exists", 409, 6)
      && HttpRender(Some(r.error)).meta == map["email" := req.email]
      && w'.table == w.table && w'.cache.entries == w.cache.entries
  {
  }

  /** A create refused before its transaction changes nothing; the first check
      that fails decides the error. */
  lemma RefusedCreateFailsAs(w: World, req: CreateRequest, gate: Gate, newId: string, ttl: nat, io: IO)
    requires !Admitted(req, gate)
    ensures var (w', r) := Create(w, req, gate, newId, ttl, io);
      && w' == w && r.Failure?
      && if gate.limit.LimitFault? then Renders(r.error, "internal", 500, 13)
         else if gate.limit.Denied? then
           Renders(r.error, "too_many_requests", 429, 8)
           && HttpRender(Some(r.error)).meta == map["retry_after" := gate.limit.retryAfter]
         else if req.email == "" || '@' !in req.email then
           Renders(r.error, "invalid_email", 400, 3)
           && HttpRender(Some(r.error)).meta == map["email" := req.email]
         else if gate.policy.PolicyFault? then Renders(r.error, "internal", 500, 13)
         else if gate.policy.Weak? then Renders(r.error, "weak_password", 400, 3)
         else Renders(r.error, "internal", 500, 13)
  {
  }

  /** An admitted create that fails changes no row; what is in its way first
      decides the error. */
  lemma AdmittedCreateFailsAs(w: World, req: CreateRequest, gate: Gate, newId: string, ttl: nat, io: IO)
    requires Admitted(req, gate) && !Readable(w, EmailKey(req.email), io)
    requires Create(w, req, gate, newId, ttl, io).1.Failure?
    ensures var (w', r) := Create(w, req, gate, newId, ttl, io);
      && w'.table == w.table
      && if io.loadFault.Some? then Renders(r.error, "internal", 500, 13)
         else if EmailTaken(w.table, req.email) then
           if io.storeFault.Some? then Renders(r.error, "internal", 500, 13)
           else Renders(r.error, "account_already_exists", 409, 6)
         else if io.writeFault.Some? then Renders(r.error, "internal", 500, 13)
         else if newId in w.table then Renders(r.error, "account_already_exists", 409, 6)
         else Renders(r.error, "internal", 500, 13)
  {
    if io.loadFault.Some? || EmailTaken(w.table, req.email) {
      CheckFailsAs(w, req, gate, newId, ttl, io);
    } else {
      InsertFailsAs(w, req, gate, newId, ttl, io);
    }
  }

  lemma CheckFailsAs(w: World, req: CreateRequest, gate: Gate, newId: string, ttl: nat, io: IO)
    requires Admitted(req, gate) && !Readable(w, EmailKey(req.email), io)
    requires io.loadFault.Some? || EmailTaken(w.table, req.email)
    ensures var (w', r) := Create(w, req, gate, newId, ttl, io);
      && w'.table == w.table && r.Failure?
      && if io.loadFault.Some? || io.storeFault.Some? then Renders(r.error, "internal", 500, 13)
         else Renders(r.error, "account_already_exists", 409, 6)
  {
    if io.loadFault.Some? {
      DriverFailuresRender(io.loadFault.value);
    } else if io.storeFault.Some? {
      DriverFailuresRender(io.storeFault.value);
    }
  }

  lemma InsertFailsAs(w: World, req: CreateRequest, gate: Gate, newId: string, ttl: nat, io: IO)
    requires Admitted(req, gate) && !Readable(w, EmailKey(req.email), io)
    requires io.loadFault.None? && !EmailTaken(w.table, req.email)
    requires Create(w, req, gate, newId, ttl, io).1.Failure?
    ensures var (w', r) := Create(w, req, gate, newId, ttl, io);
      && w'.table == w.table
      && if io.writeFault.None? && newId in w.table then Renders(r.error, "account_already_exists", 409, 6)
         else Renders(r.error, "internal", 500, 13)
  {
    SentinelsRender();
    if io.writeFault.Some? {
      DriverFailuresRender(io.writeFault.value);
    } else if io.commitFault.Some? {
      DriverFailuresRender(io.commitFault.value);
    }
  }

  /** The row a successful create adds and returns, field by field. */
  lemma CreateWritesRequest(w: World, req: CreateRequest, gate: Gate, newId: string, ttl: nat, io: IO)
    requires Create(w, req, gate, newId, ttl, io).1.Success?
    ensures var (w', r) := Create(w, req, gate, newId, ttl, io);
      var a := r.value;
      && w'.table == w.table[newId := a]
      && a.id == newId && a.email == req.email
      && a.firstName == req.firstName && a.lastName == req.lastName
      && gate.hashing.Hashed? && a.passwordHash == gate.hashing.hash
      && a.status == (if 1 <= req.status <= 4 then req.status else 1)
      && a.createdAt == w.cache.now && a.updatedAt == w.cache.now && a.deletedAt == None
  {
  }

  /** What an admitted create leaves in the cache: only its check stores, and only
      the row that has the email already. */
  lemma CreateCacheExact(w: World, req: CreateRequest, gate: Gate, newId: string, ttl: nat, io: IO)
    requires Admitted(req, gate)
    ensures var w' := Create(w, req, gate, newId, ttl, io).0;
      var key := EmailKey(req.email);
      if !Readable(w, key, io) && io.loadFault.None? && io.storeFault.None? && EmailTaken(w.table, req.email) then
        exists id :: id in w.table && w.table[id].email == req.email
          && w'.cache.entries == w.cache.entries[key := Entry(w.table[id], w.cache.now + io.loadPause + io.storePause + ttl)]
      else w'.cache.entries == w.cache.entries
  {
    var found := InnerGet(w.table, ByEmail(req.email), io.loadFault);
    CacheAsideOutcome(w.cache, EmailKey(req.email), found, ttl, ReadSide(io));
    assert found.Success? ==> found.value.id in w.table && w.table[found.value.id] == found.value;
  }

  // ---- get ----

  /** A get of an existing account, cached or not. */
  lemma GetSucceedsExactly(w: World, id: string, ttl: nat, io: IO)
    ensures var (w', r) := Get(w, id, ttl, io);
      && w'.table == w.table
      && (r.Success? <==>
            && id != ""
            && (Readable(w, IdKey(id), io) || (id in w.table && io.loadFault.None? && io.storeFault.None?)))
      && (r.Success? ==> r.value == if Readable(w, IdKey(id), io) then w.cache.entries[IdKey(id)].value else w.table[id])
  {
  }

  lemma GetFailsAs(w: World, id: string, ttl: nat, io: IO)
    ensures var r := Get(w, id, ttl, io).1;
      r.Failure? ==>
        && (Is(r.error, ERR_ACCOUNT_NOT_FOUND) <==>
              id != "" && !Readable(w, IdKey(id), io) && io.loadFault.None? && id !in w.table)
        && if id == "" then Renders(r.error, "invalid_request", 400, 3)
           else if io.loadFault.Some? then Renders(r.error, "internal", 500, 13)
           else if id !in w.table then Renders(r.error, "account_not_found", 404, 5)
           else Renders(r.error, "internal", 500, 13)
  {
    if io.loadFault.Some? { DriverFailuresRender(io.loadFault.value); }
    if io.storeFault.Some? { DriverFailuresRender(io.storeFault.value); }
    SentinelsRender();
  }

  lemma GetCacheExact(w: World, id: string, ttl: nat, io: IO)
    ensures var (w', r) := Get(w, id, ttl, io);
      w'.cache.entries ==
        if r.Success? && !Readable(w, IdKey(id), io)
        then w.cache.entries[IdKey(id) := Entry(w.table[id], w.cache.now + io.loadPause + io.storePause + ttl)]
        else w.cache.entries
  {
  }

  // ---- update ----

  /** The reload of an update is answered by what the eviction left in place. */
  predicate OldEntryRead(w: World, id: string, io: IO) {
    io.evictFault.Some? && Readable(w, IdKey(id), io)
  }

  predicate ValidUpdate(change: UpdateRequest) {
    change.id != "" && (change.status.Some? ==> 1 <= change.status.value <= 4)
  }

  lemma UpdateSucceedsExactly(w: World, change: UpdateRequest, ttl: nat, io: IO)
    ensures Update(w, change, ttl, io).1.Success? <==>
      && ValidUpdate(change) && change.id in w.table
      && io.writeFault.None? && io.commitFault.None?
      && (OldEntryRead(w, change.id, io) || (io.loadFault.None? && io.storeFault.None?))
  {
  }

  lemma UpdateFailsAs(w: World, change: UpdateRequest, ttl: nat, io: IO)
    requires Update(w, change, ttl, io).1.Failure?
    ensures var (w', r) := Update(w, change, ttl, io);
      && w'.table == w.table
      && (Is(r.error, ERR_ACCOUNT_NOT_FOUND) <==> ValidUpdate(change) && io.writeFault.None? && change.id !in w.table)
      && if change.id == "" then Renders(r.error, "invalid_request", 400, 3)
         else if !ValidUpdate(change) then Renders(r.error, "invalid_status", 400, 3)
         else if io.writeFault.None? && change.id !in w.table then Renders(r.error, "account_not_found", 404, 5)
         else Renders(r.error, "internal", 500, 13)
  {
    SentinelsRender();
    if ValidUpdate(change) && io.writeFault.None? && change.id in w.table {
      ReloadFailsAs(w, change, ttl, io);
    } else if io.writeFault.Some? {
      DriverFailuresRender(io.writeFault.value);
    }
  }

  lemma ReloadFailsAs(w: World, change: UpdateRequest, ttl: nat, io: IO)
    requires ValidUpdate(change) && io.writeFault.None? && change.id in w.table
    requires Update(w, change, ttl, io).1.Failure?
    ensures var (w', r) := Update(w, change, ttl, io);
      w'.table == w.table && !Is(r.error, ERR_ACCOUNT_NOT_FOUND) && Renders(r.error, "internal", 500, 13)
  {
    if OldEntryRead(w, change.id, io) {
      DriverFailuresRender(io.commitFault.value);
    } else if io.loadFault.Some? {
      DriverFailuresRender(io.loadFault.value);
    } else if io.storeFault.Some? {
      DriverFailuresRender(io.storeFault.value);
    } else {
      DriverFailuresRender(io.commitFault.value);
    }
  }

  /** `after` is `before` with the requested fields, at this time. */
  predicate Applies(change: UpdateRequest, now: Time, before: Account, after: Account) {
    && after.firstName == change.firstName.GetOr(before.firstName)
    && after.lastName == change.lastName.GetOr(before.lastName)
    && after.status == change.status.GetOr(before.status)
    && after.updatedAt == now
    && after.id == before.id && after.email == before.email && after.passwordHash == before.passwordHash
    && after.createdAt == before.createdAt && after.deletedAt == before.deletedAt
  }

  /** The row a successful update leaves, field by field, and its answer. */
  lemma UpdateWritesRequest(w: World, change: UpdateRequest, ttl: nat, io: IO)
    requires Update(w, change, ttl, io).1.Success?
    ensures var (w', r) := Update(w, change, ttl, io);
      && change.id in w.table && w'.table.Keys == w.table.Keys
      && (forall id :: id in w.table && id != change.id ==> w'.table[id] == w.table[id])
      && Applies(change, w.cache.now, w.table[change.id], w'.table[change.id])
      && r.value == if OldEntryRead(w, change.id, io) then w.cache.entries[IdKey(change.id)].value
                    else w'.table[change.id]
  {
  }

  /** What an update leaves in the cache, whether or not its transaction commits:
      nothing changes unless its write goes through and the reload misses. */
  lemma UpdateCacheKept(w: World, change: UpdateRequest, ttl: nat, io: IO)
    requires !ValidUpdate(change) || io.writeFault.Some? || change.id !in w.table || OldEntryRead(w, change.id, io)
    ensures Update(w, change, ttl, io).0.cache.entries == w.cache.entries
  {
  }

  /** What the eviction of an update leaves. */
  function EvictedEntries(w: World, id: string, io: IO): map<string, Entry<Account>> {
    if io.evictFault.Some? then w.cache.entries else w.cache.entries - {IdKey(id)}
  }

  /** Else the old entry is gone unless its eviction failed, and the patched row is
      stored unless the load or the store fails. */
  lemma UpdateCacheExact(w: World, change: UpdateRequest, ttl: nat, io: IO)
    requires ValidUpdate(change) && io.writeFault.None? && change.id in w.table && !OldEntryRead(w, change.id, io)
    ensures var entries := Update(w, change, ttl, io).0.cache.entries;
      if io.loadFault.Some? || io.storeFault.Some? then entries == EvictedEntries(w, change.id, io)
      else exists after: Account ::
        && Applies(change, w.cache.now, w.table[change.id], after)
        && entries == EvictedEntries(w, change.id, io)
             [IdKey(change.id) := Entry(after, w.cache.now + io.loadPause + io.storePause + ttl)]
  {
    var p := ParamsOf(change, w.cache.now);
    var after := PatchRow(w.table[change.id], p);
    ReloadStores(w, p, after, ttl, io);
    assert Update(w, change, ttl, io).0.cache.entries == UpdateBody(w.table, w.cache, p, ttl, io).cache.entries;
    assert Applies(change, w.cache.now, w.table[change.id], after);
  }

  lemma ReloadStores(w: World, p: UpdateParams, after: Account, ttl: nat, io: IO)
    requires io.writeFault.None? && p.id in w.table && !OldEntryRead(w, p.id, io) && after == PatchRow(w.table[p.id], p)
    ensures UpdateBody(w.table, w.cache, p, ttl, io).cache.entries ==
      if io.loadFault.Some? || io.storeFault.Some? then EvictedEntries(w, p.id, io)
      else EvictedEntries(w, p.id, io)[IdKey(p.id) := Entry(after, w.cache.now + io.loadPause + io.storePause + ttl)]
  {
    var view := w.table[p.id := after];
    assert InnerUpdate(w.table, p, io.writeFault) == Success(view);
    assert io.loadFault.None? ==> InnerGet(view, ById(p.id), io.loadFault) == Success(after);
  }

  // ---- delete ----

  lemma DeleteExact(w: World, id: string, io: IO)
    ensures var (w', r) := Delete(w, id, io);
      && (r.Success? <==> id != "" && id in w.table && io.writeFault.None? && io.commitFault.None?)
      && w'.table == (if r.Success? then w.table - {id} else w.table)
      && w'.cache.entries ==
           (if id != "" && id in w.table && io.writeFault.None? && io.evictFault.None? then w.cache.entries - {IdKey(id)}
            else w.cache.entries)
  {
  }

  lemma DeleteFailsAs(w: World, id: string, io: IO)
    ensures var r := Delete(w, id, io).1;
      r.Failure? ==>
        && (Is(r.error, ERR_ACCOUNT_NOT_FOUND) <==> id != "" && io.writeFault.None? && id !in w.table)
        && if id == "" then Renders(r.error, "invalid_request", 400, 3)
           else if io.writeFault.None? && id !in w.table then Renders(r.error, "account_not_found", 404, 5)
           else Renders(r.error, "internal", 500, 13)
  {
    if io.writeFault.Some? { DriverFailuresRender(io.writeFault.value); }
    if io.commitFault.Some? { DriverFailuresRender(io.commitFault.value); }
    SentinelsRender();
  }

  // ---- time ----

  /** How long each operation takes: the load on a miss, the store of what was
      loaded, and the end of the transaction. */
  lemma ClocksAdvance(w: World, id: string, ttl: nat, io: IO)
    ensures Get(w, id, ttl, io).0.cache.now == w.cache.now +
      if id == "" || Readable(w, IdKey(id), io) then 0
      else io.loadPause + if io.loadFault.None? && id in w.table then io.storePause else 0
    ensures Delete(w, id, io).0.cache.now == w.cache.now + if id == "" then 0 else io.commitPause
  {
  }

  // ---- errors ----

  /** A driver failure, raw or mapped by a repository, is an internal error. */
  lemma DriverFailuresRender(text: string)
    ensures var d := DriverFailure(text);
      && Renders(d, "internal", 500, 13) && Renders(ReadErr(d), "internal", 500, 13)
      && Renders(WriteErr(d), "internal", 500, 13) && Renders(Derive(ERR_INTERNAL, ByCause(d)), "internal", 500, 13)
      && !Is(d, ERR_ACCOUNT_NOT_FOUND) && !Is(ReadErr(d), ERR_ACCOUNT_NOT_FOUND)
      && !Is(WriteErr(d), ERR_ACCOUNT_NOT_FOUND) && !Is(Derive(ERR_INTERNAL, ByCause(d)), ERR_ACCOUNT_NOT_FOUND)
  {
    var d := DriverFailure(text);
    ForeignMatchesNoSentinel(Plain("driver failure"), ERR_INTERNAL);
    assert !HasStatus(Plain("driver failure"));
    RepositoryClassification(ReadFault(d));
    RepositoryClassification(WriteFault(d));
    RepositoryClassification(CacheFault(d));
    RepositoryClassification(OperationFault(text, Plain("driver failure")));
  }

  lemma SentinelsRender()
    ensures var missing := ReadErr(ERR_NO_ROWS);
      Is(missing, ERR_ACCOUNT_NOT_FOUND) && Renders(missing, "account_not_found", 404, 5)
    ensures Is(ERR_ACCOUNT_NOT_FOUND, ERR_ACCOUNT_NOT_FOUND) && Renders(ERR_ACCOUNT_NOT_FOUND, "account_not_found", 404, 5)
    ensures Renders(WriteErr(ERR_UNIQUE_VIOLATION), "account_already_exists", 409, 6)
    ensures !Is(ERR_ID_REQUIRED, ERR_ACCOUNT_NOT_FOUND) && !Is(ERR_INVALID_STATUS, ERR_ACCOUNT_NOT_FOUND)
  {
  }
}
