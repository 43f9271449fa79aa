/** The database with its ambient transaction, the caching decorator and the use
    case as objects. Each operation leaves the state AccountOps says. */
module Accounts {
  import opened Domain
  import opened AppErrors
  import opened AccountTable
  import opened Cache
  import Ops = AccountOps
  import Runs = AccountRuns

  /** The inner repository together with its transaction manager: statements run
      on the transaction's view if one is open, else on the committed table. */
  class Database {
    var committed: Table
    var tx: Option<Table>

    constructor (table: Table)
      ensures committed == table && tx == None
    {
      committed, tx := table, None;
    }

    function View(): Table
      reads this
    {
      tx.GetOr(committed)
    }

    method Begin()
      requires tx == None
      modifies this
      ensures committed == old(committed) && tx == Some(old(committed))
    {
      tx := Some(committed);
    }

    method Commit(fault: Option<string>) returns (e: Option<Err>)
      requires tx.Some?
      modifies this
      ensures tx == None && e == Ops.Raised(fault)
      ensures committed == if fault.Some? then old(committed) else old(tx).value
    {
      if fault.None? {
        committed := tx.value;
      }
      tx := None;
      e := Ops.Raised(fault);
    }

    method Rollback()
      modifies this
      ensures tx == None && committed == old(committed)
    {
      tx := None;
    }

    method Write(view: Table)
      modifies this
      ensures View() == view
      ensures if old(tx).Some? then tx.Some? && committed == old(committed) else tx == None
    {
      if tx.Some? {
        tx := Some(view);
      } else {
        committed := view;
      }
    }

    method Create(a: Account, fault: Option<string>) returns (r: Result<string, Err>)
      modifies this
      ensures match Ops.InnerInsert(old(View()), a, fault)
              case Success(view) => View() == view && r == Success(a.id)
              case Failure(e) => View() == old(View()) && r == Failure(e)
      ensures old(tx).Some? ==> tx.Some? && committed == old(committed)
      ensures old(tx).None? ==> tx.None?
    {
      if fault.Some? {
        return Failure(WriteErr(Ops.DriverFailure(fault.value)));
      }
      if a.id in View() || EmailTaken(View(), a.email) {
        return Failure(WriteErr(ERR_UNIQUE_VIOLATION));
      }
      Write(View()[a.id := a]);
      r := Success(a.id);
    }

    method Update(p: UpdateParams, fault: Option<string>) returns (e: Option<Err>)
      modifies this
      ensures match Ops.InnerUpdate(old(View()), p, fault)
              case Success(view) => View() == view && e == None
              case Failure(err) => View() == old(View()) && e == Some(err)
      ensures old(tx).Some? ==> tx.Some? && committed == old(committed)
      ensures old(tx).None? ==> tx.None?
    {
      if fault.Some? {
        return Some(WriteErr(Ops.DriverFailure(fault.value)));
      }
      if p.id !in View() {
        return Some(ERR_ACCOUNT_NOT_FOUND);
      }
      Write(View()[p.id := PatchRow(View()[p.id], p)]);
      e := None;
    }

    method Delete(id: string, fault: Option<string>) returns (e: Option<Err>)
      modifies this
      ensures match Ops.InnerDelete(old(View()), id, fault)
              case Success(view) => View() == view && e == None
              case Failure(err) => View() == old(View()) && e == Some(err)
      ensures old(tx).Some? ==> tx.Some? && committed == old(committed)
      ensures old(tx).None? ==> tx.None?
    {
      if fault.Some? {
        return Some(Derive(ERR_INTERNAL, ByCause(Ops.DriverFailure(fault.value))));
      }
      if id !in View() {
        return Some(ERR_ACCOUNT_NOT_FOUND);
      }
      Write(View() - {id});
      e := None;
    }
  }

  /** The read-through decorator. Reads go through the cache under the request's
      key; writes go to the inner repository and then evict the id key only. */
  class CachedRepository {
    const inner: Database
    const cache: Manager<Account>
    const ttl: nat

    constructor (inner: Database, cache: Manager<Account>, ttl: nat)
      ensures this.inner == inner && this.cache == cache && this.ttl == ttl
    {
      this.inner, this.cache, this.ttl := inner, cache, ttl;
    }

    method GetByID(id: string, io: Ops.IO) returns (r: Result<Account, Err>)
      modifies cache
      ensures (cache.State(), r) == Ops.CachedGet(inner.View(), old(cache.State()), ById(id), ttl, io)
    {
      var view := inner.View();
      r := cache.GetOnce(IdKey(id), () => Ops.InnerGet(view, ById(id), io.loadFault), ttl, Ops.ReadSide(io));
    }

    method GetByEmail(email: string, io: Ops.IO) returns (r: Result<Account, Err>)
      modifies cache
      ensures (cache.State(), r) == Ops.CachedGet(inner.View(), old(cache.State()), ByEmail(email), ttl, io)
    {
      var view := inner.View();
      r := cache.GetOnce(EmailKey(email), () => Ops.InnerGet(view, ByEmail(email), io.loadFault), ttl, Ops.ReadSide(io));
    }

    method Create(a: Account, io: Ops.IO) returns (r: Result<string, Err>)
      modifies inner
      ensures match Ops.InnerInsert(old(inner.View()), a, io.writeFault)
              case Success(view) => inner.View() == view && r == Success(a.id)
              case Failure(e) => inner.View() == old(inner.View()) && r == Failure(e)
      ensures old(inner.tx).Some? ==> inner.tx.Some? && inner.committed == old(inner.committed)
    {
      r := inner.Create(a, io.writeFault);
    }

    method Update(p: UpdateParams, io: Ops.IO) returns (e: Option<Err>)
      modifies inner, cache
      ensures match Ops.InnerUpdate(old(inner.View()), p, io.writeFault)
              case Success(view) =>
                && e == None && inner.View() == view
                && cache.State() == Ops.Invalidate(old(cache.State()), p.id, io.evictFault)
              case Failure(err) =>
                && e == Some(err) && inner.View() == old(inner.View())
                && cache.State() == old(cache.State())
      ensures old(inner.tx).Some? ==> inner.tx.Some? && inner.committed == old(inner.committed)
    {
      e := inner.Update(p, io.writeFault);
      if e.None? {
        Invalidate(IdKey(p.id), io);
      }
    }

    method Delete(id: string, io: Ops.IO) returns (e: Option<Err>)
      modifies inner, cache
      ensures match Ops.InnerDelete(old(inner.View()), id, io.writeFault)
              case Success(view) =>
                && e == None && inner.View() == view
                && cache.State() == Ops.Invalidate(old(cache.State()), id, io.evictFault)
              case Failure(err) =>
                && e == Some(err) && inner.View() == old(inner.View())
                && cache.State() == old(cache.State())
      ensures old(inner.tx).Some? ==> inner.tx.Some? && inner.committed == old(inner.committed)
    {
      e := inner.Delete(id, io.writeFault);
      if e.None? {
        Invalidate(IdKey(id), io);
      }
    }

    /** Best effort: a failure is logged and swallowed. */
    method Invalidate(key: string, io: Ops.IO)
      modifies cache
      ensures cache.State() == if io.evictFault.Some? then old(cache.State()) else old(cache.State()).Evict(key)
    {
      var _ := cache.Delete(key, Ops.Raised(io.evictFault));
    }
  }

  class UseCase {
    const repo: CachedRepository

    constructor (repo: CachedRepository)
      ensures this.repo == repo
    {
      this.repo := repo;
    }

    function World(): Ops.World
      reads this, repo, repo.inner, repo.cache
    {
      Ops.World(repo.inner.committed, repo.cache.State())
    }

    /** What an operation started now will do to the agreement of the cache. */
    lemma KeepsCoherence(op: Runs.Op)
      ensures Runs.Coherent(World()) ==>
        (Runs.Coherent(Runs.Step(World(), op, repo.ttl)) <==> !Runs.LeavesStaleEntry(World(), op, repo.ttl))
    {
      if Runs.Coherent(World()) {
        Runs.StepCoherenceExact(World(), op, repo.ttl);
      }
    }

    /** Ends the transaction a body ran in. */
    method EndTx<T>(body: Result<T, Err>, io: Ops.IO) returns (r: Result<T, Err>)
      requires repo.inner.tx.Some?
      modifies repo.inner, repo.cache
      ensures repo.inner.tx == None
      ensures (World(), r) == Ops.Transact(old(repo.inner.committed),
        Ops.Body(old(repo.inner.tx).value, old(repo.cache.State()), body), io)
    {
      repo.cache.Wait(io.commitPause);
      r := body;
      if body.Failure? {
        repo.inner.Rollback();
      } else {
        var e := repo.inner.Commit(io.commitFault);
        if e.Some? {
          r := Failure(e.value);
        }
      }
    }

    /** None when no account has the email. */
    method EnsureEmailFree(email: string, io: Ops.IO) returns (e: Option<Err>)
      modifies repo.cache
      ensures var (cache, r) := Ops.CachedGet(repo.inner.View(), old(repo.cache.State()), ByEmail(email), repo.ttl, io);
        repo.cache.State() == cache && e == Ops.EmailVerdict(r, email)
    {
      var r := repo.GetByEmail(email, io);
      if r.Success? {
        e := Some(Derive(ERR_ACCOUNT_ALREADY_EXISTS, ByMetadata("email", email)));
      } else if Is(r.error, ERR_ACCOUNT_NOT_FOUND) {
        e := None;
      } else {
        e := Some(r.error);
      }
    }

    /** The checks before the transaction; the password hash on success. */
    method Admit(req: Ops.CreateRequest, gate: Ops.Gate) returns (r: Result<string, Err>)
      ensures r == Ops.Admit(req, gate)
      ensures r.Success? ==> '@' in req.email && gate.limit.Allowed? && gate.policy.Strong?
    {
      if gate.limit.LimitFault? {
        return Failure(Derive(ERR_INTERNAL, ByCause(Ops.DriverFailure(gate.limit.text))));
      }
      if gate.limit.Denied? {
        return Failure(Derive(ERR_TOO_MANY_REQUESTS, ByMetadata("retry_after", gate.limit.retryAfter)));
      }
      if req.email == "" || '@' !in req.email {
        return Failure(Derive(ERR_INVALID_EMAIL, ByMetadata("email", req.email)));
      }
      if gate.policy.PolicyFault? {
        return Failure(Derive(ERR_INTERNAL, ByCause(Ops.DriverFailure(gate.policy.text))));
      }
      if gate.policy.Weak? {
        return Failure(ERR_WEAK_PASSWORD);
      }
      if gate.hashing.HashFault? {
        return Failure(Derive(ERR_INTERNAL, ByCause(Ops.DriverFailure(gate.hashing.text))));
      }
      r := Success(gate.hashing.hash);
    }

    method Create(req: Ops.CreateRequest, gate: Ops.Gate, newId: string, io: Ops.IO)
      returns (r: Result<Account, Err>)
      requires repo.inner.tx == None
      modifies repo.inner, repo.cache
      ensures repo.inner.tx == None
      ensures Runs.Coherent(old(World())) ==> Runs.Coherent(World())
      ensures (World(), r) == Ops.Create(old(World()), req, gate, newId, repo.ttl, io)
    {
      KeepsCoherence(Runs.Creating(req, gate, newId, io));
      var admitted := Admit(req, gate);
      if admitted.Failure? {
        return Failure(admitted.error);
      }
      var account := Ops.NewAccount(req, admitted.value, newId, repo.cache.now);
      repo.inner.Begin();
      var body: Result<Account, Err>;
      var taken := EnsureEmailFree(account.email, io);
      if taken.Some? {
        body := Failure(taken.value);
      } else {
        var id := repo.Create(account, io);
        if id.Failure? {
          body := Failure(id.error);
        } else {
          account := account.(id := id.value);
          body := Success(account);
        }
      }
      r := EndTx(body, io);
    }

    method Get(id: string, io: Ops.IO) returns (r: Result<Account, Err>)
      requires repo.inner.tx == None
      modifies repo.cache
      ensures Runs.Coherent(old(World())) ==> Runs.Coherent(World())
      ensures (World(), r) == Ops.Get(old(World()), id, repo.ttl, io)
    {
      KeepsCoherence(Runs.Getting(id, io));
      if id == "" {
        return Failure(Ops.ERR_ID_REQUIRED);
      }
      r := repo.GetByID(id, io);
    }

    method Update(req: Ops.UpdateRequest, io: Ops.IO) returns (r: Result<Account, Err>)
      requires repo.inner.tx == None
      modifies repo.inner, repo.cache
      ensures repo.inner.tx == None
      ensures (World(), r) == Ops.Update(old(World()), req, repo.ttl, io)
      ensures Runs.Coherent(old(World())) ==>
        (Runs.Coherent(World()) <==> !Runs.LeavesStaleEntry(old(World()), Runs.Updating(req, io), repo.ttl))
    {
      KeepsCoherence(Runs.Updating(req, io));
      var refused := Ops.UpdateRefused(req);
      if refused.Some? {
        return Failure(refused.value);
      }
      repo.inner.Begin();
      var params := Ops.ParamsOf(req, repo.cache.now);
      var body: Result<Account, Err>;
      var e := repo.Update(params, io);
      if e.Some? {
        body := Failure(e.value);
      } else {
        body := repo.GetByID(req.id, io);
      }
      r := EndTx(body, io);
    }

    method Delete(id: string, io: Ops.IO) returns (r: Result<(), Err>)
      requires repo.inner.tx == None
      modifies repo.inner, repo.cache
      ensures repo.inner.tx == None
      ensures (World(), r) == Ops.Delete(old(World()), id, io)
      ensures Runs.Coherent(old(World())) ==>
        (Runs.Coherent(World()) <==> !Runs.LeavesStaleEntry(old(World()), Runs.Deleting(id, io), repo.ttl))
    {
      KeepsCoherence(Runs.Deleting(id, io));
      if id == "" {
        return Failure(Ops.ERR_ID_REQUIRED);
      }
      repo.inner.Begin();
      var e := repo.Delete(id, io);
      r := EndTx(if e.Some? then Failure(e.value) else Success(()), io);
    }
  }
}
