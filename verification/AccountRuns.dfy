/** What runs of use-case operations, one at a time, guarantee: which cache
    entries agree with the table, what each operation returns and changes, and
    where every cached email row comes from. */
module AccountRuns {
  import opened Domain
  import opened AppErrors
  import opened AccountTable
  import opened Cache
  import opened AccountOps

  datatype Op =
    | Getting(id: string, io: IO)
    | Creating(req: CreateRequest, gate: Gate, newId: string, io: IO)
    | Updating(change: UpdateRequest, io: IO)
    | Deleting(id: string, io: IO)
    | Waiting(pause: nat)

  function Step(w: World, op: Op, ttl: nat): World {
    match op
    case Getting(id, io) => Get(w, id, ttl, io).0
    case Creating(req, gate, newId, io) => Create(w, req, gate, newId, ttl, io).0
    case Updating(change, io) => Update(w, change, ttl, io).0
    case Deleting(id, io) => Delete(w, id, io).0
    case Waiting(pause) => w.(cache := w.cache.Advance(pause))
  }

  /** The worlds between the operations of a run, the first one included. */
  function Trace(w: World, ops: seq<Op>, ttl: nat): (tr: seq<World>)
    ensures |tr| == |ops| + 1
    decreases |ops|
  {
    if ops == [] then [w]
    else
      var n := |ops| - 1;
      var before := Trace(w, ops[..n], ttl);
      before + [Step(before[n], ops[n], ttl)]
  }

  function Final(w: World, ops: seq<Op>, ttl: nat): World {
    Trace(w, ops, ttl)[|ops|]
  }

  // ---- agreement of the id entries ----

  predicate Agrees(w: World, id: string) {
    w.cache.Live(IdKey(id)) ==> id in w.table && w.cache.entries[IdKey(id)].value == w.table[id]
  }

  /** Every live id entry is the committed row; an absent id has none. */
  ghost predicate Coherent(w: World) {
    forall id :: Agrees(w, id)
  }

  /** The reload of an update is answered by the entry it failed to evict. */
  predicate HitsOldEntry(w: World, id: string, io: IO) {
    io.evictFault.Some? && !io.lookupFails && w.cache.Live(IdKey(id))
  }

  /** The operation leaves a live id entry that is not the committed row. Either
      an eviction failed and the write committed over a live entry, or the commit
      failed after the reload had cached the uncommitted row. */
  predicate LeavesStaleEntry(w: World, op: Op, ttl: nat) {
    match op
    case Updating(change, io) =>
      && UpdateRefused(change).None? && change.id in w.table && io.writeFault.None?
      && PatchRow(w.table[change.id], ParamsOf(change, w.cache.now)) != w.table[change.id]
      && (if HitsOldEntry(w, change.id, io) then
            io.commitFault.None? && w.cache.Advance(io.commitPause).Live(IdKey(change.id))
          else
            io.loadFault.None? && io.storeFault.None? && io.commitFault.Some? && io.commitPause < ttl)
    case Deleting(id, io) =>
      && id != "" && id in w.table && io.writeFault.None? && io.evictFault.Some?
      && io.commitFault.None? && w.cache.Advance(io.commitPause).Live(IdKey(id))
    case _ => false
  }

  // ---- which key an operation can touch ----

  /** The one cache key an operation may store under or evict. */
  function TouchedKey(op: Op): string {
    match op
    case Getting(id, _) => IdKey(id)
    case Creating(req, _, _, _) => EmailKey(req.email)
    case Updating(change, _) => IdKey(change.id)
    case Deleting(id, _) => IdKey(id)
    case Waiting(_) => ""
  }

  /** Apart from `key` the cache is as it was, and its clock has not gone back. */
  ghost predicate OnlyTouches(s: Store<Account>, s': Store<Account>, key: string) {
    && s.now <= s'.now
    && forall k :: k != key ==> SameEntry(s, s', k)
  }

  lemma CreateTouches(w: World, req: CreateRequest, gate: Gate, newId: string, ttl: nat, io: IO)
    ensures OnlyTouches(w.cache, Create(w, req, gate, newId, ttl, io).0.cache, EmailKey(req.email))
  {
    if Admit(req, gate).Success? {
      CacheAsideOutcome(w.cache, EmailKey(req.email), InnerGet(w.table, ByEmail(req.email), io.loadFault), ttl, ReadSide(io));
    }
  }

  lemma UpdateTouches(w: World, change: UpdateRequest, ttl: nat, io: IO)
    ensures OnlyTouches(w.cache, Update(w, change, ttl, io).0.cache, IdKey(change.id))
  {
    var p := ParamsOf(change, w.cache.now);
    match InnerUpdate(w.table, p, io.writeFault)
    case Failure(_) =>
    case Success(view) =>
      CacheAsideOutcome(Invalidate(w.cache, p.id, io.evictFault), IdKey(p.id),
                        InnerGet(view, ById(p.id), io.loadFault), ttl, ReadSide(io));
  }

  lemma StepTouches(w: World, op: Op, ttl: nat)
    ensures OnlyTouches(w.cache, Step(w, op, ttl).cache, TouchedKey(op))
  {
    match op
    case Getting(id, io) =>
      CacheAsideOutcome(w.cache, IdKey(id), InnerGet(w.table, ById(id), io.loadFault), ttl, ReadSide(io));
    case Creating(req, gate, newId, io) => CreateTouches(w, req, gate, newId, ttl, io);
    case Updating(change, io) => UpdateTouches(w, change, ttl, io);
    case Deleting(id, io) =>
    case Waiting(_) =>
  }

  /** Between operations only time passes. */
  lemma WaitingPassesTime(w: World, pause: nat, ttl: nat)
    ensures var w' := Step(w, Waiting(pause), ttl);
      && w'.table == w.table && w'.cache.entries == w.cache.entries && w'.cache.now == w.cache.now + pause
      && forall key :: w'.cache.Live(key) <==> w.cache.Live(key) && w.cache.now + pause < w.cache.entries[key].expiresAt
  {
  }

  /** Rows and entries of other ids being untouched, coherence after an operation
      on `id` is agreement at `id`. */
  lemma CoherenceIsLocal(w: World, w': World, key: string, id: string)
    requires Coherent(w) && OnlyTouches(w.cache, w'.cache, key)
    requires key == IdKey(id) || (exists email :: key == EmailKey(email)) || key == ""
    requires forall other :: other != id && other in w.table ==> other in w'.table && w'.table[other] == w.table[other]
    ensures Coherent(w') <==> Agrees(w', id)
  {
    forall other | other != id ensures Agrees(w', other) {
      assert Agrees(w, other);
      IdKeyInjective(id, other);
      if email :| key == EmailKey(email) { KeyFamiliesDisjoint(other, email); }
      assert SameEntry(w.cache, w'.cache, IdKey(other));
    }
  }

  lemma GetAgrees(w: World, id: string, ttl: nat, io: IO)
    requires Agrees(w, id)
    ensures Agrees(Get(w, id, ttl, io).0, id)
  {
  }

  lemma CreateAgrees(w: World, req: CreateRequest, gate: Gate, newId: string, ttl: nat, io: IO)
    requires Agrees(w, newId)
    ensures Agrees(Create(w, req, gate, newId, ttl, io).0, newId)
  {
    CreateTouches(w, req, gate, newId, ttl, io);
    KeyFamiliesDisjoint(newId, req.email);
    CreateAllOrNothing(w, req, gate, newId, ttl, io);
    assert SameEntry(w.cache, Create(w, req, gate, newId, ttl, io).0.cache, IdKey(newId));
  }

  lemma UpdateAgreesExact(w: World, change: UpdateRequest, ttl: nat, io: IO)
    requires Agrees(w, change.id)
    ensures Agrees(Update(w, change, ttl, io).0, change.id) <==> !LeavesStaleEntry(w, Updating(change, io), ttl)
  {
    var p := ParamsOf(change, w.cache.now);
    if UpdateRefused(change).None? && InnerUpdate(w.table, p, io.writeFault).Success? {
      var view := InnerUpdate(w.table, p, io.writeFault).value;
      var evicted := Invalidate(w.cache, p.id, io.evictFault);
      var body := UpdateBody(w.table, w.cache, p, ttl, io);
      if HitsOldEntry(w, p.id, io) {
        assert body == Body(view, w.cache, Success(w.table[p.id]));
      } else {
        CacheAsideOutcome(evicted, IdKey(p.id), InnerGet(view, ById(p.id), io.loadFault), ttl, ReadSide(io));
        assert body.result.Success? ==> body.result.value == view[p.id];
      }
    }
  }

  lemma DeleteAgreesExact(w: World, id: string, ttl: nat, io: IO)
    requires Agrees(w, id)
    ensures Agrees(Delete(w, id, io).0, id) <==> !LeavesStaleEntry(w, Deleting(id, io), ttl)
  {
  }

  /** One operation on a coherent world keeps it coherent exactly when it is not
      one of the two stale shapes, whatever faults it meets. */
  lemma StepCoherenceExact(w: World, op: Op, ttl: nat)
    requires Coherent(w)
    ensures Coherent(Step(w, op, ttl)) <==> !LeavesStaleEntry(w, op, ttl)
  {
    var w' := Step(w, op, ttl);
    StepTouches(w, op, ttl);
    match op
    case Getting(id, io) =>
      assert Agrees(w, id);
      GetAgrees(w, id, ttl, io);
      CoherenceIsLocal(w, w', IdKey(id), id);
    case Creating(req, gate, newId, io) =>
      assert Agrees(w, newId);
      CreateAgrees(w, req, gate, newId, ttl, io);
      CreateAllOrNothing(w, req, gate, newId, ttl, io);
      CoherenceIsLocal(w, w', EmailKey(req.email), newId);
    case Updating(change, io) =>
      assert Agrees(w, change.id);
      UpdateAgreesExact(w, change, ttl, io);
      UpdateAllOrNothing(w, change, ttl, io);
      CoherenceIsLocal(w, w', IdKey(change.id), change.id);
    case Deleting(id, io) =>
      assert Agrees(w, id);
      DeleteAgreesExact(w, id, ttl, io);
      DeleteAllOrNothing(w, id, io);
      CoherenceIsLocal(w, w', IdKey(id), id);
    case Waiting(pause) =>
      assert Agrees(w, "");
      CoherenceIsLocal(w, w', "", "");
  }

  ghost predicate AlwaysCoherent(tr: seq<World>) {
    forall i :: 0 <= i < |tr| ==> Coherent(tr[i])
  }

  predicate NeverStale(tr: seq<World>, ops: seq<Op>, ttl: nat)
    requires |tr| == |ops| + 1
  {
    forall i :: 0 <= i < |ops| ==> !LeavesStaleEntry(tr[i], ops[i], ttl)
  }

  /** Over a whole run, whatever fails: the id entries agree with the table
      throughout exactly when no operation of it is one of the stale shapes. */
  lemma {:induction false} RunCoherenceExact(w: World, ops: seq<Op>, ttl: nat)
    requires w.cache.entries == map[]
    ensures AlwaysCoherent(Trace(w, ops, ttl)) <==> NeverStale(Trace(w, ops, ttl), ops, ttl)
    decreases |ops|
  {
    if ops != [] {
      var n := |ops| - 1;
      var before := Trace(w, ops[..n], ttl);
      var next := Step(before[n], ops[n], ttl);
      RunCoherenceExact(w, ops[..n], ttl);
      assert ops[..n] + [ops[n]] == ops;
      RunCoherenceStep(before, ops[..n], ops[n], ttl);
      assert Trace(w, ops, ttl) == before + [next];
    }
  }

  lemma RunCoherenceStep(tr: seq<World>, ops: seq<Op>, op: Op, ttl: nat)
    requires |tr| == |ops| + 1 && (AlwaysCoherent(tr) <==> NeverStale(tr, ops, ttl))
    ensures var all := tr + [Step(tr[|ops|], op, ttl)];
      AlwaysCoherent(all) <==> NeverStale(all, ops + [op], ttl)
  {
    var last := tr[|ops|];
    AlwaysCoherentSnoc(tr, Step(last, op, ttl));
    NeverStaleSnoc(tr, Step(last, op, ttl), ops, op, ttl);
    if AlwaysCoherent(tr) {
      StepCoherenceExact(last, op, ttl);
    }
  }

  lemma AlwaysCoherentSnoc(tr: seq<World>, w: World)
    requires tr != []
    ensures AlwaysCoherent(tr + [w]) <==> AlwaysCoherent(tr) && Coherent(w)
    ensures AlwaysCoherent(tr) ==> Coherent(tr[|tr| - 1])
  {
    var all := tr + [w];
    assert all[|tr|] == w;
    assert forall i :: 0 <= i < |tr| ==> all[i] == tr[i];
    if AlwaysCoherent(all) {
      assert Coherent(all[|tr|]);
      forall i | 0 <= i < |tr| ensures Coherent(tr[i]) { assert Coherent(all[i]); }
    }
  }

  lemma NeverStaleSnoc(tr: seq<World>, w: World, ops: seq<Op>, op: Op, ttl: nat)
    requires |tr| == |ops| + 1
    ensures NeverStale(tr + [w], ops + [op], ttl) <==>
      NeverStale(tr, ops, ttl) && !LeavesStaleEntry(tr[|ops|], op, ttl)
  {
    var n, all, allOps := |ops|, tr + [w], ops + [op];
    assert all[n] == tr[n] && allOps[n] == op;
    assert forall i :: 0 <= i < n ==> all[i] == tr[i] && allOps[i] == ops[i];
  }

  /** Evictions succeed, and so does the commit of an update. */
  predicate Sound(op: Op) {
    match op
    case Updating(_, io) => io.evictFault.None? && io.commitFault.None?
    case Deleting(_, io) => io.evictFault.None?
    case _ => true
  }

  /** So runs with working evictions and update commits stay coherent. */
  lemma SoundRunIsCoherent(w: World, ops: seq<Op>, ttl: nat)
    requires w.cache.entries == map[]
    requires forall op :: op in ops ==> Sound(op)
    ensures Coherent(Final(w, ops, ttl))
  {
    var tr := Trace(w, ops, ttl);
    forall i | 0 <= i < |ops| ensures !LeavesStaleEntry(tr[i], ops[i], ttl) {
      assert ops[i] in ops;
    }
    RunCoherenceExact(w, ops, ttl);
    assert AlwaysCoherent(tr);
  }

  /** A get by id after any such run returns what the inner repository would, or
      the error of the cache store. */
  lemma CachedGetIsTransparent(w: World, ops: seq<Op>, id: string, ttl: nat, io: IO)
    requires w.cache.entries == map[] && io.loadFault.None?
    requires forall op :: op in ops ==> Sound(op)
    ensures var v := Final(w, ops, ttl);
      var r := CachedGet(v.table, v.cache, ById(id), ttl, io).1;
      || r == InnerGet(v.table, ById(id), None)
      || (io.storeFault.Some? && r == Failure(DriverFailure(io.storeFault.value)))
  {
    SoundRunIsCoherent(w, ops, ttl);
    assert Agrees(Final(w, ops, ttl), id);
  }

  // ---- what a write changes and returns ----

  /** A failing create changes no row, a successful one adds exactly the account
      it returns under an id and an exact email that were free. */
  lemma CreateAllOrNothing(w: World, req: CreateRequest, gate: Gate, newId: string, ttl: nat, io: IO)
    ensures var (w', r) := Create(w, req, gate, newId, ttl, io);
      match r
      case Failure(_) => w'.table == w.table
      case Success(a) =>
        && newId !in w.table && !EmailTaken(w.table, req.email)
        && w'.table == w.table[newId := a]
        && a.email == req.email && a.id == newId && ValidStatus(a.status)
  {
  }

  /** The committed table after an update: unchanged on every failure, a failing
      reload after the patch included; else the one row patched. */
  lemma UpdateAllOrNothing(w: World, change: UpdateRequest, ttl: nat, io: IO)
    ensures var (w', r) := Update(w, change, ttl, io);
      match r
      case Failure(_) => w'.table == w.table
      case Success(_) =>
        && change.id in w.table
        && w'.table == w.table[change.id := PatchRow(w.table[change.id], ParamsOf(change, w.cache.now))]
  {
  }

  lemma DeleteAllOrNothing(w: World, id: string, io: IO)
    ensures var (w', r) := Delete(w, id, io);
      match r
      case Failure(_) => w'.table == w.table
      case Success(_) => id in w.table && w'.table == w.table - {id}
  {
  }

  /** What a successful update returns, whatever was cached before: the previous
      row patched, unless the eviction failed over a live entry that the reload
      then finds; in that case exactly that entry. */
  lemma UpdateReturns(w: World, change: UpdateRequest, ttl: nat, io: IO)
    requires Update(w, change, ttl, io).1.Success?
    ensures var r := Update(w, change, ttl, io).1.value;
      && change.id in w.table
      && r == if HitsOldEntry(w, change.id, io) then w.cache.entries[IdKey(change.id)].value
              else PatchRow(w.table[change.id], ParamsOf(change, w.cache.now))
  {
  }

  /** With the eviction done, an update is seen by the next get, for as long as
      nothing else runs in between. */
  lemma UpdateThenGet(w: World, change: UpdateRequest, ttl: nat, io: IO, pause: nat, read: IO)
    requires io.evictFault.None?
    requires Update(w, change, ttl, io).1.Success?
    requires read.loadFault.None? && read.storeFault.None?
    ensures var (w', r) := Update(w, change, ttl, io);
      Get(World(w'.table, w'.cache.Advance(pause)), change.id, ttl, read).1 == r
  {
  }

  // ---- duplicate emails ----

  /** The duplicate check decides by the entry under the lower-cased email if it
      can read a live one, and else by an exact look at the table. */
  lemma DuplicateCheckExact(w: World, email: string, ttl: nat, io: IO)
    ensures var verdict := EmailVerdict(CachedGet(w.table, w.cache, ByEmail(email), ttl, io).1, email);
      var hit := !io.lookupFails && w.cache.Live(EmailKey(email));
      && (verdict.None? <==> !hit && io.loadFault.None? && !EmailTaken(w.table, email))
      && (verdict.Some? && Is(verdict.value, ERR_ACCOUNT_ALREADY_EXISTS) <==>
            hit || (io.loadFault.None? && io.storeFault.None? && EmailTaken(w.table, email)))
  {
    FaultsAreOpaque("");
    if io.loadFault.Some? { FaultsAreOpaque(io.loadFault.value); }
    if io.storeFault.Some? { FaultsAreOpaque(io.storeFault.value); }
    CacheAsideOutcome(w.cache, EmailKey(email), InnerGet(w.table, ByEmail(email), io.loadFault), ttl, ReadSide(io));
  }

  predicate NoSentinel(e: Err) {
    !Is(e, ERR_ACCOUNT_NOT_FOUND) && !Is(e, ERR_ACCOUNT_ALREADY_EXISTS)
  }

  /** A driver failure, raw or mapped by a repository, is no account sentinel. */
  lemma FaultsAreOpaque(text: string)
    ensures NoSentinel(DriverFailure(text))
    ensures NoSentinel(ReadErr(DriverFailure(text))) && NoSentinel(WriteErr(DriverFailure(text)))
    ensures Is(ReadErr(ERR_NO_ROWS), ERR_ACCOUNT_NOT_FOUND) && !Is(ReadErr(ERR_NO_ROWS), ERR_ACCOUNT_ALREADY_EXISTS)
    ensures Is(WriteErr(ERR_UNIQUE_VIOLATION), ERR_ACCOUNT_ALREADY_EXISTS)
  {
    var d := DriverFailure(text);
    RepositoryClassification(ReadFault(d));
    RepositoryClassification(WriteFault(d));
    RepositoryClassification(CacheFault(d));
    RepositoryClassification(ReadFault(ERR_NO_ROWS));
    RepositoryClassification(WriteFault(ERR_UNIQUE_VIOLATION));
  }

  /** Letter case is not guarded by the table: with nothing cached under the key
      and no fault, an email that differs from a stored one only in case is
      accepted. */
  lemma CaseVariantAccepted(w: World, req: CreateRequest, gate: Gate, newId: string, id: string, ttl: nat, io: IO)
    requires id in w.table && SameUpToCase(w.table[id].email, req.email)
    requires newId !in w.table && !EmailTaken(w.table, req.email) && !w.cache.Live(EmailKey(req.email))
    requires Admit(req, gate).Success?
    requires io.loadFault.None? && io.writeFault.None? && io.commitFault.None?
    ensures var (w', r) := Create(w, req, gate, newId, ttl, io);
      r.Success? && id != newId && id in w'.table && newId in w'.table
      && SameUpToCase(w'.table[id].email, w'.table[newId].email)
  {
  }

  /** No eviction is needed by a create: from a coherent world, once the check
      has passed on a working lookup, no live entry exists under the email key
      nor, for an id not in the table, under the id key; and none appears. */
  lemma CreateNeedsNoEviction(w: World, req: CreateRequest, gate: Gate, newId: string, ttl: nat, io: IO)
    requires Coherent(w) && newId !in w.table && !io.lookupFails
    requires EmailVerdict(CachedGet(w.table, w.cache, ByEmail(req.email), ttl, io).1, req.email).None?
    ensures var cache := CachedGet(w.table, w.cache, ByEmail(req.email), ttl, io).0;
      && !cache.Live(IdKey(newId)) && !cache.Live(EmailKey(req.email))
    ensures var w' := Create(w, req, gate, newId, ttl, io).0;
      && !w'.cache.Live(IdKey(newId)) && !w'.cache.Live(EmailKey(req.email))
  {
    DuplicateCheckExact(w, req.email, ttl, io);
    assert Agrees(w, newId);
    KeyFamiliesDisjoint(newId, req.email);
  }

  /** So after every run with working evictions and update commits, reads, stores
      and table writes failing as they like. */
  lemma CreateAfterSoundRun(w: World, ops: seq<Op>, req: CreateRequest, gate: Gate, newId: string, ttl: nat, io: IO)
    requires w.cache.entries == map[]
    requires forall op :: op in ops ==> Sound(op)
    requires var v := Final(w, ops, ttl);
      newId !in v.table && !io.lookupFails
      && EmailVerdict(CachedGet(v.table, v.cache, ByEmail(req.email), ttl, io).1, req.email).None?
    ensures var w' := Create(Final(w, ops, ttl), req, gate, newId, ttl, io).0;
      !w'.cache.Live(IdKey(newId)) && !w'.cache.Live(EmailKey(req.email))
  {
    SoundRunIsCoherent(w, ops, ttl);
    CreateNeedsNoEviction(Final(w, ops, ttl), req, gate, newId, ttl, io);
  }

  // ---- where cached email rows come from ----

  /** `a` was a committed row in one of these worlds, at `since` or later. */
  ghost predicate CommittedSince(tr: seq<World>, a: Account, since: Time) {
    exists j :: 0 <= j < |tr| && since <= tr[j].cache.now && a.id in tr[j].table && tr[j].table[a.id] == a
  }

  /** Every email entry is a row of that email up to case, committed no longer
      before its expiry than the time to live. */
  ghost predicate EmailEntriesJustified(tr: seq<World>, s: Store<Account>, ttl: nat) {
    forall email :: EmailKey(email) in s.entries ==>
      var e := s.entries[EmailKey(email)];
      SameUpToCase(e.value.email, email) && CommittedSince(tr, e.value, e.expiresAt - ttl)
  }

  lemma StepKeepsEmailsJustified(tr: seq<World>, op: Op, ttl: nat)
    requires tr != [] && EmailEntriesJustified(tr, tr[|tr| - 1].cache, ttl)
    ensures var w' := Step(tr[|tr| - 1], op, ttl);
      EmailEntriesJustified(tr + [w'], w'.cache, ttl)
  {
    var w := tr[|tr| - 1];
    var w' := Step(w, op, ttl);
    var tr' := tr + [w'];
    forall email | EmailKey(email) in w'.cache.entries
      ensures var e := w'.cache.entries[EmailKey(email)];
        SameUpToCase(e.value.email, email) && CommittedSince(tr', e.value, e.expiresAt - ttl)
    {
      var e := w'.cache.entries[EmailKey(email)];
      if EmailKey(email) in w.cache.entries && w.cache.entries[EmailKey(email)] == e {
        var j :| 0 <= j < |tr| && e.expiresAt - ttl <= tr[j].cache.now
                 && e.value.id in tr[j].table && tr[j].table[e.value.id] == e.value;
        assert tr'[j] == tr[j];
      } else {
        NewEmailEntry(w, op, ttl, email);
        assert tr'[|tr|] == w';
      }
    }
  }

  /** Only the check of a create stores under an email key, and what it stores
      is the committed row, of which the create then leaves the table alone. */
  lemma NewEmailEntry(w: World, op: Op, ttl: nat, email: string)
    requires var w' := Step(w, op, ttl);
      EmailKey(email) in w'.cache.entries && !SameEntry(w.cache, w'.cache, EmailKey(email))
    ensures var w' := Step(w, op, ttl);
      var e := w'.cache.entries[EmailKey(email)];
      && op.Creating? && w'.table == w.table
      && e.value.id in w.table && w.table[e.value.id] == e.value
      && SameUpToCase(e.value.email, email)
      && e.expiresAt - ttl <= w'.cache.now
  {
    StepTouches(w, op, ttl);
    match op
    case Getting(id, io) => KeyFamiliesDisjoint(id, email);
    case Updating(change, io) => KeyFamiliesDisjoint(change.id, email);
    case Deleting(id, io) => KeyFamiliesDisjoint(id, email);
    case Creating(req, gate, newId, io) =>
      EmailKeyCollides(req.email, email);
      CheckStoresCommitted(w, req, gate, newId, ttl, io);
    case Waiting(_) =>
  }

  lemma CheckStoresCommitted(w: World, req: CreateRequest, gate: Gate, newId: string, ttl: nat, io: IO)
    requires var w' := Create(w, req, gate, newId, ttl, io).0;
      !SameEntry(w.cache, w'.cache, EmailKey(req.email))
    ensures var w' := Create(w, req, gate, newId, ttl, io).0;
      && w'.table == w.table && EmailKey(req.email) in w'.cache.entries
      && var e := w'.cache.entries[EmailKey(req.email)];
      && e.value.id in w.table && w.table[e.value.id] == e.value && e.value.email == req.email
      && e.expiresAt - ttl <= w'.cache.now
  {
    if Admit(req, gate).Success? {
      CacheAsideOutcome(w.cache, EmailKey(req.email), InnerGet(w.table, ByEmail(req.email), io.loadFault), ttl, ReadSide(io));
    }
  }

  lemma {:induction false} RunsKeepEmailsJustified(w: World, ops: seq<Op>, ttl: nat)
    requires w.cache.entries == map[]
    ensures EmailEntriesJustified(Trace(w, ops, ttl), Final(w, ops, ttl).cache, ttl)
    decreases |ops|
  {
    if ops != [] {
      var n := |ops| - 1;
      RunsKeepEmailsJustified(w, ops[..n], ttl);
      StepKeepsEmailsJustified(Trace(w, ops[..n], ttl), ops[n], ttl);
    }
  }

  /** After any run at all, faults of every kind included, a create with a fresh
      id is rejected as already existing only if an account with that email, up
      to letter case, was committed within the last time to live. */
  lemma RejectionIsJustified(w: World, ops: seq<Op>, req: CreateRequest, gate: Gate, newId: string, ttl: nat, io: IO)
    requires w.cache.entries == map[]
    requires newId !in Final(w, ops, ttl).table
    requires RejectsDuplicate(Final(w, ops, ttl), req, gate, newId, ttl, io)
    ensures HadEmail(Trace(w, ops, ttl), req.email, Final(w, ops, ttl).cache.now - ttl)
  {
    var tr := Trace(w, ops, ttl);
    assert EmailEntriesJustified(tr, tr[|ops|].cache, ttl) by { RunsKeepEmailsJustified(w, ops, ttl); }
    var v := Final(w, ops, ttl);
    assert v.cache.Live(EmailKey(req.email)) || EmailTaken(v.table, req.email) by {
      CreateRejected(v, req, gate, newId, ttl, io);
    }
    RejectionTraced(tr, req.email, ttl);
  }

  predicate RejectsDuplicate(w: World, req: CreateRequest, gate: Gate, newId: string, ttl: nat, io: IO) {
    var r := Create(w, req, gate, newId, ttl, io).1;
    r.Failure? && Is(r.error, ERR_ACCOUNT_ALREADY_EXISTS)
  }

  /** Some account with the email, up to letter case, was committed in one of
      these worlds, at `since` or later. */
  ghost predicate HadEmail(tr: seq<World>, email: string, since: Time) {
    exists a: Account :: SameUpToCase(a.email, email) && CommittedSince(tr, a, since)
  }

  lemma RejectionTraced(tr: seq<World>, email: string, ttl: nat)
    requires tr != [] && EmailEntriesJustified(tr, tr[|tr| - 1].cache, ttl)
    requires var w := tr[|tr| - 1]; w.cache.Live(EmailKey(email)) || EmailTaken(w.table, email)
    ensures HadEmail(tr, email, tr[|tr| - 1].cache.now - ttl)
  {
    var w := tr[|tr| - 1];
    var since := w.cache.now - ttl;
    if EmailTaken(w.table, email) {
      var id :| id in w.table && w.table[id].email == email;
      assert SameUpToCase(w.table[id].email, email) && CommittedSince(tr, w.table[id], since);
    } else {
      var e := w.cache.entries[EmailKey(email)];
      var j :| 0 <= j < |tr| && e.expiresAt - ttl <= tr[j].cache.now
               && e.value.id in tr[j].table && tr[j].table[e.value.id] == e.value;
      assert since <= tr[j].cache.now;
      assert SameUpToCase(e.value.email, email) && CommittedSince(tr, e.value, since);
    }
  }

  lemma AdmitNeverDuplicate(req: CreateRequest, gate: Gate)
    requires Admit(req, gate).Failure?
    ensures !Is(Admit(req, gate).error, ERR_ACCOUNT_ALREADY_EXISTS)
  {
    SingleAppIs(Admit(req, gate).error, ERR_ACCOUNT_ALREADY_EXISTS);
  }

  lemma CreateRejected(w: World, req: CreateRequest, gate: Gate, newId: string, ttl: nat, io: IO)
    requires newId !in w.table
    requires RejectsDuplicate(w, req, gate, newId, ttl, io)
    ensures w.cache.Live(EmailKey(req.email)) || EmailTaken(w.table, req.email)
  {
    if Admit(req, gate).Failure? { AdmitNeverDuplicate(req, gate); }
    DuplicateCheckExact(w, req.email, ttl, io);
    if io.writeFault.Some? { FaultsAreOpaque(io.writeFault.value); }
    if io.commitFault.Some? { FaultsAreOpaque(io.commitFault.value); }
  }

  /** Writes leave email entries alone: after an update or a delete an email
      entry is what it was. */
  lemma WritesLeaveEmailEntries(w: World, op: Op, ttl: nat, email: string)
    requires op.Updating? || op.Deleting?
    ensures SameEntry(w.cache, Step(w, op, ttl).cache, EmailKey(email))
  {
    StepTouches(w, op, ttl);
    KeyFamiliesDisjoint(if op.Updating? then op.change.id else op.id, email);
  }

  /** A live email entry is the committed row of its id. */
  predicate EmailAgrees(w: World, email: string) {
    w.cache.Live(EmailKey(email)) ==>
      var a := w.cache.entries[EmailKey(email)].value;
      a.id in w.table && w.table[a.id] == a
  }

  /** So a live email entry that agrees with its row still agrees after a delete
      exactly if the delete failed, the entry is another account's, or it expired
      before the commit. */
  lemma DeleteEmailAgreesExact(w: World, id: string, io: IO, email: string)
    requires w.cache.Live(EmailKey(email)) && EmailAgrees(w, email)
    ensures var (w', r) := Delete(w, id, io);
      var e := w.cache.entries[EmailKey(email)];
      EmailAgrees(w', email) <==>
        r.Failure? || e.value.id != id || e.expiresAt <= w.cache.now + io.commitPause
  {
    KeyFamiliesDisjoint(id, email);
  }

  /** After an update exactly if it failed, the entry is another account's, the
      update changes nothing in the row, or the entry has expired. */
  lemma UpdateEmailAgreesExact(w: World, change: UpdateRequest, ttl: nat, io: IO, email: string)
    requires w.cache.Live(EmailKey(email)) && EmailAgrees(w, email)
    ensures var (w', r) := Update(w, change, ttl, io);
      var e := w.cache.entries[EmailKey(email)];
      EmailAgrees(w', email) <==>
        || r.Failure? || e.value.id != change.id || e.expiresAt <= w'.cache.now
        || PatchRow(e.value, ParamsOf(change, w.cache.now)) == e.value
  {
    WritesLeaveEmailEntries(w, Updating(change, io), ttl, email);
    UpdateAllOrNothing(w, change, ttl, io);
  }
}
