/** The interleaved reads of Staleness together with the writing transactions of
    the use case: write, evict the id key, perhaps reload, then commit or roll
    back. When a cached id entry can disagree with the committed row although no
    eviction and no commit fails. */
module WriterRaces {
  import opened Domain
  import opened AccountTable
  import opened Cache
  import S = Staleness

  /** The one row a transaction writes. */
  datatype Change =
    | Updating(p: UpdateParams)
    | Removing(id: string)
    | Inserting(a: Account)
  {
    function Id(): string {
      match this
      case Updating(p) => p.id
      case Removing(i) => i
      case Inserting(a) => a.id
    }
  }

  function Applied(t: Table, c: Change): Option<Table> {
    match c
    case Updating(p) => Patch(t, p)
    case Removing(id) => Remove(t, id)
    case Inserting(a) => Insert(t, a)
  }

  /** A transaction before its write, after it, and after its eviction. */
  datatype Tx = Closed | Wrote(c: Change) | Evicted(c: Change)

  datatype State = State(shared: S.State, txs: map<nat, Tx>) {
    function At(tx: nat): Tx {
      if tx in txs then txs[tx] else Closed
    }

    function Row(id: string): Option<Account> {
      if id in shared.table then Some(shared.table[id]) else None
    }
  }

  datatype Step =
    | Read(step: S.Step)
    | Write(tx: nat, c: Change)
    | Evict(tx: nat, fails: bool)
    | Reload(tx: nat, reader: nat)   // a reader inside the transaction loads its row
    | Commit(tx: nat)
    | Rollback(tx: nat)

  /** The steps of clients that only read, and of time. */
  predicate Reading(step: S.Step) {
    step.Tick? || step.Lookup? || step.Load? || step.Put? || step.Crash?
  }

  /** An open write locks its row. Updates and deletes evict before they commit,
      inserts evict nothing. */
  predicate Enabled(s: State, step: Step) {
    match step
    case Read(x) => Reading(x) && S.Enabled(s.shared, x)
    case Write(tx, c) =>
      && s.At(tx).Closed? && Applied(s.shared.table, c).Some?
      && forall other :: other in s.txs && !s.txs[other].Closed? ==> s.txs[other].c.Id() != c.Id()
    case Evict(tx, _) => s.At(tx).Wrote? && !s.At(tx).c.Inserting?
    case Reload(tx, r) =>
      && s.At(tx).Evicted? && s.At(tx).c.Updating? && s.At(tx).c.p.id in s.shared.table
      && s.shared.At(r) == S.Missed(ById(s.At(tx).c.p.id))
    case Commit(tx) =>
      && (s.At(tx).Evicted? || (s.At(tx).Wrote? && s.At(tx).c.Inserting?))
      && Applied(s.shared.table, s.At(tx).c).Some? && !Reloading(s, s.At(tx).c.Id())
    case Rollback(tx) => !s.At(tx).Closed? && !Reloading(s, s.At(tx).c.Id())
  }

  /** A reload of the id inside a transaction has not returned yet; the row being
      locked, it is the reload of the one transaction open on it. */
  predicate Reloading(s: State, id: string) {
    exists r :: r in s.shared.readers && DirtyLoad(s.shared.readers[r]) && s.shared.readers[r].copy.row.id == id
  }

  predicate DirtyLoad(r: S.Reader) {
    r.Loaded? && r.copy.dirty
  }

  /** What a step is to the cache, the readers and the committed table. */
  function Shared(s: State, step: Step): (x: S.Step)
    requires Enabled(s, step)
    ensures S.Enabled(s.shared, x)
  {
    match step
    case Read(x) => x
    case Evict(tx, fails) => if fails then S.Tick(0) else S.Evict(IdKey(s.At(tx).c.Id()))
    case Reload(tx, r) => S.LoadOwn(r, PatchRow(s.shared.table[s.At(tx).c.p.id], s.At(tx).c.p))
    case Commit(tx) => S.Commit(Applied(s.shared.table, s.At(tx).c).value)
    case Write(_, _) => S.Tick(0)
    case Rollback(_) => S.Tick(0)
  }

  function Next(s: State, step: Step, ttl: nat): State
    requires Enabled(s, step)
  {
    State(S.Next(s.shared, Shared(s, step), ttl),
          match step
          case Write(tx, c) => s.txs[tx := Wrote(c)]
          case Evict(tx, _) => s.txs[tx := Evicted(s.At(tx).c)]
          case Commit(tx) => s.txs[tx := Closed]
          case Rollback(tx) => s.txs[tx := Closed]
          case _ => s.txs)
  }

  ghost predicate StepOk(run: seq<State>, steps: seq<Step>, i: int, ttl: nat)
    requires 0 <= i < |steps| < |run|
  {
    Enabled(run[i], steps[i]) && run[i + 1] == Next(run[i], steps[i], ttl)
  }

  ghost predicate IsRun(run: seq<State>, steps: seq<Step>, ttl: nat) {
    && |run| == |steps| + 1
    && run[0].shared.cache.entries == map[] && run[0].shared.readers == map[] && run[0].txs == map[]
    && forall i :: 0 <= i < |steps| ==> StepOk(run, steps, i, ttl)
  }

  // ---- these runs are Staleness runs ----

  ghost function SharedRun(run: seq<State>): (r: seq<S.State>)
    ensures |r| == |run|
  {
    seq(|run|, i requires 0 <= i < |run| => run[i].shared)
  }

  ghost function SharedSteps(run: seq<State>, steps: seq<Step>, ttl: nat): (r: seq<S.Step>)
    requires IsRun(run, steps, ttl)
    ensures |r| == |steps|
  {
    seq(|steps|, i requires 0 <= i < |steps| =>
      assert StepOk(run, steps, i, ttl); Shared(run[i], steps[i]))
  }

  /** Every run with writers is, for the cache and the table, a run of Staleness:
      its bound on the age of answers holds here too. */
  lemma WritersRefineStaleness(run: seq<State>, steps: seq<Step>, ttl: nat)
    requires IsRun(run, steps, ttl)
    ensures S.IsRun(SharedRun(run), SharedSteps(run, steps, ttl), ttl)
  {
    forall i | 0 <= i < |steps|
      ensures S.Enabled(SharedRun(run)[i], SharedSteps(run, steps, ttl)[i])
      ensures SharedRun(run)[i + 1] == S.Next(SharedRun(run)[i], SharedSteps(run, steps, ttl)[i], ttl)
    {
      assert StepOk(run, steps, i, ttl);
    }
  }

  // ---- where an entry, a loaded row and an eviction come from ----

  ghost predicate HasEntry(s: State, key: string, e: Entry<S.Copy>) {
    key in s.shared.cache.entries && s.shared.cache.entries[key] == e
  }

  lemma EntryStep(s: State, step: Step, ttl: nat, key: string, e: Entry<S.Copy>)
    requires Enabled(s, step) && HasEntry(Next(s, step, ttl), key, e) && !HasEntry(s, key, e)
    ensures step.Read? && step.step.Put? && !step.step.fails
    ensures var l := s.shared.At(step.step.reader);
      l.Loaded? && key == Key(l.q) && e == Entry(l.copy, s.shared.cache.now + ttl)
  {
  }

  lemma StoredBy(run: seq<State>, steps: seq<Step>, k: nat, ttl: nat, key: string, e: Entry<S.Copy>)
    requires IsRun(run, steps, ttl) && k < |steps| && HasEntry(run[k + 1], key, e) && !HasEntry(run[k], key, e)
    ensures steps[k].Read? && steps[k].step.Put? && !steps[k].step.fails
    ensures var l := run[k].shared.At(steps[k].step.reader);
      l.Loaded? && key == Key(l.q) && e.value == l.copy
  {
    assert StepOk(run, steps, k, ttl);
    EntryStep(run[k], steps[k], ttl, key, e);
  }

  /** The store that an entry comes from; the entry has been there since. */
  lemma {:induction false} StoredAt(run: seq<State>, steps: seq<Step>, i: nat, ttl: nat, key: string, e: Entry<S.Copy>)
    returns (k: nat)
    requires IsRun(run, steps, ttl) && i < |run| && HasEntry(run[i], key, e)
    ensures k < i && steps[k].Read? && steps[k].step.Put? && !steps[k].step.fails
    ensures var l := run[k].shared.At(steps[k].step.reader);
      l.Loaded? && key == Key(l.q) && e.value == l.copy
    ensures forall m :: k < m <= i ==> HasEntry(run[m], key, e)
    decreases i
  {
    assert i > 0;
    if HasEntry(run[i - 1], key, e) {
      k := StoredAt(run, steps, i - 1, ttl, key, e);
    } else {
      StoredBy(run, steps, i - 1, ttl, key, e);
      k := i - 1;
    }
  }

  lemma LoadStep(s: State, step: Step, ttl: nat, r: nat, l: S.Reader)
    requires Enabled(s, step) && Next(s, step, ttl).shared.At(r) == l && s.shared.At(r) != l
    requires l.Loaded? && !l.copy.dirty
    ensures step == Read(S.Load(r)) && s.shared.At(r) == S.Missed(l.q)
    ensures Find(s.shared.table, l.q) == Some(l.copy.row)
  {
  }

  /** The load that a row about to be stored comes from. */
  lemma {:induction false} LoadedAt(run: seq<State>, steps: seq<Step>, k: nat, ttl: nat, r: nat, l: S.Reader)
    returns (j: nat)
    requires IsRun(run, steps, ttl) && k < |run| && run[k].shared.At(r) == l && l.Loaded? && !l.copy.dirty
    ensures j < k && steps[j] == Read(S.Load(r)) && run[j].shared.At(r) == S.Missed(l.q)
    ensures Find(run[j].shared.table, l.q) == Some(l.copy.row)
    ensures forall m :: j < m <= k ==> run[m].shared.At(r) == l
    decreases k
  {
    assert k > 0;
    assert StepOk(run, steps, k - 1, ttl);
    if run[k - 1].shared.At(r) == l {
      j := LoadedAt(run, steps, k - 1, ttl, r, l);
    } else {
      LoadStep(run[k - 1], steps[k - 1], ttl, r, l);
      j := k - 1;
    }
  }

  /** The eviction a transaction has made. */
  lemma {:induction false} EvictedAt(run: seq<State>, steps: seq<Step>, c: nat, ttl: nat, tx: nat, change: Change)
    returns (e: nat)
    requires IsRun(run, steps, ttl) && c < |run| && run[c].At(tx) == Evicted(change)
    ensures e < c && steps[e].Evict? && steps[e].tx == tx && run[e].At(tx) == Wrote(change)
    ensures forall m :: e < m <= c ==> run[m].At(tx) == Evicted(change)
    decreases c
  {
    assert c > 0;
    assert StepOk(run, steps, c - 1, ttl);
    if run[c - 1].At(tx) == Evicted(change) {
      e := EvictedAt(run, steps, c - 1, ttl, tx, change);
    } else {
      e := c - 1;
    }
  }

  lemma RowStep(s: State, step: Step, ttl: nat, id: string)
    requires Enabled(s, step) && Next(s, step, ttl).Row(id) != s.Row(id)
    ensures step.Commit? && s.At(step.tx).c.Id() == id
    ensures s.Row(id).Some? ==> s.At(step.tx).Evicted?
  {
  }

  /** The first commit that changes a row after the i-th state. */
  lemma {:induction false} ChangedAt(run: seq<State>, steps: seq<Step>, j: nat, i: nat, ttl: nat, id: string)
    returns (c: nat)
    requires IsRun(run, steps, ttl) && j <= i < |run| && run[j].Row(id) != run[i].Row(id)
    ensures j <= c < i && run[c].Row(id) == run[j].Row(id)
    ensures steps[c].Commit? && run[c].At(steps[c].tx) != Closed && run[c].At(steps[c].tx).c.Id() == id
    ensures run[j].Row(id).Some? ==> run[c].At(steps[c].tx).Evicted?
    decreases i
  {
    assert StepOk(run, steps, i - 1, ttl);
    if run[i - 1].Row(id) != run[j].Row(id) {
      c := ChangedAt(run, steps, j, i - 1, ttl, id);
    } else {
      RowStep(run[i - 1], steps[i - 1], ttl, id);
      c := i - 1;
    }
  }

  /** The step commits a write of the id. */
  predicate CommitsId(s: State, step: Step, id: string) {
    step.Commit? && !s.At(step.tx).Closed? && s.At(step.tx).c.Id() == id
  }

  lemma RowStays(run: seq<State>, steps: seq<Step>, j: nat, i: nat, ttl: nat, id: string)
    requires IsRun(run, steps, ttl) && j <= i < |run|
    requires forall m :: j <= m < i ==> !CommitsId(run[m], steps[m], id)
    ensures run[i].Row(id) == run[j].Row(id)
  {
    if run[j].Row(id) != run[i].Row(id) {
      var c := ChangedAt(run, steps, j, i, ttl, id);
      assert false;
    }
  }

  /** The last commit of the id before the i-th state. */
  ghost predicate LastCommit(run: seq<State>, steps: seq<Step>, c: nat, i: nat, id: string)
    requires |run| == |steps| + 1 && i < |run|
  {
    c < i && CommitsId(run[c], steps[c], id) && forall m :: c < m < i ==> !CommitsId(run[m], steps[m], id)
  }

  lemma {:induction false} LastCommitAfter(run: seq<State>, steps: seq<Step>, j: nat, i: nat, id: string) returns (c: nat)
    requires |run| == |steps| + 1 && j < i < |run| && CommitsId(run[j], steps[j], id)
    ensures j <= c && LastCommit(run, steps, c, i, id)
    decreases i
  {
    if CommitsId(run[i - 1], steps[i - 1], id) {
      c := i - 1;
    } else {
      c := LastCommitAfter(run, steps, j, i - 1, id);
    }
  }

  // ---- the race ----

  /** A cache-aside read of the id: load at j, successful store at k. */
  ghost predicate IsRead(run: seq<State>, steps: seq<Step>, id: string, j: nat, k: nat)
    requires |run| == |steps| + 1
  {
    && j < k < |steps| && steps[j].Read? && steps[j].step.Load?
    && var r := steps[j].step.reader;
    && run[j].shared.At(r) == S.Missed(ById(id)) && steps[k] == Read(S.Put(r, false))
    && forall m :: j < m <= k ==> run[m].shared.At(r) == run[k].shared.At(r)
  }

  /** A transaction that writes the id: eviction attempted at e, commit at c. */
  ghost predicate IsWrite(run: seq<State>, steps: seq<Step>, id: string, e: nat, c: nat)
    requires |run| == |steps| + 1
  {
    && e < c < |steps| && steps[e].Evict? && steps[c] == Commit(steps[e].tx)
    && var tx := steps[e].tx;
    && run[e].At(tx).Wrote? && run[e].At(tx).c.Id() == id
    && forall m :: e < m <= c ==> run[m].At(tx) == Evicted(run[e].At(tx).c)
  }

  /** The read loads before the commit and stores after the eviction. */
  ghost predicate Race(run: seq<State>, steps: seq<Step>, id: string, j: nat, k: nat, e: nat, c: nat)
    requires |run| == |steps| + 1
  {
    IsRead(run, steps, id, j, k) && IsWrite(run, steps, id, e, c) && j < c && e < k
  }

  predicate EvictionsSucceed(steps: seq<Step>) {
    forall k :: 0 <= k < |steps| && steps[k].Evict? ==> !steps[k].fails
  }

  /** `e` is a clean entry of the id key in the i-th state: not loaded inside a
      transaction. Its read loaded at j and stored at k. */
  ghost predicate FromRead(run: seq<State>, steps: seq<Step>, i: nat, id: string, e: Entry<S.Copy>, j: nat, k: nat)
    requires |run| == |steps| + 1 && i < |run|
  {
    && IsRead(run, steps, id, j, k) && k < i
    && run[j].Row(id) == Some(e.value.row)
    && forall m :: k < m <= i ==> HasEntry(run[m], IdKey(id), e)
  }

  /** Every clean id entry comes from such a read. */
  lemma EntryComesFromRead(run: seq<State>, steps: seq<Step>, i: nat, ttl: nat, id: string, e: Entry<S.Copy>)
    returns (j: nat, k: nat)
    requires IsRun(run, steps, ttl) && i < |run| && HasEntry(run[i], IdKey(id), e) && !e.value.dirty
    ensures FromRead(run, steps, i, id, e, j, k)
  {
    k := StoredAt(run, steps, i, ttl, IdKey(id), e);
    var r := steps[k].step.reader;
    var l := run[k].shared.At(r);
    j := LoadedAt(run, steps, k, ttl, r, l);
    KeySharing(ById(id), l.q);
  }

  /** While the entry stays, no eviction of its key has come after its store: each
      transaction on the id whose eviction succeeded evicted before the store. */
  lemma EvictionPrecedesStore(run: seq<State>, steps: seq<Step>, i: nat, ttl: nat, id: string,
                              entry: Entry<S.Copy>, j: nat, k: nat, e: nat, c: nat)
    requires IsRun(run, steps, ttl) && i < |run| && FromRead(run, steps, i, id, entry, j, k)
    requires IsWrite(run, steps, id, e, c) && c < i && !steps[e].fails
    ensures e < k
  {
    assert StepOk(run, steps, e, ttl);
    assert !HasEntry(run[e + 1], IdKey(id), entry);
  }

  /** When the row has moved on from what a load at j saw: if the last commit of
      the id came at or after j and left another row. */
  lemma RowMovedOnExactly(run: seq<State>, steps: seq<Step>, j: nat, i: nat, ttl: nat, id: string)
    requires IsRun(run, steps, ttl) && j <= i < |run|
    ensures run[i].Row(id) != run[j].Row(id) <==>
      exists c: nat :: j <= c && LastCommit(run, steps, c, i, id) && run[c + 1].Row(id) != run[j].Row(id)
  {
    if run[i].Row(id) != run[j].Row(id) {
      var first := ChangedAt(run, steps, j, i, ttl, id);
      assert CommitsId(run[first], steps[first], id);
      var c := LastCommitAfter(run, steps, first, i, id);
      RowStays(run, steps, c + 1, i, ttl, id);
    }
    forall c: nat | j <= c && LastCommit(run, steps, c, i, id) ensures run[i].Row(id) == run[c + 1].Row(id) {
      RowStays(run, steps, c + 1, i, ttl, id);
    }
  }

  /** When a clean id entry is stale, exactly: if the last commit of the id came
      after its load and left another row. With evictions succeeding, the commit
      that changed the row first then belongs to a transaction that evicted before
      the entry was stored. */
  lemma StaleExactly(run: seq<State>, steps: seq<Step>, i: nat, ttl: nat, id: string, entry: Entry<S.Copy>)
    returns (j: nat, k: nat)
    requires IsRun(run, steps, ttl) && i < |run| && HasEntry(run[i], IdKey(id), entry) && !entry.value.dirty
    ensures FromRead(run, steps, i, id, entry, j, k)
    ensures run[i].Row(id) != Some(entry.value.row) <==>
      exists c: nat :: j <= c && LastCommit(run, steps, c, i, id) && run[c + 1].Row(id) != Some(entry.value.row)
    ensures forall e: nat, c: nat :: c < i && IsWrite(run, steps, id, e, c) && !steps[e].fails ==> e < k
    ensures run[i].Row(id) != Some(entry.value.row) && EvictionsSucceed(steps) ==>
      exists e: nat, c: nat :: c < i && Race(run, steps, id, j, k, e, c)
  {
    j, k := EntryComesFromRead(run, steps, i, ttl, id, entry);
    RowMovedOnExactly(run, steps, j, i, ttl, id);
    forall e: nat, c: nat | c < i && IsWrite(run, steps, id, e, c) && !steps[e].fails ensures e < k {
      EvictionPrecedesStore(run, steps, i, ttl, id, entry, j, k, e, c);
    }
    if run[i].Row(id) != run[j].Row(id) && EvictionsSucceed(steps) {
      RaceBehind(run, steps, i, ttl, id, entry, j, k);
    }
  }

  lemma RaceBehind(run: seq<State>, steps: seq<Step>, i: nat, ttl: nat, id: string, entry: Entry<S.Copy>, j: nat, k: nat)
    requires IsRun(run, steps, ttl) && i < |run| && FromRead(run, steps, i, id, entry, j, k)
    requires run[i].Row(id) != run[j].Row(id) && EvictionsSucceed(steps)
    ensures exists e: nat, c: nat :: c < i && Race(run, steps, id, j, k, e, c)
  {
    var c := ChangedAt(run, steps, j, i, ttl, id);
    var tx := steps[c].tx;
    var e := EvictedAt(run, steps, c, ttl, tx, run[c].At(tx).c);
    assert IsWrite(run, steps, id, e, c);
    EvictionPrecedesStore(run, steps, i, ttl, id, entry, j, k, e, c);
    assert Race(run, steps, id, j, k, e, c);
  }

  /** Freshness under concurrency: in a run whose evictions succeed and in which
      no read of the id loads before a commit and stores after its eviction,
      every clean id entry is the committed row. */
  lemma NoRaceNoStaleEntry(run: seq<State>, steps: seq<Step>, i: nat, ttl: nat, id: string, entry: Entry<S.Copy>)
    requires IsRun(run, steps, ttl) && i < |run| && EvictionsSucceed(steps)
    requires forall j: nat, k: nat, e: nat, c: nat :: k < i && c < i ==> !Race(run, steps, id, j, k, e, c)
    requires HasEntry(run[i], IdKey(id), entry) && !entry.value.dirty
    ensures run[i].Row(id) == Some(entry.value.row)
  {
    var j, k := StaleExactly(run, steps, i, ttl, id, entry);
  }

  // ---- entries cached by a reload ----

  predicate OpenOn(s: State, tx: nat, id: string) {
    tx in s.txs && !s.txs[tx].Closed? && s.txs[tx].c.Id() == id
  }

  /** The transaction has evicted the id and not ended. */
  predicate PastEviction(s: State, tx: nat, id: string) {
    OpenOn(s, tx, id) && s.txs[tx].Evicted?
  }

  /** `row` is what this transaction will commit. */
  predicate Promises(s: State, tx: nat, row: Account) {
    && PastEviction(s, tx, row.id) && s.txs[tx].c.Updating?
    && row.id in s.shared.table && row == PatchRow(s.shared.table[row.id], s.txs[tx].c.p)
  }

  /** A dirty row is the promise of a transaction past its eviction, or, when the
      id has none, the committed row. */
  ghost predicate KeptPromise(s: State, row: Account) {
    && (forall tx :: PastEviction(s, tx, row.id) ==> Promises(s, tx, row))
    && ((forall tx :: !PastEviction(s, tx, row.id)) ==> s.Row(row.id) == Some(row))
  }

  ghost predicate Locked(s: State) {
    forall tx, other | tx in s.txs && other in s.txs && tx != other && !s.txs[tx].Closed? && !s.txs[other].Closed? ::
      s.txs[tx].c.Id() != s.txs[other].c.Id()
  }

  ghost predicate LoadsPromised(s: State) {
    forall r | r in s.shared.readers && DirtyLoad(s.shared.readers[r]) ::
      && s.shared.readers[r].q == ById(s.shared.readers[r].copy.row.id)
      && exists tx :: Promises(s, tx, s.shared.readers[r].copy.row)
  }

  ghost predicate EntriesPromised(s: State) {
    forall k | k in s.shared.cache.entries && s.shared.cache.entries[k].value.dirty ::
      && k == IdKey(s.shared.cache.entries[k].value.row.id)
      && KeptPromise(s, s.shared.cache.entries[k].value.row)
  }

  predicate DirtyEntry(s: State, id: string) {
    IdKey(id) in s.shared.cache.entries && s.shared.cache.entries[IdKey(id)].value.dirty
  }

  /** The step fails no eviction and rolls back no transaction whose reload is in
      the cache. */
  predicate Faultless(s: State, step: Step) {
    match step
    case Evict(_, fails) => !fails
    case Rollback(tx) => s.At(tx).Evicted? ==> !DirtyEntry(s, s.At(tx).c.Id())
    case _ => true
  }

  lemma OneOpenTx(s: State, tx: nat, other: nat, id: string)
    requires Locked(s) && OpenOn(s, tx, id)
    ensures OpenOn(s, other, id) ==> other == tx
  {
  }

  lemma LockedStep(s: State, step: Step, ttl: nat)
    requires Locked(s) && Enabled(s, step)
    ensures Locked(Next(s, step, ttl))
  {
  }

  /** What a step leaves of the transactions on another id. */
  lemma ElsewhereStep(s: State, step: Step, ttl: nat, id: string)
    requires Enabled(s, step)
    requires (step.Evict? || step.Commit? || step.Rollback?) ==> s.At(step.tx).c.Id() != id
    ensures var s' := Next(s, step, ttl);
      && s'.Row(id) == s.Row(id)
      && forall tx :: PastEviction(s', tx, id) <==> PastEviction(s, tx, id)
    ensures var s' := Next(s, step, ttl);
      forall tx :: PastEviction(s, tx, id) ==> s'.txs[tx] == s.txs[tx]
  {
    var s' := Next(s, step, ttl);
    if s'.Row(id) != s.Row(id) { RowStep(s, step, ttl, id); }
    forall tx ensures PastEviction(s', tx, id) <==> PastEviction(s, tx, id) {
    }
  }

  lemma PromiseElsewhere(s: State, step: Step, ttl: nat, row: Account)
    requires Enabled(s, step)
    requires (step.Evict? || step.Commit? || step.Rollback?) ==> s.At(step.tx).c.Id() != row.id
    ensures forall tx :: Promises(s, tx, row) ==> Promises(Next(s, step, ttl), tx, row)
    ensures KeptPromise(s, row) ==> KeptPromise(Next(s, step, ttl), row)
  {
    var s' := Next(s, step, ttl);
    ElsewhereStep(s, step, ttl, row.id);
    forall tx | Promises(s, tx, row) ensures Promises(s', tx, row) {
      assert s'.Row(row.id) == s.Row(row.id);
    }
    if KeptPromise(s, row) {
      forall tx | PastEviction(s', tx, row.id) ensures Promises(s', tx, row) {
        assert PastEviction(s, tx, row.id);
      }
      if forall tx :: !PastEviction(s', tx, row.id) {
        assert forall tx :: PastEviction(s, tx, row.id) ==> PastEviction(s', tx, row.id);
      }
    }
  }

  /** A load in a transaction, while it is pending, stays promised. */
  lemma PendingLoadStep(s: State, step: Step, ttl: nat, r: nat, tx: nat)
    requires Locked(s) && Enabled(s, step) && r in s.shared.readers && DirtyLoad(s.shared.readers[r])
    requires Promises(s, tx, s.shared.readers[r].copy.row)
    ensures Promises(Next(s, step, ttl), tx, s.shared.readers[r].copy.row)
  {
    var row := s.shared.readers[r].copy.row;
    assert Reloading(s, row.id);
    if step.Evict? { OneOpenTx(s, tx, step.tx, row.id); }
    PromiseElsewhere(s, step, ttl, row);
  }

  /** A pending load in a transaction was pending before, or has just been made. */
  lemma DirtyLoadStep(s: State, step: Step, ttl: nat, r: nat)
    requires Enabled(s, step)
    requires r in Next(s, step, ttl).shared.readers && DirtyLoad(Next(s, step, ttl).shared.readers[r])
    ensures var l := Next(s, step, ttl).shared.readers[r];
      || (r in s.shared.readers && s.shared.readers[r] == l)
      || (step.Reload? && l.q == ById(l.copy.row.id) && Promises(Next(s, step, ttl), step.tx, l.copy.row))
  {
  }

  lemma LoadsPromisedStep(s: State, step: Step, ttl: nat)
    requires Locked(s) && LoadsPromised(s) && Enabled(s, step)
    ensures LoadsPromised(Next(s, step, ttl))
  {
    var s' := Next(s, step, ttl);
    forall r | r in s'.shared.readers && DirtyLoad(s'.shared.readers[r])
      ensures s'.shared.readers[r].q == ById(s'.shared.readers[r].copy.row.id)
      ensures exists tx :: Promises(s', tx, s'.shared.readers[r].copy.row)
    {
      var l := s'.shared.readers[r];
      DirtyLoadStep(s, step, ttl, r);
      if r in s.shared.readers && s.shared.readers[r] == l {
        var tx :| Promises(s, tx, l.copy.row);
        PendingLoadStep(s, step, ttl, r, tx);
      }
    }
  }

  /** A dirty entry after a step was there before it, or has just been stored. */
  lemma DirtyEntryStep(s: State, step: Step, ttl: nat, k: string)
    requires Enabled(s, step) && Faultless(s, step)
    requires k in Next(s, step, ttl).shared.cache.entries && Next(s, step, ttl).shared.cache.entries[k].value.dirty
    ensures var e := Next(s, step, ttl).shared.cache.entries[k];
      || (HasEntry(s, k, e) && (step.Evict? ==> k != IdKey(s.At(step.tx).c.Id())))
      || (step.Read? && step.step.Put? && step.step.reader in s.shared.readers
          && DirtyLoad(s.shared.readers[step.step.reader])
          && e.value == s.shared.readers[step.step.reader].copy && k == Key(s.shared.readers[step.step.reader].q))
  {
    var e := Next(s, step, ttl).shared.cache.entries[k];
    if !HasEntry(s, k, e) { EntryStep(s, step, ttl, k, e); }
  }

  lemma CommitKeepsPromise(s: State, tx: nat, ttl: nat, row: Account)
    requires Locked(s) && Enabled(s, Commit(tx)) && KeptPromise(s, row) && s.At(tx).c.Id() == row.id
    ensures KeptPromise(Next(s, Commit(tx), ttl), row)
  {
    var s' := Next(s, Commit(tx), ttl);
    forall other ensures PastEviction(s, other, row.id) ==> other == tx
      ensures !PastEviction(s', other, row.id)
    {
      OneOpenTx(s, tx, other, row.id);
    }
    assert PastEviction(s, tx, row.id) ==> Promises(s, tx, row);
  }

  lemma RollbackKeepsPromise(s: State, tx: nat, ttl: nat, row: Account)
    requires Locked(s) && Enabled(s, Rollback(tx)) && KeptPromise(s, row)
    requires s.At(tx).c.Id() == row.id && s.At(tx).Wrote?
    ensures KeptPromise(Next(s, Rollback(tx), ttl), row)
  {
    var s' := Next(s, Rollback(tx), ttl);
    forall other ensures !PastEviction(s, other, row.id) && !PastEviction(s', other, row.id) {
      OneOpenTx(s, tx, other, row.id);
    }
  }

  lemma EntriesPromisedStep(s: State, step: Step, ttl: nat)
    requires Locked(s) && LoadsPromised(s) && EntriesPromised(s) && Enabled(s, step) && Faultless(s, step)
    ensures EntriesPromised(Next(s, step, ttl))
  {
    var s' := Next(s, step, ttl);
    forall k | k in s'.shared.cache.entries && s'.shared.cache.entries[k].value.dirty
      ensures k == IdKey(s'.shared.cache.entries[k].value.row.id)
      ensures KeptPromise(s', s'.shared.cache.entries[k].value.row)
    {
      var row := s'.shared.cache.entries[k].value.row;
      DirtyEntryStep(s, step, ttl, k);
      if HasEntry(s, k, s'.shared.cache.entries[k]) && !(step.Read? && step.step.Put?) {
        if step.Commit? && s.At(step.tx).c.Id() == row.id {
          CommitKeepsPromise(s, step.tx, ttl, row);
        } else if step.Rollback? && s.At(step.tx).c.Id() == row.id {
          RollbackKeepsPromise(s, step.tx, ttl, row);
        } else {
          PromiseElsewhere(s, step, ttl, row);
        }
      } else {
        assert step.Read? && step.step.Put?;
        StoredPromise(s, step, row);
        PromiseElsewhere(s, step, ttl, row);
      }
    }
  }

  /** A promised row is kept as an entry: the one transaction past its eviction is
      the one that promises it. */
  lemma StoredPromise(s: State, step: Step, row: Account)
    requires Locked(s) && ((exists tx :: Promises(s, tx, row)) || KeptPromise(s, row))
    ensures KeptPromise(s, row)
  {
    if tx :| Promises(s, tx, row) {
      assert PastEviction(s, tx, row.id);
      forall other | PastEviction(s, other, row.id) ensures Promises(s, other, row) {
        assert other == tx;
      }
    }
  }

  /** What holds whatever fails: open writes exclude each other, and a row loaded
      by a reload is the promise of its transaction. */
  lemma {:induction false} LocksHold(run: seq<State>, steps: seq<Step>, i: nat, ttl: nat)
    requires IsRun(run, steps, ttl) && i < |run|
    ensures Locked(run[i]) && LoadsPromised(run[i])
    decreases i
  {
    if i > 0 {
      LocksHold(run, steps, i - 1, ttl);
      assert StepOk(run, steps, i - 1, ttl);
      LockedStep(run[i - 1], steps[i - 1], ttl);
      LoadsPromisedStep(run[i - 1], steps[i - 1], ttl);
    }
  }

  lemma {:induction false} PromisesHold(run: seq<State>, steps: seq<Step>, i: nat, ttl: nat)
    requires IsRun(run, steps, ttl) && i < |run|
    requires forall k :: 0 <= k < i ==> Faultless(run[k], steps[k])
    ensures Locked(run[i]) && LoadsPromised(run[i]) && EntriesPromised(run[i])
    decreases i
  {
    LocksHold(run, steps, i, ttl);
    if i > 0 {
      PromisesHold(run, steps, i - 1, ttl);
      assert StepOk(run, steps, i - 1, ttl);
      EntriesPromisedStep(run[i - 1], steps[i - 1], ttl);
    }
  }

  /** Agreement under concurrency: with evictions succeeding, no transaction
      rolled back after its reload was cached, and no read of the id racing a
      write of it, every id entry is the committed row, or the row that the one
      transaction past its eviction is about to commit. */
  lemma ConcurrentCoherence(run: seq<State>, steps: seq<Step>, i: nat, ttl: nat, id: string, entry: Entry<S.Copy>)
    requires IsRun(run, steps, ttl) && i < |run| && EvictionsSucceed(steps)
    requires forall k :: 0 <= k < i ==> Faultless(run[k], steps[k])
    requires forall j: nat, k: nat, e: nat, c: nat :: k < i && c < i ==> !Race(run, steps, id, j, k, e, c)
    requires HasEntry(run[i], IdKey(id), entry)
    ensures run[i].Row(id) == Some(entry.value.row) ||
      (entry.value.dirty && exists tx :: PastEviction(run[i], tx, id) && Promises(run[i], tx, entry.value.row))
  {
    if entry.value.dirty {
      PromisesHold(run, steps, i, ttl);
      IdKeyInjective(id, entry.value.row.id);
      assert KeptPromise(run[i], entry.value.row);
    } else {
      NoRaceNoStaleEntry(run, steps, i, ttl, id, entry);
    }
  }

  // ---- what an update answers ----

  /** The update's transaction tries its eviction at e and is still open in the
      i-th state. */
  ghost predicate UpdateOpen(run: seq<State>, steps: seq<Step>, e: nat, i: nat, tx: nat, p: UpdateParams)
    requires |run| == |steps| + 1
  {
    && e < i < |run| && steps[e].Evict? && steps[e].tx == tx && run[e].At(tx) == Wrote(Updating(p))
    && forall m :: e < m <= i ==> run[m].At(tx) == Evicted(Updating(p))
  }

  /** Its row is locked until then. */
  lemma RowWhileOpen(run: seq<State>, steps: seq<Step>, e: nat, i: nat, ttl: nat, tx: nat, p: UpdateParams, m: nat)
    requires IsRun(run, steps, ttl) && UpdateOpen(run, steps, e, i, tx, p) && e <= m <= i
    ensures run[m].Row(p.id) == run[e].Row(p.id)
  {
    forall c | e <= c < m ensures !CommitsId(run[c], steps[c], p.id) {
      LocksHold(run, steps, c, ttl);
      assert OpenOn(run[c], tx, p.id) && StepOk(run, steps, c, ttl);
      if CommitsId(run[c], steps[c], p.id) {
        OneOpenTx(run[c], tx, steps[c].tx, p.id);
      }
    }
    RowStays(run, steps, e, m, ttl, p.id);
  }

  /** What the transaction's reload of its row is answered in this step, if it is:
      a live entry by its lookup, or after a miss the row it loads itself. */
  function ReloadAnswer(s: State, step: Step, tx: nat): Option<Account>
    requires Enabled(s, step)
  {
    match step
    case Read(Lookup(_, q, fails)) =>
      if s.At(tx).Evicted? && q == ById(s.At(tx).c.Id()) && !fails && s.shared.cache.Live(Key(q))
      then Some(s.shared.cache.entries[Key(q)].value.row) else None
    case Reload(owner, _) =>
      if owner == tx then Some(PatchRow(s.shared.table[s.At(tx).c.p.id], s.At(tx).c.p)) else None
    case _ => None
  }

  /** A read of the id stored a row committed when it loaded, after the eviction
      and before the reload. */
  ghost predicate StoredBetween(run: seq<State>, steps: seq<Step>, e: nat, i: nat, id: string, a: Account)
    requires |run| == |steps| + 1 && i < |run|
  {
    exists j: nat, k: nat :: e < k < i && IsRead(run, steps, id, j, k) && run[j].Row(id) == Some(a)
  }

  lemma GoneAfterEviction(run: seq<State>, steps: seq<Step>, e: nat, i: nat, ttl: nat, tx: nat, p: UpdateParams,
                          entry: Entry<S.Copy>, k: nat)
    requires IsRun(run, steps, ttl) && UpdateOpen(run, steps, e, i, tx, p) && !steps[e].fails
    requires k < i && steps[k].Read? && forall m :: k < m <= i ==> HasEntry(run[m], IdKey(p.id), entry)
    ensures e < k
  {
    assert StepOk(run, steps, e, ttl);
    assert !HasEntry(run[e + 1], IdKey(p.id), entry);
  }

  /** Where an id entry comes from while an update of its row is past a successful
      eviction: from the update's own reload, or from a read that stored it after
      the eviction. */
  lemma EntryWhileOpen(run: seq<State>, steps: seq<Step>, e: nat, i: nat, ttl: nat, tx: nat, p: UpdateParams,
                       entry: Entry<S.Copy>)
    requires IsRun(run, steps, ttl) && UpdateOpen(run, steps, e, i, tx, p) && !steps[e].fails
    requires HasEntry(run[i], IdKey(p.id), entry)
    ensures if entry.value.dirty then
        run[e].Row(p.id).Some? && entry.value.row == PatchRow(run[e].Row(p.id).value, p)
      else StoredBetween(run, steps, e, i, p.id, entry.value.row)
  {
    if entry.value.dirty {
      var k := StoredAt(run, steps, i, ttl, IdKey(p.id), entry);
      GoneAfterEviction(run, steps, e, i, ttl, tx, p, entry, k);
      LocksHold(run, steps, k, ttl);
      RowWhileOpen(run, steps, e, i, ttl, tx, p, k);
      DirtyStoreIsPromise(run[k], steps[k].step.reader, tx, p);
    } else {
      var j, k := EntryComesFromRead(run, steps, i, ttl, p.id, entry);
      GoneAfterEviction(run, steps, e, i, ttl, tx, p, entry, k);
    }
  }

  lemma DirtyStoreIsPromise(s: State, r: nat, tx: nat, p: UpdateParams)
    requires Locked(s) && LoadsPromised(s) && s.At(tx) == Evicted(Updating(p))
    requires r in s.shared.readers && DirtyLoad(s.shared.readers[r]) && Key(s.shared.readers[r].q) == IdKey(p.id)
    ensures s.Row(p.id).Some? && s.shared.readers[r].copy.row == PatchRow(s.Row(p.id).value, p)
  {
    var row := s.shared.readers[r].copy.row;
    IdKeyInjective(row.id, p.id);
    var owner :| Promises(s, owner, row);
    OneOpenTx(s, tx, owner, p.id);
  }

  /** What an update answers, whatever else runs and fails: the row it commits;
      unless its eviction failed, or a read stored an older row between the
      eviction and the reload, which then answers that row. */
  lemma UpdateAnswers(run: seq<State>, steps: seq<Step>, e: nat, i: nat, c: nat, ttl: nat,
                      tx: nat, p: UpdateParams, a: Account)
    requires IsRun(run, steps, ttl) && e < i < c < |steps|
    requires UpdateOpen(run, steps, e, c, tx, p) && steps[c] == Commit(tx)
    requires Enabled(run[i], steps[i]) && ReloadAnswer(run[i], steps[i], tx) == Some(a)
    ensures run[e].Row(p.id).Some? && run[c + 1].Row(p.id) == Some(PatchRow(run[e].Row(p.id).value, p))
    ensures run[c + 1].Row(p.id) == Some(a) || steps[e].fails || StoredBetween(run, steps, e, i, p.id, a)
  {
    RowWhileOpen(run, steps, e, c, ttl, tx, p, c);
    RowWhileOpen(run, steps, e, c, ttl, tx, p, i);
    assert StepOk(run, steps, c, ttl);
    if steps[i].Read? && !steps[e].fails {
      EntryWhileOpen(run, steps, e, i, ttl, tx, p, run[i].shared.cache.entries[IdKey(p.id)]);
    }
  }

  // ---- what a committed transaction leaves ----

  /** `after` is `before` with the fields the update gives. */
  predicate Patched(before: Account, p: UpdateParams, after: Account) {
    && after.firstName == p.firstName.GetOr(before.firstName)
    && after.lastName == p.lastName.GetOr(before.lastName)
    && after.status == p.status.GetOr(before.status)
    && after.updatedAt == p.updatedAt
    && after.id == before.id && after.email == before.email && after.passwordHash == before.passwordHash
    && after.createdAt == before.createdAt && after.deletedAt == before.deletedAt
  }

  /** From its write at w to its commit at c a transaction stays open. */
  ghost predicate CommitsWrite(run: seq<State>, steps: seq<Step>, w: nat, c: nat, tx: nat, change: Change)
    requires |run| == |steps| + 1
  {
    && w < c < |steps| && steps[w] == Write(tx, change) && steps[c] == Commit(tx)
    && forall m :: w < m <= c ==> !run[m].At(tx).Closed?
  }

  lemma {:induction false} ChangeStays(run: seq<State>, steps: seq<Step>, w: nat, c: nat, ttl: nat, tx: nat, change: Change, m: nat)
    requires IsRun(run, steps, ttl) && CommitsWrite(run, steps, w, c, tx, change) && w < m <= c
    ensures run[m].At(tx).c == change && OpenOn(run[m], tx, change.Id())
    decreases m
  {
    assert StepOk(run, steps, m - 1, ttl);
    if m > w + 1 { ChangeStays(run, steps, w, c, ttl, tx, change, m - 1); }
  }

  /** The row is locked from the write on, so the commit applies the change to the
      row that the write saw. */
  lemma WrittenRowStays(run: seq<State>, steps: seq<Step>, w: nat, c: nat, ttl: nat, tx: nat, change: Change)
    requires IsRun(run, steps, ttl) && CommitsWrite(run, steps, w, c, tx, change)
    ensures run[c].Row(change.Id()) == run[w].Row(change.Id())
  {
    forall m | w <= m < c ensures !CommitsId(run[m], steps[m], change.Id()) {
      if m > w {
        ChangeStays(run, steps, w, c, ttl, tx, change, m);
        LocksHold(run, steps, m, ttl);
        assert StepOk(run, steps, m, ttl);
      }
    }
    RowStays(run, steps, w, c, ttl, change.Id());
  }

  /** What a committed transaction leaves of its row, in every interleaving: an
      update the row it wrote over with its fields, a delete no row, an insert its
      row where there was none. No other row changes. */
  lemma CommitLeaves(run: seq<State>, steps: seq<Step>, w: nat, c: nat, ttl: nat, tx: nat, change: Change)
    requires IsRun(run, steps, ttl) && CommitsWrite(run, steps, w, c, tx, change)
    ensures var (before, after) := (run[w].Row(change.Id()), run[c + 1].Row(change.Id()));
      match change
      case Updating(p) => before.Some? && after.Some? && Patched(before.value, p, after.value)
      case Removing(_) => before.Some? && after == None
      case Inserting(a) => before == None && after == Some(a) && !EmailTaken(run[c].shared.table, a.email)
    ensures forall id :: id != change.Id() ==> run[c + 1].Row(id) == run[c].Row(id)
  {
    WrittenRowStays(run, steps, w, c, ttl, tx, change);
    ChangeStays(run, steps, w, c, ttl, tx, change, c);
    assert StepOk(run, steps, c, ttl);
  }

  /** Updates and deletes commit only after they have tried to evict their key. */
  lemma CommitFollowsEviction(run: seq<State>, steps: seq<Step>, c: nat, ttl: nat, tx: nat) returns (e: nat)
    requires IsRun(run, steps, ttl) && c < |steps| && steps[c] == Commit(tx)
    requires !run[c].At(tx).Closed? && !run[c].At(tx).c.Inserting?
    ensures e < c && steps[e].Evict? && steps[e].tx == tx
    ensures !steps[e].fails ==> IdKey(run[c].At(tx).c.Id()) !in run[e + 1].shared.cache.entries
  {
    assert StepOk(run, steps, c, ttl);
    e := EvictedAt(run, steps, c, ttl, tx, run[c].At(tx).c);
    assert StepOk(run, steps, e, ttl);
  }

  /** Any write can run: on a row nobody else has locked it may be written, evicted
      (which may fail) and, no reload of the row pending, committed or rolled back. */
  lemma WritesCanRun(s: State, tx: nat, change: Change, fails: bool, ttl: nat)
    requires s.At(tx).Closed? && !Reloading(s, change.Id())
    requires forall other :: other in s.txs && !s.txs[other].Closed? ==> s.txs[other].c.Id() != change.Id()
    requires if change.Inserting? then change.a.id !in s.shared.table && !EmailTaken(s.shared.table, change.a.email)
             else change.Id() in s.shared.table
    ensures Enabled(s, Write(tx, change))
    ensures var s1 := Next(s, Write(tx, change), ttl);
      && (!change.Inserting? ==> Enabled(s1, Evict(tx, fails)))
      && var s2 := if change.Inserting? then s1 else Next(s1, Evict(tx, fails), ttl);
      && s2.At(tx) == (if change.Inserting? then Wrote(change) else Evicted(change))
      && (!change.Inserting? && !fails ==> IdKey(change.Id()) !in s2.shared.cache.entries)
      && (change.Inserting? || fails ==> s2.shared.cache == s.shared.cache)
      && s2.shared.table == s.shared.table
      && Enabled(s2, Rollback(tx)) && Next(s2, Rollback(tx), ttl).shared == s2.shared
      && Enabled(s2, Commit(tx)) && Next(s2, Commit(tx), ttl).At(tx).Closed?
  {
    var s1 := Next(s, Write(tx, change), ttl);
    var s2 := if change.Inserting? then s1 else Next(s1, Evict(tx, fails), ttl);
    assert s1.shared.readers == s.shared.readers && s2.shared.readers == s.shared.readers;
    assert !Reloading(s2, change.Id());
  }

  // ---- runs that show the races and the dirty read ----

  /** The table of one row, and the table after an update of it. */
  function OneRow(a: Account): Table {
    map[a.id := a]
  }

  lemma OneRowPatched(a: Account, p: UpdateParams)
    requires p.id == a.id
    ensures Patch(OneRow(a), p) == Some(OneRow(PatchRow(a, p)))
  {
    assert OneRow(a)[p.id := PatchRow(a, p)] == OneRow(PatchRow(a, p));
  }

  function CacheOf(key: string, copy: S.Copy, ttl: nat): Store<S.Copy> {
    Store(map[key := Entry(copy, ttl)], 0)
  }

  const EMPTY: Store<S.Copy> := Store(map[], 0)

  /** A store before time zero plus ttl is served until then. */
  ghost predicate ServesLast(run: seq<State>, steps: seq<Step>, q: Query, copy: S.Copy)
    requires |steps| > 0 && |run| == |steps| + 1
  {
    var n := |steps| - 1;
    Enabled(run[n], steps[n]) && S.Served(run[n].shared, Shared(run[n], steps[n])) == Some((q, copy))
  }

  function EarlyEvictionSteps(p: UpdateParams): seq<Step> {
    var q := ById(p.id);
    [Write(0, Updating(p)), Evict(0, false),
     Read(S.Lookup(0, q, false)), Read(S.Load(0)), Read(S.Put(0, false)),
     Commit(0), Read(S.Lookup(1, q, false))]
  }

  function EarlyEvictionStates(a: Account, p: UpdateParams, ttl: nat): (run: seq<State>)
    requires p.id == a.id
    ensures |run| == 8
  {
    var q, copy := ById(a.id), S.Copy(a, false);
    var full := CacheOf(IdKey(a.id), copy, ttl);
    var before, after := OneRow(a), OneRow(PatchRow(a, p));
    var tx := map[0 := Evicted(Updating(p))];
    [State(S.State(before, EMPTY, map[]), map[]),
     State(S.State(before, EMPTY, map[]), map[0 := Wrote(Updating(p))]),
     State(S.State(before, EMPTY, map[]), tx),
     State(S.State(before, EMPTY, map[0 := S.Missed(q)]), tx),
     State(S.State(before, EMPTY, map[0 := S.Loaded(q, copy, 0)]), tx),
     State(S.State(before, full, map[0 := S.Idle]), tx),
     State(S.State(after, full, map[0 := S.Idle]), map[0 := Closed]),
     State(S.State(after, full, map[0 := S.Idle]), map[0 := Closed])]
  }

  lemma EarlyEvictionBegins(a: Account, p: UpdateParams, ttl: nat, i: nat)
    requires p.id == a.id && ttl > 0 && i < 3
    ensures StepOk(EarlyEvictionStates(a, p, ttl), EarlyEvictionSteps(p), i, ttl)
  {
  }

  lemma EarlyEvictionContinues(a: Account, p: UpdateParams, ttl: nat, i: nat)
    requires p.id == a.id && ttl > 0 && 3 <= i < 5
    ensures StepOk(EarlyEvictionStates(a, p, ttl), EarlyEvictionSteps(p), i, ttl)
  {
  }

  lemma EarlyEvictionEnds(a: Account, p: UpdateParams, ttl: nat, i: nat)
    requires p.id == a.id && ttl > 0 && 5 <= i < 7
    ensures StepOk(EarlyEvictionStates(a, p, ttl), EarlyEvictionSteps(p), i, ttl)
  {
    OneRowPatched(a, p);
  }

  lemma EarlyEvictionIsRace(a: Account, p: UpdateParams, ttl: nat)
    requires p.id == a.id
    ensures Race(EarlyEvictionStates(a, p, ttl), EarlyEvictionSteps(p), a.id, 3, 4, 1, 5)
  {
  }

  /** The eviction comes before the commit, so a read in between caches the old
      row again: without any fault, delay or overlap of load and commit, the old
      row is served after the update has committed. */
  lemma EarlyEvictionServesOldRow(a: Account, p: UpdateParams, ttl: nat) returns (run: seq<State>, steps: seq<Step>)
    requires p.id == a.id && ttl > 0
    ensures IsRun(run, steps, ttl) && EvictionsSucceed(steps) && steps == EarlyEvictionSteps(p)
    ensures ServesLast(run, steps, ById(a.id), S.Copy(a, false))
    ensures run[6].Row(a.id) == Some(PatchRow(a, p)) && Race(run, steps, a.id, 3, 4, 1, 5)
  {
    run, steps := EarlyEvictionStates(a, p, ttl), EarlyEvictionSteps(p);
    EarlyEvictionIsRace(a, p, ttl);
    forall i: nat | i < 7 ensures StepOk(run, steps, i, ttl) {
      if i < 3 {
        EarlyEvictionBegins(a, p, ttl, i);
      } else if i < 5 {
        EarlyEvictionContinues(a, p, ttl, i);
      } else {
        EarlyEvictionEnds(a, p, ttl, i);
      }
    }
  }

  function LateStoreSteps(p: UpdateParams): seq<Step> {
    var q := ById(p.id);
    [Read(S.Lookup(0, q, false)), Read(S.Load(0)),
     Write(0, Updating(p)), Evict(0, false), Commit(0),
     Read(S.Put(0, false)), Read(S.Lookup(1, q, false))]
  }

  function LateStoreStates(a: Account, p: UpdateParams, ttl: nat): (run: seq<State>)
    requires p.id == a.id
    ensures |run| == 8
  {
    var q, copy := ById(a.id), S.Copy(a, false);
    var full := CacheOf(IdKey(a.id), copy, ttl);
    var before, after := OneRow(a), OneRow(PatchRow(a, p));
    var loaded := map[0 := S.Loaded(q, copy, 0)];
    [State(S.State(before, EMPTY, map[]), map[]),
     State(S.State(before, EMPTY, map[0 := S.Missed(q)]), map[]),
     State(S.State(before, EMPTY, loaded), map[]),
     State(S.State(before, EMPTY, loaded), map[0 := Wrote(Updating(p))]),
     State(S.State(before, EMPTY, loaded), map[0 := Evicted(Updating(p))]),
     State(S.State(after, EMPTY, loaded), map[0 := Closed]),
     State(S.State(after, full, map[0 := S.Idle]), map[0 := Closed]),
     State(S.State(after, full, map[0 := S.Idle]), map[0 := Closed])]
  }

  lemma LateStoreBegins(a: Account, p: UpdateParams, ttl: nat, i: nat)
    requires p.id == a.id && ttl > 0 && i < 3
    ensures StepOk(LateStoreStates(a, p, ttl), LateStoreSteps(p), i, ttl)
  {
  }

  lemma LateStoreContinues(a: Account, p: UpdateParams, ttl: nat, i: nat)
    requires p.id == a.id && ttl > 0 && 3 <= i < 5
    ensures StepOk(LateStoreStates(a, p, ttl), LateStoreSteps(p), i, ttl)
  {
    OneRowPatched(a, p);
  }

  lemma LateStoreEnds(a: Account, p: UpdateParams, ttl: nat, i: nat)
    requires p.id == a.id && ttl > 0 && 5 <= i < 7
    ensures StepOk(LateStoreStates(a, p, ttl), LateStoreSteps(p), i, ttl)
  {
  }

  lemma LateStoreIsRace(a: Account, p: UpdateParams, ttl: nat)
    requires p.id == a.id
    ensures Race(LateStoreStates(a, p, ttl), LateStoreSteps(p), a.id, 1, 5, 3, 4)
  {
  }

  /** The other shape: loaded before the write, stored after the commit. */
  lemma LateStoreServesOldRow(a: Account, p: UpdateParams, ttl: nat) returns (run: seq<State>, steps: seq<Step>)
    requires p.id == a.id && ttl > 0
    ensures IsRun(run, steps, ttl) && EvictionsSucceed(steps) && steps == LateStoreSteps(p)
    ensures ServesLast(run, steps, ById(a.id), S.Copy(a, false))
    ensures run[6].Row(a.id) == Some(PatchRow(a, p)) && Race(run, steps, a.id, 1, 5, 3, 4)
  {
    run, steps := LateStoreStates(a, p, ttl), LateStoreSteps(p);
    LateStoreIsRace(a, p, ttl);
    forall i: nat | i < 7 ensures StepOk(run, steps, i, ttl) {
      if i < 3 {
        LateStoreBegins(a, p, ttl, i);
      } else if i < 5 {
        LateStoreContinues(a, p, ttl, i);
      } else {
        LateStoreEnds(a, p, ttl, i);
      }
    }
  }

  function RollbackSteps(p: UpdateParams): seq<Step> {
    var q := ById(p.id);
    [Write(0, Updating(p)), Evict(0, false),
     Read(S.Lookup(0, q, false)), Reload(0, 0), Read(S.Put(0, false)),
     Rollback(0), Read(S.Lookup(1, q, false))]
  }

  function RollbackStates(a: Account, p: UpdateParams, ttl: nat): (run: seq<State>)
    requires p.id == a.id
    ensures |run| == 8
  {
    var q, copy := ById(a.id), S.Copy(PatchRow(a, p), true);
    var full := CacheOf(IdKey(a.id), copy, ttl);
    var tx := map[0 := Evicted(Updating(p))];
    [State(S.State(OneRow(a), EMPTY, map[]), map[]),
     State(S.State(OneRow(a), EMPTY, map[]), map[0 := Wrote(Updating(p))]),
     State(S.State(OneRow(a), EMPTY, map[]), tx),
     State(S.State(OneRow(a), EMPTY, map[0 := S.Missed(q)]), tx),
     State(S.State(OneRow(a), EMPTY, map[0 := S.Loaded(q, copy, 0)]), tx),
     State(S.State(OneRow(a), full, map[0 := S.Idle]), tx),
     State(S.State(OneRow(a), full, map[0 := S.Idle]), map[0 := Closed]),
     State(S.State(OneRow(a), full, map[0 := S.Idle]), map[0 := Closed])]
  }

  lemma RollbackBegins(a: Account, p: UpdateParams, ttl: nat, i: nat)
    requires p.id == a.id && ttl > 0 && i < 3
    ensures StepOk(RollbackStates(a, p, ttl), RollbackSteps(p), i, ttl)
  {
  }

  lemma RollbackContinues(a: Account, p: UpdateParams, ttl: nat, i: nat)
    requires p.id == a.id && ttl > 0 && 3 <= i < 5
    ensures StepOk(RollbackStates(a, p, ttl), RollbackSteps(p), i, ttl)
  {
  }

  lemma RollbackEnds(a: Account, p: UpdateParams, ttl: nat, i: nat)
    requires p.id == a.id && ttl > 0 && 5 <= i < 7
    ensures StepOk(RollbackStates(a, p, ttl), RollbackSteps(p), i, ttl)
  {
  }

  lemma RollbackKeepsRow(a: Account, p: UpdateParams, ttl: nat)
    requires p.id == a.id
    ensures var run := RollbackStates(a, p, ttl); forall i :: 0 <= i < |run| ==> run[i].Row(a.id) == Some(a)
  {
  }

  /** An update whose reload has cached the patched row and which then rolls back:
      that row is served although it is never committed. */
  lemma RolledBackRowIsServed(a: Account, p: UpdateParams, ttl: nat) returns (run: seq<State>, steps: seq<Step>)
    requires p.id == a.id && ttl > 0
    ensures IsRun(run, steps, ttl) && EvictionsSucceed(steps) && steps == RollbackSteps(p)
    ensures ServesLast(run, steps, ById(a.id), S.Copy(PatchRow(a, p), true))
    ensures forall i :: 0 <= i < |run| ==> run[i].Row(a.id) == Some(a)
  {
    run, steps := RollbackStates(a, p, ttl), RollbackSteps(p);
    RollbackKeepsRow(a, p, ttl);
    forall i: nat | i < 7 ensures StepOk(run, steps, i, ttl) {
      if i < 3 {
        RollbackBegins(a, p, ttl, i);
      } else if i < 5 {
        RollbackContinues(a, p, ttl, i);
      } else {
        RollbackEnds(a, p, ttl, i);
      }
    }
  }

  /** The last steps of an update whose reload finds what a read has just stored. */
  function OldAnswerSteps(p: UpdateParams): seq<Step> {
    EarlyEvictionSteps(p)[..5] + [Read(S.Lookup(1, ById(p.id), false)), Commit(0)]
  }

  function OldAnswerStates(a: Account, p: UpdateParams, ttl: nat): (run: seq<State>)
    requires p.id == a.id
    ensures |run| == 8
  {
    var run := EarlyEvictionStates(a, p, ttl);
    run[..6] + [run[5], run[6]]
  }

  lemma OldAnswerStep(a: Account, p: UpdateParams, ttl: nat, i: nat)
    requires p.id == a.id && ttl > 0 && i < 7
    ensures StepOk(OldAnswerStates(a, p, ttl), OldAnswerSteps(p), i, ttl)
  {
    if i < 3 {
      EarlyEvictionBegins(a, p, ttl, i);
    } else if i < 5 {
      EarlyEvictionContinues(a, p, ttl, i);
    } else if i == 6 {
      EarlyEvictionEnds(a, p, ttl, 5);
    }
  }

  /** A faultless update that answers the row it has just replaced: between its
      eviction and its reload another client's read caches the old row. */
  lemma UpdateAnswersOldRow(a: Account, p: UpdateParams, ttl: nat) returns (run: seq<State>, steps: seq<Step>)
    requires p.id == a.id && ttl > 0
    ensures IsRun(run, steps, ttl) && EvictionsSucceed(steps) && steps == OldAnswerSteps(p)
    ensures UpdateOpen(run, steps, 1, 6, 0, p) && steps[6] == Commit(0)
    ensures Enabled(run[5], steps[5]) && ReloadAnswer(run[5], steps[5], 0) == Some(a)
    ensures run[7].Row(a.id) == Some(PatchRow(a, p))
  {
    run, steps := OldAnswerStates(a, p, ttl), OldAnswerSteps(p);
    forall i: nat | i < 7 ensures StepOk(run, steps, i, ttl) {
      OldAnswerStep(a, p, ttl, i);
    }
    assert StepOk(run, steps, 5, ttl);
  }
}
