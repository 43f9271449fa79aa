/** Cached reads of many clients interleaved step by step with committed writes:
    how old an answer can be. */
module Staleness {
  import opened Domain
  import opened AccountTable
  import opened Cache
  import AppErrors

  /** A row as cached; `dirty` records that it was loaded inside a transaction
      from that transaction's own uncommitted write. */
  datatype Copy = Copy(row: Account, dirty: bool)

  /** Where one client is between the steps of a cache-aside read. */
  datatype Reader =
    | Idle
    | Missed(q: Query)
    | Loaded(q: Query, copy: Copy, at: Time)

  datatype State = State(table: Table, cache: Store<Copy>, readers: map<nat, Reader>) {
    function At(r: nat): Reader {
      if r in readers then readers[r] else Idle
    }

    function Move(r: nat, to: Reader): State {
      this.(readers := readers[r := to])
    }
  }

  datatype Step =
    | Tick(pause: nat)
    | Commit(table: Table)                              // any transaction commits
    | Lookup(reader: nat, q: Query, fails: bool)        // a failed lookup is a miss
    | Load(reader: nat)
    | LoadOwn(reader: nat, row: Account)                // reads its own uncommitted row
    | Put(reader: nat, fails: bool)
    | Evict(key: string)
    | Crash(reader: nat)

  predicate Enabled(s: State, step: Step) {
    match step
    case Lookup(r, _, _) => s.At(r).Idle?
    case Load(r) => s.At(r).Missed?
    case LoadOwn(r, row) => s.At(r).Missed? && s.At(r).q == ById(row.id)
    case Put(r, _) => s.At(r).Loaded?
    case _ => true
  }

  function Next(s: State, step: Step, ttl: nat): State
    requires Enabled(s, step)
  {
    match step
    case Tick(pause) => s.(cache := s.cache.Advance(pause))
    case Commit(table) => s.(table := table)
    case Lookup(r, q, fails) => if !fails && s.cache.Live(Key(q)) then s else s.Move(r, Missed(q))
    case Load(r) =>
      var q := s.At(r).q;
      (match Find(s.table, q)
       case None => s.Move(r, Idle)
       case Some(row) => s.Move(r, Loaded(q, Copy(row, false), s.cache.now)))
    case LoadOwn(r, row) => s.Move(r, Loaded(s.At(r).q, Copy(row, true), s.cache.now))
    case Put(r, fails) =>
      if fails then s.Move(r, Idle)
      else
        var l := s.At(r);
        s.Move(r, Idle).(cache := s.cache.Put(Key(l.q), l.copy, ttl))
    case Evict(key) => s.(cache := s.cache.Evict(key))
    case Crash(r) => s.Move(r, Idle)
  }

  /** What a step can touch: the table only a commit; the entries only a successful
      store, under the key of its request, and an eviction, at its key; the clock
      only time; and of the clients only the one that steps, which a store,
      successful or not, and a crash leave idle. */
  lemma StepTouches(s: State, step: Step, ttl: nat)
    requires Enabled(s, step)
    ensures var s' := Next(s, step, ttl);
      && (!step.Commit? ==> s'.table == s.table)
      && (!step.Tick? ==> s'.cache.now == s.cache.now)
      && (step.Tick? ==> s'.cache.now == s.cache.now + step.pause)
      && (!(step.Put? && !step.fails) && !step.Evict? ==> s'.cache.entries == s.cache.entries)
      && (step.Put? && !step.fails ==> forall k :: k != Key(s.At(step.reader).q) ==> SameEntry(s.cache, s'.cache, k))
      && (step.Evict? ==> s'.cache.entries == s.cache.entries - {step.key})
      && (step.Put? || step.Crash? ==> s'.At(step.reader).Idle?)
      && (step.Tick? || step.Commit? || step.Evict? ==> s'.readers == s.readers)
      && (forall r :: !(step.Tick? || step.Commit? || step.Evict?) && r != step.reader ==> s'.At(r) == s.At(r))
  {
  }

  /** Readers may begin whenever they are idle and go on where they are, failing or
      not; commits, evictions, crashes and time may come in at any moment. */
  lemma AnythingCanHappen(s: State, r: nat, q: Query, fails: bool, table: Table, key: string, pause: nat)
    ensures Enabled(s, Commit(table)) && Enabled(s, Evict(key)) && Enabled(s, Crash(r)) && Enabled(s, Tick(pause))
    ensures s.At(r).Idle? ==> Enabled(s, Lookup(r, q, fails))
    ensures s.At(r).Missed? ==> Enabled(s, Load(r))
    ensures forall row: Account :: s.At(r) == Missed(ById(row.id)) ==> Enabled(s, LoadOwn(r, row))
    ensures s.At(r).Loaded? ==> Enabled(s, Put(r, fails))
  {
  }

  /** The request a step answers with an account, and the account. */
  function Served(s: State, step: Step): Option<(Query, Copy)>
    requires Enabled(s, step)
  {
    match step
    case Lookup(_, q, fails) =>
      if !fails && s.cache.Live(Key(q)) then Some((q, s.cache.entries[Key(q)].value)) else None
    case Put(r, fails) => if fails then None else Some((s.At(r).q, s.At(r).copy))
    case _ => None
  }

  /** A run from an empty cache: its states are one more than its steps. */
  ghost predicate IsRun(run: seq<State>, steps: seq<Step>, ttl: nat) {
    && |run| == |steps| + 1
    && run[0].cache.entries == map[] && run[0].readers == map[]
    && forall i :: 0 <= i < |steps| ==> Enabled(run[i], steps[i]) && run[i + 1] == Next(run[i], steps[i], ttl)
  }

  /** No client stores later than `gap` after its load. */
  ghost predicate PromptStores(run: seq<State>, steps: seq<Step>, gap: nat) {
    |run| == |steps| + 1 &&
    forall i :: 0 <= i < |steps| && steps[i].Put? && run[i].At(steps[i].reader).Loaded? ==>
      run[i].cache.now - run[i].At(steps[i].reader).at <= gap
  }

  /** In the j-th state `copy` could be loaded: its row was the committed one of
      its id, or, for a dirty copy, that step loads it as an uncommitted row. */
  predicate SourceAt(run: seq<State>, steps: seq<Step>, j: nat, copy: Copy)
    requires j < |run|
  {
    if copy.dirty then j < |steps| && steps[j].LoadOwn? && steps[j].row == copy.row
    else copy.row.id in run[j].table && run[j].table[copy.row.id] == copy.row
  }

  /** `copy` had a source in some state up to the i-th, not before `since`. */
  ghost predicate HasSource(run: seq<State>, steps: seq<Step>, i: int, copy: Copy, since: Time) {
    exists j: nat :: j <= i && j < |run| && since <= run[j].cache.now && SourceAt(run, steps, j, copy)
  }

  predicate Fits(key: string, row: Account) {
    key == IdKey(row.id) || key == EmailKey(row.email)
  }

  ghost predicate EntryJustified(run: seq<State>, steps: seq<Step>, i: int, key: string, e: Entry<Copy>, age: nat) {
    Fits(key, e.value.row) && HasSource(run, steps, i, e.value, e.expiresAt - age)
  }

  ghost predicate ReaderJustified(run: seq<State>, steps: seq<Step>, i: int, r: Reader) {
    r.Loaded? ==> Fits(Key(r.q), r.copy.row) && HasSource(run, steps, i, r.copy, r.at)
  }

  /** Every entry, and every load still to be stored, has a source. */
  ghost predicate Justified(run: seq<State>, steps: seq<Step>, i: int, age: nat)
    requires 0 <= i < |run|
  {
    && (forall k :: k in run[i].cache.entries ==> EntryJustified(run, steps, i, k, run[i].cache.entries[k], age))
    && (forall r: nat :: r in run[i].readers ==> ReaderJustified(run, steps, i, run[i].readers[r]))
  }

  lemma SourceWeakens(run: seq<State>, steps: seq<Step>, i: int, i': int, copy: Copy, since: Time, since': Time)
    requires HasSource(run, steps, i, copy, since) && i <= i' && since' <= since
    ensures HasSource(run, steps, i', copy, since')
  {
    var j: nat :| j <= i && j < |run| && since <= run[j].cache.now && SourceAt(run, steps, j, copy);
    assert j <= i' && since' <= run[j].cache.now;
  }

  /** What a load brings is justified by the state it reads. */
  lemma LoadIsJustified(run: seq<State>, steps: seq<Step>, i: nat, ttl: nat)
    requires IsRun(run, steps, ttl) && i < |steps| && (steps[i].Load? || steps[i].LoadOwn?)
    ensures ReaderJustified(run, steps, i + 1, run[i + 1].At(steps[i].reader))
  {
    var s, step := run[i], steps[i];
    assert run[i + 1] == Next(s, step, ttl);
    var l := run[i + 1].At(step.reader);
    if l.Loaded? {
      assert SourceAt(run, steps, i, l.copy) && s.cache.now == l.at;
    }
  }

  lemma StoreIsJustified(run: seq<State>, steps: seq<Step>, i: nat, l: Reader, now: Time, ttl: nat, gap: nat)
    requires l.Loaded? && ReaderJustified(run, steps, i, l) && now - l.at <= gap
    ensures EntryJustified(run, steps, i + 1, Key(l.q), Entry(l.copy, now + ttl), ttl + gap)
  {
    SourceWeakens(run, steps, i, i + 1, l.copy, l.at, now + ttl - (ttl + gap));
  }

  /** Only a successful store adds or changes an entry. */
  lemma OnlyPutStores(s: State, step: Step, ttl: nat, k: string)
    requires Enabled(s, step) && k in Next(s, step, ttl).cache.entries
    requires !(k in s.cache.entries && Next(s, step, ttl).cache.entries[k] == s.cache.entries[k])
    ensures step.Put? && s.At(step.reader).Loaded?
    ensures var l := s.At(step.reader);
      k == Key(l.q) && Next(s, step, ttl).cache.entries[k] == Entry(l.copy, s.cache.now + ttl)
  {
  }

  lemma EntryAfterStep(run: seq<State>, steps: seq<Step>, i: nat, ttl: nat, gap: nat, k: string)
    requires IsRun(run, steps, ttl) && PromptStores(run, steps, gap) && i < |steps|
    requires Justified(run, steps, i, ttl + gap) && k in run[i + 1].cache.entries
    ensures EntryJustified(run, steps, i + 1, k, run[i + 1].cache.entries[k], ttl + gap)
  {
    var s, s', step := run[i], run[i + 1], steps[i];
    assert s' == Next(s, step, ttl);
    if k in s.cache.entries && s'.cache.entries[k] == s.cache.entries[k] {
      var e := s.cache.entries[k];
      assert EntryJustified(run, steps, i, k, e, ttl + gap);
      SourceWeakens(run, steps, i, i + 1, e.value, e.expiresAt - (ttl + gap), e.expiresAt - (ttl + gap));
    } else {
      OnlyPutStores(s, step, ttl, k);
      assert step.reader in s.readers && ReaderJustified(run, steps, i, s.readers[step.reader]);
      StoreIsJustified(run, steps, i, s.At(step.reader), s.cache.now, ttl, gap);
    }
  }

  /** Only a load brings a reader a copy. */
  lemma OnlyLoadsBring(s: State, step: Step, ttl: nat, r: nat)
    requires Enabled(s, step) && r in Next(s, step, ttl).readers && Next(s, step, ttl).readers[r].Loaded?
    requires !(r in s.readers && Next(s, step, ttl).readers[r] == s.readers[r])
    ensures (step.Load? || step.LoadOwn?) && step.reader == r
  {
  }

  lemma ReaderAfterStep(run: seq<State>, steps: seq<Step>, i: nat, ttl: nat, age: nat, r: nat)
    requires IsRun(run, steps, ttl) && i < |steps|
    requires Justified(run, steps, i, age) && r in run[i + 1].readers
    ensures ReaderJustified(run, steps, i + 1, run[i + 1].readers[r])
  {
    var s, l, step := run[i], run[i + 1].readers[r], steps[i];
    assert run[i + 1] == Next(s, step, ttl);
    if r in s.readers && l == s.readers[r] {
      assert ReaderJustified(run, steps, i, s.readers[r]);
      if l.Loaded? { SourceWeakens(run, steps, i, i + 1, l.copy, l.at, l.at); }
    } else if l.Loaded? {
      OnlyLoadsBring(s, step, ttl, r);
      LoadIsJustified(run, steps, i, ttl);
    }
  }

  lemma {:induction false} RunIsJustified(run: seq<State>, steps: seq<Step>, i: nat, ttl: nat, gap: nat)
    requires IsRun(run, steps, ttl) && PromptStores(run, steps, gap) && i < |run|
    ensures Justified(run, steps, i, ttl + gap)
    decreases i
  {
    if i > 0 {
      RunIsJustified(run, steps, i - 1, ttl, gap);
      forall k | k in run[i].cache.entries
        ensures EntryJustified(run, steps, i, k, run[i].cache.entries[k], ttl + gap)
      {
        EntryAfterStep(run, steps, i - 1, ttl, gap, k);
      }
      forall r: nat | r in run[i].readers ensures ReaderJustified(run, steps, i, run[i].readers[r]) {
        ReaderAfterStep(run, steps, i - 1, ttl, ttl + gap, r);
      }
    }
  }

  /** Bounded staleness, over every interleaving: an account served at time t
      answers the request (its email up to letter case) and, at some moment in
      [t - ttl - gap, t], was the committed row of its id; or, if its copy came
      from inside a transaction, was loaded there uncommitted in that window. */
  lemma BoundedStaleness(run: seq<State>, steps: seq<Step>, i: nat, ttl: nat, gap: nat)
    requires IsRun(run, steps, ttl) && PromptStores(run, steps, gap) && i < |steps|
    requires Served(run[i], steps[i]).Some?
    ensures var (q, copy) := Served(run[i], steps[i]).value;
      var t := run[i].cache.now;
      && Answers(copy.row, q)
      && exists j: nat :: j <= i && t - ttl - gap <= run[j].cache.now <= t && SourceAt(run, steps, j, copy)
  {
    RunIsJustified(run, steps, i, ttl, gap);
    var (q, copy) := Served(run[i], steps[i]).value;
    var t := run[i].cache.now;
    if steps[i].Lookup? {
      var e := run[i].cache.entries[Key(q)];
      assert EntryJustified(run, steps, i, Key(q), e, ttl + gap);
      SourceWeakens(run, steps, i, i, copy, e.expiresAt - (ttl + gap), t - ttl - gap);
    } else {
      var l := run[i].At(steps[i].reader);
      assert ReaderJustified(run, steps, i, l);
      SourceWeakens(run, steps, i, i, copy, l.at, t - ttl - gap);
    }
    SharedKeyAnswers(copy.row, q);
    var j: nat :| j <= i && j < |run| && t - ttl - gap <= run[j].cache.now && SourceAt(run, steps, j, copy);
    ClockMonotone(run, steps, j, i, ttl);
  }

  lemma {:induction false} ClockMonotone(run: seq<State>, steps: seq<Step>, j: nat, i: nat, ttl: nat)
    requires IsRun(run, steps, ttl) && j <= i < |run|
    ensures run[j].cache.now <= run[i].cache.now
    decreases i
  {
    if j < i {
      ClockMonotone(run, steps, j, i - 1, ttl);
      assert run[i - 1 + 1] == Next(run[i - 1], steps[i - 1], ttl);
    }
  }

  function TightSteps(row: Account, ttl: nat, gap: nat): seq<Step>
    requires ttl > 0
  {
    var q := ByEmail(row.email);
    [Lookup(0, q, false), Load(0), Commit(map[]), Tick(gap), Put(0, false), Tick(ttl - 1), Lookup(1, q, false)]
  }

  /** The states those steps lead through from a table of this one row. */
  function TightStates(row: Account, ttl: nat, gap: nat): (run: seq<State>)
    requires ttl > 0
    ensures |run| == 8
  {
    var q, copy := ByEmail(row.email), Copy(row, false);
    var empty: Store<Copy> := Store(map[], 0);
    var full := Store(map[Key(q) := Entry(copy, gap + ttl)], gap);
    var table: Table := map[row.id := row];
    [State(table, empty, map[]),
     State(table, empty, map[0 := Missed(q)]),
     State(table, empty, map[0 := Loaded(q, copy, 0)]),
     State(map[], empty, map[0 := Loaded(q, copy, 0)]),
     State(map[], Store(map[], gap), map[0 := Loaded(q, copy, 0)]),
     State(map[], full, map[0 := Idle]),
     State(map[], full.Advance(ttl - 1), map[0 := Idle]),
     State(map[], full.Advance(ttl - 1), map[0 := Idle])]
  }

  lemma TightLoad(row: Account)
    ensures var table: Table := map[row.id := row]; Find(table, ByEmail(row.email)) == Some(row)
  {
    var table: Table := map[row.id := row];
    assert table[row.id].email == row.email;
  }

  lemma TightRun(row: Account, ttl: nat, gap: nat, i: nat)
    requires ttl > 0 && i < 7
    ensures var run, steps := TightStates(row, ttl, gap), TightSteps(row, ttl, gap);
      Enabled(run[i], steps[i]) && run[i + 1] == Next(run[i], steps[i], ttl)
  {
    if i == 1 { TightLoad(row); }
  }

  /** The bound is reached: for every time to live and gap there is a run that
      serves by email, long after the row was deleted, a row last committed
      ttl + gap - 1 before. */
  lemma BoundIsTight(row: Account, ttl: nat, gap: nat) returns (run: seq<State>, steps: seq<Step>)
    requires ttl > 0
    ensures IsRun(run, steps, ttl) && PromptStores(run, steps, gap) && |steps| == 7
    ensures Served(run[6], steps[6]) == Some((ByEmail(row.email), Copy(row, false)))
    ensures forall j :: 0 <= j < |run| && row.id in run[j].table ==>
      run[j].cache.now == run[6].cache.now - ttl - gap + 1
  {
    run, steps := TightStates(row, ttl, gap), TightSteps(row, ttl, gap);
    forall i: nat | i < 7 ensures Enabled(run[i], steps[i]) && run[i + 1] == Next(run[i], steps[i], ttl) {
      TightRun(row, ttl, gap, i);
    }
  }

  /** The steps are those of the cache-aside read: a client that performs them
      with nobody in between leaves the cache, and is answered, as CacheAside
      says. */
  lemma StepsAreCacheAside(s: State, r: nat, q: Query, ttl: nat, io: ReadIO)
    requires s.At(r).Idle?
    ensures var loaded := match Find(s.table, q)
              case Some(row) => Success(Copy(row, false))
              case None => Failure(AppErrors.ReadErr(AppErrors.ERR_NO_ROWS));
      var (cache, answer) := CacheAside(s.cache, Key(q), loaded, ttl, io);
      var s1 := Next(s, Lookup(r, q, io.lookupFails), ttl);
      if s1.At(r).Idle? then
        cache == s1.cache && Served(s, Lookup(r, q, io.lookupFails)) == Some((q, answer.value))
      else
        var s2 := Next(Next(s1, Tick(io.loadPause), ttl), Load(r), ttl);
        if s2.At(r).Idle? then cache == s2.cache && answer == loaded && answer.Failure?
        else
          var s3 := Next(s2, Tick(io.storePause), ttl);
          var put := Put(r, io.storeError.Some?);
          && cache == Next(s3, put, ttl).cache
          && (answer.Success? <==> Served(s3, put).Some?)
          && (answer.Success? ==> Served(s3, put) == Some((q, answer.value)))
  {
  }
}
