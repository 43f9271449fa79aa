/** The lock-guarded periodic job of one worker and its run counters. */
module Worker {
  import opened Domain
  import opened RedisLock

  /** The environment of one tick: the time since the last one, the token drawn,
      the fate of both requests, and how long the job takes and whether it fails. */
  datatype TickIO = TickIO(
    idle: nat, token: Option<Token>, acquireNet: Net,
    jobPause: nat, jobFails: bool, releaseNet: Net)

  datatype Outcome = Skipped | Ok | Error

  /** What one tick does to the lock server and how it is counted. Every error of
      the acquisition is counted as skipped; the release is deferred, so it is
      attempted on both ways out of the job. */
  function Tick(s: Redis, key: string, ttl: nat, io: TickIO): (Redis, Outcome) {
    var (s1, r) := Acquiring(s.Advance(io.idle), key, ttl, io.token, io.acquireNet);
    if !r.Acquired? then (s1, Skipped)
    else (Releasing(s1.Advance(io.jobPause), r.handle, io.releaseNet), if io.jobFails then Error else Ok)
  }

  /** The token of the acquisition the server answers as granted, if this tick
      makes one. */
  function Grant(s: Redis, key: string, ttl: nat, io: TickIO): seq<Token> {
    match Acquiring(s.Advance(io.idle), key, ttl, io.token, io.acquireNet).1
    case Acquired(h) => [h.token]
    case _ => []
  }

  /** The run counters. */
  datatype Tally = Tally(skipped: nat, ok: nat, failed: nat) {
    function Count(o: Outcome): Tally {
      match o
      case Skipped => this.(skipped := skipped + 1)
      case Ok => this.(ok := ok + 1)
      case Error => this.(failed := failed + 1)
    }
  }

  class Job {
    const locker: Locker
    const key: string
    const ttl: nat
    var tally: Tally

    constructor (locker: Locker, key: string, ttl: nat)
      ensures this.locker == locker && this.key == key && this.ttl == ttl
      ensures tally == Tally(0, 0, 0)
    {
      this.locker, this.key, this.ttl := locker, key, ttl;
      tally := Tally(0, 0, 0);
    }

    /** One tick. The locker's records grow by the grant, if any, and by exactly
        one release request for it. */
    method RunHousekeeping(io: TickIO) returns (outcome: Outcome)
      modifies this, locker, locker.client
      ensures (locker.client.State(), outcome) == Tick(old(locker.client.State()), key, ttl, io)
      ensures tally == old(tally).Count(outcome)
      ensures outcome == Error <==> |locker.granted| > |old(locker.granted)| && io.jobFails
      ensures outcome == Ok <==> |locker.granted| > |old(locker.granted)| && !io.jobFails
      ensures locker.granted == old(locker.granted) + Grant(old(locker.client.State()), key, ttl, io)
      ensures locker.requested == old(locker.requested) + Grant(old(locker.client.State()), key, ttl, io)
    {
      locker.client.Wait(io.idle);
      var r := locker.Acquire(key, ttl, io.token, io.acquireNet);
      if !r.Acquired? {
        tally := tally.(skipped := tally.skipped + 1);
        return Skipped;
      }
      locker.client.Wait(io.jobPause);
      if io.jobFails {
        tally := tally.(failed := tally.failed + 1);
        outcome := Error;
      } else {
        tally := tally.(ok := tally.ok + 1);
        outcome := Ok;
      }
      var _ := locker.Release(r.handle, io.releaseNet);
    }

    /** The ticker loop up to some tick: every tick is counted exactly once; ok
        and error are the acquisitions the server granted; the releases requested
        are those of the granted tokens, one each, in order, and no others. */
    method RunTicks(ios: seq<TickIO>)
      modifies this, locker, locker.client
      ensures (tally.skipped - old(tally.skipped)) + (tally.ok - old(tally.ok)) + (tally.failed - old(tally.failed)) == |ios|
      ensures (tally.ok - old(tally.ok)) + (tally.failed - old(tally.failed)) == |locker.granted| - |old(locker.granted)|
      ensures tally.failed - old(tally.failed) == RunsThat(old(locker.client.State()), old(tally), key, ttl, ios, true)
      ensures tally.ok - old(tally.ok) == RunsThat(old(locker.client.State()), old(tally), key, ttl, ios, false)
      ensures old(locker.granted) <= locker.granted && old(locker.requested) <= locker.requested
      ensures locker.requested[|old(locker.requested)|..] == locker.granted[|old(locker.granted)|..]
      ensures DistinctTokens(ios) ==> Distinct(locker.requested[|old(locker.requested)|..])
      ensures (locker.client.State(), tally) == Ticks(old(locker.client.State()), old(tally), key, ttl, ios)
    {
      ghost var s, t := locker.client.State(), tally;
      ghost var granted, requested := locker.granted, locker.requested;
      for i := 0 to |ios|
        invariant (locker.client.State(), tally) == Ticks(s, t, key, ttl, ios[..i])
        invariant locker.granted == granted + Grants(s, t, key, ttl, ios[..i])
        invariant locker.requested == requested + Grants(s, t, key, ttl, ios[..i])
      {
        TicksNext(s, t, key, ttl, ios, i);
        var _ := RunHousekeeping(ios[i]);
      }
      assert ios[..|ios|] == ios;
      AppendedAfter(granted, Grants(s, t, key, ttl, ios));
      AppendedAfter(requested, Grants(s, t, key, ttl, ios));
      TicksBalance(s, t, key, ttl, ios);
      if DistinctTokens(ios) { GrantsDistinct(s, t, key, ttl, ios); }
    }
  }

  lemma AppendedAfter(before: seq<Token>, more: seq<Token>)
    ensures before <= before + more && (before + more)[|before|..] == more
  {
  }

  function Ticks(s: Redis, t: Tally, key: string, ttl: nat, ios: seq<TickIO>): (Redis, Tally)
    decreases |ios|
  {
    if ios == [] then (s, t)
    else
      var n := |ios| - 1;
      var (s', t') := Ticks(s, t, key, ttl, ios[..n]);
      var (s'', o) := Tick(s', key, ttl, ios[n]);
      (s'', t'.Count(o))
  }

  /** The tokens granted over a list of ticks. */
  function Grants(s: Redis, t: Tally, key: string, ttl: nat, ios: seq<TickIO>): seq<Token>
    decreases |ios|
  {
    if ios == [] then []
    else
      var n := |ios| - 1;
      Grants(s, t, key, ttl, ios[..n]) + Grant(Ticks(s, t, key, ttl, ios[..n]).0, key, ttl, ios[n])
  }

  /** How many of the ticks are granted the lock and have a job that fails, or one
      that does not. */
  function RunsThat(s: Redis, t: Tally, key: string, ttl: nat, ios: seq<TickIO>, fails: bool): nat
    decreases |ios|
  {
    if ios == [] then 0
    else
      var n := |ios| - 1;
      var counts := Runs(Ticks(s, t, key, ttl, ios[..n]).0, key, ios[n]) && ios[n].jobFails == fails;
      RunsThat(s, t, key, ttl, ios[..n], fails) + if counts then 1 else 0
  }

  lemma TicksNext(s: Redis, t: Tally, key: string, ttl: nat, ios: seq<TickIO>, i: nat)
    requires i < |ios|
    ensures var (s', t') := Ticks(s, t, key, ttl, ios[..i]);
      var (s'', o) := Tick(s', key, ttl, ios[i]);
      && Ticks(s, t, key, ttl, ios[..i + 1]) == (s'', t'.Count(o))
      && Grants(s, t, key, ttl, ios[..i + 1]) == Grants(s, t, key, ttl, ios[..i]) + Grant(s', key, ttl, ios[i])
  {
    assert ios[..i + 1][..i] == ios[..i];
  }

  /** The accounting identities, over every list of ticks: skipped, ok and error
      add up to the ticks, and ok and error to the acquisitions granted. */
  lemma {:induction false} TicksBalance(s: Redis, t: Tally, key: string, ttl: nat, ios: seq<TickIO>)
    ensures var t' := Ticks(s, t, key, ttl, ios).1;
      && (t'.skipped - t.skipped) + (t'.ok - t.ok) + (t'.failed - t.failed) == |ios|
      && (t'.ok - t.ok) + (t'.failed - t.failed) == |Grants(s, t, key, ttl, ios)|
      && t'.failed - t.failed == RunsThat(s, t, key, ttl, ios, true)
      && t'.ok - t.ok == RunsThat(s, t, key, ttl, ios, false)
    decreases |ios|
  {
    if ios != [] {
      TicksBalance(s, t, key, ttl, ios[..|ios| - 1]);
    }
  }

  predicate Distinct(tokens: seq<Token>) {
    forall i, j :: 0 <= i < j < |tokens| ==> tokens[i] != tokens[j]
  }

  /** No token is drawn twice. */
  predicate DistinctTokens(ios: seq<TickIO>) {
    forall i, j :: 0 <= i < j < |ios| && ios[i].token.Some? ==> ios[i].token != ios[j].token
  }

  /** So no token is granted twice either, and every granted token was drawn. */
  lemma {:induction false} GrantsDistinct(s: Redis, t: Tally, key: string, ttl: nat, ios: seq<TickIO>)
    requires DistinctTokens(ios)
    ensures Distinct(Grants(s, t, key, ttl, ios))
    ensures forall g :: g in Grants(s, t, key, ttl, ios) ==> exists i :: 0 <= i < |ios| && ios[i].token == Some(g)
    decreases |ios|
  {
    if ios != [] {
      var n := |ios| - 1;
      GrantsDistinct(s, t, key, ttl, ios[..n]);
      var before, last := Grants(s, t, key, ttl, ios[..n]), Grant(Ticks(s, t, key, ttl, ios[..n]).0, key, ttl, ios[n]);
      assert forall g :: g in last ==> ios[n].token == Some(g);
      forall g | g in before ensures g !in last && exists i :: 0 <= i < |ios| && ios[i].token == Some(g) {
        var i :| 0 <= i < n && ios[..n][i].token == Some(g);
        assert ios[i].token == Some(g);
      }
    }
  }

  // ---- who runs of two ticks ----

  /** The server sets the lease for this tick. */
  predicate SetsLease(s: Redis, key: string, io: TickIO) {
    io.token.Some? && io.acquireNet.Executed() && !s.Advance(io.idle).Held(LockKey(key))
  }

  /** The tick runs the job: the lease is set and the answer arrives. */
  predicate Runs(s: Redis, key: string, io: TickIO) {
    SetsLease(s, key, io) && io.acquireNet.Answered?
  }

  /** How one tick is counted: skipped exactly when it does not run, else by what
      its job did. And what it leaves on the server: its lease, unless it ran and
      its release arrived in time. */
  lemma TickExact(s: Redis, key: string, ttl: nat, io: TickIO)
    ensures var (s', o) := Tick(s, key, ttl, io);
      && (o == Skipped <==> !Runs(s, key, io))
      && (o == Error <==> Runs(s, key, io) && io.jobFails)
      && (o == Ok <==> Runs(s, key, io) && !io.jobFails)
      && s'.now == s.now + io.idle + (if Runs(s, key, io) then io.jobPause else 0)
      && var lease := Lease(io.token.GetOr(""), if ttl == 0 then None else Some(s.now + io.idle + ttl));
         var released := Runs(s, key, io) && io.releaseNet.Executed() && (ttl == 0 || io.jobPause < ttl);
         s'.leases == if !SetsLease(s, key, io) then s.leases
                      else if released then s.leases - {LockKey(key)} else s.leases[LockKey(key) := lease]
  {
    var asked := s.Advance(io.idle);
    assert asked.leases == s.leases;
    if SetsLease(s, key, io) {
      var leased := asked.SetNX(LockKey(key), io.token.value, ttl).0;
      assert leased.leases - {LockKey(key)} == s.leases - {LockKey(key)};
    }
  }

  /** The key is held when the second tick asks: by the lease the first tick set,
      which its holder has not released and which has not run out, the holder
      being nobody if the reply was lost; or by a lease that stood before both. */
  predicate LockedOut(s: Redis, key: string, ttl: nat, first: TickIO, second: TickIO) {
    if SetsLease(s, key, first) then
      && !(Runs(s, key, first) && first.releaseNet.Executed())
      && (ttl == 0 || (if Runs(s, key, first) then first.jobPause else 0) + second.idle < ttl)
    else
      s.Advance(first.idle + second.idle).Held(LockKey(key))
  }

  /** The tick draws a token and gets an answer. */
  predicate Asks(io: TickIO) {
    io.token.Some? && io.acquireNet.Answered?
  }

  /** Of two ticks one after the other, of any replicas and whatever is stored,
      which run, and when exactly one does. */
  lemma NextTickExact(s: Redis, key: string, ttl: nat, first: TickIO, second: TickIO)
    ensures var (s', o) := Tick(s, key, ttl, first);
      var o' := Tick(s', key, ttl, second).1;
      && (o != Skipped <==> Runs(s, key, first))
      && (o' != Skipped <==> Asks(second) && !LockedOut(s, key, ttl, first, second))
      && ((o != Skipped) != (o' != Skipped) <==>
            if Runs(s, key, first) then !Asks(second) || LockedOut(s, key, ttl, first, second)
            else Asks(second) && !LockedOut(s, key, ttl, first, second))
  {
  }

  /** Neither runs: the reply to the first acquisition is lost, and the lease it
      left locks the second out although its network is perfect. */
  lemma OrphanLeaseSkipsBoth(s: Redis, key: string, ttl: nat, first: TickIO, second: TickIO)
    requires SetsLease(s, key, first) && first.acquireNet.ReplyLost?
    requires Asks(second)
    ensures var (s', o) := Tick(s, key, ttl, first);
      && o == Skipped
      && (Tick(s', key, ttl, second).1 == Skipped <==> ttl == 0 || second.idle < ttl)
  {
  }

  /** Both run: the first has finished and its release has arrived. */
  lemma FinishedRunLetsNextRun(s: Redis, key: string, ttl: nat, first: TickIO, second: TickIO)
    requires Runs(s, key, first) && first.releaseNet.Executed()
    requires Asks(second)
    ensures var (s', o) := Tick(s, key, ttl, first);
      o != Skipped && Tick(s', key, ttl, second).1 != Skipped
  {
  }

  /** A tick that acquires in time and whose release arrives leaves every other
      key alone and its own key free; a skipped one leaves every lease in force
      as it was. */
  lemma TickLeaves(s: Redis, key: string, ttl: nat, io: TickIO, k: string)
    ensures var (s', o) := Tick(s, key, ttl, io);
      && (k != LockKey(key) && s'.Held(k) ==> s.Held(k) && s'.leases[k] == s.leases[k])
      && (k != LockKey(key) && k in s.leases ==> k in s'.leases && s'.leases[k] == s.leases[k])
      && (o == Skipped && s.Advance(io.idle).Held(k) ==> k in s'.leases && s'.leases[k] == s.leases[k])
      && (o != Skipped ==> !s.Advance(io.idle).Held(LockKey(key)))
      && (o != Skipped && io.releaseNet.Executed() ==> !s'.Held(LockKey(key)))
  {
  }
}
