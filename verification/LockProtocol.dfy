/** Any number of replicas competing for leases: time passes, processes crash,
    requests are lost, and releases arrive late or more than once. */
module LockProtocol {
  import opened Domain
  import opened RedisLock

  /** One acquisition as its holder knows it, numbered in order of acquisition;
      `until` is when the server lets the lease expire. */
  datatype Holder = Holder(key: string, token: Token, until: Option<Time>, number: nat)

  datatype Phase = Idle | Running(h: Holder)

  /** `sent` are the releases ever handed to the network: each may be delivered
      at any later time, any number of times, or never. */
  datatype State = State(redis: Redis, replicas: map<nat, Phase>, sent: set<Holder>, issued: set<Token>, count: nat) {
    function At(r: nat): Phase {
      if r in replicas then replicas[r] else Idle
    }
  }

  datatype Step =
    | Tick(pause: nat)
    | Acquire(replica: nat, key: string, token: Token, ttl: nat, net: Net)
    | Leave(replica: nat)
    | Deliver(h: Holder)
    | Crash(replica: nat)

  /** A replica acquires outside its guarded section, with a fresh token. */
  predicate Enabled(s: State, step: Step) {
    match step
    case Acquire(r, _, token, _, _) => s.At(r).Idle? && token !in s.issued
    case Leave(r) => s.At(r).Running?
    case Deliver(h) => h in s.sent
    case _ => true
  }

  /** The server sets the lease in this step. */
  predicate Granted(s: State, step: Step) {
    step.Acquire? && step.net.Executed() && !s.redis.Held(LockKey(step.key))
  }

  function Next(s: State, step: Step): State
    requires Enabled(s, step)
  {
    match step
    case Tick(pause) => s.(redis := s.redis.Advance(pause))
    case Acquire(r, key, token, ttl, net) =>
      var (redis, result) := Acquiring(s.redis, key, ttl, Some(token), net);
      var h := Holder(LockKey(key), token, Expiry(s.redis.now, ttl), s.count);
      State(redis,
            if result.Acquired? then s.replicas[r := Running(h)] else s.replicas,
            s.sent, s.issued + {token}, s.count + 1)
    case Leave(r) => s.(replicas := s.replicas[r := Idle], sent := s.sent + {s.At(r).h})
    case Deliver(h) => s.(redis := Releasing(s.redis, Handle(h.key, h.token), Answered))
    case Crash(r) => s.(replicas := s.replicas[r := Idle])
  }

  /** Nothing the network or a crash can do is excluded: any replica that is not
      inside may ask with a fresh token and any fate of its request, whoever is
      inside may leave, whoever may crash, and any release sent may arrive. */
  lemma AnythingCanHappen(s: State, r: nat, key: string, token: Token, ttl: nat, net: Net, h: Holder)
    ensures s.At(r).Idle? && token !in s.issued ==>
      var s' := Next(s, Acquire(r, key, token, ttl, net));
      && (s'.At(r).Running? <==> net.Answered? && !s.redis.Held(LockKey(key)))
      && (net.ReplyLost? && !s.redis.Held(LockKey(key)) ==> s'.redis.Held(LockKey(key)) || Expired(Expiry(s.redis.now, ttl), s.redis.now))
      && (net.RequestLost? ==> s'.redis == s.redis)
    ensures s.At(r).Running? ==>
      Next(s, Leave(r)).At(r).Idle? && Next(s, Leave(r)).sent == s.sent + {s.At(r).h} && Next(s, Leave(r)).redis == s.redis
    ensures Next(s, Crash(r)).At(r).Idle? && Next(s, Crash(r)).sent == s.sent && Next(s, Crash(r)).redis == s.redis
    ensures h in s.sent ==> Enabled(s, Deliver(h)) && Next(s, Deliver(h)).replicas == s.replicas
  {
  }

  ghost predicate IsRun(run: seq<State>, steps: seq<Step>) {
    && |run| == |steps| + 1
    && run[0].redis.leases == map[] && run[0].replicas == map[] && run[0].sent == {}
    && forall i :: 0 <= i < |steps| ==> Enabled(run[i], steps[i]) && run[i + 1] == Next(run[i], steps[i])
  }

  predicate Inside(s: State, r: nat) {
    r in s.replicas && s.replicas[r].Running?
  }

  function HolderOf(s: State, r: nat): Holder
    requires Inside(s, r)
  {
    s.replicas[r].h
  }

  /** Tokens tell acquisitions apart; a holder whose lease has not expired still
      owns it on the server; of two holders of a key the earlier one's lease has
      expired. */
  ghost predicate Inv(s: State) {
    && (forall h :: h in s.sent ==> h.token in s.issued)
    && (forall k :: k in s.redis.leases ==> s.redis.leases[k].token in s.issued)
    && (forall r :: Inside(s, r) ==> HolderOf(s, r).token in s.issued && HolderOf(s, r).number < s.count)
    && (forall r, h :: Inside(s, r) && h in s.sent ==> HolderOf(s, r).token != h.token)
    && (forall r, q | Inside(s, r) && Inside(s, q) && r != q ::
          HolderOf(s, r).token != HolderOf(s, q).token && HolderOf(s, r).number != HolderOf(s, q).number)
    && (forall r | Inside(s, r) && !Expired(HolderOf(s, r).until, s.redis.now) :: Owns(s, HolderOf(s, r)))
    && (forall r, q | Inside(s, r) && Inside(s, q) && HolderOf(s, r).key == HolderOf(s, q).key
                      && HolderOf(s, r).number < HolderOf(s, q).number ::
          Expired(HolderOf(s, r).until, s.redis.now))
  }

  predicate Owns(s: State, h: Holder) {
    h.key in s.redis.leases && s.redis.leases[h.key] == Lease(h.token, h.until)
  }

  /** Whoever is inside after a step was inside before it, with the same lease,
      or has just been granted one. */
  lemma InsideBefore(s: State, step: Step, r: nat)
    requires Enabled(s, step) && Inside(Next(s, step), r)
    ensures var h := HolderOf(Next(s, step), r);
      || (Inside(s, r) && HolderOf(s, r) == h && (step.Leave? || step.Acquire? ==> step.replica != r))
      || (Granted(s, step) && step.replica == r && !Inside(s, r)
          && h == Holder(LockKey(step.key), step.token, Expiry(s.redis.now, step.ttl), s.count))
  {
  }

  lemma StepKeepsTokens(s: State, step: Step)
    requires Inv(s) && Enabled(s, step)
    ensures var s' := Next(s, step);
      && (forall h :: h in s'.sent ==> h.token in s'.issued)
      && (forall k :: k in s'.redis.leases ==> s'.redis.leases[k].token in s'.issued)
      && (forall r :: Inside(s', r) ==> HolderOf(s', r).token in s'.issued && HolderOf(s', r).number < s'.count)
      && (forall r, h :: Inside(s', r) && h in s'.sent ==> HolderOf(s', r).token != h.token)
  {
    var s' := Next(s, step);
    forall r | Inside(s', r)
      ensures HolderOf(s', r).token in s'.issued && HolderOf(s', r).number < s'.count
      ensures forall h :: h in s'.sent ==> HolderOf(s', r).token != h.token
    {
      InsideBefore(s, step, r);
      forall h | h in s'.sent ensures HolderOf(s', r).token != h.token {
        if step.Leave? && h !in s.sent {
          assert Inside(s, step.replica) && h == HolderOf(s, step.replica);
        }
      }
    }
    if step.Leave? { assert Inside(s, step.replica); }
  }

  lemma StepKeepsOwnership(s: State, step: Step, r: nat)
    requires Inv(s) && Enabled(s, step) && Inside(Next(s, step), r)
    requires var s' := Next(s, step); !Expired(HolderOf(s', r).until, s'.redis.now)
    ensures Owns(Next(s, step), HolderOf(Next(s, step), r))
  {
    InsideBefore(s, step, r);
    if Inside(s, r) {
      assert Owns(s, HolderOf(s, r));
    }
  }

  lemma StepKeepsOrder(s: State, step: Step, r: nat, q: nat)
    requires Inv(s) && Enabled(s, step)
    requires Inside(Next(s, step), r) && Inside(Next(s, step), q) && r != q
    ensures var s' := Next(s, step);
      var (a, b) := (HolderOf(s', r), HolderOf(s', q));
      && a.token != b.token && a.number != b.number
      && (a.key == b.key && a.number < b.number ==> Expired(a.until, s'.redis.now))
  {
    InsideBefore(s, step, r);
    InsideBefore(s, step, q);
    if Inside(s, r) && !Inside(s, q) && !Expired(HolderOf(s, r).until, s.redis.now) {
      assert Owns(s, HolderOf(s, r));
    }
  }

  lemma StepKeepsInv(s: State, step: Step)
    requires Inv(s) && Enabled(s, step)
    ensures Inv(Next(s, step))
  {
    var s' := Next(s, step);
    StepKeepsTokens(s, step);
    forall r | Inside(s', r) && !Expired(HolderOf(s', r).until, s'.redis.now) ensures Owns(s', HolderOf(s', r)) {
      StepKeepsOwnership(s, step, r);
    }
    forall r, q | Inside(s', r) && Inside(s', q) && r != q
      ensures HolderOf(s', r).token != HolderOf(s', q).token && HolderOf(s', r).number != HolderOf(s', q).number
      ensures HolderOf(s', r).key == HolderOf(s', q).key && HolderOf(s', r).number < HolderOf(s', q).number ==>
        Expired(HolderOf(s', r).until, s'.redis.now)
    {
      StepKeepsOrder(s, step, r, q);
    }
  }

  lemma {:induction false} RunKeepsInv(run: seq<State>, steps: seq<Step>, i: nat)
    requires IsRun(run, steps) && i < |run|
    ensures Inv(run[i])
    decreases i
  {
    if i > 0 {
      RunKeepsInv(run, steps, i - 1);
      StepKeepsInv(run[i - 1], steps[i - 1]);
      assert run[i - 1 + 1] == Next(run[i - 1], steps[i - 1]);
    }
  }

  /** With no assumption on timing: when two replicas are inside for one key, the
      lease of the earlier acquirer has expired. So all but the latest hold
      expired leases, and the latest alone may own the key on the server. */
  lemma OverlapMeansExpired(run: seq<State>, steps: seq<Step>, i: nat, r: nat, q: nat)
    requires IsRun(run, steps) && i < |run| && r != q
    requires Inside(run[i], r) && Inside(run[i], q) && HolderOf(run[i], r).key == HolderOf(run[i], q).key
    ensures var (a, b) := (HolderOf(run[i], r), HolderOf(run[i], q));
      && a.number != b.number
      && Expired((if a.number < b.number then a else b).until, run[i].redis.now)
  {
    RunKeepsInv(run, steps, i);
  }

  /** Mutual exclusion: in a reachable state where everyone inside is within its
      lease, at most one replica is inside per key. */
  lemma MutualExclusion(run: seq<State>, steps: seq<Step>, i: nat, r: nat, q: nat)
    requires IsRun(run, steps) && i < |run|
    requires forall p :: Inside(run[i], p) ==> !Expired(HolderOf(run[i], p).until, run[i].redis.now)
    requires Inside(run[i], r) && Inside(run[i], q) && HolderOf(run[i], r).key == HolderOf(run[i], q).key
    ensures r == q
  {
    if r != q {
      OverlapMeansExpired(run, steps, i, r, q);
    }
  }

  /** The timing assumption is needed: past its expiry a lease does not keep a
      second replica out. */
  lemma OverrunOverlaps(key: string, t1: Token, t2: Token, ttl: nat) returns (run: seq<State>, steps: seq<Step>)
    requires t1 != t2 && ttl > 0
    ensures IsRun(run, steps) && |steps| == 3
    ensures Inside(run[3], 0) && Inside(run[3], 1) && HolderOf(run[3], 0).key == HolderOf(run[3], 1).key
  {
    steps := [Acquire(0, key, t1, ttl, Answered), Tick(ttl), Acquire(1, key, t2, ttl, Answered)];
    var s0 := State(Redis(map[], 0), map[], {}, {}, 0);
    var s1 := Next(s0, steps[0]);
    var s2 := Next(s1, steps[1]);
    run := [s0, s1, s2, Next(s2, steps[2])];
  }

  /** A release, however late and however often delivered, removes at most the
      lease of its own acquisition: every lease with another token stays, every
      holder within its lease keeps owning it, and delivering it again changes
      nothing. */
  lemma ReleaseIsSafe(run: seq<State>, steps: seq<Step>, i: nat, h: Holder)
    requires IsRun(run, steps) && i < |run| && h in run[i].sent
    ensures var s, s' := run[i], Next(run[i], Deliver(h));
      && (forall k :: k in s.redis.leases && s.redis.leases[k].token != h.token ==>
            k in s'.redis.leases && s'.redis.leases[k] == s.redis.leases[k])
      && (forall r :: Inside(s, r) && !Expired(HolderOf(s, r).until, s.redis.now) ==> Owns(s', HolderOf(s, r)))
      && Next(s', Deliver(h)) == s'
      && !(s'.redis.Held(h.key) && s'.redis.leases[h.key].token == h.token)
  {
    RunKeepsInv(run, steps, i);
    var s, s' := run[i], Next(run[i], Deliver(h));
    forall r | Inside(s, r) && !Expired(HolderOf(s, r).until, s.redis.now) ensures Owns(s', HolderOf(s, r)) {
      assert Owns(s, HolderOf(s, r));
    }
  }

  /** The release has been sent and its token is spent: no lease in force carries
      it for this key. */
  predicate Spent(s: State, h: Holder) {
    h in s.sent && h.token in s.issued && !(s.redis.Held(h.key) && s.redis.leases[h.key].token == h.token)
  }

  lemma SpentStep(s: State, step: Step, h: Holder)
    requires Enabled(s, step) && Spent(s, h)
    ensures Spent(Next(s, step), h)
  {
  }

  /** Repeated release: once delivered, a release has nothing left to remove in
      any later state, so delivering it again, then or ever, changes nothing. */
  lemma {:induction false} ReleaseTwice(run: seq<State>, steps: seq<Step>, i: nat, j: nat)
    requires IsRun(run, steps) && i < j < |run| && steps[i].Deliver?
    ensures Spent(run[j], steps[i].h)
    ensures Enabled(run[j], steps[i]) && Next(run[j], steps[i]) == run[j]
    decreases j
  {
    assert run[j - 1 + 1] == Next(run[j - 1], steps[j - 1]);
    if j == i + 1 {
      RunKeepsInv(run, steps, i);
    } else {
      ReleaseTwice(run, steps, i, j - 1);
      SpentStep(run[j - 1], steps[j - 1], steps[i].h);
    }
  }

  /** After the i-th step set a lease, any lease with its token is that one. */
  ghost predicate LeaseIs(s: State, token: Token, key: string, expiresAt: Option<Time>) {
    token in s.issued
    && forall k :: k in s.redis.leases && s.redis.leases[k].token == token ==>
         k == key && s.redis.leases[k].expiresAt == expiresAt
  }

  lemma {:induction false} LeaseKeepsExpiry(run: seq<State>, steps: seq<Step>, i: nat, j: nat)
    requires IsRun(run, steps) && i < j < |run| && steps[i].Acquire?
    ensures var a := steps[i];
      LeaseIs(run[j], a.token, LockKey(a.key), Expiry(run[i].redis.now, a.ttl))
    decreases j
  {
    assert run[j - 1 + 1] == Next(run[j - 1], steps[j - 1]);
    if j == i + 1 {
      RunKeepsInv(run, steps, i);
    } else {
      LeaseKeepsExpiry(run, steps, i, j - 1);
    }
  }

  /** Recovery: a lease taken with a time to live above zero blocks the others
      for at most that long, whatever became of its holder, its reply or its
      release; from then on only another acquisition's lease refuses the key. */
  lemma LeaseRecovers(run: seq<State>, steps: seq<Step>, i: nat, j: nat, step: Step)
    requires IsRun(run, steps) && i < j < |run| && steps[i].Acquire? && steps[i].ttl > 0
    requires run[j].redis.now >= run[i].redis.now + steps[i].ttl
    requires step.Acquire? && step.net.Executed() && step.key == steps[i].key
    ensures Granted(run[j], step) ||
      (LockKey(step.key) in run[j].redis.leases && run[j].redis.leases[LockKey(step.key)].token != steps[i].token)
  {
    LeaseKeepsExpiry(run, steps, i, j);
  }

  /** And until then it does block, unless its own release is delivered: a key
      set at step i is refused to everyone before the expiry. */
  lemma {:induction false} LeaseBlocks(run: seq<State>, steps: seq<Step>, i: nat, j: nat)
    requires IsRun(run, steps) && i < j < |run| && Granted(run[i], steps[i])
    requires !Expired(Expiry(run[i].redis.now, steps[i].ttl), run[j].redis.now)
    requires forall m :: i < m < j && steps[m].Deliver? ==> steps[m].h.token != steps[i].token
    ensures var a := steps[i];
      && run[j].redis.Held(LockKey(a.key))
      && run[j].redis.leases[LockKey(a.key)] == Lease(a.token, Expiry(run[i].redis.now, a.ttl))
    decreases j
  {
    assert run[j - 1 + 1] == Next(run[j - 1], steps[j - 1]);
    if j > i + 1 {
      LeaseBlocks(run, steps, i, j - 1);
    }
  }

  lemma LockKeyInjective(a: string, b: string)
    ensures LockKey(a) == LockKey(b) <==> a == b
  {
    assert LockKey(a)[5..] == a && LockKey(b)[5..] == b;
  }

  /** An acquisition of the key reaches the server. */
  predicate Asks(step: Step, key: string) {
    step.Acquire? && step.key == key && step.net.Executed()
  }

  /** A release of this acquisition's token is delivered between the two states. */
  ghost predicate ReleasedBetween(steps: seq<Step>, i: nat, j: nat, key: string, token: Token)
    requires j <= |steps|
  {
    exists m :: i < m < j && steps[m].Deliver? && steps[m].h.token == token && steps[m].h.key == LockKey(key)
  }

  /** What is left of a lease as long as nobody else asks for its key: the lease
      itself until its release is delivered, nothing in force after. */
  lemma {:induction false} LeaseFate(run: seq<State>, steps: seq<Step>, i: nat, j: nat)
    requires IsRun(run, steps) && i < j < |run| && Granted(run[i], steps[i])
    requires forall m :: i < m < j ==> !Asks(steps[m], steps[i].key)
    ensures var (a, redis) := (steps[i], run[j].redis);
      if ReleasedBetween(steps, i, j, a.key, a.token) then !redis.Held(LockKey(a.key))
      else LockKey(a.key) in redis.leases
           && redis.leases[LockKey(a.key)] == Lease(a.token, Expiry(run[i].redis.now, a.ttl))
    decreases j
  {
    var a := steps[i];
    assert run[j - 1 + 1] == Next(run[j - 1], steps[j - 1]);
    if j > i + 1 {
      var step := steps[j - 1];
      LeaseFate(run, steps, i, j - 1);
      if step.Acquire? { LockKeyInjective(step.key, a.key); }
      assert ReleasedBetween(steps, i, j, a.key, a.token) <==>
        ReleasedBetween(steps, i, j - 1, a.key, a.token)
        || (step.Deliver? && step.h.token == a.token && step.h.key == LockKey(a.key));
    }
  }

  /** Of two successive acquisitions of a key, by any replicas and with anything
      else in between, overlapping or not: after the first is granted, the second
      is granted exactly when the first lease has run out or its release has been
      delivered. */
  lemma NextGrantExact(run: seq<State>, steps: seq<Step>, i: nat, j: nat)
    requires IsRun(run, steps) && i < j < |steps| && Granted(run[i], steps[i])
    requires Asks(steps[j], steps[i].key) && forall m :: i < m < j ==> !Asks(steps[m], steps[i].key)
    ensures Granted(run[j], steps[j]) <==>
      Expired(Expiry(run[i].redis.now, steps[i].ttl), run[j].redis.now)
      || ReleasedBetween(steps, i, j, steps[i].key, steps[i].token)
  {
    LeaseFate(run, steps, i, j);
  }

  /** A lease passes on once its release is delivered. */
  lemma ReleasedLeasePassesOn(key: string, t1: Token, t2: Token, ttl: nat) returns (run: seq<State>, steps: seq<Step>)
    requires t1 != t2
    ensures IsRun(run, steps) && |steps| == 4
    ensures steps[0] == Acquire(0, key, t1, ttl, Answered) && steps[1] == Leave(0) && steps[2].Deliver?
    ensures steps[3] == Acquire(1, key, t2, ttl, Answered)
    ensures Inside(run[1], 0) && !Inside(run[4], 0) && Inside(run[4], 1) && HolderOf(run[4], 1).token == t2
  {
    var s0 := State(Redis(map[], 0), map[], {}, {}, 0);
    var a := Acquire(0, key, t1, ttl, Answered);
    var s1 := Next(s0, a);
    var h := s1.At(0).h;
    var s2 := Next(s1, Leave(0));
    var s3 := Next(s2, Deliver(h));
    steps := [a, Leave(0), Deliver(h), Acquire(1, key, t2, ttl, Answered)];
    run := [s0, s1, s2, s3, Next(s3, steps[3])];
  }

  /** The lease of a crashed holder passes on when it runs out, and not before. */
  lemma CrashedLeaseRunsOut(key: string, t1: Token, t2: Token, ttl: nat, wait: nat)
    returns (run: seq<State>, steps: seq<Step>)
    requires t1 != t2 && ttl > 0
    ensures IsRun(run, steps)
    ensures steps == [Acquire(0, key, t1, ttl, Answered), Crash(0), Tick(wait), Acquire(1, key, t2, ttl, Answered)]
    ensures !Inside(run[4], 0) && (Inside(run[4], 1) <==> wait >= ttl)
  {
    var s0 := State(Redis(map[], 0), map[], {}, {}, 0);
    steps := [Acquire(0, key, t1, ttl, Answered), Crash(0), Tick(wait), Acquire(1, key, t2, ttl, Answered)];
    var s1 := Next(s0, steps[0]);
    var s2 := Next(s1, steps[1]);
    var s3 := Next(s2, steps[2]);
    run := [s0, s1, s2, s3, Next(s3, steps[3])];
  }
}
