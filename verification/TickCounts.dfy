/** Counting the ticks of every replica over the runs of the lock protocol, with
    all the others and crashes in between: which attempts are skipped, which runs
    finish or are lost to a crash, and which releases are sent. */
module TickCounts {
  import opened RedisLock
  import opened LockProtocol

  /** What a replica did: attempts to acquire, attempts it skipped, runs it
      finished, and runs it lost by crashing inside. */
  datatype Counts = Counts(attempted: nat, skipped: nat, finished: nat, lost: nat)

  /** What it did in the first n steps. An attempt is skipped when it does not
      put the replica inside. */
  function Count(run: seq<State>, steps: seq<Step>, n: nat, r: nat): Counts
    requires n <= |steps| < |run|
  {
    if n == 0 then Counts(0, 0, 0, 0)
    else
      var c := Count(run, steps, n - 1, r);
      match steps[n - 1]
      case Acquire(q, _, _, _, _) =>
        if q != r then c
        else Counts(c.attempted + 1, c.skipped + if Inside(run[n], r) then 0 else 1, c.finished, c.lost)
      case Leave(q) => if q == r then c.(finished := c.finished + 1) else c
      case Crash(q) => if q == r && Inside(run[n - 1], r) then c.(lost := c.lost + 1) else c
      case _ => c
  }

  /** The server grants the replica the lock, and the answer arrives. */
  predicate IsGranted(s: State, step: Step, r: nat) {
    Granted(s, step) && step.replica == r && step.net.Answered?
  }

  /** The tokens granted to the replica in the first n steps. */
  function GrantedTo(run: seq<State>, steps: seq<Step>, n: nat, r: nat): set<Token>
    requires n <= |steps| < |run|
  {
    if n == 0 then {}
    else
      GrantedTo(run, steps, n - 1, r)
      + if IsGranted(run[n - 1], steps[n - 1], r) then {steps[n - 1].token} else {}
  }

  /** The tokens of the releases it sent. */
  function ReleasedBy(run: seq<State>, steps: seq<Step>, n: nat, r: nat): set<Token>
    requires n <= |steps| < |run|
  {
    if n == 0 then {}
    else
      ReleasedBy(run, steps, n - 1, r)
      + if steps[n - 1] == Leave(r) && Inside(run[n - 1], r) then {HolderOf(run[n - 1], r).token} else {}
  }

  predicate SentToken(s: State, token: Token) {
    exists h :: h in s.sent && h.token == token
  }

  /** How the records stand to the state. */
  ghost predicate Tracked(s: State, granted: set<Token>, released: set<Token>, r: nat) {
    && released <= granted <= s.issued
    && (forall t :: t in released ==> SentToken(s, t))
    && (Inside(s, r) ==> HolderOf(s, r).token in granted - released)
  }

  lemma EnteringIsGrant(s: State, step: Step, r: nat)
    requires Enabled(s, step)
    ensures IsGranted(s, step, r) <==> !Inside(s, r) && Inside(Next(s, step), r)
    ensures IsGranted(s, step, r) ==> HolderOf(Next(s, step), r).token == step.token && step.token !in s.issued
  {
  }

  lemma SentStays(s: State, step: Step, token: Token)
    requires Enabled(s, step)
    ensures SentToken(Next(s, step), token) <==>
      SentToken(s, token) || (step.Leave? && HolderOf(s, step.replica).token == token)
  {
    if step.Leave? {
      assert HolderOf(s, step.replica) in Next(s, step).sent;
    }
    if h :| h in s.sent && h.token == token {
      assert h in Next(s, step).sent;
    }
  }

  lemma {:induction false} RecordsTrack(run: seq<State>, steps: seq<Step>, n: nat, r: nat)
    requires IsRun(run, steps) && n <= |steps|
    ensures Tracked(run[n], GrantedTo(run, steps, n, r), ReleasedBy(run, steps, n, r), r)
    decreases n
  {
    if n > 0 {
      var s, step := run[n - 1], steps[n - 1];
      assert run[n - 1 + 1] == Next(s, step);
      RecordsTrack(run, steps, n - 1, r);
      EnteringIsGrant(s, step, r);
      forall t | t in ReleasedBy(run, steps, n, r) ensures SentToken(run[n], t) {
        SentStays(s, step, t);
      }
    }
  }

  lemma {:induction false} AttemptsBalance(run: seq<State>, steps: seq<Step>, n: nat, r: nat)
    requires IsRun(run, steps) && n <= |steps|
    ensures var c := Count(run, steps, n, r);
      c.attempted == c.skipped + c.finished + c.lost + (if Inside(run[n], r) then 1 else 0)
    decreases n
  {
    if n > 0 {
      assert run[n - 1 + 1] == Next(run[n - 1], steps[n - 1]);
      AttemptsBalance(run, steps, n - 1, r);
    }
  }

  /** The attempts of a replica are its acquisition steps. */
  lemma {:induction false} AttemptsAreSteps(run: seq<State>, steps: seq<Step>, n: nat, r: nat)
    requires n <= |steps| < |run|
    ensures Count(run, steps, n, r).attempted == |AttemptSteps(steps, n, r)|
    decreases n
  {
    if n > 0 {
      AttemptsAreSteps(run, steps, n - 1, r);
      var last := if steps[n - 1].Acquire? && steps[n - 1].replica == r then {n - 1} else {};
      assert AttemptSteps(steps, n, r) == AttemptSteps(steps, n - 1, r) + last;
    }
  }

  function AttemptSteps(steps: seq<Step>, n: nat, r: nat): set<nat>
    requires n <= |steps|
  {
    set i: nat | i < n && steps[i].Acquire? && steps[i].replica == r
  }

  lemma {:induction false} GrantsCount(run: seq<State>, steps: seq<Step>, n: nat, r: nat)
    requires IsRun(run, steps) && n <= |steps|
    ensures var c := Count(run, steps, n, r); |GrantedTo(run, steps, n, r)| == c.attempted - c.skipped
    decreases n
  {
    if n > 0 {
      assert run[n - 1 + 1] == Next(run[n - 1], steps[n - 1]);
      GrantsCount(run, steps, n - 1, r);
      RecordsTrack(run, steps, n - 1, r);
      EnteringIsGrant(run[n - 1], steps[n - 1], r);
    }
  }

  lemma {:induction false} ReleasesCount(run: seq<State>, steps: seq<Step>, n: nat, r: nat)
    requires IsRun(run, steps) && n <= |steps|
    ensures |ReleasedBy(run, steps, n, r)| == Count(run, steps, n, r).finished
    decreases n
  {
    if n > 0 {
      assert run[n - 1 + 1] == Next(run[n - 1], steps[n - 1]);
      ReleasesCount(run, steps, n - 1, r);
      RecordsTrack(run, steps, n - 1, r);
    }
  }

  /** The accounting of every replica in every reachable state, whatever the
      others do and whatever is lost or crashes: every attempt is skipped, still
      running, finished, or lost to a crash; the ones not skipped are the
      acquisitions granted to it, each with its own token; the finished ones are
      the releases it sent, one for each, of tokens granted to it. */
  lemma ReplicaBalance(run: seq<State>, steps: seq<Step>, n: nat, r: nat)
    requires IsRun(run, steps) && n <= |steps|
    ensures var c := Count(run, steps, n, r);
      var (granted, released) := (GrantedTo(run, steps, n, r), ReleasedBy(run, steps, n, r));
      && c.attempted == c.skipped + c.finished + c.lost + (if Inside(run[n], r) then 1 else 0)
      && |granted| == c.attempted - c.skipped
      && |released| == c.finished && released <= granted
  {
    AttemptsBalance(run, steps, n, r);
    GrantsCount(run, steps, n, r);
    ReleasesCount(run, steps, n, r);
    RecordsTrack(run, steps, n, r);
  }

  /** The releases in the network are those the replicas sent. */
  lemma {:induction false} SentByReplicas(run: seq<State>, steps: seq<Step>, n: nat, token: Token)
    requires IsRun(run, steps) && n <= |steps|
    ensures SentToken(run[n], token) ==> exists r :: token in ReleasedBy(run, steps, n, r)
    ensures forall r :: token in ReleasedBy(run, steps, n, r) ==> SentToken(run[n], token)
    decreases n
  {
    forall r | token in ReleasedBy(run, steps, n, r) ensures SentToken(run[n], token) {
      RecordsTrack(run, steps, n, r);
    }
    if n == 0 {
      assert !SentToken(run[0], token);
    } else {
      var m := n - 1;
      assert run[m + 1] == Next(run[m], steps[m]);
      SentByReplicas(run, steps, m, token);
      SentStays(run[m], steps[m], token);
      if steps[m].Leave? && HolderOf(run[m], steps[m].replica).token == token {
        assert token in ReleasedBy(run, steps, n, steps[m].replica);
      }
      if SentToken(run[m], token) {
        var r :| token in ReleasedBy(run, steps, m, r);
        assert token in ReleasedBy(run, steps, n, r);
      }
    }
  }

  /** No two replicas are granted the same token, so none releases another's. */
  lemma {:induction false} GrantsDisjoint(run: seq<State>, steps: seq<Step>, n: nat, r: nat, q: nat)
    requires IsRun(run, steps) && n <= |steps| && r != q
    ensures GrantedTo(run, steps, n, r) !! GrantedTo(run, steps, n, q)
    decreases n
  {
    if n > 0 {
      GrantsDisjoint(run, steps, n - 1, r, q);
      RecordsTrack(run, steps, n - 1, r);
      RecordsTrack(run, steps, n - 1, q);
      EnteringIsGrant(run[n - 1], steps[n - 1], r);
      EnteringIsGrant(run[n - 1], steps[n - 1], q);
    }
  }
}
