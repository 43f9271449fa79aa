/** The lock server and the locker over it. */
module RedisLock {
  import opened Domain

  type Token = string

  /** No expiry is what a time to live of zero asks for. */
  datatype Lease = Lease(token: Token, expiresAt: Option<Time>)

  predicate Expired(expiresAt: Option<Time>, now: Time) {
    expiresAt.Some? && expiresAt.value <= now
  }

  datatype Redis = Redis(leases: map<string, Lease>, now: Time) {
    predicate Held(key: string) {
      key in leases && !Expired(leases[key].expiresAt, now)
    }

    /** SET NX with a time to live: the store after it and whether it was set. */
    function SetNX(key: string, token: Token, ttl: nat): (Redis, bool) {
      if Held(key) then (this, false)
      else (this.(leases := leases[key := Lease(token, Expiry(now, ttl))]), true)
    }

    /** The release script: delete the key if it still carries the token. */
    function CompareAndDelete(key: string, token: Token): Redis {
      if Held(key) && leases[key].token == token then this.(leases := leases - {key}) else this
    }

    function Advance(pause: nat): Redis {
      this.(now := now + pause)
    }
  }

  function Expiry(now: Time, ttl: nat): Option<Time> {
    if ttl == 0 then None else Some(now + ttl)
  }

  function LockKey(key: string): string {
    "lock:" + key
  }

  /** The fate of one request: done and answered, never executed, or executed
      with the answer lost. The caller sees an error in the last two cases. */
  datatype Net = Answered | RequestLost | ReplyLost {
    predicate Executed() {
      !RequestLost?
    }
  }

  datatype Handle = Handle(redisKey: string, token: Token)

  datatype AcquireResult = Acquired(handle: Handle) | NotAcquired | NoToken | ServerError

  class Server {
    var leases: map<string, Lease>
    var now: Time

    constructor (now: Time)
      ensures State() == Redis(map[], now)
    {
      leases, this.now := map[], now;
    }

    function State(): Redis
      reads this
    {
      Redis(leases, now)
    }

    method Wait(pause: nat)
      modifies this
      ensures State() == old(State()).Advance(pause)
    {
      now := now + pause;
    }

    method SetNX(key: string, token: Token, ttl: nat) returns (ok: bool)
      modifies this
      ensures (State(), ok) == old(State()).SetNX(key, token, ttl)
    {
      ok := !(key in leases && !Expired(leases[key].expiresAt, now));
      if ok {
        leases := leases[key := Lease(token, Expiry(now, ttl))];
      }
    }

    method RunReleaseScript(key: string, token: Token) returns (deleted: nat)
      modifies this
      ensures State() == old(State()).CompareAndDelete(key, token)
      ensures deleted == |old(leases).Keys| - |leases.Keys|
    {
      if key in leases && !Expired(leases[key].expiresAt, now) && leases[key].token == token {
        leases := leases - {key};
        assert leases.Keys == old(leases).Keys - {key};
        deleted := 1;
      } else {
        deleted := 0;
      }
    }
  }

  /** The locker keeps, for the record, the tokens whose acquisition was answered
      as granted and the tokens a release was requested for, in order. */
  class Locker {
    const client: Server
    ghost var granted: seq<Token>
    ghost var requested: seq<Token>

    constructor (client: Server)
      ensures this.client == client && granted == [] && requested == []
    {
      this.client := client;
      granted, requested := [], [];
    }

    /** `token` is what the random source yields, if it works. */
    method Acquire(key: string, ttl: nat, token: Option<Token>, net: Net) returns (r: AcquireResult)
      modifies this, client
      ensures (client.State(), r) == Acquiring(old(client.State()), key, ttl, token, net)
      ensures granted == old(granted) + (if r.Acquired? then [r.handle.token] else [])
      ensures requested == old(requested)
    {
      if token.None? {
        return NoToken;
      }
      if net.RequestLost? {
        return ServerError;
      }
      var ok := client.SetNX(LockKey(key), token.value, ttl);
      if net.ReplyLost? {
        return ServerError;
      }
      if !ok {
        return NotAcquired;
      }
      granted := granted + [token.value];
      r := Acquired(Handle(LockKey(key), token.value));
    }

    /** The release closure of an acquisition. */
    method Release(h: Handle, net: Net) returns (ok: bool)
      modifies this, client
      ensures client.State() == Releasing(old(client.State()), h, net)
      ensures ok <==> net.Answered?
      ensures requested == old(requested) + [h.token] && granted == old(granted)
    {
      requested := requested + [h.token];
      if net.Executed() {
        var _ := client.RunReleaseScript(h.redisKey, h.token);
      }
      ok := net.Answered?;
    }
  }

  function Acquiring(s: Redis, key: string, ttl: nat, token: Option<Token>, net: Net): (Redis, AcquireResult) {
    if token.None? then (s, NoToken)
    else if net.RequestLost? then (s, ServerError)
    else
      var (s', ok) := s.SetNX(LockKey(key), token.value, ttl);
      (s', if net.ReplyLost? then ServerError
           else if ok then Acquired(Handle(LockKey(key), token.value)) else NotAcquired)
  }

  function Releasing(s: Redis, h: Handle, net: Net): Redis {
    if net.Executed() then s.CompareAndDelete(h.redisKey, h.token) else s
  }

  /** What an acquisition answers and leaves, exactly: not acquired only for a key
      that is held, which the caller knows only if the answer arrives; every other
      answer but a grant is an error, and the lease may be set all the same. */
  lemma AcquireExact(s: Redis, key: string, ttl: nat, token: Option<Token>, net: Net)
    ensures var (s', r) := Acquiring(s, key, ttl, token, net);
      var held := LockKey(key) in s.leases && !Expired(s.leases[LockKey(key)].expiresAt, s.now);
      && (r == NoToken <==> token.None?)
      && (r == ServerError <==> token.Some? && !net.Answered?)
      && (r == NotAcquired <==> token.Some? && net.Answered? && held)
      && (r.Acquired? <==> token.Some? && net.Answered? && !held)
      && (r.Acquired? ==> r.handle == Handle(LockKey(key), token.value))
      && s' == if token.Some? && !net.RequestLost? && !held
               then Redis(s.leases[LockKey(key) := Lease(token.value, if ttl == 0 then None else Some(s.now + ttl))], s.now)
               else s
  {
  }

  /** A release that reaches the server frees the key exactly when the lease in
      force carries its token. */
  lemma ReleaseExact(s: Redis, h: Handle, net: Net)
    ensures var s' := Releasing(s, h, net);
      var mine := h.redisKey in s.leases && s.leases[h.redisKey].token == h.token
                  && !Expired(s.leases[h.redisKey].expiresAt, s.now);
      s' == if !net.RequestLost? && mine then Redis(s.leases - {h.redisKey}, s.now) else s
  {
  }

  /** Acquire then release leaves no trace: whatever else is stored, an
      acquisition released in time frees the key and touches nothing else, and a
      second release changes nothing. */
  lemma AcquireReleaseRestores(s: Redis, key: string, ttl: nat, token: Token, pause: nat)
    requires !s.Held(LockKey(key))
    requires ttl == 0 || pause < ttl
    ensures var (s1, r) := Acquiring(s, key, ttl, Some(token), Answered);
      && r == Acquired(Handle(LockKey(key), token))
      && s1.Held(LockKey(key))
      && var s2 := Releasing(s1.Advance(pause), r.handle, Answered);
      && s2 == s.Advance(pause).(leases := s.leases - {LockKey(key)})
      && Releasing(s2, r.handle, Answered) == s2
  {
    var (s1, r) := Acquiring(s, key, ttl, Some(token), Answered);
    assert s1.leases - {LockKey(key)} == s.leases - {LockKey(key)};
  }
}
