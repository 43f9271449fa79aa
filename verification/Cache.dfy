/** The cache manager: entries with an expiry time, and the cache-aside read. */
module Cache {
  import opened Domain
  import opened AppErrors

  datatype Entry<V> = Entry(value: V, expiresAt: Time)

  /** The store behind the manager together with its clock. An entry past its
      expiry is as good as absent. */
  datatype Store<V> = Store(entries: map<string, Entry<V>>, now: Time) {
    predicate Live(key: string) {
      key in entries && now < entries[key].expiresAt
    }

    function Put(key: string, value: V, ttl: nat): Store<V> {
      this.(entries := entries[key := Entry(value, now + ttl)])
    }

    function Evict(key: string): Store<V> {
      this.(entries := entries - {key})
    }

    function Advance(pause: nat): Store<V> {
      this.(now := now + pause)
    }
  }

  /** Both stores hold the same entry under `key`, or both hold none. */
  predicate SameEntry<V(==)>(s: Store<V>, s': Store<V>, key: string) {
    && (key in s.entries <==> key in s'.entries)
    && (key in s.entries ==> s.entries[key] == s'.entries[key])
  }

  /** What the environment decides during one cache-aside read: whether the
      lookup fails, how long the load and the store take, and whether the store
      fails, in which case the cache is left as it was. */
  datatype ReadIO = ReadIO(lookupFails: bool, loadPause: nat, storePause: nat, storeError: Option<Err>)

  function CacheAside<V>(s: Store<V>, key: string, loaded: Result<V, Err>, ttl: nat, io: ReadIO)
    : (Store<V>, Result<V, Err>)
  {
    if !io.lookupFails && s.Live(key) then (s, Success(s.entries[key].value))
    else
      var s1 := s.Advance(io.loadPause);
      if loaded.Failure? then (s1, loaded)
      else
        var s2 := s1.Advance(io.storePause);
        if io.storeError.Some? then (s2, Failure(io.storeError.value))
        else (s2.Put(key, loaded.value, ttl), loaded)
  }

  /** Where the answer of a cache-aside read comes from, and what it leaves: the
      answer is the live entry if there is one and the lookup works, else what
      was loaded or the store's error; only `key` can change, and it changes to
      the loaded value exactly when that value is returned by a miss. */
  lemma CacheAsideOutcome<V>(s: Store<V>, key: string, loaded: Result<V, Err>, ttl: nat, io: ReadIO)
    ensures var (s', r) := CacheAside(s, key, loaded, ttl, io);
      var hit := !io.lookupFails && s.Live(key);
      && s.now <= s'.now <= s.now + io.loadPause + io.storePause
      && (hit ==> s' == s && r == Success(s.entries[key].value))
      && (!hit ==> r == loaded || (io.storeError.Some? && r == Failure(io.storeError.value)))
      && (forall k :: k != key ==> SameEntry(s, s', k))
      && (!hit && r.Success? ==> s'.entries == s.entries[key := Entry(r.value, s'.now + ttl)])
      && (hit || r.Failure? ==> s'.entries == s.entries)
      && (!hit && r.Success? && ttl > 0 ==> s'.Live(key))
  {
  }

  /** Storing pairs one after the other. */
  function PutAll<V>(s: Store<V>, keys: seq<string>, values: seq<V>, ttl: nat): Store<V>
    requires |keys| <= |values|
    decreases |keys|
  {
    if keys == [] then s
    else
      var n := |keys| - 1;
      PutAll(s, keys[..n], values, ttl).Put(keys[n], values[n], ttl)
  }

  /** A multi-store touches no key outside its list. */
  lemma {:induction false} PutAllFrame<V>(s: Store<V>, keys: seq<string>, values: seq<V>, ttl: nat, key: string)
    requires |keys| <= |values| && key !in keys
    ensures SameEntry(s, PutAll(s, keys, values, ttl), key)
    decreases |keys|
  {
    if keys != [] {
      PutAllFrame(s, keys[..|keys| - 1], values, ttl, key);
    }
  }

  lemma {:induction false} PutAllKeepsClock<V>(s: Store<V>, keys: seq<string>, values: seq<V>, ttl: nat)
    requires |keys| <= |values|
    ensures PutAll(s, keys, values, ttl).now == s.now
    decreases |keys|
  {
    if keys != [] {
      PutAllKeepsClock(s, keys[..|keys| - 1], values, ttl);
    }
  }

  /** A key holds the value of its last listing, until the shared expiry. */
  lemma {:induction false} PutAllStoresLast<V>(s: Store<V>, keys: seq<string>, values: seq<V>, ttl: nat, i: nat)
    requires i < |keys| <= |values|
    requires forall j :: i < j < |keys| ==> keys[j] != keys[i]
    ensures var s' := PutAll(s, keys, values, ttl);
      keys[i] in s'.entries && s'.entries[keys[i]] == Entry(values[i], s.now + ttl)
    decreases |keys|
  {
    var n := |keys| - 1;
    PutAllKeepsClock(s, keys[..n], values, ttl);
    if i < n {
      PutAllStoresLast(s, keys[..n], values, ttl, i);
    }
  }

  /** How a multi-store ends: with everything stored, at the first failing store,
      or at a key that has no value. */
  datatype MultiEnd = Done | Failed(error: Err) | Panicked

  class Manager<V> {
    var entries: map<string, Entry<V>>
    var now: Time

    constructor (now: Time)
      ensures State() == Store(map[], now)
    {
      entries, this.now := map[], now;
    }

    function State(): Store<V>
      reads this
    {
      Store(entries, now)
    }

    method Wait(pause: nat)
      modifies this
      ensures State() == old(State()).Advance(pause)
    {
      now := now + pause;
    }

    /** A miss is an error of the store, as is a failure to reach it. */
    method Get(key: string, fails: bool) returns (r: Result<V, Err>)
      ensures r == if !fails && State().Live(key) then Success(entries[key].value)
                   else Failure(Plain("value not found"))
    {
      if !fails && key in entries && now < entries[key].expiresAt {
        r := Success(entries[key].value);
      } else {
        r := Failure(Plain("value not found"));
      }
    }

    method Set(key: string, value: V, ttl: nat, error: Option<Err>) returns (e: Option<Err>)
      modifies this
      ensures e == error
      ensures State() == if error.Some? then old(State()) else old(State()).Put(key, value, ttl)
    {
      if error.None? {
        entries := entries[key := Entry(value, now + ttl)];
      }
      e := error;
    }

    method Delete(key: string, error: Option<Err>) returns (e: Option<Err>)
      modifies this
      ensures e == error
      ensures State() == if error.Some? then old(State()) else old(State()).Evict(key)
    {
      if error.None? {
        entries := entries - {key};
      }
      e := error;
    }

    /** Cache-aside. `loader` is called on a miss only. */
    method GetOnce(key: string, loader: () -> Result<V, Err>, ttl: nat, io: ReadIO)
      returns (r: Result<V, Err>)
      modifies this
      ensures (State(), r) == CacheAside(old(State()), key, loader(), ttl, io)
    {
      r := Get(key, io.lookupFails);
      if r.Success? {
        return;
      }
      Wait(io.loadPause);
      r := loader();
      if r.Failure? {
        return;
      }
      Wait(io.storePause);
      var e := Set(key, r.value, ttl, io.storeError);
      if e.Some? {
        r := Failure(e.value);
      }
    }

    /** Stores the pairs one at a time and stops at the first failure; `failAt`
        is the index whose store fails, if any. Running out of values is a panic.
        Entries already written stay. */
    method SetMulti(keys: seq<string>, values: seq<V>, ttl: nat, failAt: Option<nat>, error: Err)
      returns (end: MultiEnd)
      modifies this
      ensures var stored := if |values| < |keys| then |values| else |keys|;
        if failAt.Some? && failAt.value < stored then
          end == Failed(error) && State() == PutAll(old(State()), keys[..failAt.value], values, ttl)
        else
          end == (if stored < |keys| then Panicked else Done) && State() == PutAll(old(State()), keys[..stored], values, ttl)
    {
      for i := 0 to |keys|
        invariant i <= |values| && (failAt.Some? ==> i <= failAt.value)
        invariant State() == PutAll(old(State()), keys[..i], values, ttl)
      {
        if i >= |values| {
          return Panicked;
        }
        assert keys[..i + 1][..i] == keys[..i];
        var e := Set(keys[i], values[i], ttl, if failAt == Some(i) then Some(error) else None);
        if e.Some? {
          return Failed(error);
        }
      }
      assert keys[..|keys|] == keys;
      end := Done;
    }
  }
}
