/**
 * The part of the Redis server that the lock relies on: string keys with an
 * expiry time, a logical clock, SET with NX and EX, and the unlock script.
 *
 * The script that SimpleRedisLock loads as its unlock script is modelled, as
 * an explicit assumption about its behaviour, by CompareAndDelete: one atomic
 * step that deletes the key only when the value stored there equals the
 * token it is given.
 */
module LeaseStore {
  import opened Wrappers

  /** An expiry in seconds, as SET ... EX accepts it (Redis refuses zero and negative values). */
  type Seconds = n: int | n > 0 witness 1

  datatype Entry = Entry(value: string, expiresAt: int)

  /** The store's keys and the current time of its logical clock. */
  datatype Store = Store(entries: map<string, Entry>, now: int)

  /** A key is live while the clock has not reached its expiry time. */
  predicate Live(s: Store, key: string) {
    key in s.entries && s.now < s.entries[key].expiresAt
  }

  /** GET: the value of a live key; an expired key reads as absent. */
  function Get(s: Store, key: string): (v: Option<string>)
    ensures v.Some? <==> Live(s, key)
    ensures v.Some? ==> v.value == s.entries[key].value
  {
    if Live(s, key) then Some(s.entries[key].value) else None
  }

  /**
   * SET key value EX ttl NX: stores the value with expiry now + ttl when the
   * key is absent or expired, and reports whether it did.
   */
  function SetNxEx(s: Store, key: string, value: string, ttl: Seconds): (r: (Store, bool))
    ensures r.1 <==> !Live(s, key)
    ensures r.1 ==> Get(r.0, key) == Some(value) && r.0.entries[key].expiresAt == s.now + ttl
    ensures !r.1 ==> r.0 == s
    ensures r.0.now == s.now
    ensures forall k :: k != key ==> Get(r.0, k) == Get(s, k)
  {
    if Live(s, key) then (s, false)
    else (s.(entries := s.entries[key := Entry(value, s.now + ttl)]), true)
  }

  /**
   * The assumed unlock script: GET the key and DEL it when the value read
   * equals `token`, as one atomic step; otherwise change nothing.
   */
  function CompareAndDelete(s: Store, key: string, token: string): (t: Store)
    ensures Get(s, key) == Some(token) ==> Get(t, key) == None
    ensures Get(s, key) != Some(token) ==> t == s
    ensures t.now == s.now
    ensures forall k :: k != key ==> Get(t, k) == Get(s, k)
  {
    if Get(s, key) == Some(token) then s.(entries := s.entries - {key}) else s
  }

  /** The passing of `dt` seconds. */
  function Advance(s: Store, dt: nat): (t: Store)
    ensures t.entries == s.entries && t.now == s.now + dt
  {
    s.(now := s.now + dt)
  }

  /** Releasing twice is the same as releasing once. */
  lemma ReleaseIdempotent(s: Store, key: string, token: string)
    ensures CompareAndDelete(CompareAndDelete(s, key, token), key, token) == CompareAndDelete(s, key, token)
  {
  }

  /** Releasing a key that is absent or expired changes nothing. */
  lemma ReleaseAbsentIsNoOp(s: Store, key: string, token: string)
    requires !Live(s, key)
    ensures CompareAndDelete(s, key, token) == s
  {
  }

  /**
   * A holder whose lease expired cannot release the lease another holder has
   * since acquired: acquire with a, let a's lease expire, acquire with b, then
   * release with a; b still holds the key.
   */
  lemma StaleReleaseKeepsNewLease(s0: Store, key: string, a: string, b: string, ttlA: Seconds, ttlB: Seconds)
    requires a != b
    requires SetNxEx(s0, key, a, ttlA).1
    ensures var s1 := Advance(SetNxEx(s0, key, a, ttlA).0, ttlA);
      var s2 := SetNxEx(s1, key, b, ttlB);
      s2.1 && Get(s2.0, key) == Some(b) && CompareAndDelete(s2.0, key, a) == s2.0
  {
  }

  /** The passing of time alone ends a lease: once its TTL has elapsed, anyone can acquire. */
  lemma LeaseExpires(s0: Store, key: string, a: string, ttl: Seconds, dt: nat, b: string, ttlB: Seconds)
    requires SetNxEx(s0, key, a, ttl).1
    requires dt >= ttl
    ensures SetNxEx(Advance(SetNxEx(s0, key, a, ttl).0, dt), key, b, ttlB).1
  {
  }

  /** The Redis server's string keyspace, updated in place by each command. */
  class RedisStore {
    var entries: map<string, Entry>
    var now: int

    function State(): Store
      reads this
    {
      Store(entries, now)
    }

    constructor (start: int)
      ensures entries == map[] && now == start
    {
      entries := map[];
      now := start;
    }

    /** opsForValue().setIfAbsent(key, value, ttl, SECONDS); the client's Boolean reply. */
    method SetIfAbsent(key: string, value: string, ttl: Seconds) returns (reply: Option<bool>)
      modifies this
      ensures reply == Some(!old(Live(State(), key)))
      ensures State() == SetNxEx(old(State()), key, value, ttl).0
    {
      var r := SetNxEx(State(), key, value, ttl);
      entries := r.0.entries;
      reply := Some(r.1);
    }

    /** execute(UNLOCK_SCRIPT, [key], token): the script's reply is the number of keys deleted. */
    method EvalUnlockScript(key: string, token: string) returns (deleted: int)
      modifies this
      ensures deleted == if old(Get(State(), key)) == Some(token) then 1 else 0
      ensures State() == CompareAndDelete(old(State()), key, token)
    {
      deleted := if Get(State(), key) == Some(token) then 1 else 0;
      entries := CompareAndDelete(State(), key, token).entries;
    }

    /** The logical clock moves forward by `dt` seconds. */
    method Tick(dt: nat)
      modifies this
      ensures State() == Advance(old(State()), dt)
    {
      now := now + dt;
    }
  }
}
