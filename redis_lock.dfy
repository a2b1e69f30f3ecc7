/**
 * SimpleRedisLock: a non-blocking, ownership-checked lease on the key
 * "lock:" + name. tryLock stores the caller's owner token with SET NX EX;
 * unlock hands the same key and the caller's own token to the unlock script,
 * modelled by LeaseStore.CompareAndDelete.
 *
 * The owner token is ID_PREFIX + threadId, where ID_PREFIX (a random UUID
 * followed by "-") is fixed once per process. Here it is the lock's
 * `idPrefix`, and the calling thread's id is a parameter of each operation.
 */
module RedisLock {
  import opened Wrappers
  import opened Decimal
  import opened LeaseStore

  /** KEY_PREFIX */
  const KeyPrefix: string := "lock:"

  /** The store key of the lock named `name`, used by both tryLock and unlock. */
  function LockKey(name: string): (key: string)
    ensures |key| == |KeyPrefix| + |name|
    ensures key[..|KeyPrefix|] == KeyPrefix && key[|KeyPrefix|..] == name
  {
    KeyPrefix + name
  }

  /** ID_PREFIX + Thread.currentThread().getId() */
  function OwnerToken(idPrefix: string, threadId: nat): (token: string)
    ensures |token| > |idPrefix| && token[..|idPrefix|] == idPrefix
  {
    idPrefix + NatToString(threadId)
  }

  /** Two locks share a key only when they share a name. */
  lemma LockKeyInjective(n1: string, n2: string)
    ensures LockKey(n1) == LockKey(n2) ==> n1 == n2
  {
  }

  /** Within one process, different threads hold different tokens. */
  lemma OwnerTokenInjective(idPrefix: string, t1: nat, t2: nat)
    ensures OwnerToken(idPrefix, t1) == OwnerToken(idPrefix, t2) ==> t1 == t2
  {
    var a, b := OwnerToken(idPrefix, t1), OwnerToken(idPrefix, t2);
    if a == b {
      assert a[|idPrefix|..] == NatToString(t1);
      assert b[|idPrefix|..] == NatToString(t2);
      NatToStringInjective(t1, t2);
    }
  }

  /**
   * Processes whose prefixes differ (UUID strings all have one length) never
   * share a token, whatever their threads.
   */
  lemma OwnerTokenDistinctProcesses(p1: string, p2: string, t1: nat, t2: nat)
    requires |p1| == |p2| && p1 != p2
    ensures OwnerToken(p1, t1) != OwnerToken(p2, t2)
  {
  }

  /** Only the thread that locked can unlock: another thread's unlock leaves the store as it is. */
  lemma OtherThreadCannotUnlock(s: Store, name: string, idPrefix: string, owner: nat, other: nat)
    requires Get(s, LockKey(name)) == Some(OwnerToken(idPrefix, owner))
    requires other != owner
    ensures CompareAndDelete(s, LockKey(name), OwnerToken(idPrefix, other)) == s
  {
    OwnerTokenInjective(idPrefix, owner, other);
  }

  // ----- Sequences of lock operations on one key -----

  /** One atomic step against the lock's key: a tryLock, an unlock, or the passing of time. */
  datatype LockOp = Acquire(token: string, ttl: Seconds) | Release(token: string) | Wait(dt: nat)

  /** The store after the step, and whether the step acquired the lease. */
  function Step(s: Store, key: string, op: LockOp): (Store, bool) {
    match op
    case Acquire(token, ttl) => SetNxEx(s, key, token, ttl)
    case Release(token) => (CompareAndDelete(s, key, token), false)
    case Wait(dt) => (Advance(s, dt), false)
  }

  /** The store after the steps of `ops`, in order. */
  function Run(s: Store, key: string, ops: seq<LockOp>): Store
    decreases |ops|
  {
    if ops == [] then s else Step(Run(s, key, ops[..|ops| - 1]), key, ops[|ops| - 1]).0
  }

  /** The time that passes during `ops`. */
  function Elapsed(ops: seq<LockOp>): nat
    decreases |ops|
  {
    if ops == [] then 0
    else Elapsed(ops[..|ops| - 1]) + (if ops[|ops| - 1].Wait? then ops[|ops| - 1].dt else 0)
  }

  lemma {:induction false} ElapsedPrefix(ops: seq<LockOp>, j: nat)
    requires j <= |ops|
    ensures Elapsed(ops[..j]) <= Elapsed(ops)
    decreases |ops|
  {
    if j == |ops| {
      assert ops[..j] == ops;
    } else {
      var init := ops[..|ops| - 1];
      assert init[..j] == ops[..j];
      ElapsedPrefix(init, j);
      assert Elapsed(init) <= Elapsed(ops);
    }
  }

  /**
   * While its owner does not unlock and its TTL has not run out, a lease
   * stays in place whatever else is attempted on its key.
   */
  lemma {:induction false} LeaseHeld(s: Store, key: string, owner: string, ops: seq<LockOp>)
    requires Get(s, key) == Some(owner)
    requires forall i :: 0 <= i < |ops| ==> ops[i] != Release(owner)
    requires s.now + Elapsed(ops) < s.entries[key].expiresAt
    ensures key in Run(s, key, ops).entries && Run(s, key, ops).entries[key] == s.entries[key]
    ensures Run(s, key, ops).now == s.now + Elapsed(ops)
    decreases |ops|
  {
    if ops != [] {
      var init := ops[..|ops| - 1];
      assert forall i :: 0 <= i < |init| ==> init[i] == ops[i];
      LeaseHeld(s, key, owner, init);
      var m := Run(s, key, init);
      assert Get(m, key) == Some(owner);
    }
  }

  /**
   * Mutual exclusion: after a successful acquire by `owner` with TTL `ttl`,
   * as long as the owner does not unlock and less than `ttl` seconds pass,
   * the owner still holds the lease when each later step j is taken, and
   * that step acquires nothing, whoever attempts it.
   */
  lemma MutualExclusion(s0: Store, key: string, owner: string, ttl: Seconds, ops: seq<LockOp>, j: nat)
    requires SetNxEx(s0, key, owner, ttl).1
    requires forall i :: 0 <= i < |ops| ==> ops[i] != Release(owner)
    requires Elapsed(ops) < ttl
    requires j < |ops|
    ensures Get(Run(SetNxEx(s0, key, owner, ttl).0, key, ops[..j]), key) == Some(owner)
    ensures !Step(Run(SetNxEx(s0, key, owner, ttl).0, key, ops[..j]), key, ops[j]).1
  {
    var s := SetNxEx(s0, key, owner, ttl).0;
    ElapsedPrefix(ops, j);
    assert forall i :: 0 <= i < j ==> ops[..j][i] == ops[i];
    LeaseHeld(s, key, owner, ops[..j]);
  }

  /** A lock object: a name, the process's token prefix and the shared store. */
  class SimpleRedisLock {
    const name: string
    const idPrefix: string
    const store: RedisStore

    constructor (name: string, idPrefix: string, store: RedisStore)
      ensures this.name == name && this.idPrefix == idPrefix && this.store == store
    {
      this.name := name;
      this.idPrefix := idPrefix;
      this.store := store;
    }

    /**
     * tryLock(timeoutSec): true exactly when the key was absent or expired,
     * in which case it now holds this thread's token for timeoutSec seconds.
     */
    method TryLock(timeoutSec: Seconds, threadId: nat) returns (acquired: bool)
      modifies store
      ensures acquired <==> !old(Live(store.State(), LockKey(name)))
      ensures store.State() == SetNxEx(old(store.State()), LockKey(name), OwnerToken(idPrefix, threadId), timeoutSec).0
      ensures acquired ==> Get(store.State(), LockKey(name)) == Some(OwnerToken(idPrefix, threadId))
    {
      var success := store.SetIfAbsent(LockKey(name), OwnerToken(idPrefix, threadId), timeoutSec);
      acquired := success == Some(true);
    }

    /**
     * unlock(): deletes the key when it holds this thread's token and
     * otherwise leaves the store unchanged.
     */
    method Unlock(threadId: nat)
      modifies store
      ensures store.State() == CompareAndDelete(old(store.State()), LockKey(name), OwnerToken(idPrefix, threadId))
      ensures old(Get(store.State(), LockKey(name))) == Some(OwnerToken(idPrefix, threadId)) ==>
        Get(store.State(), LockKey(name)) == None
      ensures old(Get(store.State(), LockKey(name))) != Some(OwnerToken(idPrefix, threadId)) ==>
        store.State() == old(store.State())
    {
      var _ := store.EvalUnlockScript(LockKey(name), OwnerToken(idPrefix, threadId));
    }
  }
}
