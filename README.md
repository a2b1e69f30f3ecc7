# Sign-in streaks and the Redis lease lock of hm-dianping

This project models, in Dafny, two small pieces of the hm-dianping consumer
backend that carry real logic:

- **The monthly sign-in bitmap** (`UserServiceImpl.sign` / `signCount`). Each
  user has one Redis bitmap per month, under the key
  `sign:<userId>:<yyyyMM>`. `sign()` sets the bit at offset `dayOfMonth`.
  `signCount()` reads the first `dayOfMonth` bits as one unsigned number
  (BITFIELD GET `u<dayOfMonth>` at offset 0) and counts the 1-bits at its
  least significant end, stopping at the first 0.
- **The ownership-checked lease** (`SimpleRedisLock`). `tryLock` is a SET
  with NX and EX on the key `lock:<name>`, storing the owner token
  `ID_PREFIX + threadId`. `unlock` runs the unlock script with the same key
  and the caller's own token.

Files:

- `wrappers.dfy`: the `Option` type used for the Redis client's nullable
  replies.
- `decimal.dfy`: the decimal renderings used in keys and tokens. It covers
  Java's `Long.toString` and the zero-padded `yyyy` and `MM` fields. Each
  rendering comes with a parser, which gives injectivity.
- `sign_in.dfy`: bitmap registers in Redis bit numbering. Offset 0 is the
  most significant bit of the first byte, so in the value read, offset
  `d-1` is the least significant bit. It defines the big-endian reading, the
  trailing-ones loop, and the class `SignRegisters` with `Sign` and
  `SignCount`.
- `lease_store.dfy`: an abstract Redis keyspace. It maps each key to a value
  and an expiry, and has a logical clock. It gives SET NX EX
  (`SetNxEx`) and the unlock script (`CompareAndDelete`) as pure functions,
  and the class `RedisStore`, whose methods update the keyspace in place.
- `redis_lock.dfy`: the key and token scheme, and the class
  `SimpleRedisLock`. It also holds a small trace model of lock operations on
  one key, in which mutual exclusion is proved.

The script loaded at `SimpleRedisLock.java:24` is modelled by the
assumption `LeaseStore.CompareAndDelete`: one atomic step that deletes the
key only when the value stored there equals the token passed in, and
otherwise changes nothing.

Two points about the sign-in code, modelled as written:

- **Which bits are counted.** The comment at `UserServiceImpl.java:145` says
  the read covers this month's sign-ins up to today. But the code writes the
  mark of day `d` at offset `d` (line 130) and reads only offsets `0..d-1`
  (lines 146-148). So the count on day `d` is the run of marks ending at day
  `d-1`, and today's mark is never part of it
  (`SignIn.SignLeavesSameDayCount`). The mark is counted from the next day
  on (`SignIn.SignCountedNextDay`). Suppose days 1, 2, 3 and 5 were signed.
  A count that included today would be 3, 0 and 1 on days 3, 4 and 5. The
  code gives 2, 3 and 0 (`SignIn.SignedDaysOneTwoThreeFive`).
- **The sign-in key prefix.** `USER_SIGN_KEY` is taken as `sign:`.

## Model

| member | source | states |
|---|---|---|
| `Decimal.NatToString` | src/main/java/com/hmdp/utils/SimpleRedisLock.java:36 | the thread id's text is non-empty and all digits |
| `Decimal.IntToString` | src/main/java/com/hmdp/service/impl/UserServiceImpl.java:126 | the user id's text is non-empty, starts with `-` exactly when the id is negative, and is all digits otherwise |
| `Decimal.IntToStringInjective` | src/main/java/com/hmdp/service/impl/UserServiceImpl.java:126 | different user ids render to different texts |
| `Decimal.ParseFixedWidth` | src/main/java/com/hmdp/service/impl/UserServiceImpl.java:125 | a year below 10000 or a month, zero-padded to 4 or 2 digits (`yyyy`, `MM`), is recovered from its text |
| `SignIn.DateSuffix` | src/main/java/com/hmdp/service/impl/UserServiceImpl.java:125 | the `:yyyyMM` suffix is seven characters: a `:` and six digits |
| `SignIn.DateSuffixInjective` | src/main/java/com/hmdp/service/impl/UserServiceImpl.java:141 | equal `:yyyyMM` suffixes imply equal year and month |
| `SignIn.SignKey` | src/main/java/com/hmdp/service/impl/UserServiceImpl.java:125-126 | the key both operations address is `USER_SIGN_KEY`, then exactly the user id's text, then a `:` and six date digits |
| `SignIn.SignKeyInjective` | src/main/java/com/hmdp/service/impl/UserServiceImpl.java:141-142 | equal keys imply equal user, year and month, so each user-month has its own register |
| `SignIn.SetBitAt` | src/main/java/com/hmdp/service/impl/UserServiceImpl.java:129-130 | SETBIT sets the bit at `offset` and leaves every other bit as it was; the register stays a whole number of bytes |
| `SignIn.SetBitIdempotent` | src/main/java/com/hmdp/service/impl/UserServiceImpl.java:130 | signing twice on the same day gives the same register as signing once |
| `SignIn.Window` | src/main/java/com/hmdp/service/impl/UserServiceImpl.java:146-148 | the window read has `width` bits, and bit `i` is the register's bit at offset `i` (0 beyond the end) |
| `SignIn.UnsignedBound` | src/main/java/com/hmdp/service/impl/UserServiceImpl.java:146-148 | the unsigned value of `d` bits is below `2^d` |
| `SignIn.BitOfUnsigned` | src/main/java/com/hmdp/service/impl/UserServiceImpl.java:146-148 | bit `k` of the value read is the window's bit at offset `d-1-k`, and 0 for `k >= d`, so offset `d-1` is the least significant bit |
| `SignIn.TrailingRun` | src/main/java/com/hmdp/service/impl/UserServiceImpl.java:159-171 | the run is at most the window's length, its last `r` bits are all set, and the bit just before them is clear |
| `SignIn.Streak` | src/main/java/com/hmdp/service/impl/UserServiceImpl.java:145-172 | the count answered on day `d` never exceeds `d` |
| `SignIn.StreakCharacterised` | src/main/java/com/hmdp/service/impl/UserServiceImpl.java:145-172 | `c` is the count on day `d` exactly when `c <= d`, offsets `d-c..d-1` are set, and offset `d-1-c` is clear unless `c == d` |
| `SignIn.TrailingOnesOfUnsigned` | src/main/java/com/hmdp/service/impl/UserServiceImpl.java:160-170 | the number of trailing 1-bits of the value read equals the trailing run of the window read |
| `SignIn.SignLeavesSameDayCount` | src/main/java/com/hmdp/service/impl/UserServiceImpl.java:128-130 | signing on day `d` does not change the count made on day `d`, since offset `d` is outside the window `0..d-1` |
| `SignIn.SignCountedNextDay` | src/main/java/com/hmdp/service/impl/UserServiceImpl.java:144-148 | after signing on day `d`, the count on day `d+1` is the count on day `d` plus one |
| `SignIn.SignedDaysOneTwoThreeFive` | src/main/java/com/hmdp/service/impl/UserServiceImpl.java:119-173 | with days 1, 2, 3 and 5 signed, the counts on days 3, 4 and 5 are 2, 3 and 0 |
| `SignIn.ReplyValue` | src/main/java/com/hmdp/service/impl/UserServiceImpl.java:150-157 | the value inspected is non-zero exactly when the reply, its list and its first element are non-null and that element is non-zero, and then it is that element |
| `SignIn.CountTrailingOnes` | src/main/java/com/hmdp/service/impl/UserServiceImpl.java:150-172 | returns 0 when the reply, its list or its first value is null or the value is 0; otherwise the loop terminates, and bits `0..count-1` of the value are 1 while bit `count` is 0 |
| `SignIn.TrailingOnesBound` | src/main/java/com/hmdp/service/impl/UserServiceImpl.java:159-171 | a value below `2^d` has at most `d` trailing 1-bits, so the count never exceeds the width read |
| `SignIn.SignRegisters.SetBit` | src/main/java/com/hmdp/service/impl/UserServiceImpl.java:130 | SETBIT replaces exactly the one register under `key`; that register then covers `offset` and is a whole number of bytes |
| `SignIn.SignRegisters.BitFieldGetUnsigned` | src/main/java/com/hmdp/service/impl/UserServiceImpl.java:146-149 | the reply is one non-null value: the first `width` bits read big-endian, below `2^width` |
| `SignIn.SignRegisters.Sign` | src/main/java/com/hmdp/service/impl/UserServiceImpl.java:119-132 | sets the bit at offset `dayOfMonth` in this user-month's register, changes no other bit and no other register, and leaves that day's count unchanged |
| `SignIn.SignRegisters.SignCount` | src/main/java/com/hmdp/service/impl/UserServiceImpl.java:135-173 | returns the run of set bits ending at offset `dayOfMonth-1` of this user-month's register, at most `dayOfMonth` |
| `LeaseStore.Get` | src/main/java/com/hmdp/utils/SimpleRedisLock.java:47-49 | a key reads as present exactly while it is live (unexpired) |
| `LeaseStore.SetNxEx` | src/main/java/com/hmdp/utils/SimpleRedisLock.java:38-40 | succeeds exactly when the key is absent or expired, then holds the value with expiry `now + ttl`; on failure the store is unchanged; other keys are untouched |
| `LeaseStore.CompareAndDelete` | src/main/java/com/hmdp/utils/SimpleRedisLock.java:47-50 | assumed unlock script: the key is gone afterwards when it held `token`; otherwise the store is unchanged; other keys are untouched |
| `LeaseStore.Advance` | src/main/java/com/hmdp/utils/SimpleRedisLock.java:39 | time moves forward by `dt` seconds with the keys unchanged |
| `LeaseStore.ReleaseIdempotent` | src/main/java/com/hmdp/utils/SimpleRedisLock.java:45-51 | unlocking twice has the effect of unlocking once |
| `LeaseStore.ReleaseAbsentIsNoOp` | src/main/java/com/hmdp/utils/SimpleRedisLock.java:47-50 | unlocking an absent or expired key changes nothing |
| `LeaseStore.StaleReleaseKeepsNewLease` | src/main/java/com/hmdp/utils/SimpleRedisLock.java:38-50 | after A's lease expires and B acquires, A's unlock leaves B's lease in place |
| `LeaseStore.LeaseExpires` | src/main/java/com/hmdp/utils/SimpleRedisLock.java:39 | once `ttl` seconds have passed, another acquire succeeds |
| `LeaseStore.RedisStore.SetIfAbsent` | src/main/java/com/hmdp/utils/SimpleRedisLock.java:38-39 | the reply is TRUE exactly when the key was not live; the keyspace becomes the result of SET NX EX |
| `LeaseStore.RedisStore.EvalUnlockScript` | src/main/java/com/hmdp/utils/SimpleRedisLock.java:47-50 | the keyspace becomes the result of the compare-and-delete; the reply is 1 when it deleted and 0 otherwise |
| `RedisLock.LockKey` | src/main/java/com/hmdp/utils/SimpleRedisLock.java:16 | the key starts with `KEY_PREFIX` (`lock:`) and the rest of it is exactly the lock name |
| `RedisLock.LockKeyInjective` | src/main/java/com/hmdp/utils/SimpleRedisLock.java:39 | locks with different names use different keys |
| `RedisLock.OwnerToken` | src/main/java/com/hmdp/utils/SimpleRedisLock.java:36 | the token starts with the process prefix and is longer than it |
| `RedisLock.OwnerTokenInjective` | src/main/java/com/hmdp/utils/SimpleRedisLock.java:49 | within one process, equal tokens mean equal thread ids |
| `RedisLock.OwnerTokenDistinctProcesses` | src/main/java/com/hmdp/utils/SimpleRedisLock.java:18 | processes with distinct prefixes of equal length never share a token |
| `RedisLock.OtherThreadCannotUnlock` | src/main/java/com/hmdp/utils/SimpleRedisLock.java:45-51 | while one thread holds the lease, another thread's unlock leaves the store unchanged |
| `RedisLock.ElapsedPrefix` | src/main/java/com/hmdp/utils/SimpleRedisLock.java:39 | no more time passes in a prefix of a sequence of operations than in the whole sequence |
| `RedisLock.LeaseHeld` | src/main/java/com/hmdp/utils/SimpleRedisLock.java:38-40 | while the owner does not unlock and the TTL has not run out, the stored lease stays exactly as it was |
| `RedisLock.MutualExclusion` | src/main/java/com/hmdp/utils/SimpleRedisLock.java:33-41 | after a successful acquire, at every later step before the owner unlocks or the TTL elapses, the owner still holds the lease and the step acquires nothing, whoever attempts it |
| `RedisLock.SimpleRedisLock.constructor` | src/main/java/com/hmdp/utils/SimpleRedisLock.java:28-31 | the lock keeps the name and the store it is given, with the process's token prefix |
| `RedisLock.SimpleRedisLock.TryLock` | src/main/java/com/hmdp/utils/SimpleRedisLock.java:34-41 | returns true exactly when `lock:<name>` was not live, and then the key holds this thread's token with expiry `now + timeoutSec`; otherwise the store is unchanged |
| `RedisLock.SimpleRedisLock.Unlock` | src/main/java/com/hmdp/utils/SimpleRedisLock.java:45-51 | deletes `lock:<name>` when it holds this thread's token, otherwise leaves the store unchanged |

## Left out

- `sendCode`, `login` and `createUserWithPhone` are left out. They are
  session, Redis and database I/O, random codes, UUIDs and bean copying.
  The phone check (`RegexUtils`) is not part of this model.
- The current user (`UserHolder`) and the wall clock (`LocalDateTime.now()`)
  are left out. The user id, year, month and day of month are parameters.
  Years are limited to 1..9999, where `yyyy` prints exactly four digits.
- `SignIn.SignRegisters.SignCount`: the reply values are natural numbers.
  This is what an unsigned BITFIELD read of at most 31 bits returns, so
  `num >>>= 1` is division by 2. A negative `Long` is never produced, and the
  64-bit unsigned shift of one is not modelled.
- `SignIn.CountTrailingOnes`: the model's store never returns a null or
  empty BITFIELD reply. Those replies come only from pipelined or
  transactional use of the client. The method still models the source's
  null and empty branches on any reply it is given.
- `RedisLock.SimpleRedisLock.TryLock`: the model's store always answers
  `setIfAbsent` with a non-null Boolean. A null reply, which the client gives
  in pipelined or transactional use, would make `tryLock` return false; that
  case is not exercised.
- `RedisLock.SimpleRedisLock.TryLock`: a non-positive `timeoutSec` makes
  Redis refuse the SET, and the client throws. The model takes the timeout
  as a positive number of seconds instead.
- Store errors and timeouts (a connection failure, a script error) are not
  modelled. Each store command is one atomic step that always completes.
- Threads and real interleavings are not modelled. Each store command is a
  single sequential step, and mutual exclusion is stated over any sequence
  of such steps on one key. Clock skew between processes, and a critical
  section that outlives its lease, are outside the model.
- Expiry is modelled as a key being live while `now < expiresAt` on one
  logical clock measured in whole seconds. Redis's millisecond timing and
  its lazy deletion of expired keys are not modelled; an expired key simply
  reads as absent.
- `ID_PREFIX` is a random UUID generated once per class load. Here it is a
  constant field of each lock object (`idPrefix`). Uniqueness across
  processes is stated only for prefixes that differ and have equal length.
- The value of `USER_SIGN_KEY` is taken as `sign:`; `RedisConstants.java`
  is not part of this model.
- Flash-sale order admission is not modelled; only the
  `IVoucherOrderService` interface (`IVoucherOrderService.java:18-20`) is in
  scope, with no implementation. `FollowController`, `IUserService` and
  `IShopService` hold routing or interface declarations only.
