/**
 * The monthly sign-in bitmap of UserServiceImpl: sign() sets one bit of a
 * per-user, per-month Redis bitmap, and signCount() reads a prefix of that
 * bitmap as an unsigned number and counts its trailing 1-bits.
 *
 * Bits use Redis numbering: offset 0 is the most significant bit of the first
 * byte, so in a value read by BITFIELD GET u<d> at offset 0 the bit at offset
 * d-1 is the least significant one. As in the source, sign() on day d writes
 * offset d while signCount() on day d reads offsets 0..d-1, so the mark of the
 * current day is not part of the count made on that day.
 */
module SignIn {
  import opened Wrappers
  import opened Decimal

  /** USER_SIGN_KEY, the namespace of the sign-in bitmaps. */
  const UserSignKey: string := "sign:"

  /** The calendar fields that LocalDateTime.now() supplies. */
  predicate ValidDate(year: int, month: int, day: int) {
    1 <= year <= 9999 && 1 <= month <= 12 && 1 <= day <= 31
  }

  /** The ":yyyyMM" suffix that DateTimeFormatter prints for a year and month. */
  function DateSuffix(year: nat, month: nat): (suffix: string)
    ensures |suffix| == 7 && suffix[0] == ':' && AllDigits(suffix[1..])
  {
    ":" + FixedWidth(year, 4) + FixedWidth(month, 2)
  }

  lemma DateSuffixInjective(y1: nat, m1: nat, y2: nat, m2: nat)
    requires y1 <= 9999 && m1 <= 12 && y2 <= 9999 && m2 <= 12
    ensures DateSuffix(y1, m1) == DateSuffix(y2, m2) ==> y1 == y2 && m1 == m2
  {
    var d1, d2 := DateSuffix(y1, m1), DateSuffix(y2, m2);
    if d1 == d2 {
      assert d1[1..5] == FixedWidth(y1, 4) && d2[1..5] == FixedWidth(y2, 4);
      assert d1[5..] == FixedWidth(m1, 2) && d2[5..] == FixedWidth(m2, 2);
      ParseFixedWidth(y1, 4);
      ParseFixedWidth(y2, 4);
      ParseFixedWidth(m1, 2);
      ParseFixedWidth(m2, 2);
    }
  }

  /** USER_SIGN_KEY + userId + ":yyyyMM", the key both sign() and signCount() address. */
  function SignKey(userId: int, year: nat, month: nat): (key: string)
    ensures |key| == |UserSignKey| + |IntToString(userId)| + 7
    ensures key[..|UserSignKey|] == UserSignKey
    ensures key[|UserSignKey|..|key| - 7] == IntToString(userId)
    ensures key[|key| - 7] == ':' && AllDigits(key[|key| - 6..])
  {
    UserSignKey + IntToString(userId) + DateSuffix(year, month)
  }

  /** Different users, and different months of one user, never share a register. */
  lemma SignKeyInjective(u1: int, y1: nat, m1: nat, u2: int, y2: nat, m2: nat)
    requires y1 <= 9999 && m1 <= 12 && y2 <= 9999 && m2 <= 12
    ensures SignKey(u1, y1, m1) == SignKey(u2, y2, m2) ==> u1 == u2 && y1 == y2 && m1 == m2
  {
    var k1, k2 := SignKey(u1, y1, m1), SignKey(u2, y2, m2);
    if k1 == k2 {
      var p, n := |UserSignKey|, |k1|;
      var i1, i2 := IntToString(u1), IntToString(u2);
      assert k1[p..n - 7] == i1 && k2[p..n - 7] == i2;
      assert k1[n - 7..] == DateSuffix(y1, m1) && k2[n - 7..] == DateSuffix(y2, m2);
      IntToStringInjective(u1, u2);
      DateSuffixInjective(y1, m1, y2, m2);
    }
  }

  // ----- Bitmap registers -----

  /** The bit at `offset`; offsets past the end of the string read as 0, as in Redis. */
  function BitAt(reg: seq<bool>, offset: nat): bool {
    offset < |reg| && reg[offset]
  }

  /**
   * SETBIT key offset 1: grows the string by whole zero bytes until it covers
   * `offset`, then sets that one bit.
   */
  function SetBitAt(reg: seq<bool>, offset: nat): (r: seq<bool>)
    ensures BitAt(r, offset)
    ensures forall i: nat :: i != offset ==> BitAt(r, i) == BitAt(reg, i)
    ensures |reg| % 8 == 0 ==> |r| % 8 == 0
  {
    var size := if offset < |reg| then |reg| else (offset / 8 + 1) * 8;
    var grown := reg + seq(size - |reg|, _ => false);
    grown[offset := true]
  }

  lemma SetBitIdempotent(reg: seq<bool>, offset: nat)
    ensures SetBitAt(SetBitAt(reg, offset), offset) == SetBitAt(reg, offset)
  {
  }

  /** The `width` bits at offsets 0..width-1, as BITFIELD sees them. */
  function Window(reg: seq<bool>, width: nat): (w: seq<bool>)
    ensures |w| == width
    ensures forall i :: 0 <= i < width ==> w[i] == BitAt(reg, i)
  {
    seq(width, i requires 0 <= i < width => BitAt(reg, i))
  }

  /** A bit string read as an unsigned big-endian number: its last bit is the least significant. */
  function Unsigned(w: seq<bool>): nat {
    if w == [] then 0 else 2 * Unsigned(w[..|w| - 1]) + (if w[|w| - 1] then 1 else 0)
  }

  function Pow2(n: nat): (p: nat)
    ensures p >= 1
  {
    if n == 0 then 1 else 2 * Pow2(n - 1)
  }

  /** Bit k of n, counting from the least significant bit (what `n >>> k & 1` inspects). */
  function Bit(n: nat, k: nat): bool {
    if k == 0 then n % 2 == 1 else Bit(n / 2, k - 1)
  }

  /** BITFIELD GET u<d> yields a value below 2^d. */
  lemma {:induction false} UnsignedBound(w: seq<bool>)
    ensures Unsigned(w) < Pow2(|w|)
  {
    if w != [] {
      UnsignedBound(w[..|w| - 1]);
    }
  }

  /** Bit k of the value read is the bit k places before the end of the window. */
  lemma {:induction false} BitOfUnsigned(w: seq<bool>, k: nat)
    ensures Bit(Unsigned(w), k) == (k < |w| && w[|w| - 1 - k])
  {
    if w == [] {
      ZeroHasNoBits(k);
    } else if k > 0 {
      var init := w[..|w| - 1];
      assert Unsigned(w) / 2 == Unsigned(init);
      BitOfUnsigned(init, k - 1);
    }
  }

  lemma {:induction false} ZeroHasNoBits(k: nat)
    ensures !Bit(0, k)
  {
    if k > 0 {
      ZeroHasNoBits(k - 1);
    }
  }

  /** The run of set bits at the end of a bit string. */
  function TrailingRun(w: seq<bool>): (r: nat)
    ensures r <= |w|
    ensures forall j :: |w| - r <= j < |w| ==> w[j]
    ensures r < |w| ==> !w[|w| - 1 - r]
  {
    if w == [] || !w[|w| - 1] then 0 else 1 + TrailingRun(w[..|w| - 1])
  }

  /** The count signCount() answers on day d for a register: the run of set bits ending at offset d-1. */
  function Streak(reg: seq<bool>, day: nat): (c: nat)
    ensures c <= day
  {
    TrailingRun(Window(reg, day))
  }

  /**
   * What the streak means in days: the offsets d-c, ..., d-1 are all set
   * and, unless the run reaches offset 0, offset d-1-c is not.
   */
  lemma StreakCharacterised(reg: seq<bool>, day: nat, c: nat)
    ensures c == Streak(reg, day) <==>
      c <= day &&
      (forall j: nat :: day - c <= j < day ==> BitAt(reg, j)) &&
      (c < day ==> !BitAt(reg, day - 1 - c))
  {
  }

  /** The trailing 1-bits of the value read are exactly the trailing run of the window read. */
  lemma TrailingOnesOfUnsigned(w: seq<bool>, c: nat)
    requires forall k :: 0 <= k < c ==> Bit(Unsigned(w), k)
    requires !Bit(Unsigned(w), c)
    ensures c == TrailingRun(w)
  {
    var r := TrailingRun(w);
    BitOfUnsigned(w, c);
    BitOfUnsigned(w, r);
  }

  /** The mark that sign() makes on day d lies outside the window signCount() reads on day d. */
  lemma SignLeavesSameDayCount(reg: seq<bool>, day: nat)
    ensures Streak(SetBitAt(reg, day), day) == Streak(reg, day)
  {
  }

  /** From the next day on, the mark is the least significant bit read and extends the run. */
  lemma SignCountedNextDay(reg: seq<bool>, day: nat)
    ensures Streak(SetBitAt(reg, day), day + 1) == Streak(reg, day) + 1
  {
  }

  /**
   * A month in which days 1, 2, 3 and 5 were signed. Because each day's mark
   * sits at the offset of its own number and the count on day d reads offsets
   * 0..d-1, the count is 2 on day 3, 3 on day 4 and 0 on day 5.
   */
  lemma SignedDaysOneTwoThreeFive()
    ensures var reg := SetBitAt(SetBitAt(SetBitAt(SetBitAt([], 1), 2), 3), 5);
      Streak(reg, 3) == 2 && Streak(reg, 4) == 3 && Streak(reg, 5) == 0
  {
    var reg := SetBitAt(SetBitAt(SetBitAt(SetBitAt([], 1), 2), 3), 5);
    assert !BitAt(reg, 0) && BitAt(reg, 1) && BitAt(reg, 2) && BitAt(reg, 3) && !BitAt(reg, 4);
    StreakCharacterised(reg, 3, 2);
    StreakCharacterised(reg, 4, 3);
    StreakCharacterised(reg, 5, 0);
  }

  // ----- The BITFIELD reply and the counting loop -----

  /** The number signCount() inspects: 0 when the reply, its list or its first element is null. */
  function ReplyValue(reply: Option<seq<Option<nat>>>): (n: nat)
    ensures n != 0 <==> reply.Some? && |reply.value| > 0 && reply.value[0].Some? && reply.value[0].value != 0
    ensures n != 0 ==> reply.value[0] == Some(n)
  {
    match reply
    case None => 0
    case Some(values) =>
      if |values| == 0 then 0
      else match values[0]
        case None => 0
        case Some(n) => n
  }

  /**
   * The body of signCount() after the read: the short-circuits on an absent
   * or zero value, then the loop that tests `num & 1` and shifts `num >>>= 1`
   * until it meets a 0 bit. The count is the number of trailing 1-bits of the
   * value read: bits 0..count-1 are set and bit count is not.
   */
  method CountTrailingOnes(reply: Option<seq<Option<nat>>>) returns (count: nat)
    ensures ReplyValue(reply) == 0 ==> count == 0
    ensures forall k :: 0 <= k < count ==> Bit(ReplyValue(reply), k)
    ensures !Bit(ReplyValue(reply), count)
  {
    if reply.None? || |reply.value| == 0 {
      ZeroHasNoBits(0);
      return 0;
    }
    var first := reply.value[0];
    if first.None? || first.value == 0 {
      ZeroHasNoBits(0);
      return 0;
    }
    ghost var v := first.value;
    var num := first.value;
    count := 0;
    while true
      invariant forall k :: 0 <= k < count ==> Bit(v, k)
      invariant forall k: nat :: Bit(num, k) == Bit(v, k + count)
      decreases num
    {
      if num % 2 == 0 {
        assert !Bit(num, 0);
        break;
      } else {
        assert Bit(num, 0);
        count := count + 1;
      }
      num := num / 2;
      assert forall k: nat :: Bit(num, k) == Bit(num * 2 + 1, k + 1);
    }
  }

  /** No run is longer than the bits read: a value below 2^w has at most w trailing 1-bits. */
  lemma TrailingOnesBound(v: nat, w: nat, count: nat)
    requires v < Pow2(w)
    requires forall k :: 0 <= k < count ==> Bit(v, k)
    ensures count <= w
  {
    if w < count {
      HighBitClear(v, w);
    }
  }

  lemma {:induction false} HighBitClear(v: nat, w: nat)
    requires v < Pow2(w)
    ensures !Bit(v, w)
  {
    if w == 0 {
      assert v == 0;
    } else {
      HighBitClear(v / 2, w - 1);
    }
  }

  // ----- The register store and the two service operations -----

  /** The sign-in bitmaps held in Redis, one bit string per key. */
  class SignRegisters {
    var registers: map<string, seq<bool>>

    /** Redis strings are whole bytes. */
    ghost predicate Valid()
      reads this
    {
      forall key :: key in registers ==> |registers[key]| % 8 == 0
    }

    /** The register under `key`; a missing key reads as an empty string. */
    function Register(key: string): seq<bool>
      reads this
    {
      if key in registers then registers[key] else []
    }

    constructor ()
      ensures Valid() && registers == map[]
    {
      registers := map[];
    }

    /** SETBIT key offset 1. */
    method SetBit(key: string, offset: nat)
      requires Valid()
      modifies this
      ensures Valid()
      ensures registers == old(registers)[key := SetBitAt(old(Register(key)), offset)]
      ensures offset < |Register(key)| && |Register(key)| % 8 == 0
    {
      registers := registers[key := SetBitAt(Register(key), offset)];
    }

    /** BITFIELD key GET u<width> 0: one reply element, the first `width` bits as an unsigned number. */
    method BitFieldGetUnsigned(key: string, width: nat) returns (reply: Option<seq<Option<nat>>>)
      requires 1 <= width <= 63
      ensures reply.Some? && |reply.value| == 1 && reply.value[0].Some?
      ensures ReplyValue(reply) == Unsigned(Window(Register(key), width))
      ensures ReplyValue(reply) < Pow2(width)
    {
      UnsignedBound(Window(Register(key), width));
      reply := Some([Some(Unsigned(Window(Register(key), width)))]);
    }

    /**
     * sign(): the current user marks the current day in the register of the
     * current month. Every other bit, and every other register, is unchanged.
     */
    method Sign(userId: int, year: nat, month: nat, day: nat)
      requires Valid() && ValidDate(year, month, day)
      modifies this
      ensures Valid()
      ensures var key := SignKey(userId, year, month);
        registers == old(registers)[key := SetBitAt(old(Register(key)), day)] &&
        BitAt(Register(key), day) &&
        (forall i: nat :: i != day ==> BitAt(Register(key), i) == BitAt(old(Register(key)), i)) &&
        Streak(Register(key), day) == old(Streak(Register(key), day))
    {
      var key := SignKey(userId, year, month);
      SetBit(key, day);
      SignLeavesSameDayCount(old(Register(key)), day);
    }

    /**
     * signCount(): the run of marks ending at offset day-1 in the current
     * month's register of the current user.
     */
    method SignCount(userId: int, year: nat, month: nat, day: nat) returns (count: nat)
      requires ValidDate(year, month, day)
      ensures count == Streak(Register(SignKey(userId, year, month)), day)
      ensures count <= day
    {
      var key := SignKey(userId, year, month);
      var reply := BitFieldGetUnsigned(key, day);
      count := CountTrailingOnes(reply);
      TrailingOnesOfUnsigned(Window(Register(key), day), count);
    }
  }
}
