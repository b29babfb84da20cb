/** Identifiers made of a time and random bits (crates/data-model/src/utils.rs). A time is a number of
    milliseconds since the epoch. Unsigned integers are bounded natural numbers; their bitwise operators
    are defined bit by bit. */
module Ulid {

  const TIME_BITS: nat := 48

  type i64 = n: int | -0x8000_0000_0000_0000 <= n < 0x8000_0000_0000_0000
  type u16 = n: nat | n < 0x1_0000
  type u64 = n: nat | n < 0x1_0000_0000_0000_0000
  type u128 = n: nat | n < 0x1_0000_0000_0000_0000_0000_0000_0000_0000

  // ---------------------------------------------------------------- bits

  function Pow2(k: nat): (p: nat)
    ensures p > 0
  {
    if k == 0 then 1 else 2 * Pow2(k - 1)
  }

  function Shl(a: nat, k: nat): nat { a * Pow2(k) }

  function Shr(a: nat, k: nat): nat { if k == 0 then a else Shr(a / 2, k - 1) }

  function BitOr(a: nat, b: nat): nat {
    if a == 0 && b == 0 then 0 else 2 * BitOr(a / 2, b / 2) + if a % 2 == 1 || b % 2 == 1 then 1 else 0
  }

  function BitAnd(a: nat, b: nat): nat {
    if a == 0 || b == 0 then 0 else 2 * BitAnd(a / 2, b / 2) + if a % 2 == 1 && b % 2 == 1 then 1 else 0
  }

  lemma {:induction false} OrZero(a: nat)
    ensures BitOr(a, 0) == a
  {
    if a > 0 { OrZero(a / 2); }
  }

  /** Joining disjoint bits is adding. */
  lemma {:induction false} OrIsSum(a: nat, b: nat, k: nat)
    requires b < Pow2(k)
    ensures BitOr(Shl(a, k), b) == Shl(a, k) + b
  {
    if k == 0 {
      OrZero(a);
    } else {
      OrIsSum(a, b / 2, k - 1);
      assert Shl(a, k) == 2 * Shl(a, k - 1) by { Doubled(a, Pow2(k - 1)); }
    }
  }

  /** Shifting back drops the low bits. */
  lemma {:induction false} ShiftBack(q: nat, x: nat, k: nat)
    requires x < Pow2(k)
    ensures Shr(Shl(q, k) + x, k) == q
  {
    if k > 0 {
      assert Shl(q, k) == 2 * Shl(q, k - 1) by { Doubled(q, Pow2(k - 1)); }
      ShiftBack(q, x / 2, k - 1);
      assert (Shl(q, k) + x) / 2 == Shl(q, k - 1) + x / 2;
    }
  }

  lemma Doubled(a: nat, p: nat)
    ensures a * (2 * p) == 2 * (a * p)
  {
  }

  /** Masking with k ones is the remainder modulo 2^k. */
  lemma {:induction false} MaskIsModulo(a: nat, k: nat)
    ensures BitAnd(a, Pow2(k) - 1) == a % Pow2(k)
  {
    if k > 0 {
      MaskIsModulo(a / 2, k - 1);
      HalfModulo(a, Pow2(k - 1));
      MaskStep(a, Pow2(k - 1));
    }
  }

  lemma MaskStep(a: nat, p: nat)
    requires p > 0
    ensures BitAnd(a, 2 * p - 1) == 2 * BitAnd(a / 2, p - 1) + a % 2
  {
    assert (2 * p - 1) / 2 == p - 1 && (2 * p - 1) % 2 == 1;
  }

  lemma HalfModulo(a: nat, p: nat)
    requires p > 0
    ensures a % (2 * p) == 2 * (a / 2 % p) + a % 2
  {
    var q, r := a / 2 / p, a / 2 % p;
    assert a / 2 == q * p + r;
    var x := 2 * r + a % 2;
    assert a == q * (2 * p) + x by { Doubled(q, p); }
    assert x < 2 * p;
    Remainder(q, 2 * p, x);
  }

  lemma Remainder(q: nat, p: nat, x: nat)
    requires x < p
    ensures (q * p + x) % p == x && (q * p + x) / p == q
  {
    var a := q * p + x;
    assert a == a / p * p + a % p;
    assert (q - a / p) * p == a % p - x;
    Close(q - a / p, p, a % p - x);
  }

  lemma Close(d: int, p: nat, r: int)
    requires d * p == r && 0 - p < r < p
    ensures d == 0
  {
    Scale(1, d, p);
    Scale(1, -d, p);
  }

  lemma Scale(a: int, b: int, p: nat)
    ensures a <= b ==> a * p <= b * p
  {
  }

  // ---------------------------------------------------------------- identifiers

  /** `timestamp_millis` as an unsigned number; times before the epoch count as the epoch. */
  function TimestampMs(ms: i64): u64 { if ms < 0 then 0 else ms }

  /** The bits of a time and 16 and 64 random bits, one after the other. */
  function Pack(t: u64, high: u16, low: u64): nat {
    var timebits := BitAnd(t, Pow2(TIME_BITS) - 1);
    var msb := BitOr(Shl(timebits, 16), high);
    BitOr(Shl(msb, 64), low)
  }

  function FromDatetime(ms: i64, high: u16, low: u64): u128 {
    Packed(TimestampMs(ms), high, low);
    Pack(TimestampMs(ms), high, low)
  }

  /** The timestamp of an identifier: its top 48 bits. */
  function TimestampOf(id: u128): nat { Shr(id, 80) }

  function DatetimeUtc(id: u128): i64 {
    if TimestampOf(id) < 0x8000_0000_0000_0000 then TimestampOf(id) else 0x7FFF_FFFF_FFFF_FFFF
  }

  lemma {:induction false} PowersAdd(j: nat, k: nat)
    ensures Pow2(j + k) == Pow2(j) * Pow2(k)
  {
    if j > 0 {
      PowersAdd(j - 1, k);
      Doubled(Pow2(k), Pow2(j - 1));
    }
  }

  lemma PowersOfTwo()
    ensures Pow2(16) == 0x1_0000 && Pow2(48) == 0x1_0000_0000_0000 && Pow2(64) == 0x1_0000_0000_0000_0000
    ensures Pow2(80) == 0x1_0000_0000_0000_0000_0000
  {
    assert Pow2(4) == 16;
    hide Pow2;
    PowersAdd(4, 4);
    PowersAdd(8, 8);
    PowersAdd(16, 16);
    PowersAdd(32, 16);
    PowersAdd(32, 32);
    PowersAdd(64, 16);
  }

  lemma Packed(t: u64, high: u16, low: u64)
    ensures Pack(t, high, low) == (t % 0x1_0000_0000_0000 * 0x1_0000 + high) * 0x1_0000_0000_0000_0000 + low
    ensures Pack(t, high, low) < 0x1_0000_0000_0000_0000_0000_0000_0000_0000
  {
    PowersOfTwo();
    hide Pow2, BitAnd, BitOr;
    MaskIsModulo(t, TIME_BITS);
    var timebits := BitAnd(t, Pow2(TIME_BITS) - 1);
    OrIsSum(timebits, high, 16);
    OrIsSum(BitOr(Shl(timebits, 16), high), low, 64);
  }

  lemma Layout(ms: i64, high: u16, low: u64)
    ensures FromDatetime(ms, high, low)
         == (TimestampMs(ms) % 0x1_0000_0000_0000 * 0x1_0000 + high) * 0x1_0000_0000_0000_0000 + low
  {
    hide Pack;
    Packed(TimestampMs(ms), high, low);
  }

  /** The part of a time that an identifier holds. */
  function Held(ms: i64): nat { TimestampMs(ms) % 0x1_0000_0000_0000 }

  /** Two identifiers are the same exactly if their random bits agree and their times agree in what an
      identifier holds of them: all of it from the epoch up to 2^48 milliseconds. */
  lemma SameIdentifierIff(ms: i64, high: u16, low: u64, ms': i64, high': u16, low': u64)
    ensures FromDatetime(ms, high, low) == FromDatetime(ms', high', low')
       <==> Held(ms) == Held(ms') && high == high' && low == low'
    ensures 0 <= ms < 0x1_0000_0000_0000 ==> Held(ms) == ms
  {
    hide FromDatetime;
    Layout(ms, high, low);
    Layout(ms', high', low');
  }

  /** Identifiers made at one time are smaller than all those made at another, whatever the random bits,
      exactly if the former holds an earlier time: so a later millisecond gives a larger identifier from
      the epoch on, until the 48 bits wrap. */
  lemma LaterIsLargerIff(ms: i64, ms': i64)
    ensures (forall high: u16, low: u64, high': u16, low': u64 ::
               FromDatetime(ms, high, low) < FromDatetime(ms', high', low'))
       <==> Held(ms) < Held(ms')
    ensures 0 <= ms < 0x1_0000_0000_0000 ==> Held(ms) == ms
  {
    hide FromDatetime;
    if Held(ms) < Held(ms') {
      forall high: u16, low: u64, high': u16, low': u64
        ensures FromDatetime(ms, high, low) < FromDatetime(ms', high', low')
      {
        Layout(ms, high, low);
        Layout(ms', high', low');
      }
    } else {
      Layout(ms, 0, 0);
      Layout(ms', 0, 0);
      assert FromDatetime(ms, 0, 0) >= FromDatetime(ms', 0, 0);
    }
  }

  /** The 48 bits wrap: every identifier made 2^48 milliseconds after the epoch is smaller than every one
      made a millisecond before. */
  lemma WrapExample(high: u16, low: u64, high': u16, low': u64)
    ensures FromDatetime(0x1_0000_0000_0000, high, low) < FromDatetime(0xFFFF_FFFF_FFFF, high', low')
  {
    LaterIsLargerIff(0x1_0000_0000_0000, 0xFFFF_FFFF_FFFF);
  }

  /** The creation time is recovered exactly when it lies between the epoch and 2^48 milliseconds;
      before the epoch it becomes the epoch. */
  lemma DatetimeRoundTripIff(ms: i64, high: u16, low: u64)
    ensures DatetimeUtc(FromDatetime(ms, high, low)) == ms <==> 0 <= ms < 0x1_0000_0000_0000
    ensures ms < 0 ==> DatetimeUtc(FromDatetime(ms, high, low)) == 0
  {
    TimeSurvives(ms, high, low);
  }

  lemma TimeSurvives(ms: i64, high: u16, low: u64)
    ensures TimestampOf(FromDatetime(ms, high, low)) == TimestampMs(ms) % 0x1_0000_0000_0000
  {
    PowersOfTwo();
    hide FromDatetime, Pow2, Shr;
    Layout(ms, high, low);
    ShiftBack(TimestampMs(ms) % 0x1_0000_0000_0000, high * 0x1_0000_0000_0000_0000 + low, 80);
  }
}
