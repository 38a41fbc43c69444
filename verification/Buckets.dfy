/** The kernel's log2 bucket of a duration and the bound userspace prints for it. */
module Buckets {
  import opened Words

  const HIST_SLOTS: nat := 32

  /** The simple form of `log2_slot`: the floor of the base-2 logarithm, with 0 for 0. */
  function Log2(v: nat): nat {
    if v < 2 then 0 else 1 + Log2(v / 2)
  }

  lemma {:induction false} Log2Bounds(v: nat)
    requires v >= 1
    ensures Pow2(Log2(v)) <= v < Pow2(Log2(v) + 1)
  {
    if v >= 2 {
      Log2Bounds(v / 2);
    }
  }

  /** The machine's `v >> n`. */
  function Shr(v: nat, n: nat): nat {
    if n == 0 then v else Shr(v / 2, n - 1)
  }

  lemma {:induction false} ShrLog2(v: nat, n: nat)
    requires Shr(v, n) != 0
    ensures v > 0 && Log2(v) == n + Log2(Shr(v, n))
  {
    if n > 0 {
      ShrLog2(v / 2, n - 1);
    }
  }

  lemma {:induction false} ShrBound(v: nat, n: nat, m: nat)
    requires v < Pow2(n + m)
    ensures Shr(v, n) < Pow2(m)
  {
    if n > 0 {
      ShrBound(v / 2, n - 1, m);
    }
  }

  lemma {:induction false} ShrZero(v: nat, n: nat)
    requires Shr(v, n) == 0
    ensures v < Pow2(n)
  {
    if n > 0 {
      ShrZero(v / 2, n - 1);
    }
  }

  /** One `if (v >> k)` stage: either `v` already fits in `k` bits, or `k` bits are dropped and counted. */
  method HalvingStage(v0: U64, r0: U32, k: nat, limit: nat) returns (v: U64, r: U32)
    requires limit == Pow2(k) && v0 < limit * limit && k < 64 && r0 < 64
    ensures v < limit && (v0 > 0 ==> v > 0 && r + Log2(v) == r0 + Log2(v0))
    ensures r0 <= r <= r0 + k && (v0 == 0 ==> v == 0 && r == r0)
  {
    Pow2Add(k, k);
    ShrBound(v0, k, k);
    Pow2Fits(k);
    if Shr(v0, k) != 0 {
      ShrLog2(v0, k);
      v, r := Shr(v0, k), r0 + k;
    } else {
      ShrZero(v0, k);
      v, r := v0, r0;
    }
  }

  /** The branching halving of the C program, on any 64-bit value. */
  method Log2Slot(value: U64) returns (r: U32)
    ensures value == 0 ==> r == 0
    ensures value > 0 ==> Pow2(r) <= value < Pow2(r + 1)
    ensures r == Log2(value) <= 63
  {
    Pow2Constants();
    var v;
    v, r := HalvingStage(value, 0, 32, 0x1_0000_0000);
    v, r := HalvingStage(v, r, 16, 0x1_0000);
    v, r := HalvingStage(v, r, 8, 0x100);
    v, r := HalvingStage(v, r, 4, 0x10);
    v, r := HalvingStage(v, r, 2, 4);
    v, r := HalvingStage(v, r, 1, 2);
    if value > 0 {
      Log2Bounds(value);
    }
  }

  /** The clamped slot an exit counts its duration in. */
  function Bucket(v: U64): (k: nat)
    ensures k < HIST_SLOTS
  {
    if Log2(v) >= HIST_SLOTS then HIST_SLOTS - 1 else Log2(v)
  }

  /** Where bucket `k` starts. */
  function Lower(k: nat): nat {
    if k == 0 then 0 else Pow2(k)
  }

  /** The first duration above bucket `k`: the last bucket keeps everything the clamp sends to it. */
  function End(k: nat): nat {
    if k >= HIST_SLOTS - 1 then TWO64 else Pow2(k + 1)
  }

  lemma Log2Below(v: nat, k: nat)
    requires k > 0
    ensures Log2(v) < k <==> v < Pow2(k)
  {
    if v > 0 {
      Log2Bounds(v);
      if Log2(v) < k {
        Pow2Monotone(Log2(v) + 1, k);
      } else {
        Pow2Monotone(k, Log2(v));
      }
    }
  }

  /** The 32 buckets partition all of u64: `v` counts in bucket `k` exactly when it lies in `k`'s range. */
  lemma BucketsPartition(v: U64, k: nat)
    requires k < HIST_SLOTS
    ensures Bucket(v) == k <==> Lower(k) <= v < End(k)
  {
    Log2Below(v, k + 1);
    if k > 0 {
      Log2Below(v, k);
    }
  }

  lemma {:induction false} Log2Monotone(v: nat, w: nat)
    requires v <= w
    ensures Log2(v) <= Log2(w)
  {
    if v >= 2 {
      Log2Monotone(v / 2, w / 2);
    }
  }

  lemma BucketMonotone(v: U64, w: U64)
    requires v <= w
    ensures Bucket(v) <= Bucket(w)
  {
    Log2Monotone(v, w);
  }

  function UpperBoundNs(slot: nat): (ns: U64)
    ensures ns > 0 && (slot >= 63 ==> ns == 0xFFFF_FFFF_FFFF_FFFF)
  {
    if slot >= 63 then TWO64 - 1 else Pow2Fits(slot + 1); Pow2(slot + 1)
  }

  lemma UpperBoundMonotone(j: nat, k: nat)
    requires j <= k
    ensures UpperBoundNs(j) <= UpperBoundNs(k)
  {
    if k < 63 {
      Pow2Monotone(j + 1, k + 1);
    }
  }

  /**
   The bound printed for a duration is above it exactly when the duration is under 2^32 ns, and is
   never more than twice it (once it is at least 1 ns). At and above 2^32 ns the clamp makes the
   printed bound too small.
   */
  lemma PrintedBound(v: U64)
    ensures v < UpperBoundNs(Bucket(v)) <==> v < 0x1_0000_0000
    ensures UpperBoundNs(Bucket(v)) <= 2 * (if v == 0 then 1 else v)
  {
    Pow2Constants();
    BucketsPartition(v, Bucket(v));
    var k := Bucket(v);
    Pow2Monotone(k + 1, 32);
    if v > 0 && k == 0 {
      assert UpperBoundNs(0) == 2;
    }
  }

  /** Where the code and its documentation part: the last bucket starts at 2^31, and 2.1 s prints as 2^31 ns. */
  lemma LastBucketStart(v: U64)
    ensures Bucket(v) == HIST_SLOTS - 1 <==> v >= 0x8000_0000
    ensures UpperBoundNs(Bucket(2_100_000_000)) == 0x8000_0000
  {
    Pow2Constants();
    BucketsPartition(v, 31);
    BucketsPartition(2_100_000_000, 30);
  }
}
