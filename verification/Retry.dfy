/** The write-retry loop and its jittered backoff. */
module Retry {

  const MAX_ATTEMPTS: nat := 32

  // ---- Backoff ------------------------------------------------------------------------

  /** `1 << attempt.min(8)`. */
  function ExpMs(attempt: nat): (ms: nat)
    ensures 1 <= ms <= 256
  {
    if attempt == 0 then 1 else if 8 <= attempt then 256 else Doubled(attempt)
  }

  function Doubled(attempt: nat): (ms: nat)
    requires attempt <= 8
    ensures 1 <= ms && (attempt <= 8 ==> ms <= 256)
  {
    match attempt
    case 0 => 1
    case 1 => 2
    case 2 => 4
    case 3 => 8
    case 4 => 16
    case 5 => 32
    case 6 => 64
    case 7 => 128
    case _ => 256
  }

  function Offset(attempt: bv32): bv64 { (attempt as bv64) * 0x9E37_79B9_7F4A_7C15 }
  function Seed(pid: bv32, offset: bv64): bv64 { (pid as bv64) + offset }
  function XorShift30(z: bv64): bv64 { z ^ (z >> 30) }
  function XorShift27(z: bv64): bv64 { z ^ (z >> 27) }
  function XorShift31(z: bv64): bv64 { z ^ (z >> 31) }
  function FirstProduct(z: bv64): bv64 { z * 0xBF58_476D_1CE4_E5B9 }
  function SecondProduct(z: bv64): bv64 { z * 0x94D0_49BB_1331_11EB }

  /** The SplitMix64 finalizer over the process id and the attempt, in wrapping 64-bit arithmetic. */
  function Mix(pid: bv32, attempt: bv32): bv64
  {
    XorShift31(SecondProduct(XorShift27(FirstProduct(XorShift30(Seed(pid, Offset(attempt)))))))
  }

  /** Milliseconds slept after a failed attempt: the exponential term plus jitter under an odd modulus. */
  function Delay(word: nat, attempt: nat): nat
  {
    ExpMs(attempt) + word % (2 * ExpMs(attempt) + 1)
  }

  // The inverse of each mixing step.
  function UnShift30(z: bv64): bv64 { z ^ (z >> 30) ^ (z >> 60) }
  function UnShift27(z: bv64): bv64 { z ^ (z >> 27) ^ (z >> 54) }
  function UnShift31(z: bv64): bv64 { z ^ (z >> 31) ^ (z >> 62) }
  function FirstQuotient(z: bv64): bv64 { z * 0x96DE_1B17_3F11_9089 }
  function SecondQuotient(z: bv64): bv64 { z * 0x3196_42B2_D24D_8EC3 }

  /** Each inverse on the step written out; the multipliers are odd, so they have inverses modulo 2^64. */
  lemma InversesInvert(x: bv64)
    ensures UnShift30(x ^ (x >> 30)) == x && UnShift27(x ^ (x >> 27)) == x && UnShift31(x ^ (x >> 31)) == x
    ensures FirstQuotient(x * 0xBF58_476D_1CE4_E5B9) == x && SecondQuotient(x * 0x94D0_49BB_1331_11EB) == x
  {
  }

  lemma StepsAreInvertible(x: bv64)
    ensures UnShift30(XorShift30(x)) == x && UnShift27(XorShift27(x)) == x && UnShift31(XorShift31(x)) == x
    ensures FirstQuotient(FirstProduct(x)) == x && SecondQuotient(SecondProduct(x)) == x
  {
    hide UnShift30, UnShift27, UnShift31, FirstQuotient, SecondQuotient;
    InversesInvert(x);
  }

  function AttemptOf(offset: bv64): bv32 { ((offset * 0xF1DE_83E1_9937_733D) & 0xFFFF_FFFF) as bv32 }

  lemma AttemptOfProduct(attempt: bv32)
    ensures AttemptOf((attempt as bv64) * 0x9E37_79B9_7F4A_7C15) == attempt
  {
  }

  /** The odd multiplier keeps attempts apart. */
  lemma OffsetIsInvertible(attempt: bv32)
    ensures AttemptOf(Offset(attempt)) == attempt
  {
    hide AttemptOf;
    AttemptOfProduct(attempt);
  }

  function PidOf(seed: bv64, offset: bv64): bv32 { ((seed - offset) & 0xFFFF_FFFF) as bv32 }

  lemma PidOfSum(pid: bv32, offset: bv64)
    ensures PidOf((pid as bv64) + offset, offset) == pid
  {
  }

  lemma SeedIsInvertible(pid: bv32, offset: bv64)
    ensures PidOf(Seed(pid, offset), offset) == pid
  {
    hide PidOf;
    PidOfSum(pid, offset);
  }

  /** The mixing loses nothing: two words are the same only for the same seed. */
  lemma MixDeterminesTheSeed(p: bv32, q: bv32, m: bv32, n: bv32)
    requires Mix(p, m) == Mix(q, n)
    ensures Seed(p, Offset(m)) == Seed(q, Offset(n))
  {
    hide XorShift30, XorShift27, XorShift31, FirstProduct, SecondProduct, Seed, Offset;
    hide UnShift30, UnShift27, UnShift31, FirstQuotient, SecondQuotient;
    var s, t := Seed(p, Offset(m)), Seed(q, Offset(n));
    var a, b := XorShift30(s), XorShift30(t);
    var c, d := XorShift27(FirstProduct(a)), XorShift27(FirstProduct(b));
    StepsAreInvertible(SecondProduct(c));
    StepsAreInvertible(SecondProduct(d));
    StepsAreInvertible(c);
    StepsAreInvertible(d);
    StepsAreInvertible(FirstProduct(a));
    StepsAreInvertible(FirstProduct(b));
    StepsAreInvertible(a);
    StepsAreInvertible(b);
    StepsAreInvertible(s);
    StepsAreInvertible(t);
  }

  function OffsetOf(seed: bv64, pid: bv32): bv64 { seed - (pid as bv64) }

  lemma OffsetOfSum(pid: bv32, offset: bv64)
    ensures OffsetOf((pid as bv64) + offset, pid) == offset
  {
  }

  lemma SeedKeepsTheOffset(pid: bv32, offset: bv64)
    ensures OffsetOf(Seed(pid, offset), pid) == offset
  {
    hide OffsetOf;
    OffsetOfSum(pid, offset);
  }

  /** Distinct processes never mix to the same word on the same attempt, nor does one process on distinct attempts. */
  lemma MixIsInjective(p: bv32, q: bv32, m: bv32, n: bv32)
    requires Mix(p, m) == Mix(q, n)
    ensures p == q <==> m == n
  {
    hide Mix, Seed, Offset, PidOf, OffsetOf, AttemptOf;
    MixDeterminesTheSeed(p, q, m, n);
    if m == n {
      SeedIsInvertible(p, Offset(m));
      SeedIsInvertible(q, Offset(m));
    }
    if p == q {
      SeedKeepsTheOffset(p, Offset(m));
      SeedKeepsTheOffset(q, Offset(n));
      OffsetIsInvertible(m);
      OffsetIsInvertible(n);
    }
  }

  // ---- The loop -----------------------------------------------------------------------

  /** What an attempt comes to: no lease, a conflict from the operation, or anything else. */
  datatype Attempt<+T> = NoLease(message: string) | Conflict(message: string) | Settled(outcome: T)

  datatype Retried<+T> = Returned(outcome: T) | Exhausted(last: string)

  function Sum(delays: seq<nat>): nat
  {
    if delays == [] then 0 else Sum(delays[..|delays| - 1]) + delays[|delays| - 1]
  }

  /** The word that the process mixes for this attempt. */
  function Word(pid: bv32, attempt: nat): nat
    requires attempt < MAX_ATTEMPTS
  {
    Mix(pid, attempt as bv32) as nat
  }

  /** `back_off`: how long the process sleeps after a given failed attempt. */
  function BackOff(pid: bv32, attempt: nat): nat
    requires attempt < MAX_ATTEMPTS
  {
    Delay(Word(pid, attempt), attempt)
  }

  function Delays(pid: bv32, n: nat): (delays: seq<nat>)
    requires n <= MAX_ATTEMPTS
    ensures |delays| == n
  {
    if n == 0 then [] else Delays(pid, n - 1) + [BackOff(pid, n - 1)]
  }

  /** The longest the first `n` delays can be together. */
  function Budget(n: nat): nat
  {
    if n == 0 then 0 else Budget(n - 1) + 3 * ExpMs(n - 1)
  }

  lemma {:induction false} BudgetFromEight(n: nat)
    requires 8 <= n
    ensures Budget(n) == 765 + 768 * (n - 8)
  {
    if n == 8 {
      assert Budget(4) == 45;
      assert Budget(8) == 765;
    } else {
      BudgetFromEight(n - 1);
    }
  }

  lemma {:induction false} BudgetGrows(m: nat, n: nat)
    requires m <= n
    ensures Budget(m) <= Budget(n)
  {
    hide ExpMs;
    if m < n { BudgetGrows(m, n - 1); }
  }

  lemma BudgetIsBounded(n: nat)
    requires n <= MAX_ATTEMPTS
    ensures Budget(n) <= 19197
  {
    BudgetFromEight(if 8 <= n then n else 8);
    if n < 8 { BudgetGrows(n, 8); }
  }

  /** `jitter` is what `word` leaves over the odd number just above twice the exponential term. */
  predicate IsJitter(jitter: int, word: nat, attempt: nat)
  {
    0 <= jitter <= 2 * ExpMs(attempt) && (word - jitter) % (2 * ExpMs(attempt) + 1) == 0
  }

  lemma DelayIsBounded(word: nat, attempt: nat)
    ensures ExpMs(attempt) <= Delay(word, attempt) <= 3 * ExpMs(attempt)
    ensures IsJitter(Delay(word, attempt) - ExpMs(attempt), word, attempt)
  {
    hide ExpMs;
    LessTheRest(word, 2 * ExpMs(attempt) + 1);
  }

  lemma LessTheRest(w: nat, m: nat)
    requires 0 < m
    ensures (w - w % m) % m == 0
  {
    RestIsUnique(w - w % m, m, w / m, 0);
  }

  /** The exponential term doubles with each failed attempt from one millisecond on, and stays at 256 from the ninth on. */
  lemma ExponentialTermDoubles(attempt: nat)
    ensures ExpMs(0) == 1
    ensures ExpMs(attempt + 1) == if attempt < 8 then 2 * ExpMs(attempt) else 256
  {
  }

  lemma RestIsUnique(w: nat, m: nat, q: int, r: nat)
    requires 0 < m && w == q * m + r && r < m
    ensures w % m == r
  {
    var d := w / m - q;
    assert d * m == r - w % m;
  }

  lemma BackOffIsBounded(pid: bv32, attempt: nat)
    requires attempt < MAX_ATTEMPTS
    ensures ExpMs(attempt) <= BackOff(pid, attempt) <= 3 * ExpMs(attempt)
    ensures IsJitter(BackOff(pid, attempt) - ExpMs(attempt), Word(pid, attempt), attempt)
  {
    hide Word, Delay, IsJitter;
    DelayIsBounded(Word(pid, attempt), attempt);
  }

  lemma DelaysStep(pid: bv32, n: nat)
    requires n < MAX_ATTEMPTS
    ensures Delays(pid, n + 1) == Delays(pid, n) + [BackOff(pid, n)]
    ensures Sum(Delays(pid, n + 1)) == Sum(Delays(pid, n)) + BackOff(pid, n)
  {
    hide BackOff;
    assert (Delays(pid, n) + [BackOff(pid, n)])[..n] == Delays(pid, n);
  }

  lemma BudgetStep(n: nat)
    ensures Budget(n + 1) == Budget(n) + 3 * ExpMs(n)
  {
    hide ExpMs;
  }

  /** The sleep after attempt `i` is its exponential term and the jitter that its own word leaves, so at most three times that term. */
  lemma {:induction false} DelayOfEachAttempt(pid: bv32, n: nat, i: nat)
    requires i < n <= MAX_ATTEMPTS
    ensures Delays(pid, n)[i] == BackOff(pid, i) && ExpMs(i) <= Delays(pid, n)[i] <= 3 * ExpMs(i)
    ensures IsJitter(Delays(pid, n)[i] - ExpMs(i), Word(pid, i), i)
    decreases n
  {
    hide BackOff, ExpMs, Delays, IsJitter, Word;
    DelaysStep(pid, n - 1);
    if i == n - 1 { BackOffIsBounded(pid, i); } else { DelayOfEachAttempt(pid, n - 1, i); }
  }

  /** However many attempts fail, the process sleeps at most 19197 ms in all. */
  lemma {:induction false} DelaysAreBounded(pid: bv32, n: nat)
    requires n <= MAX_ATTEMPTS
    ensures Sum(Delays(pid, n)) <= Budget(n) <= 19197
  {
    hide BackOff, ExpMs, Delays, Budget, Sum;
    BudgetIsBounded(n);
    if n == 0 {
      NoDelays(pid);
    } else {
      DelaysAreBounded(pid, n - 1);
      BackOffIsBounded(pid, n - 1);
      DelaysStep(pid, n - 1);
      BudgetStep(n - 1);
    }
  }

  lemma NoDelays(pid: bv32)
    ensures Sum(Delays(pid, 0)) == 0
  {
    hide BackOff;
  }

  /** The first attempt that settles decides the result, within 32 attempts; each failed one is followed by one sleep. */
  method WithWriteRetry<T>(attempts: nat -> Attempt<T>, pid: bv32) returns (result: Retried<T>, delays: seq<nat>)
    ensures |delays| <= MAX_ATTEMPTS && delays == Delays(pid, |delays|) && Sum(delays) <= 19197
    ensures forall i :: 0 <= i < |delays| ==> !attempts(i).Settled?
    ensures result.Returned? ==> |delays| < MAX_ATTEMPTS && attempts(|delays|) == Settled(result.outcome)
    ensures result.Exhausted? ==> |delays| == MAX_ATTEMPTS && result.last == attempts(MAX_ATTEMPTS - 1).message
  {
    hide BackOff, Sum;
    var last := "";
    delays := [];
    for attempt := 0 to MAX_ATTEMPTS
      invariant delays == Delays(pid, attempt)
      invariant forall i :: 0 <= i < attempt ==> !attempts(i).Settled?
      invariant 0 < attempt ==> last == attempts(attempt - 1).message
    {
      var outcome := attempts(attempt);
      if outcome.Settled? {
        DelaysAreBounded(pid, attempt);
        return Returned(outcome.outcome), delays;
      }
      last := outcome.message;
      delays := delays + [BackOff(pid, attempt)];
    }
    DelaysAreBounded(pid, MAX_ATTEMPTS);
    return Exhausted(last), delays;
  }
}
