/**
 * `object Schedule`: a second is a ping when a fixed 64-bit mix of the
 * second, read as a signed `Long`, is divisible by `RARITY` (3600).
 * `lastBefore` and `firstAfter` scan one second at a time, down or up,
 * from an instant to the nearest ping.
 *
 * Two pings lie just outside the seconds an `Instant` can hold, one below
 * and one above (`LowPing`, `HighPing`). They bound every scan that starts
 * at an `Instant`, so no scan steps past a `Long` bound; a scan that ends
 * beyond the `Instant` range makes `Instant.ofEpochSecond` throw.
 */
module Schedule {
  import opened KotlinLong
  import opened Time

  /** `RARITY`: on average one second in 3600 is a ping. */
  const Rarity: int := 3600

  /** A shift count that Kotlin uses as written (it keeps only the low six bits of a count). */
  type ShiftCount = k: bv64 | k < 64

  /** One statement of `pseudorandomPredicate`, each rewriting `x` with `Long`'s wrapping arithmetic. */
  datatype MixStep =
    | MulBy(factor: bv64)        // x *= factor
    | Add(addend: bv64)          // x += addend
    | XorUshr(shift: ShiftCount) // x = x xor (x ushr shift)
    | XorShl(shift: ShiftCount)  // x = x xor (x shl shift)

  function Apply(x: bv64, step: MixStep): bv64
  {
    match step
    case MulBy(f) => x * f
    case Add(a) => x + a
    case XorUshr(k) => x ^ (x >> k)
    case XorShl(k) => x ^ (x << k)
  }

  /** The body of `pseudorandomPredicate` up to its `return`, in source order. */
  const Mix: seq<MixStep> :=
    [MulBy(1664525), Add(1013904223), XorUshr(12), XorShl(25),
     XorUshr(27), MulBy(1103515245), Add(12345)]

  /** The bits of `x` after `var x = input` and the first `n` statements of `Mix`. */
  function Run(input: Long, n: nat): bv64
    requires n <= |Mix|
  {
    if n == 0 then ToBits(input) else Apply(Run(input, n - 1), Mix[n - 1])
  }

  /** `pseudorandomPredicate(sec)`: the final `x % RARITY == 0L` is taken on the signed value. */
  predicate IsPing(sec: Long)
  {
    HashTest(sec, 3)
  }

  /**
   * The test `x % RARITY == 0L` on `sec`'s mixed value, reached through
   * `layers` steps that do nothing. The verifier expands a recursive
   * definition only a step or two at a time, so a proof about pings in
   * general does not expand the mix of every second it mentions, while a
   * proof about one literal second still can (`HashTestIgnoresLayers`).
   */
  predicate HashTest(sec: Long, layers: nat)
  {
    if layers == 0 then Rem(ToLong(Run(sec, |Mix|)), Rarity) == 0 else HashTest(sec, layers - 1)
  }

  /** The layers change nothing: the test is the signed remainder test at every depth. */
  lemma {:induction false} HashTestIgnoresLayers(sec: Long, layers: nat)
    ensures HashTest(sec, layers) <==> Rem(ToLong(Run(sec, |Mix|)), Rarity) == 0
  {
    if layers > 0 {
      HashTestIgnoresLayers(sec, layers - 1);
    }
  }

  /** Kotlin's `a % 3600 == 0L` agrees with divisibility, whatever the sign of `a`. */
  lemma RemByRarityZero(a: int)
    ensures Rem(a, Rarity) == 0 <==> a % Rarity == 0
  {
  }

  /** A ping is exactly a second whose mixed value, read as a signed number, is a multiple of 3600. */
  lemma IsPingIffSignedMultiple(sec: Long)
    ensures IsPing(sec) <==> ToLong(Run(sec, |Mix|)) % Rarity == 0
  {
    HashTestIgnoresLayers(sec, 3);
    RemByRarityZero(ToLong(Run(sec, |Mix|)));
  }

  /**
   * If `trace` lists the values `x` takes in `pseudorandomPredicate(input)`,
   * one per statement, then its `n`-th entry is `x` after `n` statements.
   */
  lemma {:induction false} RunFollowsTrace(input: Long, trace: seq<bv64>, n: nat)
    requires |trace| == |Mix| + 1 && trace[0] == ToBits(input) && n <= |Mix|
    requires forall k :: 0 <= k < |Mix| ==> trace[k + 1] == Apply(trace[k], Mix[k])
    ensures Run(input, n) == trace[n]
  {
    if n > 0 {
      RunFollowsTrace(input, trace, n - 1);
    }
  }

  /** A ping shortly after the epoch (1970-01-01T00:13:33Z). */
  const KnownPing: Long := 813

  /** The last ping below `Instant.MIN`'s second. */
  const LowPing: Long := -31557014167225494

  /** The first ping above `Instant.MAX`'s second. */
  const HighPing: Long := 31556889864410955

  lemma KnownPingIsPing()
    ensures IsPing(KnownPing)
  {
    RunFollowsTrace(KnownPing,
      [0x32d, 0x50a91749, 0x8d180aa8, 0x8d10db28,
       0x11a21b6dd10db28, 0x11a21b6fe54edf3, 0xf8826282e79b5a77, 0xf8826282e79b8ab0],
      |Mix|);
  }

  /** Second 814 is not a ping, so the predicate does not hold everywhere. */
  lemma NextSecondIsNoPing()
    ensures !IsPing(814)
  {
    RunFollowsTrace(814,
      [0x32e, 0x50c27d56, 0x8d3170b5, 0x8d39a3a2,
       0x11a7347c939a3a2, 0x11a7347ea77cb5b, 0xf38ac258b8594fbf, 0xf38ac258b8597ff8],
      |Mix|);
  }

  lemma LowPingIsPing()
    ensures IsPing(LowPing)
  {
    RunFollowsTrace(LowPing,
      [0xff8fe3101463fb6a, 0x7b58edb46c9a0062, 0x7b58edb4a908f3c1, 0x7b5f583a7242634e,
       0xfbbdcfcee42634e, 0xfbbdcfd1939fcd3, 0x1f7b717e86eaefd7, 0x1f7b717e86eb2010],
      |Mix|);
  }

  lemma HighPingIsPing()
    ensures IsPing(HighPing)
  {
    RunFollowsTrace(HighPing,
      [0x701cd2fa95974b, 0x81c7ff2a1a3390cf, 0x81c7ff2a56a2842e, 0x81cfe355a407ee06,
       0x2a87ec89a807ee06, 0x2a87ec8cf8fa7f33, 0x4632d7eca9dbb2b7, 0x4632d7eca9dbe2f0],
      |Mix|);
  }

  /** Some ping lies below every second an `Instant` can hold. */
  lemma PingBelowInstants()
    ensures exists p: Long :: p < MinSecond && IsPing(p)
  {
    LowPingIsPing();
  }

  /** Some ping lies above every second an `Instant` can hold. */
  lemma PingAboveInstants()
    ensures exists p: Long :: MaxSecond < p && IsPing(p)
  {
    HighPingIsPing();
  }

  /**
   * Reading the mixed value as unsigned would change the schedule: second
   * 813 is a ping, but its mixed bits as an unsigned number are not a
   * multiple of 3600 (2^64 is not a multiple of 3600).
   */
  lemma SignedReadingMatters()
    ensures IsPing(KnownPing)
    ensures (Run(KnownPing, |Mix|) as int) % Rarity != 0
  {
    RunFollowsTrace(KnownPing,
      [0x32d, 0x50a91749, 0x8d180aa8, 0x8d10db28,
       0x11a21b6dd10db28, 0x11a21b6fe54edf3, 0xf8826282e79b5a77, 0xf8826282e79b8ab0],
      |Mix|);
  }

  /** `r` is the nearest ping strictly before second `t`. */
  ghost predicate PrevPing(t: Long, r: Long)
  {
    IsPing(r) && r < t && forall u: Long :: r < u < t ==> !IsPing(u)
  }

  /** `r` is the nearest ping strictly after second `t`. */
  ghost predicate NextPing(t: Long, r: Long)
  {
    IsPing(r) && t < r && forall u: Long :: t < u < r ==> !IsPing(u)
  }

  /** Above any ping `p`, every second has a nearest ping before it. */
  lemma {:induction false} PrevPingExists(t: Long, p: Long)
    requires IsPing(p) && p < t
    ensures exists r: Long :: PrevPing(t, r)
    decreases t - p
  {
    if IsPing(t - 1) {
      assert PrevPing(t, t - 1);
    } else {
      assert p != t - 1;
      PrevPingExists(t - 1, p);
      var r: Long :| PrevPing(t - 1, r);
      forall u: Long | r < u < t
        ensures !IsPing(u)
      {
        if u == t - 1 {
        } else {
          assert r < u < t - 1;
        }
      }
      assert PrevPing(t, r);
    }
  }

  /** Below any ping `p`, every second has a nearest ping after it. */
  lemma {:induction false} NextPingExists(t: Long, p: Long)
    requires IsPing(p) && t < p
    ensures exists r: Long :: NextPing(t, r)
    decreases p - t
  {
    if IsPing(t + 1) {
      assert NextPing(t, t + 1);
    } else {
      assert p != t + 1;
      NextPingExists(t + 1, p);
      var r: Long :| NextPing(t + 1, r);
      forall u: Long | t < u < r
        ensures !IsPing(u)
      {
        if u == t + 1 {
        } else {
          assert t + 1 < u < r;
        }
      }
      assert NextPing(t, r);
    }
  }

  /** There is only one nearest ping before a second. */
  lemma PrevPingUnique(t: Long, r1: Long, r2: Long)
    requires PrevPing(t, r1) && PrevPing(t, r2)
    ensures r1 == r2
  {
  }

  /** There is only one nearest ping after a second. */
  lemma NextPingUnique(t: Long, r1: Long, r2: Long)
    requires NextPing(t, r1) && NextPing(t, r2)
    ensures r1 == r2
  {
  }

  /** The second that `lastBefore` finds, starting from second `t`. */
  ghost function LastPingBefore(t: Long): (r: Long)
    requires MinSecond <= t
    ensures PrevPing(t, r)
  {
    PingBelowInstants();
    var p: Long :| p < MinSecond && IsPing(p);
    PrevPingExists(t, p);
    var r: Long :| PrevPing(t, r);
    r
  }

  /** The second that `firstAfter` finds, starting from second `t`. */
  ghost function FirstPingAfter(t: Long): (r: Long)
    requires t <= MaxSecond
    ensures NextPing(t, r)
  {
    PingAboveInstants();
    var p: Long :| MaxSecond < p && IsPing(p);
    NextPingExists(t, p);
    var r: Long :| NextPing(t, r);
    r
  }

  /**
   * `Schedule.lastBefore(t)`: the nearest ping strictly before `t`'s second,
   * as a whole second; `DateTimeException` when that second is not an `Instant`.
   */
  method LastBefore(t: Instant) returns (r: Result<Instant>)
    requires t.Valid()
    ensures r == OfEpochSecond(LastPingBefore(t.epochSecond))
  {
    PingBelowInstants();
    ghost var low: Long :| low < MinSecond && IsPing(low);
    var nowSec: Long := t.epochSecond;
    var sec: Long := nowSec - 1;
    while !IsPing(sec)
      invariant low <= sec < nowSec
      invariant forall u: Long :: sec < u < nowSec ==> !IsPing(u)
      decreases sec - low
    {
      assert low != sec;
      forall u: Long | sec - 1 < u < nowSec
        ensures !IsPing(u)
      {
        if u != sec {
          assert sec < u < nowSec;
        }
      }
      sec := sec - 1;
    }
    PrevPingUnique(nowSec, sec, LastPingBefore(nowSec));
    r := OfEpochSecond(sec);
  }

  /**
   * `Schedule.firstAfter(t)`: the nearest ping strictly after `t`'s second,
   * as a whole second; `DateTimeException` when that second is not an `Instant`.
   */
  method FirstAfter(t: Instant) returns (r: Result<Instant>)
    requires t.Valid()
    ensures r == OfEpochSecond(FirstPingAfter(t.epochSecond))
  {
    PingAboveInstants();
    ghost var high: Long :| MaxSecond < high && IsPing(high);
    var nowSec: Long := t.epochSecond;
    var sec: Long := nowSec + 1;
    while !IsPing(sec)
      invariant nowSec < sec <= high
      invariant forall u: Long :: nowSec < u < sec ==> !IsPing(u)
      decreases high - sec
    {
      assert high != sec;
      forall u: Long | nowSec < u < sec + 1
        ensures !IsPing(u)
      {
        if u != sec {
          assert nowSec < u < sec;
        }
      }
      sec := sec + 1;
    }
    NextPingUnique(nowSec, sec, FirstPingAfter(nowSec));
    r := OfEpochSecond(sec);
  }

  /** `lastBefore` throws exactly when no ping lies between `Instant.MIN` and `t`. */
  lemma LastBeforeThrows(t: Long)
    requires MinSecond <= t <= MaxSecond
    ensures OfEpochSecond(LastPingBefore(t)).DateTimeException?
        <==> forall p: Long :: MinSecond <= p < t ==> !IsPing(p)
  {
    var r := LastPingBefore(t);
    if r < MinSecond {
      forall p: Long | MinSecond <= p < t
        ensures !IsPing(p)
      {
        assert r < p < t;
      }
    }
  }

  /** `firstAfter` throws exactly when no ping lies between `t` and `Instant.MAX`. */
  lemma FirstAfterThrows(t: Long)
    requires MinSecond <= t <= MaxSecond
    ensures OfEpochSecond(FirstPingAfter(t)).DateTimeException?
        <==> forall p: Long :: t < p <= MaxSecond ==> !IsPing(p)
  {
    var r := FirstPingAfter(t);
    if MaxSecond < r {
      forall p: Long | t < p <= MaxSecond
        ensures !IsPing(p)
      {
        assert t < p < r;
      }
    }
  }

  /** Previous-then-next returns to the ping one started from: `firstAfter(lastBefore(s)) == s`. */
  lemma FirstAfterLastBefore(s: Long)
    requires IsPing(s) && MinSecond <= s <= MaxSecond
    ensures FirstPingAfter(LastPingBefore(s)) == s
  {
    var r := LastPingBefore(s);
    assert NextPing(r, s);
    NextPingUnique(r, s, FirstPingAfter(r));
  }

  /** Next-then-previous returns to the ping one started from: `lastBefore(firstAfter(s)) == s`. */
  lemma LastBeforeFirstAfter(s: Long)
    requires IsPing(s) && MinSecond <= s <= MaxSecond
    ensures LastPingBefore(FirstPingAfter(s)) == s
  {
    var q := FirstPingAfter(s);
    assert PrevPing(q, s);
    PrevPingUnique(q, s, LastPingBefore(q));
  }

  /** A later start never makes `lastBefore` find an earlier ping. */
  lemma LastBeforeMonotone(t1: Long, t2: Long)
    requires MinSecond <= t1 <= t2
    ensures LastPingBefore(t1) <= LastPingBefore(t2)
  {
    var r1, r2 := LastPingBefore(t1), LastPingBefore(t2);
    if r2 < r1 {
      assert false;
    }
  }

  /** A later start never makes `firstAfter` find an earlier ping. */
  lemma FirstAfterMonotone(t1: Long, t2: Long)
    requires t1 <= t2 <= MaxSecond
    ensures FirstPingAfter(t1) <= FirstPingAfter(t2)
  {
    var r1, r2 := FirstPingAfter(t1), FirstPingAfter(t2);
    if r2 < r1 {
      assert false;
    }
  }
}
