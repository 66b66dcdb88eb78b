/**
 * `nearbyPingTimes` in `MainActivity`: the list of recent pings that the main
 * screen shows, newest first. `onCreate` fills it with `lastBefore(now)` and
 * five earlier pings, "load more" appends five earlier pings, and "refresh"
 * puts the pings that have since passed in front.
 *
 * Any call of `Schedule.lastBefore`/`firstAfter` may throw
 * `DateTimeException` (when the ping it finds is not an `Instant`); the
 * methods then stop where the exception leaves the list and say so.
 */
module NearbyPings {
  import opened KotlinLong
  import opened Time
  import opened Schedule

  /** `for (x in 1..5)`: how many earlier pings one load adds. */
  const PageSize: nat := 5

  /** `t` is a whole second that an `Instant` can hold, as `lastBefore` and `firstAfter` return. */
  predicate WholeSecond(t: Instant)
  {
    t.Valid() && t.nano == 0
  }

  /**
   * `times` holds whole seconds, newest first, and each one after the first
   * is `lastBefore` of the one in front of it.
   */
  ghost predicate Consecutive(times: seq<Instant>)
  {
    (forall i :: 0 <= i < |times| ==> WholeSecond(times[i])) &&
    forall i :: 0 < i < |times| ==>
      times[i].epochSecond == LastPingBefore(times[i - 1].epochSecond)
  }

  /** Appending `lastBefore` of the last ping keeps a list consecutive. */
  lemma ConsecutiveAppend(times: seq<Instant>, p: Instant)
    requires Consecutive(times) && |times| > 0
    requires OfEpochSecond(LastPingBefore(times[|times| - 1].epochSecond)) == Ok(p)
    ensures Consecutive(times + [p])
  {
    var ext := times + [p];
    forall i | 0 < i < |ext|
      ensures ext[i].epochSecond == LastPingBefore(ext[i - 1].epochSecond)
    {
      if i < |times| {
        assert ext[i] == times[i] && ext[i - 1] == times[i - 1];
      }
    }
  }

  /** Putting `firstAfter` of the first ping in front keeps a list consecutive. */
  lemma ConsecutivePrepend(times: seq<Instant>, n: Instant)
    requires Consecutive(times) && |times| > 0 && IsPing(times[0].epochSecond)
    requires OfEpochSecond(FirstPingAfter(times[0].epochSecond)) == Ok(n)
    ensures Consecutive([n] + times) && IsPing(n.epochSecond)
  {
    LastBeforeFirstAfter(times[0].epochSecond);
    var ext := [n] + times;
    forall i | 0 < i < |ext|
      ensures ext[i].epochSecond == LastPingBefore(ext[i - 1].epochSecond)
    {
      if i > 1 {
        assert ext[i] == times[i - 1] && ext[i - 1] == times[i - 2];
      }
    }
  }

  /** Putting an instant before `now` in front keeps a suffix, and keeps every new entry before `now`. */
  lemma SuffixAfterPrepend(times: seq<Instant>, start: seq<Instant>, n: Instant, now: Instant)
    requires |start| <= |times| && times[|times| - |start|..] == start
    requires forall i :: 0 <= i < |times| - |start| ==> times[i].IsBefore(now)
    requires n.IsBefore(now)
    ensures var ext := [n] + times;
      |start| <= |ext| && ext[|ext| - |start|..] == start &&
      forall i :: 0 <= i < |ext| - |start| ==> ext[i].IsBefore(now)
  {
    var ext := [n] + times;
    assert ext[|ext| - |start|..] == times[|times| - |start|..];
    forall i | 0 <= i < |ext| - |start|
      ensures ext[i].IsBefore(now)
    {
      if i > 0 {
        assert ext[i] == times[i - 1];
      }
    }
  }

  /**
   * The seconds that `lastBefore` returns when applied `n` times, each time
   * to the result of the time before, starting from second `t`; the list
   * stops early at the first result that is not an `Instant`.
   */
  ghost function PingsBack(t: Long, n: nat): (r: seq<Long>)
    requires MinSecond <= t
    ensures |r| <= n
    ensures forall i :: 0 <= i < |r| ==> MinSecond <= r[i] < t && IsPing(r[i])
    decreases n
  {
    if n == 0 || LastPingBefore(t) < MinSecond then []
    else [LastPingBefore(t)] + PingsBack(LastPingBefore(t), n - 1)
  }

  /**
   * The entries after the head of a consecutive list are the first seconds
   * of `PingsBack` from its head; when `lastBefore` of the last entry
   * throws, `PingsBack` stops there.
   */
  lemma {:induction false} ConsecutivePingsBack(times: seq<Instant>, n: nat)
    requires Consecutive(times) && |times| > 0 && |times| - 1 <= n
    ensures var back := PingsBack(times[0].epochSecond, n);
      |times| - 1 <= |back| && forall i :: 0 < i < |times| ==> back[i - 1] == times[i].epochSecond
    ensures OfEpochSecond(LastPingBefore(times[|times| - 1].epochSecond)).DateTimeException? ==>
      |PingsBack(times[0].epochSecond, n)| == |times| - 1
    decreases |times|
  {
    var t := times[0].epochSecond;
    if |times| > 1 {
      var tail := times[1..];
      assert Consecutive(tail) by {
        forall i | 0 < i < |tail|
          ensures tail[i].epochSecond == LastPingBefore(tail[i - 1].epochSecond)
        {
          assert tail[i] == times[i + 1] && tail[i - 1] == times[i];
        }
      }
      ConsecutivePingsBack(tail, n - 1);
      assert LastPingBefore(t) == tail[0].epochSecond;
      var back := PingsBack(t, n);
      assert back == [tail[0].epochSecond] + PingsBack(tail[0].epochSecond, n - 1);
      assert times[|times| - 1] == tail[|tail| - 1];
      forall i | 0 < i < |times|
        ensures back[i - 1] == times[i].epochSecond
      {
        if i > 1 {
          assert times[i] == tail[i - 1];
        }
      }
    }
  }

  /** The list shown on the main screen. */
  class PingList {
    var times: seq<Instant>

    ghost predicate Valid()
      reads this
    {
      |times| > 0 && Consecutive(times) && IsPing(times[0].epochSecond)
    }

    /** `mutableListOf(first)`. */
    constructor (first: Instant)
      requires WholeSecond(first) && IsPing(first.epochSecond)
      ensures Valid() && times == [first]
    {
      times := [first];
    }

    /**
     * `nearbyPingTimes.add(Schedule.lastBefore(nearbyPingTimes.last()))`.
     * `ok` is false when `lastBefore` threw; the list is then unchanged.
     */
    method AddEarlier() returns (ok: bool)
      requires Valid()
      modifies this
      ensures Valid()
      ensures ok ==> |times| == |old(times)| + 1 && times[..|old(times)|] == old(times)
      ensures ok <==> OfEpochSecond(LastPingBefore(old(times)[|old(times)| - 1].epochSecond)).Ok?
      ensures !ok ==> times == old(times)
    {
      var prev := LastBefore(times[|times| - 1]);
      match prev
      case Ok(p) =>
        ConsecutiveAppend(times, p);
        assert (times + [p])[..|times|] == times;
        times := times + [p];
        ok := true;
      case DateTimeException =>
        ok := false;
    }

    /**
     * "Load more" (and the loop in `onCreate`): add an earlier ping five
     * times. `ok` is false when a call threw; then fewer were appended, and
     * the next earlier ping is not an `Instant`.
     */
    method LoadEarlier() returns (ok: bool)
      requires Valid()
      modifies this
      ensures Valid()
      ensures |old(times)| <= |times| && times[..|old(times)|] == old(times)
      ensures ok <==> |times| == |old(times)| + PageSize
      ensures !ok ==> (|times| < |old(times)| + PageSize &&
        OfEpochSecond(LastPingBefore(times[|times| - 1].epochSecond)).DateTimeException?)
    {
      var added := 0;
      ok := true;
      while added < PageSize && ok
        invariant Valid()
        invariant added <= PageSize
        invariant |times| == |old(times)| + added && times[..|old(times)|] == old(times)
        invariant !ok ==> (added < PageSize &&
          OfEpochSecond(LastPingBefore(times[|times| - 1].epochSecond)).DateTimeException?)
        decreases PageSize - added, ok
      {
        ghost var before := times;
        ok := AddEarlier();
        if ok {
          added := added + 1;
          assert times[..|old(times)|] == before[..|old(times)|];
        }
      }
    }

    /**
     * "Refresh": put `firstAfter` of the newest ping in front for as long as
     * it is before `now`. `now` is read once (the app reads the clock on
     * every test). `ok` is false when `firstAfter` threw.
     */
    method Refresh(now: Instant) returns (ok: bool)
      requires Valid() && now.Valid()
      modifies this
      ensures Valid()
      ensures |old(times)| <= |times| && times[|times| - |old(times)|..] == old(times)
      ensures forall i :: 0 <= i < |times| - |old(times)| ==> times[i].IsBefore(now)
      ensures ok <==> OfEpochSecond(FirstPingAfter(times[0].epochSecond)).Ok?
      ensures ok ==> !OfEpochSecond(FirstPingAfter(times[0].epochSecond)).value.IsBefore(now)
    {
      var next := FirstAfter(times[0]);
      while next.Ok? && next.value.IsBefore(now)
        invariant Valid()
        invariant |old(times)| <= |times| && times[|times| - |old(times)|..] == old(times)
        invariant forall i :: 0 <= i < |times| - |old(times)| ==> times[i].IsBefore(now)
        invariant next == OfEpochSecond(FirstPingAfter(times[0].epochSecond))
        decreases now.epochSecond - times[0].epochSecond
      {
        ConsecutivePrepend(times, next.value);
        SuffixAfterPrepend(times, old(times), next.value, now);
        times := [next.value] + times;
        next := FirstAfter(times[0]);
      }
      ok := next.Ok?;
    }
  }

  /**
   * `onCreate`: the list starts with `lastBefore(now)` and gets five
   * earlier pings. It is `DateTimeException` exactly when one of those six
   * calls throws, that is when `PingsBack` stops short of six seconds.
   */
  method OnCreate(now: Instant) returns (r: Result<PingList>)
    requires now.Valid()
    ensures r.Ok? <==> |PingsBack(now.epochSecond, 1 + PageSize)| == 1 + PageSize
    ensures r.Ok? ==> fresh(r.value) && r.value.Valid() && |r.value.times| == 1 + PageSize
    ensures r.Ok? ==> forall i :: 0 <= i < 1 + PageSize ==>
      r.value.times[i].epochSecond == PingsBack(now.epochSecond, 1 + PageSize)[i]
  {
    var first := LastBefore(now);
    if first.DateTimeException? {
      return DateTimeException;
    }
    var list := new PingList(first.value);
    var ok := list.LoadEarlier();
    ConsecutivePingsBack(list.times, PageSize);
    ghost var back := PingsBack(now.epochSecond, 1 + PageSize);
    assert back == [first.value.epochSecond] + PingsBack(first.value.epochSecond, PageSize);
    if !ok {
      return DateTimeException;
    }
    forall i | 0 <= i < 1 + PageSize
      ensures list.times[i].epochSecond == back[i]
    {
    }
    return Ok(list);
  }

  /** Each ping in a consecutive list is earlier than the one in front of it. */
  lemma {:induction false} ConsecutiveDescending(times: seq<Instant>, i: int, j: int)
    requires Consecutive(times) && 0 <= i < j < |times|
    ensures times[j].epochSecond < times[i].epochSecond
    decreases j - i
  {
    if j > i + 1 {
      ConsecutiveDescending(times, i, j - 1);
    }
  }

  /** Every entry of a list that starts at a ping is a ping. */
  lemma ConsecutiveAllPings(times: seq<Instant>)
    requires Consecutive(times) && |times| > 0 && IsPing(times[0].epochSecond)
    ensures forall i :: 0 <= i < |times| ==> IsPing(times[i].epochSecond)
  {
    forall i | 0 < i < |times|
      ensures IsPing(times[i].epochSecond)
    {
      assert PrevPing(times[i - 1].epochSecond, times[i].epochSecond);
    }
  }

  /** A consecutive list skips no ping between its oldest and newest entries. */
  lemma {:induction false} ConsecutiveSkipsNone(times: seq<Instant>, u: Long)
    requires Consecutive(times) && |times| > 0
    requires IsPing(u) && times[|times| - 1].epochSecond <= u <= times[0].epochSecond
    ensures exists i :: 0 <= i < |times| && times[i].epochSecond == u
    decreases |times|
  {
    var n := |times|;
    if n == 1 {
      assert times[0].epochSecond == u;
    } else if times[n - 2].epochSecond <= u {
      ConsecutiveSkipsNone(times[..n - 1], u);
      var i :| 0 <= i < n - 1 && times[..n - 1][i].epochSecond == u;
      assert times[i].epochSecond == u;
    } else {
      assert PrevPing(times[n - 2].epochSecond, times[n - 1].epochSecond);
      assert times[n - 1].epochSecond == u;
    }
  }
}
