/** The throttled interval of src/common.rs: an inner timer whose ticks are passed on only
    when enough time has gone by.  Times are in nanoseconds. */
module Throttle {
  import opened Common

  /** One poll: whether the inner timer is ready, and the clock reading. */
  datatype Poll = Poll(ready: bool, now: int)

  /** The times at which `polls` are answered with a tick. */
  function Ticks(nextTick: int, minInterval: int, polls: seq<Poll>): seq<int>
    decreases |polls|
  {
    if polls == [] then []
    else if polls[0].ready && nextTick <= polls[0].now then
      [polls[0].now] + Ticks(polls[0].now + minInterval, minInterval, polls[1..])
    else Ticks(nextTick, minInterval, polls[1..])
  }

  /** The times at which the inner timer was ready. */
  function ReadyTimes(polls: seq<Poll>): seq<int> {
    if polls == [] then []
    else (if polls[0].ready then [polls[0].now] else []) + ReadyTimes(polls[1..])
  }

  class ThrottledInterval {
    var nextTick: int
    const minInterval: int

    /** `period` is the inner timer's period. */
    constructor (period: nat, now: int)
      ensures nextTick == now && minInterval == period * 9 / 10
    {
      nextTick := now;
      minInterval := period * 9 / 10;
    }

    /** `inner` is the inner timer's answer. */
    method PollTick(inner: Option<int>, now: int) returns (r: Option<int>)
      modifies this
      ensures r == if inner.Some? && old(nextTick) <= now then inner else None
      ensures nextTick == if r.Some? then now + minInterval else old(nextTick)
    {
      r := None;
      if inner.Some? {
        if nextTick <= now {
          nextTick := now + minInterval;
          r := inner;
        }
      }
    }

    /** A run of polls; returns the times of the ticks. */
    method PollAll(polls: seq<Poll>) returns (ticks: seq<int>)
      modifies this
      ensures ticks == Ticks(old(nextTick), minInterval, polls)
    {
      ticks := [];
      for i := 0 to |polls|
        invariant Ticks(old(nextTick), minInterval, polls) == ticks + Ticks(nextTick, minInterval, polls[i..])
      {
        assert polls[i..][1..] == polls[i + 1..];
        var r := PollTick(if polls[i].ready then Some(polls[i].now) else None, polls[i].now);
        if r.Some? {
          ticks := ticks + [polls[i].now];
        }
      }
    }
  }

  // ----- ticks are apart -----

  /** Each tick comes `gap` or more after the one before, the first not before `from`. */
  ghost predicate Apart(ts: seq<int>, from: int, gap: int) {
    ts == [] || (from <= ts[0] && Apart(ts[1..], ts[0] + gap, gap))
  }

  /** Ticks are at least the minimum interval apart, whatever the clock does. */
  lemma {:induction false} TicksAreApart(nextTick: int, minInterval: int, polls: seq<Poll>)
    ensures Apart(Ticks(nextTick, minInterval, polls), nextTick, minInterval)
    decreases |polls|
  {
    if polls != [] {
      if polls[0].ready && nextTick <= polls[0].now {
        var rest := Ticks(polls[0].now + minInterval, minInterval, polls[1..]);
        TicksAreApart(polls[0].now + minInterval, minInterval, polls[1..]);
        assert ([polls[0].now] + rest)[1..] == rest;
      } else {
        TicksAreApart(nextTick, minInterval, polls[1..]);
      }
    }
  }

  lemma {:induction false} ApartAt(ts: seq<int>, from: int, gap: nat, i: nat)
    requires Apart(ts, from, gap) && i < |ts|
    ensures ts[i] >= from + i * gap
    decreases |ts|
  {
    if i > 0 {
      ApartAt(ts[1..], ts[0] + gap, gap, i - 1);
      assert i * gap == (i - 1) * gap + gap;
    }
  }

  /** Any two ticks of a run: `j - i` intervals or more lie between them. */
  lemma {:induction false} PairwiseApart(ts: seq<int>, from: int, gap: nat, i: nat, j: nat)
    requires Apart(ts, from, gap) && i < j < |ts|
    ensures ts[j] - ts[i] >= (j - i) * gap
    decreases |ts|
  {
    if i == 0 {
      ApartAt(ts[1..], ts[0] + gap, gap, j - 1);
      assert j * gap == (j - 1) * gap + gap;
    } else {
      PairwiseApart(ts[1..], ts[0] + gap, gap, i - 1, j - 1);
    }
  }

  // ----- how many ticks fit into a window -----

  function CountIn(ts: seq<int>, a: int, b: int): nat {
    if ts == [] then 0
    else (if a <= ts[0] <= b then 1 else 0) + CountIn(ts[1..], a, b)
  }

  lemma {:induction false} CountBeyond(ts: seq<int>, from: int, gap: nat, a: int, b: int)
    requires Apart(ts, from, gap) && from > b
    ensures CountIn(ts, a, b) == 0
    decreases |ts|
  {
    if ts != [] {
      CountBeyond(ts[1..], ts[0] + gap, gap, a, b);
    }
  }

  /** `n` points that far apart fit into a stretch of length `length`. */
  ghost predicate Fits(n: nat, gap: nat, length: int) {
    n == 0 || (n - 1) * gap <= length
  }

  lemma OneMoreFits(n: nat, gap: nat, length: int)
    requires Fits(n, gap, length) && length >= 0
    ensures Fits(n + 1, gap, length + gap)
  {
    assert n > 0 ==> n * gap == (n - 1) * gap + gap;
  }

  lemma FitsIsQuotient(n: nat, gap: nat, length: nat)
    requires gap > 0 && Fits(n, gap, length)
    ensures n <= length / gap + 1
  {
    DivisionFact(length, gap);
    ProductOrder(length / gap + 1, n - 1, gap);
  }

  lemma DivisionFact(x: nat, gap: nat)
    requires gap > 0
    ensures x < (x / gap + 1) * gap
  {
    assert (x / gap + 1) * gap == x / gap * gap + gap;
  }

  lemma {:induction false} CountAfter(ts: seq<int>, from: int, gap: nat, a: int, b: int)
    requires Apart(ts, from, gap) && a <= from <= b
    ensures Fits(CountIn(ts, a, b), gap, b - from)
    decreases |ts|
  {
    if ts != [] {
      var next := ts[0] + gap;
      if next <= b {
        CountAfter(ts[1..], next, gap, a, b);
        OneMoreFits(CountIn(ts[1..], a, b), gap, b - next);
      } else {
        CountBeyond(ts[1..], next, gap, a, b);
      }
    }
  }

  lemma {:induction false} WindowFits(ts: seq<int>, from: int, gap: nat, a: int, b: int)
    requires Apart(ts, from, gap) && a <= b
    ensures Fits(CountIn(ts, a, b), gap, b - a)
    decreases |ts|
  {
    if ts != [] {
      if ts[0] < a {
        WindowFits(ts[1..], ts[0] + gap, gap, a, b);
      } else if ts[0] <= b {
        CountAfter(ts, ts[0], gap, a, b);
      } else {
        CountBeyond(ts, ts[0], gap, a, b);
      }
    }
  }

  /** In any stretch of time of length `length` there are at most `length / minInterval + 1`
      ticks. */
  lemma ThrottleBound(nextTick: int, minInterval: nat, polls: seq<Poll>, a: int, length: nat)
    requires minInterval > 0
    ensures CountIn(Ticks(nextTick, minInterval, polls), a, a + length) <= length / minInterval + 1
  {
    TicksAreApart(nextTick, minInterval, polls);
    var ts := Ticks(nextTick, minInterval, polls);
    WindowFits(ts, nextTick, minInterval, a, a + length);
    FitsIsQuotient(CountIn(ts, a, a + length), minInterval, length);
  }

  // ----- no tick is swallowed -----

  lemma {:induction false} TicksAreFewer(nextTick: int, minInterval: int, polls: seq<Poll>)
    ensures |Ticks(nextTick, minInterval, polls)| <= |ReadyTimes(polls)|
    decreases |polls|
  {
    if polls != [] {
      TicksAreFewer(polls[0].now + minInterval, minInterval, polls[1..]);
      TicksAreFewer(nextTick, minInterval, polls[1..]);
    }
  }

  lemma ApartCons(t: int, rest: seq<int>, from: int, gap: int)
    ensures Apart([t] + rest, from, gap) <==> from <= t && Apart(rest, t + gap, gap)
  {
    assert ([t] + rest)[1..] == rest;
  }

  lemma ConsEqual(t: int, a: seq<int>, b: seq<int>)
    ensures [t] + a == [t] + b <==> a == b
  {
    assert ([t] + a)[1..] == a && ([t] + b)[1..] == b;
  }

  lemma ReadyTimesStep(polls: seq<Poll>)
    requires polls != []
    ensures ReadyTimes(polls)
         == if polls[0].ready then [polls[0].now] + ReadyTimes(polls[1..]) else ReadyTimes(polls[1..])
  {
    assert [] + ReadyTimes(polls[1..]) == ReadyTimes(polls[1..]);
  }

  /** A tick that comes too early is lost for good. */
  lemma EarlyTickIsLost(nextTick: int, minInterval: int, polls: seq<Poll>)
    requires polls != [] && polls[0].ready && polls[0].now < nextTick
    ensures Ticks(nextTick, minInterval, polls) != ReadyTimes(polls)
    ensures !Apart(ReadyTimes(polls), nextTick, minInterval)
  {
    ReadyTimesStep(polls);
    TicksAreFewer(nextTick, minInterval, polls[1..]);
  }

  lemma TimelyTickPasses(nextTick: int, minInterval: int, polls: seq<Poll>)
    requires polls != [] && polls[0].ready && nextTick <= polls[0].now
    ensures var t := polls[0].now;
            && (Ticks(nextTick, minInterval, polls) == ReadyTimes(polls)
               <==> Ticks(t + minInterval, minInterval, polls[1..]) == ReadyTimes(polls[1..]))
            && (Apart(ReadyTimes(polls), nextTick, minInterval)
               <==> Apart(ReadyTimes(polls[1..]), t + minInterval, minInterval))
  {
    var t := polls[0].now;
    ReadyTimesStep(polls);
    ConsEqual(t, Ticks(t + minInterval, minInterval, polls[1..]), ReadyTimes(polls[1..]));
    ApartCons(t, ReadyTimes(polls[1..]), nextTick, minInterval);
  }

  /** Every tick of the inner timer is passed on if and only if those ticks are themselves
      at least the minimum interval apart and the first does not come too early. */
  lemma {:induction false} NothingSwallowedIff(nextTick: int, minInterval: int, polls: seq<Poll>)
    ensures Ticks(nextTick, minInterval, polls) == ReadyTimes(polls)
       <==> Apart(ReadyTimes(polls), nextTick, minInterval)
    decreases |polls|
  {
    if polls != [] {
      if !polls[0].ready {
        ReadyTimesStep(polls);
        NothingSwallowedIff(nextTick, minInterval, polls[1..]);
      } else if nextTick <= polls[0].now {
        TimelyTickPasses(nextTick, minInterval, polls);
        NothingSwallowedIff(polls[0].now + minInterval, minInterval, polls[1..]);
      } else {
        EarlyTickIsLost(nextTick, minInterval, polls);
      }
    }
  }
}
