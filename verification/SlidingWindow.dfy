/**
 The per-address limiter of the mail endpoints: a log of accepted times that is pruned as
 it is used, and never written by a refused request.
 */
module SlidingWindow {

  /** A limit of 0 or less switches the limiter off. */
  datatype Limits = Limits(limit: int, win: int)

  datatype Request = Request(ip: string, now: int)

  /** The times after a cutoff, in order. */
  function Recent(times: seq<int>, cutoff: int): seq<int> {
    if times == [] then []
    else
      var n := |times| - 1;
      if times[n] > cutoff then Recent(times[..n], cutoff) + [times[n]] else Recent(times[..n], cutoff)
  }

  function Log(hits: map<string, seq<int>>, ip: string): seq<int> {
    if ip in hits then hits[ip] else []
  }

  predicate Admits(l: Limits, log: seq<int>, now: int) {
    l.limit <= 0 || |Recent(log, now - l.win)| < l.limit
  }

  function NextLog(l: Limits, log: seq<int>, now: int): seq<int> {
    if l.limit > 0 && Admits(l, log, now) then Recent(log, now - l.win) + [now] else log
  }

  predicate Allows(l: Limits, hits: map<string, seq<int>>, q: Request) {
    Admits(l, Log(hits, q.ip), q.now)
  }

  function After(l: Limits, hits: map<string, seq<int>>, q: Request): map<string, seq<int>> {
    if l.limit > 0 && Allows(l, hits, q) then hits[q.ip := NextLog(l, Log(hits, q.ip), q.now)] else hits
  }

  class Limiter {
    var hits: map<string, seq<int>>
    const limits: Limits

    constructor (limits: Limits)
      ensures hits == map[] && this.limits == limits
    {
      hits := map[];
      this.limits := limits;
    }

    method Allow(ip: string, now: int) returns (ok: bool)
      modifies this
      ensures ok == Allows(limits, old(hits), Request(ip, now))
      ensures hits == After(limits, old(hits), Request(ip, now))
      ensures limits.limit <= 0 ==> ok && hits == old(hits)
      ensures hits - {ip} == old(hits) - {ip} && (!ok ==> hits == old(hits))
    {
      if limits.limit <= 0 { return true; }
      var list := if ip in hits then hits[ip] else [];
      var cutoff := now - limits.win;
      var kept: seq<int> := [];
      for i := 0 to |list|
        invariant kept == Recent(list[..i], cutoff)
      {
        assert list[..i + 1][..i] == list[..i];
        if list[i] > cutoff { kept := kept + [list[i]]; }
      }
      assert list[..|list|] == list;
      if |kept| >= limits.limit { return false; }
      hits := hits[ip := kept + [now]];
      ok := true;
    }
  }

  // ---------------------------------------------------------------- one address

  /** The pruned log after requests at these times. */
  function LogOf(l: Limits, times: seq<int>): seq<int> {
    if times == [] then [] else NextLog(l, LogOf(l, times[..|times| - 1]), times[|times| - 1])
  }

  /** Every time at which the address was let through: the full history, never pruned. */
  function AcceptedOf(l: Limits, times: seq<int>): seq<int> {
    if times == [] then []
    else
      var before, now := times[..|times| - 1], times[|times| - 1];
      if Admits(l, LogOf(l, before), now) then AcceptedOf(l, before) + [now] else AcceptedOf(l, before)
  }

  /** The clock does not go back, and now is not before the last of these times. */
  ghost predicate Ordered(times: seq<int>, now: int) {
    times == [] || (times[|times| - 1] <= now && Ordered(times[..|times| - 1], times[|times| - 1]))
  }

  /** How many times lie in [from, to). */
  function Count(times: seq<int>, from: int, to: int): nat {
    if times == [] then 0
    else
      var n := |times| - 1;
      Count(times[..n], from, to) + (if from <= times[n] < to then 1 else 0)
  }

  lemma {:induction false} RecentTwice(times: seq<int>, c: int, d: int)
    requires c <= d
    ensures Recent(Recent(times, c), d) == Recent(times, d)
  {
    if times != [] {
      var n := |times| - 1;
      RecentTwice(times[..n], c, d);
      if times[n] > c { RecentLast(Recent(times[..n], c), times[n], d); }
    }
  }

  lemma RecentLast(times: seq<int>, t: int, c: int)
    ensures Recent(times + [t], c) == if t > c then Recent(times, c) + [t] else Recent(times, c)
  {
    assert (times + [t])[..|times|] == times;
  }

  /** One request, for a log that shows as much as the history from a cutoff on. */
  lemma SameFromCutoff(l: Limits, log: seq<int>, acc: seq<int>, t: int, c: int)
    requires t - l.win <= c && Recent(log, c) == Recent(acc, c) && l.limit > 0
    ensures Recent(NextLog(l, log, t), c) == Recent(if Admits(l, log, t) then acc + [t] else acc, c)
  {
    if Admits(l, log, t) {
      var kept := Recent(log, t - l.win);
      assert NextLog(l, log, t) == kept + [t];
      RecentTwice(log, t - l.win, c);
      RecentLast(kept, t, c);
      RecentLast(acc, t, c);
    }
  }

  /** What the log lacks of the history is out of every later window. */
  lemma {:induction false} LogKeepsWhatMatters(l: Limits, times: seq<int>, now: int)
    requires Ordered(times, now) && l.limit > 0
    ensures Recent(LogOf(l, times), now - l.win) == Recent(AcceptedOf(l, times), now - l.win)
  {
    if times != [] {
      var before, t := times[..|times| - 1], times[|times| - 1];
      OrderedLater(before, t, now);
      LogKeepsWhatMatters(l, before, now);
      SameFromCutoff(l, LogOf(l, before), AcceptedOf(l, before), t, now - l.win);
    }
  }

  lemma OrderedLater(times: seq<int>, t: int, now: int)
    requires Ordered(times, t) && t <= now
    ensures Ordered(times, now)
  {
  }

  lemma {:induction false} AcceptedOrdered(l: Limits, times: seq<int>, now: int)
    requires Ordered(times, now)
    ensures Ordered(AcceptedOf(l, times), now)
  {
    if times != [] {
      var before, t := times[..|times| - 1], times[|times| - 1];
      AcceptedOrdered(l, before, t);
      var acc := AcceptedOf(l, before);
      assert (acc + [t])[..|acc|] == acc;
    }
  }

  lemma {:induction false} OrderedAt(times: seq<int>, now: int, i: nat)
    requires Ordered(times, now) && i < |times|
    ensures times[i] <= now
  {
    if i < |times| - 1 { OrderedAt(times[..|times| - 1], times[|times| - 1], i); }
  }

  lemma {:induction false} RecentIsCount(times: seq<int>, c: int, now: int)
    requires Ordered(times, now)
    ensures |Recent(times, c)| == Count(times, c + 1, now + 1)
  {
    if times != [] {
      var before, t := times[..|times| - 1], times[|times| - 1];
      OrderedLater(before, t, now);
      RecentIsCount(before, c, now);
    }
  }

  lemma AdmitsByCount(l: Limits, log: seq<int>, acc: seq<int>, now: int)
    requires Recent(log, now - l.win) == Recent(acc, now - l.win) && Ordered(acc, now) && l.limit > 0
    ensures Admits(l, log, now) <==> Count(acc, now - l.win + 1, now + 1) < l.limit
  {
    RecentIsCount(acc, now - l.win, now);
  }

  /** The pruned log decides as the full history does: fewer than limit accepted in (now - win, now]. */
  lemma LogDecidesAsHistory(l: Limits, times: seq<int>, now: int)
    requires Ordered(times, now) && l.limit > 0
    ensures Admits(l, LogOf(l, times), now) <==> Count(AcceptedOf(l, times), now - l.win + 1, now + 1) < l.limit
  {
    LogKeepsWhatMatters(l, times, now);
    AcceptedOrdered(l, times, now);
    AdmitsByCount(l, LogOf(l, times), AcceptedOf(l, times), now);
  }

  // ---------------------------------------------------------------- counting in windows

  /** Acceptances that are limit apart in the history are win apart in time. */
  ghost predicate Spread(l: Limits, acc: seq<int>)
    requires l.limit > 0
  {
    forall i :: 0 <= i < |acc| - l.limit ==> acc[i] + l.win <= acc[i + l.limit]
  }

  lemma {:induction false} CountAll(times: seq<int>, now: int, from: int, k: nat)
    requires Ordered(times, now) && k < |times| && from <= times[k]
    ensures Count(times, from, now + 1) >= |times| - k
  {
    var before, t := times[..|times| - 1], times[|times| - 1];
    OrderedLater(before, t, now);
    if k < |before| {
      CountAll(before, now, from, k);
      OrderedAt(before, t, k);
    }
  }

  lemma SpreadLast(l: Limits, acc: seq<int>, now: int)
    requires l.limit > 0 && Spread(l, acc) && Ordered(acc, now)
    requires Count(acc, now - l.win + 1, now + 1) < l.limit
    ensures Spread(l, acc + [now])
  {
    var i := |acc| - l.limit;
    if i >= 0 && acc[i] + l.win > now { CountAll(acc, now, now - l.win + 1, i); }
  }

  lemma {:induction false} AcceptedSpread(l: Limits, times: seq<int>, now: int)
    requires Ordered(times, now) && l.limit > 0
    ensures Spread(l, AcceptedOf(l, times))
  {
    if times != [] {
      var before, t := times[..|times| - 1], times[|times| - 1];
      AcceptedSpread(l, before, t);
      LogDecidesAsHistory(l, before, t);
      AcceptedOrdered(l, before, t);
      if Admits(l, LogOf(l, before), t) { SpreadLast(l, AcceptedOf(l, before), t); }
    }
  }

  lemma {:induction false} CountNone(times: seq<int>, now: int, from: int, to: int)
    requires Ordered(times, now) && (times == [] || times[|times| - 1] < from)
    ensures Count(times, from, to) == 0
  {
    if times != [] { CountNone(times[..|times| - 1], times[|times| - 1], from, to); }
  }

  lemma {:induction false} CountPrefix(times: seq<int>, from: int, to: int, k: nat)
    requires k <= |times|
    ensures Count(times, from, to) <= Count(times[..k], from, to) + |times| - k
  {
    if k == |times| {
      assert times[..k] == times;
    } else {
      var n := |times| - 1;
      CountPrefix(times[..n], from, to, k);
      assert times[..n][..k] == times[..k];
    }
  }

  lemma {:induction false} OrderedPrefix(times: seq<int>, now: int, k: nat)
    requires Ordered(times, now) && k <= |times|
    ensures Ordered(times[..k], now)
  {
    if k == |times| {
      assert times[..k] == times;
    } else {
      var before := times[..|times| - 1];
      OrderedPrefix(before, times[|times| - 1], k);
      assert before[..k] == times[..k];
      OrderedLater(times[..k], times[|times| - 1], now);
    }
  }

  lemma {:induction false} SpreadCount(l: Limits, acc: seq<int>, now: int, from: int)
    requires l.limit > 0 && Spread(l, acc) && Ordered(acc, now)
    ensures Count(acc, from, from + l.win) <= l.limit
  {
    if acc != [] {
      var n := |acc| - 1;
      if from <= acc[n] < from + l.win {
        var k: nat := if |acc| <= l.limit then 0 else |acc| - l.limit;
        CountPrefix(acc, from, from + l.win, k);
        OrderedPrefix(acc, now, k);
        assert k > 0 ==> acc[k - 1] + l.win <= acc[k - 1 + l.limit];
        CountNone(acc[..k], now, from, from + l.win);
      } else {
        SpreadCount(l, acc[..n], acc[n], from);
      }
    }
  }

  // ---------------------------------------------------------------- runs over all addresses

  function Hits(l: Limits, run: seq<Request>): map<string, seq<int>> {
    if run == [] then map[] else After(l, Hits(l, run[..|run| - 1]), run[|run| - 1])
  }

  /** When each request of an address came, and when one was let through. */
  function RequestTimes(run: seq<Request>, ip: string): seq<int> {
    if run == [] then []
    else
      var before, q := run[..|run| - 1], run[|run| - 1];
      if q.ip == ip then RequestTimes(before, ip) + [q.now] else RequestTimes(before, ip)
  }

  function Accepted(l: Limits, run: seq<Request>, ip: string): seq<int> {
    if run == [] then []
    else
      var before, q := run[..|run| - 1], run[|run| - 1];
      if q.ip == ip && Allows(l, Hits(l, before), q) then Accepted(l, before, ip) + [q.now]
      else Accepted(l, before, ip)
  }

  /** The clock does not go back between requests. */
  ghost predicate OrderedRun(run: seq<Request>, now: int) {
    run == [] || (run[|run| - 1].now <= now && OrderedRun(run[..|run| - 1], run[|run| - 1].now))
  }

  lemma {:induction false} OrderedTimes(run: seq<Request>, ip: string, now: int)
    requires OrderedRun(run, now)
    ensures Ordered(RequestTimes(run, ip), now)
  {
    if run != [] {
      var before, q := run[..|run| - 1], run[|run| - 1];
      OrderedTimes(before, ip, q.now);
      var ts := RequestTimes(before, ip);
      assert (ts + [q.now])[..|ts|] == ts;
    }
  }

  lemma LogAfter(l: Limits, hits: map<string, seq<int>>, q: Request, ip: string)
    ensures Log(After(l, hits, q), ip) == if q.ip == ip then NextLog(l, Log(hits, ip), q.now) else Log(hits, ip)
  {
  }

  lemma LogOfLast(l: Limits, times: seq<int>, t: int)
    ensures LogOf(l, times + [t]) == NextLog(l, LogOf(l, times), t)
    ensures AcceptedOf(l, times + [t])
         == AcceptedOf(l, times) + if Admits(l, LogOf(l, times), t) then [t] else []
  {
    assert (times + [t])[..|times|] == times;
  }

  /** An address is treated as if nobody else had sent anything. */
  lemma {:induction false} OthersDoNotMatter(l: Limits, run: seq<Request>, ip: string)
    ensures Log(Hits(l, run), ip) == LogOf(l, RequestTimes(run, ip))
    ensures Accepted(l, run, ip) == AcceptedOf(l, RequestTimes(run, ip))
  {
    if run != [] {
      var before, q := run[..|run| - 1], run[|run| - 1];
      OthersDoNotMatter(l, before, ip);
      LogAfter(l, Hits(l, before), q, ip);
      if q.ip == ip { LogOfLast(l, RequestTimes(before, ip), q.now); }
    }
  }

  lemma LogShowsTheHistory(l: Limits, run: seq<Request>, ip: string, now: int)
    requires OrderedRun(run, now) && l.limit > 0
    ensures Recent(Log(Hits(l, run), ip), now - l.win) == Recent(Accepted(l, run, ip), now - l.win)
    ensures Ordered(Accepted(l, run, ip), now)
  {
    OthersDoNotMatter(l, run, ip);
    OrderedTimes(run, ip, now);
    LogKeepsWhatMatters(l, RequestTimes(run, ip), now);
    AcceptedOrdered(l, RequestTimes(run, ip), now);
  }

  /** A request is let through iff fewer than limit were in the last win of time, pruned log or not. */
  lemma DecidesAsFullHistory(l: Limits, run: seq<Request>, q: Request)
    requires OrderedRun(run, q.now) && l.limit > 0
    ensures Allows(l, Hits(l, run), q)
       <==> Count(Accepted(l, run, q.ip), q.now - l.win + 1, q.now + 1) < l.limit
  {
    hide Recent, Count, Hits, Accepted, Ordered, OrderedRun;
    LogShowsTheHistory(l, run, q.ip, q.now);
    AdmitsByCount(l, Log(Hits(l, run), q.ip), Accepted(l, run, q.ip), q.now);
  }

  /** In every run, any window of length win, wherever it starts, holds at most limit acceptances. */
  lemma NoWindowHoldsMore(l: Limits, run: seq<Request>, now: int, ip: string, from: int)
    requires OrderedRun(run, now) && l.limit > 0
    ensures Count(Accepted(l, run, ip), from, from + l.win) <= l.limit
  {
    OthersDoNotMatter(l, run, ip);
    OrderedTimes(run, ip, now);
    AcceptedOrdered(l, RequestTimes(run, ip), now);
    AcceptedSpread(l, RequestTimes(run, ip), now);
    SpreadCount(l, AcceptedOf(l, RequestTimes(run, ip)), now, from);
  }

  // ---------------------------------------------------------------- when the clock goes back

  lemma CountLast(times: seq<int>, t: int, from: int, to: int)
    ensures Count(times + [t], from, to) == Count(times, from, to) + if from <= t < to then 1 else 0
  {
    assert (times + [t])[..|times|] == times;
  }

  lemma LetThrough(l: Limits, times: seq<int>, t: int, kept: seq<int>)
    requires Recent(LogOf(l, times), t - l.win) == kept && |kept| < l.limit
    ensures LogOf(l, times + [t]) == kept + [t] && AcceptedOf(l, times + [t]) == AcceptedOf(l, times) + [t]
  {
    LogOfLast(l, times, t);
  }

  /** The time is read before the lock is taken; a late arrival with an early time breaks the bound. */
  lemma EarlyTimeArrivingLateBreaksTheBound()
    ensures Count(AcceptedOf(Limits(2, 10), [0] + [1] + [11] + [5]), 0, 10) == 3
  {
    var l := Limits(2, 10);
    hide LogOf, AcceptedOf, Recent, Count;
    forall cutoff { NothingYet(l, 0, 10, cutoff); }
    LetThrough(l, [], 0, []);
    assert [] + [0] == [0];
    RecentLast([], 0, -9);
    LetThrough(l, [0], 1, [0]);
    RecentLast([], 0, 1);
    RecentLast([0], 1, 1);
    LetThrough(l, [0] + [1], 11, []);
    assert [] + [11] == [11];
    RecentLast([], 11, -5);
    LetThrough(l, [0] + [1] + [11], 5, [11]);
    CountLast([], 0, 0, 10);
    CountLast([0], 1, 0, 10);
    CountLast([0] + [1], 11, 0, 10);
    CountLast([0] + [1] + [11], 5, 0, 10);
  }

  predicate AtMostLimit(l: Limits, acc: seq<int>, from: int) {
    Count(acc, from, from + l.win) <= l.limit
  }

  /** No request is dated more than d before one that came earlier. */
  ghost predicate LateByAtMost(run: seq<Request>, d: nat) {
    forall i, j :: 0 <= i < j < |run| ==> run[i].now <= run[j].now + d
  }

  /** What the limiter is for, over requests late by at most d. */
  ghost predicate NeverMoreThanLimit(l: Limits, d: nat) {
    forall run, ip, from :: LateByAtMost(run, d) ==> AtMostLimit(l, Accepted(l, run, ip), from)
  }

  lemma {:induction false} NeverLateIsOrdered(run: seq<Request>)
    requires LateByAtMost(run, 0)
    ensures run == [] || OrderedRun(run, run[|run| - 1].now)
  {
    if run != [] { NeverLateIsOrdered(run[..|run| - 1]); }
  }

  /** With a limit of 1 the log is the last accepted time, and the next is at least win after it. */
  ghost predicate Single(l: Limits, log: seq<int>, acc: seq<int>)
    requires l.limit > 0
  {
    && log == (if acc == [] then [] else [acc[|acc| - 1]])
    && Spread(l, acc) && (acc != [] ==> Ordered(acc, acc[|acc| - 1]))
  }

  lemma {:induction false} SingleHits(l: Limits, times: seq<int>)
    requires l.limit == 1 && l.win > 0
    ensures Single(l, LogOf(l, times), AcceptedOf(l, times))
  {
    if times != [] {
      hide Admits, Recent, Spread, Ordered, Single;
      var before, t := times[..|times| - 1], times[|times| - 1];
      SingleHits(l, before);
      if Admits(l, LogOf(l, before), t) {
        SingleHit(l, LogOf(l, before), AcceptedOf(l, before), t);
      }
    }
  }

  lemma SingleHit(l: Limits, log: seq<int>, acc: seq<int>, t: int)
    requires l.limit == 1 && l.win > 0 && Single(l, log, acc) && Admits(l, log, t)
    ensures NextLog(l, log, t) == Recent(log, t - l.win) + [t] && Single(l, NextLog(l, log, t), acc + [t])
  {
    if acc != [] {
      RecentLast([], acc[|acc| - 1], t - l.win);
      assert [] + [acc[|acc| - 1]] == log;
    }
    assert (acc + [t])[..|acc|] == acc;
  }

  function Zeros(k: nat): seq<int> {
    if k == 0 then [] else Zeros(k - 1) + [0]
  }

  lemma {:induction false} ZerosLetThrough(l: Limits, k: nat)
    requires k <= l.limit && l.win > 0
    ensures LogOf(l, Zeros(k)) == AcceptedOf(l, Zeros(k)) == Zeros(k)
    ensures |Zeros(k)| == k && Count(Zeros(k), 0, l.win) == k && Recent(Zeros(k), 0) == []
    ensures Recent(Zeros(k), 0 - l.win) == Zeros(k)
  {
    hide LogOf, AcceptedOf, Recent, Count;
    if k == 0 {
      NothingYet(l, 0, l.win, 0);
      NothingYet(l, 0, l.win, 0 - l.win);
    } else {
      ZerosLetThrough(l, k - 1);
      LetThrough(l, Zeros(k - 1), 0, Zeros(k - 1));
      CountLast(Zeros(k - 1), 0, 0, l.win);
      RecentLast(Zeros(k - 1), 0, 0);
      RecentLast(Zeros(k - 1), 0, 0 - l.win);
    }
  }

  lemma NothingYet(l: Limits, from: int, to: int, cutoff: int)
    ensures LogOf(l, []) == AcceptedOf(l, []) == Recent([], cutoff) == [] && Count([], from, to) == 0
  {
  }

  /** As many as the limit at 0, one a window later, and one more that is dated one tick earlier. */
  lemma LateArrival(l: Limits)
    requires l.limit > 1 && l.win > 0
    ensures var times := Zeros(l.limit) + [l.win] + [l.win - 1];
      Count(AcceptedOf(l, times), 0, l.win) == l.limit + 1
  {
    hide LogOf, AcceptedOf, Recent, Count, Zeros;
    NothingYet(l, 0, l.win, -1);
    var zeros := Zeros(l.limit);
    ZerosLetThrough(l, l.limit);
    LetThrough(l, zeros, l.win, []);
    assert [] + [l.win] == [l.win];
    RecentLast([], l.win, -1);
    LetThrough(l, zeros + [l.win], l.win - 1, [l.win]);
    CountLast(zeros, l.win, 0, l.win);
    CountLast(zeros + [l.win], l.win - 1, 0, l.win);
  }

  lemma {:induction false} ZerosAreZero(k: nat)
    ensures |Zeros(k)| == k && forall i :: 0 <= i < k ==> Zeros(k)[i] == 0
  {
    if k > 0 { ZerosAreZero(k - 1); }
  }

  /** One address's requests at the given times. */
  function FromOne(ip: string, times: seq<int>): seq<Request> {
    if times == [] then [] else FromOne(ip, times[..|times| - 1]) + [Request(ip, times[|times| - 1])]
  }

  lemma {:induction false} FromOneTimes(ip: string, times: seq<int>)
    ensures RequestTimes(FromOne(ip, times), ip) == times && |FromOne(ip, times)| == |times|
    ensures forall i :: 0 <= i < |times| ==> FromOne(ip, times)[i].now == times[i]
  {
    if times != [] {
      var before := FromOne(ip, times[..|times| - 1]);
      FromOneTimes(ip, times[..|times| - 1]);
      assert (before + [Request(ip, times[|times| - 1])])[..|before|] == before;
    }
  }

  /** The bound holds over requests late by at most d exactly for d = 0, or for a limit of one. */
  lemma NeverMoreThanLimitIff(l: Limits, d: nat)
    requires l.limit > 0 && l.win > 0
    ensures NeverMoreThanLimit(l, d) <==> d == 0 || l.limit == 1
  {
    if d == 0 {
      forall run: seq<Request>, ip, from | LateByAtMost(run, d) ensures AtMostLimit(l, Accepted(l, run, ip), from) {
        NeverLateIsOrdered(run);
        NoWindowHoldsMore(l, run, if run == [] then 0 else run[|run| - 1].now, ip, from);
      }
    } else if l.limit == 1 {
      forall run: seq<Request>, ip, from | LateByAtMost(run, d) ensures AtMostLimit(l, Accepted(l, run, ip), from) {
        OneAtATime(l, run, ip, from);
      }
    } else {
      LateByOneTick(l, d);
    }
  }

  lemma OneAtATime(l: Limits, run: seq<Request>, ip: string, from: int)
    requires l.limit == 1 && l.win > 0
    ensures AtMostLimit(l, Accepted(l, run, ip), from)
  {
    var acc := AcceptedOf(l, RequestTimes(run, ip));
    OthersDoNotMatter(l, run, ip);
    SingleHits(l, RequestTimes(run, ip));
    if acc != [] { SpreadCount(l, acc, acc[|acc| - 1], from); }
  }

  lemma LateByOneTick(l: Limits, d: nat)
    requires l.limit > 1 && l.win > 0 && d > 0
    ensures !NeverMoreThanLimit(l, d)
  {
    hide Recent, Count, Accepted, RequestTimes, Zeros;
    var times := Zeros(l.limit) + [l.win] + [l.win - 1];
    var run := FromOne("", times);
    LateArrival(l);
    ZerosAreZero(l.limit);
    FromOneTimes("", times);
    OthersDoNotMatter(l, run, "");
    assert LateByAtMost(run, d) && !AtMostLimit(l, Accepted(l, run, ""), 0);
  }
}
