/**
 The chat send limiter (cache/redis): one counter per room and user, incremented by each
 send and given a one second life by whoever finds it at 1. The two commands are separate.
 */
module FixedWindow {
  import opened Common
  import Sliding = SlidingWindow

  /** One second on the Redis server's clock, in milliseconds. */
  const SECOND := 1000

  /** A key is gone once the time is past its deadline; without one it stays. */
  datatype Key = Key(count: int, deadline: Option<int>)

  function Live(k: Option<Key>, now: int): Option<Key> {
    if k.Some? && k.value.deadline.Some? && now > k.value.deadline.value then None else k
  }

  function Incr(k: Option<Key>, now: int): Key {
    if Live(k, now).None? then Key(1, None) else k.value.(count := k.value.count + 1)
  }

  function Expire(k: Option<Key>, now: int): Option<Key> {
    if Live(k, now).None? then None else Some(k.value.(deadline := Some(now + SECOND)))
  }

  class RoomChat {
    var rates: map<(RoomId, UserId), Key>

    constructor ()
      ensures rates == map[]
    {
      rates := map[];
    }

    function Rate(key: (RoomId, UserId)): Option<Key>
      reads this
    {
      if key in rates then Some(rates[key]) else None
    }

    method IncrRate(key: (RoomId, UserId), now: int) returns (n: int)
      modifies this
      ensures Rate(key) == Some(Incr(old(Rate(key)), now)) && n == rates[key].count
      ensures rates - {key} == old(rates) - {key}
    {
      var k := if key in rates && !(rates[key].deadline.Some? && now > rates[key].deadline.value) then rates[key] else Key(0, None);
      rates := rates[key := k.(count := k.count + 1)];
      n := k.count + 1;
    }

    method ExpireRate(key: (RoomId, UserId), now: int)
      modifies this
      ensures Rate(key) == Expire(old(Rate(key)), now)
      ensures rates - {key} == old(rates) - {key}
    {
      if key in rates {
        if rates[key].deadline.Some? && now > rates[key].deadline.value {
          rates := rates - {key};
        } else {
          rates := rates[key := rates[key].(deadline := Some(now + SECOND))];
        }
      }
    }

    /**
     Nobody else's command comes in between; sentAt and setAt are the times of the two
     commands. None is a failed INCR. A failed EXPIRE goes unnoticed.
     */
    method AllowChatSend(roomID: RoomId, userID: UserId, maxPerSecond: int, sentAt: int, setAt: int, incrOk: bool, expireOk: bool)
      returns (ok: Option<bool>)
      modifies this
      ensures maxPerSecond <= 0 ==> ok == Some(true) && rates == old(rates)
      ensures maxPerSecond > 0 && !incrOk ==> ok == None && rates == old(rates)
      ensures maxPerSecond > 0 && incrOk ==>
        var k := Incr(old(Rate((roomID, userID))), sentAt);
        && ok == Some(k.count <= maxPerSecond)
        && Rate((roomID, userID)) == (if k.count == 1 && expireOk then Expire(Some(k), setAt) else Some(k))
      // the first send of a counter, also of one whose deadline has passed, gives it a second; the next ones add one
      ensures maxPerSecond > 0 && incrOk ==>
        var was := old(Rate((roomID, userID)));
        if was.None? || (was.value.deadline.Some? && sentAt > was.value.deadline.value) then
          && ok == Some(true)
          && Rate((roomID, userID)) == Some(Key(1, if expireOk then Some(setAt + 1000) else None))
        else
          was.value.count >= 1 ==>
            && ok == Some(was.value.count + 1 <= maxPerSecond)
            && Rate((roomID, userID)) == Some(Key(was.value.count + 1, was.value.deadline))
      ensures rates - {(roomID, userID)} == old(rates) - {(roomID, userID)}
    {
      if maxPerSecond <= 0 { return Some(true); }
      if !incrOk { return None; }
      var key := (roomID, userID);
      var n := IncrRate(key, sentAt);
      if n == 1 && expireOk { ExpireRate(key, setAt); }
      ok := Some(n <= maxPerSecond);
    }
  }

  // ---------------------------------------------------------------- any number of senders

  /** opening: a sender got 1 and has not come to EXPIRE yet; start: when it got 1; hits: when sends were let through. */
  datatype State = State(key: Option<Key>, opening: bool, clock: int, start: int, hits: seq<int>)

  datatype Event = Sent(now: int) | SetExpiry(now: int) | ExpiryFailed(now: int)

  predicate Legal(s: State, e: Event) {
    e.now >= s.clock && (e.Sent? || s.opening)
  }

  function Step(max: nat, s: State, e: Event): State {
    match e
    case Sent(now) =>
      var k := Incr(s.key, now);
      State(Some(k), s.opening || k.count == 1, now, if k.count == 1 then now else s.start,
            if k.count <= max then s.hits + [now] else s.hits)
    case SetExpiry(now) =>
      s.(key := Expire(s.key, now), opening := false, clock := now)
    case ExpiryFailed(now) =>
      s.(opening := false, clock := now)
  }

  function Initial(clock: int): State {
    State(None, false, clock, clock, [])
  }

  ghost predicate LegalRun(max: nat, s: State, run: seq<Event>)
    decreases run
  {
    run == [] || (Legal(s, run[0]) && LegalRun(max, Step(max, s, run[0]), run[1..]))
  }

  function Run(max: nat, s: State, run: seq<Event>): State
    decreases run
  {
    if run == [] then s else Run(max, Step(max, s, run[0]), run[1..])
  }

  // ---------------------------------------------------------------- what every run keeps

  function Min(a: int, b: int): int {
    if a <= b then a else b
  }

  /** Where the hits of the present counter begin. */
  function Base(max: nat, s: State): int {
    |s.hits| - if s.key.None? then 0 else Min(s.key.value.count, max)
  }

  /** Any 2 max hits span more than a second: hits 2 max - 1 apart are. */
  ghost predicate Spread(max: nat, hits: seq<int>)
    requires max > 0
  {
    Sliding.Spread(Sliding.Limits(2 * max - 1, SECOND + 1), hits)
  }

  /** The hits of the present counter, and how far the earlier ones are from its start. */
  ghost predicate Placed(max: nat, hits: seq<int>, base: int, start: int) {
    && 0 <= base < |hits|
    && (forall i :: 0 <= i <= base ==> hits[i] <= start)
    && (forall i :: 0 <= i <= base - max ==> hits[i] + SECOND < start)
    && (forall i :: base <= i < |hits| ==> start <= hits[i])
  }

  ghost predicate Inv(max: nat, s: State)
    requires max > 0
  {
    && Sliding.Ordered(s.hits, s.clock) && Spread(max, s.hits)
    && (s.key.None? ==> s.hits == [] && !s.opening)
    && (s.key.Some? ==> s.key.value.count >= 1 && s.start <= s.clock && Placed(max, s.hits, Base(max, s), s.start))
    && (s.key.Some? && s.key.value.deadline.Some? ==> s.key.value.deadline.value >= s.start + SECOND)
    && (s.opening ==> s.key.value.deadline == None)
  }

  lemma InitialInv(max: nat, clock: int)
    requires max > 0
    ensures Inv(max, Initial(clock))
  {
  }

  lemma OrderedSnoc(hits: seq<int>, clock: int, now: int)
    requires Sliding.Ordered(hits, clock) && clock <= now
    ensures Sliding.Ordered(hits + [now], now) && Sliding.Ordered(hits, now)
    ensures forall i :: 0 <= i < |hits| ==> hits[i] <= now
  {
    assert (hits + [now])[..|hits|] == hits;
    Sliding.OrderedLater(hits, clock, now);
    forall i | 0 <= i < |hits| ensures hits[i] <= now { Sliding.OrderedAt(hits, now, i); }
  }

  /** A hit of the present counter, which has counted c so far. */
  lemma HitMore(max: nat, hits: seq<int>, base: int, start: int, now: int)
    requires max > 0 && Spread(max, hits) && Placed(max, hits, base, start) && |hits| - base < max && start <= now
    ensures Spread(max, hits + [now]) && Placed(max, hits + [now], base, start)
  {
  }

  /** The first hit of a new counter, once the old one is gone. */
  lemma HitFirst(max: nat, hits: seq<int>, base: int, start: int, now: int)
    requires max > 0 && Spread(max, hits) && Placed(max, hits, base, start) && |hits| - base <= max
    requires start + SECOND < now && forall i :: 0 <= i < |hits| ==> hits[i] <= now
    ensures Spread(max, hits + [now]) && Placed(max, hits + [now], |hits|, now)
  {
  }

  lemma FirstEver(max: nat, hits: seq<int>, now: int)
    requires max > 0 && hits == []
    ensures Spread(max, hits + [now]) && Placed(max, hits + [now], 0, now)
  {
  }

  lemma SentAnewKeepsInv(max: nat, s: State, now: int)
    requires max > 0 && Inv(max, s) && now >= s.clock && Live(s.key, now).None?
    ensures Inv(max, Step(max, s, Sent(now)))
  {
    var s' := Step(max, s, Sent(now));
    OrderedSnoc(s.hits, s.clock, now);
    assert s' == State(Some(Key(1, None)), true, now, now, s.hits + [now]);
    assert Base(max, s') == |s.hits|;
    if s.key.Some? {
      HitFirst(max, s.hits, Base(max, s), s.start, now);
    } else {
      FirstEver(max, s.hits, now);
    }
  }

  lemma SentKeepsInv(max: nat, s: State, now: int)
    requires max > 0 && Inv(max, s) && now >= s.clock && Live(s.key, now).Some?
    ensures Inv(max, Step(max, s, Sent(now)))
  {
    var s' := Step(max, s, Sent(now));
    OrderedSnoc(s.hits, s.clock, now);
    assert Base(max, s') == Base(max, s);
    if s.key.value.count < max { HitMore(max, s.hits, Base(max, s), s.start, now); }
  }

  lemma StepKeepsInv(max: nat, s: State, e: Event)
    requires max > 0 && Inv(max, s) && Legal(s, e)
    ensures Inv(max, Step(max, s, e))
  {
    if e.Sent? {
      if Live(s.key, e.now).None? { SentAnewKeepsInv(max, s, e.now); } else { SentKeepsInv(max, s, e.now); }
    } else {
      Sliding.OrderedLater(s.hits, s.clock, e.now);
    }
  }

  lemma {:induction false} RunKeepsInv(max: nat, s: State, run: seq<Event>)
    requires max > 0 && Inv(max, s) && LegalRun(max, s, run)
    ensures Inv(max, Run(max, s, run))
    decreases run
  {
    if run != [] {
      StepKeepsInv(max, s, run[0]);
      RunKeepsInv(max, Step(max, s, run[0]), run[1..]);
    }
  }

  /** No second, wherever it starts and counting both ends, sees more than 2 max - 1 sends let through. */
  lemma LessThanTwicePerSecond(max: nat, clock: int, run: seq<Event>, from: int)
    requires max > 0 && LegalRun(max, Initial(clock), run)
    ensures Sliding.Count(Run(max, Initial(clock), run).hits, from, from + 1001) <= 2 * max - 1
  {
    InitialInv(max, clock);
    RunKeepsInv(max, Initial(clock), run);
    var s := Run(max, Initial(clock), run);
    Sliding.SpreadCount(Sliding.Limits(2 * max - 1, SECOND + 1), s.hits, s.clock, from);
  }

  /** A send is refused only when max have been let through since the counter was created. */
  lemma RefusedOnlyWhenFull(max: nat, s: State, now: int)
    requires max > 0 && Inv(max, s) && now >= s.clock
    requires Step(max, s, Sent(now)).hits == s.hits
    ensures |s.hits| >= max && forall i :: |s.hits| - max <= i < |s.hits| ==> s.start <= s.hits[i] <= now
  {
    OrderedSnoc(s.hits, s.clock, now);
    assert |s.hits + [now]| != |s.hits|;
    assert s.key.Some? && s.key.value.count >= max;
  }

  // ---------------------------------------------------------------- when EXPIRE fails

  ghost predicate Stuck(max: nat, s: State) {
    s.key.Some? && s.key.value.count >= max && s.key.value.deadline == None && !s.opening && s.key.value.count > 0
  }

  /** A counter left without a deadline blocks the user for good once it is at max. */
  lemma {:induction false} LostExpiryBlocksForever(max: nat, s: State, run: seq<Event>)
    requires Stuck(max, s) && LegalRun(max, s, run)
    ensures Run(max, s, run).hits == s.hits && Stuck(max, Run(max, s, run))
    decreases run
  {
    if run != [] { LostExpiryBlocksForever(max, Step(max, s, run[0]), run[1..]); }
  }

  /** A first send whose EXPIRE is lost, and as many more as the counter has room for. */
  function LostRun(max: nat): seq<Event>
    requires max > 0
  {
    [Sent(0), ExpiryFailed(0)] + Sends(0, max - 1)
  }

  /** That can happen from the start. */
  lemma LostExpiryHappens(max: nat)
    requires max > 0
    ensures LegalRun(max, Initial(0), LostRun(max)) && Stuck(max, Run(max, Initial(0), LostRun(max)))
  {
    var first := [Sent(0), ExpiryFailed(0)];
    assert first[1..] == [ExpiryFailed(0)] && first[1..][1..] == [];
    var s1 := Step(max, Initial(0), Sent(0));
    assert s1 == State(Some(Key(1, None)), true, 0, 0, [0]);
    assert Step(max, s1, ExpiryFailed(0)) == State(Some(Key(1, None)), false, 0, 0, [0]);
    var s2 := Run(max, Initial(0), first);
    SendsFit(max, s2, 0, max - 1);
    RunAppend(max, Initial(0), first, Sends(0, max - 1));
  }

  /** Some run from here lets a further send through. */
  ghost predicate Recovers(max: nat, s: State) {
    exists run :: LegalRun(max, s, run) && |Run(max, s, run).hits| > |s.hits|
  }

  /** One more send, at a time when the counter is gone or has room. */
  lemma SendGetsThrough(max: nat, s: State, now: int)
    requires max > 0 && now >= s.clock && Incr(s.key, now).count <= max
    ensures Recovers(max, s)
  {
    RunFirst(max, s, Sent(now), []);
    var run := [Sent(now)] + [];
    assert Run(max, Step(max, s, Sent(now)), []) == Step(max, s, Sent(now));
    assert LegalRun(max, s, run) && Run(max, s, run).hits == s.hits + [now];
  }

  lemma RecoversNext(max: nat, s: State, e: Event)
    requires Legal(s, e) && Recovers(max, Step(max, s, e)) && Step(max, s, e).hits == s.hits
    ensures Recovers(max, s)
  {
    var run :| LegalRun(max, Step(max, s, e), run) && |Run(max, Step(max, s, e), run).hits| > |s.hits|;
    RunFirst(max, s, e, run);
  }

  /** A user whose counter is live and full gets through again once it expires. */
  lemma DeadlineFrees(max: nat, s: State)
    requires max > 0 && s.key.Some? && s.key.value.deadline.Some?
    ensures Recovers(max, s)
  {
    var deadline := s.key.value.deadline.value;
    SendGetsThrough(max, s, if s.clock > deadline then s.clock else deadline + 1);
  }

  /** In a state reached from the start some later send is let through exactly when the counter is not stuck. */
  lemma RecoversIffNotStuck(max: nat, s: State)
    requires max > 0 && Inv(max, s)
    ensures Recovers(max, s) <==> !Stuck(max, s)
  {
    if Stuck(max, s) {
      if run :| LegalRun(max, s, run) && |Run(max, s, run).hits| > |s.hits| {
        LostExpiryBlocksForever(max, s, run);
      }
    } else if s.key.None? || (s.key.value.deadline == None && s.key.value.count < max) {
      SendGetsThrough(max, s, s.clock);
    } else if s.key.value.deadline.Some? {
      DeadlineFrees(max, s);
    } else {
      DeadlineFrees(max, Step(max, s, SetExpiry(s.clock)));
      RecoversNext(max, s, SetExpiry(s.clock));
    }
  }

  /** So, over every run from the start: a user can be let through again exactly when not stuck. */
  lemma UserRecoversIff(max: nat, clock: int, run: seq<Event>)
    requires max > 0 && LegalRun(max, Initial(clock), run)
    ensures var s := Run(max, Initial(clock), run);
      Recovers(max, s) <==> !Stuck(max, s)
  {
    InitialInv(max, clock);
    RunKeepsInv(max, Initial(clock), run);
    RecoversIffNotStuck(max, Run(max, Initial(clock), run));
  }

  // ---------------------------------------------------------------- the bound is met

  function Sends(now: int, k: nat): seq<Event> {
    if k == 0 then [] else [Sent(now)] + Sends(now, k - 1)
  }

  function Repeated(now: int, k: nat): seq<int> {
    if k == 0 then [] else [now] + Repeated(now, k - 1)
  }

  /** Sends at one time while the counter has room. */
  lemma {:induction false} SendsFit(max: nat, s: State, now: int, k: nat)
    requires s.key.Some? && 1 <= s.key.value.count && s.key.value.count + k <= max && s.clock <= now
    requires Live(s.key, now).Some?
    ensures LegalRun(max, s, Sends(now, k))
    ensures var s' := Run(max, s, Sends(now, k));
      && s'.key == Some(s.key.value.(count := s.key.value.count + k)) && s'.opening == s.opening
      && s'.clock <= now && s'.hits == s.hits + Repeated(now, k)
    decreases k
  {
    if k > 0 {
      var s1 := Step(max, s, Sent(now));
      assert Sends(now, k)[0] == Sent(now) && Sends(now, k)[1..] == Sends(now, k - 1);
      SendsFit(max, s1, now, k - 1);
      RepeatedFirst(s.hits, now, k);
    } else {
      assert s.hits + Repeated(now, k) == s.hits;
    }
  }

  lemma {:induction false} RunAppend(max: nat, s: State, a: seq<Event>, b: seq<Event>)
    ensures Run(max, s, a + b) == Run(max, Run(max, s, a), b)
    ensures LegalRun(max, s, a + b) <==> LegalRun(max, s, a) && LegalRun(max, Run(max, s, a), b)
    decreases a
  {
    if a == [] {
      assert a + b == b;
    } else {
      assert (a + b)[1..] == a[1..] + b;
      RunAppend(max, Step(max, s, a[0]), a[1..], b);
    }
  }

  lemma {:induction false} CountRepeated(hits: seq<int>, now: int, k: nat, from: int, to: int)
    requires from <= now < to
    ensures Sliding.Count(hits + Repeated(now, k), from, to) == Sliding.Count(hits, from, to) + k
    decreases k
  {
    if k > 0 {
      RepeatedFirst(hits, now, k);
      CountRepeated(hits + [now], now, k - 1, from, to);
      Sliding.CountLast(hits, now, from, to);
    } else {
      assert hits + Repeated(now, k) == hits;
    }
  }

  /** One send, a full window at its very end, and a full new one a millisecond later. */
  function BusyRun(max: nat): seq<Event>
    requires max > 0
  {
    [Sent(0), SetExpiry(0)] + Sends(SECOND, max - 1) + Sends(SECOND + 1, max)
  }

  lemma BusyHits(max: nat)
    requires max > 0
    ensures LegalRun(max, Initial(0), BusyRun(max))
    ensures Run(max, Initial(0), BusyRun(max)).hits == [0] + Repeated(SECOND, max - 1) + Repeated(SECOND + 1, max)
  {
    var s0, first, second := Initial(0), [Sent(0), SetExpiry(0)], Sends(SECOND, max - 1);
    OpeningRun(max);
    var s2 := Run(max, s0, first);
    SendsFit(max, s2, SECOND, max - 1);
    RunAppend(max, s0, first, second);
    NewCounter(max, Run(max, s2, second), SECOND + 1);
    RunAppend(max, s0, first + second, Sends(SECOND + 1, max));
  }

  /** A full window as soon as the old counter is gone. */
  lemma NewCounter(max: nat, s: State, now: int)
    requires max > 0 && s.clock <= now && Live(s.key, now).None?
    ensures LegalRun(max, s, Sends(now, max)) && Run(max, s, Sends(now, max)).hits == s.hits + Repeated(now, max)
  {
    var s1 := FirstSent(max, s, now);
    SendsFit(max, s1, now, max - 1);
    RunFirst(max, s, Sent(now), Sends(now, max - 1));
    RepeatedFirst(s.hits, now, max);
  }

  lemma FirstSent(max: nat, s: State, now: int) returns (s1: State)
    requires max > 0 && s.clock <= now && Live(s.key, now).None?
    ensures s1 == Step(max, s, Sent(now)) && s1.key == Some(Key(1, None)) && s1.clock == now && s1.hits == s.hits + [now]
  {
    s1 := Step(max, s, Sent(now));
  }

  lemma RepeatedFirst(hits: seq<int>, now: int, k: nat)
    requires k > 0
    ensures hits + Repeated(now, k) == hits + [now] + Repeated(now, k - 1)
  {
  }

  lemma RunFirst(max: nat, s: State, e: Event, rest: seq<Event>)
    ensures Run(max, s, [e] + rest) == Run(max, Step(max, s, e), rest)
    ensures LegalRun(max, s, [e] + rest) <==> Legal(s, e) && LegalRun(max, Step(max, s, e), rest)
  {
    assert ([e] + rest)[1..] == rest;
  }

  lemma BusyCount(max: nat)
    requires max > 0
    ensures Sliding.Count([0] + Repeated(SECOND, max - 1) + Repeated(SECOND + 1, max), SECOND, SECOND + SECOND + 1) == 2 * max - 1
  {
    CountRepeated([0] + Repeated(SECOND, max - 1), SECOND + 1, max, SECOND, SECOND + SECOND + 1);
    CountRepeated([0], SECOND, max - 1, SECOND, SECOND + SECOND + 1);
    Sliding.CountLast([], 0, SECOND, SECOND + SECOND + 1);
    assert [] + [0] == [0];
  }

  /** The bound is the best there is, for every max. */
  lemma BoundIsMet(max: nat)
    requires max > 0
    ensures LegalRun(max, Initial(0), BusyRun(max))
    ensures Sliding.Count(Run(max, Initial(0), BusyRun(max)).hits, 1000, 2001) == 2 * max - 1
  {
    BusyHits(max);
    BusyCount(max);
  }

  predicate AtMostMax(max: nat, hits: seq<int>, from: int) {
    Sliding.Count(hits, from, from + 1001) <= max
  }

  /** What the design asks for: no more than max sends in a second. */
  ghost predicate NeverMoreThanMax(max: nat) {
    forall run, from :: LegalRun(max, Initial(0), run) ==> AtMostMax(max, Run(max, Initial(0), run).hits, from)
  }

  /** It gets that for a limit of one, and for no other. */
  lemma NeverMoreThanMaxIffOne(max: nat)
    requires max > 0
    ensures NeverMoreThanMax(max) <==> max == 1
  {
    if max == 1 {
      forall run, from | LegalRun(max, Initial(0), run) ensures AtMostMax(max, Run(max, Initial(0), run).hits, from) {
        LessThanTwicePerSecond(max, 0, run, from);
      }
    } else {
      BoundIsMet(max);
      assert !AtMostMax(max, Run(max, Initial(0), BusyRun(max)).hits, SECOND);
    }
  }

  lemma OpeningRun(max: nat)
    requires max > 0
    ensures LegalRun(max, Initial(0), [Sent(0), SetExpiry(0)])
    ensures Run(max, Initial(0), [Sent(0), SetExpiry(0)]) == State(Some(Key(1, Some(SECOND))), false, 0, 0, [0])
  {
    var run := [Sent(0), SetExpiry(0)];
    assert run[1..] == [SetExpiry(0)] && run[1..][1..] == [];
    var s1 := Step(max, Initial(0), Sent(0));
    assert s1 == State(Some(Key(1, None)), true, 0, 0, [0]);
    assert Step(max, s1, SetExpiry(0)) == State(Some(Key(1, Some(SECOND))), false, 0, 0, [0]);
  }
}
