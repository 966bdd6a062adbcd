/**
 The verification-code store's send limits as its in-memory form keeps them, and why that
 form answers as the Redis one does while requests come one at a time.
 */
module EmailCodeStore {
  import opened Common
  import opened Quota = DailyQuota

  /** A day in nanoseconds. */
  const DAY := 86_400_000_000_000

  function UtcDay(now: int): Day {
    now / DAY
  }

  /** A day is 24 hours, the first beginning at 0. */
  lemma DaySpec(now: int)
    ensures UtcDay(now) * 86_400_000_000_000 <= now < (UtcDay(now) + 1) * 86_400_000_000_000
    ensures UtcDay(now + 86_400_000_000_000) == UtcDay(now) + 1
  {
  }

  /** A zero time or day is None. */
  datatype MemEntry = MemEntry(hash: string, expiresAt: Option<int>, attempts: int, coolUntil: Option<int>,
                               dailyDay: Option<Day>, dailyCount: int)

  const NEW_ENTRY := MemEntry("", None, 0, None, None, 0)

  datatype Answer = Accepted | Cooling(retryAfter: int) | OverLimit | NoAddress

  function Cool(coolUntil: Option<int>, now: int): bool {
    coolUntil.Some? && now < coolUntil.value
  }

  function Entry(e: Option<MemEntry>): MemEntry {
    if e.Some? then e.value else NEW_ENTRY
  }

  /** The entry as of today: a new day starts at 0. */
  function OnDay(e: MemEntry, d: Day): MemEntry {
    if e.dailyDay == Some(d) then e else e.(dailyDay := Some(d), dailyCount := 0)
  }

  function MemPrecheck(e: Option<MemEntry>, limit: int, now: int): (MemEntry, Answer) {
    if Cool(Entry(e).coolUntil, now) then (Entry(e), Cooling(Entry(e).coolUntil.value - now))
    else
      var today := OnDay(Entry(e), UtcDay(now));
      if today.dailyCount >= limit then (today, OverLimit) else (today.(dailyCount := today.dailyCount + 1), Accepted)
  }

  /** The day is not looked at. */
  function MemRollback(e: Option<MemEntry>): Option<MemEntry> {
    if e.Some? && e.value.dailyCount > 0 then Some(e.value.(dailyCount := e.value.dailyCount - 1)) else e
  }

  function MemCommit(e: Option<MemEntry>, hash: string, ttl: int, cooldown: int, now: int): MemEntry {
    Entry(e).(hash := hash, expiresAt := Some(now + ttl), attempts := 0, coolUntil := Some(now + cooldown))
  }

  class Store {
    var mem: map<(string, string), MemEntry>

    constructor ()
      ensures mem == map[]
    {
      mem := map[];
    }

    function At(key: (string, string)): Option<MemEntry>
      reads this
    {
      if key in mem then Some(mem[key]) else None
    }

    /** Even a refusal leaves an entry, and may start a new day. */
    method PrecheckSend(email: string, purpose: string, dailyLimit: int, now: int) returns (answer: Answer)
      modifies this
      ensures email == "" || purpose == "" ==> answer == NoAddress && mem == old(mem)
      ensures email != "" && purpose != "" ==>
        var r := MemPrecheck(old(At((purpose, email))), dailyLimit, now);
        mem == old(mem)[(purpose, email) := r.0] && answer == r.1
      // before the cooldown ends nothing is sent; otherwise, up to the limit on each UTC day
      ensures email != "" && purpose != "" ==>
        var was, e := old(At((purpose, email))), mem[(purpose, email)];
        if was.Some? && was.value.coolUntil.Some? && now < was.value.coolUntil.value then
          answer == Cooling(was.value.coolUntil.value - now) && e == was.value
        else
          var used := if was.Some? && was.value.dailyDay == Some(UtcDay(now)) then was.value.dailyCount else 0;
          && answer == (if used < dailyLimit then Accepted else OverLimit)
          && e.dailyDay == Some(UtcDay(now)) && e.dailyCount == used + (if used < dailyLimit then 1 else 0)
          && (was.Some? ==> e.(dailyDay := None, dailyCount := 0) == was.value.(dailyDay := None, dailyCount := 0))
    {
      if email == "" || purpose == "" { return NoAddress; }
      var k, day := (purpose, email), UtcDay(now);
      if k !in mem { mem := mem[k := NEW_ENTRY]; }
      var e := mem[k];
      if e.coolUntil.Some? && now < e.coolUntil.value { return Cooling(e.coolUntil.value - now); }
      if e.dailyDay != Some(day) {
        e := e.(dailyDay := Some(day), dailyCount := 0);
        mem := mem[k := e];
      }
      if e.dailyCount >= dailyLimit { return OverLimit; }
      mem := mem[k := e.(dailyCount := e.dailyCount + 1)];
      answer := Accepted;
    }

    method RollbackPrecheck(email: string, purpose: string)
      modifies this
      ensures At((purpose, email)) == MemRollback(old(At((purpose, email))))
      ensures var was := old(At((purpose, email)));
        At((purpose, email)) == if was.None? || was.value.dailyCount <= 0 then was
                                else Some(was.value.(dailyCount := was.value.dailyCount - 1))
      ensures mem - {(purpose, email)} == old(mem) - {(purpose, email)}
    {
      var k := (purpose, email);
      if k in mem && mem[k].dailyCount > 0 { mem := mem[k := mem[k].(dailyCount := mem[k].dailyCount - 1)]; }
    }

    method CommitSend(email: string, purpose: string, hash: string, ttl: int, cooldown: int, now: int)
      modifies this
      ensures At((purpose, email)) == Some(MemCommit(old(At((purpose, email))), hash, ttl, cooldown, now))
      ensures mem - {(purpose, email)} == old(mem) - {(purpose, email)}
      // the code can be checked until it expires, nothing is sent before the cooldown ends, and the day's count stays
      ensures var e, was := mem[(purpose, email)], Entry(old(At((purpose, email))));
        && e.hash == hash && e.attempts == 0 && e.expiresAt == Some(now + ttl)
        && (forall t :: Cool(e.coolUntil, t) <==> t < now + cooldown)
        && (forall limit, t :: t < now + cooldown ==> MemPrecheck(Some(e), limit, t) == (e, Cooling(now + cooldown - t)))
        && e.dailyDay == was.dailyDay && e.dailyCount == was.dailyCount
    {
      var k := (purpose, email);
      var e := if k in mem then mem[k] else NEW_ENTRY;
      mem := mem[k := e.(hash := hash, expiresAt := Some(now + ttl), attempts := 0, coolUntil := Some(now + cooldown))];
    }
  }

  // ---------------------------------------------------------------- whole requests

  /** On a new day, once the cooldown is over, a request is accepted however many were sent before. */
  lemma NewDayIsAccepted(e: MemEntry, limit: int, now: int)
    requires limit > 0 && e.dailyDay.Some? && now >= (e.dailyDay.value + 1) * 86_400_000_000_000
    requires e.coolUntil.Some? ==> e.coolUntil.value <= now
    ensures MemPrecheck(Some(e), limit, now).1 == Accepted && MemPrecheck(Some(e), limit, now).0.dailyCount == 1
  {
    DaySpec(now);
    assert UtcDay(now) > e.dailyDay.value;
  }

  /** One request for a code: when it comes, when its mail is through or has failed, and which. */
  datatype Request = Request(now: int, later: int, sent: bool)

  datatype Limits = Limits(daily: int, cooldown: int, ttl: int)

  /** The handlers' order: precheck, and if accepted a rollback or a commit. */
  function MemRequest(l: Limits, e: Option<MemEntry>, q: Request): (Option<MemEntry>, Answer) {
    var (e1, answer) := MemPrecheck(e, l.daily, q.now);
    if answer != Accepted then (Some(e1), answer)
    else if q.sent then (Some(MemCommit(Some(e1), "", l.ttl, l.cooldown, q.later)), answer)
    else (MemRollback(Some(e1)), answer)
  }

  /** The Redis keys of one address and purpose. */
  datatype RedisKeys = RedisKeys(coolUntil: Option<int>, quota: State)

  function RedisRequest(l: Limits, r: RedisKeys, q: Request): (RedisKeys, Answer) {
    if Cool(r.coolUntil, q.now) then (r, Cooling(r.coolUntil.value - q.now))
    else
      var p := |r.quota.senders|;
      var s := Do(l.daily, Do(l.daily, r.quota, Precheck(UtcDay(q.now))), Increment(p));
      if s.senders[p].Rejected? then (r.(quota := Do(l.daily, s, TakeBack(p, true))), OverLimit)
      else if q.sent then (RedisKeys(Some(q.later + l.cooldown), Do(l.daily, s, Commit(p))), Accepted)
      else (r.(quota := Do(l.daily, s, Rollback(p, UtcDay(q.later), true))), Accepted)
  }

  /** Both forms hold the same cooldown and, from a day on, the same counts. */
  ghost predicate Same(e: Option<MemEntry>, r: RedisKeys, day: Day) {
    && Entry(e).coolUntil == r.coolUntil && Entry(e).dailyCount >= 0
    && (Entry(e).dailyDay.Some? ==> Entry(e).dailyDay.value <= day)
    && (forall d :: d >= day ==> Counter(r.quota, d) == if Entry(e).dailyDay == Some(d) then Entry(e).dailyCount else 0)
  }

  lemma DaysPass(now: int, later: int)
    requires now <= later
    ensures UtcDay(now) <= UtcDay(later)
  {
  }

  lemma SameLater(e: Option<MemEntry>, r: RedisKeys, day: Day, d: Day)
    requires Same(e, r, day) && day <= d
    ensures Same(e, r, d)
  {
  }

  /** What a request does to the Redis counters in all. */
  lemma RedisCounts(l: Limits, r: RedisKeys, q: Request, d: Day)
    requires !Cool(r.coolUntil, q.now)
    ensures var (r', answer) := RedisRequest(l, r, q);
      var n := Counter(r.quota, UtcDay(q.now));
      && answer == (if n + 1 > l.daily then OverLimit else Accepted)
      && Counter(r'.quota, d) == Counter(r.quota, d)
           + (if answer == Accepted && UtcDay(q.now) == d then 1 else 0)
           - (if answer == Accepted && !q.sent && UtcDay(q.later) == d then 1 else 0)
      && r'.coolUntil == if answer == Accepted && q.sent then Some(q.later + l.cooldown) else r.coolUntil
  {
    var p := |r.quota.senders|;
    var s1 := Do(l.daily, r.quota, Precheck(UtcDay(q.now)));
    var s := Do(l.daily, s1, Increment(p));
    CounterMoves(l.daily, s1, Increment(p), d);
    if s.senders[p].Rejected? {
      CounterMoves(l.daily, s, TakeBack(p, true), d);
    } else if !q.sent {
      CounterMoves(l.daily, s, Rollback(p, UtcDay(q.later), true), d);
    }
  }

  /** The two forms answer alike, and stay alike unless a mail fails on a later day than its request's. */
  lemma RequestAgreesIff(l: Limits, e: Option<MemEntry>, r: RedisKeys, q: Request)
    requires Same(e, r, UtcDay(q.now)) && q.now <= q.later
    ensures MemRequest(l, e, q).1 == RedisRequest(l, r, q).1
    ensures Same(MemRequest(l, e, q).0, RedisRequest(l, r, q).0, UtcDay(q.later))
       <==> MemRequest(l, e, q).1 != Accepted || q.sent || UtcDay(q.later) == UtcDay(q.now)
  {
    var today, last := UtcDay(q.now), UtcDay(q.later);
    DaysPass(q.now, q.later);
    if Cool(r.coolUntil, q.now) {
      SameLater(e, r, today, last);
    } else {
      forall d
        ensures Counter(RedisRequest(l, r, q).0.quota, d) == Counter(r.quota, d)
             + (if RedisRequest(l, r, q).1 == Accepted && today == d then 1 else 0)
             - (if RedisRequest(l, r, q).1 == Accepted && !q.sent && last == d then 1 else 0)
      {
        RedisCounts(l, r, q, d);
      }
      RedisCounts(l, r, q, today);
      var e', r' := MemRequest(l, e, q).0, RedisRequest(l, r, q).0;
      assert last > today ==> Counter(r.quota, last) == 0;
      assert Entry(e').dailyDay == Some(today);
      if MemRequest(l, e, q).1 != Accepted || q.sent || last == today {
        forall d | d >= last
          ensures Counter(r'.quota, d) == if Entry(e').dailyDay == Some(d) then Entry(e').dailyCount else 0
        {
          assert Counter(r.quota, d) == if Entry(e).dailyDay == Some(d) then Entry(e).dailyCount else 0;
        }
      }
    }
  }

  function MemRun(l: Limits, e: Option<MemEntry>, run: seq<Request>): (Option<MemEntry>, seq<Answer>)
    decreases run
  {
    if run == [] then (e, [])
    else
      var (e1, answer) := MemRequest(l, e, run[0]);
      var (e2, answers) := MemRun(l, e1, run[1..]);
      (e2, [answer] + answers)
  }

  function RedisRun(l: Limits, r: RedisKeys, run: seq<Request>): (RedisKeys, seq<Answer>)
    decreases run
  {
    if run == [] then (r, [])
    else
      var (r1, answer) := RedisRequest(l, r, run[0]);
      var (r2, answers) := RedisRun(l, r1, run[1..]);
      (r2, [answer] + answers)
  }

  /** One request after the other, and no failed mail ends on a later day. */
  ghost predicate InTurn(run: seq<Request>, start: int) {
    run == []
    || (start <= run[0].now <= run[0].later && (run[0].sent || UtcDay(run[0].later) == UtcDay(run[0].now))
        && InTurn(run[1..], run[0].later))
  }

  /** Over every such run the two forms give the same answers. */
  lemma {:induction false} RunsAgree(l: Limits, e: Option<MemEntry>, r: RedisKeys, run: seq<Request>, start: int)
    requires Same(e, r, UtcDay(start)) && InTurn(run, start)
    ensures MemRun(l, e, run).1 == RedisRun(l, r, run).1
    decreases run
  {
    if run != [] {
      var q := run[0];
      DaysPass(start, q.now);
      SameLater(e, r, UtcDay(start), UtcDay(q.now));
      RequestAgreesIff(l, e, r, q);
      RunsAgree(l, MemRequest(l, e, q).0, RedisRequest(l, r, q).0, run[1..], q.later);
    }
  }

  /** In particular from empty stores. */
  lemma RunsAgreeFromEmpty(l: Limits, run: seq<Request>, start: int)
    requires InTurn(run, start)
    ensures MemRun(l, None, run).1 == RedisRun(l, RedisKeys(None, INITIAL), run).1
  {
    EmptyStoresAreSame(UtcDay(start));
    RunsAgree(l, None, RedisKeys(None, INITIAL), run, start);
  }

  lemma EmptyStoresAreSame(day: Day)
    ensures Same(None, RedisKeys(None, INITIAL), day)
  {
  }
}
