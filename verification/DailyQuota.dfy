/**
 The daily quota of verification mails for one address and purpose, in Redis. A sender
 checks the cooldown, increments the day's counter, and takes the increment back if it
 went over the limit; if the mail then fails it gives its slot back. Every command is a
 step of its own, so any number of senders interleave. A sender's day is that of the time
 it read first, so its increment can land after that day's counter has expired.
 */
module DailyQuota {

  type Day = int

  /** Where a sender is. The days are those of the keys it uses. */
  datatype Phase =
    | Checked(day: Day)
    | Rejected(day: Day)
    | Reserved(day: Day)
    | Sent(day: Day)
    | Lost(day: Day)
    | RolledBack(day: Day, into: Day)
    | Left

  /** counters: a missing key counts 0. gone: the days whose counter has expired. */
  datatype State = State(counters: map<Day, int>, senders: seq<Phase>, gone: set<Day>)

  /**
   ok is whether the command takes effect. An increment whose reply is lost takes effect
   unknown to its sender, which gives up; a lost decrement leaves the counter up.
   */
  datatype Step =
    | Precheck(day: Day)
    | Increment(p: nat)
    | IncrementUnanswered(p: nat)
    | TakeBack(p: nat, ok: bool)
    | Commit(p: nat)
    | Rollback(p: nat, today: Day, ok: bool)
    | Expired(day: Day)

  const INITIAL := State(map[], [], {})

  function Counter(s: State, d: Day): int {
    if d in s.counters then s.counters[d] else 0
  }

  function Add(s: State, d: Day, n: int): State {
    s.(counters := s.counters[d := Counter(s, d) + n])
  }

  function Become(s: State, p: nat, phase: Phase): State
    requires p < |s.senders|
  {
    s.(senders := s.senders[p := phase])
  }

  predicate Legal(s: State, step: Step) {
    match step
    case Precheck(_) => true
    case Increment(p) => p < |s.senders| && s.senders[p].Checked?
    case IncrementUnanswered(p) => p < |s.senders| && s.senders[p].Checked?
    case TakeBack(p, _) => p < |s.senders| && s.senders[p].Rejected?
    case Commit(p) => p < |s.senders| && s.senders[p].Reserved?
    case Rollback(p, _, _) => p < |s.senders| && s.senders[p].Reserved?
    case Expired(day) => day in s.counters
  }

  function Do(limit: int, s: State, step: Step): State
    requires Legal(s, step)
  {
    match step
    case Precheck(day) => s.(senders := s.senders + [Checked(day)])
    case Increment(p) =>
      var d := s.senders[p].day;
      Become(Add(s, d, 1), p, if Counter(s, d) + 1 > limit then Rejected(d) else Reserved(d))
    case IncrementUnanswered(p) =>
      var d := s.senders[p].day;
      Become(Add(s, d, 1), p, Lost(d))
    case TakeBack(p, ok) =>
      var d := s.senders[p].day;
      if ok then Become(Add(s, d, -1), p, Left) else Become(s, p, Lost(d))
    case Commit(p) => Become(s, p, Sent(s.senders[p].day))
    case Rollback(p, today, ok) =>
      var d := s.senders[p].day;
      if ok then Become(Add(s, today, -1), p, RolledBack(d, today)) else Become(s, p, Lost(d))
    case Expired(day) => s.(counters := s.counters - {day}, gone := s.gone + {day})
  }

  ghost predicate LegalRun(limit: int, s: State, run: seq<Step>)
    decreases run
  {
    run == [] || (Legal(s, run[0]) && LegalRun(limit, Do(limit, s, run[0]), run[1..]))
  }

  function Run(limit: int, s: State, run: seq<Step>): State
    requires LegalRun(limit, s, run)
    decreases run
  {
    if run == [] then s else Run(limit, Do(limit, s, run[0]), run[1..])
  }

  // ---------------------------------------------------------------- counting senders

  /** A slot of the day in use: reserved or spent on a mail. */
  predicate Live(f: Phase, d: Day) {
    f == Reserved(d) || f == Sent(d)
  }

  /** Counted without a slot: a rejected increment before its decrement, or one nobody takes back. */
  predicate Surplus(f: Phase, d: Day) {
    f == Rejected(d) || f == Lost(d)
  }

  /** A slot given back to another day, by its own day and by the other. */
  predicate GivenAway(f: Phase, d: Day) {
    f.RolledBack? && f.day == d && f.into != d
  }

  predicate Received(f: Phase, d: Day) {
    f.RolledBack? && f.into == d && f.day != d
  }

  function One(b: bool): nat {
    if b then 1 else 0
  }

  function LiveCount(fs: seq<Phase>, d: Day): nat {
    if fs == [] then 0 else LiveCount(fs[..|fs| - 1], d) + One(Live(fs[|fs| - 1], d))
  }

  function SurplusCount(fs: seq<Phase>, d: Day): nat {
    if fs == [] then 0 else SurplusCount(fs[..|fs| - 1], d) + One(Surplus(fs[|fs| - 1], d))
  }

  function GivenAwayCount(fs: seq<Phase>, d: Day): nat {
    if fs == [] then 0 else GivenAwayCount(fs[..|fs| - 1], d) + One(GivenAway(fs[|fs| - 1], d))
  }

  function ReceivedCount(fs: seq<Phase>, d: Day): nat {
    if fs == [] then 0 else ReceivedCount(fs[..|fs| - 1], d) + One(Received(fs[|fs| - 1], d))
  }

  /** One sender moves on: each count changes by what it was and what it is. */
  lemma {:induction false} CountsMove(fs: seq<Phase>, p: nat, f: Phase, d: Day)
    requires p < |fs|
    ensures var fs' := fs[p := f];
      && LiveCount(fs', d) == LiveCount(fs, d) - One(Live(fs[p], d)) + One(Live(f, d))
      && SurplusCount(fs', d) == SurplusCount(fs, d) - One(Surplus(fs[p], d)) + One(Surplus(f, d))
      && GivenAwayCount(fs', d) == GivenAwayCount(fs, d) - One(GivenAway(fs[p], d)) + One(GivenAway(f, d))
      && ReceivedCount(fs', d) == ReceivedCount(fs, d) - One(Received(fs[p], d)) + One(Received(f, d))
  {
    var n := |fs| - 1;
    if p < n {
      CountsMove(fs[..n], p, f, d);
      assert fs[p := f][..n] == fs[..n][p := f];
    } else {
      assert fs[p := f][..n] == fs[..n];
    }
  }

  lemma CountsGrow(fs: seq<Phase>, f: Phase, d: Day)
    ensures var fs' := fs + [f];
      && LiveCount(fs', d) == LiveCount(fs, d) + One(Live(f, d))
      && SurplusCount(fs', d) == SurplusCount(fs, d) + One(Surplus(f, d))
      && GivenAwayCount(fs', d) == GivenAwayCount(fs, d) + One(GivenAway(f, d))
      && ReceivedCount(fs', d) == ReceivedCount(fs, d) + One(Received(f, d))
  {
    assert (fs + [f])[..|fs|] == fs;
  }

  // ---------------------------------------------------------------- what every run keeps

  /** The counter is the slots in use and the surplus, off by what crossed midnight. */
  predicate Balanced(s: State, d: Day) {
    Counter(s, d) == LiveCount(s.senders, d) + SurplusCount(s.senders, d)
                   + GivenAwayCount(s.senders, d) - ReceivedCount(s.senders, d)
  }

  predicate Within(bound: int, s: State, d: Day) {
    LiveCount(s.senders, d) + GivenAwayCount(s.senders, d) <= bound + ReceivedCount(s.senders, d)
  }

  /** The day's counter balances until it expires, and so many slots are in use at most. */
  predicate Kept(bound: int, s: State, d: Day) {
    (d in s.gone || Balanced(s, d)) && Within(bound, s, d)
  }

  /** A rollback is on the day of its precheck. */
  predicate SameDay(s: State, step: Step)
    requires Legal(s, step)
  {
    step.Rollback? && step.ok ==> step.today == s.senders[step.p].day
  }

  /** An increment of a day whose counter has expired. */
  predicate Late(s: State, step: Step, d: Day)
    requires Legal(s, step)
  {
    (step.Increment? || step.IncrementUnanswered?) && s.senders[step.p].day == d && d in s.gone
  }

  /** What one command adds to a day's counter. */
  function Added(s: State, step: Step, d: Day): int
    requires Legal(s, step)
  {
    match step
    case Increment(p) => One(s.senders[p].day == d)
    case IncrementUnanswered(p) => One(s.senders[p].day == d)
    case TakeBack(p, ok) => 0 - One(ok && s.senders[p].day == d)
    case Rollback(p, today, ok) => 0 - One(ok && today == d)
    case Expired(day) => if day == d then 0 - Counter(s, d) else 0
    case _ => 0
  }

  lemma CounterMoves(limit: int, s: State, step: Step, d: Day)
    requires Legal(s, step)
    ensures Counter(Do(limit, s, step), d) == Counter(s, d) + Added(s, step, d)
  {
  }

  /** How a sender's new place accounts for what its command did to the counter. */
  lemma PlaceMoves(limit: int, s: State, step: Step, d: Day)
    requires Legal(s, step) && !step.Precheck? && !step.Expired?
    ensures var (f, f') := (s.senders[step.p], Do(limit, s, step).senders[step.p]);
      && Do(limit, s, step).senders == s.senders[step.p := f']
      && Added(s, step, d) == One(Live(f', d)) + One(Surplus(f', d)) + One(GivenAway(f', d)) - One(Received(f', d))
                            - One(Live(f, d)) - One(Surplus(f, d))
      && !GivenAway(f, d) && !Received(f, d)
      && (Live(f', d) && !Live(f, d) ==> Counter(s, d) + 1 <= limit && Added(s, step, d) == 1)
      && (GivenAway(f', d) ==> Live(f, d) && !Live(f', d))
      && (GivenAway(f', d) || Received(f', d) ==> !SameDay(s, step))
      && (Live(f', d) && !Live(f, d) && d in s.gone ==> Late(s, step, d))
      && Do(limit, s, step).gone == s.gone
  {
  }

  lemma PrecheckMoves(limit: int, s: State, step: Step, d: Day)
    requires step.Precheck?
    ensures Do(limit, s, step).senders == s.senders + [Checked(step.day)] && Added(s, step, d) == 0
    ensures Do(limit, s, step).gone == s.gone && SameDay(s, step)
    ensures var f := Checked(step.day); !Live(f, d) && !Surplus(f, d) && !GivenAway(f, d) && !Received(f, d)
  {
  }

  lemma ExpiryMoves(limit: int, s: State, step: Step, d: Day)
    requires Legal(s, step) && step.Expired?
    ensures Do(limit, s, step).senders == s.senders && SameDay(s, step)
    ensures Do(limit, s, step).gone == s.gone + {step.day} && (step.day != d ==> Added(s, step, d) == 0)
  {
  }

  lemma SenderKeeps(limit: int, bound: int, s: State, step: Step, d: Day)
    requires Legal(s, step) && !step.Precheck? && !step.Expired?
    requires Kept(bound, s, d) && limit <= bound
    ensures Kept(bound + One(Late(s, step, d)), Do(limit, s, step), d)
  {
    hide Do, Counter, Added, Late, SameDay, Live, Surplus, GivenAway, Received;
    hide LiveCount, SurplusCount, GivenAwayCount, ReceivedCount;
    CounterMoves(limit, s, step, d);
    PlaceMoves(limit, s, step, d);
    CountsMove(s.senders, step.p, Do(limit, s, step).senders[step.p], d);
  }

  /** Until the counter expires it balances; the bound on slots in use gives way to late increments only. */
  lemma StepKeeps(limit: int, bound: int, s: State, step: Step, d: Day)
    requires Legal(s, step) && Kept(bound, s, d) && limit <= bound
    ensures Kept(bound + One(Late(s, step, d)), Do(limit, s, step), d)
  {
    hide Do, Counter, Added, Late, SameDay, Live, Surplus, GivenAway, Received;
    hide LiveCount, SurplusCount, GivenAwayCount, ReceivedCount;
    if step.Precheck? {
      CounterMoves(limit, s, step, d);
      PrecheckMoves(limit, s, step, d);
      CountsGrow(s.senders, Checked(step.day), d);
    } else if step.Expired? {
      CounterMoves(limit, s, step, d);
      ExpiryMoves(limit, s, step, d);
    } else {
      hide Kept;
      SenderKeeps(limit, bound, s, step, d);
    }
  }

  /** How many increments of day d in a run come after its counter has expired. */
  ghost function Lates(limit: int, s: State, run: seq<Step>, d: Day): nat
    requires LegalRun(limit, s, run)
    decreases run
  {
    if run == [] then 0 else One(Late(s, run[0], d)) + Lates(limit, Do(limit, s, run[0]), run[1..], d)
  }

  lemma {:induction false} RunKeeps(limit: int, bound: int, s: State, run: seq<Step>, d: Day)
    requires LegalRun(limit, s, run) && Kept(bound, s, d) && limit <= bound
    ensures Kept(bound + Lates(limit, s, run, d), Run(limit, s, run), d)
    decreases run
  {
    hide Legal, Do, Late, Kept;
    if run != [] {
      StepKeeps(limit, bound, s, run[0], d);
      RunKeeps(limit, bound + One(Late(s, run[0], d)), Do(limit, s, run[0]), run[1..], d);
    }
  }

  /** In every interleaving, more slots than the limit come only from other days' rollbacks and late increments. */
  lemma OverLimitOnlyByReceivingOrLate(limit: nat, run: seq<Step>, d: Day)
    requires LegalRun(limit, INITIAL, run)
    ensures var s := Run(limit, INITIAL, run);
      && LiveCount(s.senders, d) <= limit + ReceivedCount(s.senders, d) + Lates(limit, INITIAL, run, d)
      && (d !in s.gone ==> Balanced(s, d))
  {
    RunKeeps(limit, limit, INITIAL, run, d);
  }

  // ---------------------------------------------------------------- when nothing crosses midnight

  /** How many rollbacks of a run land on another day than their precheck's. */
  ghost function Crossings(limit: int, s: State, run: seq<Step>): nat
    requires LegalRun(limit, s, run)
    decreases run
  {
    if run == [] then 0 else One(!SameDay(s, run[0])) + Crossings(limit, Do(limit, s, run[0]), run[1..])
  }

  lemma StepCrosses(limit: int, s: State, step: Step, d: Day)
    requires Legal(s, step)
    ensures var s' := Do(limit, s, step);
      && ReceivedCount(s'.senders, d) <= ReceivedCount(s.senders, d) + One(!SameDay(s, step))
      && GivenAwayCount(s'.senders, d) <= GivenAwayCount(s.senders, d) + One(!SameDay(s, step))
  {
    hide Do, Counter, Added, Late, SameDay, Live, Surplus, GivenAway, Received;
    hide LiveCount, SurplusCount, GivenAwayCount, ReceivedCount;
    match step
    case Precheck(day) =>
      PrecheckMoves(limit, s, step, d);
      CountsGrow(s.senders, Checked(day), d);
    case Expired(_) => ExpiryMoves(limit, s, step, d);
    case _ =>
      PlaceMoves(limit, s, step, d);
      CountsMove(s.senders, step.p, Do(limit, s, step).senders[step.p], d);
  }

  lemma {:induction false} CountsAreCrossings(limit: int, s: State, run: seq<Step>, d: Day)
    requires LegalRun(limit, s, run)
    ensures var s' := Run(limit, s, run);
      && ReceivedCount(s'.senders, d) <= ReceivedCount(s.senders, d) + Crossings(limit, s, run)
      && GivenAwayCount(s'.senders, d) <= GivenAwayCount(s.senders, d) + Crossings(limit, s, run)
    decreases run
  {
    hide Legal, Do, SameDay, ReceivedCount, GivenAwayCount;
    if run != [] {
      StepCrosses(limit, s, run[0], d);
      CountsAreCrossings(limit, Do(limit, s, run[0]), run[1..], d);
    }
  }

  /**
   With every rollback on its own day, a day whose counter is not incremented after it expired
   keeps its limit, whatever commands get lost.
   */
  lemma LimitHoldsSameDay(limit: nat, run: seq<Step>, d: Day)
    requires LegalRun(limit, INITIAL, run) && Crossings(limit, INITIAL, run) == 0
    ensures var s := Run(limit, INITIAL, run);
      && (Lates(limit, INITIAL, run, d) == 0 ==> LiveCount(s.senders, d) <= limit)
      && (d !in s.gone ==> Counter(s, d) == LiveCount(s.senders, d) + SurplusCount(s.senders, d))
  {
    OverLimitOnlyByReceivingOrLate(limit, run, d);
    CountsAreCrossings(limit, INITIAL, run, d);
  }

  /** Every command takes effect and its sender knows. */
  predicate Answered(step: Step) {
    match step
    case IncrementUnanswered(_) => false
    case TakeBack(_, ok) => ok
    case Rollback(_, _, ok) => ok
    case _ => true
  }

  function RejectedCount(fs: seq<Phase>, d: Day): nat {
    if fs == [] then 0 else RejectedCount(fs[..|fs| - 1], d) + One(fs[|fs| - 1] == Rejected(d))
  }

  ghost predicate NothingLost(fs: seq<Phase>) {
    forall i :: 0 <= i < |fs| ==> !fs[i].Lost?
  }

  lemma {:induction false} NothingLostCounts(fs: seq<Phase>, d: Day)
    requires NothingLost(fs)
    ensures SurplusCount(fs, d) == RejectedCount(fs, d)
  {
    if fs != [] { NothingLostCounts(fs[..|fs| - 1], d); }
  }

  lemma {:induction false} AnsweredRunsLoseNothing(limit: int, s: State, run: seq<Step>)
    requires LegalRun(limit, s, run) && NothingLost(s.senders) && forall i :: 0 <= i < |run| ==> Answered(run[i])
    ensures NothingLost(Run(limit, s, run).senders)
    decreases run
  {
    if run != [] {
      assert Answered(run[0]);
      AnsweredRunsLoseNothing(limit, Do(limit, s, run[0]), run[1..]);
    }
  }

  /** If commands also succeed, a counter not yet expired is the slots in use and the increments about to be taken back. */
  lemma CounterIsExact(limit: nat, run: seq<Step>, d: Day)
    requires LegalRun(limit, INITIAL, run) && Crossings(limit, INITIAL, run) == 0
    requires forall i :: 0 <= i < |run| ==> Answered(run[i])
    requires d !in Run(limit, INITIAL, run).gone
    ensures var s := Run(limit, INITIAL, run);
      Counter(s, d) == LiveCount(s.senders, d) + RejectedCount(s.senders, d)
  {
    LimitHoldsSameDay(limit, run, d);
    AnsweredRunsLoseNothing(limit, INITIAL, run);
    NothingLostCounts(Run(limit, INITIAL, run).senders, d);
  }

  /** Then the next increment gets a slot iff slots in use and increments about to be taken back leave room. */
  lemma AcceptedIff(limit: nat, run: seq<Step>, p: nat)
    requires LegalRun(limit, INITIAL, run) && Crossings(limit, INITIAL, run) == 0
    requires forall i :: 0 <= i < |run| ==> Answered(run[i])
    requires var s := Run(limit, INITIAL, run); Legal(s, Increment(p)) && s.senders[p].day !in s.gone
    ensures var s := Run(limit, INITIAL, run);
      var d := s.senders[p].day;
      Do(limit, s, Increment(p)).senders[p] == Reserved(d)
      <==> LiveCount(s.senders, d) + RejectedCount(s.senders, d) < limit
  {
    CounterIsExact(limit, run, Run(limit, INITIAL, run).senders[p].day);
  }

  // ---------------------------------------------------------------- when a rollback crosses midnight, or an increment is late

  /** k senders, numbered from p, that take a slot each. */
  function Accepts(d: Day, p: nat, k: nat): seq<Step>
    decreases k
  {
    if k == 0 then [] else [Precheck(d), Increment(p)] + Accepts(d, p + 1, k - 1)
  }

  /** A legal run whose effect, crossings and late increments of day e are these. */
  ghost predicate Leads(limit: int, s: State, run: seq<Step>, s': State, crossings: nat, e: Day, lates: nat) {
    && LegalRun(limit, s, run) && Run(limit, s, run) == s'
    && Crossings(limit, s, run) == crossings && Lates(limit, s, run, e) == lates
  }

  lemma {:induction false} Joined(limit: int, s: State, a: seq<Step>, s1: State, b: seq<Step>, s2: State,
                                  e: Day, c1: nat, c2: nat, l1: nat, l2: nat)
    requires Leads(limit, s, a, s1, c1, e, l1) && Leads(limit, s1, b, s2, c2, e, l2)
    ensures Leads(limit, s, a + b, s2, c1 + c2, e, l1 + l2)
    decreases a
  {
    hide Legal, Do, SameDay, Late;
    if a == [] {
      assert a + b == b;
    } else {
      assert (a + b)[0] == a[0] && (a + b)[1..] == a[1..] + b;
      var (c, l) := (One(!SameDay(s, a[0])), One(Late(s, a[0], e)));
      Joined(limit, Do(limit, s, a[0]), a[1..], s1, b, s2, e, c1 - c, c2, l1 - l, l2);
    }
  }

  lemma OneStep(limit: int, s: State, step: Step, e: Day)
    requires Legal(s, step)
    ensures Leads(limit, s, [step], Do(limit, s, step), One(!SameDay(s, step)), e, One(Late(s, step, e)))
  {
    hide Legal, Do, SameDay, Late;
    var s', none: seq<Step> := Do(limit, s, step), [];
    assert [step][1..] == none && LegalRun(limit, s', none) && LegalRun(limit, s, [step]);
    assert Run(limit, s', none) == s' && Crossings(limit, s', none) == 0 && Lates(limit, s', none, e) == 0;
  }

  /** One sender takes a slot. */
  lemma TakesSlot(limit: nat, s: State, d: Day, e: Day) returns (s2: State)
    requires Counter(s, d) < limit && s.gone == {}
    ensures Leads(limit, s, [Precheck(d), Increment(|s.senders|)], s2, 0, e, 0)
    ensures s2 == Add(s, d, 1).(senders := s.senders + [Reserved(d)])
  {
    var p := |s.senders|;
    var s1 := Do(limit, s, Precheck(d));
    s2 := Do(limit, s1, Increment(p));
    OneStep(limit, s, Precheck(d), e);
    OneStep(limit, s1, Increment(p), e);
    Joined(limit, s, [Precheck(d)], s1, [Increment(p)], s2, e, 0, 0, 0, 0);
    assert [Precheck(d)] + [Increment(p)] == [Precheck(d), Increment(p)];
  }

  lemma {:induction false} AcceptsFit(limit: nat, s: State, d: Day, k: nat) returns (s': State)
    requires Counter(s, d) + k <= limit && s.gone == {}
    ensures Leads(limit, s, Accepts(d, |s.senders|, k), s', 0, d, 0)
    ensures |s'.senders| == |s.senders| + k && (k > 0 || d in s.counters ==> d in s'.counters)
    ensures LiveCount(s'.senders, d) == LiveCount(s.senders, d) + k
    decreases k
  {
    if k == 0 {
      s' := s;
    } else {
      var s2 := TakesSlot(limit, s, d, d);
      CountsGrow(s.senders, Reserved(d), d);
      assert Counter(s2, d) == Counter(s, d) + 1;
      hide Leads, LiveCount, Counter;
      s' := AcceptsFit(limit, s2, d, k - 1);
      Joined(limit, s, [Precheck(d), Increment(|s.senders|)], s2, Accepts(d, |s.senders| + 1, k - 1), s', d, 0, 0, 0, 0);
    }
  }

  /** One slot taken on day d and given back on day 1. */
  function GivesBack(d: Day, p: nat): seq<Step> {
    [Precheck(d), Increment(p)] + [Rollback(p, 1, true)]
  }

  lemma GivesBackFits(limit: nat, s: State, d: Day)
    requires d != 1 && Counter(s, d) < limit && s.gone == {}
    ensures Leads(limit, s, GivesBack(d, |s.senders|),
                  Add(Add(s, d, 1), 1, -1).(senders := s.senders + [RolledBack(d, 1)]), 1, 1, 0)
  {
    var p := |s.senders|;
    var s2 := TakesSlot(limit, s, d, 1);
    var s3 := Do(limit, s2, Rollback(p, 1, true));
    OneStep(limit, s2, Rollback(p, 1, true), 1);
    assert s3.senders == s.senders + [RolledBack(d, 1)];
    Joined(limit, s, [Precheck(d), Increment(p)], s2, [Rollback(p, 1, true)], s3, 1, 0, 1, 0, 0);
  }

  /** r slots, each taken on an earlier day of its own and given back on day 1. */
  function AllGiveBack(r: nat): seq<Step> {
    if r == 0 then [] else AllGiveBack(r - 1) + GivesBack(1 - r, r - 1)
  }

  /** The state after that: day 1 is r below, and no day before the last one used has a counter. */
  ghost predicate GaveBack(s: State, r: nat) {
    && |s.senders| == r && s.gone == {} && LiveCount(s.senders, 1) == 0
    && Counter(s, 1) == 0 - r && (forall d :: d <= 0 - r ==> Counter(s, d) == 0)
  }

  lemma GaveBackOneMore(s: State, r: nat)
    requires r > 0 && GaveBack(s, r - 1)
    ensures GaveBack(Add(Add(s, 1 - r, 1), 1, -1).(senders := s.senders + [RolledBack(1 - r, 1)]), r)
  {
    var s' := Add(Add(s, 1 - r, 1), 1, -1).(senders := s.senders + [RolledBack(1 - r, 1)]);
    assert Counter(s', 1) == Counter(s, 1) - 1 && forall d :: d <= 0 - r ==> Counter(s', d) == Counter(s, d);
    CountsGrow(s.senders, RolledBack(1 - r, 1), 1);
  }

  lemma {:induction false} AllGiveBackFits(limit: nat, r: nat) returns (s: State)
    requires limit > 0
    ensures Leads(limit, INITIAL, AllGiveBack(r), s, r, 1, 0) && GaveBack(s, r)
  {
    if r == 0 {
      s := INITIAL;
    } else {
      var s0 := AllGiveBackFits(limit, r - 1);
      assert |s0.senders| == r - 1 && Counter(s0, 1 - r) == 0 && s0.gone == {};
      hide Leads, GaveBack, Counter, Add;
      GivesBackFits(limit, s0, 1 - r);
      GaveBackOneMore(s0, r);
      s := Add(Add(s0, 1 - r, 1), 1, -1).(senders := s0.senders + [RolledBack(1 - r, 1)]);
      Joined(limit, INITIAL, AllGiveBack(r - 1), s0, GivesBack(1 - r, r - 1), s, 1, r - 1, 1, 0, 0);
    }
  }

  /** k senders, numbered from p, that read the day, wait until its counter expires, and then increment it. */
  function LateAccepts(d: Day, p: nat, k: nat): seq<Step>
    decreases k
  {
    if k == 0 then [] else [Precheck(d), Expired(d)] + [Increment(p)] + LateAccepts(d, p + 1, k - 1)
  }

  /** However many slots are in use, the counter starts again at 1. */
  lemma TakesSlotLate(limit: nat, s: State, d: Day) returns (s3: State)
    requires limit > 0 && d in s.counters
    ensures Leads(limit, s, [Precheck(d), Expired(d)] + [Increment(|s.senders|)], s3, 0, d, 1)
    ensures d in s3.counters && s3.senders == s.senders + [Reserved(d)]
  {
    var p := |s.senders|;
    var s1 := Do(limit, s, Precheck(d));
    var s2 := Do(limit, s1, Expired(d));
    s3 := Do(limit, s2, Increment(p));
    OneStep(limit, s, Precheck(d), d);
    OneStep(limit, s1, Expired(d), d);
    OneStep(limit, s2, Increment(p), d);
    assert Late(s2, Increment(p), d);
    hide Leads;
    Joined(limit, s, [Precheck(d)], s1, [Expired(d)], s2, d, 0, 0, 0, 0);
    assert [Precheck(d)] + [Expired(d)] == [Precheck(d), Expired(d)];
    Joined(limit, s, [Precheck(d), Expired(d)], s2, [Increment(p)], s3, d, 0, 0, 0, 1);
  }

  lemma {:induction false} LateAcceptsFit(limit: nat, s: State, d: Day, k: nat) returns (s': State)
    requires limit > 0 && d in s.counters
    ensures Leads(limit, s, LateAccepts(d, |s.senders|, k), s', 0, d, k)
    ensures LiveCount(s'.senders, d) == LiveCount(s.senders, d) + k
    decreases k
  {
    if k == 0 {
      s' := s;
    } else {
      var p := |s.senders|;
      var s3 := TakesSlotLate(limit, s, d);
      CountsGrow(s.senders, Reserved(d), d);
      hide Leads, LiveCount;
      s' := LateAcceptsFit(limit, s3, d, k - 1);
      Joined(limit, s, [Precheck(d), Expired(d)] + [Increment(p)], s3, LateAccepts(d, p + 1, k - 1), s', d, 0, 0, 1, k - 1);
    }
  }

  /** r slots given back on day 1 by earlier ones, as many taken there as the counter allows, and q taken late. */
  function Overnight(limit: nat, r: nat, q: nat): seq<Step> {
    AllGiveBack(r) + Accepts(1, r, limit + r) + LateAccepts(1, limit + r + r, q)
  }

  /** Each rollback from another day and each late increment lets one more through. */
  lemma BoundIsMet(limit: nat, r: nat, q: nat) returns (s: State)
    requires limit > 0
    ensures Leads(limit, INITIAL, Overnight(limit, r, q), s, r, 1, q) && LiveCount(s.senders, 1) == limit + r + q
  {
    var s1 := AllGiveBackFits(limit, r);
    hide Leads, LiveCount, AllGiveBack, Accepts, LateAccepts;
    var s2 := AcceptsFit(limit, s1, 1, limit + r);
    s := LateAcceptsFit(limit, s2, 1, q);
    Joined(limit, INITIAL, AllGiveBack(r), s1, Accepts(1, r, limit + r), s2, 1, r, 0, 0, 0);
    Joined(limit, INITIAL, AllGiveBack(r) + Accepts(1, r, limit + r), s2, LateAccepts(1, limit + r + r, q), s, 1, r, 0, 0, q);
  }

  /** The rollback reads the clock again: given back after midnight, a slot lets one too many through. */
  lemma RollbackAfterMidnightBreaksTheLimit(limit: nat)
    requires limit > 0
    ensures LegalRun(limit, INITIAL, Overnight(limit, 1, 0))
    ensures LiveCount(Run(limit, INITIAL, Overnight(limit, 1, 0)).senders, 1) == limit + 1
  {
    var s := BoundIsMet(limit, 1, 0);
  }

  /** The increment does not: after midnight it finds no counter, and one too many is let through. */
  lemma LateIncrementBreaksTheLimit(limit: nat)
    requires limit > 0
    ensures LegalRun(limit, INITIAL, Overnight(limit, 0, 1)) && Crossings(limit, INITIAL, Overnight(limit, 0, 1)) == 0
    ensures LiveCount(Run(limit, INITIAL, Overnight(limit, 0, 1)).senders, 1) == limit + 1
  {
    var s := BoundIsMet(limit, 0, 1);
  }

  ghost predicate Few(limit: int, run: seq<Step>, d: Day, r: nat, q: nat) {
    LegalRun(limit, INITIAL, run) && Crossings(limit, INITIAL, run) <= r && Lates(limit, INITIAL, run, d) <= q
  }

  predicate AtMost(bound: int, s: State, d: Day) {
    LiveCount(s.senders, d) <= bound
  }

  /**
   At most this many slots of any day are in use, over every run with at most r rollbacks that
   land on another day and at most q increments of the day after its counter expired.
   */
  ghost predicate KeepsBound(limit: int, r: nat, q: nat, bound: int) {
    forall run, d :: Few(limit, run, d, r, q) ==> AtMost(bound, Run(limit, INITIAL, run), d)
  }

  /** The least such number is limit + r + q. */
  lemma KeepsBoundIff(limit: nat, r: nat, q: nat, bound: int)
    requires limit > 0
    ensures KeepsBound(limit, r, q, bound) <==> limit + r + q <= bound
  {
    if limit + r + q <= bound {
      forall run, d | Few(limit, run, d, r, q) ensures AtMost(bound, Run(limit, INITIAL, run), d) {
        OverLimitOnlyByReceivingOrLate(limit, run, d);
        CountsAreCrossings(limit, INITIAL, run, d);
      }
    } else {
      var s := BoundIsMet(limit, r, q);
      var run := Overnight(limit, r, q);
      assert Few(limit, run, 1, r, q) && !AtMost(bound, Run(limit, INITIAL, run), 1);
    }
  }

  /** So the daily limit is kept exactly where neither happens. */
  lemma KeepsLimitIffOnTime(limit: nat, r: nat, q: nat)
    requires limit > 0
    ensures KeepsBound(limit, r, q, limit) <==> r == 0 && q == 0
  {
    KeepsBoundIff(limit, r, q, limit);
  }
}
