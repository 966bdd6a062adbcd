/**
 The pending maximum under concurrency: a bound for k sends at a time, a run that meets it,
 and hence when the maximum is kept.
 */
module ChatOverflow {
  import opened Common
  import opened ChatStore
  import opened ChatOutbox
  import SortedSet

  // ---------------------------------------------------------------- the pending bound

  /** Senders that got past the pending-count check. */
  ghost function PastCheck(s: State): set<nat> {
    set p | p in s.senders && !s.senders[p].Checking?
  }

  ghost predicate AtMostConcurrent(cfg: Limits, k: nat, s: State, steps: seq<Step>)
    requires Legal(cfg, s, steps)
    decreases |steps|
  {
    |s.senders.Keys| <= k && (steps == [] || AtMostConcurrent(cfg, k, Execute(cfg, s, steps[0]), steps[1..]))
  }

  /** A sender enters the group past the check only by passing it, and leaves it when it enqueues. */
  lemma PastCheckAfter(cfg: Limits, s: State, step: Step)
    requires Enabled(cfg, s, step)
    ensures var s' := Execute(cfg, s, step);
      && PastCheck(s') <= s'.senders.Keys
      && (step.Enqueue? ==> PastCheck(s') == PastCheck(s) - {step.p} && step.p in PastCheck(s))
      && (!step.Enqueue? && !(step.CheckPending? && |s.chat.pending| < cfg.pendingMax) ==>
            PastCheck(s') <= PastCheck(s))
  {
  }

  lemma PendingAfter(cfg: Limits, s: State, step: Step)
    requires Inv(s) && Enabled(cfg, s, step)
    ensures var s' := Execute(cfg, s, step);
      |s'.chat.pending| <= |s.chat.pending| + (if step.Enqueue? then 1 else 0)
  {
    if step.Enqueue? {
      SortedSet.AddSpec(s.chat.pending, step.now, s.senders[step.p].id);
    } else if step.Remove? {
      SortedSet.RemSpec(s.chat.pending, s.drainers[step.d].id);
    }
  }

  lemma StepKeepsPendingBound(cfg: Limits, k: nat, s: State, s': State, step: Step)
    requires Inv(s) && Enabled(cfg, s, step) && s' == Execute(cfg, s, step) && cfg.pendingMax > 0
    requires |s'.senders.Keys| <= k
    requires |s.chat.pending| + |PastCheck(s)| <= cfg.pendingMax - 1 + k
    ensures |s'.chat.pending| + |PastCheck(s')| <= cfg.pendingMax - 1 + k
  {
    PastCheckAfter(cfg, s, step);
    PendingAfter(cfg, s, step);
    var before, after, keys, pending, pending' :=
      PastCheck(s), PastCheck(s'), s'.senders.Keys, |s.chat.pending|, |s'.chat.pending|;
    if step.Enqueue? {
      assert after == before - {step.p};
    } else if step.CheckPending? && pending < cfg.pendingMax {
      SubsetCardinality(after, keys);
    } else {
      SubsetCardinality(after, before);
    }
  }

  lemma {:induction false} RunKeepsPendingBound(cfg: Limits, k: nat, s: State, steps: seq<Step>)
    requires Inv(s) && Legal(cfg, s, steps) && cfg.pendingMax > 0
    requires AtMostConcurrent(cfg, k, s, steps)
    requires |s.chat.pending| + |PastCheck(s)| <= cfg.pendingMax - 1 + k
    ensures var s' := Run(cfg, s, steps);
      |s'.chat.pending| + |PastCheck(s')| <= cfg.pendingMax - 1 + k
    decreases |steps|
  {
    if steps != [] {
      var s' := Execute(cfg, s, steps[0]);
      StepKeepsInv(cfg, s, s', steps[0]);
      assert AtMostConcurrent(cfg, k, s', steps[1..]);
      StepKeepsPendingBound(cfg, k, s, s', steps[0]);
      RunKeepsPendingBound(cfg, k, s', steps[1..]);
    }
  }

  /**
   With at most k sends at once, pending entries plus sends past the check stay within
   pendingMax - 1 + k; so one send at a time never takes the set past pendingMax.
   */
  lemma PendingBound(cfg: Limits, k: nat, steps: seq<Step>)
    requires Legal(cfg, INIT, steps) && cfg.pendingMax > 0 && AtMostConcurrent(cfg, k, INIT, steps)
    ensures var s := Run(cfg, INIT, steps);
      && |s.chat.pending| + |PastCheck(s)| <= cfg.pendingMax - 1 + k
      && (k <= 1 ==> |s.chat.pending| <= cfg.pendingMax)
  {
    assert PastCheck(INIT) == {};
    RunKeepsPendingBound(cfg, k, INIT, steps);
  }

  // ---------------------------------------------------------------- the bound is met

  /** Some run from the start, never with more than k sends at once, ends in s. */
  ghost predicate ReachesAmong(cfg: Limits, k: nat, s: State) {
    exists steps :: Legal(cfg, INIT, steps) && AtMostConcurrent(cfg, k, INIT, steps) && Run(cfg, INIT, steps) == s
  }

  lemma {:induction false} StaysAmong(cfg: Limits, k: nat, s: State, steps: seq<Step>, step: Step)
    requires Legal(cfg, s, steps) && AtMostConcurrent(cfg, k, s, steps) && Enabled(cfg, Run(cfg, s, steps), step)
    requires |Execute(cfg, Run(cfg, s, steps), step).senders.Keys| <= k
    ensures Legal(cfg, s, steps + [step]) && AtMostConcurrent(cfg, k, s, steps + [step])
    ensures Run(cfg, s, steps + [step]) == Execute(cfg, Run(cfg, s, steps), step)
    decreases |steps|
  {
    hide Enabled, Execute;
    if steps == [] {
      assert (steps + [step])[1..] == [] && (steps + [step])[0] == step;
    } else {
      StaysAmong(cfg, k, Execute(cfg, s, steps[0]), steps[1..], step);
      assert (steps + [step])[1..] == steps[1..] + [step];
    }
  }

  lemma ThenAmong(cfg: Limits, k: nat, s: State, step: Step, s': State)
    requires ReachesAmong(cfg, k, s) && Enabled(cfg, s, step) && s' == Execute(cfg, s, step) && |s'.senders.Keys| <= k
    ensures ReachesAmong(cfg, k, s')
  {
    hide Enabled, Execute;
    var steps :| Legal(cfg, INIT, steps) && AtMostConcurrent(cfg, k, INIT, steps) && Run(cfg, INIT, steps) == s;
    StaysAmong(cfg, k, INIT, steps, step);
  }

  /** Sent as any of the first n messages at this time, the draft is not too long to be stored. */
  ghost predicate Postable(cfg: Limits, draft: ChatMessage, now: int, n: int) {
    forall i: nat :: 0 < i <= n ==> cfg.size(Base(draft, i, now)) <= cfg.payloadMax
  }

  /** No pending id is newer than the stream. */
  ghost predicate ChatOk(c: Chat) {
    SortedSet.Valid(c.pending) && forall m :: m in c.pending ==> m.id <= c.last
  }

  ghost predicate Good(cfg: Limits, k: nat, s: State) {
    ReachesAmong(cfg, k, s) && |s.senders.Keys| <= k && ChatOk(s.chat)
  }

  /** A sender that takes a step without returning. */
  lemma SenderMoves(cfg: Limits, k: nat, s: State, step: Step, s': State, p: nat, at: Sender)
    requires Good(cfg, k, s) && Enabled(cfg, s, step) && s' == Execute(cfg, s, step)
    requires s'.senders == s.senders[p := at] && (p in s.senders || |s.senders.Keys| < k) && ChatOk(s'.chat)
    ensures Good(cfg, k, s')
  {
    hide Enabled, Execute, ChatOk, ReachesAmong;
    assert s'.senders.Keys == s.senders.Keys + {p};
    ThenAmong(cfg, k, s, step, s');
  }

  /** A send up to and past its look at the pending set. */
  lemma StartSend(cfg: Limits, k: nat, s: State, p: nat, draft: ChatMessage) returns (s': State)
    requires Good(cfg, k, s) && p !in s.senders && |s.senders.Keys| < k && |s.chat.pending| < cfg.pendingMax
    ensures Good(cfg, k, s') && s' == s.(senders := s.senders[p := RateLimiting(draft)])
  {
    hide ReachesAmong, ChatOk;
    var s1 := s.(senders := s.senders[p := Checking(draft)]);
    SenderMoves(cfg, k, s, SendBegins(p, draft), s1, p, Checking(draft));
    s' := s.(senders := s.senders[p := RateLimiting(draft)]);
    assert s1.senders[p := RateLimiting(draft)] == s'.senders;
    SenderMoves(cfg, k, s1, CheckPending(p), s', p, RateLimiting(draft));
  }

  lemma LetSend(cfg: Limits, k: nat, s: State, p: nat, draft: ChatMessage) returns (s': State)
    requires Good(cfg, k, s) && p in s.senders && s.senders[p] == RateLimiting(draft)
    ensures Good(cfg, k, s') && s' == s.(senders := s.senders[p := Numbering(draft)])
  {
    hide ReachesAmong, ChatOk;
    s' := s.(senders := s.senders[p := Numbering(draft)]);
    SenderMoves(cfg, k, s, RateAnswer(p, true), s', p, Numbering(draft));
  }

  /** It takes its number. */
  lemma NumberSend(cfg: Limits, k: nat, s: State, p: nat, draft: ChatMessage, now: int) returns (s': State)
    requires Good(cfg, k, s) && p in s.senders && s.senders[p] == Numbering(draft)
    requires Postable(cfg, draft, now, s.chat.counter + 1)
    ensures Good(cfg, k, s')
    ensures s' == s.(senders := s.senders[p := Appending(Base(draft, s.chat.counter + 1, now))],
                     chat := s.chat.(counter := s.chat.counter + 1))
  {
    hide ReachesAmong;
    var base := Base(draft, s.chat.counter + 1, now);
    assert cfg.size(base) <= cfg.payloadMax;
    s' := s.(senders := s.senders[p := Appending(base)], chat := s.chat.(counter := s.chat.counter + 1));
    SenderMoves(cfg, k, s, TakeSeq(p, now), s', p, Appending(base));
  }

  /** It stores its message under a new id, and its publish, if it tries, fails. */
  lemma StoreSend(cfg: Limits, k: nat, s: State, p: nat, base: ChatMessage) returns (s': State)
    requires Good(cfg, k, s) && p in s.senders && s.senders[p] == Appending(base)
    ensures Good(cfg, k, s') && s'.senders == s.senders[p := Enqueuing(base, s.chat.last + 1)]
    ensures s'.chat.pending == s.chat.pending && s'.chat.last == s.chat.last + 1
    ensures s'.chat.counter == s.chat.counter
  {
    hide ReachesAmong;
    var id := s.chat.last + 1;
    var s1 := Execute(cfg, s, Append(p, id, 0));
    SenderMoves(cfg, k, s, Append(p, id, 0), s1, p, s1.senders[p]);
    if s1.senders[p].Publishing? {
      s' := Execute(cfg, s1, Publish(p, false, false));
      SenderMoves(cfg, k, s1, Publish(p, false, false), s', p, Enqueuing(base, id));
    } else {
      s' := s1;
    }
  }

  /** It marks the message pending and returns. */
  lemma DeferSend(cfg: Limits, k: nat, s: State, p: nat, base: ChatMessage) returns (s': State)
    requires Good(cfg, k, s) && p in s.senders && s.senders[p] == Enqueuing(base, s.chat.last)
    requires forall m :: m in s.chat.pending ==> m.id != s.chat.last
    ensures Good(cfg, k, s') && s'.senders == s.senders - {p} && |s'.chat.pending| == |s.chat.pending| + 1
    ensures s'.chat.counter == s.chat.counter
  {
    hide ReachesAmong;
    s' := Execute(cfg, s, Enqueue(p, 0, true));
    assert s'.chat == s.chat.(pending := SortedSet.Add(s.chat.pending, 0, s.chat.last)) && s'.senders == s.senders - {p};
    AddsOne(s.chat, s'.chat);
    hide ChatOk;
    SubsetCardinality(s'.senders.Keys, s.senders.Keys);
    ThenAmong(cfg, k, s, Enqueue(p, 0, true), s');
  }

  lemma AddsOne(c: Chat, c': Chat)
    requires ChatOk(c) && c' == c.(pending := SortedSet.Add(c.pending, 0, c.last))
    requires forall m :: m in c.pending ==> m.id != c.last
    ensures ChatOk(c') && |c'.pending| == |c.pending| + 1
  {
    SortedSet.AddSpec(c.pending, 0, c.last);
  }

  /** A send that is past the check adds one to the pending set. */
  lemma FinishSend(cfg: Limits, k: nat, s: State, p: nat, draft: ChatMessage, now: int) returns (s': State)
    requires Good(cfg, k, s) && p in s.senders && s.senders[p] == RateLimiting(draft)
    requires Postable(cfg, draft, now, s.chat.counter + 1)
    ensures Good(cfg, k, s') && s'.senders == s.senders - {p} && |s'.chat.pending| == |s.chat.pending| + 1
    ensures s'.chat.counter == s.chat.counter + 1
  {
    hide ReachesAmong, Postable;
    var s0 := LetSend(cfg, k, s, p, draft);
    var s1 := NumberSend(cfg, k, s0, p, draft, now);
    var s2 := StoreSend(cfg, k, s1, p, Base(draft, s.chat.counter + 1, now));
    s' := DeferSend(cfg, k, s2, p, Base(draft, s.chat.counter + 1, now));
    assert s2.senders - {p} == s.senders - {p};
  }

  /** n sends, one after the other, all deferred. */
  lemma {:induction false} OneByOne(cfg: Limits, k: nat, draft: ChatMessage, now: int, n: nat) returns (s: State)
    requires k > 0 && n <= cfg.pendingMax && Postable(cfg, draft, now, n)
    ensures Good(cfg, k, s) && s.senders == map[] && |s.chat.pending| == n && s.chat.counter == n
  {
    if n == 0 {
      var none: seq<Step> := [];
      assert Legal(cfg, INIT, none) && AtMostConcurrent(cfg, k, INIT, none) && Run(cfg, INIT, none) == INIT;
      s := INIT;
    } else {
      hide ReachesAmong, ChatOk;
      var s0 := OneByOne(cfg, k, draft, now, n - 1);
      assert s0.senders.Keys == {};
      var s1 := StartSend(cfg, k, s0, 0, draft);
      s := FinishSend(cfg, k, s1, 0, draft, now);
      assert s1.senders - {0} == map[];
    }
  }

  /** Senders 0 .. j - 1, all past the check. */
  function Waiting(draft: ChatMessage, j: nat): map<nat, Sender> {
    if j == 0 then map[] else Waiting(draft, j - 1)[j - 1 := RateLimiting(draft)]
  }

  lemma {:induction false} WaitingKeys(draft: ChatMessage, j: nat)
    ensures |Waiting(draft, j).Keys| == j && forall p :: p in Waiting(draft, j) <==> 0 <= p < j
  {
    if j > 0 {
      WaitingKeys(draft, j - 1);
      assert Waiting(draft, j).Keys == Waiting(draft, j - 1).Keys + {j - 1};
    }
  }

  /** While there is room for one, any number of senders get past the check. */
  lemma {:induction false} AllStart(cfg: Limits, k: nat, s: State, draft: ChatMessage, j: nat) returns (s': State)
    requires Good(cfg, k, s) && s.senders == map[] && |s.chat.pending| < cfg.pendingMax && j <= k
    ensures Good(cfg, k, s') && s' == s.(senders := Waiting(draft, j))
  {
    hide ReachesAmong, ChatOk;
    if j == 0 {
      s' := s;
    } else {
      var s1 := AllStart(cfg, k, s, draft, j - 1);
      WaitingKeys(draft, j - 1);
      s' := StartSend(cfg, k, s1, j - 1, draft);
    }
  }

  lemma {:induction false} AllFinish(cfg: Limits, k: nat, s: State, draft: ChatMessage, now: int, j: nat) returns (s': State)
    requires Good(cfg, k, s) && s.senders == Waiting(draft, j) && Postable(cfg, draft, now, s.chat.counter + j)
    ensures Good(cfg, k, s') && |s'.chat.pending| == |s.chat.pending| + j
    decreases j
  {
    hide Good;
    if j == 0 {
      s' := s;
    } else {
      var s1 := FinishSend(cfg, k, s, j - 1, draft, now);
      WaitingKeys(draft, j - 1);
      assert Waiting(draft, j) - {j - 1} == Waiting(draft, j - 1);
      s' := AllFinish(cfg, k, s1, draft, now, j - 1);
    }
  }

  /** The bound is met: pendingMax - 1 deferred sends in turn, then k that all saw room for one. */
  lemma PendingBoundIsMet(cfg: Limits, k: nat, draft: ChatMessage, now: int) returns (s: State)
    requires k > 0 && cfg.pendingMax > 0 && Postable(cfg, draft, now, cfg.pendingMax - 1 + k)
    ensures ReachesAmong(cfg, k, s) && |s.chat.pending| == cfg.pendingMax - 1 + k
  {
    var s0 := OneByOne(cfg, k, draft, now, cfg.pendingMax - 1);
    var s1 := AllStart(cfg, k, s0, draft, k);
    s := AllFinish(cfg, k, s1, draft, now, k);
  }

  /** What the setting asks for, over every run with at most k sends at once. */
  ghost predicate NeverPastMax(cfg: Limits, k: nat) {
    forall s :: ReachesAmong(cfg, k, s) ==> |s.chat.pending| <= cfg.pendingMax
  }

  /** It gets that for one send at a time, and no more. */
  lemma NeverPastMaxIffOneAtATime(cfg: Limits, k: nat, draft: ChatMessage, now: int)
    requires cfg.pendingMax > 0 && Postable(cfg, draft, now, cfg.pendingMax - 1 + k)
    ensures NeverPastMax(cfg, k) <==> k <= 1
  {
    if k <= 1 {
      forall s | ReachesAmong(cfg, k, s) ensures |s.chat.pending| <= cfg.pendingMax {
        var steps :| Legal(cfg, INIT, steps) && AtMostConcurrent(cfg, k, INIT, steps) && Run(cfg, INIT, steps) == s;
        PendingBound(cfg, k, steps);
      }
    } else {
      var s := PendingBoundIsMet(cfg, k, draft, now);
    }
  }
}
