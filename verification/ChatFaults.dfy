/** Each kind of fault of the chat outbox does lose a message: a run for each. */
module ChatFaults {
  import opened Common
  import opened ChatStore
  import opened ChatOutbox
  import SortedSet

  /** Nobody is at work on it, nobody received it, and no drain will look at it again. */
  ghost predicate Lost(s: State, e: Entry) {
    && e in s.chat.stream && s.senders == map[] && s.drainers == map[]
    && !PublishedAsWritten(s, e) && e.id !in PendingIds(s.chat)
  }

  /** Some run from the start ends in s and commits exactly these faults. */
  ghost predicate Reaches(cfg: Limits, faults: set<Fault>, s: State) {
    exists steps :: Legal(cfg, INIT, steps) && FaultsOf(cfg, INIT, steps) == faults && Run(cfg, INIT, steps) == s
  }

  /** Faults of one kind are enough to lose a message for good. */
  ghost predicate LosesMessage(cfg: Limits, fault: Fault) {
    exists s, e :: Reaches(cfg, {fault}, s) && Lost(s, e)
  }

  /** Sent as the n-th message at this time, the draft is not too long to be stored. */
  predicate ShortEnough(cfg: Limits, draft: ChatMessage, n: nat, now: int) {
    cfg.size(Base(draft, n, now)) <= cfg.payloadMax
  }

  lemma {:induction false} RunExtends(cfg: Limits, s: State, steps: seq<Step>, step: Step)
    requires Legal(cfg, s, steps) && Enabled(cfg, Run(cfg, s, steps), step)
    ensures Legal(cfg, s, steps + [step])
    ensures Run(cfg, s, steps + [step]) == Execute(cfg, Run(cfg, s, steps), step)
    ensures FaultsOf(cfg, s, steps + [step]) == FaultsOf(cfg, s, steps) + FaultOf(Run(cfg, s, steps), step)
    decreases |steps|
  {
    if steps == [] {
      assert (steps + [step])[1..] == [] && (steps + [step])[0] == step;
    } else {
      RunExtends(cfg, Execute(cfg, s, steps[0]), steps[1..], step);
      assert (steps + [step])[1..] == steps[1..] + [step];
    }
  }

  lemma Then(cfg: Limits, faults: set<Fault>, s: State, step: Step)
    requires Reaches(cfg, faults, s) && Enabled(cfg, s, step)
    ensures Reaches(cfg, faults + FaultOf(s, step), Execute(cfg, s, step))
  {
    var steps :| Legal(cfg, INIT, steps) && FaultsOf(cfg, INIT, steps) == faults && Run(cfg, INIT, steps) == s;
    RunExtends(cfg, INIT, steps, step);
  }

  lemma Start(cfg: Limits)
    ensures Reaches(cfg, {}, INIT)
  {
    var steps: seq<Step> := [];
    assert Legal(cfg, INIT, steps) && FaultsOf(cfg, INIT, steps) == {} && Run(cfg, INIT, steps) == INIT;
  }

  /** A step with no fault, towards a state given outright. */
  lemma ThenTo(cfg: Limits, faults: set<Fault>, s: State, step: Step, s': State)
    requires Reaches(cfg, faults, s) && Enabled(cfg, s, step)
    requires FaultOf(s, step) == {} && Execute(cfg, s, step) == s'
    ensures Reaches(cfg, faults, s')
  {
    Then(cfg, faults, s, step);
    assert faults + {} == faults;
  }

  /** A send that passed the pending check. */
  lemma SendPastCheck(cfg: Limits, faults: set<Fault>, s: State, draft: ChatMessage)
    requires Reaches(cfg, faults, s) && s.senders == map[] && |s.chat.pending| < cfg.pendingMax
    ensures Reaches(cfg, faults, s.(senders := map[0 := RateLimiting(draft)]))
  {
    var s1 := s.(senders := map[0 := Checking(draft)]);
    ThenTo(cfg, faults, s, SendBegins(0, draft), s1);
    ThenTo(cfg, faults, s1, CheckPending(0), s.(senders := map[0 := RateLimiting(draft)]));
  }

  /** A send that has its base message ready to append. */
  lemma SendUpToAppend(cfg: Limits, faults: set<Fault>, s: State, draft: ChatMessage, now: int) returns (base: ChatMessage, s': State)
    requires Reaches(cfg, faults, s) && s.senders == map[] && |s.chat.pending| < cfg.pendingMax
    requires ShortEnough(cfg, draft, s.chat.counter + 1, now)
    ensures Reaches(cfg, faults, s')
    ensures s' == s.(senders := map[0 := Appending(base)], chat := s.chat.(counter := s.chat.counter + 1))
  {
    SendPastCheck(cfg, faults, s, draft);
    var s1, s2 := s.(senders := map[0 := RateLimiting(draft)]), s.(senders := map[0 := Numbering(draft)]);
    ThenTo(cfg, faults, s1, RateAnswer(0, true), s2);
    base, s' := SendTakesSeq(cfg, faults, s2, draft, now);
  }

  lemma SendTakesSeq(cfg: Limits, faults: set<Fault>, s: State, draft: ChatMessage, now: int) returns (base: ChatMessage, s': State)
    requires Reaches(cfg, faults, s) && s.senders == map[0 := Numbering(draft)]
    requires ShortEnough(cfg, draft, s.chat.counter + 1, now)
    ensures Reaches(cfg, faults, s')
    ensures s' == s.(senders := map[0 := Appending(base)], chat := s.chat.(counter := s.chat.counter + 1))
  {
    base := Base(draft, s.chat.counter + 1, now);
    s' := s.(senders := map[0 := Appending(base)], chat := s.chat.(counter := s.chat.counter + 1));
    ThenTo(cfg, faults, s, TakeSeq(0, now), s');
  }

  lemma AppendsMessage(cfg: Limits, faults: set<Fault>, s: State, base: ChatMessage, id: nat) returns (s': State)
    requires Reaches(cfg, faults, s) && s.senders == map[0 := Appending(base)]
    requires s.chat.stream == [] && id > s.chat.last
    ensures Reaches(cfg, faults + (if id in s.history then {IdReused} else {}), s')
    ensures s'.chat.stream == [Entry(id, base.seqNo, Encoded(base))] && s'.chat.pending == s.chat.pending
    ensures s'.senders == map[0 := Publishing(base, id)] || s'.senders == map[0 := Enqueuing(base, id)]
    ensures id in s'.history && s'.drainers == s.drainers && s'.published == s.published
  {
    hide Reaches;
    Then(cfg, faults, s, Append(0, id, 0));
    s' := Execute(cfg, s, Append(0, id, 0));
  }

  /** If it tries to publish, that fails. */
  lemma PublishFails(cfg: Limits, faults: set<Fault>, s: State, base: ChatMessage, id: nat) returns (s': State)
    requires Reaches(cfg, faults, s)
    requires s.senders == map[0 := Publishing(base, id)] || s.senders == map[0 := Enqueuing(base, id)]
    ensures Reaches(cfg, faults, s') && s' == s.(senders := map[0 := Enqueuing(base, id)])
  {
    s' := s.(senders := map[0 := Enqueuing(base, id)]);
    if s.senders == map[0 := Publishing(base, id)] { ThenTo(cfg, faults, s, Publish(0, false, false), s'); }
  }

  /** A send that stored its message under id and whose publish was not acknowledged. */
  lemma UnpublishedSend(cfg: Limits, faults: set<Fault>, s: State, draft: ChatMessage, now: int, id: nat)
    returns (e: Entry, s': State)
    requires Reaches(cfg, faults, s) && s.senders == map[] && |s.chat.pending| < cfg.pendingMax
    requires ShortEnough(cfg, draft, s.chat.counter + 1, now)
    requires s.chat.stream == [] && id > s.chat.last
    ensures Reaches(cfg, faults + (if id in s.history then {IdReused} else {}), s')
    ensures e.id == id && e.payload.Encoded? && s'.chat.stream == [e] && e in s'.chat.stream
    ensures s'.senders == map[0 := Enqueuing(e.payload.message, id)] && id in s'.history
    ensures s'.chat.pending == s.chat.pending && s'.drainers == s.drainers && s'.published == s.published
  {
    hide Reaches;
    var base, s1 := SendUpToAppend(cfg, faults, s, draft, now);
    var s2 := AppendsMessage(cfg, faults, s1, base, id);
    s' := PublishFails(cfg, faults + (if id in s.history then {IdReused} else {}), s2, base, id);
    e := Entry(id, base.seqNo, Encoded(base));
  }

  /** An error from ZADD after a failed publish loses the message. */
  lemma EnqueueErrorLosesMessage(cfg: Limits, draft: ChatMessage, now: int)
    requires cfg.pendingMax > 0 && ShortEnough(cfg, draft, 1, now)
    ensures LosesMessage(cfg, EnqueueError)
  {
    Start(cfg);
    var e, s := UnpublishedSend(cfg, {}, INIT, draft, now, 1);
    Then(cfg, {}, s, Enqueue(0, now, false));
    assert Lost(Execute(cfg, s, Enqueue(0, now, false)), e);
  }

  /** A sender that stops between its append and its enqueue loses it too. */
  lemma LostSenderLosesMessage(cfg: Limits, draft: ChatMessage, now: int)
    requires cfg.pendingMax > 0 && ShortEnough(cfg, draft, 1, now)
    ensures LosesMessage(cfg, SenderLost)
  {
    Start(cfg);
    var e, s := UnpublishedSend(cfg, {}, INIT, draft, now, 1);
    Then(cfg, {}, s, SenderDies(0));
    assert Lost(Execute(cfg, s, SenderDies(0)), e);
  }

  /** A deferred message and a drain that has picked it up. */
  lemma DrainPicksUp(cfg: Limits, draft: ChatMessage, now: int) returns (e: Entry, s: State)
    requires cfg.pendingMax > 0 && ShortEnough(cfg, draft, 1, now)
    ensures Reaches(cfg, {}, s) && s.senders == map[] && s.drainers == map[0 := Visiting([1])]
    ensures e.id == 1 && e in s.chat.stream && s.published == {} && 1 in s.history
    ensures s.chat.pending == [SortedSet.Scored(now, 1)]
  {
    Start(cfg);
    var e0, s0 := UnpublishedSend(cfg, {}, INIT, draft, now, 1);
    Then(cfg, {}, s0, Enqueue(0, now, true));
    var s1 := Execute(cfg, s0, Enqueue(0, now, true));
    assert s1.chat.pending == [SortedSet.Scored(now, 1)];
    assert Batch(s1.chat) == [1];
    Then(cfg, {}, s1, DrainBegins(0));
    e, s := e0, Execute(cfg, s1, DrainBegins(0));
    assert {} + FaultOf(s1, DrainBegins(0)) == {};
  }

  /** So does an error while a drain reads the payload: the drain then drops the pending mark. */
  lemma ReadErrorLosesMessage(cfg: Limits, draft: ChatMessage, now: int)
    requires cfg.pendingMax > 0 && ShortEnough(cfg, draft, 1, now)
    ensures LosesMessage(cfg, ReadError)
  {
    var e, s := DrainPicksUp(cfg, draft, now);
    Then(cfg, {}, s, ReadPayload(0, true));
    var s1 := Execute(cfg, s, ReadPayload(0, true));
    assert [1][1..] == [];
    assert s1.drainers == map[0 := Removing(1, [])] && {} + {ReadError} == {ReadError};
    Then(cfg, {ReadError}, s1, Remove(0, true));
    assert SortedSet.Rem(s1.chat.pending, 1) == [] && {ReadError} + {} == {ReadError};
    assert Lost(Execute(cfg, s1, Remove(0, true)), e);
  }

  /** A drain that found its entry deleted, and is about to drop the pending mark. */
  lemma DrainFindsEntryDeleted(cfg: Limits, draft: ChatMessage, now: int) returns (s: State)
    requires cfg.pendingMax > 0 && ShortEnough(cfg, draft, 1, now)
    ensures Reaches(cfg, {}, s) && s.senders == map[] && s.drainers == map[0 := Removing(1, [])]
    ensures s.chat == EMPTY && s.published == {} && 1 in s.history
  {
    var _, s0 := DrainPicksUp(cfg, draft, now);
    var s1 := s0.(chat := EMPTY);
    ThenTo(cfg, {}, s0, DeleteRoom, s1);
    assert [1][1..] == [];
    s := s1.(drainers := map[0 := Removing(1, [])]);
    ThenTo(cfg, {}, s1, ReadPayload(0, false), s);
  }

  /**
   And so does a stream id handed out again after a delete: a drain that found the old
   entry gone removes the pending mark of the new one.
   */
  lemma ReusedIdLosesMessage(cfg: Limits, draft: ChatMessage, now: int)
    requires cfg.pendingMax > 0 && ShortEnough(cfg, draft, 1, now)
    ensures LosesMessage(cfg, IdReused)
  {
    var s := DrainFindsEntryDeleted(cfg, draft, now);
    var e, s1 := UnpublishedSend(cfg, {}, s, draft, now, 1);
    assert {} + {IdReused} == {IdReused};
    var one := [SortedSet.Scored(now, 1)];
    var s2 := s1.(senders := map[], chat := s1.chat.(pending := one));
    ThenTo(cfg, {IdReused}, s1, Enqueue(0, now, true), s2);
    var s3 := s2.(drainers := map[], chat := s2.chat.(pending := []));
    assert SortedSet.Rem(one, 1) == [];
    ThenTo(cfg, {IdReused}, s2, Remove(0, true), s3);
    assert Lost(s3, e);
  }
}
