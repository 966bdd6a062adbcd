/**
 The chat outbox under concurrency: any number of SendChat calls, pending drains and
 room deletions on one room, interleaved at every Redis command and every publish.
 A step names its own nondeterminism (the id Redis picks, what it trims, whether a
 publish is acknowledged), so a run is a list of steps and executing it is a function.
 */
module ChatOutbox {
  import opened Common
  import opened ChatStore
  import SortedSet

  /** Where a SendChat call stands: the command it is about to issue. */
  datatype Sender =
    | Checking(draft: ChatMessage)
    | RateLimiting(draft: ChatMessage)
    | Numbering(draft: ChatMessage)
    | Appending(base: ChatMessage)
    | Publishing(base: ChatMessage, id: nat)
    | Enqueuing(base: ChatMessage, id: nat)

  /** Where a drainRoomPending call stands. */
  datatype Drainer =
    | Visiting(todo: seq<nat>)
    | Republishing(out: ChatMessage, id: nat, todo: seq<nat>)
    | Removing(id: nat, todo: seq<nat>)

  /**
   The room's keys, the calls in progress, what the publisher received, and two
   histories: the message each id was last given to, and the ids hit by a fault.
   */
  datatype State = State(
    chat: Chat, senders: map<nat, Sender>, drainers: map<nat, Drainer>,
    published: set<ChatMessage>, history: map<nat, ChatMessage>, faults: set<nat>)

  const INIT := State(EMPTY, map[], map[], {}, map[], {})

  datatype Step =
    | SendBegins(p: nat, draft: ChatMessage)
    | CheckPending(p: nat)
    | RateAnswer(p: nat, allowed: bool)
    | TakeSeq(p: nat, now: int)
    | Append(p: nat, id: nat, drop: nat)
    | Publish(p: nat, acked: bool, delivered: bool)
    | Enqueue(p: nat, now: int, ok: bool)
    | SenderDies(p: nat)
    | DrainBegins(d: nat)
    | ReadPayload(d: nat, failed: bool)
    | Republish(d: nat, acked: bool, delivered: bool)
    | Remove(d: nat, ok: bool)
    | DrainerDies(d: nat)
    | DeleteRoom

  predicate Enabled(cfg: Limits, s: State, step: Step) {
    match step
    case SendBegins(p, _) => p !in s.senders
    case CheckPending(p) => p in s.senders && s.senders[p].Checking?
    case RateAnswer(p, _) => p in s.senders && s.senders[p].RateLimiting?
    case TakeSeq(p, _) => p in s.senders && s.senders[p].Numbering?
    case Append(p, id, drop) =>
      p in s.senders && s.senders[p].Appending? && LegalAppend(s.chat, id, cfg.streamMax, drop)
    case Publish(p, _, _) => p in s.senders && s.senders[p].Publishing?
    case Enqueue(p, _, _) => p in s.senders && s.senders[p].Enqueuing?
    case SenderDies(p) => p in s.senders
    case DrainBegins(d) => d !in s.drainers
    case ReadPayload(d, _) => d in s.drainers && s.drainers[d].Visiting? && s.drainers[d].todo != []
    case Republish(d, _, _) => d in s.drainers && s.drainers[d].Republishing?
    case Remove(d, _) => d in s.drainers && s.drainers[d].Removing?
    case DrainerDies(d) => d in s.drainers
    case DeleteRoom => true
  }

  /** The message as SendChat stores it: with its number and time, and no stream id yet. */
  function Base(draft: ChatMessage, n: nat, now: int): ChatMessage {
    draft.(seqNo := n, sentAt := now, streamId := None)
  }

  function WithSender(s: State, p: nat, at: Sender): State {
    s.(senders := s.senders[p := at])
  }

  function SenderReturns(s: State, p: nat): State {
    s.(senders := s.senders - {p})
  }

  function WithDrainer(s: State, d: nat, at: Drainer): State {
    s.(drainers := s.drainers[d := at])
  }

  /** On to the next id of the batch, or done. */
  function DrainerMovesOn(s: State, d: nat, todo: seq<nat>): State {
    if todo == [] then s.(drainers := s.drainers - {d}) else WithDrainer(s, d, Visiting(todo))
  }

  function Batch(c: Chat): seq<nat> {
    var r := SortedSet.Range(c.pending, DRAIN_BATCH);
    seq(|r|, i requires 0 <= i < |r| => r[i].id)
  }

  /** What a drain does with the payload it read: drop the mark, skip, or publish again. */
  function AfterRead(cfg: Limits, s: State, d: nat, id: nat, rest: seq<nat>, p: Option<Payload>): State {
    if p.None? || !p.value.Encoded? then WithDrainer(s, d, Removing(id, rest))
    else
      var out := Outgoing(p.value.message, id);
      if cfg.size(out) > cfg.payloadMax then DrainerMovesOn(s, d, rest)
      else WithDrainer(s, d, Republishing(out, id, rest))
  }

  function Execute(cfg: Limits, s: State, step: Step): State
    requires Enabled(cfg, s, step)
  {
    match step
    case SendBegins(p, draft) => WithSender(s, p, Checking(draft))
    case CheckPending(p) =>
      if |s.chat.pending| >= cfg.pendingMax then SenderReturns(s, p)
      else WithSender(s, p, RateLimiting(s.senders[p].draft))
    case RateAnswer(p, allowed) =>
      if allowed then WithSender(s, p, Numbering(s.senders[p].draft)) else SenderReturns(s, p)
    case TakeSeq(p, now) =>
      var n := s.chat.counter + 1;
      var base := Base(s.senders[p].draft, n, now);
      var s' := s.(chat := s.chat.(counter := n));
      if cfg.size(base) > cfg.payloadMax then SenderReturns(s', p) else WithSender(s', p, Appending(base))
    case Append(p, id, drop) =>
      var base := s.senders[p].base;
      var s' := s.(chat := XAdd(s.chat, id, base.seqNo, Encoded(base), cfg.streamMax, drop),
                   history := s.history[id := base],
                   faults := if id in s.history then s.faults + {id} else s.faults);
      if cfg.size(Outgoing(base, id)) > cfg.payloadMax then WithSender(s', p, Enqueuing(base, id))
      else WithSender(s', p, Publishing(base, id))
    case Publish(p, acked, delivered) =>
      var sd := s.senders[p];
      var s' := if acked || delivered then s.(published := s.published + {Outgoing(sd.base, sd.id)}) else s;
      if acked then SenderReturns(s', p) else WithSender(s', p, Enqueuing(sd.base, sd.id))
    case Enqueue(p, now, ok) =>
      var id := s.senders[p].id;
      if ok then SenderReturns(s.(chat := s.chat.(pending := SortedSet.Add(s.chat.pending, now, id))), p)
      else SenderReturns(s.(faults := s.faults + {id}), p)
    case SenderDies(p) =>
      var sd := s.senders[p];
      if sd.Publishing? || sd.Enqueuing? then SenderReturns(s.(faults := s.faults + {sd.id}), p)
      else SenderReturns(s, p)
    case DrainBegins(d) =>
      if Batch(s.chat) == [] then s else WithDrainer(s, d, Visiting(Batch(s.chat)))
    case ReadPayload(d, failed) =>
      var id, rest := s.drainers[d].todo[0], s.drainers[d].todo[1..];
      if failed then WithDrainer(s.(faults := s.faults + {id}), d, Removing(id, rest))
      else AfterRead(cfg, s, d, id, rest, PayloadOf(s.chat.stream, id))
    case Republish(d, acked, delivered) =>
      var dr := s.drainers[d];
      var s' := if acked || delivered then s.(published := s.published + {dr.out}) else s;
      if acked then WithDrainer(s', d, Removing(dr.id, dr.todo)) else DrainerMovesOn(s', d, dr.todo)
    case Remove(d, ok) =>
      var dr := s.drainers[d];
      var s' := if ok then s.(chat := s.chat.(pending := SortedSet.Rem(s.chat.pending, dr.id))) else s;
      DrainerMovesOn(s', d, dr.todo)
    case DrainerDies(d) => s.(drainers := s.drainers - {d})
    case DeleteRoom => s.(chat := EMPTY)
  }

  ghost predicate Legal(cfg: Limits, s: State, steps: seq<Step>)
    decreases |steps|
  {
    steps == [] || (Enabled(cfg, s, steps[0]) && Legal(cfg, Execute(cfg, s, steps[0]), steps[1..]))
  }

  ghost function Run(cfg: Limits, s: State, steps: seq<Step>): State
    requires Legal(cfg, s, steps)
    decreases |steps|
  {
    if steps == [] then s else Run(cfg, Execute(cfg, s, steps[0]), steps[1..])
  }

  // ---------------------------------------------------------------- at-least-once delivery

  ghost predicate Holds(s: State, p: nat, id: nat) {
    && p in s.senders
    && (s.senders[p].Publishing? || s.senders[p].Enqueuing?)
    && s.senders[p].id == id
  }

  ghost predicate InFlight(s: State, id: nat) {
    exists p :: Holds(s, p, id)
  }

  /** Subscribers got the stored message itself, with its stream id filled in. */
  ghost predicate PublishedAsWritten(s: State, e: Entry) {
    e.payload.Encoded? && Outgoing(e.payload.message, e.id) in s.published
  }

  ghost predicate Delivered(s: State, id: nat) {
    id in s.history && Outgoing(s.history[id], id) in s.published
  }

  /** Still with its sender, or published as appended, or waiting in the pending set. */
  ghost predicate Accounted(s: State, id: nat) {
    InFlight(s, id) || Delivered(s, id) || id in PendingIds(s.chat)
  }

  ghost predicate SenderOk(s: State, sd: Sender) {
    (sd.Publishing? || sd.Enqueuing?) ==>
      sd.id in s.history && (sd.id !in s.faults ==> sd.base == s.history[sd.id])
  }

  ghost predicate DrainerOk(s: State, dr: Drainer) {
    && (forall id :: id in dr.todo ==> id in s.history)
    && (dr.Republishing? ==>
          dr.id in s.history && dr.out.streamId == Some(dr.id)
          && (dr.id !in s.faults ==> dr.out == Outgoing(s.history[dr.id], dr.id)))
    && (dr.Removing? ==>
          dr.id in s.history
          && (dr.id !in s.faults ==> dr.id !in StreamIds(s.chat.stream) || Delivered(s, dr.id)))
  }

  ghost predicate EntryOk(s: State, e: Entry) {
    && e.id in s.history
    && (e.id !in s.faults ==> e.payload == Encoded(s.history[e.id]) && Accounted(s, e.id))
  }

  /** What was published is a message that was appended, unaltered but for its id. */
  ghost predicate PublicationOk(s: State, m: ChatMessage) {
    && m.streamId.Some? && m.streamId.value in s.history
    && (m.streamId.value !in s.faults ==> m == Outgoing(s.history[m.streamId.value], m.streamId.value))
  }

  ghost predicate Inv(s: State) {
    && Valid(s.chat)
    && PendingIds(s.chat) <= s.history.Keys
    && (forall p :: p in s.senders ==> SenderOk(s, s.senders[p]))
    && (forall d :: d in s.drainers ==> DrainerOk(s, s.drainers[d]))
    && (forall e :: e in s.chat.stream ==> EntryOk(s, e))
    && (forall m :: m in s.published ==> PublicationOk(s, m))
  }

  /** A sender that holds no id before or after, and at most draws a number. */
  lemma QuietSenderKeepsInv(s: State, s': State, p: nat)
    requires Inv(s)
    requires s' == s.(senders := s'.senders, chat := s.chat.(counter := s'.chat.counter))
    requires forall q :: q != p ==> (q in s.senders <==> q in s'.senders)
    requires forall q :: q != p && q in s.senders ==> s.senders[q] == s'.senders[q]
    requires forall sd :: (p in s.senders && sd == s.senders[p]) || (p in s'.senders && sd == s'.senders[p]) ==>
               !sd.Publishing? && !sd.Enqueuing?
    ensures Inv(s')
  {
    forall id | InFlight(s, id) ensures InFlight(s', id) {
      var q :| Holds(s, q, id);
      assert Holds(s', q, id);
    }
    forall e | e in s'.chat.stream ensures EntryOk(s', e) { assert EntryOk(s, e); }
    forall m | m in s'.published ensures PublicationOk(s', m) { assert PublicationOk(s, m); }
    forall d | d in s'.drainers ensures DrainerOk(s', s'.drainers[d]) { assert DrainerOk(s, s.drainers[d]); }
    forall q | q in s'.senders ensures SenderOk(s', s'.senders[q]) {
      if q != p { assert SenderOk(s, s.senders[q]); }
    }
  }

  lemma AppendedEntryOk(cfg: Limits, s: State, s': State, step: Step)
    requires Enabled(cfg, s, step) && step.Append? && s' == Execute(cfg, s, step)
    ensures var base := s.senders[step.p].base; EntryOk(s', Entry(step.id, base.seqNo, Encoded(base)))
  {
    assert Holds(s', step.p, step.id);
  }

  lemma OldEntryOk(cfg: Limits, s: State, s': State, step: Step, e: Entry)
    requires Enabled(cfg, s, step) && step.Append? && s' == Execute(cfg, s, step)
    requires EntryOk(s, e) && e.id != step.id
    ensures EntryOk(s', e)
  {
    if InFlight(s, e.id) {
      var p :| Holds(s, p, e.id);
      assert Holds(s', p, e.id);
    }
  }

  /** Every entry left after an append is the new one, held by its sender, or an old one as before. */
  lemma AppendKeepsEntries(cfg: Limits, s: State, s': State, step: Step)
    requires Inv(s) && Enabled(cfg, s, step) && step.Append? && s' == Execute(cfg, s, step)
    ensures Valid(s'.chat) && forall e :: e in s'.chat.stream ==> EntryOk(s', e)
  {
    var base := s.senders[step.p].base;
    XAddValid(s.chat, step.id, base.seqNo, Encoded(base), cfg.streamMax, step.drop);
    XAddKeepsNewest(s.chat, step.id, base.seqNo, Encoded(base), cfg.streamMax, step.drop);
    AppendedEntryOk(cfg, s, s', step);
    assert s'.chat == XAdd(s.chat, step.id, base.seqNo, Encoded(base), cfg.streamMax, step.drop);
    hide EntryOk, XAdd, Execute;
    forall e | e in s'.chat.stream ensures EntryOk(s', e) {
      if e in s.chat.stream { OldEntryOk(cfg, s, s', step, e); }
    }
  }

  lemma AppendKeepsDrainers(cfg: Limits, s: State, s': State, step: Step)
    requires Inv(s) && Enabled(cfg, s, step) && step.Append? && s' == Execute(cfg, s, step)
    ensures forall d :: d in s'.drainers ==> DrainerOk(s', s'.drainers[d])
  {
    var base := s.senders[step.p].base;
    XAddKeepsNewest(s.chat, step.id, base.seqNo, Encoded(base), cfg.streamMax, step.drop);
    forall d | d in s'.drainers ensures DrainerOk(s', s'.drainers[d]) {
      var dr := s.drainers[d];
      assert DrainerOk(s, dr);
      if dr.Removing? && dr.id !in s'.faults && !Delivered(s, dr.id) {
        assert dr.id !in StreamIds(s.chat.stream) && dr.id != step.id;
      }
    }
  }

  lemma AppendKeepsInv(cfg: Limits, s: State, step: Step)
    requires Inv(s) && Enabled(cfg, s, step) && step.Append?
    ensures Inv(Execute(cfg, s, step))
  {
    var s' := Execute(cfg, s, step);
    AppendKeepsEntries(cfg, s, s', step);
    AppendKeepsDrainers(cfg, s, s', step);
    forall m | m in s'.published ensures PublicationOk(s', m) { assert PublicationOk(s, m); }
    forall p | p in s'.senders ensures SenderOk(s', s'.senders[p]) {
      if p != step.p { assert SenderOk(s, s.senders[p]); }
    }
  }

  lemma PublishKeepsInv(cfg: Limits, s: State, step: Step)
    requires Inv(s) && Enabled(cfg, s, step) && step.Publish?
    ensures Inv(Execute(cfg, s, step))
  {
    var s' := Execute(cfg, s, step);
    var sd := s.senders[step.p];
    assert SenderOk(s, sd);
    forall m | m in s'.published ensures PublicationOk(s', m) {
      if m in s.published { assert PublicationOk(s, m); }
    }
    forall e | e in s'.chat.stream ensures EntryOk(s', e) {
      assert EntryOk(s, e);
      if InFlight(s, e.id) {
        var p :| Holds(s, p, e.id);
        if p != step.p || !step.acked { assert Holds(s', p, e.id); }
      }
    }
    forall d | d in s'.drainers ensures DrainerOk(s', s'.drainers[d]) { assert DrainerOk(s, s.drainers[d]); }
    forall p | p in s'.senders ensures SenderOk(s', s'.senders[p]) {
      if p != step.p { assert SenderOk(s, s.senders[p]); }
    }
  }

  lemma SenderEndKeepsInv(cfg: Limits, s: State, step: Step)
    requires Inv(s) && Enabled(cfg, s, step) && (step.Enqueue? || step.SenderDies?)
    ensures Inv(Execute(cfg, s, step))
  {
    var s' := Execute(cfg, s, step);
    var sd := s.senders[step.p];
    assert SenderOk(s, sd);
    if step.Enqueue? { SortedSet.AddSpec(s.chat.pending, step.now, sd.id); }
    forall m | m in s'.published ensures PublicationOk(s', m) { assert PublicationOk(s, m); }
    forall e | e in s'.chat.stream ensures EntryOk(s', e) {
      assert EntryOk(s, e);
      if InFlight(s, e.id) {
        var p :| Holds(s, p, e.id);
        if p != step.p { assert Holds(s', p, e.id); }
      }
    }
    forall d | d in s'.drainers ensures DrainerOk(s', s'.drainers[d]) { assert DrainerOk(s, s.drainers[d]); }
    forall p | p in s'.senders ensures SenderOk(s', s'.senders[p]) { assert SenderOk(s, s.senders[p]); }
  }

  /** A drainer's move to any control point that is itself in order. */
  lemma DrainerMoveKeepsInv(s: State, s': State, d: nat)
    requires Inv(s)
    requires s'.senders == s.senders && s'.history == s.history && s.faults <= s'.faults
    requires s.published <= s'.published && forall m :: m in s'.published ==> PublicationOk(s', m)
    requires s'.chat.stream == s.chat.stream && Valid(s'.chat) && PendingIds(s'.chat) <= PendingIds(s.chat)
    requires forall id :: id in PendingIds(s.chat) && id !in PendingIds(s'.chat) ==>
               id in s'.faults || id !in StreamIds(s.chat.stream) || Delivered(s', id)
    requires forall c :: c in s'.drainers && c != d ==> c in s.drainers && s'.drainers[c] == s.drainers[c]
    requires d in s'.drainers ==> DrainerOk(s', s'.drainers[d])
    ensures Inv(s')
  {
    forall e | e in s'.chat.stream ensures EntryOk(s', e) {
      assert EntryOk(s, e) && e.id in StreamIds(s.chat.stream);
      if InFlight(s, e.id) {
        var p :| Holds(s, p, e.id);
        assert Holds(s', p, e.id);
      }
    }
    forall c | c in s'.drainers ensures DrainerOk(s', s'.drainers[c]) {
      if c != d { assert DrainerOk(s, s.drainers[c]); }
    }
    forall p | p in s'.senders ensures SenderOk(s', s'.senders[p]) { assert SenderOk(s, s.senders[p]); }
  }

  lemma DrainBeginsKeepsInv(cfg: Limits, s: State, step: Step)
    requires Inv(s) && Enabled(cfg, s, step) && (step.DrainBegins? || step.DrainerDies?)
    ensures Inv(Execute(cfg, s, step))
  {
    forall id | id in Batch(s.chat) ensures id in s.history { assert id in PendingIds(s.chat); }
    forall m | m in s.published ensures PublicationOk(s, m) {}
    DrainerMoveKeepsInv(s, Execute(cfg, s, step), step.d);
  }

  lemma DrainerAtKeepsInv(s: State, d: nat, at: Drainer)
    requires Inv(s) && DrainerOk(s, at)
    ensures Inv(WithDrainer(s, d, at))
  {
    var s' := WithDrainer(s, d, at);
    assert DrainerOk(s', at);
    forall m | m in s'.published ensures PublicationOk(s', m) { assert PublicationOk(s, m); }
    DrainerMoveKeepsInv(s, s', d);
  }

  lemma DrainerMovesOnKeepsInv(s: State, d: nat, todo: seq<nat>)
    requires Inv(s) && forall i :: i in todo ==> i in s.history
    ensures Inv(DrainerMovesOn(s, d, todo))
  {
    if todo != [] {
      DrainerAtKeepsInv(s, d, Visiting(todo));
    } else {
      var s' := DrainerMovesOn(s, d, todo);
      forall m | m in s'.published ensures PublicationOk(s', m) { assert PublicationOk(s, m); }
      DrainerMoveKeepsInv(s, s', d);
    }
  }

  /** A fault on an id only weakens what is asked of it. */
  lemma FaultKeepsInv(s: State, id: nat)
    requires Inv(s)
    ensures Inv(s.(faults := s.faults + {id}))
  {
    var s' := s.(faults := s.faults + {id});
    forall e | e in s'.chat.stream ensures EntryOk(s', e) {
      assert EntryOk(s, e);
      if InFlight(s, e.id) {
        var q :| Holds(s, q, e.id);
        assert Holds(s', q, e.id);
      }
    }
    forall m | m in s'.published ensures PublicationOk(s', m) { assert PublicationOk(s, m); }
    forall d | d in s'.drainers ensures DrainerOk(s', s'.drainers[d]) { assert DrainerOk(s, s.drainers[d]); }
    forall q | q in s'.senders ensures SenderOk(s', s'.senders[q]) { assert SenderOk(s, s.senders[q]); }
  }

  /** What a drain reads is in order: either the entry is gone, or it is the message once appended. */
  lemma AfterReadKeepsInv(cfg: Limits, s: State, d: nat, id: nat, rest: seq<nat>)
    requires Inv(s) && id in s.history && forall i :: i in rest ==> i in s.history
    ensures Inv(AfterRead(cfg, s, d, id, rest, PayloadOf(s.chat.stream, id)))
  {
    var p := PayloadOf(s.chat.stream, id);
    PayloadOfSpec(s.chat.stream, id);
    assert p.None? || id in s.faults || p == Some(Encoded(s.history[id])) by {
      if p.Some? {
        var e :| e in s.chat.stream && e.id == id && e.payload == p.value;
        assert EntryOk(s, e);
      }
    }
    if p.None? || !p.value.Encoded? {
      DrainerAtKeepsInv(s, d, Removing(id, rest));
    } else if cfg.size(Outgoing(p.value.message, id)) > cfg.payloadMax {
      DrainerMovesOnKeepsInv(s, d, rest);
    } else {
      DrainerAtKeepsInv(s, d, Republishing(Outgoing(p.value.message, id), id, rest));
    }
  }

  lemma ReadPayloadKeepsInv(cfg: Limits, s: State, s': State, step: Step)
    requires Inv(s) && Enabled(cfg, s, step) && step.ReadPayload? && s' == Execute(cfg, s, step)
    ensures Inv(s')
  {
    var dr := s.drainers[step.d];
    assert DrainerOk(s, dr);
    if step.failed {
      FaultKeepsInv(s, dr.todo[0]);
      DrainerAtKeepsInv(s.(faults := s.faults + {dr.todo[0]}), step.d, Removing(dr.todo[0], dr.todo[1..]));
    } else {
      AfterReadKeepsInv(cfg, s, step.d, dr.todo[0], dr.todo[1..]);
    }
  }

  lemma RepublishKeepsInv(cfg: Limits, s: State, s': State, step: Step)
    requires Inv(s) && Enabled(cfg, s, step) && step.Republish? && s' == Execute(cfg, s, step)
    ensures Inv(s')
  {
    assert DrainerOk(s, s.drainers[step.d]);
    forall m | m in s'.published ensures PublicationOk(s', m) {
      if m in s.published { assert PublicationOk(s, m); }
    }
    DrainerMoveKeepsInv(s, s', step.d);
  }

  lemma RemoveKeepsInv(cfg: Limits, s: State, s': State, step: Step)
    requires Inv(s) && Enabled(cfg, s, step) && step.Remove? && s' == Execute(cfg, s, step)
    ensures Inv(s')
  {
    var dr := s.drainers[step.d];
    assert DrainerOk(s, dr);
    SortedSet.RemSpec(s.chat.pending, dr.id);
    forall m | m in s'.published ensures PublicationOk(s', m) { assert PublicationOk(s, m); }
    DrainerMoveKeepsInv(s, s', step.d);
  }

  lemma DeleteKeepsInv(s: State)
    requires Inv(s)
    ensures Inv(s.(chat := EMPTY))
  {
    var s' := s.(chat := EMPTY);
    forall m | m in s'.published ensures PublicationOk(s', m) { assert PublicationOk(s, m); }
    forall d | d in s'.drainers ensures DrainerOk(s', s'.drainers[d]) { assert DrainerOk(s, s.drainers[d]); }
    forall p | p in s'.senders ensures SenderOk(s', s'.senders[p]) { assert SenderOk(s, s.senders[p]); }
  }

  lemma StepKeepsInv(cfg: Limits, s: State, s': State, step: Step)
    requires Inv(s) && Enabled(cfg, s, step) && s' == Execute(cfg, s, step)
    ensures Inv(s')
  {
    match step
    case SendBegins(p, _) => QuietSenderKeepsInv(s, s', p);
    case CheckPending(p) => QuietSenderKeepsInv(s, s', p);
    case RateAnswer(p, _) => QuietSenderKeepsInv(s, s', p);
    case TakeSeq(p, _) => QuietSenderKeepsInv(s, s', p);
    case Append(_, _, _) => AppendKeepsInv(cfg, s, step);
    case Publish(_, _, _) => PublishKeepsInv(cfg, s, step);
    case Enqueue(_, _, _) => SenderEndKeepsInv(cfg, s, step);
    case SenderDies(_) => SenderEndKeepsInv(cfg, s, step);
    case DrainBegins(_) => DrainBeginsKeepsInv(cfg, s, step);
    case DrainerDies(_) => DrainBeginsKeepsInv(cfg, s, step);
    case ReadPayload(_, _) => ReadPayloadKeepsInv(cfg, s, s', step);
    case Republish(_, _, _) => RepublishKeepsInv(cfg, s, s', step);
    case Remove(_, _) => RemoveKeepsInv(cfg, s, s', step);
    case DeleteRoom => DeleteKeepsInv(s);
  }

  lemma {:induction false} RunKeepsInv(cfg: Limits, s: State, steps: seq<Step>)
    requires Inv(s) && Legal(cfg, s, steps)
    ensures Inv(Run(cfg, s, steps))
    decreases |steps|
  {
    if steps != [] {
      StepKeepsInv(cfg, s, Execute(cfg, s, steps[0]), steps[0]);
      RunKeepsInv(cfg, Execute(cfg, s, steps[0]), steps[1..]);
    }
  }

  /**
   Nothing is dropped without a named cause: after any run, every entry of the stream is
   with its sender, or was published as written, or is pending, unless a fault hit its id.
   And subscribers only ever get messages that were appended.
   */
  lemma NothingSilentlyDropped(cfg: Limits, steps: seq<Step>)
    requires Legal(cfg, INIT, steps)
    ensures var s := Run(cfg, INIT, steps);
      && (forall e :: e in s.chat.stream && e.id !in s.faults ==>
            InFlight(s, e.id) || PublishedAsWritten(s, e) || e.id in PendingIds(s.chat))
      && (forall m :: m in s.published ==> m.streamId.Some? && m.streamId.value in s.history)
      && (forall m :: m in s.published && m.streamId.value !in s.faults ==>
            m == Outgoing(s.history[m.streamId.value], m.streamId.value))
  {
    RunKeepsInv(cfg, INIT, steps);
    var s := Run(cfg, INIT, steps);
    forall e | e in s.chat.stream && e.id !in s.faults
      ensures InFlight(s, e.id) || PublishedAsWritten(s, e) || e.id in PendingIds(s.chat)
    {
      assert EntryOk(s, e);
    }
    forall m | m in s.published ensures PublicationOk(s, m) {}
  }

  /** A command error, a lost process, or a stream id given out twice. */
  datatype Fault = EnqueueError | ReadError | SenderLost | IdReused

  /** The fault a step commits, if any; no other step adds an id to the faults. */
  ghost function FaultOf(s: State, step: Step): set<Fault> {
    match step
    case Enqueue(_, _, ok) => if ok then {} else {EnqueueError}
    case ReadPayload(_, failed) => if failed then {ReadError} else {}
    case SenderDies(p) =>
      if p in s.senders && (s.senders[p].Publishing? || s.senders[p].Enqueuing?) then {SenderLost} else {}
    case Append(_, id, _) => if id in s.history then {IdReused} else {}
    case _ => {}
  }

  ghost function FaultsOf(cfg: Limits, s: State, steps: seq<Step>): set<Fault>
    requires Legal(cfg, s, steps)
    decreases |steps|
  {
    if steps == [] then {} else FaultOf(s, steps[0]) + FaultsOf(cfg, Execute(cfg, s, steps[0]), steps[1..])
  }

  lemma {:induction false} FaultFreeRunHasNoFaults(cfg: Limits, s: State, steps: seq<Step>)
    requires Legal(cfg, s, steps) && FaultsOf(cfg, s, steps) == {}
    ensures Run(cfg, s, steps).faults == s.faults
    decreases |steps|
  {
    if steps != [] {
      var s' := Execute(cfg, s, steps[0]);
      assert FaultOf(s, steps[0]) == {} && FaultsOf(cfg, s', steps[1..]) == {};
      FaultFreeRunHasNoFaults(cfg, s', steps[1..]);
    }
  }

  /** With no fault and no send in progress, each stored message was published or will be retried. */
  lemma AtLeastOnceAtRest(cfg: Limits, steps: seq<Step>)
    requires Legal(cfg, INIT, steps) && FaultsOf(cfg, INIT, steps) == {}
    requires Run(cfg, INIT, steps).senders == map[]
    ensures var s := Run(cfg, INIT, steps);
      forall e :: e in s.chat.stream ==> PublishedAsWritten(s, e) || e.id in PendingIds(s.chat)
  {
    NothingSilentlyDropped(cfg, steps);
    FaultFreeRunHasNoFaults(cfg, INIT, steps);
  }
}
