/**
 The chat outbox with nobody else at work: the commands of one send, or of one drain, taken one
 after the other, amount to what the service does in one piece.
 */
module ChatAlone {
  import opened Common
  import opened ChatStore
  import opened ChatOutbox
  import ChatDrain
  import SortedSet

  // ---------------------------------------------------------------- one send

  /** What a send meets: the limiter's answer, the time, the id it gets and what that trims, the publisher's answer. */
  datatype Circumstances = Circumstances(rateOk: bool, now: int, id: nat, drop: nat, acked: bool)

  /** The command sender p is about to issue. */
  function NextOfSender(s: State, p: nat, c: Circumstances): Step
    requires p in s.senders
  {
    match s.senders[p]
    case Checking(_) => CheckPending(p)
    case RateLimiting(_) => RateAnswer(p, c.rateOk)
    case Numbering(_) => TakeSeq(p, c.now)
    case Appending(_) => Append(p, c.id, c.drop)
    case Publishing(_, _) => Publish(p, c.acked, false)
    case Enqueuing(_, _) => Enqueue(p, c.now, true)
  }

  /** Sender p goes on by itself until it returns, for at most n commands. */
  function SendsOn(cfg: Limits, s: State, p: nat, c: Circumstances, n: nat): State
    decreases n
  {
    if n == 0 || p !in s.senders || !Enabled(cfg, s, NextOfSender(s, p, c)) then s
    else SendsOn(cfg, Execute(cfg, s, NextOfSender(s, p, c)), p, c, n - 1)
  }

  lemma SendsOneMore(cfg: Limits, s: State, p: nat, c: Circumstances, n: nat, s': State)
    requires n > 0 && p in s.senders && Enabled(cfg, s, NextOfSender(s, p, c))
    requires s' == Execute(cfg, s, NextOfSender(s, p, c))
    ensures SendsOn(cfg, s, p, c, n) == SendsOn(cfg, s', p, c, n - 1)
  {
  }

  lemma SendReturned(cfg: Limits, s: State, p: nat, c: Circumstances, n: nat)
    requires p !in s.senders
    ensures SendsOn(cfg, s, p, c, n) == s
  {
  }

  /** What one send does by itself: refused it changes nothing, too long it costs a number, else it stores its message. */
  ghost predicate SendDone(cfg: Limits, s: State, draft: ChatMessage, c: Circumstances, s': State)
    requires LegalAppend(s.chat, c.id, cfg.streamMax, c.drop)
  {
    var n := s.chat.counter + 1;
    var base := draft.(seqNo := n, sentAt := c.now, streamId := None);
    var out := base.(streamId := Some(c.id));
    && s'.senders == s.senders && s'.drainers == s.drainers
    && if |s.chat.pending| >= cfg.pendingMax || !c.rateOk then
         s' == s
       else if cfg.size(base) > cfg.payloadMax then
         s' == s.(chat := s.chat.(counter := n))
       else
         var deferred := cfg.size(out) > cfg.payloadMax || !c.acked;
         && s'.chat.stream == (s.chat.stream + [Entry(c.id, n, Encoded(base))])[c.drop..]
         && s'.chat.last == c.id && s'.chat.counter == n
         && s'.chat.pending == (if deferred then SortedSet.Add(s.chat.pending, c.now, c.id) else s.chat.pending)
         && s'.published == s.published + (if deferred then {} else {out})
  }

  /** From the append on: the message is stored, and published or marked pending. */
  lemma StoresAlone(cfg: Limits, s: State, p: nat, base: ChatMessage, c: Circumstances) returns (s': State)
    requires p in s.senders && s.senders[p] == Appending(base) && LegalAppend(s.chat, c.id, cfg.streamMax, c.drop)
    ensures SendsOn(cfg, s, p, c, 3) == s' && s'.senders == s.senders - {p} && s'.drainers == s.drainers
    ensures var out := base.(streamId := Some(c.id));
      var deferred := cfg.size(out) > cfg.payloadMax || !c.acked;
      && s'.chat == XAdd(s.chat, c.id, base.seqNo, Encoded(base), cfg.streamMax, c.drop).(
           pending := if deferred then SortedSet.Add(s.chat.pending, c.now, c.id) else s.chat.pending)
      && s'.published == s.published + (if deferred then {} else {out})
  {
    hide SendsOn;
    var s1 := Execute(cfg, s, Append(p, c.id, c.drop));
    SendsOneMore(cfg, s, p, c, 3, s1);
    if s1.senders[p].Publishing? {
      var s2 := Execute(cfg, s1, Publish(p, c.acked, false));
      SendsOneMore(cfg, s1, p, c, 2, s2);
      if c.acked {
        s' := s2;
        SendReturned(cfg, s', p, c, 1);
      } else {
        s' := Execute(cfg, s2, Enqueue(p, c.now, true));
        SendsOneMore(cfg, s2, p, c, 1, s');
        SendReturned(cfg, s', p, c, 0);
      }
    } else {
      s' := Execute(cfg, s1, Enqueue(p, c.now, true));
      SendsOneMore(cfg, s1, p, c, 2, s');
      SendReturned(cfg, s', p, c, 1);
    }
    assert s'.senders == s.senders - {p};
  }

  lemma SendAlone(cfg: Limits, s: State, p: nat, draft: ChatMessage, c: Circumstances)
    requires p !in s.senders && LegalAppend(s.chat, c.id, cfg.streamMax, c.drop)
    ensures SendDone(cfg, s, draft, c, SendsOn(cfg, Execute(cfg, s, SendBegins(p, draft)), p, c, 6))
  {
    hide SendsOn;
    var s1 := s.(senders := s.senders[p := Checking(draft)]);
    if |s.chat.pending| >= cfg.pendingMax {
      SendsOneMore(cfg, s1, p, c, 6, s1.(senders := s1.senders - {p}));
      assert s1.senders - {p} == s.senders;
      SendReturned(cfg, s, p, c, 5);
    } else {
      var s2 := s.(senders := s.senders[p := RateLimiting(draft)]);
      assert s1.senders[p := RateLimiting(draft)] == s2.senders;
      SendsOneMore(cfg, s1, p, c, 6, s2);
      LimitedAlone(cfg, s, s2, p, draft, c);
    }
  }

  lemma LimitedAlone(cfg: Limits, s: State, s2: State, p: nat, draft: ChatMessage, c: Circumstances)
    requires p !in s.senders && LegalAppend(s.chat, c.id, cfg.streamMax, c.drop) && |s.chat.pending| < cfg.pendingMax
    requires s2 == s.(senders := s.senders[p := RateLimiting(draft)])
    ensures SendDone(cfg, s, draft, c, SendsOn(cfg, s2, p, c, 5))
  {
    hide SendsOn;
    if !c.rateOk {
      SendsOneMore(cfg, s2, p, c, 5, s2.(senders := s2.senders - {p}));
      assert s2.senders - {p} == s.senders;
      SendReturned(cfg, s, p, c, 4);
    } else {
      var s3 := s.(senders := s.senders[p := Numbering(draft)]);
      assert s2.senders[p := Numbering(draft)] == s3.senders;
      SendsOneMore(cfg, s2, p, c, 5, s3);
      var base := Base(draft, s.chat.counter + 1, c.now);
      var s4 := Execute(cfg, s3, TakeSeq(p, c.now));
      SendsOneMore(cfg, s3, p, c, 4, s4);
      if cfg.size(base) > cfg.payloadMax {
        assert s3.senders - {p} == s.senders;
        SendReturned(cfg, s4, p, c, 3);
      } else {
        var s' := StoresAlone(cfg, s4, p, base, c);
        assert s4.senders - {p} == s.senders;
      }
    }
  }

  // ---------------------------------------------------------------- one drain

  function NextOfDrainer(s: State, d: nat, acked: set<nat>): Step
    requires d in s.drainers
  {
    match s.drainers[d]
    case Visiting(_) => ReadPayload(d, false)
    case Republishing(_, id, _) => Republish(d, id in acked, false)
    case Removing(_, _) => Remove(d, true)
  }

  /** Drainer d goes on by itself until it is done, for at most n commands. */
  function DrainsOn(cfg: Limits, s: State, d: nat, acked: set<nat>, n: nat): State
    decreases n
  {
    if n == 0 || d !in s.drainers || !Enabled(cfg, s, NextOfDrainer(s, d, acked)) then s
    else DrainsOn(cfg, Execute(cfg, s, NextOfDrainer(s, d, acked)), d, acked, n - 1)
  }

  lemma DrainsOneMore(cfg: Limits, s: State, d: nat, acked: set<nat>, n: nat, s': State)
    requires n > 0 && d in s.drainers && Enabled(cfg, s, NextOfDrainer(s, d, acked))
    requires s' == Execute(cfg, s, NextOfDrainer(s, d, acked))
    ensures DrainsOn(cfg, s, d, acked, n) == DrainsOn(cfg, s', d, acked, n - 1)
  {
  }

  function Together(messages: seq<ChatMessage>): set<ChatMessage> {
    set m | m in messages
  }

  /** The state when a drain has settled one entry and moves on to the rest of its batch. */
  function EntryDone(cfg: Limits, s: State, d: nat, acked: set<nat>, id: nat, rest: seq<nat>): State {
    DrainerMovesOn(s.(chat := ChatDrain.Settle(cfg, s.chat, acked, id),
                      published := s.published + Together(ChatDrain.Gets(cfg, s.chat.stream, acked, id))), d, rest)
  }

  /** The commands for one entry: at most three. */
  lemma EntryAlone(cfg: Limits, s: State, d: nat, acked: set<nat>, id: nat, rest: seq<nat>, n: nat) returns (used: nat)
    requires d in s.drainers && s.drainers[d] == Visiting([id] + rest) && n >= 3
    ensures 1 <= used <= 3
    ensures DrainsOn(cfg, s, d, acked, n) == DrainsOn(cfg, EntryDone(cfg, s, d, acked, id, rest), d, acked, n - used)
  {
    hide DrainsOn;
    assert ([id] + rest)[0] == id && ([id] + rest)[1..] == rest;
    var p := PayloadOf(s.chat.stream, id);
    var s1 := AfterRead(cfg, s, d, id, rest, p);
    DrainsOneMore(cfg, s, d, acked, n, s1);
    if p.None? || !p.value.Encoded? {
      RemovesAlone(cfg, s, s1, d, acked, id, rest, n - 1);
      assert Together([]) == {} && s.published + {} == s.published;
      used := 2;
    } else if cfg.size(Outgoing(p.value.message, id)) > cfg.payloadMax {
      assert Together([]) == {} && s.published + {} == s.published;
      used := 1;
    } else {
      used := RepublishesAlone(cfg, s, s1, d, acked, p.value.message, id, rest, n);
    }
  }

  lemma RemovesAlone(cfg: Limits, s: State, s1: State, d: nat, acked: set<nat>, id: nat, rest: seq<nat>, n: nat)
    requires s1 == WithDrainer(s, d, Removing(id, rest)) && n > 0
    ensures DrainsOn(cfg, s1, d, acked, n)
         == DrainsOn(cfg, DrainerMovesOn(s.(chat := s.chat.(pending := SortedSet.Rem(s.chat.pending, id))), d, rest), d, acked, n - 1)
  {
    hide DrainsOn;
    var done := s.(chat := s.chat.(pending := SortedSet.Rem(s.chat.pending, id)));
    assert s1.drainers - {d} == s.drainers - {d} && s1.drainers[d := Visiting(rest)] == s.drainers[d := Visiting(rest)];
    DrainsOneMore(cfg, s1, d, acked, n, DrainerMovesOn(done, d, rest));
  }

  lemma RepublishesAlone(cfg: Limits, s: State, s1: State, d: nat, acked: set<nat>, m: ChatMessage, id: nat, rest: seq<nat>, n: nat)
    returns (used: nat)
    requires PayloadOf(s.chat.stream, id) == Some(Encoded(m)) && cfg.size(Outgoing(m, id)) <= cfg.payloadMax
    requires s1 == WithDrainer(s, d, Republishing(Outgoing(m, id), id, rest)) && n >= 3
    ensures 1 <= used <= 3
    ensures DrainsOn(cfg, s1, d, acked, n - 1) == DrainsOn(cfg, EntryDone(cfg, s, d, acked, id, rest), d, acked, n - used)
  {
    hide DrainsOn;
    assert s1.drainers - {d} == s.drainers - {d} && s1.drainers[d := Visiting(rest)] == s.drainers[d := Visiting(rest)];
    assert s1.drainers[d := Removing(id, rest)] == s.drainers[d := Removing(id, rest)];
    if id in acked {
      var sent := s.(published := s.published + {Outgoing(m, id)});
      var s2 := WithDrainer(sent, d, Removing(id, rest));
      DrainsOneMore(cfg, s1, d, acked, n - 1, s2);
      RemovesAlone(cfg, sent, s2, d, acked, id, rest, n - 2);
      assert Together([Outgoing(m, id)]) == {Outgoing(m, id)};
      used := 3;
    } else {
      DrainsOneMore(cfg, s1, d, acked, n - 1, DrainerMovesOn(s, d, rest));
      assert Together([]) == {} && s.published + {} == s.published;
      used := 2;
    }
  }

  function IdsFrom(batch: seq<SortedSet.Scored>, k: nat): seq<nat>
    requires k <= |batch|
    decreases |batch| - k
  {
    if k == |batch| then [] else [batch[k].id] + IdsFrom(batch, k + 1)
  }

  lemma {:induction false} IdsFromAt(batch: seq<SortedSet.Scored>, k: nat)
    requires k <= |batch|
    ensures |IdsFrom(batch, k)| == |batch| - k
    ensures forall i :: k <= i < |batch| ==> IdsFrom(batch, k)[i - k] == batch[i].id
    decreases |batch| - k
  {
    if k < |batch| { IdsFromAt(batch, k + 1); }
  }

  /** The state s with another chat and more published, and a drain that has these ids to go. */
  function Draining(s: State, d: nat, chat: Chat, published: set<ChatMessage>, todo: seq<nat>): State {
    DrainerMovesOn(s.(chat := chat, published := published), d, todo)
  }

  lemma DrainsFurther(s: State, d: nat, chat: Chat, published: set<ChatMessage>, todo: seq<nat>,
                      chat': Chat, published': set<ChatMessage>, todo': seq<nat>)
    ensures DrainerMovesOn(Draining(s, d, chat, published, todo).(chat := chat', published := published'), d, todo')
         == Draining(s, d, chat', published', todo')
  {
    var m := Draining(s, d, chat, published, todo).drainers;
    assert m - {d} == s.drainers - {d} && m[d := Visiting(todo')] == s.drainers[d := Visiting(todo')];
  }

  lemma TogetherMore(a: seq<ChatMessage>, b: seq<ChatMessage>)
    ensures Together(a + b) == Together(a) + Together(b)
  {
    assert forall m :: m in a + b <==> m in a || m in b;
  }

  /** The state when a drain that began in s has settled the first k entries of its batch. */
  function DrainedUpTo(cfg: Limits, s: State, d: nat, acked: set<nat>, batch: seq<SortedSet.Scored>, k: nat): State
    requires k <= |batch| <= |s.chat.pending|
  {
    Draining(s, d, ChatDrain.PassedUpTo(cfg, s.chat, acked, batch, k),
             s.published + Together(ChatDrain.Republished(cfg, s.chat.stream, acked, batch[..k])), IdsFrom(batch, k))
  }

  /** One entry further. */
  lemma DrainedOneMore(cfg: Limits, s: State, d: nat, acked: set<nat>, batch: seq<SortedSet.Scored>, k: nat)
    requires k < |batch| <= |s.chat.pending|
    requires SortedSet.Valid(ChatDrain.PassedUpTo(cfg, s.chat, acked, batch, k).pending)
    ensures EntryDone(cfg, DrainedUpTo(cfg, s, d, acked, batch, k), d, acked, batch[k].id, IdsFrom(batch, k + 1))
         == DrainedUpTo(cfg, s, d, acked, batch, k + 1)
    ensures SortedSet.Valid(ChatDrain.PassedUpTo(cfg, s.chat, acked, batch, k + 1).pending)
  {
    var c, c' := ChatDrain.PassedUpTo(cfg, s.chat, acked, batch, k), ChatDrain.PassedUpTo(cfg, s.chat, acked, batch, k + 1);
    assert c.stream == s.chat.stream;
    ChatDrain.PassStep(cfg, s.chat, acked, batch, k);
    SortedSet.RemSpec(c.pending, batch[k].id);
    assert SortedSet.Valid(c'.pending);
    hide ChatDrain.Republished, ChatDrain.Gets, ChatDrain.Settle, ChatDrain.PassedUpTo, SortedSet.Valid;
    hide Together, IdsFrom, Draining, DrainerMovesOn;
    var out, gets := ChatDrain.Republished(cfg, s.chat.stream, acked, batch[..k]), ChatDrain.Gets(cfg, s.chat.stream, acked, batch[k].id);
    TogetherMore(out, gets);
    assert s.published + Together(out) + Together(gets) == s.published + Together(out + gets);
    DrainingShows(s, d, c, s.published + Together(out), IdsFrom(batch, k));
    DrainsFurther(s, d, c, s.published + Together(out), IdsFrom(batch, k), c', s.published + Together(out + gets), IdsFrom(batch, k + 1));
  }

  lemma DrainingShows(s: State, d: nat, chat: Chat, published: set<ChatMessage>, todo: seq<nat>)
    ensures Draining(s, d, chat, published, todo).chat == chat && Draining(s, d, chat, published, todo).published == published
  {
  }

  lemma VisitsNext(cfg: Limits, s: State, d: nat, acked: set<nat>, batch: seq<SortedSet.Scored>, k: nat)
    requires k < |batch| <= |s.chat.pending|
    ensures var t := DrainedUpTo(cfg, s, d, acked, batch, k);
      d in t.drainers && t.drainers[d] == Visiting([batch[k].id] + IdsFrom(batch, k + 1))
  {
  }

  lemma DrainReturned(cfg: Limits, s: State, d: nat, acked: set<nat>, batch: seq<SortedSet.Scored>, n: nat)
    requires |batch| <= |s.chat.pending|
    ensures var t := DrainedUpTo(cfg, s, d, acked, batch, |batch|);
      DrainsOn(cfg, t, d, acked, n) == t
  {
  }

  lemma {:induction false} BatchAlone(cfg: Limits, s: State, d: nat, acked: set<nat>, batch: seq<SortedSet.Scored>, k: nat, n: nat)
    requires k <= |batch| <= |s.chat.pending| && n >= 3 * (|batch| - k)
    requires SortedSet.Valid(ChatDrain.PassedUpTo(cfg, s.chat, acked, batch, k).pending)
    ensures DrainsOn(cfg, DrainedUpTo(cfg, s, d, acked, batch, k), d, acked, n) == DrainedUpTo(cfg, s, d, acked, batch, |batch|)
    decreases |batch| - k
  {
    hide DrainsOn, EntryDone, DrainedUpTo, ChatDrain.PassedUpTo, SortedSet.Valid, IdsFrom;
    if k == |batch| {
      DrainReturned(cfg, s, d, acked, batch, n);
    } else {
      DrainedOneMore(cfg, s, d, acked, batch, k);
      VisitsNext(cfg, s, d, acked, batch, k);
      var used := EntryAlone(cfg, DrainedUpTo(cfg, s, d, acked, batch, k), d, acked, batch[k].id, IdsFrom(batch, k + 1), n);
      BatchAlone(cfg, s, d, acked, batch, k + 1, n - used);
    }
  }

  lemma DrainStarts(cfg: Limits, s: State, d: nat, acked: set<nat>, batch: seq<SortedSet.Scored>)
    requires d !in s.drainers && batch == SortedSet.Range(s.chat.pending, 30)
    ensures Execute(cfg, s, DrainBegins(d)) == DrainedUpTo(cfg, s, d, acked, batch, 0)
  {
    ChatDrain.PassEnds(cfg, s.chat, acked, batch);
    IdsFromAt(batch, 0);
    assert Batch(s.chat) == IdsFrom(batch, 0);
    hide ChatDrain.PassedUpTo, ChatDrain.Republished, IdsFrom;
    assert Together([]) == {} && s.published + {} == s.published && s.drainers - {d} == s.drainers;
  }

  lemma DrainEnds(cfg: Limits, s: State, d: nat, acked: set<nat>, batch: seq<SortedSet.Scored>)
    requires d !in s.drainers && batch == SortedSet.Range(s.chat.pending, 30)
    ensures DrainedUpTo(cfg, s, d, acked, batch, |batch|)
         == s.(chat := ChatDrain.Pass(cfg, s.chat, acked),
               published := s.published + Together(ChatDrain.Republished(cfg, s.chat.stream, acked, batch)))
  {
    ChatDrain.PassEnds(cfg, s.chat, acked, batch);
    hide ChatDrain.PassedUpTo, ChatDrain.Republished, ChatDrain.Pass;
    assert s.drainers - {d} == s.drainers;
  }

  /** One drain by itself is one pass, and publishes what a pass does. */
  lemma DrainAlone(cfg: Limits, s: State, d: nat, acked: set<nat>)
    requires d !in s.drainers && Valid(s.chat)
    ensures var batch := SortedSet.Range(s.chat.pending, 30);
      DrainsOn(cfg, Execute(cfg, s, DrainBegins(d)), d, acked, 90)
        == s.(chat := ChatDrain.Pass(cfg, s.chat, acked),
              published := s.published + Together(ChatDrain.Republished(cfg, s.chat.stream, acked, batch)))
  {
    var batch := SortedSet.Range(s.chat.pending, 30);
    ChatDrain.PassEnds(cfg, s.chat, acked, batch);
    DrainStarts(cfg, s, d, acked, batch);
    DrainEnds(cfg, s, d, acked, batch);
    hide DrainsOn, DrainedUpTo, Execute, ChatDrain.Pass, ChatDrain.PassedUpTo, ChatDrain.Republished;
    BatchAlone(cfg, s, d, acked, batch, 0, 90);
  }
}
