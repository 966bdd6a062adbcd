/** The chat half of the room service: SendChat, its publish retries, and one pending drain. */
module ChatService {
  import opened Common
  import opened ChatStore
  import ChatDrain
  import SortedSet

  datatype ChatError = TextEmpty | TextTooLong | PendingFull | RateLimited | PayloadTooLarge

  datatype SendResult = Sent(message: ChatMessage, deferred: bool) | Rejected(error: ChatError)

  /** The publish tries one call makes: the first and its retries. */
  function Tries(retry: int): nat {
    if 1 + retry < 1 then 1 else 1 + retry
  }

  /** Some try is acknowledged; answer(i) is what the publisher says to try i. */
  predicate Acked(retry: int, answer: nat -> bool) {
    exists i: nat :: i < Tries(retry) && answer(i)
  }

  /** The same for a drain, whose publisher answers answer(id, i) to try i for entry id. */
  predicate AckedFor(retry: int, answer: (nat, nat) -> bool, id: nat) {
    exists i: nat :: i < Tries(retry) && answer(id, i)
  }

  predicate TextOk(cfg: Limits, plain: string) {
    0 < |TrimSpace(plain)| <= cfg.textMax
  }

  class Service {
    const cfg: Limits
    const store: RoomChat
    /** What the publisher acknowledged, in order. */
    var published: seq<ChatMessage>

    ghost predicate Ready()
      reads this, store
    {
      Valid(store.Value())
    }

    constructor (cfg: Limits)
      ensures this.cfg == cfg && fresh(store) && store.Value() == EMPTY && published == [] && Ready()
    {
      this.cfg := cfg;
      store := new RoomChat();
      published := [];
    }

    /** publishAblyChat: stop at the first acknowledged try. */
    method PublishAblyChat(message: ChatMessage, answer: nat -> bool) returns (ok: bool)
      modifies this
      ensures ok <==> Acked(cfg.publishRetry, answer)
      ensures ok <==> exists i: nat :: (i == 0 || i <= cfg.publishRetry) && answer(i)
      ensures published == old(published) + (if ok then [message] else [])
    {
      var tries := 1 + cfg.publishRetry;
      if tries < 1 { tries := 1; }
      ok := false;
      var i := 0;
      while i < tries
        invariant 0 <= i <= tries
        invariant forall j: nat :: j < i ==> !answer(j)
        invariant published == old(published)
      {
        if answer(i) {
          published := published + [message];
          return true;
        }
        i := i + 1;
      }
    }

    /** The steps of SendChat from XADD on. */
    method StoreAndPublish(base: ChatMessage, now: int, id: nat, drop: nat, answer: nat -> bool) returns (deferred: bool)
      requires Ready() && LegalAppend(store.Value(), id, cfg.streamMax, drop)
      modifies this, store
      ensures Ready()
      ensures var c := old(XAdd(store.Value(), id, base.seqNo, Encoded(base), cfg.streamMax, drop));
        store.Value() == if deferred then c.(pending := SortedSet.Add(c.pending, now, id)) else c
      ensures PendingIds(store.Value()) == old(PendingIds(store.Value())) + (if deferred then {id} else {})
      ensures |store.pending| <= |old(store.pending)| + 1
      ensures deferred <==> cfg.size(Outgoing(base, id)) > cfg.payloadMax || !Acked(cfg.publishRetry, answer)
      ensures published == old(published) + (if deferred then [] else [Outgoing(base, id)])
    {
      XAddValid(store.Value(), id, base.seqNo, Encoded(base), cfg.streamMax, drop);
      SortedSet.AddSpec(store.pending, now, id);
      store.AppendMessage(base.seqNo, Encoded(base), cfg.streamMax, id, drop);
      var out := Outgoing(base, id);
      if cfg.size(out) > cfg.payloadMax {
        store.EnqueuePending(now, id);
        return true;
      }
      var ok := PublishAblyChat(out, answer);
      if ok { return false; }
      store.EnqueuePending(now, id);
      deferred := true;
    }

    /**
     SendChat with nobody else at work on the room. The id Redis picks, what it trims and
     the rate limiter's answer are parameters.
     */
    method SendChat(roomId: RoomId, sender: UserId, plain: string, rateOk: bool, now: int,
                    id: nat, drop: nat, answer: nat -> bool) returns (r: SendResult)
      requires Ready() && LegalAppend(store.Value(), id, cfg.streamMax, drop)
      modifies this, store
      ensures Ready()
      // refused: only a message that is too long costs anything, namely its sequence number
      ensures r.Rejected? ==> published == old(published) && store.Value() == old(store.Value()).(
                counter := old(store.counter) + (if r.error.PayloadTooLarge? then 1 else 0))
      ensures r == Rejected(TextEmpty) <==> forall c :: c in plain ==> IsSpace(c)
      ensures r == Rejected(TextTooLong) <==> |TrimSpace(plain)| > cfg.textMax
      ensures r == Rejected(PendingFull) <==>
        TextOk(cfg, plain) && |old(PendingIds(store.Value()))| >= cfg.pendingMax
      ensures r == Rejected(RateLimited) <==>
        TextOk(cfg, plain) && |old(PendingIds(store.Value()))| < cfg.pendingMax && !rateOk
      ensures r == Rejected(PayloadTooLarge) <==>
        && TextOk(cfg, plain) && |old(PendingIds(store.Value()))| < cfg.pendingMax && rateOk
        && cfg.size(ChatMessage(old(store.counter) + 1, None, roomId, sender, TrimSpace(plain), now)) > cfg.payloadMax
      // sent: stored as the newest entry, and either published or marked pending, never both or neither
      ensures r.Sent? ==>
        && rateOk && |old(PendingIds(store.Value()))| < cfg.pendingMax
        && r.message == ChatMessage(old(store.counter) + 1, Some(id), roomId, sender, TrimSpace(plain), now)
        && store.stream == (old(store.stream)
             + [Entry(id, r.message.seqNo, Encoded(r.message.(streamId := None)))])[drop..]
        && store.last == id && store.counter == old(store.counter) + 1
        && (r.deferred <==> cfg.size(r.message) > cfg.payloadMax || !Acked(cfg.publishRetry, answer))
        && published == old(published) + (if r.deferred then [] else [r.message])
        && PendingIds(store.Value()) == old(PendingIds(store.Value())) + (if r.deferred then {id} else {})
      ensures |old(store.pending)| <= cfg.pendingMax ==> |store.pending| <= cfg.pendingMax
    {
      var text := TrimSpace(plain);
      assert text == "" <==> |text| == 0;
      if text == "" { return Rejected(TextEmpty); }
      if |text| > cfg.textMax { return Rejected(TextTooLong); }
      var npend := store.PendingCount();
      SortedSet.CardIds(store.pending);
      if npend >= cfg.pendingMax { return Rejected(PendingFull); }
      if !rateOk { return Rejected(RateLimited); }
      var n := store.NextSeq();
      var base := ChatMessage(n, None, roomId, sender, text, now);
      if cfg.size(base) > cfg.payloadMax { return Rejected(PayloadTooLarge); }
      var deferred := StoreAndPublish(base, now, id, drop, answer);
      r := Sent(Outgoing(base, id), deferred);
    }

    /** One entry of a drain: it loses its pending mark unless it is stuck. */
    method DrainEntry(id: nat, ghost acked: set<nat>, answer: (nat, nat) -> bool)
      requires Ready() && (id in acked <==> AckedFor(cfg.publishRetry, answer, id))
      modifies this, store
      ensures Ready()
      ensures store.Value() == ChatDrain.Settle(cfg, old(store.Value()), acked, id) && store.stream == old(store.stream)
      ensures published == old(published) + ChatDrain.Gets(cfg, old(store.stream), acked, id)
      // its message goes out with its stream id iff its entry decodes, is short enough and is acknowledged
      ensures |published| <= |old(published)| + 1 && old(published) <= published
      ensures |published| > |old(published)| ==> ChatDrain.Carries(store.stream, id, published[|old(published)|])
      ensures |published| > |old(published)|
         <==> ChatDrain.GoesOut(cfg, store.stream, id, exists i: nat :: (i == 0 || i <= cfg.publishRetry) && answer(id, i))
    {
      ChatDrain.EntrySpec(cfg, store.stream, acked, id);
      var payload := store.GetPayload(id);
      if payload.None? || !payload.value.Encoded? {
        store.RemovePending(id);
        return;
      }
      var out := Outgoing(payload.value.message, id);
      if cfg.size(out) > cfg.payloadMax { return; }
      var answerThis := (i: nat) => answer(id, i);
      var ok := PublishAblyChat(out, answerThis);
      assert ok == (id in acked) by {
        if id in acked {
          var i: nat :| i < Tries(cfg.publishRetry) && answer(id, i);
          assert answerThis(i);
        }
      }
      if !ok { return; }
      store.RemovePending(id);
    }

    /** drainRoomPending. The ranks of the batch that are published are those in at, in order. */
    method DrainRoomPending(ghost acked: set<nat>, answer: (nat, nat) -> bool)
      returns (ghost batch: seq<SortedSet.Scored>, ghost at: seq<nat>)
      requires Ready()
      requires forall m :: m in store.pending ==> (m.id in acked <==> AckedFor(cfg.publishRetry, answer, m.id))
      modifies this, store
      ensures Ready() && store.Value() == ChatDrain.Pass(cfg, old(store.Value()), acked)
      ensures published == old(published)
                + ChatDrain.Republished(cfg, old(store.stream), acked, SortedSet.Range(old(store.pending), DRAIN_BATCH))
      // of the 30 lowest-ranked pending entries, or all there are, those that go out are published in rank order, each
      // once and with its stream id; pending stays what is beyond them or stays back
      ensures batch == if |old(store.pending)| <= 30 then old(store.pending) else old(store.pending)[..30]
      ensures |old(published)| <= |published| && published[..|old(published)|] == old(published)
      ensures ChatDrain.InOrder(store.stream, batch, at, published[|old(published)|..])
      ensures forall k :: 0 <= k < |batch| ==>
        (k in at <==> ChatDrain.GoesOut(cfg, store.stream, batch[k].id, AckedFor(cfg.publishRetry, answer, batch[k].id)))
      ensures store.stream == old(store.stream) && forall m :: m in store.pending <==>
        && m in old(store.pending)
        && (m in batch ==> ChatDrain.StaysBack(cfg, store.stream, m.id, AckedFor(cfg.publishRetry, answer, m.id)))
    {
      hide ChatDrain.GoesOut, ChatDrain.StaysBack, ChatDrain.InOrder, ChatDrain.Gets, AckedFor;
      hide SortedSet.LowestRanked, ChatDrain.PassedUpTo, ChatDrain.Pass, ChatDrain.Settle, ChatDrain.Republished;
      var ids := store.PendingStreamIDs(DRAIN_BATCH);
      ghost var c := store.Value();
      batch := ids;
      ChatDrain.PassEnds(cfg, c, acked, ids);
      var k := 0;
      while k < |ids|
        invariant 0 <= k <= |ids| && Ready() && store.stream == c.stream
        invariant store.Value() == ChatDrain.PassedUpTo(cfg, c, acked, ids, k)
        invariant published == old(published) + ChatDrain.Republished(cfg, c.stream, acked, ids[..k])
      {
        assert ids[k] in c.pending;
        ChatDrain.PassStep(cfg, c, acked, ids, k);
        ghost var sofar, gets := ChatDrain.Republished(cfg, c.stream, acked, ids[..k]), ChatDrain.Gets(cfg, c.stream, acked, ids[k].id);
        DrainEntry(ids[k].id, acked, answer);
        assert old(published) + sofar + gets == old(published) + (sofar + gets);
        k := k + 1;
      }
      at := ChatDrain.RepublishedSpec(cfg, c.stream, acked, ids);
      ChatDrain.PassSpec(cfg, c, acked);
      hide SortedSet.Valid, Increasing;
      assert published[|old(published)|..] == ChatDrain.Republished(cfg, c.stream, acked, ids);
    }
  }
}
