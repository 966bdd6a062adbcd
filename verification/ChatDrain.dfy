/**
 Draining a room's pending set: what one pass does, how many passes empty the set, and
 when it is stuck.
 */
module ChatDrain {
  import opened Common
  import opened ChatStore
  import SortedSet

  /** The message still has an entry, but its outgoing form is too long or is not acknowledged. */
  predicate Stuck(cfg: Limits, stream: seq<Entry>, acked: set<nat>, id: nat) {
    var p := PayloadOf(stream, id);
    p.Some? && p.value.Encoded? && (cfg.size(Outgoing(p.value.message, id)) > cfg.payloadMax || id !in acked)
  }

  /** The members a pass keeps, in rank order. */
  function Kept(cfg: Limits, stream: seq<Entry>, acked: set<nat>, z: seq<SortedSet.Scored>): seq<SortedSet.Scored> {
    if z == [] then []
    else
      var m, init := z[|z| - 1], z[..|z| - 1];
      Kept(cfg, stream, acked, init) + (if Stuck(cfg, stream, acked, m.id) then [m] else [])
  }

  /** The publish one entry gets through, if any. */
  function Gets(cfg: Limits, stream: seq<Entry>, acked: set<nat>, id: nat): seq<ChatMessage> {
    var p := PayloadOf(stream, id);
    if p.Some? && p.value.Encoded? && !Stuck(cfg, stream, acked, id) then [Outgoing(p.value.message, id)] else []
  }

  /** The messages a pass gets through, in rank order. */
  function Republished(cfg: Limits, stream: seq<Entry>, acked: set<nat>, z: seq<SortedSet.Scored>): seq<ChatMessage> {
    if z == [] then []
    else Republished(cfg, stream, acked, z[..|z| - 1]) + Gets(cfg, stream, acked, z[|z| - 1].id)
  }

  /** One entry loses its pending mark, unless it is stuck. */
  function Settle(cfg: Limits, c: Chat, acked: set<nat>, id: nat): Chat {
    if Stuck(cfg, c.stream, acked, id) then c else c.(pending := SortedSet.Rem(c.pending, id))
  }

  /** The chat when a pass over batch has visited its first k entries. */
  function PassedUpTo(cfg: Limits, c: Chat, acked: set<nat>, batch: seq<SortedSet.Scored>, k: nat): Chat
    requires k <= |batch| <= |c.pending|
  {
    c.(pending := Kept(cfg, c.stream, acked, batch[..k]) + (batch[k..] + c.pending[|batch|..]))
  }

  /** Visiting one entry after the other is one pass. */
  lemma PassStep(cfg: Limits, c: Chat, acked: set<nat>, batch: seq<SortedSet.Scored>, k: nat)
    requires k < |batch| <= |c.pending|
    requires SortedSet.Valid(PassedUpTo(cfg, c, acked, batch, k).pending)
    ensures Settle(cfg, PassedUpTo(cfg, c, acked, batch, k), acked, batch[k].id)
         == PassedUpTo(cfg, c, acked, batch, k + 1)
    ensures Republished(cfg, c.stream, acked, batch[..k + 1])
         == Republished(cfg, c.stream, acked, batch[..k]) + Gets(cfg, c.stream, acked, batch[k].id)
  {
    assert batch[..k + 1][..k] == batch[..k];
    var kept, after := Kept(cfg, c.stream, acked, batch[..k]), batch[k + 1..] + c.pending[|batch|..];
    assert kept + (batch[k..] + c.pending[|batch|..]) == kept + [batch[k]] + after;
    SortedSet.RemAt(kept, batch[k], after);
    assert Kept(cfg, c.stream, acked, batch[..k + 1])
        == kept + (if Stuck(cfg, c.stream, acked, batch[k].id) then [batch[k]] else []);
  }

  /** Before its first entry a pass has done nothing; after its last it is complete. */
  lemma PassEnds(cfg: Limits, c: Chat, acked: set<nat>, batch: seq<SortedSet.Scored>)
    requires batch == SortedSet.Range(c.pending, DRAIN_BATCH)
    ensures PassedUpTo(cfg, c, acked, batch, 0) == c && Republished(cfg, c.stream, acked, batch[..0]) == []
    ensures PassedUpTo(cfg, c, acked, batch, |batch|) == Pass(cfg, c, acked) && batch[..|batch|] == batch
    ensures forall m :: m in batch ==> m in c.pending
  {
    assert batch[..|batch|] == batch && c.pending == batch + c.pending[|batch|..];
    assert batch[0..] + c.pending[|batch|..] == c.pending;
    assert batch[|batch|..] + c.pending[|batch|..] == c.pending[|batch|..];
  }

  /** One pass over a chat nobody else touches, where the ids in acked get their publish through. */
  function Pass(cfg: Limits, c: Chat, acked: set<nat>): Chat {
    var batch := SortedSet.Range(c.pending, DRAIN_BATCH);
    c.(pending := Kept(cfg, c.stream, acked, batch) + c.pending[|batch|..])
  }

  /** Repeated passes, each with its own acknowledgements. */
  function Passes(cfg: Limits, c: Chat, acked: seq<set<nat>>): Chat
    decreases |acked|
  {
    if acked == [] then c else Passes(cfg, Pass(cfg, c, acked[0]), acked[1..])
  }

  lemma {:induction false} KeptSpec(cfg: Limits, stream: seq<Entry>, acked: set<nat>, z: seq<SortedSet.Scored>)
    ensures forall m :: m in Kept(cfg, stream, acked, z) <==> m in z && Stuck(cfg, stream, acked, m.id)
    ensures (forall m :: m in z ==> !Stuck(cfg, stream, acked, m.id)) ==> Kept(cfg, stream, acked, z) == []
    ensures |Kept(cfg, stream, acked, z)| <= |z|
    ensures |Kept(cfg, stream, acked, z)| == |z| <==> Kept(cfg, stream, acked, z) == z
    ensures Kept(cfg, stream, acked, z) == z <==> forall m :: m in z ==> Stuck(cfg, stream, acked, m.id)
  {
    if z != [] {
      var m, init := z[|z| - 1], z[..|z| - 1];
      assert z == init + [m] && m in z;
      KeptSpec(cfg, stream, acked, init);
      assert !Stuck(cfg, stream, acked, m.id) ==> |Kept(cfg, stream, acked, z)| < |z|;
    }
  }

  // ---------------------------------------------------------------- what that means for the entries

  /** The stream has an entry with this id that decodes; m is its message, carrying the id. */
  ghost predicate Carries(stream: seq<Entry>, id: nat, m: ChatMessage) {
    exists e :: e in stream && e.id == id && e.payload.Encoded? && m == e.payload.message.(streamId := Some(id))
  }

  /** Such a message is short enough, and its publish is acknowledged. */
  ghost predicate GoesOut(cfg: Limits, stream: seq<Entry>, id: nat, ok: bool) {
    ok && exists m :: Carries(stream, id, m) && cfg.size(m) <= cfg.payloadMax
  }

  /** There is such a message, and it is too long or not acknowledged. */
  ghost predicate StaysBack(cfg: Limits, stream: seq<Entry>, id: nat, ok: bool) {
    exists m :: Carries(stream, id, m) && (cfg.size(m) > cfg.payloadMax || !ok)
  }

  lemma CarriesSpec(stream: seq<Entry>, id: nat, m: ChatMessage)
    requires Increasing(stream)
    ensures var p := PayloadOf(stream, id);
      Carries(stream, id, m) <==> p.Some? && p.value.Encoded? && m == Outgoing(p.value.message, id)
  {
    PayloadOfSpec(stream, id);
    assert forall e :: e in stream ==> e.id in StreamIds(stream);
  }

  /** One entry: what it gets published, and when it stays pending. */
  lemma EntrySpec(cfg: Limits, stream: seq<Entry>, acked: set<nat>, id: nat)
    requires Increasing(stream)
    ensures var gets := Gets(cfg, stream, acked, id);
      && (gets == [] <==> !GoesOut(cfg, stream, id, id in acked))
      && (gets != [] ==> |gets| == 1 && Carries(stream, id, gets[0]))
    ensures Stuck(cfg, stream, acked, id) <==> StaysBack(cfg, stream, id, id in acked)
  {
    forall m { CarriesSpec(stream, id, m); }
    hide Carries, Increasing;
    var p := PayloadOf(stream, id);
    if p.Some? && p.value.Encoded? { assert Carries(stream, id, Outgoing(p.value.message, id)); }
  }

  /**
   What is published for a list of pending entries: at the ranks in at, one after the other, the
   entry's message; and those are the ranks of the entries that go out.
   */
  ghost predicate InOrder(stream: seq<Entry>, z: seq<SortedSet.Scored>, at: seq<nat>, out: seq<ChatMessage>) {
    && |at| == |out| && (forall i, j :: 0 <= i < j < |at| ==> at[i] < at[j])
    && (forall i :: 0 <= i < |at| ==> at[i] < |z| && Carries(stream, z[at[i]].id, out[i]))
  }

  lemma InOrderMore(stream: seq<Entry>, z: seq<SortedSet.Scored>, last: SortedSet.Scored,
                    at: seq<nat>, out: seq<ChatMessage>, m: ChatMessage)
    requires InOrder(stream, z, at, out) && Carries(stream, last.id, m)
    ensures InOrder(stream, z + [last], at + [|z|], out + [m])
  {
    hide Carries;
    var at', out', z' := at + [|z|], out + [m], z + [last];
    forall i | 0 <= i < |at'| ensures at'[i] < |z'| && Carries(stream, z'[at'[i]].id, out'[i]) {
      if i < |at| { assert at'[i] == at[i] && out'[i] == out[i] && z'[at[i]] == z[at[i]]; }
    }
    forall i, j | 0 <= i < j < |at'| ensures at'[i] < at'[j] {
      assert at'[i] == at[i];
    }
  }

  lemma InOrderStill(stream: seq<Entry>, z: seq<SortedSet.Scored>, last: SortedSet.Scored, at: seq<nat>, out: seq<ChatMessage>)
    requires InOrder(stream, z, at, out)
    ensures InOrder(stream, z + [last], at, out)
  {
    hide Carries;
    forall i | 0 <= i < |at| ensures at[i] < |z| + 1 && Carries(stream, (z + [last])[at[i]].id, out[i]) {
      assert (z + [last])[at[i]] == z[at[i]];
    }
  }

  lemma {:induction false} RepublishedSpec(cfg: Limits, stream: seq<Entry>, acked: set<nat>, z: seq<SortedSet.Scored>)
    returns (at: seq<nat>)
    requires Increasing(stream)
    ensures InOrder(stream, z, at, Republished(cfg, stream, acked, z)) && forall i :: i in at ==> i < |z|
    ensures forall k :: 0 <= k < |z| ==> (k in at <==> GoesOut(cfg, stream, z[k].id, z[k].id in acked))
  {
    if z == [] {
      at := [];
    } else {
      hide Gets, GoesOut, Carries, Increasing, InOrder;
      var n := |z| - 1;
      var init := RepublishedSpec(cfg, stream, acked, z[..n]);
      EntrySpec(cfg, stream, acked, z[n].id);
      var out, gets := Republished(cfg, stream, acked, z[..n]), Gets(cfg, stream, acked, z[n].id);
      assert z == z[..n] + [z[n]] && n !in init;
      if gets == [] {
        InOrderStill(stream, z[..n], z[n], init, out);
        assert out + gets == out;
        at := init;
      } else {
        InOrderMore(stream, z[..n], z[n], init, out, gets[0]);
        assert gets == [gets[0]];
        at := init + [n];
      }
      forall k | 0 <= k < n ensures k in at <==> GoesOut(cfg, stream, z[k].id, z[k].id in acked) {
        assert z[..n][k] == z[k] && (k in at <==> k in init);
      }
    }
  }

  /** What a pass leaves pending: all beyond its batch of 30, and what stays back. */
  lemma PassSpec(cfg: Limits, c: Chat, acked: set<nat>)
    requires Valid(c)
    ensures var batch := if |c.pending| <= 30 then c.pending else c.pending[..30];
      && Pass(cfg, c, acked) == c.(pending := Pass(cfg, c, acked).pending)
      && forall m :: m in Pass(cfg, c, acked).pending
           <==> m in c.pending && (m in batch ==> StaysBack(cfg, c.stream, m.id, m.id in acked))
  {
    var batch := SortedSet.Range(c.pending, DRAIN_BATCH);
    var rest := c.pending[|batch|..];
    assert c.pending == batch + rest;
    KeptSpec(cfg, c.stream, acked, batch);
    forall m { EntrySpec(cfg, c.stream, acked, m); }
    hide Kept, Stuck, StaysBack, Increasing;
    forall m | m in rest ensures m !in batch {
      var j :| 0 <= j < |rest| && rest[j] == m;
      assert c.pending[|batch| + j] == m;
      assert forall i :: 0 <= i < |batch| ==> batch[i] == c.pending[i] && c.pending[i].id != m.id;
    }
  }

  /** A pass changes nothing exactly when every entry of its batch is stuck. */
  lemma PassIsStuck(cfg: Limits, c: Chat, acked: set<nat>)
    ensures Pass(cfg, c, acked) == c <==>
            forall m :: m in SortedSet.Range(c.pending, DRAIN_BATCH) ==> Stuck(cfg, c.stream, acked, m.id)
  {
    var batch := SortedSet.Range(c.pending, DRAIN_BATCH);
    KeptSpec(cfg, c.stream, acked, batch);
    assert c.pending == batch + c.pending[|batch|..];
    var kept := Kept(cfg, c.stream, acked, batch);
    if Pass(cfg, c, acked) == c {
      assert |kept + c.pending[|batch|..]| == |c.pending|;
    }
  }

  predicate TooLong(cfg: Limits, stream: seq<Entry>, id: nat) {
    var p := PayloadOf(stream, id);
    p.Some? && p.value.Encoded? && cfg.size(Outgoing(p.value.message, id)) > cfg.payloadMax
  }

  /** Thirty lowest-ranked entries that are too long once they carry their id starve all others for ever. */
  lemma {:induction false} OversizedBatchStarvesOthers(cfg: Limits, c: Chat, acked: seq<set<nat>>)
    requires forall m :: m in SortedSet.Range(c.pending, DRAIN_BATCH) ==> TooLong(cfg, c.stream, m.id)
    ensures Passes(cfg, c, acked) == c
    decreases |acked|
  {
    if acked != [] {
      PassIsStuck(cfg, c, acked[0]);
      OversizedBatchStarvesOthers(cfg, c, acked[1..]);
    }
  }

  predicate Unmoved(cfg: Limits, c: Chat, acked: seq<set<nat>>) {
    Passes(cfg, c, acked) == c
  }

  /**
   And nothing else does for ever: no acknowledgements of any passes change the set exactly
   when each entry of its batch is too long.
   */
  lemma NothingEverDrainsIffAllTooLong(cfg: Limits, c: Chat)
    ensures (forall acked :: Unmoved(cfg, c, acked))
       <==> forall m :: m in SortedSet.Range(c.pending, DRAIN_BATCH) ==> TooLong(cfg, c.stream, m.id)
  {
    var batch := SortedSet.Range(c.pending, DRAIN_BATCH);
    if forall m :: m in batch ==> TooLong(cfg, c.stream, m.id) {
      forall acked ensures Unmoved(cfg, c, acked) { OversizedBatchStarvesOthers(cfg, c, acked); }
    } else {
      var m :| m in batch && !TooLong(cfg, c.stream, m.id);
      var all := [PendingIds(c)];
      assert m in c.pending && m.id in all[0];
      assert !Stuck(cfg, c.stream, all[0], m.id);
      PassIsStuck(cfg, c, all[0]);
      assert all[1..] == [] && Passes(cfg, Pass(cfg, c, all[0]), []) == Pass(cfg, c, all[0]);
      assert !Unmoved(cfg, c, all);
    }
  }

  /** Every publish gets through: all pending ids are acknowledged in each pass, and none is too long. */
  ghost predicate AllGetThrough(cfg: Limits, c: Chat, acked: seq<set<nat>>) {
    forall m :: m in c.pending ==>
      !TooLong(cfg, c.stream, m.id) && forall a :: a in acked ==> m.id in a
  }

  lemma PassDrainsBatch(cfg: Limits, c: Chat, acked: set<nat>)
    requires AllGetThrough(cfg, c, [acked])
    ensures Pass(cfg, c, acked) == c.(pending := c.pending[|SortedSet.Range(c.pending, DRAIN_BATCH)|..])
  {
    var batch := SortedSet.Range(c.pending, DRAIN_BATCH);
    KeptSpec(cfg, c.stream, acked, batch);
    assert forall m :: m in batch ==> m in c.pending;
    assert acked in [acked];
  }

  /**
   If everything gets through, k passes leave n - 30k of n entries, so the set is empty
   after exactly ceil(n / 30) passes and not one pass earlier.
   */
  lemma {:induction false} PassesEmptyTheSet(cfg: Limits, c: Chat, acked: seq<set<nat>>)
    requires AllGetThrough(cfg, c, acked)
    ensures var n, k := |c.pending|, |acked|;
      && |Passes(cfg, c, acked).pending| == (if n <= 30 * k then 0 else n - 30 * k)
      && (Passes(cfg, c, acked).pending == [] <==> k >= (n + 29) / 30)
      && Passes(cfg, c, acked).stream == c.stream
    decreases |acked|
  {
    if acked != [] {
      assert acked[0] in acked;
      PassDrainsBatch(cfg, c, acked[0]);
      var c' := Pass(cfg, c, acked[0]);
      assert forall m :: m in c'.pending ==> m in c.pending;
      assert forall a :: a in acked[1..] ==> a in acked;
      PassesEmptyTheSet(cfg, c', acked[1..]);
    }
  }
}
