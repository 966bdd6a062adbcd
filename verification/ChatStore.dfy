/**
 The Redis keys behind one room's chat: the message stream, the sequence counter
 and the sorted set of messages still to be published.
 */
module ChatStore {
  import opened Common
  import SortedSet

  datatype ChatMessage = ChatMessage(
    seqNo: nat, streamId: Option<nat>, roomId: RoomId, sender: UserId, text: string, sentAt: int)

  /** The message as it goes out to subscribers, carrying its stream id. */
  function Outgoing(base: ChatMessage, id: nat): ChatMessage {
    base.(streamId := Some(id))
  }

  /** The chat settings that matter here; size is the length of a message's JSON form. */
  datatype Limits = Limits(
    pendingMax: nat, payloadMax: nat, textMax: nat, streamMax: int, publishRetry: int,
    size: ChatMessage -> nat)

  /** What a stream entry's payload field decodes to. SendChat only writes Encoded. */
  datatype Payload = Encoded(message: ChatMessage) | Malformed | Blank

  /** Stream ids "ms-n" are ordered pairs of 64-bit numbers; they are modelled as their rank. */
  datatype Entry = Entry(id: nat, seqNo: nat, payload: Payload)

  /** How many pending entries one drain looks at. */
  const DRAIN_BATCH: nat := 30

  datatype Chat = Chat(stream: seq<Entry>, last: nat, counter: nat, pending: seq<SortedSet.Scored>)

  /** The keys of a room whose chat was never used, or was deleted. */
  const EMPTY := Chat([], 0, 0, [])

  function StreamIds(stream: seq<Entry>): set<nat> {
    set e | e in stream :: e.id
  }

  function PendingIds(c: Chat): set<nat> {
    SortedSet.Ids(c.pending)
  }

  ghost predicate Increasing(stream: seq<Entry>) {
    forall i, j :: 0 <= i < j < |stream| ==> stream[i].id < stream[j].id
  }

  ghost predicate Valid(c: Chat) {
    && Increasing(c.stream)
    && (forall e :: e in c.stream ==> e.id <= c.last)
    && SortedSet.Valid(c.pending)
  }

  /**
   XADD MAXLEN ~ maxLen: Redis picks an id above every id the stream has held and
   may drop some of the oldest entries, but never goes below maxLen entries.
   */
  predicate LegalAppend(c: Chat, id: nat, maxLen: int, drop: nat) {
    && id > c.last
    && (drop > 0 ==> maxLen > 0 && |c.stream| + 1 - drop >= maxLen)
  }

  function XAdd(c: Chat, id: nat, seqNo: nat, payload: Payload, maxLen: int, drop: nat): Chat
    requires LegalAppend(c, id, maxLen, drop)
  {
    c.(stream := (c.stream + [Entry(id, seqNo, payload)])[drop..], last := id)
  }

  /** XRANGE id id: the payload under one id, if the entry is still there. */
  function PayloadOf(stream: seq<Entry>, id: nat): Option<Payload> {
    if stream == [] then None
    else if stream[0].id == id then Some(stream[0].payload)
    else PayloadOf(stream[1..], id)
  }

  lemma {:induction false} PayloadOfSpec(stream: seq<Entry>, id: nat)
    ensures PayloadOf(stream, id).None? <==> id !in StreamIds(stream)
    ensures PayloadOf(stream, id).Some? ==>
              exists e :: e in stream && e.id == id && e.payload == PayloadOf(stream, id).value
  {
    if stream != [] {
      assert stream == [stream[0]] + stream[1..];
      PayloadOfSpec(stream[1..], id);
      if stream[0].id == id {
        assert stream[0] in stream;
      } else {
        assert StreamIds(stream) == {stream[0].id} + StreamIds(stream[1..]);
      }
    }
  }

  lemma XAddIncreasing(c: Chat, id: nat, seqNo: nat, payload: Payload)
    requires Valid(c) && id > c.last
    ensures Increasing(c.stream + [Entry(id, seqNo, payload)])
  {
    var full := c.stream + [Entry(id, seqNo, payload)];
    forall i, j | 0 <= i < j < |full| ensures full[i].id < full[j].id {
      assert c.stream[i] in c.stream;
    }
  }

  lemma XAddValid(c: Chat, id: nat, seqNo: nat, payload: Payload, maxLen: int, drop: nat)
    requires Valid(c) && LegalAppend(c, id, maxLen, drop)
    ensures Valid(XAdd(c, id, seqNo, payload, maxLen, drop))
  {
    hide SortedSet.Valid;
    var full := c.stream + [Entry(id, seqNo, payload)];
    XAddIncreasing(c, id, seqNo, payload);
    forall e | e in full[drop..] ensures e.id <= id {
      assert e in full;
    }
  }

  lemma OldestDropped(full: seq<Entry>, drop: nat)
    requires Increasing(full) && drop <= |full|
    ensures forall e, f :: e in full && e !in full[drop..] && f in full[drop..] ==> e.id < f.id
  {
    forall j | drop <= j < |full| ensures full[j] in full[drop..] {
      assert full[drop..][j - drop] == full[j];
    }
    forall e, f | e in full && e !in full[drop..] && f in full[drop..] ensures e.id < f.id {
      var i :| 0 <= i < |full| && full[i] == e;
      var k :| 0 <= k < |full| - drop && full[drop..][k] == f;
      assert full[drop + k] == f;
    }
  }

  /** Trimming takes the oldest entries first: what survives is the newest part of the stream. */
  lemma XAddKeepsNewest(c: Chat, id: nat, seqNo: nat, payload: Payload, maxLen: int, drop: nat)
    requires Valid(c) && LegalAppend(c, id, maxLen, drop)
    ensures var c' := XAdd(c, id, seqNo, payload, maxLen, drop);
      && Entry(id, seqNo, payload) in c'.stream
      && (forall e :: e in c'.stream ==> e in c.stream || e == Entry(id, seqNo, payload))
      && (forall e :: e in c.stream && e !in c'.stream ==> forall f :: f in c'.stream ==> e.id < f.id)
      && (|c'.stream| != |c.stream| + 1 ==> maxLen > 0 && maxLen <= |c'.stream| <= |c.stream|)
  {
    var full := c.stream + [Entry(id, seqNo, payload)];
    assert forall e :: e in full[drop..] ==> e in full;
    assert full[drop..][|full| - 1 - drop] == Entry(id, seqNo, payload);
    XAddIncreasing(c, id, seqNo, payload);
    OldestDropped(full, drop);
  }

  /** cache/redis RoomChat for one room; every method is one Redis command. */
  class RoomChat {
    var stream: seq<Entry>
    var last: nat
    var counter: nat
    var pending: seq<SortedSet.Scored>

    function Value(): Chat
      reads this
    {
      Chat(stream, last, counter, pending)
    }

    constructor ()
      ensures Value() == EMPTY
    {
      stream, last, counter, pending := [], 0, 0, [];
    }

    method PendingCount() returns (n: nat)
      requires Valid(Value())
      ensures n == |PendingIds(Value())|
    {
      SortedSet.CardIds(pending);
      n := |pending|;
    }

    method NextSeq() returns (n: nat)
      modifies this
      ensures n == old(counter) + 1
      ensures Value() == old(Value()).(counter := n)
    {
      counter := counter + 1;
      n := counter;
    }

    method AppendMessage(seqNo: nat, payload: Payload, maxLen: int, id: nat, drop: nat)
      requires LegalAppend(Value(), id, maxLen, drop)
      modifies this
      ensures Value() == old(XAdd(Value(), id, seqNo, payload, maxLen, drop))
    {
      stream := (stream + [Entry(id, seqNo, payload)])[drop..];
      last := id;
    }

    /** Missing exactly when no entry has the id; ids are unique, so the payload is the entry's. */
    method GetPayload(id: nat) returns (p: Option<Payload>)
      ensures p == PayloadOf(stream, id)
      ensures p.None? <==> forall e :: e in stream ==> e.id != id
      ensures Increasing(stream) ==> forall e :: e in stream && e.id == id ==> p == Some(e.payload)
    {
      PayloadOfSpec(stream, id);
      assert forall e :: e in stream ==> e.id in StreamIds(stream);
      p := PayloadOf(stream, id);
    }

    method EnqueuePending(now: int, id: nat)
      requires Valid(Value())
      modifies this
      ensures Value() == old(Value()).(pending := SortedSet.Add(old(pending), now, id))
      ensures Valid(Value()) && PendingIds(Value()) == old(PendingIds(Value())) + {id}
    {
      SortedSet.AddSpec(pending, now, id);
      pending := SortedSet.Add(pending, now, id);
    }

    method RemovePending(id: nat)
      requires Valid(Value())
      modifies this
      ensures Value() == old(Value()).(pending := SortedSet.Rem(old(pending), id))
      ensures Valid(Value()) && PendingIds(Value()) == old(PendingIds(Value())) - {id}
    {
      SortedSet.RemSpec(pending, id);
      pending := SortedSet.Rem(pending, id);
    }

    /** max <= 0 means 50. */
    method PendingStreamIDs(max: int) returns (ids: seq<SortedSet.Scored>)
      requires Valid(Value())
      ensures ids == SortedSet.Range(pending, if max <= 0 then 50 else max)
      ensures SortedSet.LowestRanked(pending, if max <= 0 then 50 else max, ids)
    {
      var n := if max <= 0 then 50 else max;
      SortedSet.RangeSpec(pending, n);
      ids := SortedSet.Range(pending, n);
    }

    method DeleteRoom()
      modifies this
      ensures Value() == EMPTY
    {
      stream, last, counter, pending := [], 0, 0, [];
    }
  }
}
