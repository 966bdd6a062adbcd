/**
 Chat history as a client sees it: it asks for a page, takes the stream id of the last
 message shown as its next before_id, and goes on while has_more holds. In between, other
 people's messages are appended and old ones trimmed.
 */
module ChatClient {
  import opened Common
  import opened ChatStore
  import opened ChatPaging
  import SortedSet

  /** What a room's chat keys go through while the room lives; Aside is anything off the stream. */
  datatype Change =
    | Appended(id: nat, seqNo: nat, message: ChatMessage, maxLen: int, drop: nat)
    | Aside(counter: nat, pending: seq<SortedSet.Scored>)

  ghost predicate LegalChange(c: Chat, change: Change) {
    match change
    case Appended(id, _, _, maxLen, drop) => LegalAppend(c, id, maxLen, drop)
    case Aside(_, pending) => SortedSet.Valid(pending)
  }

  ghost function Changed(c: Chat, change: Change): Chat
    requires LegalChange(c, change)
  {
    match change
    case Appended(id, seqNo, message, maxLen, drop) => XAdd(c, id, seqNo, Encoded(message), maxLen, drop)
    case Aside(counter, pending) => c.(counter := counter, pending := pending)
  }

  ghost predicate LegalChanges(c: Chat, changes: seq<Change>)
    decreases changes
  {
    changes == [] || (LegalChange(c, changes[0]) && LegalChanges(Changed(c, changes[0]), changes[1..]))
  }

  ghost function AfterChanges(c: Chat, changes: seq<Change>): Chat
    requires LegalChanges(c, changes)
    decreases changes
  {
    if changes == [] then c else AfterChanges(Changed(c, changes[0]), changes[1..])
  }

  /** Every entry decodes, as those SendChat writes do. */
  ghost predicate AllDecode(entries: seq<Entry>) {
    forall e :: e in entries ==> e.payload.Encoded?
  }

  lemma ChangeEvolves(c: Chat, change: Change)
    requires Valid(c) && AllDecode(c.stream) && LegalChange(c, change)
    ensures var c' := Changed(c, change); Valid(c') && AllDecode(c'.stream) && Evolves(c, c')
  {
    match change
    case Appended(id, seqNo, message, maxLen, drop) =>
      AppendEvolves(c, id, seqNo, Encoded(message), maxLen, drop);
      XAddKeepsNewest(c, id, seqNo, Encoded(message), maxLen, drop);
    case Aside(_, _) =>
  }

  /** Any number of changes only adds newer entries and takes old ones away. */
  lemma {:induction false} ChangesEvolve(c: Chat, changes: seq<Change>)
    requires Valid(c) && AllDecode(c.stream) && LegalChanges(c, changes)
    ensures var c' := AfterChanges(c, changes); Valid(c') && AllDecode(c'.stream) && Evolves(c, c')
    decreases changes
  {
    if changes != [] {
      ChangeEvolves(c, changes[0]);
      ChangesEvolve(Changed(c, changes[0]), changes[1..]);
      EvolvesTransitive(c, Changed(c, changes[0]), AfterChanges(c, changes));
    }
  }

  // ---------------------------------------------------------------- the client

  /** One request: the chat it met and the messages it got. */
  datatype Visit = Visit(chat: Chat, items: seq<ChatMessage>)

  /** What the first k requests showed. */
  function Shown(visits: seq<Visit>, k: nat): seq<ChatMessage>
    requires k <= |visits|
  {
    if k == 0 then [] else Shown(visits, k - 1) + visits[k - 1].items
  }

  /** The before_id to send next. */
  function Cursor(shown: seq<ChatMessage>): Option<nat> {
    if shown == [] then None else shown[|shown| - 1].streamId
  }

  predicate VisitMore(visits: seq<Visit>, limit: int, k: nat)
    requires k < |visits|
  {
    HasMore(visits[k].chat.stream, Cursor(Shown(visits, k)), limit)
  }

  /** Request k got the page older than its cursor, and was not the last if there was more. */
  ghost predicate VisitOk(visits: seq<Visit>, limit: int, k: nat)
    requires k < |visits|
  {
    && visits[k].items == Decoded(Page(visits[k].chat.stream, Cursor(Shown(visits, k)), limit))
    && (k < |visits| - 1 ==> VisitMore(visits, limit, k))
  }

  /** Between requests k and k + 1 the chat went through these changes. */
  ghost predicate Between(visits: seq<Visit>, changes: seq<seq<Change>>, k: nat)
    requires |changes| + 1 == |visits| && k < |changes|
  {
    LegalChanges(visits[k].chat, changes[k]) && visits[k + 1].chat == AfterChanges(visits[k].chat, changes[k])
  }

  ghost predicate ClientWalk(visits: seq<Visit>, changes: seq<seq<Change>>, limit: int) {
    && |changes| + 1 == |visits|
    && Valid(visits[0].chat) && AllDecode(visits[0].chat.stream)
    && (forall k :: 0 <= k < |changes| ==> Between(visits, changes, k))
    && (forall k :: 0 <= k < |visits| ==> VisitOk(visits, limit, k))
  }

  /** The chats a client meets evolve from one to any later one. */
  lemma {:induction false} ChatsEvolve(visits: seq<Visit>, changes: seq<seq<Change>>, limit: int, j: nat, k: nat)
    requires ClientWalk(visits, changes, limit) && j <= k < |visits|
    ensures Valid(visits[k].chat) && AllDecode(visits[k].chat.stream) && Evolves(visits[j].chat, visits[k].chat)
    decreases k
  {
    if k > 0 {
      ChatsEvolve(visits, changes, limit, if j < k then j else k - 1, k - 1);
      assert Between(visits, changes, k - 1);
      ChangesEvolve(visits[k - 1].chat, changes[k - 1]);
      if j < k { EvolvesTransitive(visits[j].chat, visits[k - 1].chat, visits[k].chat); }
    }
  }

  // ---------------------------------------------------------------- as a walk over entries

  /** The entries behind what the first k requests showed. */
  function RawRead(visits: seq<Visit>, limit: int, k: nat): seq<Entry>
    requires k <= |visits|
  {
    if k == 0 then []
    else RawRead(visits, limit, k - 1) + Page(visits[k - 1].chat.stream, After(RawRead(visits, limit, k - 1)), limit)
  }

  function RawWalk(visits: seq<Visit>, limit: int): seq<Request> {
    seq(|visits|, k requires 0 <= k < |visits| =>
      Request(visits[k].chat, Page(visits[k].chat.stream, After(RawRead(visits, limit, k)), limit)))
  }

  lemma RawWalkAt(visits: seq<Visit>, limit: int, k: nat)
    requires k < |visits|
    ensures |RawWalk(visits, limit)| == |visits|
    ensures RawWalk(visits, limit)[k]
         == Request(visits[k].chat, Page(visits[k].chat.stream, After(RawRead(visits, limit, k)), limit))
  {
    hide Page, RawRead;
  }

  lemma {:induction false} RawWalkReads(visits: seq<Visit>, limit: int, k: nat)
    requires k <= |visits|
    ensures ReadBy(RawWalk(visits, limit), k) == RawRead(visits, limit, k)
  {
    assert |RawWalk(visits, limit)| == |visits|;
    hide Page, RawWalk, After;
    if k > 0 {
      RawWalkAt(visits, limit, k - 1);
      RawWalkReads(visits, limit, k - 1);
    }
  }

  lemma {:induction false} DecodedAppend(a: seq<Entry>, b: seq<Entry>)
    ensures Decoded(a + b) == Decoded(a) + Decoded(b)
  {
    if b == [] {
      assert a + b == a;
    } else {
      var n := |b| - 1;
      DecodedAppend(a, b[..n]);
      assert (a + b)[..|a| + n] == a + b[..n];
    }
  }

  lemma CursorIsAfter(entries: seq<Entry>)
    requires AllDecode(entries)
    ensures Cursor(Decoded(entries)) == After(entries)
  {
    DecodedShowsAll(entries);
  }

  lemma PageInStream(stream: seq<Entry>, before: Option<nat>, limit: int)
    requires Increasing(stream) && AllDecode(stream)
    ensures AllDecode(Page(stream, before, limit))
  {
    var n := Clamp(Clamp(limit) + 1);
    RevRangeSpec(stream, before, n);
    assert forall e :: e in Page(stream, before, limit) ==> e in RevRange(stream, before, n);
  }

  /** What request k finds and gets. */
  lemma VisitFacts(visits: seq<Visit>, changes: seq<seq<Change>>, limit: int, k: nat)
    requires ClientWalk(visits, changes, limit) && k < |visits|
    ensures Increasing(visits[k].chat.stream) && AllDecode(visits[k].chat.stream)
    ensures visits[k].items == Decoded(Page(visits[k].chat.stream, Cursor(Shown(visits, k)), limit))
  {
    ChatsEvolve(visits, changes, limit, k, k);
    assert VisitOk(visits, limit, k);
  }

  lemma ReadMore(read: seq<Entry>, page: seq<Entry>)
    requires AllDecode(read) && AllDecode(page)
    ensures AllDecode(read + page) && Decoded(read + page) == Decoded(read) + Decoded(page)
  {
    DecodedAppend(read, page);
  }

  /** While everything decodes, the client's cursor is the last entry's and it is shown every entry it reads. */
  lemma {:induction false} ShownIsRead(visits: seq<Visit>, changes: seq<seq<Change>>, limit: int, k: nat)
    requires ClientWalk(visits, changes, limit) && k <= |visits|
    ensures AllDecode(RawRead(visits, limit, k)) && Shown(visits, k) == Decoded(RawRead(visits, limit, k))
    ensures Cursor(Shown(visits, k)) == After(RawRead(visits, limit, k))
  {
    assert k == 0 ==> Decoded([]) == [] && AllDecode(RawRead(visits, limit, k));
    hide Page, Decoded, After, Cursor, ClientWalk, AllDecode, Increasing;
    if k > 0 {
      var read, chat := RawRead(visits, limit, k - 1), visits[k - 1].chat;
      ShownIsRead(visits, changes, limit, k - 1);
      VisitFacts(visits, changes, limit, k - 1);
      PageInStream(chat.stream, After(read), limit);
      ReadMore(read, Page(chat.stream, After(read), limit));
    }
    CursorIsAfter(RawRead(visits, limit, k));
  }

  lemma RawRequestOk(visits: seq<Visit>, changes: seq<seq<Change>>, limit: int, k: nat)
    requires ClientWalk(visits, changes, limit) && k < |visits|
    ensures RequestOk(RawWalk(visits, limit), limit, k)
    ensures More(RawWalk(visits, limit), limit, k) <==> VisitMore(visits, limit, k)
  {
    ChatsEvolve(visits, changes, limit, k, k);
    RawWalkReads(visits, limit, k);
    ShownIsRead(visits, changes, limit, k);
    assert VisitOk(visits, limit, k);
  }

  lemma RawWalkIsWalk(visits: seq<Visit>, changes: seq<seq<Change>>, limit: int)
    requires ClientWalk(visits, changes, limit)
    ensures IsWalk(RawWalk(visits, limit), limit)
  {
    var walk := RawWalk(visits, limit);
    forall k | 0 <= k < |walk| ensures RequestOk(walk, limit, k) { RawRequestOk(visits, changes, limit, k); }
    forall j, k | 0 <= j < k < |walk| ensures LaterThan(walk, j, k) { ChatsEvolve(visits, changes, limit, j, k); }
  }

  // ---------------------------------------------------------------- what the client gets

  /** Newest first, nothing twice. */
  ghost predicate NewestFirstOnce(shown: seq<ChatMessage>) {
    && (forall m :: m in shown ==> m.streamId.Some?)
    && forall i, j :: 0 <= i < j < |shown| ==> shown[i].streamId.value > shown[j].streamId.value
  }

  /** The message shows an entry of the stream, as it was written. */
  ghost predicate Shows(stream: seq<Entry>, m: ChatMessage) {
    exists e :: e in stream && e.payload.Encoded? && m == Outgoing(e.payload.message, e.id)
  }

  lemma DecodedFaithful(entries: seq<Entry>)
    requires AllDecode(entries) && Decreasing(entries)
    ensures NewestFirstOnce(Decoded(entries))
    ensures forall m :: m in Decoded(entries) ==> Shows(entries, m)
    ensures forall e :: e in entries ==> Outgoing(e.payload.message, e.id) in Decoded(entries)
  {
    DecodedShowsAll(entries);
    var shown := Decoded(entries);
    forall m | m in shown ensures m.streamId.Some? && Shows(entries, m) {
      var i :| 0 <= i < |shown| && shown[i] == m;
      assert entries[i] in entries;
    }
    forall e | e in entries ensures Outgoing(e.payload.message, e.id) in shown {
      var i :| 0 <= i < |entries| && entries[i] == e;
      assert shown[i] == Outgoing(e.payload.message, e.id);
    }
  }

  /**
   Below the inner cap, over any appends and trims between requests: a client is shown messages
   newest first and none twice, only messages present at its first request, and, once has_more is
   false, every one of them not trimmed by then.
   */
  lemma ClientReadsEverything(visits: seq<Visit>, changes: seq<seq<Change>>, limit: int)
    requires limit < 200 && ClientWalk(visits, changes, limit)
    ensures var shown, n := Shown(visits, |visits|), |visits|;
      && NewestFirstOnce(shown)
      && (forall m :: m in shown ==> Shows(visits[0].chat.stream, m))
      && (!VisitMore(visits, limit, n - 1) ==> forall e ::
            e in visits[0].chat.stream && e in visits[n - 1].chat.stream ==> Outgoing(e.payload.message, e.id) in shown)
  {
    var walk, n := RawWalk(visits, limit), |visits|;
    RawWalkIsWalk(visits, changes, limit);
    WalkReadsEverything(walk, limit);
    RawWalkReads(visits, limit, n);
    RawRequestOk(visits, changes, limit, n - 1);
    ShownIsRead(visits, changes, limit, n);
    DecodedFaithful(RawRead(visits, limit, n));
    forall m | m in Shown(visits, n) ensures Shows(visits[0].chat.stream, m) {
      assert Shows(RawRead(visits, limit, n), m);
    }
  }

  /** And it is done after fewer pages than the stream it first met would fill. */
  lemma ClientTerminates(visits: seq<Visit>, changes: seq<seq<Change>>, limit: int)
    requires limit < 200 && ClientWalk(visits, changes, limit) && |visits| > 1
    ensures (|visits| - 1) * (if limit <= 0 then 50 else limit) < |visits[0].chat.stream|
  {
    RawWalkIsWalk(visits, changes, limit);
    WalkTerminates(RawWalk(visits, limit), limit);
  }
}
