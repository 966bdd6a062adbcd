/**
 Chat history: one page (ListChat over XREVRANGE), and a client that follows before_id
 while has_more holds, with messages appended and trimmed between its requests.
 */
module ChatPaging {
  import opened Common
  import opened ChatStore

  const DEFAULT_LIMIT := 50
  const MAX_LIMIT := 200

  /** The clamp both ListChat and ListMessagesRev apply. */
  function Clamp(limit: int): nat {
    if limit <= 0 then DEFAULT_LIMIT else if limit > MAX_LIMIT then MAX_LIMIT else limit
  }

  predicate Older(e: Entry, before: Option<nat>) {
    before.None? || e.id < before.value
  }

  /** XREVRANGE: up to n entries older than the cursor, newest first. */
  function RevRange(stream: seq<Entry>, before: Option<nat>, n: nat): seq<Entry> {
    if n == 0 || stream == [] then []
    else
      var e, rest := stream[|stream| - 1], stream[..|stream| - 1];
      if Older(e, before) then [e] + RevRange(rest, before, n - 1) else RevRange(rest, before, n)
  }

  /** What ListChat fetches: one entry more than the page, but never more than MAX_LIMIT. */
  function Fetched(stream: seq<Entry>, before: Option<nat>, limit: int): seq<Entry> {
    RevRange(stream, before, Clamp(Clamp(limit) + 1))
  }

  predicate HasMore(stream: seq<Entry>, before: Option<nat>, limit: int) {
    |Fetched(stream, before, limit)| > Clamp(limit)
  }

  function Cut(raw: seq<Entry>, n: nat): seq<Entry> {
    if |raw| > n then raw[..n] else raw
  }

  function Page(stream: seq<Entry>, before: Option<nat>, limit: int): seq<Entry> {
    Cut(Fetched(stream, before, limit), Clamp(limit))
  }

  /** The messages of a page; an entry that does not decode is skipped. */
  function Decoded(entries: seq<Entry>): seq<ChatMessage> {
    if entries == [] then []
    else
      var e, init := entries[|entries| - 1], entries[..|entries| - 1];
      Decoded(init) + (if e.payload.Encoded? then [Outgoing(e.payload.message, e.id)] else [])
  }

  ghost predicate ShownOne(e: Entry, m: ChatMessage) {
    e.payload.Encoded? && m == e.payload.message.(streamId := Some(e.id))
  }

  /** The messages are those of the entries at these positions, in this order, each with its stream id. */
  ghost predicate ShownAt(entries: seq<Entry>, at: seq<nat>, items: seq<ChatMessage>) {
    && |at| == |items| && (forall i, j :: 0 <= i < j < |at| ==> at[i] < at[j])
    && (forall i :: 0 <= i < |at| ==> at[i] < |entries| && ShownOne(entries[at[i]], items[i]))
  }

  method ListMessagesRev(store: RoomChat, before: Option<nat>, limit: int) returns (out: seq<Entry>)
    requires Increasing(store.stream)
    ensures out == RevRange(store.stream, before, Clamp(limit))
    ensures NewestOlder(store.stream, before, out)
    // as many as asked for, at most 200 and by default 50, or all that are older than the cursor
    ensures var older := set e | e in store.stream && (before.None? || e.id < before.value);
      && (limit <= 0 ==> |out| == if |older| > 50 then 50 else |older|)
      && (1 <= limit <= 200 ==> |out| == if |older| > limit then limit else |older|)
      && (limit > 200 ==> |out| == if |older| > 200 then 200 else |older|)
  {
    hide NewestOlder, LeavesOut, Increasing;
    RevRangeSpec(store.stream, before, Clamp(limit));
    PageCounts(store.stream, before, RevRange(store.stream, before, Clamp(limit)), Clamp(limit));
    var raw := RevRange(store.stream, before, Clamp(limit));
    out := [];
    for i := 0 to |raw|
      invariant out == raw[..i]
    {
      out := out + [Entry(raw[i].id, raw[i].seqNo, raw[i].payload)];
    }
  }

  /** Entries that do not decode are skipped. */
  method Decode(raw: seq<Entry>) returns (items: seq<ChatMessage>)
    ensures items == Decoded(raw)
  {
    items := [];
    for i := 0 to |raw|
      invariant items == Decoded(raw[..i])
    {
      assert raw[..i + 1][..i] == raw[..i];
      if !raw[i].payload.Encoded? { continue; }
      items := items + [Outgoing(raw[i].payload.message, raw[i].id)];
    }
    assert raw[..|raw|] == raw;
  }

  /** The messages are those of a page, at the positions in at. */
  method ListChat(store: RoomChat, before: Option<nat>, limit: int)
    returns (items: seq<ChatMessage>, hasMore: bool, ghost page: seq<Entry>, ghost at: seq<nat>)
    requires Increasing(store.stream)
    ensures page == Page(store.stream, before, limit) && items == Decoded(page)
    ensures hasMore == HasMore(store.stream, before, limit)
    // as many as asked for and by default 50, or all that are older than the cursor; whether that leaves any out
    ensures var older := set e | e in store.stream && (before.None? || e.id < before.value);
      && (limit <= 0 ==> |page| == (if |older| > 50 then 50 else |older|) && (hasMore <==> |older| > 50))
      && (1 <= limit < 200 ==> |page| == (if |older| > limit then limit else |older|) && (hasMore <==> |older| > limit))
      && (limit >= 200 ==> |page| == (if |older| > 200 then 200 else |older|) && !hasMore)
    // the newest of them, newest first
    ensures NewestOlder(store.stream, before, page)
    // every entry that decodes is shown once, in this order, with its stream id
    ensures ShownAt(page, at, items) && forall k :: 0 <= k < |page| ==> (k in at <==> page[k].payload.Encoded?)
  {
    hide NewestOlder, LeavesOut, Increasing, Decoded, RevRange;
    page := Page(store.stream, before, limit);
    at := DecodedSpec(page);
    PageIsExact(store.stream, before, limit);
    var n := if limit <= 0 then DEFAULT_LIMIT else limit;
    if n > MAX_LIMIT { n := MAX_LIMIT; }
    var raw := ListMessagesRev(store, before, n + 1);
    hasMore := |raw| > n;
    if hasMore { raw := raw[..n]; }
    items := Decode(raw);
  }

  // ---------------------------------------------------------------- one page

  ghost predicate Decreasing(entries: seq<Entry>) {
    forall i, j :: 0 <= i < j < |entries| ==> entries[i].id > entries[j].id
  }

  /** page holds the newest entries older than the cursor, and every entry left out is older still. */
  ghost predicate NewestOlder(stream: seq<Entry>, before: Option<nat>, page: seq<Entry>) {
    && Decreasing(page)
    && (forall e :: e in page ==> e in stream && Older(e, before))
    && (forall e, f :: e in stream && Older(e, before) && e !in page && f in page ==> e.id < f.id)
  }

  /** Some entry older than the cursor is not on the page. */
  ghost predicate LeavesOut(stream: seq<Entry>, before: Option<nat>, page: seq<Entry>) {
    exists e :: e in stream && Older(e, before) && e !in page
  }

  lemma IncreasingInit(stream: seq<Entry>)
    requires Increasing(stream) && stream != []
    ensures Increasing(stream[..|stream| - 1])
    ensures forall x :: x in stream <==> x in stream[..|stream| - 1] || x == stream[|stream| - 1]
    ensures forall x :: x in stream[..|stream| - 1] ==> x.id < stream[|stream| - 1].id
  {
    assert stream == stream[..|stream| - 1] + [stream[|stream| - 1]];
  }

  /** The newest entry of a stream goes to the front of the page. */
  lemma NewestFirst(stream: seq<Entry>, rest: seq<Entry>, e: Entry, before: Option<nat>, page: seq<Entry>)
    requires forall x :: x in stream <==> x in rest || x == e
    requires (forall x :: x in rest ==> x.id < e.id) && Older(e, before) && NewestOlder(rest, before, page)
    ensures NewestOlder(stream, before, [e] + page)
    ensures LeavesOut(stream, before, [e] + page) ==> LeavesOut(rest, before, page)
  {
  }

  /** An entry that is not older than the cursor plays no part. */
  lemma TooNew(stream: seq<Entry>, rest: seq<Entry>, e: Entry, before: Option<nat>, page: seq<Entry>)
    requires forall x :: x in stream <==> x in rest || x == e
    requires !Older(e, before) && NewestOlder(rest, before, page)
    ensures NewestOlder(stream, before, page)
    ensures LeavesOut(stream, before, page) ==> LeavesOut(rest, before, page)
  {
  }

  lemma {:induction false} RevRangeSpec(stream: seq<Entry>, before: Option<nat>, n: nat)
    requires Increasing(stream)
    ensures var r := RevRange(stream, before, n);
      NewestOlder(stream, before, r) && |r| <= n && (LeavesOut(stream, before, r) ==> |r| == n)
  {
    if n > 0 && stream != [] {
      hide NewestOlder, LeavesOut, Increasing;
      var e, rest := stream[|stream| - 1], stream[..|stream| - 1];
      IncreasingInit(stream);
      if Older(e, before) {
        RevRangeSpec(rest, before, n - 1);
        NewestFirst(stream, rest, e, before, RevRange(rest, before, n - 1));
      } else {
        RevRangeSpec(rest, before, n);
        TooNew(stream, rest, e, before, RevRange(rest, before, n));
      }
    }
  }

  lemma {:induction false} EntriesOnce(entries: seq<Entry>)
    requires Decreasing(entries)
    ensures |set e | e in entries| == |entries|
  {
    if entries != [] {
      var rest := entries[1..];
      EntriesOnce(rest);
      assert entries == [entries[0]] + rest;
      assert (set e | e in entries) == {entries[0]} + set e | e in rest;
      assert entries[0] !in rest;
    }
  }

  /** How many entries a page holds, and whether it leaves any out, in terms of how many are older than the cursor. */
  lemma PageCounts(stream: seq<Entry>, before: Option<nat>, page: seq<Entry>, n: nat)
    requires NewestOlder(stream, before, page) && |page| <= n && (LeavesOut(stream, before, page) ==> |page| == n)
    ensures var older := set e | e in stream && (before.None? || e.id < before.value);
      && |page| == (if |older| > n then n else |older|)
      && (LeavesOut(stream, before, page) <==> |page| < |older|)
  {
    var older, shown := set e | e in stream && (before.None? || e.id < before.value), set e | e in page;
    EntriesOnce(page);
    assert shown <= older;
    if LeavesOut(stream, before, page) {
      var e :| e in stream && Older(e, before) && e !in page;
      SubsetCardinality(shown + {e}, older);
    } else {
      assert shown == older;
    }
  }

  /** Without its oldest entry a page is still the newest part of what is older than the cursor. */
  lemma DropOldest(stream: seq<Entry>, before: Option<nat>, page: seq<Entry>, last: Entry)
    requires NewestOlder(stream, before, page + [last])
    ensures NewestOlder(stream, before, page) && LeavesOut(stream, before, page)
  {
    var raw := page + [last];
    forall i, j | 0 <= i < j < |page| ensures page[i].id > page[j].id {
      assert raw[i].id > raw[j].id;
    }
    forall f | f in page ensures last.id < f.id {
      var j :| 0 <= j < |page| && page[j] == f;
      assert raw[j].id > raw[|page|].id;
    }
    assert last in raw && last !in page;
    forall e | e in page ensures e in raw {}
  }

  /** Cutting the extra entry off. */
  lemma CutSpec(stream: seq<Entry>, before: Option<nat>, raw: seq<Entry>, n: nat)
    requires NewestOlder(stream, before, raw)
    requires |raw| <= n + 1 && (LeavesOut(stream, before, raw) ==> |raw| == n + 1)
    ensures NewestOlder(stream, before, Cut(raw, n)) && |Cut(raw, n)| <= n
    ensures |raw| > n ==> |Cut(raw, n)| == n
    ensures |raw| > n <==> LeavesOut(stream, before, Cut(raw, n))
  {
    if |raw| > n {
      assert raw == raw[..n] + [raw[n]];
      DropOldest(stream, before, raw[..n], raw[n]);
    }
  }

  /** A page below the inner cap is exact: has_more tells whether older entries remain. */
  lemma PageSpec(stream: seq<Entry>, before: Option<nat>, limit: int)
    requires Increasing(stream) && limit < 200
    ensures var page := Page(stream, before, limit);
      && NewestOlder(stream, before, page) && |page| <= Clamp(limit)
      && (HasMore(stream, before, limit) ==> |page| == Clamp(limit))
      && (HasMore(stream, before, limit) <==> LeavesOut(stream, before, page))
  {
    RevRangeSpec(stream, before, Clamp(limit) + 1);
    CutSpec(stream, before, Fetched(stream, before, limit), Clamp(limit));
  }

  /** A page in numbers: what it holds, and when there is more. */
  lemma PageIsExact(stream: seq<Entry>, before: Option<nat>, limit: int)
    requires Increasing(stream)
    ensures var older := set e | e in stream && (before.None? || e.id < before.value);
      var page, more := Page(stream, before, limit), HasMore(stream, before, limit);
      && NewestOlder(stream, before, page)
      && (limit <= 0 ==> |page| == (if |older| > 50 then 50 else |older|) && (more <==> |older| > 50))
      && (1 <= limit < 200 ==> |page| == (if |older| > limit then limit else |older|) && (more <==> |older| > limit))
      && (limit >= 200 ==> |page| == (if |older| > 200 then 200 else |older|) && !more)
  {
    hide NewestOlder, LeavesOut, Increasing;
    if limit < 200 {
      PageSpec(stream, before, limit);
    } else {
      RevRangeSpec(stream, before, 200);
    }
    PageCounts(stream, before, Page(stream, before, limit), Clamp(limit));
  }

  /**
   At the largest page size the inner cap hides the extra entry: has_more is always false,
   and the page is the whole remaining history exactly when that is at most 200 entries.
   */
  lemma LargestPageNeverHasMore(stream: seq<Entry>, limit: int)
    requires Increasing(stream) && limit >= 200
    ensures forall before :: !HasMore(stream, before, limit)
    ensures !LeavesOut(stream, None, Page(stream, None, limit)) <==> |stream| <= 200
  {
    forall before ensures !HasMore(stream, before, limit) { RevRangeSpec(stream, before, MAX_LIMIT); }
    RevRangeSpec(stream, None, MAX_LIMIT);
    PageCountsStream(stream, Page(stream, None, limit), MAX_LIMIT);
  }

  lemma PageCountsStream(stream: seq<Entry>, page: seq<Entry>, n: nat)
    requires Increasing(stream) && NewestOlder(stream, None, page)
    requires |page| <= n && (LeavesOut(stream, None, page) ==> |page| == n)
    ensures LeavesOut(stream, None, page) <==> |stream| > n
  {
    DecreasingIds(page);
    IncreasingIds(stream);
    if LeavesOut(stream, None, page) {
      assert StreamIds(page) <= StreamIds(stream);
      var e :| e in stream && e !in page;
      assert e.id !in StreamIds(page);
      SubsetCardinality(StreamIds(page) + {e.id}, StreamIds(stream));
    } else {
      assert StreamIds(stream) <= StreamIds(page);
      SubsetCardinality(StreamIds(stream), StreamIds(page));
    }
  }

  lemma {:induction false} DecreasingIds(entries: seq<Entry>)
    requires Decreasing(entries)
    ensures |StreamIds(entries)| == |entries|
  {
    if entries != [] {
      var rest := entries[1..];
      DecreasingIds(rest);
      assert entries == [entries[0]] + rest;
      assert StreamIds(entries) == {entries[0].id} + StreamIds(rest);
      assert entries[0].id !in StreamIds(rest);
    }
  }

  lemma {:induction false} IncreasingIds(entries: seq<Entry>)
    requires Increasing(entries)
    ensures |StreamIds(entries)| == |entries|
  {
    if entries != [] {
      var rest := entries[1..];
      IncreasingIds(rest);
      assert entries == [entries[0]] + rest;
      assert StreamIds(entries) == {entries[0].id} + StreamIds(rest);
      assert entries[0].id !in StreamIds(rest);
    }
  }

  // ---------------------------------------------------------------- following before_id

  /** Between two requests messages are appended and old ones trimmed; nothing old comes back. */
  ghost predicate Evolves(a: Chat, b: Chat) {
    && a.last <= b.last
    && (forall e :: e in b.stream && e.id <= a.last ==> e in a.stream)
  }

  lemma AppendEvolves(c: Chat, id: nat, seqNo: nat, payload: Payload, maxLen: int, drop: nat)
    requires Valid(c) && LegalAppend(c, id, maxLen, drop)
    ensures Valid(XAdd(c, id, seqNo, payload, maxLen, drop))
    ensures Evolves(c, XAdd(c, id, seqNo, payload, maxLen, drop))
  {
    XAddValid(c, id, seqNo, payload, maxLen, drop);
    XAddKeepsNewest(c, id, seqNo, payload, maxLen, drop);
  }

  lemma EvolvesTransitive(a: Chat, b: Chat, c: Chat)
    requires Evolves(a, b) && Evolves(b, c)
    ensures Evolves(a, c)
  {
  }

  /** One request of the walk: the chat it met and the page it got. */
  datatype Request = Request(chat: Chat, page: seq<Entry>)

  /** Everything read by the first k requests. */
  function ReadBy(walk: seq<Request>, k: nat): seq<Entry>
    requires k <= |walk|
  {
    if k == 0 then [] else ReadBy(walk, k - 1) + walk[k - 1].page
  }

  /** The before_id to send next: the last id read so far; the first request has none. */
  function After(read: seq<Entry>): Option<nat> {
    if read == [] then None else Some(read[|read| - 1].id)
  }

  predicate More(walk: seq<Request>, limit: int, k: nat)
    requires k < |walk|
  {
    HasMore(walk[k].chat.stream, After(ReadBy(walk, k)), limit)
  }

  /** Request k asked for what is older than all it had read, over a later state than request j. */
  ghost predicate RequestOk(walk: seq<Request>, limit: int, k: nat)
    requires k < |walk|
  {
    && Valid(walk[k].chat)
    && walk[k].page == Page(walk[k].chat.stream, After(ReadBy(walk, k)), limit)
    && (k < |walk| - 1 ==> More(walk, limit, k))
  }

  ghost predicate LaterThan(walk: seq<Request>, j: nat, k: nat)
    requires j < |walk| && k < |walk|
  {
    Evolves(walk[j].chat, walk[k].chat)
  }

  /** A client that goes on while has_more holds, over a stream that evolves in between. */
  ghost predicate IsWalk(walk: seq<Request>, limit: int) {
    && |walk| > 0
    && (forall k :: 0 <= k < |walk| ==> RequestOk(walk, limit, k))
    && (forall j, k :: 0 <= j < k < |walk| ==> LaterThan(walk, j, k))
  }

  /**
   After some requests: what was read is a decreasing part of the first stream, and an entry
   that lasts from the first request to the last is read, or still ahead of the cursor.
   */
  ghost predicate ReadSoFar(first: Chat, last: Chat, read: seq<Entry>, done: bool) {
    && Decreasing(read)
    && (forall e :: e in read ==> e in first.stream)
    && (forall e :: e in first.stream && e in last.stream && e !in read ==> !done && Older(e, After(read)))
  }

  lemma JoinDecreasing(a: seq<Entry>, b: seq<Entry>)
    requires Decreasing(a) && Decreasing(b)
    requires a != [] ==> forall e :: e in b ==> e.id < a[|a| - 1].id
    ensures Decreasing(a + b)
  {
    var c := a + b;
    forall i, j | 0 <= i < j < |c| ensures c[i].id > c[j].id {
      if i < |a| <= j {
        assert c[j] == b[j - |a|] && b[j - |a|] in b;
      }
    }
  }

  /** Reading one more page from a later state of the stream. */
  lemma ReadNextPage(first: Chat, now: Chat, last: Chat, read: seq<Entry>, page: seq<Entry>, more: bool)
    requires Valid(first) && (now == first || Evolves(first, now)) && (now == last || Evolves(now, last))
    requires ReadSoFar(first, last, read, false) && (read == [] ==> now == first)
    requires NewestOlder(now.stream, After(read), page) && (!more ==> !LeavesOut(now.stream, After(read), page))
    ensures ReadSoFar(first, last, read + page, !more)
  {
    JoinDecreasing(read, page);
    forall e | e in page ensures e in first.stream {
      if read != [] { assert read[|read| - 1] in read; }
    }
    forall e | e in first.stream && e in last.stream && e !in read + page
      ensures more && Older(e, After(read + page))
    {
      assert e in now.stream && Older(e, After(read));
      if page != [] { assert page[|page| - 1] in page; }
    }
  }

  /** k pages of n entries. */
  function Product(k: nat, n: nat): (m: nat)
    ensures m == k * n
  {
    if k == 0 then 0 else Product(k - 1, n) + n
  }

  /** After k requests of a walk; done once the last page said there is no more. */
  ghost predicate WalkInv(walk: seq<Request>, limit: int, k: nat)
    requires 0 < |walk| && k <= |walk|
  {
    var last := |walk| - 1;
    && ReadSoFar(walk[0].chat, walk[last].chat, ReadBy(walk, k), k > last && !More(walk, limit, last))
    && (k <= last ==> |ReadBy(walk, k)| == Product(k, Clamp(limit)))
    && (0 < k <= last ==> ReadBy(walk, k) != [])
  }

  lemma RequestFacts(walk: seq<Request>, limit: int, k: nat)
    requires limit < 200 && IsWalk(walk, limit) && k < |walk|
    ensures var read, now, page := ReadBy(walk, k), walk[k].chat, walk[k].page;
      && Valid(walk[0].chat) && Valid(now)
      && (k == 0 || Evolves(walk[0].chat, now)) && (k == |walk| - 1 || Evolves(now, walk[|walk| - 1].chat))
      && NewestOlder(now.stream, After(read), page)
      && (More(walk, limit, k) <==> LeavesOut(now.stream, After(read), page))
      && (k < |walk| - 1 ==> More(walk, limit, k) && |page| == Clamp(limit))
  {
    assert RequestOk(walk, limit, k) && RequestOk(walk, limit, 0);
    assert (k > 0 ==> LaterThan(walk, 0, k)) && (k < |walk| - 1 ==> LaterThan(walk, k, |walk| - 1));
    PageSpec(walk[k].chat.stream, After(ReadBy(walk, k)), limit);
  }

  lemma WalkStep(walk: seq<Request>, limit: int, k: nat)
    requires limit < 200 && IsWalk(walk, limit) && k < |walk| && WalkInv(walk, limit, k)
    ensures WalkInv(walk, limit, k + 1)
  {
    RequestFacts(walk, limit, k);
    var read, page := ReadBy(walk, k), walk[k].page;
    ReadNextPage(walk[0].chat, walk[k].chat, walk[|walk| - 1].chat, read, page, More(walk, limit, k));
    assert ReadBy(walk, k + 1) == read + page;
  }

  lemma {:induction false} WalkKeepsInv(walk: seq<Request>, limit: int, k: nat)
    requires limit < 200 && IsWalk(walk, limit) && k <= |walk|
    ensures WalkInv(walk, limit, k)
  {
    if k > 0 {
      WalkKeepsInv(walk, limit, k - 1);
      WalkStep(walk, limit, k - 1);
    }
  }

  /**
   Below the inner cap a walk reads ids in strictly decreasing order, only messages present
   at its first request, and, once has_more is false, every such message not trimmed by then.
   */
  lemma WalkReadsEverything(walk: seq<Request>, limit: int)
    requires limit < 200 && IsWalk(walk, limit)
    ensures var read, first, last := ReadBy(walk, |walk|), walk[0].chat.stream, walk[|walk| - 1].chat.stream;
      && Decreasing(read)
      && (forall e :: e in read ==> e in first)
      && (!More(walk, limit, |walk| - 1) ==> forall e :: e in first && e in last ==> e in read)
  {
    WalkKeepsInv(walk, limit, |walk|);
  }

  /** A walk ends: its pages but the last are full and hold different messages of the first stream. */
  lemma WalkTerminates(walk: seq<Request>, limit: int)
    requires limit < 200 && IsWalk(walk, limit) && |walk| > 1
    ensures (|walk| - 1) * (if limit <= 0 then 50 else limit) < |walk[0].chat.stream|
  {
    var k := |walk| - 1;
    WalkKeepsInv(walk, limit, k - 1);
    WalkKeepsInv(walk, limit, k);
    RequestFacts(walk, limit, k - 1);
    var read := ReadBy(walk, k - 1);
    assert ReadBy(walk, k) == read + walk[k - 1].page;
    StillUnread(walk[0].chat, walk[k - 1].chat, read, walk[k - 1].page);
  }

  /** has_more is honest: an entry of the first stream is still unread after the page. */
  lemma StillUnread(first: Chat, now: Chat, read: seq<Entry>, page: seq<Entry>)
    requires Valid(first) && (now == first || Evolves(first, now)) && (read == [] ==> now == first)
    requires Decreasing(read + page) && forall e :: e in read + page ==> e in first.stream
    requires NewestOlder(now.stream, After(read), page) && LeavesOut(now.stream, After(read), page)
    ensures |read + page| < |first.stream|
  {
    var unread :| unread in now.stream && Older(unread, After(read)) && unread !in page;
    forall e | e in read ensures e in read + page && e.id > unread.id {
      var i :| 0 <= i < |read| && read[i] == e;
      assert (read + page)[i] == e && (read + page)[|read| - 1] == read[|read| - 1];
      assert read[i].id >= read[|read| - 1].id;
    }
    if read != [] { assert read[|read| - 1] in read; }
    forall e | e in read + page ensures e.id != unread.id {
      if e in page { assert e in now.stream; }
    }
    ReadIsShorter(first.stream, read + page, unread);
  }

  lemma ReadIsShorter(stream: seq<Entry>, read: seq<Entry>, unread: Entry)
    requires Increasing(stream) && Decreasing(read) && forall e :: e in read ==> e in stream
    requires unread in stream && unread.id !in StreamIds(read)
    ensures |read| < |stream|
  {
    DecreasingIds(read);
    IncreasingIds(stream);
    SubsetCardinality(StreamIds(read) + {unread.id}, StreamIds(stream));
  }

  lemma ShownMore(entries: seq<Entry>, e: Entry, at: seq<nat>, items: seq<ChatMessage>)
    requires ShownAt(entries, at, items)
    ensures ShownAt(entries + [e], at, items)
    ensures e.payload.Encoded? ==>
      ShownAt(entries + [e], at + [|entries|], items + [e.payload.message.(streamId := Some(e.id))])
  {
    var all := entries + [e];
    assert forall i :: 0 <= i < |at| ==> all[at[i]] == entries[at[i]];
    if e.payload.Encoded? {
      var at', items' := at + [|entries|], items + [e.payload.message.(streamId := Some(e.id))];
      forall i | 0 <= i < |at'| ensures at'[i] < |all| && ShownOne(all[at'[i]], items'[i]) {
        if i < |at| { assert at'[i] == at[i] && items'[i] == items[i]; }
      }
      forall i, j | 0 <= i < j < |at'| ensures at'[i] < at'[j] { assert at'[i] == at[i]; }
    }
  }

  /** Every entry that decodes is shown once, in order, with its stream id. */
  lemma {:induction false} DecodedSpec(entries: seq<Entry>) returns (at: seq<nat>)
    ensures ShownAt(entries, at, Decoded(entries)) && forall k :: k in at ==> k < |entries|
    ensures forall k :: 0 <= k < |entries| ==> (k in at <==> entries[k].payload.Encoded?)
  {
    if entries == [] {
      at := [];
    } else {
      hide ShownAt;
      var n := |entries| - 1;
      var init := DecodedSpec(entries[..n]);
      ShownMore(entries[..n], entries[n], init, Decoded(entries[..n]));
      assert entries == entries[..n] + [entries[n]] && n !in init;
      assert Decoded(entries[..n]) + [] == Decoded(entries[..n]);
      at := if entries[n].payload.Encoded? then init + [n] else init;
      forall k | 0 <= k < n ensures k in at <==> entries[k].payload.Encoded? {
        assert entries[..n][k] == entries[k] && (k in at <==> k in init);
      }
    }
  }

  /** When every entry decodes, as those SendChat writes do, a page shows each of its entries. */
  lemma {:induction false} DecodedShowsAll(entries: seq<Entry>)
    requires forall e :: e in entries ==> e.payload.Encoded?
    ensures |Decoded(entries)| == |entries|
    ensures forall i :: 0 <= i < |entries| ==>
              Decoded(entries)[i] == Outgoing(entries[i].payload.message, entries[i].id)
  {
    if entries != [] {
      var e, init := entries[|entries| - 1], entries[..|entries| - 1];
      assert entries == init + [e] && e in entries && forall x :: x in init ==> x in entries;
      DecodedShowsAll(init);
    }
  }
}
