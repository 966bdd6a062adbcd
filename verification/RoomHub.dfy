/**
 Everything the backend stores about rooms, and the room service that closes rooms and
 sweeps empty ones: rows in the database; state, presence, access grants and chat in Redis.
 */
module RoomHub {
  import opened Common
  import opened P = Presence
  import Red = PresenceRedis
  import RoomStore
  import ChatStore
  import PlaybackProjection

  datatype World = World(
    rows: seq<RoomStore.Room>,
    states: map<RoomId, PlaybackProjection.RoomState>,
    presence: Presence,
    access: map<RoomId, set<UserId>>,
    chats: map<RoomId, ChatStore.Chat>)

  const EMPTY_WORLD := World([], map[], EMPTY, map[], map[])

  /** Rooms with a row. */
  function InDb(w: World): set<RoomId> {
    RoomStore.Ids(w.rows)
  }

  // ---------------------------------------------------------------- closing on values

  /** CloseRoom: every Redis key of the room. */
  function CloseKeys(w: World, r: RoomId): World {
    w.(states := w.states - {r}, presence := Red.DeleteRoom(w.presence, r),
       access := w.access - {r}, chats := w.chats - {r})
  }

  function CloseEmpty(w: World, r: RoomId): World {
    CloseKeys(w.(rows := RoomStore.Without(w.rows, {r})), r)
  }

  function ClearPending(w: World, r: RoomId): World {
    w.(presence := w.presence.(pendingEmpty := w.presence.pendingEmpty - {r}))
  }

  /** What the sweep does with one candidate when nothing fails. */
  function SweepOne(w: World, r: RoomId): World {
    ClearPending(if Red.HLen(w.presence, r) != 0 then w else CloseEmpty(w, r), r)
  }

  /** The sweep of a set of candidates, in one go: those without members are closed. */
  function Swept(w: World, candidates: set<RoomId>): World {
    var dead := candidates - w.presence.members.Keys;
    World(RoomStore.Without(w.rows, dead), w.states - dead,
          w.presence.(active := w.presence.active - dead, pendingEmpty := w.presence.pendingEmpty - candidates),
          w.access - dead, w.chats - dead)
  }

  /** How many rows a cleanup asks the database for. */
  const CLEANUP_LIMIT := 500

  /** The rooms one cleanup looks at: flagged, active, or on the page the database returns. */
  function Candidates(w: World): set<RoomId> {
    w.presence.pendingEmpty + w.presence.active + RoomStore.Ids(RoomStore.Page(w.rows, CLEANUP_LIMIT, 0))
  }

  /** Room ids are trimmed and nonempty, as generated ids are. */
  ghost predicate WellNamed(ids: set<RoomId>) {
    forall r :: r in ids ==> r != "" && TrimSpace(r) == r
  }

  /** Sweeping candidates one by one, in any order, sweeps the set. */
  lemma SweepOneMore(w: World, done: set<RoomId>, r: RoomId)
    requires Red.NoEmptyHash(w.presence)
    ensures SweepOne(Swept(w, done), r) == Swept(w, done + {r})
  {
    if r in w.presence.members {
      SweepOccupied(w, done, r);
    } else {
      CloseOneMore(w, done, r);
      assert w.presence.pendingEmpty - done - {r} == w.presence.pendingEmpty - (done + {r});
    }
  }

  lemma SweepOccupied(w: World, done: set<RoomId>, r: RoomId)
    requires Red.NoEmptyHash(w.presence) && r in w.presence.members
    ensures Red.HLen(w.presence, r) != 0 && ClearPending(Swept(w, done), r) == Swept(w, done + {r})
  {
    assert |w.presence.members[r]| != 0;
    assert done + {r} - w.presence.members.Keys == done - w.presence.members.Keys;
    assert w.presence.pendingEmpty - done - {r} == w.presence.pendingEmpty - (done + {r});
  }

  /** Closing a room without members; its flag goes with it. */
  lemma CloseOneMore(w: World, done: set<RoomId>, r: RoomId)
    requires r !in w.presence.members
    ensures CloseEmpty(Swept(w, done), r) == Swept(w, done + {r})
  {
    var dead := done - w.presence.members.Keys;
    assert done + {r} - w.presence.members.Keys == dead + {r};
    RoomStore.WithoutTwice(w.rows, dead, {r});
    UnoccupiedKeys(Swept(w, done).presence, r);
    assert w.presence.active - dead - {r} == w.presence.active - (dead + {r});
    assert w.presence.pendingEmpty - done - {r} == w.presence.pendingEmpty - (done + {r});
    LessTwice(w.states, dead, r);
    LessTwice(w.access, dead, r);
    LessTwice(w.chats, dead, r);
  }

  lemma LessTwice<V>(m: map<RoomId, V>, dead: set<RoomId>, r: RoomId)
    ensures m - dead - {r} == m - (dead + {r})
  {
  }

  lemma UnoccupiedKeys(p: Presence, r: RoomId)
    requires r !in p.members
    ensures Red.DeleteRoom(p, r) == p.(active := p.active - {r}, pendingEmpty := p.pendingEmpty - {r})
  {
    assert p.members - {r} == p.members && p.userRoom - {} == p.userRoom;
  }

  lemma SweptNone(w: World)
    ensures Swept(w, {}) == w
  {
    RoomStore.WithoutNone(w.rows, {});
    assert {} - w.presence.members.Keys == {};
  }

  /** An occupied room keeps its row, state, members, grants and chat. */
  predicate RoomUntouched(w: World, w': World, r: RoomId) {
    && (r in InDb(w) <==> r in InDb(w'))
    && (r in w.states <==> r in w'.states) && (r in w.states ==> w'.states[r] == w.states[r])
    && Members(w'.presence, r) == Members(w.presence, r) && (r in w.presence.active <==> r in w'.presence.active)
    && (r in w.access <==> r in w'.access) && (r in w.access ==> w'.access[r] == w.access[r])
    && (r in w.chats <==> r in w'.chats) && (r in w.chats ==> w'.chats[r] == w.chats[r])
  }

  lemma SweepSparesOccupied(w: World, candidates: set<RoomId>, r: RoomId)
    requires Occupied(w.presence, r) || r !in candidates
    ensures RoomUntouched(w, Swept(w, candidates), r)
  {
    RoomStore.WithoutIds(w.rows, candidates - w.presence.members.Keys);
  }

  /** Closing a room leaves every other room alone. */
  lemma CloseSparesOthers(w: World, r: RoomId, q: RoomId)
    requires q != r
    ensures RoomUntouched(w, CloseKeys(w, r), q) && RoomUntouched(w, CloseEmpty(w, r), q)
  {
    RoomStore.WithoutIds(w.rows, {r});
  }

  // ---------------------------------------------------------------- the service

  function Elements(rooms: seq<RoomId>): set<RoomId> {
    set r | r in rooms
  }

  predicate Unique(ids: seq<RoomId>) {
    forall i, j :: 0 <= i < j < |ids| ==> ids[i] != ids[j]
  }

  /** The nonempty trimmed ids in a list. */
  function Named(part: seq<string>): set<RoomId> {
    set s | s in part && TrimSpace(s) != "" :: TrimSpace(s)
  }

  function NamedInAny(parts: seq<seq<string>>): set<RoomId> {
    if parts == [] then {} else NamedInAny(parts[..|parts| - 1]) + Named(parts[|parts| - 1])
  }

  method MergeUniqueRoomIDs(parts: seq<seq<string>>) returns (out: seq<RoomId>)
    ensures Unique(out)
    ensures Elements(out) == NamedInAny(parts)
  {
    var seen: set<RoomId> := {};
    out := [];
    for i := 0 to |parts|
      invariant Unique(out) && seen == Elements(out) == NamedInAny(parts[..i])
    {
      var part := parts[i];
      for j := 0 to |part|
        invariant Unique(out) && seen == Elements(out) == NamedInAny(parts[..i]) + Named(part[..j])
      {
        var id := TrimSpace(part[j]);
        assert part[..j + 1] == part[..j] + [part[j]];
        assert Named(part[..j + 1]) == Named(part[..j]) + (if id != "" then {id} else {});
        if id == "" { continue; }
        if id in seen { continue; }
        seen := seen + {id};
        out := out + [id];
      }
      assert part[..|part|] == part && parts[..i + 1][..i] == parts[..i];
    }
    assert parts[..|parts|] == parts;
  }

  /** SMEMBERS: a set in some order. */
  method Listed(s: set<RoomId>) returns (out: seq<RoomId>)
    ensures Elements(out) == s
  {
    out := [];
    var left := s;
    while left != {}
      invariant left <= s && Elements(out) == s - left
      decreases left
    {
      var id :| id in left;
      assert Elements(out + [id]) == Elements(out) + {id};
      out := out + [id];
      left := left - {id};
    }
  }

  lemma NamedOfTrimmed(part: seq<string>)
    requires WellNamed(Elements(part))
    ensures Named(part) == Elements(part)
  {
    forall s | s in part ensures s in Named(part) {
      assert s in Elements(part);
    }
    forall id | id in Named(part) ensures id in part {
      var s :| s in part && TrimSpace(s) != "" && id == TrimSpace(s);
      assert s in Elements(part);
    }
  }

  class Service {
    var rows: seq<RoomStore.Room>
    var states: map<RoomId, PlaybackProjection.RoomState>
    var presence: Presence
    var access: map<RoomId, set<UserId>>
    var chats: map<RoomId, ChatStore.Chat>

    function Value(): World
      reads this
    {
      World(rows, states, presence, access, chats)
    }

    constructor ()
      ensures Value() == EMPTY_WORLD
    {
      rows, states, presence, access, chats := [], map[], EMPTY, map[], map[];
    }

    /**
     An error deleting the playback state ends it with nothing done; one from the closing
     event is reported, with everything done.
     */
    method CloseRoom(r: RoomId, stateOk: bool, publishOk: bool) returns (ok: bool)
      modifies this
      ensures ok == (stateOk && publishOk)
      ensures Value() == if stateOk then CloseKeys(old(Value()), r) else old(Value())
    {
      if !stateOk { return false; }
      states := states - {r};
      presence := Red.DeleteRoom(presence, r);
      access := access - {r};
      chats := chats - {r};
      ok := publishOk;
    }

    /** The same for an error deleting the row. */
    method CloseEmptyRoom(r: RoomId, dbOk: bool, publishOk: bool) returns (ok: bool)
      modifies this
      ensures ok == (dbOk && publishOk)
      ensures Value() == if dbOk then CloseEmpty(old(Value()), r) else old(Value())
    {
      if !dbOk { return false; }
      rows := RoomStore.Without(rows, {r});
      states := states - {r};
      presence := Red.DeleteRoom(presence, r);
      access := access - {r};
      chats := chats - {r};
      ok := publishOk;
    }

    /** One candidate of a cleanup; if its members cannot be counted it is passed over. */
    method SweepCandidate(r: RoomId, countOk: bool, dbOk: bool, publishOk: bool) returns (ok: bool)
      modifies this
      ensures ok == (!countOk || Red.HLen(old(presence), r) != 0 || (dbOk && publishOk))
      ensures ok ==> Value() == if countOk then SweepOne(old(Value()), r) else old(Value())
      ensures !ok ==> Value() == if dbOk then CloseEmpty(old(Value()), r) else old(Value())
    {
      if !countOk { return true; }
      var n := Red.HLen(presence, r);
      ok := true;
      if n == 0 {
        ok := CloseEmptyRoom(r, dbOk, publishOk);
        if !ok { return; }
      }
      presence := presence.(pendingEmpty := presence.pendingEmpty - {r});
    }

    /** The candidates, each once. */
    method CleanupCandidates() returns (candidates: seq<RoomId>)
      requires WellNamed(Candidates(Value()))
      ensures Unique(candidates) && Elements(candidates) == Candidates(Value())
    {
      var pending := Listed(presence.pendingEmpty);
      var active := Listed(presence.active);
      var page := RoomStore.Page(rows, CLEANUP_LIMIT, 0);
      var dbIds := seq(|page|, i requires 0 <= i < |page| => page[i].id);
      PageIds(page, dbIds);
      NamedInThree(pending, active, dbIds);
      candidates := MergeUniqueRoomIDs([pending, active, dbIds]);
    }

    /**
     One cleanup with nobody else at work. The sets are the rooms whose members cannot be
     counted, whose row cannot be deleted and whose closing event does not get through.
     */
    method RunEmptyRoomCleanup(countFails: set<RoomId>, dbFails: set<RoomId>, publishFails: set<RoomId>) returns (ok: bool)
      requires Red.NoEmptyHash(presence) && WellNamed(Candidates(Value()))
      modifies this
      ensures ok ==> Value() == Swept(old(Value()), old(Candidates(Value())) - countFails)
      ensures !ok ==> exists done :: Interrupted(old(Value()), Value(), done, dbFails, publishFails)
      ensures old(Candidates(Value())) * (dbFails + publishFails) <= old(presence.members.Keys) ==> ok
    {
      hide Swept, SweepOne, CloseEmpty;
      ghost var w := Value();
      var candidates := CleanupCandidates();
      ghost var counted: seq<RoomId> := [];
      for i := 0 to |candidates|
        invariant Value() == SweepEach(w, counted)
        invariant Elements(counted) == Elements(candidates[..i]) - countFails
      {
        var r := candidates[i];
        ElementsLast(candidates[..i + 1]);
        assert candidates[..i + 1][..i] == candidates[..i] && r in Elements(candidates);
        var swept := SweepCandidate(r, r !in countFails, r !in dbFails, r !in publishFails);
        if !swept {
          if r in dbFails {
            assert r !in Elements(candidates[..i]);
            InterruptedByDatabase(w, counted, r, dbFails, publishFails);
          } else {
            InterruptedByEvent(w, counted, r, dbFails, publishFails);
          }
          return false;
        }
        if r !in countFails {
          ElementsLast(counted + [r]);
          assert (counted + [r])[..|counted|] == counted;
          counted := counted + [r];
        }
      }
      assert candidates[..|candidates|] == candidates;
      SweepEachSpec(w, counted);
      ok := true;
    }
  }

  /** Sweeping candidates in the order of a list. */
  function SweepEach(w: World, rooms: seq<RoomId>): World {
    if rooms == [] then w else SweepOne(SweepEach(w, rooms[..|rooms| - 1]), rooms[|rooms| - 1])
  }

  lemma ElementsLast(rooms: seq<RoomId>)
    requires rooms != []
    ensures Elements(rooms) == Elements(rooms[..|rooms| - 1]) + {rooms[|rooms| - 1]}
  {
    assert rooms == rooms[..|rooms| - 1] + [rooms[|rooms| - 1]];
  }

  lemma {:induction false} SweepEachSpec(w: World, rooms: seq<RoomId>)
    requires Red.NoEmptyHash(w.presence)
    ensures SweepEach(w, rooms) == Swept(w, Elements(rooms))
  {
    if rooms == [] {
      SweptNone(w);
      assert Elements(rooms) == {};
    } else {
      SweepEachSpec(w, rooms[..|rooms| - 1]);
      ElementsLast(rooms);
      SweepOneMore(w, Elements(rooms[..|rooms| - 1]), rooms[|rooms| - 1]);
    }
  }

  lemma SweptCounts(w: World, done: set<RoomId>, r: RoomId)
    requires Red.NoEmptyHash(w.presence)
    ensures Red.HLen(Swept(w, done).presence, r) == 0 <==> r !in w.presence.members
  {
    if r in w.presence.members { SweepOccupied(w, done, r); }
  }

  /**
   A cleanup that stopped early: at a room without members whose row could not be deleted, or
   whose closing event did not get through, in which case that room is closed too.
   */
  predicate Interrupted(w: World, w': World, done: set<RoomId>, dbFails: set<RoomId>, publishFails: set<RoomId>) {
    && done <= Candidates(w) && w' == Swept(w, done)
    && (done * publishFails - w.presence.members.Keys != {}
        || (Candidates(w) * dbFails) - done - w.presence.members.Keys != {})
  }

  lemma InterruptedByEvent(w: World, counted: seq<RoomId>, r: RoomId, dbFails: set<RoomId>, publishFails: set<RoomId>)
    requires Red.NoEmptyHash(w.presence) && Elements(counted) + {r} <= Candidates(w) && r in publishFails
    requires Red.HLen(SweepEach(w, counted).presence, r) == 0
    ensures r !in w.presence.members
    ensures Interrupted(w, CloseEmpty(SweepEach(w, counted), r), Elements(counted) + {r}, dbFails, publishFails)
  {
    hide SweepEach, CloseEmpty, Swept, Candidates;
    SweepEachSpec(w, counted);
    SweptCounts(w, Elements(counted), r);
    CloseOneMore(w, Elements(counted), r);
    assert r in (Elements(counted) + {r}) * publishFails - w.presence.members.Keys;
  }

  lemma InterruptedByDatabase(w: World, counted: seq<RoomId>, r: RoomId, dbFails: set<RoomId>, publishFails: set<RoomId>)
    requires Red.NoEmptyHash(w.presence) && Elements(counted) <= Candidates(w) && r in Candidates(w)
    requires r in dbFails && r !in Elements(counted)
    requires Red.HLen(SweepEach(w, counted).presence, r) == 0
    ensures r !in w.presence.members
    ensures Interrupted(w, SweepEach(w, counted), Elements(counted), dbFails, publishFails)
  {
    hide SweepEach, CloseEmpty, Swept, Candidates;
    SweepEachSpec(w, counted);
    SweptCounts(w, Elements(counted), r);
    assert r in (Candidates(w) * dbFails) - Elements(counted) - w.presence.members.Keys;
  }

  lemma PageIds(page: seq<RoomStore.Room>, ids: seq<RoomId>)
    requires |ids| == |page| && forall i :: 0 <= i < |page| ==> ids[i] == page[i].id
    ensures Elements(ids) == RoomStore.Ids(page)
  {
    forall id | id in RoomStore.Ids(page) ensures id in ids {
      var i :| 0 <= i < |page| && page[i].id == id;
      assert ids[i] == id;
    }
    forall id | id in ids ensures id in RoomStore.Ids(page) {
      var i :| 0 <= i < |ids| && ids[i] == id;
      assert page[i] in page;
    }
  }

  lemma NamedInThree(a: seq<RoomId>, b: seq<RoomId>, c: seq<RoomId>)
    requires WellNamed(Elements(a) + Elements(b) + Elements(c))
    ensures NamedInAny([a, b, c]) == Elements(a) + Elements(b) + Elements(c)
  {
    NamedOfTrimmed(a);
    NamedOfTrimmed(b);
    NamedOfTrimmed(c);
    assert [a, b, c][..2] == [a, b] && [a, b][..1] == [a] && [a][..0] == [];
    assert NamedInAny([a]) == Named(a);
    assert NamedInAny([a, b]) == Named(a) + Named(b);
  }
}
