/**
 The room requests as whole steps on everything the backend stores, and what every
 sequence of them keeps: no key outlives its room's row.
 */
module Lifecycle {
  import opened Common
  import opened P = Presence
  import opened RoomHub
  import Red = PresenceRedis
  import RoomStore
  import ChatStore
  import Playback = PlaybackControl

  /** Who is asking, as the access token says. */
  datatype Caller = Caller(id: UserId, isAdmin: bool)

  /**
   after is what the chat of the room is once the send or the drain is over. Read stands
   for the requests that only check access: snapshot, chat history and realtime token.
   */
  datatype Op =
    | Create(room: RoomStore.Room)
    | Join(who: Caller, r: RoomId, password: string, name: string)
    | Leave(who: Caller, r: RoomId)
    | Kick(who: Caller, r: RoomId, target: UserId)
    | Control(who: Caller, r: RoomId, input: Playback.ControlInput, now: real)
    | Send(who: Caller, r: RoomId, password: string, after: ChatStore.Chat)
    | Read(who: Caller, r: RoomId, password: string)
    | Drain(r: RoomId, after: ChatStore.Chat)
    | Delete(who: Caller, r: RoomId)
    | Cleanup

  function Find(rows: seq<RoomStore.Room>, r: RoomId): Option<RoomStore.Room> {
    if rows == [] then None else if rows[0].id == r then Some(rows[0]) else Find(rows[1..], r)
  }

  predicate Manages(who: Caller, room: RoomStore.Room) {
    who.isAdmin || room.owner == who.id
  }

  predicate Granted(w: World, r: RoomId, u: UserId) {
    r in w.access && u in w.access[r]
  }

  /** canAccessRoom: whether the caller may enter. */
  predicate MayEnter(w: World, room: RoomStore.Room, who: Caller, password: string) {
    !room.isPrivate || Manages(who, room) || (who.id != "" && Granted(w, room.id, who.id)) || password == room.password
  }

  /** canAccessRoom: a right password is remembered. */
  function Entered(w: World, room: RoomStore.Room, who: Caller, password: string): World {
    if !room.isPrivate || Manages(who, room) || who.id == "" || Granted(w, room.id, who.id) || password != room.password then w
    else w.(access := w.access[room.id := (if room.id in w.access then w.access[room.id] else {}) + {who.id}])
  }

  function Joined(w: World, r: RoomId, u: UserId, name: string): World {
    w.(presence := Red.JoinScript(w.presence, r, u, name))
  }

  function Removed(w: World, r: RoomId, u: UserId): World {
    w.(presence := Red.Remove(w.presence, r, u))
  }

  function Controlled(w: World, room: RoomStore.Room, who: Caller, input: Playback.ControlInput, now: real): World {
    var prev := if room.id in w.states then Some(w.states[room.id]) else None;
    var result := Playback.Control(prev, Playback.User(who.id, who.isAdmin, room.owner == who.id), input, now);
    if result.Written? then w.(states := w.states[room.id := result.state]) else w
  }

  /** A request on a room that has a row. */
  function OnRoom(w: World, op: Op, room: RoomStore.Room): World {
    match op
    case Join(who, _, password, name) =>
      if MayEnter(w, room, who, password) then Joined(Entered(w, room, who, password), room.id, who.id, name) else w
    case Leave(who, _) => Removed(w, room.id, who.id)
    case Kick(who, _, target) =>
      if Manages(who, room) && TrimSpace(target) != "" then Removed(w, room.id, TrimSpace(target)) else w
    case Control(who, _, input, now) => if Manages(who, room) then Controlled(w, room, who, input, now) else w
    case Send(who, _, password, after) =>
      if MayEnter(w, room, who, password) then
        var v := Entered(w, room, who, password);
        v.(chats := v.chats[room.id := after])
      else w
    case Read(who, _, password) => if MayEnter(w, room, who, password) then Entered(w, room, who, password) else w
    case Delete(who, _) => if Manages(who, room) then CloseEmpty(w, room.id) else w
    case _ => w
  }

  /** A drain finds its room through the pending entries, not through the database. */
  function Do(w: World, op: Op): World {
    match op
    case Create(room) =>
      if room.id in InDb(w) then w else w.(rows := RoomStore.Insert(w.rows, room))
    case Drain(r, after) => if r in w.chats && w.chats[r].pending != [] then w.(chats := w.chats[r := after]) else w
    case Cleanup => Swept(w, Candidates(w))
    case _ => if Find(w.rows, op.r).Some? then OnRoom(w, op, Find(w.rows, op.r).value) else w
  }

  function Run(w: World, run: seq<Op>): World
    decreases run
  {
    if run == [] then w else Do(Run(w, run[..|run| - 1]), run[|run| - 1])
  }

  // ---------------------------------------------------------------- every key has a row

  ghost predicate PresenceOwned(p: Presence, rooms: set<RoomId>) {
    && p.members.Keys <= rooms && p.pendingEmpty <= rooms
    && Red.Sound(p)
  }

  ghost predicate Owned(w: World) {
    && RoomStore.Valid(w.rows)
    && w.states.Keys <= InDb(w) && w.access.Keys <= InDb(w) && w.chats.Keys <= InDb(w)
    && PresenceOwned(w.presence, InDb(w))
  }

  /** No key of a room, and no row. */
  predicate NoTrace(w: World, r: RoomId) {
    && r !in InDb(w) && r !in w.states && r !in w.access && r !in w.chats
    && r !in w.presence.members && r !in w.presence.active && r !in w.presence.pendingEmpty
    && r !in w.presence.userRoom.Values
  }

  lemma {:induction false} FindSpec(rows: seq<RoomStore.Room>, r: RoomId)
    ensures Find(rows, r).Some? <==> r in RoomStore.Ids(rows)
    ensures Find(rows, r).Some? ==> Find(rows, r).value in rows && Find(rows, r).value.id == r
  {
    if rows != [] {
      FindSpec(rows[1..], r);
      assert rows == [rows[0]] + rows[1..];
      assert rows[0] in rows;
    }
  }

  lemma JoinOwned(p: Presence, rooms: set<RoomId>, r: RoomId, u: UserId, name: string)
    requires PresenceOwned(p, rooms) && r in rooms
    ensures PresenceOwned(Red.JoinScript(p, r, u, name), rooms)
  {
    Red.JoinSound(p, r, u, name);
    if Moves(p, r, u) {
      var was := p.userRoom[u];
      assert In(p, u, was);
      Red.ScriptLeavesSpec(p, was, u);
      Red.HDelIn(p, was, u);
      Red.SweepShape(Red.HDel(p, was, u), was);
    }
  }

  lemma RemoveOwned(p: Presence, rooms: set<RoomId>, r: RoomId, u: UserId)
    requires PresenceOwned(p, rooms) && r in rooms
    ensures PresenceOwned(Red.Remove(p, r, u), rooms)
  {
    Red.RemoveSound(p, r, u);
    Red.HDelIn(p, r, u);
    Red.SweepShape(Red.RemoveTx(p, r, u), r);
  }

  lemma DeleteOwned(p: Presence, rooms: set<RoomId>, r: RoomId)
    requires PresenceOwned(p, rooms)
    ensures PresenceOwned(Red.DeleteRoom(p, r), rooms - {r}) && r !in Red.DeleteRoom(p, r).userRoom.Values
  {
    Red.DeleteSound(p, r);
    var p' := Red.DeleteRoom(p, r);
    forall u | u in p'.userRoom ensures p'.userRoom[u] != r { assert In(p', u, p'.userRoom[u]); }
  }

  /** Deleting a room leaves nothing of it behind. */
  lemma CloseEmptyOwned(w: World, r: RoomId)
    requires Owned(w)
    ensures Owned(CloseEmpty(w, r)) && NoTrace(CloseEmpty(w, r), r)
  {
    RoomStore.WithoutIds(w.rows, {r});
    RoomStore.WithoutValid(w.rows, {r});
    DeleteOwned(w.presence, InDb(w), r);
  }

  lemma SweptPresenceOwned(p: Presence, rooms: set<RoomId>, dead: set<RoomId>, flags: set<RoomId>)
    requires PresenceOwned(p, rooms) && dead !! p.members.Keys && dead * p.pendingEmpty <= flags
    ensures PresenceOwned(p.(active := p.active - dead, pendingEmpty := p.pendingEmpty - flags), rooms - dead)
    ensures dead !! p.active && dead !! p.userRoom.Values
  {
    var p' := p.(active := p.active - dead, pendingEmpty := p.pendingEmpty - flags);
    assert p'.active == p.active;
    forall u | u in p.userRoom ensures In(p', u, p.userRoom[u]) && p.userRoom[u] !in dead {
      assert In(p, u, p.userRoom[u]);
    }
  }

  /** A cleanup leaves nothing of the rooms it closes behind. */
  lemma CleanupOwned(w: World)
    requires Owned(w)
    ensures Owned(Do(w, Cleanup))
    ensures forall r :: r in Candidates(w) && !Occupied(w.presence, r) ==> NoTrace(Do(w, Cleanup), r)
  {
    var dead := Candidates(w) - w.presence.members.Keys;
    SweptPresenceOwned(w.presence, InDb(w), dead, Candidates(w));
    SweptOwned(w, Candidates(w));
  }

  lemma SweptOwned(w: World, candidates: set<RoomId>)
    requires Owned(w)
    requires var dead := candidates - w.presence.members.Keys;
      PresenceOwned(Swept(w, candidates).presence, InDb(w) - dead) && dead !! w.presence.active && dead !! w.presence.userRoom.Values
    ensures Owned(Swept(w, candidates))
    ensures forall r :: r in candidates && !Occupied(w.presence, r) ==> NoTrace(Swept(w, candidates), r)
  {
    RoomStore.WithoutIds(w.rows, candidates - w.presence.members.Keys);
    RoomStore.WithoutValid(w.rows, candidates - w.presence.members.Keys);
  }

  lemma SameRowsSameDb(w: World)
    ensures forall v: World :: v.rows == w.rows ==> InDb(v) == InDb(w)
  {
  }

  lemma EnteredOwned(w: World, room: RoomStore.Room, who: Caller, password: string)
    requires Owned(w) && room.id in InDb(w)
    ensures Owned(Entered(w, room, who, password)) && Entered(w, room, who, password).rows == w.rows
  {
  }

  lemma JoinedOwned(w: World, r: RoomId, u: UserId, name: string)
    requires Owned(w) && r in InDb(w)
    ensures Owned(Joined(w, r, u, name))
  {
    JoinOwned(w.presence, InDb(w), r, u, name);
  }

  lemma RemovedOwned(w: World, r: RoomId, u: UserId)
    requires Owned(w) && r in InDb(w)
    ensures Owned(Removed(w, r, u))
  {
    RemoveOwned(w.presence, InDb(w), r, u);
  }

  lemma ControlledOwned(w: World, room: RoomStore.Room, who: Caller, input: Playback.ControlInput, now: real)
    requires Owned(w) && room.id in InDb(w)
    ensures Owned(Controlled(w, room, who, input, now))
  {
  }

  lemma SentOwned(w: World, r: RoomId, after: ChatStore.Chat)
    requires Owned(w) && r in InDb(w)
    ensures Owned(w.(chats := w.chats[r := after]))
  {
  }

  lemma OnRoomOwned(w: World, op: Op, room: RoomStore.Room)
    requires Owned(w) && room.id in InDb(w)
    ensures Owned(OnRoom(w, op, room))
  {
    hide Owned, InDb, Entered, Joined, Removed, Controlled, CloseEmpty, MayEnter;
    SameRowsSameDb(w);
    match op
    case Join(who, _, password, name) =>
      EnteredOwned(w, room, who, password);
      JoinedOwned(Entered(w, room, who, password), room.id, who.id, name);
    case Leave(who, _) => RemovedOwned(w, room.id, who.id);
    case Kick(who, _, target) => RemovedOwned(w, room.id, TrimSpace(target));
    case Control(who, _, input, now) => ControlledOwned(w, room, who, input, now);
    case Send(who, _, password, after) =>
      EnteredOwned(w, room, who, password);
      SentOwned(Entered(w, room, who, password), room.id, after);
    case Read(who, _, password) => EnteredOwned(w, room, who, password);
    case Delete(who, _) => CloseEmptyOwned(w, room.id);
    case _ =>
  }

  lemma StepKeepsOwned(w: World, op: Op)
    requires Owned(w)
    ensures Owned(Do(w, op))
  {
    match op
    case Create(room) =>
      if room.id !in InDb(w) {
        RoomStore.InsertValid(w.rows, room);
        RoomStore.InsertMembers(w.rows, room);
      }
    case Drain(_, _) =>
    case Cleanup => CleanupOwned(w);
    case _ =>
      FindSpec(w.rows, op.r);
      if Find(w.rows, op.r).Some? { OnRoomOwned(w, op, Find(w.rows, op.r).value); }
  }

  /** Over every run of whole requests, whatever is stored for a room belongs to a room in the database. */
  lemma {:induction false} EveryKeyHasARow(run: seq<Op>)
    ensures Owned(Run(EMPTY_WORLD, run))
    decreases run
  {
    if run != [] {
      EveryKeyHasARow(run[..|run| - 1]);
      StepKeepsOwned(Run(EMPTY_WORLD, run[..|run| - 1]), run[|run| - 1]);
    }
  }

  /** A room that is deleted by someone who may leaves no trace, whatever happened before. */
  lemma DeleteLeavesNoTrace(run: seq<Op>, who: Caller, r: RoomId)
    requires var room := Find(Run(EMPTY_WORLD, run).rows, r); room.Some? && Manages(who, room.value)
    ensures NoTrace(Run(EMPTY_WORLD, run + [Delete(who, r)]), r)
  {
    var w := Run(EMPTY_WORLD, run);
    assert (run + [Delete(who, r)])[..|run|] == run;
    EveryKeyHasARow(run);
    FindSpec(w.rows, r);
    CloseEmptyOwned(w, r);
  }

  // ---------------------------------------------------------------- who was given access

  /** The request showed the room's password. */
  predicate Presented(op: Op, room: RoomStore.Room, u: UserId) {
    (op.Join? || op.Send? || op.Read?) && op.r == room.id && op.who.id == u && op.password == room.password
  }

  ghost predicate Earned(run: seq<Op>, room: RoomStore.Room, u: UserId) {
    exists i :: 0 <= i < |run| && Presented(run[i], room, u)
  }

  lemma SameRow(rows: seq<RoomStore.Room>, a: RoomStore.Room, b: RoomStore.Room)
    requires RoomStore.Valid(rows) && a in rows && b in rows && a.id == b.id
    ensures a == b
  {
    var i :| 0 <= i < |rows| && rows[i] == a;
    var j :| 0 <= j < |rows| && rows[j] == b;
  }

  lemma EnteredGrants(w: World, found: RoomStore.Room, who: Caller, password: string, r: RoomId, u: UserId)
    ensures Granted(Entered(w, found, who, password), r, u)
       <==> Granted(w, r, u) || (r == found.id && u == who.id != "" && found.isPrivate && !Manages(who, found)
                                 && password == found.password)
  {
  }

  /** A request on a room keeps the rows but for a delete, and only entering changes grants. */
  lemma OnRoomGrants(w: World, op: Op, found: RoomStore.Room, room: RoomStore.Room, u: UserId)
    requires Owned(w) && found in w.rows && !op.Create? && !op.Drain? && !op.Cleanup? && op.r == found.id
    requires room in OnRoom(w, op, found).rows && Granted(OnRoom(w, op, found), room.id, u)
    ensures room in w.rows && (Granted(w, room.id, u) || (room.isPrivate && Presented(op, room, u)))
  {
    hide Owned, Playback.Control, Red.JoinScript, Red.Remove, Red.DeleteRoom;
    if op.Delete? {
      RoomStore.WithoutIds(w.rows, {found.id});
    } else if op.Join? || op.Send? || op.Read? {
      EnteredGrants(w, found, op.who, op.password, room.id, u);
      if room.id == found.id { OwnedRows(w); SameRow(w.rows, room, found); }
    }
  }

  lemma OwnedRows(w: World)
    requires Owned(w)
    ensures RoomStore.Valid(w.rows) && w.access.Keys <= InDb(w)
  {
  }

  lemma StepGrants(w: World, op: Op, room: RoomStore.Room, u: UserId)
    requires Owned(w) && room in Do(w, op).rows && Granted(Do(w, op), room.id, u)
    ensures room in w.rows && (Granted(w, room.id, u) || (room.isPrivate && Presented(op, room, u)))
  {
    hide Owned, OnRoom;
    OwnedRows(w);
    match op
    case Create(new_room) => RoomStore.InsertMembers(w.rows, new_room);
    case Drain(_, _) =>
    case Cleanup => RoomStore.WithoutIds(w.rows, Candidates(w) - w.presence.members.Keys);
    case _ =>
      FindSpec(w.rows, op.r);
      if Find(w.rows, op.r).Some? { OnRoomGrants(w, op, Find(w.rows, op.r).value, room, u); }
  }

  /** Only private rooms hand out grants, and only to who showed the password of the room as it is now. */
  lemma {:induction false} GrantsAreEarned(run: seq<Op>, room: RoomStore.Room, u: UserId)
    requires room in Run(EMPTY_WORLD, run).rows && Granted(Run(EMPTY_WORLD, run), room.id, u)
    ensures room.isPrivate && Earned(run, room, u)
    decreases run
  {
    if run != [] {
      hide Do, Granted, Owned, Presented;
      var before, op := run[..|run| - 1], run[|run| - 1];
      var w := Run(EMPTY_WORLD, before);
      EveryKeyHasARow(before);
      StepGrants(w, op, room, u);
      if Granted(w, room.id, u) {
        GrantsAreEarned(before, room, u);
        var i :| 0 <= i < |before| && Presented(before[i], room, u);
        assert run[i] == before[i];
      }
    }
  }

  // ---------------------------------------------------------------- who may do what

  /** A request that is only for admins and the room's owner, made by u without being an admin. */
  predicate Meddles(op: Op, u: UserId) {
    (op.Delete? || op.Kick? || op.Control?) && op.who.id == u && !op.who.isAdmin
  }

  function WithoutMeddling(run: seq<Op>, u: UserId): seq<Op> {
    if run == [] then []
    else WithoutMeddling(run[..|run| - 1], u) + if Meddles(run[|run| - 1], u) then [] else [run[|run| - 1]]
  }

  ghost predicate OwnsNothing(w: World, u: UserId) {
    forall room :: room in w.rows ==> room.owner != u
  }

  lemma OwnersStay(w: World, op: Op, u: UserId)
    requires OwnsNothing(w, u) && (op.Create? ==> op.room.owner != u)
    ensures OwnsNothing(Do(w, op), u)
  {
    hide Red.JoinScript, Red.Remove, Red.DeleteRoom, Playback.Control;
    match op
    case Create(room) => RoomStore.InsertMembers(w.rows, room);
    case Cleanup => RoomStore.WithoutIds(w.rows, Candidates(w) - w.presence.members.Keys);
    case Delete(_, r) =>
      FindSpec(w.rows, r);
      RoomStore.WithoutIds(w.rows, {r});
    case _ =>
  }

  lemma MeddlingIsRefused(w: World, op: Op, u: UserId)
    requires OwnsNothing(w, u) && Meddles(op, u)
    ensures Do(w, op) == w
  {
    FindSpec(w.rows, op.r);
  }

  /** Whoever is no admin and owns no room changes none by deletes, kicks and controls, whatever else happens. */
  lemma {:induction false} OutsidersChangeNothing(run: seq<Op>, u: UserId)
    requires forall i :: 0 <= i < |run| && run[i].Create? ==> run[i].room.owner != u
    ensures Run(EMPTY_WORLD, run) == Run(EMPTY_WORLD, WithoutMeddling(run, u))
    ensures OwnsNothing(Run(EMPTY_WORLD, run), u)
    decreases run
  {
    hide Do, OwnsNothing, Meddles;
    if run == [] {
      assert OwnsNothing(EMPTY_WORLD, u) by { NobodyOwns(u); }
    } else {
      var before, op := run[..|run| - 1], run[|run| - 1];
      var rest := WithoutMeddling(before, u);
      OutsidersChangeNothing(before, u);
      OwnersStay(Run(EMPTY_WORLD, before), op, u);
      if Meddles(op, u) {
        MeddlingIsRefused(Run(EMPTY_WORLD, before), op, u);
        assert rest + [] == rest;
      } else {
        assert (rest + [op])[..|rest|] == rest;
      }
    }
  }

  lemma NobodyOwns(u: UserId)
    ensures OwnsNothing(EMPTY_WORLD, u)
  {
  }

  /** u joined the room as its owner, as an admin, or having shown its password by then. */
  ghost predicate LetIn(run: seq<Op>, room: RoomStore.Room, u: UserId) {
    exists i :: 0 <= i < |run| && run[i].Join? && run[i].r == room.id && run[i].who.id == u
      && (run[i].who.isAdmin || u == room.owner || Earned(run[..i + 1], room, u))
  }

  lemma LetInBefore(before: seq<Op>, op: Op, room: RoomStore.Room, u: UserId)
    requires LetIn(before, room, u)
    ensures LetIn(before + [op], room, u)
  {
    var i :| 0 <= i < |before| && before[i].Join? && before[i].r == room.id && before[i].who.id == u
      && (before[i].who.isAdmin || u == room.owner || Earned(before[..i + 1], room, u));
    assert (before + [op])[i] == before[i] && (before + [op])[..i + 1] == before[..i + 1];
  }

  lemma RemoveAddsNobody(p: Presence, r: RoomId, u: UserId)
    ensures forall v, q :: In(Red.Remove(p, r, u), v, q) ==> In(p, v, q)
  {
  }

  lemma JoinAddsOne(p: Presence, r: RoomId, u: UserId, name: string)
    ensures In(Red.JoinScript(p, r, u, name), u, r)
    ensures forall v, q :: In(Red.JoinScript(p, r, u, name), v, q) ==> In(p, v, q) || (v == u && q == r)
  {
    var p1 := if Moves(p, r, u) then Red.ScriptLeaves(p, p.userRoom[u], u) else p;
    assert forall v, q :: In(p1, v, q) ==> In(p, v, q);
    EntersAddsOne(p1, r, u, name);
    hide Red.ScriptLeaves, Red.ScriptEnters, In;
    assert Red.JoinScript(p, r, u, name) == Red.ScriptEnters(p1, r, u, name);
  }

  lemma EntersAddsOne(p: Presence, r: RoomId, u: UserId, name: string)
    ensures In(Red.ScriptEnters(p, r, u, name), u, r)
    ensures forall v, q :: In(Red.ScriptEnters(p, r, u, name), v, q) ==> In(p, v, q) || (v == u && q == r)
  {
  }

  lemma EnteredPresence(w: World, room: RoomStore.Room, who: Caller, password: string)
    ensures Entered(w, room, who, password).presence == w.presence && Entered(w, room, who, password).rows == w.rows
  {
  }

  lemma ControlledPresence(w: World, room: RoomStore.Room, who: Caller, input: Playback.ControlInput, now: real)
    ensures Controlled(w, room, who, input, now).presence == w.presence
    ensures Controlled(w, room, who, input, now).rows == w.rows
  {
  }

  /** A request takes u into a room only as a join that may enter it. */
  lemma OnRoomLetsIn(w: World, op: Op, found: RoomStore.Room, r: RoomId, u: UserId)
    requires In(OnRoom(w, op, found).presence, u, r)
    ensures In(w.presence, u, r)
            || (op.Join? && found.id == r && op.who.id == u && MayEnter(w, found, op.who, op.password))
  {
    hide Red.Remove, Red.JoinScript, Entered, Controlled, MayEnter;
    if op.Join? {
      EnteredPresence(w, found, op.who, op.password);
      JoinAddsOne(w.presence, found.id, op.who.id, op.name);
    } else if op.Leave? {
      RemoveAddsNobody(w.presence, found.id, op.who.id);
    } else if op.Kick? {
      RemoveAddsNobody(w.presence, found.id, TrimSpace(op.target));
    } else if op.Control? {
      ControlledPresence(w, found, op.who, op.input, op.now);
    } else if op.Send? || op.Read? {
      EnteredPresence(w, found, op.who, op.password);
    }
  }

  lemma OnRoomRows(w: World, op: Op, found: RoomStore.Room, room: RoomStore.Room)
    requires room in OnRoom(w, op, found).rows
    ensures room in w.rows
  {
    hide Red.Remove, Red.JoinScript, Red.DeleteRoom, Entered, Controlled, MayEnter;
    if op.Delete? {
      RoomStore.WithoutIds(w.rows, {found.id});
    } else if op.Control? {
      ControlledPresence(w, found, op.who, op.input, op.now);
    } else if op.Join? || op.Send? || op.Read? {
      EnteredPresence(w, found, op.who, op.password);
    }
  }

  lemma StepLetsIn(w: World, op: Op, room: RoomStore.Room, u: UserId)
    requires Owned(w) && room in Do(w, op).rows && In(Do(w, op).presence, u, room.id)
    ensures room in w.rows
    ensures In(w.presence, u, room.id)
            || (op.Join? && op.r == room.id && op.who.id == u && MayEnter(w, room, op.who, op.password))
  {
    OwnedRows(w);
    OwnedMembers(w, room.id, u);
    hide Owned, OnRoom, MayEnter;
    match op
    case Create(new_room) => RoomStore.InsertMembers(w.rows, new_room);
    case Drain(_, _) =>
    case Cleanup => RoomStore.WithoutIds(w.rows, Candidates(w) - w.presence.members.Keys);
    case _ =>
      FindSpec(w.rows, op.r);
      var found := Find(w.rows, op.r);
      if found.Some? {
        OnRoomRows(w, op, found.value, room);
        OnRoomLetsIn(w, op, found.value, room.id, u);
        if op.r == room.id { SameRow(w.rows, room, found.value); }
      }
  }

  lemma OwnedMembers(w: World, r: RoomId, u: UserId)
    requires Owned(w)
    ensures In(w.presence, u, r) ==> r in InDb(w)
  {
  }

  /** Over every run, whoever is in a private room is its owner or an admin, or has shown its password. */
  lemma {:induction false} MembersWereLetIn(run: seq<Op>, room: RoomStore.Room, u: UserId)
    requires room in Run(EMPTY_WORLD, run).rows && room.isPrivate && In(Run(EMPTY_WORLD, run).presence, u, room.id)
    ensures LetIn(run, room, u)
    decreases run
  {
    if run != [] {
      hide Do, In, Owned, LetIn, MayEnter, Granted;
      var before, op := run[..|run| - 1], run[|run| - 1];
      var w := Run(EMPTY_WORLD, before);
      EveryKeyHasARow(before);
      StepLetsIn(w, op, room, u);
      assert run == before + [op];
      if In(w.presence, u, room.id) {
        MembersWereLetIn(before, room, u);
        LetInBefore(before, op, room, u);
      } else {
        JoinedLast(run, w, room, u);
      }
    }
  }

  lemma JoinedLast(run: seq<Op>, w: World, room: RoomStore.Room, u: UserId)
    requires run != [] && w == Run(EMPTY_WORLD, run[..|run| - 1]) && room in w.rows && room.isPrivate
    requires var op := run[|run| - 1];
      op.Join? && op.r == room.id && op.who.id == u && MayEnter(w, room, op.who, op.password)
    ensures LetIn(run, room, u)
  {
    var n := |run| - 1;
    assert run[..n + 1] == run;
    if Granted(w, room.id, u) {
      GrantsAreEarned(run[..n], room, u);
      var i :| 0 <= i < n && Presented(run[..n][i], room, u);
      assert Presented(run[i], room, u);
    } else if run[n].password == room.password {
      assert Presented(run[n], room, u);
    }
  }
}
