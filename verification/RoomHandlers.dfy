/** The room endpoints: what each request checks, in which order, and which step it takes. */
module RoomHandlers {
  import opened Common
  import opened RoomHub
  import opened Lifecycle
  import P = Presence
  import Red = PresenceRedis
  import RoomStore
  import Playback = PlaybackControl

  /** Failed is a store's or the publisher's error. */
  datatype Reply = Done | NotFound | Denied | Invalid | Conflict | Failed

  const NAME_MAX := 80
  const PASSWORD_MIN := 4

  /** What an interrupted removal leaves: all as before, or the transaction alone. */
  function Dropped(p: P.Presence, r: RoomId, u: UserId, txOk: bool): P.Presence {
    if txOk then Red.RemoveTx(p, r, u) else p
  }

  lemma DeleteSpares(w: World, r: RoomId)
    ensures forall q :: q != r ==> RoomUntouched(w, CloseEmpty(w, r), q)
    ensures var v := w.(rows := RoomStore.Without(w.rows, {r}));
      && (forall q :: q != r ==> RoomUntouched(w, v, q))
      && (forall x :: x in v.rows <==> x in w.rows && x.id != r)
  {
    RoomStore.WithoutIds(w.rows, {r});
    forall q | q != r ensures RoomUntouched(w, CloseEmpty(w, r), q) { CloseSparesOthers(w, r, q); }
  }

  class Handler {
    const hub: RoomHub.Service

    constructor ()
      ensures fresh(hub) && hub.Value() == EMPTY_WORLD
    {
      hub := new RoomHub.Service();
    }

    /** id and now are the new row's id and time. */
    method Create(who: Caller, name: string, visibility: string, password: string, id: RoomId, now: int) returns (reply: Reply)
      modifies hub
      ensures reply == Invalid <==>
        || !(1 <= |TrimSpace(name)| <= 80)
        || TrimSpace(visibility) !in {"", "public", "private"}
        || (TrimSpace(visibility) == "private" && |password| < 4)
      ensures reply == Conflict ==> id in old(InDb(hub.Value()))
      ensures reply in {Done, Invalid, Conflict}
      ensures var isPrivate := TrimSpace(visibility) == "private";
        var room := RoomStore.Room(id, who.id, isPrivate, if isPrivate then password else "", now);
        hub.Value() == if reply == Done then Do(old(hub.Value()), Lifecycle.Create(room)) else old(hub.Value())
      ensures reply == Done ==> id !in old(InDb(hub.Value()))
      // the new row is the caller's, and nothing else changes
      ensures forall x :: x in hub.rows <==> x in old(hub.rows) || (reply == Done && x == RoomStore.Room(
        id, who.id, TrimSpace(visibility) == "private", if TrimSpace(visibility) == "private" then password else "", now))
      ensures hub.Value() == old(hub.Value()).(rows := hub.rows)
    {
      var trimmed := TrimSpace(name);
      if |trimmed| < 1 || |trimmed| > NAME_MAX { return Invalid; }
      var v := TrimSpace(visibility);
      if v == "" { v := "public"; }
      if v != "public" && v != "private" { return Invalid; }
      var room := RoomStore.Room(id, who.id, v == "private", "", now);
      if v == "private" {
        if |password| < PASSWORD_MIN { return Invalid; }
        room := room.(password := password);
      }
      if id in RoomStore.Ids(hub.rows) { return Conflict; }
      RoomStore.InsertMembers(hub.rows, room);
      hub.rows := RoomStore.Insert(hub.rows, room);
      reply := Done;
    }

    method LoadRoom(r: string) returns (room: Option<RoomStore.Room>)
      ensures room == Find(hub.rows, TrimSpace(r))
    {
      room := Find(hub.rows, TrimSpace(r));
    }

    method CanAccessRoom(room: RoomStore.Room, who: Caller, password: string) returns (ok: bool)
      modifies hub
      ensures ok == MayEnter(old(hub.Value()), room, who, password)
      ensures hub.Value() == Entered(old(hub.Value()), room, who, password)
      // a public room lets everybody in; a private one admins, its owner, who has a grant, and who knows its password
      ensures var granted := who.id != "" && room.id in old(hub.access) && who.id in old(hub.access)[room.id];
        && ok == (!room.isPrivate || who.isAdmin || room.owner == who.id || granted || password == room.password)
        && (hub.Value() != old(hub.Value()) ==>
              && room.isPrivate && !who.isAdmin && room.owner != who.id && !granted && who.id != "" && password == room.password)
      ensures hub.Value() == old(hub.Value()).(access := hub.access)
      ensures forall q, u :: Granted(hub.Value(), q, u) <==>
        || Granted(old(hub.Value()), q, u)
        || (q == room.id && u == who.id != "" && room.isPrivate && !who.isAdmin && room.owner != who.id && password == room.password)
    {
      if !room.isPrivate || Manages(who, room) { return true; }
      if who.id != "" && room.id in hub.access && who.id in hub.access[room.id] { return true; }
      if password == room.password {
        if who.id != "" {
          var granted := if room.id in hub.access then hub.access[room.id] else {};
          hub.access := hub.access[room.id := granted + {who.id}];
        }
        return true;
      }
      ok := false;
    }

    /** If the join script fails, a grant just earned stays. */
    method Join(who: Caller, r: string, password: string, name: string, joinOk: bool) returns (reply: Reply)
      modifies hub
      ensures hub.Value() == Do(old(hub.Value()), if joinOk then Lifecycle.Join(who, TrimSpace(r), password, name)
                                                  else Lifecycle.Read(who, TrimSpace(r), password))
      ensures reply == Done ==> P.In(hub.presence, who.id, TrimSpace(r))
      ensures reply == (match Find(old(hub.rows), TrimSpace(r))
                        case None => NotFound
                        case Some(room) =>
                          var granted := who.id != "" && room.id in old(hub.access) && who.id in old(hub.access)[room.id];
                          if room.isPrivate && !who.isAdmin && room.owner != who.id && !granted && password != room.password then
                            Denied
                          else if joinOk then Done else Failed)
      ensures hub.rows == old(hub.rows) && hub.states == old(hub.states) && hub.chats == old(hub.chats)
      ensures reply != Done ==> hub.presence == old(hub.presence)
    {
      var room := LoadRoom(r);
      if room.None? { return NotFound; }
      FindSpec(hub.rows, TrimSpace(r));
      var ok := CanAccessRoom(room.value, who, password);
      if !ok { return Denied; }
      if !joinOk { return Failed; }
      hub.presence := Red.JoinScript(hub.presence, room.value.id, who.id, name);
      reply := Done;
    }

    /** An error from the transaction changes nothing; one from counting the rest leaves it at the transaction. */
    method RemoveMember(r: RoomId, u: UserId, txOk: bool, countOk: bool) returns (ok: bool)
      modifies hub
      ensures ok == (txOk && countOk)
      ensures ok ==> hub.Value() == Removed(old(hub.Value()), r, u)
      ensures !ok ==> hub.Value() == old(hub.Value()).(presence := Dropped(old(hub.presence), r, u, txOk))
      ensures txOk ==> !P.In(hub.presence, u, r)
    {
      ok := txOk && countOk;
      hub.presence := if ok then Red.Remove(hub.presence, r, u) else Dropped(hub.presence, r, u, txOk);
    }

    method Leave(who: Caller, r: string, txOk: bool, countOk: bool) returns (reply: Reply)
      modifies hub
      ensures txOk && countOk ==> hub.Value() == Do(old(hub.Value()), Lifecycle.Leave(who, TrimSpace(r)))
      ensures !(txOk && countOk) ==> hub.Value() == old(hub.Value()).(presence :=
        if reply == Failed then Dropped(old(hub.presence), TrimSpace(r), who.id, txOk) else old(hub.presence))
      ensures reply == if Find(old(hub.rows), TrimSpace(r)).None? then NotFound else if txOk && countOk then Done else Failed
      ensures reply == Done ==> !P.In(hub.presence, who.id, TrimSpace(r))
      ensures hub.Value() == old(hub.Value()).(presence := hub.presence)
    {
      var room := LoadRoom(r);
      if room.None? { return NotFound; }
      FindSpec(hub.rows, TrimSpace(r));
      var ok := RemoveMember(room.value.id, who.id, txOk, countOk);
      reply := if ok then Done else Failed;
    }

    /** The member is gone even if the announcement fails. */
    method Kick(who: Caller, r: string, uid: string, txOk: bool, countOk: bool, publishOk: bool) returns (reply: Reply)
      modifies hub
      ensures txOk && countOk ==> hub.Value() == Do(old(hub.Value()), Lifecycle.Kick(who, TrimSpace(r), uid))
      ensures !(txOk && countOk) ==> hub.Value() == old(hub.Value()).(presence :=
        if reply == Failed then Dropped(old(hub.presence), TrimSpace(r), TrimSpace(uid), txOk) else old(hub.presence))
      ensures reply == (match Find(old(hub.rows), TrimSpace(r))
                        case None => NotFound
                        case Some(room) =>
                          if !who.isAdmin && room.owner != who.id then Denied else if TrimSpace(uid) == "" then Invalid
                          else if txOk && countOk && publishOk then Done else Failed)
      ensures reply in {NotFound, Denied, Invalid} ==> hub.Value() == old(hub.Value())
      ensures reply == Done ==> !P.In(hub.presence, TrimSpace(uid), TrimSpace(r))
      ensures hub.Value() == old(hub.Value()).(presence := hub.presence)
    {
      var room := LoadRoom(r);
      if room.None? { return NotFound; }
      if !Manages(who, room.value) { return Denied; }
      if TrimSpace(uid) == "" { return Invalid; }
      FindSpec(hub.rows, TrimSpace(r));
      var ok := RemoveMember(room.value.id, TrimSpace(uid), txOk, countOk);
      reply := if ok && publishOk then Done else Failed;
    }

    /**
     The row goes first, then the keys. An error deleting the row changes nothing, one deleting
     the playback state leaves every key behind, and a failed announcement undoes nothing.
     */
    method Delete(who: Caller, r: string, dbOk: bool, stateOk: bool, publishOk: bool) returns (reply: Reply)
      modifies hub
      ensures dbOk && stateOk ==> hub.Value() == Do(old(hub.Value()), Lifecycle.Delete(who, TrimSpace(r)))
      ensures !dbOk ==> hub.Value() == old(hub.Value())
      ensures dbOk && !stateOk ==> hub.Value() == old(hub.Value()).(rows :=
        if reply == Failed then RoomStore.Without(old(hub.rows), {TrimSpace(r)}) else old(hub.rows))
      ensures reply == (match Find(old(hub.rows), TrimSpace(r))
                        case None => NotFound
                        case Some(room) =>
                          if !who.isAdmin && room.owner != who.id then Denied
                          else if dbOk && stateOk && publishOk then Done else Failed)
      ensures reply in {NotFound, Denied} ==> hub.Value() == old(hub.Value())
      // of the room neither row nor key is left, and other rooms are untouched
      ensures reply == Done ==>
        && (forall x :: x in hub.rows <==> x in old(hub.rows) && x.id != TrimSpace(r))
        && TrimSpace(r) !in hub.states && TrimSpace(r) !in hub.presence.members
        && TrimSpace(r) !in hub.access && TrimSpace(r) !in hub.chats
      ensures forall q :: q != TrimSpace(r) ==> RoomUntouched(old(hub.Value()), hub.Value(), q)
    {
      var room := LoadRoom(r);
      if room.None? { return NotFound; }
      if !Manages(who, room.value) { return Denied; }
      if !dbOk { return Failed; }
      FindSpec(hub.rows, TrimSpace(r));
      DeleteSpares(hub.Value(), room.value.id);
      hub.rows := RoomStore.Without(hub.rows, {room.value.id});
      var ok := hub.CloseRoom(room.value.id, stateOk, publishOk);
      reply := if ok then Done else Failed;
    }

    /**
     The state is read, stored and then announced: it changes exactly when the control is accepted
     and both store commands succeed, and the reply is a success when it is announced too.
     */
    method Control(who: Caller, r: string, input: Playback.ControlInput, now: real,
                   readOk: bool, writeOk: bool, publishOk: bool) returns (reply: Reply)
      modifies hub
      ensures hub.Value() == if readOk && writeOk then Do(old(hub.Value()), Lifecycle.Control(who, TrimSpace(r), input, now))
                             else old(hub.Value())
      ensures reply == NotFound <==> Find(old(hub.rows), TrimSpace(r)).None?
      ensures reply == Denied <==> var room := Find(old(hub.rows), TrimSpace(r));
        room.Some? && !who.isAdmin && room.value.owner != who.id
      ensures hub.Value() == old(hub.Value()).(states := hub.states) && hub.states - {TrimSpace(r)} == old(hub.states) - {TrimSpace(r)}
      ensures hub.states != old(hub.states) ==> TrimSpace(r) in hub.states && Playback.StoredAs(
        if TrimSpace(r) in old(hub.states) then Some(old(hub.states)[TrimSpace(r)]) else None,
        Playback.User(who.id, who.isAdmin, Find(old(hub.rows), TrimSpace(r)).value.owner == who.id), input, now, hub.states[TrimSpace(r)])
      ensures reply == Done <==> hub.Value() != old(hub.Value()) && publishOk
      ensures var accepted := Do(old(hub.Value()), Lifecycle.Control(who, TrimSpace(r), input, now)) != old(hub.Value());
        if readOk then reply in {Done, Failed} <==> accepted else reply in {NotFound, Denied, Failed}
      ensures reply == Conflict ==> TrimSpace(r) in old(hub.states) && 0 < input.clientVersion < old(hub.states)[TrimSpace(r)].version
    {
      hide Playback.StoredAs;
      var room := LoadRoom(r);
      if room.None? { return NotFound; }
      if !Manages(who, room.value) { return Denied; }
      if !readOk { return Failed; }
      FindSpec(hub.rows, TrimSpace(r));
      var prev := if room.value.id in hub.states then Some(hub.states[room.value.id]) else None;
      var user := Playback.User(who.id, who.isAdmin, room.value.owner == who.id);
      var result := Playback.Control(prev, user, input, now);
      match result {
        case Forbidden => reply := Denied;
        case Stale => reply := Conflict;
        case Written(state) =>
          ghost var stored := hub.states[room.value.id := state];
          assert prev.Some? ==> state.version == prev.value.version + 1;
          assert stored != hub.states;
          if !writeOk { return Failed; }
          Playback.WrittenIsStored(prev, user, input, now);
          hub.states := hub.states[room.value.id := state];
          reply := if publishOk then Done else Failed;
      }
    }
  }
}
