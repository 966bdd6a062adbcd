/** The in-memory presence (cache/memory): one object, every method atomic under its lock. */
module PresenceMemory {
  import opened Common
  import opened P = Presence

  datatype RoomMember = RoomMember(userId: UserId, username: string)

  // ---------------------------------------------------------------- the operations on values

  function Remove(p: Presence, r: RoomId, u: UserId): Presence {
    if r !in p.members then p
    else
      var m := p.members[r] - {u};
      var userRoom := if u in p.userRoom && p.userRoom[u] == r then p.userRoom - {u} else p.userRoom;
      if m == map[] then Presence(p.members - {r}, userRoom, p.active - {r}, p.pendingEmpty + {r})
      else Presence(p.members[r := m], userRoom, p.active, p.pendingEmpty)
  }

  function Enter(p: Presence, r: RoomId, u: UserId, name: string): Presence {
    Presence(p.members[r := Members(p, r)[u := name]], p.userRoom[u := r], p.active + {r}, p.pendingEmpty - {r})
  }

  function Join(p: Presence, r: RoomId, u: UserId, name: string): Presence {
    Enter(if Moves(p, r, u) then Remove(p, p.userRoom[u], u) else p, r, u, name)
  }

  /** The reverse index without those of us who are in r. */
  function Evict(userRoom: map<UserId, RoomId>, us: set<UserId>, r: RoomId): map<UserId, RoomId> {
    map u | u in userRoom && !(u in us && userRoom[u] == r) :: userRoom[u]
  }

  lemma EvictOneMore(userRoom: map<UserId, RoomId>, us: set<UserId>, r: RoomId, u: UserId)
    ensures var so := Evict(userRoom, us, r);
      Evict(userRoom, us + {u}, r) == if u in so && so[u] == r then so - {u} else so
  {
  }

  function DeleteRoom(p: Presence, r: RoomId): Presence {
    if r !in p.members then p
    else Presence(p.members - {r}, Evict(p.userRoom, p.members[r].Keys, r), p.active - {r}, p.pendingEmpty - {r})
  }

  // ---------------------------------------------------------------- what they mean

  lemma SameWhereabouts(p: Presence, w: map<UserId, (RoomId, string)>)
    requires Valid(p)
    requires forall u :: u in w <==> u in p.userRoom
    requires forall u :: u in w ==> In(p, u, w[u].0) && p.members[w[u].0][u] == w[u].1
    ensures Whereabouts(p) == w
  {
    forall u | u in w ensures Whereabouts(p)[u] == w[u] {
      assert In(p, u, w[u].0);
    }
  }

  lemma RemoveValid(p: Presence, r: RoomId, u: UserId)
    requires Valid(p)
    ensures Valid(Remove(p, r, u))
    ensures forall v, q :: In(Remove(p, r, u), v, q) <==> In(p, v, q) && !(v == u && q == r)
  {
    var p' := Remove(p, r, u);
    if r in p.members {
      var m := p.members[r] - {u};
      forall v, q ensures In(p', v, q) <==> In(p, v, q) && !(v == u && q == r) {
        if v != u && q == r && In(p, v, q) { assert v in m; }
      }
      forall v ensures v in p'.userRoom <==> v in p.userRoom && !(v == u && p.userRoom[v] == r) {}
    }
  }

  /** Leaving: the user is nowhere afterwards if this was their room, and nothing happens otherwise. */
  lemma RemoveSpec(p: Presence, r: RoomId, u: UserId)
    requires Valid(p)
    ensures Valid(Remove(p, r, u))
    ensures Whereabouts(Remove(p, r, u)) == if In(p, u, r) then Whereabouts(p) - {u} else Whereabouts(p)
    ensures Remove(p, r, u).pendingEmpty
         == p.pendingEmpty + (if In(p, u, r) && Members(p, r).Keys == {u} then {r} else {})
  {
    RemoveValid(p, r, u);
    var p' := Remove(p, r, u);
    if r in p.members {
      var m := p.members[r] - {u};
      assert m.Keys == p.members[r].Keys - {u};
      assert m == map[] ==> m.Keys == {};
      if !In(p, u, r) { assert m == p.members[r]; }
      var w := if In(p, u, r) then Whereabouts(p) - {u} else Whereabouts(p);
      forall v | v in w ensures In(p', v, w[v].0) && p'.members[w[v].0][v] == w[v].1 {
        assert In(p, v, p.userRoom[v]);
      }
      SameWhereabouts(p', w);
    } else {
      assert !In(p, u, r);
    }
  }

  lemma EnterSpec(p: Presence, r: RoomId, u: UserId, name: string)
    requires Valid(p) && !Moves(p, r, u)
    ensures Valid(Enter(p, r, u, name))
    ensures Whereabouts(Enter(p, r, u, name)) == Whereabouts(p)[u := (r, name)]
  {
    var p' := Enter(p, r, u, name);
    assert u in p'.members[r];
    forall v, q ensures In(p', v, q) <==> In(p, v, q) || (v == u && q == r) {}
    var w := Whereabouts(p)[u := (r, name)];
    forall v | v in w ensures In(p', v, w[v].0) && p'.members[w[v].0][v] == w[v].1 {
      if v != u { assert In(p, v, p.userRoom[v]); }
    }
    SameWhereabouts(p', w);
  }

  lemma MoveSpec(p: Presence, r: RoomId, u: UserId, name: string)
    requires Valid(p) && Moves(p, r, u)
    ensures var p1 := Remove(p, p.userRoom[u], u);
      && Valid(p1) && !Moves(p1, r, u)
      && Whereabouts(p1)[u := (r, name)] == Whereabouts(p)[u := (r, name)]
      && p1.pendingEmpty == p.pendingEmpty + (if Members(p, p.userRoom[u]).Keys == {u} then {p.userRoom[u]} else {})
  {
    var was := p.userRoom[u];
    assert In(p, u, was);
    RemoveSpec(p, was, u);
    assert u !in Whereabouts(Remove(p, was, u));
    assert (Whereabouts(p) - {u})[u := (r, name)] == Whereabouts(p)[u := (r, name)];
  }

  /** Joining moves the user, from wherever they were, and leaves everybody else in place. */
  lemma JoinSpec(p: Presence, r: RoomId, u: UserId, name: string)
    requires Valid(p)
    ensures Valid(Join(p, r, u, name))
    ensures Whereabouts(Join(p, r, u, name)) == Whereabouts(p)[u := (r, name)]
    ensures var left := if Moves(p, r, u) && Members(p, p.userRoom[u]).Keys == {u} then {p.userRoom[u]} else {};
      Join(p, r, u, name).pendingEmpty == p.pendingEmpty + left - {r}
  {
    if Moves(p, r, u) { MoveSpec(p, r, u, name); }
    EnterSpec(if Moves(p, r, u) then Remove(p, p.userRoom[u], u) else p, r, u, name);
  }

  lemma DeleteRoomValid(p: Presence, r: RoomId)
    requires Valid(p)
    ensures Valid(DeleteRoom(p, r))
    ensures forall v, q :: In(DeleteRoom(p, r), v, q) <==> In(p, v, q) && q != r
  {
    var p' := DeleteRoom(p, r);
    forall v, q ensures In(p', v, q) <==> In(p, v, q) && q != r {}
    forall v ensures v in p'.userRoom <==> v in p.userRoom && p.userRoom[v] != r {
      if v in p.userRoom { assert In(p, v, p.userRoom[v]); }
    }
  }

  /** Deleting a room sends exactly its members away; a room already empty keeps its pending mark. */
  lemma DeleteRoomSpec(p: Presence, r: RoomId)
    requires Valid(p)
    ensures Valid(DeleteRoom(p, r))
    ensures Whereabouts(DeleteRoom(p, r)) == map u | u in Whereabouts(p) && Whereabouts(p)[u].0 != r :: Whereabouts(p)[u]
    ensures DeleteRoom(p, r).pendingEmpty == p.pendingEmpty
  {
    DeleteRoomValid(p, r);
    var p' := DeleteRoom(p, r);
    var w := map u | u in Whereabouts(p) && Whereabouts(p)[u].0 != r :: Whereabouts(p)[u];
    forall v | v in w ensures In(p', v, w[v].0) && p'.members[w[v].0][v] == w[v].1 {
      assert In(p, v, p.userRoom[v]);
    }
    forall v ensures v in p'.userRoom <==> v in w {
      if v in p'.userRoom { assert In(p', v, p'.userRoom[v]); }
    }
    SameWhereabouts(p', w);
  }

  // ---------------------------------------------------------------- the object

  class RoomPresence {
    var members: map<RoomId, map<UserId, string>>
    var userRoom: map<UserId, RoomId>
    var activeRooms: set<RoomId>
    var pendingEmpty: set<RoomId>

    function Value(): Presence
      reads this
    {
      Presence(members, userRoom, activeRooms, pendingEmpty)
    }

    constructor ()
      ensures Value() == EMPTY && Valid(Value())
    {
      members, userRoom, activeRooms, pendingEmpty := map[], map[], {}, {};
    }

    method JoinRoom(roomID: RoomId, userID: UserId, username: string) returns (leftRoomID: Option<RoomId>)
      requires Valid(Value())
      modifies this
      ensures Valid(Value()) && Value() == old(Join(Value(), roomID, userID, username))
      ensures Whereabouts(Value()) == old(Whereabouts(Value()))[userID := (roomID, username)]
      ensures leftRoomID == if userID in old(userRoom) && old(userRoom)[userID] != roomID then Some(old(userRoom)[userID]) else None
    {
      JoinSpec(Value(), roomID, userID, username);
      leftRoomID := None;
      if userID in userRoom && userRoom[userID] != roomID {
        leftRoomID := Some(userRoom[userID]);
        RemoveMemberLocked(userRoom[userID], userID);
      }
      var m := if roomID in members then members[roomID] else map[];
      members := members[roomID := m[userID := username]];
      userRoom := userRoom[userID := roomID];
      activeRooms := activeRooms + {roomID};
      pendingEmpty := pendingEmpty - {roomID};
    }

    method LeaveRoom(roomID: RoomId, userID: UserId)
      requires Valid(Value())
      modifies this
      ensures Valid(Value()) && Value() == old(Remove(Value(), roomID, userID))
    {
      RemoveMemberLocked(roomID, userID);
    }

    /** Kicking removes a member just as leaving does. */
    method RemoveMember(roomID: RoomId, userID: UserId)
      requires Valid(Value())
      modifies this
      ensures Valid(Value()) && Value() == old(Remove(Value(), roomID, userID))
    {
      LeaveRoom(roomID, userID);
    }

    method RemoveMemberLocked(roomID: RoomId, userID: UserId)
      requires Valid(Value())
      modifies this
      ensures Valid(Value()) && Value() == old(Remove(Value(), roomID, userID))
    {
      RemoveValid(Value(), roomID, userID);
      hide Valid, In;
      if roomID !in members { return; }
      var m := members[roomID] - {userID};
      members := members[roomID := m];
      if m == map[] {
        members := members - {roomID};
        activeRooms := activeRooms - {roomID};
        pendingEmpty := pendingEmpty + {roomID};
        assert members == old(members) - {roomID};
      }
      if userID in userRoom && userRoom[userID] == roomID {
        userRoom := userRoom - {userID};
      }
    }

    method DeleteRoomPresence(roomID: RoomId)
      requires Valid(Value())
      modifies this
      ensures Valid(Value()) && Value() == old(DeleteRoom(Value(), roomID))
    {
      DeleteRoomValid(Value(), roomID);
      if roomID !in members { return; }
      EvictMembers(roomID);
      members := members - {roomID};
      activeRooms := activeRooms - {roomID};
      pendingEmpty := pendingEmpty - {roomID};
    }

    method EvictMembers(roomID: RoomId)
      requires roomID in members
      modifies this`userRoom
      ensures userRoom == Evict(old(userRoom), members[roomID].Keys, roomID)
    {
      ghost var done: set<UserId> := {};
      var left := members[roomID].Keys;
      while left != {}
        invariant left + done == members[roomID].Keys && left !! done
        invariant userRoom == Evict(old(userRoom), done, roomID)
        decreases left
      {
        var uid :| uid in left;
        EvictOneMore(old(userRoom), done, roomID, uid);
        if uid in userRoom && userRoom[uid] == roomID {
          userRoom := userRoom - {uid};
        }
        left, done := left - {uid}, done + {uid};
      }
      assert done == members[roomID].Keys;
    }

    method ClearPendingEmpty(roomID: RoomId)
      requires Valid(Value())
      modifies this
      ensures Valid(Value()) && Value() == old(Value()).(pendingEmpty := old(pendingEmpty) - {roomID})
    {
      ghost var before := Value();
      pendingEmpty := pendingEmpty - {roomID};
      assert forall u, r :: In(Value(), u, r) <==> In(before, u, r);
    }

    method MemberCount(roomID: RoomId) returns (n: nat)
      requires Valid(Value())
      ensures n == |set u | u in userRoom && userRoom[u] == roomID|
    {
      n := if roomID in members then |members[roomID]| else 0;
      ghost var us := set u | u in userRoom && userRoom[u] == roomID;
      assert us == Members(Value(), roomID).Keys by {
        assert forall u :: u in us <==> In(Value(), u, roomID);
      }
    }

    /** Members in no particular order, each once. */
    method ListMembers(roomID: RoomId) returns (out: seq<RoomMember>)
      requires Valid(Value())
      ensures forall m :: m in out <==>
                m.userId in Whereabouts(Value()) && Whereabouts(Value())[m.userId] == (roomID, m.username)
      ensures forall i, j :: 0 <= i < j < |out| ==> out[i].userId != out[j].userId
    {
      out := [];
      var m := if roomID in members then members[roomID] else map[];
      var left := m.Keys;
      while left != {}
        invariant left <= m.Keys
        invariant forall x :: x in out <==> x.userId in m && x.userId !in left && m[x.userId] == x.username
        invariant forall i, j :: 0 <= i < j < |out| ==> out[i].userId != out[j].userId
        decreases left
      {
        var uid :| uid in left;
        assert forall i :: 0 <= i < |out| ==> out[i] in out;
        out := out + [RoomMember(uid, m[uid])];
        left := left - {uid};
      }
      assert forall u :: In(Value(), u, roomID) <==> u in m;
    }

    /** The rooms somebody is in, each once, read off the set kept beside the member maps. */
    method ListRoomsWithMembers() returns (out: seq<RoomId>)
      requires Valid(Value())
      ensures forall r :: r in out <==> exists u :: In(Value(), u, r)
      ensures forall i, j :: 0 <= i < j < |out| ==> out[i] != out[j]
    {
      out := [];
      var left := activeRooms;
      while left != {}
        invariant left <= activeRooms
        invariant forall r :: r in out <==> r in activeRooms && r !in left
        invariant forall i, j :: 0 <= i < j < |out| ==> out[i] != out[j]
        decreases left
      {
        var id :| id in left;
        assert forall i :: 0 <= i < |out| ==> out[i] in out;
        out := out + [id];
        left := left - {id};
      }
      forall r ensures r in activeRooms <==> exists u :: In(Value(), u, r) {
        if r in members {
          assert members[r].Keys != {};
          var u :| u in members[r].Keys;
          assert In(Value(), u, r);
        }
      }
    }
  }

  // ---------------------------------------------------------------- whole runs

  datatype Op = OpJoin(r: RoomId, u: UserId, name: string) | OpLeave(r: RoomId, u: UserId)
              | OpDelete(r: RoomId) | OpClear(r: RoomId)

  function Do(p: Presence, op: Op): Presence {
    match op
    case OpJoin(r, u, name) => Join(p, r, u, name)
    case OpLeave(r, u) => Remove(p, r, u)
    case OpDelete(r) => DeleteRoom(p, r)
    case OpClear(r) => p.(pendingEmpty := p.pendingEmpty - {r})
  }

  function Run(p: Presence, ops: seq<Op>): Presence
    decreases |ops|
  {
    if ops == [] then p else Run(Do(p, ops[0]), ops[1..])
  }

  /** The same history as told by the whereabouts alone. */
  function Told(w: map<UserId, (RoomId, string)>, ops: seq<Op>): map<UserId, (RoomId, string)>
    decreases |ops|
  {
    if ops == [] then w
    else
      var w' := match ops[0]
        case OpJoin(r, u, name) => w[u := (r, name)]
        case OpLeave(r, u) => if u in w && w[u].0 == r then w - {u} else w
        case OpDelete(r) => map u | u in w && w[u].0 != r :: w[u]
        case OpClear(_) => w;
      Told(w', ops[1..])
  }

  lemma DoSpec(p: Presence, op: Op)
    requires Valid(p)
    ensures Valid(Do(p, op)) && Whereabouts(Do(p, op)) == Told(Whereabouts(p), [op])
  {
    match op
    case OpJoin(r, u, name) => JoinSpec(p, r, u, name);
    case OpLeave(r, u) =>
      RemoveSpec(p, r, u);
      assert In(p, u, r) <==> u in Whereabouts(p) && Whereabouts(p)[u].0 == r;
    case OpDelete(r) => DeleteRoomSpec(p, r);
    case OpClear(r) =>
      assert forall u, q :: In(Do(p, op), u, q) <==> In(p, u, q);
  }

  /** Over any run the indexes stay consistent and say exactly what the history says. */
  lemma {:induction false} RunRefinesWhereabouts(p: Presence, ops: seq<Op>)
    requires Valid(p)
    ensures var p' := Run(p, ops);
      && Valid(p') && Whereabouts(p') == Told(Whereabouts(p), ops)
      && MemberTotal(p', p'.members.Keys) == |p'.userRoom|
    decreases |ops|
  {
    if ops == [] {
      CountsAddUp(p);
    } else {
      DoSpec(p, ops[0]);
      assert [ops[0]][1..] == [];
      RunRefinesWhereabouts(Do(p, ops[0]), ops[1..]);
    }
  }
}
