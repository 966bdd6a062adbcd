/**
 The Redis presence (cache/redis): a hash per room, a key per user and two sets. Joining
 is one atomic script; removing a member is a transaction followed by separate commands.
 */
module PresenceRedis {
  import opened Common
  import opened P = Presence

  // ---------------------------------------------------------------- commands on values

  /** HDEL: a hash that loses its last field is gone. */
  function HDel(p: Presence, r: RoomId, u: UserId): Presence {
    if Members(p, r) - {u} == map[] then p.(members := p.members - {r})
    else p.(members := p.members[r := p.members[r] - {u}])
  }

  function HSet(p: Presence, r: RoomId, u: UserId, name: string): Presence {
    p.(members := p.members[r := Members(p, r)[u := name]])
  }

  function HLen(p: Presence, r: RoomId): nat {
    |Members(p, r)|
  }

  /** What both ways of leaving do when the room's HLEN is 0. */
  function SweepIfEmpty(p: Presence, r: RoomId): Presence {
    if HLen(p, r) == 0 then
      p.(members := p.members - {r}, active := p.active - {r}, pendingEmpty := p.pendingEmpty + {r})
    else p
  }

  /** The part of joinScriptMigrate that leaves the room the user's key names. */
  function ScriptLeaves(p: Presence, was: RoomId, u: UserId): Presence {
    SweepIfEmpty(HDel(p, was, u), was)
  }

  /** The rest of the script. */
  function ScriptEnters(p: Presence, r: RoomId, u: UserId, name: string): Presence {
    HSet(p, r, u, name).(userRoom := p.userRoom[u := r], active := p.active + {r}, pendingEmpty := p.pendingEmpty - {r})
  }

  function JoinScript(p: Presence, r: RoomId, u: UserId, name: string): Presence {
    ScriptEnters(if Moves(p, r, u) then ScriptLeaves(p, p.userRoom[u], u) else p, r, u, name)
  }

  /** removeMember's transaction: HDEL the field and DEL the user's key, whatever it names. */
  function RemoveTx(p: Presence, r: RoomId, u: UserId): Presence {
    HDel(p, r, u).(userRoom := p.userRoom - {u})
  }

  /** removeMember with no other command in between. */
  function Remove(p: Presence, r: RoomId, u: UserId): Presence {
    SweepIfEmpty(RemoveTx(p, r, u), r)
  }

  /** DeleteRoomPresence's transaction, given the members it read before. */
  function DeleteTx(p: Presence, r: RoomId, seen: set<UserId>): Presence {
    Presence(p.members - {r}, p.userRoom - seen, p.active - {r}, p.pendingEmpty - {r})
  }

  function DeleteRoom(p: Presence, r: RoomId): Presence {
    DeleteTx(p, r, Members(p, r).Keys)
  }

  // ---------------------------------------------------------------- the client

  class RoomPresence {
    var members: map<RoomId, map<UserId, string>>
    var userRoom: map<UserId, RoomId>
    var active: set<RoomId>
    var pendingEmpty: set<RoomId>

    function Value(): Presence
      reads this
    {
      Presence(members, userRoom, active, pendingEmpty)
    }

    constructor ()
      ensures Value() == EMPTY
    {
      members, userRoom, active, pendingEmpty := map[], map[], {}, {};
    }

    method HDelete(r: RoomId, u: UserId)
      modifies this`members
      ensures Value() == old(HDel(Value(), r, u))
    {
      if r in members && members[r] - {u} != map[] {
        members := members[r := members[r] - {u}];
      } else {
        members := members - {r};
      }
    }

    method HLength(r: RoomId) returns (n: nat)
      ensures n == HLen(Value(), r)
    {
      n := if r in members then |members[r]| else 0;
    }

    /** The script, command by command; nothing runs in between. */
    method JoinRoom(roomID: RoomId, userID: UserId, username: string) returns (leftRoom: Option<RoomId>)
      modifies this
      ensures Value() == old(JoinScript(Value(), roomID, userID, username))
      ensures leftRoom == if userID in old(userRoom) && old(userRoom)[userID] != roomID then Some(old(userRoom)[userID]) else None
    {
      leftRoom := None;
      if userID in userRoom && userRoom[userID] != roomID {
        var was := userRoom[userID];
        leftRoom := Some(was);
        HDelete(was, userID);
        var n := HLength(was);
        if n == 0 {
          active := active - {was};
          members := members - {was};
          pendingEmpty := pendingEmpty + {was};
        }
      }
      var m := if roomID in members then members[roomID] else map[];
      members := members[roomID := m[userID := username]];
      userRoom := userRoom[userID := roomID];
      active := active + {roomID};
      pendingEmpty := pendingEmpty - {roomID};
    }

    method RemoveMember(roomID: RoomId, userID: UserId)
      modifies this
      ensures Value() == old(Remove(Value(), roomID, userID))
    {
      HDelete(roomID, userID);
      userRoom := userRoom - {userID};
      var n := HLength(roomID);
      if n == 0 {
        active := active - {roomID};
        members := members - {roomID};
        pendingEmpty := pendingEmpty + {roomID};
      }
    }

    method DeleteRoomPresence(roomID: RoomId)
      modifies this
      ensures Value() == old(DeleteRoom(Value(), roomID))
    {
      var seen := if roomID in members then members[roomID].Keys else {};
      var left := seen;
      ghost var done: set<UserId> := {};
      while left != {}
        invariant left + done == seen
        invariant Value() == old(Value()).(userRoom := old(userRoom) - done)
        decreases left
      {
        var uid :| uid in left;
        userRoom := userRoom - {uid};
        left, done := left - {uid}, done + {uid};
      }
      assert done == seen;
      members := members - {roomID};
      active := active - {roomID};
      pendingEmpty := pendingEmpty - {roomID};
    }
  }

  // ---------------------------------------------------------------- one caller at a time

  /** Redis keeps no empty hash. */
  ghost predicate NoEmptyHash(p: Presence) {
    forall r :: r in p.members ==> p.members[r] != map[]
  }

  /** What every sequence of undisturbed operations keeps, even one with misdirected leaves. */
  ghost predicate Sound(p: Presence) {
    && NoEmptyHash(p)
    && p.active == p.members.Keys
    && p.pendingEmpty !! p.members.Keys
    && (forall u :: u in p.userRoom ==> In(p, u, p.userRoom[u]))
  }

  lemma HDelIn(p: Presence, r: RoomId, u: UserId)
    requires NoEmptyHash(p)
    ensures var p' := HDel(p, r, u);
      && NoEmptyHash(p') && p' == p.(members := p'.members)
      && (forall v, q :: In(p', v, q) <==> In(p, v, q) && !(v == u && q == r))
      && p'.members.Keys <= p.members.Keys <= p'.members.Keys + {r}
  {
    var p' := HDel(p, r, u);
    var m := Members(p, r) - {u};
    forall v, q ensures In(p', v, q) <==> In(p, v, q) && !(v == u && q == r) {
      if q == r && v != u && In(p, v, r) { assert v in m; }
    }
  }

  /** Undisturbed, "HLEN is 0" means the hash is gone already, and the sweep only fixes the sets. */
  lemma SweepShape(p: Presence, r: RoomId)
    requires NoEmptyHash(p)
    ensures SweepIfEmpty(p, r)
         == if r in p.members then p else p.(active := p.active - {r}, pendingEmpty := p.pendingEmpty + {r})
  {
    if r in p.members {
      assert |p.members[r]| != 0;
    } else {
      assert p.members - {r} == p.members;
    }
  }

  lemma ScriptLeavesSpec(p: Presence, was: RoomId, u: UserId)
    requires NoEmptyHash(p)
    ensures var p2 := ScriptLeaves(p, was, u);
      && NoEmptyHash(p2) && p2.userRoom == p.userRoom && p2.members.Keys <= p.members.Keys
      && p2.active == (if was in p2.members then p.active else p.active - {was})
      && p2.pendingEmpty == (if was in p2.members then p.pendingEmpty else p.pendingEmpty + {was})
      && (forall v, q :: In(p2, v, q) <==> In(p, v, q) && !(v == u && q == was))
  {
    HDelIn(p, was, u);
    SweepShape(HDel(p, was, u), was);
    assert forall v, q :: In(ScriptLeaves(p, was, u), v, q) <==> In(HDel(p, was, u), v, q);
  }

  /** Leaving, from the point where the field is gone. */
  lemma SweepSound(p: Presence, p1: Presence, r: RoomId)
    requires NoEmptyHash(p1) && p.active == p.members.Keys && p.pendingEmpty !! p.members.Keys
    requires p1.active == p.active && p1.pendingEmpty == p.pendingEmpty
    requires p1.members.Keys <= p.members.Keys <= p1.members.Keys + {r}
    ensures var p2 := SweepIfEmpty(p1, r);
      && p2.members == p1.members && p2.userRoom == p1.userRoom
      && p2.active == p2.members.Keys && p2.pendingEmpty !! p2.members.Keys
  {
    SweepShape(p1, r);
    if r in p1.members {
      assert p.members.Keys == p1.members.Keys;
    } else {
      assert p.members.Keys - {r} == p1.members.Keys;
    }
  }

  lemma ScriptEntersSound(p: Presence, r: RoomId, u: UserId, name: string)
    requires NoEmptyHash(p) && p.active == p.members.Keys && p.pendingEmpty !! p.members.Keys
    requires forall v :: v in p.userRoom && v != u ==> In(p, v, p.userRoom[v])
    ensures Sound(ScriptEnters(p, r, u, name))
  {
    var p' := ScriptEnters(p, r, u, name);
    assert u in p'.members[r];
    forall v | v in p'.userRoom ensures In(p', v, p'.userRoom[v]) {
      if v != u { assert In(p, v, p.userRoom[v]); }
    }
  }

  lemma JoinSound(p: Presence, r: RoomId, u: UserId, name: string)
    requires Sound(p)
    ensures Sound(JoinScript(p, r, u, name))
  {
    if Moves(p, r, u) {
      var was := p.userRoom[u];
      HDelIn(p, was, u);
      SweepSound(p, HDel(p, was, u), was);
      var p2 := ScriptLeaves(p, was, u);
      forall v | v in p2.userRoom && v != u ensures In(p2, v, p2.userRoom[v]) {
        assert In(HDel(p, was, u), v, p.userRoom[v]);
      }
      ScriptEntersSound(p2, r, u, name);
    } else {
      ScriptEntersSound(p, r, u, name);
    }
  }

  lemma RemoveSound(p: Presence, r: RoomId, u: UserId)
    requires Sound(p)
    ensures Sound(Remove(p, r, u))
  {
    HDelIn(p, r, u);
    var p1 := RemoveTx(p, r, u);
    SweepSound(p, p1, r);
    var p2 := Remove(p, r, u);
    forall v | v in p2.userRoom ensures In(p2, v, p2.userRoom[v]) {
      assert In(HDel(p, r, u), v, p.userRoom[v]);
    }
  }

  lemma DeleteSound(p: Presence, r: RoomId)
    requires Sound(p)
    ensures Sound(DeleteRoom(p, r))
  {
    forall u | u in DeleteRoom(p, r).userRoom ensures p.userRoom[u] != r {
      assert In(p, u, p.userRoom[u]);
    }
  }
}
