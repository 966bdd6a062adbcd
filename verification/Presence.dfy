/**
 Room presence as a value: who is in which room, the reverse index, and the two derived
 sets. The in-memory and the Redis implementation both hold exactly these structures.
 */
module Presence {
  import opened Common

  datatype Presence = Presence(
    members: map<RoomId, map<UserId, string>>,
    userRoom: map<UserId, RoomId>,
    active: set<RoomId>,
    pendingEmpty: set<RoomId>)

  const EMPTY := Presence(map[], map[], {}, {})

  /** The members of a room; a missing key is an empty room. */
  function Members(p: Presence, r: RoomId): map<UserId, string> {
    if r in p.members then p.members[r] else map[]
  }

  predicate Occupied(p: Presence, r: RoomId) {
    r in p.members
  }

  predicate In(p: Presence, u: UserId, r: RoomId) {
    r in p.members && u in p.members[r]
  }

  /** Joining r takes u away from another room. */
  predicate Moves(p: Presence, r: RoomId, u: UserId) {
    u in p.userRoom && p.userRoom[u] != r
  }

  /** Both indexes agree, rooms without members have no key, and the derived sets are right. */
  ghost predicate Valid(p: Presence) {
    && (forall u, r :: In(p, u, r) <==> u in p.userRoom && p.userRoom[u] == r)
    && (forall r :: r in p.members ==> p.members[r] != map[])
    && p.active == p.members.Keys
    && p.pendingEmpty !! p.members.Keys
  }

  /** What presence is about: each user's current room and the name shown there. */
  function Whereabouts(p: Presence): map<UserId, (RoomId, string)>
    requires Valid(p)
  {
    assert forall u :: u in p.userRoom ==> In(p, u, p.userRoom[u]);
    map u | u in p.userRoom :: (p.userRoom[u], p.members[p.userRoom[u]][u])
  }

  /** The sum of the member counts of a set of rooms. */
  ghost function MemberTotal(p: Presence, rooms: set<RoomId>): nat
    decreases rooms
  {
    if rooms == {} then 0
    else
      var r :| r in rooms;
      |Members(p, r)| + MemberTotal(p, rooms - {r})
  }

  ghost function UsersIn(p: Presence, rooms: set<RoomId>): set<UserId> {
    set r, u | r in rooms && r in p.members && u in p.members[r] :: u
  }

  /** A room's members are nobody else's. */
  lemma RoomApart(p: Presence, rooms: set<RoomId>, r: RoomId)
    requires Valid(p) && r in rooms
    ensures UsersIn(p, rooms) == Members(p, r).Keys + UsersIn(p, rooms - {r})
    ensures Members(p, r).Keys !! UsersIn(p, rooms - {r})
  {
    var here, others := Members(p, r).Keys, UsersIn(p, rooms - {r});
    forall u | u in UsersIn(p, rooms) ensures u in here + others {
      var q :| q in rooms && q in p.members && u in p.members[q];
      assert q != r ==> q in rooms - {r};
    }
    forall u | u in others ensures u !in here {
      var q :| q in rooms - {r} && q in p.members && u in p.members[q];
      assert In(p, u, q);
      assert u in here ==> In(p, u, r);
    }
  }

  lemma {:induction false} MemberTotalCountsUsers(p: Presence, rooms: set<RoomId>)
    requires Valid(p)
    ensures MemberTotal(p, rooms) == |UsersIn(p, rooms)|
    decreases rooms
  {
    if rooms != {} {
      var r :| r in rooms && MemberTotal(p, rooms) == |Members(p, r)| + MemberTotal(p, rooms - {r});
      MemberTotalCountsUsers(p, rooms - {r});
      RoomApart(p, rooms, r);
      var here, others := Members(p, r).Keys, UsersIn(p, rooms - {r});
      assert |here + others| == |here| + |others|;
      assert |here| == |Members(p, r)|;
    }
  }

  /** Every present user is counted in exactly one room. */
  lemma CountsAddUp(p: Presence)
    requires Valid(p)
    ensures MemberTotal(p, p.members.Keys) == |p.userRoom|
  {
    MemberTotalCountsUsers(p, p.members.Keys);
    assert UsersIn(p, p.members.Keys) == p.userRoom.Keys by {
      forall u | u in p.userRoom ensures u in UsersIn(p, p.members.Keys) { assert In(p, u, p.userRoom[u]); }
      forall u | u in UsersIn(p, p.members.Keys) ensures u in p.userRoom {
        var r :| r in p.members && u in p.members[r];
        assert In(p, u, r);
      }
    }
    assert |p.userRoom.Keys| == |p.userRoom|;
  }
}
