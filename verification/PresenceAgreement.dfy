/**
 Do the two presence implementations agree? With one caller at a time: always, except
 that Redis obeys a leave or kick that names a room the user is not in.
 */
module PresenceAgreement {
  import opened Common
  import opened P = Presence
  import Mem = PresenceMemory
  import Red = PresenceRedis

  /** Equal but for the set of rooms waiting for cleanup. */
  predicate SameView(m: Presence, p: Presence) {
    m.members == p.members && m.userRoom == p.userRoom && m.active == p.active
  }

  /** The leave or kick names the user's own room, or a user who is nowhere. */
  predicate WellDirected(p: Presence, op: Mem.Op) {
    op.OpLeave? ==> op.u !in p.userRoom || p.userRoom[op.u] == op.r
  }

  function RedisDo(p: Presence, op: Mem.Op): Presence {
    match op
    case OpJoin(r, u, name) => Red.JoinScript(p, r, u, name)
    case OpLeave(r, u) => Red.Remove(p, r, u)
    case OpDelete(r) => Red.DeleteRoom(p, r)
    case OpClear(r) => p.(pendingEmpty := p.pendingEmpty - {r})
  }

  function RedisRun(p: Presence, ops: seq<Mem.Op>): Presence
    decreases |ops|
  {
    if ops == [] then p else RedisRun(RedisDo(p, ops[0]), ops[1..])
  }

  /** Taking u out of the room it is in. */
  lemma LeaveOwnAgrees(m: Presence, p: Presence, r: RoomId, u: UserId)
    requires Valid(m) && SameView(m, p) && In(m, u, r)
    ensures var p1 := Red.SweepIfEmpty(Red.HDel(p, r, u), r);
      && Mem.Remove(m, r, u).members == p1.members && Mem.Remove(m, r, u).active == p1.active
      && Mem.Remove(m, r, u).userRoom == m.userRoom - {u}
  {
    Red.HDelIn(p, r, u);
    Red.SweepShape(Red.HDel(p, r, u), r);
  }

  lemma EnteringAgrees(m: Presence, p: Presence, r: RoomId, u: UserId, name: string)
    requires SameView(m, p)
    ensures SameView(Mem.Enter(m, r, u, name), Red.ScriptEnters(p, r, u, name))
  {
  }

  lemma JoinAgrees(m: Presence, p: Presence, r: RoomId, u: UserId, name: string)
    requires Valid(m) && SameView(m, p)
    ensures SameView(Mem.Join(m, r, u, name), Red.JoinScript(p, r, u, name))
  {
    if Moves(m, r, u) {
      var was := m.userRoom[u];
      assert In(m, u, was);
      LeaveOwnAgrees(m, p, was, u);
      var m1, p1 := Mem.Remove(m, was, u), Red.ScriptLeaves(p, was, u);
      EnteringAgrees(m1.(userRoom := m.userRoom), p1, r, u, name);
      assert m1.userRoom[u := r] == m.userRoom[u := r];
    } else {
      EnteringAgrees(m, p, r, u, name);
    }
  }

  lemma DeleteAgrees(m: Presence, p: Presence, r: RoomId)
    requires Valid(m) && SameView(m, p)
    ensures SameView(Mem.DeleteRoom(m, r), Red.DeleteRoom(p, r))
  {
    if r in m.members {
      forall u | u in m.members[r] ensures u in m.userRoom && m.userRoom[u] == r { assert In(m, u, r); }
    } else {
      assert p.members - {r} == p.members && p.userRoom - {} == p.userRoom && p.active - {r} == p.active;
    }
  }

  lemma NothingToDelete(p: Presence, r: RoomId, u: UserId)
    requires Red.NoEmptyHash(p) && !In(p, u, r)
    ensures Red.HDel(p, r, u).members == p.members
  {
    if r in p.members {
      assert p.members[r] - {u} == p.members[r];
    } else {
      assert p.members - {r} == p.members;
    }
  }

  lemma MemoryIgnoresStrangers(m: Presence, r: RoomId, u: UserId)
    requires Valid(m) && !In(m, u, r)
    ensures Mem.Remove(m, r, u) == m
  {
    if r in m.members { assert m.members[r] - {u} == m.members[r]; }
  }

  /** Leaving a room one is not in: Redis forgets where the user is, and nothing else. */
  lemma RedisForgetsStrangers(p: Presence, r: RoomId, u: UserId)
    requires Red.NoEmptyHash(p) && p.active == p.members.Keys && !In(p, u, r)
    ensures var p' := Red.Remove(p, r, u);
      p'.members == p.members && p'.active == p.active && p'.userRoom == p.userRoom - {u}
  {
    NothingToDelete(p, r, u);
    Red.SweepShape(Red.RemoveTx(p, r, u), r);
    assert r !in p.members ==> p.active - {r} == p.active;
  }

  lemma ForgettingShows(m: Presence, p: Presence, u: UserId)
    requires SameView(m.(userRoom := m.userRoom - {u}), p)
    ensures SameView(m, p) <==> u !in m.userRoom
  {
    if u !in m.userRoom { assert m.userRoom - {u} == m.userRoom; }
  }

  /** A leave keeps the two in step exactly when it is well directed. */
  lemma LeaveAgreesIffWellDirected(m: Presence, p: Presence, r: RoomId, u: UserId)
    requires Valid(m) && SameView(m, p)
    ensures SameView(Mem.Remove(m, r, u), Red.Remove(p, r, u)) <==> WellDirected(m, Mem.OpLeave(r, u))
  {
    if In(m, u, r) {
      LeaveOwnTxAgrees(m, p, r, u);
    } else {
      MemoryIgnoresStrangers(m, r, u);
      RedisForgetsStrangers(p, r, u);
      ForgettingShows(m, Red.Remove(p, r, u), u);
    }
  }

  lemma LeaveOwnTxAgrees(m: Presence, p: Presence, r: RoomId, u: UserId)
    requires Valid(m) && SameView(m, p) && In(m, u, r)
    ensures SameView(Mem.Remove(m, r, u), Red.Remove(p, r, u))
  {
    LeaveOwnAgrees(m, p, r, u);
    Red.HDelIn(p, r, u);
    Red.SweepShape(Red.HDel(p, r, u), r);
    Red.SweepShape(Red.RemoveTx(p, r, u), r);
  }

  ghost predicate AllWellDirected(m: Presence, ops: seq<Mem.Op>)
    decreases |ops|
  {
    ops == [] || (WellDirected(m, ops[0]) && AllWellDirected(Mem.Do(m, ops[0]), ops[1..]))
  }

  lemma StepAgrees(m: Presence, p: Presence, op: Mem.Op)
    requires Valid(m) && SameView(m, p) && WellDirected(m, op)
    ensures SameView(Mem.Do(m, op), RedisDo(p, op))
  {
    match op
    case OpJoin(r, u, name) => JoinAgrees(m, p, r, u, name);
    case OpLeave(r, u) => LeaveAgreesIffWellDirected(m, p, r, u);
    case OpDelete(r) => DeleteAgrees(m, p, r);
    case OpClear(_) =>
  }

  /** In every run of well-directed operations the two stay in step. */
  lemma {:induction false} RunsAgree(m: Presence, p: Presence, ops: seq<Mem.Op>)
    requires Valid(m) && SameView(m, p) && AllWellDirected(m, ops)
    ensures SameView(Mem.Run(m, ops), RedisRun(p, ops))
    decreases |ops|
  {
    if ops != [] {
      StepAgrees(m, p, ops[0]);
      Mem.DoSpec(m, ops[0]);
      RunsAgree(Mem.Do(m, ops[0]), RedisDo(p, ops[0]), ops[1..]);
    }
  }

  // ---------------------------------------------------------------- the rooms waiting for cleanup

  /**
   A leave or kick names a room somebody is in, or one already waiting; a delete names a room
   somebody is in, or one that is not waiting.
   */
  predicate FlagsMatch(p: Presence, op: Mem.Op) {
    match op
    case OpLeave(r, _) => Occupied(p, r) || r in p.pendingEmpty
    case OpDelete(r) => Occupied(p, r) || r !in p.pendingEmpty
    case _ => true
  }

  /** Leaving a room somebody is in flags it exactly when nobody is left, in both forms. */
  lemma OwnFlags(p: Presence, p1: Presence, r: RoomId, u: UserId)
    requires Red.NoEmptyHash(p) && r in p.members
    requires p1.members == Red.HDel(p, r, u).members && p1.pendingEmpty == p.pendingEmpty
    ensures Mem.Remove(p, r, u).pendingEmpty == Red.SweepIfEmpty(p1, r).pendingEmpty
  {
    Red.HDelIn(p, r, u);
    Red.SweepShape(p1, r);
    assert r in p1.members <==> p.members[r] - {u} != map[];
  }

  lemma JoinFlags(p: Presence, r: RoomId, u: UserId, name: string)
    requires Valid(p)
    ensures Mem.Join(p, r, u, name).pendingEmpty == Red.JoinScript(p, r, u, name).pendingEmpty
  {
    if Moves(p, r, u) {
      assert In(p, u, p.userRoom[u]);
      hide Valid, Mem.Remove, Red.HDel, Red.SweepIfEmpty;
      OwnFlags(p, Red.HDel(p, p.userRoom[u], u), p.userRoom[u], u);
    }
  }

  lemma NobodyThere(p: Presence, r: RoomId, u: UserId)
    requires Red.NoEmptyHash(p) && r !in p.members
    ensures Mem.Remove(p, r, u) == p && Red.Remove(p, r, u).pendingEmpty == p.pendingEmpty + {r}
  {
    NothingToDelete(p, r, u);
    var p1 := Red.RemoveTx(p, r, u);
    assert p1.members == p.members && p1.pendingEmpty == p.pendingEmpty;
    hide Red.RemoveTx, Red.HDel;
    Red.SweepShape(p1, r);
  }

  lemma LeaveFlags(p: Presence, r: RoomId, u: UserId)
    requires Valid(p)
    ensures Mem.Remove(p, r, u).pendingEmpty == Red.Remove(p, r, u).pendingEmpty <==> FlagsMatch(p, Mem.OpLeave(r, u))
  {
    assert Red.NoEmptyHash(p);
    hide Valid, Mem.Remove, Red.HDel, Red.SweepIfEmpty, Red.NoEmptyHash;
    if r in p.members {
      OwnFlags(p, Red.RemoveTx(p, r, u), r, u);
    } else {
      NobodyThere(p, r, u);
    }
  }

  /** From the same state the two differ in the rooms waiting for cleanup exactly when the operation does not match. */
  lemma FlagsAgreeIffMatch(p: Presence, op: Mem.Op)
    requires Valid(p)
    ensures Mem.Do(p, op).pendingEmpty == RedisDo(p, op).pendingEmpty <==> FlagsMatch(p, op)
  {
    match op
    case OpJoin(r, u, name) => JoinFlags(p, r, u, name);
    case OpLeave(r, u) => LeaveFlags(p, r, u);
    case OpDelete(_) =>
    case OpClear(_) =>
  }

  /** So an operation does the very same in both forms exactly when it is well directed and matches. */
  lemma StepSameIff(p: Presence, op: Mem.Op)
    requires Valid(p)
    ensures Mem.Do(p, op) == RedisDo(p, op) <==> WellDirected(p, op) && FlagsMatch(p, op)
  {
    FlagsAgreeIffMatch(p, op);
    if op.OpLeave? { LeaveAgreesIffWellDirected(p, p, op.r, op.u); }
    if WellDirected(p, op) { StepAgrees(p, p, op); }
  }

  ghost predicate EachMatches(p: Presence, ops: seq<Mem.Op>)
    decreases |ops|
  {
    ops == [] || (WellDirected(p, ops[0]) && FlagsMatch(p, ops[0]) && EachMatches(Mem.Do(p, ops[0]), ops[1..]))
  }

  /** And over runs of such operations the two forms are the same, flags and all. */
  lemma {:induction false} RunsSame(p: Presence, ops: seq<Mem.Op>)
    requires Valid(p) && EachMatches(p, ops)
    ensures Mem.Run(p, ops) == RedisRun(p, ops)
    decreases |ops|
  {
    if ops != [] {
      hide Mem.Do, RedisDo, WellDirected, FlagsMatch, Valid;
      StepSameIff(p, ops[0]);
      Mem.DoSpec(p, ops[0]);
      RunsSame(Mem.Do(p, ops[0]), ops[1..]);
    }
  }

  // ---------------------------------------------------------------- misdirected leaves

  /** Whatever the operations, Redis keeps its sets right and finds users where their key says. */
  lemma {:induction false} RedisRunStaysSound(p: Presence, ops: seq<Mem.Op>)
    requires Red.Sound(p)
    ensures Red.Sound(RedisRun(p, ops))
    decreases |ops|
  {
    if ops != [] {
      match ops[0] {
        case OpJoin(r, u, name) => Red.JoinSound(p, r, u, name);
        case OpLeave(r, u) => Red.RemoveSound(p, r, u);
        case OpDelete(r) => Red.DeleteSound(p, r);
        case OpClear(r) => assert forall u, q :: In(RedisDo(p, ops[0]), u, q) <==> In(p, u, q);
      }
      RedisRunStaysSound(RedisDo(p, ops[0]), ops[1..]);
    }
  }

  lemma ThreeSteps(p: Presence, x: Mem.Op, y: Mem.Op, z: Mem.Op)
    ensures RedisRun(p, [x, y, z]) == RedisDo(RedisDo(RedisDo(p, x), y), z)
  {
    assert [x, y, z][1..] == [y, z] && [y, z][1..] == [z] && [z][1..] == [];
    var p1 := RedisDo(p, x);
    var p2 := RedisDo(p1, y);
    assert RedisRun(p, [x, y, z]) == RedisRun(p1, [y, z]) == RedisRun(p2, [z]);
    assert RedisRun(p2, [z]) == RedisDo(p2, z);
  }

  /** But a misdirected leave lets one user be a member of two rooms at once. */
  lemma MisdirectedLeavePutsUserInTwoRooms(a: RoomId, b: RoomId, c: RoomId, u: UserId, name: string)
    requires a != b && b != c && a != c
    ensures var p := RedisRun(EMPTY, [Mem.OpJoin(a, u, name), Mem.OpLeave(b, u), Mem.OpJoin(c, u, name)]);
      In(p, u, a) && In(p, u, c)
  {
    ThreeSteps(EMPTY, Mem.OpJoin(a, u, name), Mem.OpLeave(b, u), Mem.OpJoin(c, u, name));
    FirstJoin(a, u, name);
    LeavesWrongRoomThenJoins(RedisDo(EMPTY, Mem.OpJoin(a, u, name)), a, b, c, u, name);
  }

  lemma FirstJoin(a: RoomId, u: UserId, name: string)
    ensures RedisDo(EMPTY, Mem.OpJoin(a, u, name)) == Presence(map[a := map[u := name]], map[u := a], {a}, {})
  {
  }

  lemma LeavesWrongRoomThenJoins(p: Presence, a: RoomId, b: RoomId, c: RoomId, u: UserId, name: string)
    requires p == Presence(map[a := map[u := name]], map[u := a], {a}, {}) && a != b && a != c
    ensures var p' := RedisDo(RedisDo(p, Mem.OpLeave(b, u)), Mem.OpJoin(c, u, name));
      In(p', u, a) && In(p', u, c)
  {
    assert u in p.members[a];
    RedisForgetsStrangers(p, b, u);
    JoinsFromNowhere(RedisDo(p, Mem.OpLeave(b, u)), a, c, u, name);
  }

  /** A join by a user whose key is gone leaves their old membership in place. */
  lemma JoinsFromNowhere(p: Presence, a: RoomId, c: RoomId, u: UserId, name: string)
    requires u !in p.userRoom && In(p, u, a) && a != c
    ensures In(Red.JoinScript(p, c, u, name), u, a) && In(Red.JoinScript(p, c, u, name), u, c)
  {
  }
}
