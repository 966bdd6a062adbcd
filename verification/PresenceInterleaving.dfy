/**
 The Redis presence under concurrency. A join script and a transaction are atomic; between
 the commands of one removeMember or DeleteRoomPresence any number of others may run.
 */
module PresenceInterleaving {
  import opened Common
  import opened P = Presence
  import Red = PresenceRedis

  /** Where a removeMember of room r stands: about to HLEN, SREM active, DEL the hash, SADD pending. */
  datatype Leaver = Counting(r: RoomId) | Unlisting(r: RoomId) | Dropping(r: RoomId) | Flagging(r: RoomId)

  /** A DeleteRoomPresence that has read the members. */
  datatype Deleter = Deleter(r: RoomId, seen: set<UserId>)

  datatype State = State(keys: Presence, leavers: map<nat, Leaver>, deleters: map<nat, Deleter>)

  const INIT := State(EMPTY, map[], map[])

  datatype Step =
    | JoinRoom(r: RoomId, u: UserId, name: string)
    | LeaveTx(p: nat, r: RoomId, u: UserId)
    | Count(p: nat)
    | Unlist(p: nat)
    | Drop(p: nat)
    | Flag(p: nat)
    | DeleteRead(d: nat, r: RoomId)
    | DeleteWrite(d: nat)
    | ClearPending(r: RoomId)

  predicate Enabled(s: State, step: Step) {
    match step
    case JoinRoom(_, _, _) => true
    case LeaveTx(p, _, _) => p !in s.leavers
    case Count(p) => p in s.leavers && s.leavers[p].Counting?
    case Unlist(p) => p in s.leavers && s.leavers[p].Unlisting?
    case Drop(p) => p in s.leavers && s.leavers[p].Dropping?
    case Flag(p) => p in s.leavers && s.leavers[p].Flagging?
    case DeleteRead(d, _) => d !in s.deleters
    case DeleteWrite(d) => d in s.deleters
    case ClearPending(_) => true
  }

  function Execute(s: State, step: Step): State
    requires Enabled(s, step)
  {
    match step
    case JoinRoom(r, u, name) => s.(keys := Red.JoinScript(s.keys, r, u, name))
    case LeaveTx(p, r, u) => s.(keys := Red.RemoveTx(s.keys, r, u), leavers := s.leavers[p := Counting(r)])
    case Count(p) =>
      var r := s.leavers[p].r;
      s.(leavers := if Red.HLen(s.keys, r) == 0 then s.leavers[p := Unlisting(r)] else s.leavers - {p})
    case Unlist(p) =>
      var r := s.leavers[p].r;
      s.(keys := s.keys.(active := s.keys.active - {r}), leavers := s.leavers[p := Dropping(r)])
    case Drop(p) =>
      var r := s.leavers[p].r;
      s.(keys := s.keys.(members := s.keys.members - {r}), leavers := s.leavers[p := Flagging(r)])
    case Flag(p) =>
      var r := s.leavers[p].r;
      s.(keys := s.keys.(pendingEmpty := s.keys.pendingEmpty + {r}), leavers := s.leavers - {p})
    case DeleteRead(d, r) =>
      s.(deleters := s.deleters[d := Deleter(r, Members(s.keys, r).Keys)])
    case DeleteWrite(d) =>
      s.(keys := Red.DeleteTx(s.keys, s.deleters[d].r, s.deleters[d].seen), deleters := s.deleters - {d})
    case ClearPending(r) =>
      s.(keys := s.keys.(pendingEmpty := s.keys.pendingEmpty - {r}))
  }

  ghost predicate Legal(s: State, steps: seq<Step>)
    decreases |steps|
  {
    steps == [] || (Enabled(s, steps[0]) && Legal(Execute(s, steps[0]), steps[1..]))
  }

  ghost function Run(s: State, steps: seq<Step>): State
    requires Legal(s, steps)
    decreases |steps|
  {
    if steps == [] then s else Run(Execute(s, steps[0]), steps[1..])
  }

  /** The command leaver p is about to issue. */
  function NextOfLeaver(s: State, p: nat): Step
    requires p in s.leavers
  {
    match s.leavers[p]
    case Counting(_) => Count(p)
    case Unlisting(_) => Unlist(p)
    case Dropping(_) => Drop(p)
    case Flagging(_) => Flag(p)
  }

  /** Leaver p goes on by itself until it is done, for at most n commands. */
  function LeavesOn(s: State, p: nat, n: nat): State
    decreases n
  {
    if n == 0 || p !in s.leavers then s else LeavesOn(Execute(s, NextOfLeaver(s, p)), p, n - 1)
  }

  lemma LeavesOneMore(s: State, p: nat, n: nat, s': State)
    requires n > 0 && p in s.leavers && s' == Execute(s, NextOfLeaver(s, p))
    ensures LeavesOn(s, p, n) == LeavesOn(s', p, n - 1)
  {
  }

  lemma SweepsAlone(s: State, p: nat, r: RoomId)
    requires p in s.leavers && s.leavers[p] == Unlisting(r)
    ensures var k := s.keys;
      LeavesOn(s, p, 3) == State(
        k.(members := k.members - {r}, active := k.active - {r}, pendingEmpty := k.pendingEmpty + {r}),
        s.leavers - {p}, s.deleters)
  {
    hide LeavesOn;
    var k := s.keys.(active := s.keys.active - {r});
    var s1 := State(k, s.leavers[p := Dropping(r)], s.deleters);
    LeavesOneMore(s, p, 3, s1);
    var s2 := State(k.(members := k.members - {r}), s1.leavers[p := Flagging(r)], s.deleters);
    LeavesOneMore(s1, p, 2, s2);
    var s3 := State(s2.keys.(pendingEmpty := k.pendingEmpty + {r}), s2.leavers - {p}, s.deleters);
    LeavesOneMore(s2, p, 1, s3);
    assert s3.leavers == s.leavers - {p};
    LeaverGone(s3, p, 0);
  }

  lemma LeaverGone(s: State, p: nat, n: nat)
    requires p !in s.leavers
    ensures LeavesOn(s, p, n) == s
  {
  }

  lemma CountsAlone(s: State, p: nat, r: RoomId)
    requires p in s.leavers && s.leavers[p] == Counting(r)
    ensures LeavesOn(s, p, 4) == State(Red.SweepIfEmpty(s.keys, r), s.leavers - {p}, s.deleters)
  {
    hide LeavesOn;
    if Red.HLen(s.keys, r) != 0 {
      var s1 := s.(leavers := s.leavers - {p});
      LeavesOneMore(s, p, 4, s1);
      LeaverGone(s1, p, 3);
    } else {
      var s1 := s.(leavers := s.leavers[p := Unlisting(r)]);
      LeavesOneMore(s, p, 4, s1);
      SweepsAlone(s1, p, r);
      assert s1.leavers - {p} == s.leavers - {p};
    }
  }

  /** With nobody in between, the commands of a leave are the leave. */
  lemma LeaveAlone(s: State, p: nat, r: RoomId, u: UserId)
    requires p !in s.leavers
    ensures LeavesOn(Execute(s, LeaveTx(p, r, u)), p, 4) == s.(keys := Red.Remove(s.keys, r, u))
  {
    var s1 := Execute(s, LeaveTx(p, r, u));
    assert s1 == State(Red.RemoveTx(s.keys, r, u), s.leavers[p := Counting(r)], s.deleters);
    hide LeavesOn, Red.RemoveTx, Red.SweepIfEmpty, Execute;
    CountsAlone(s1, p, r);
    assert s1.leavers - {p} == s.leavers;
  }

  /** And the two parts of a delete are the delete. */
  lemma DeleteAlone(s: State, d: nat, r: RoomId)
    requires d !in s.deleters
    ensures Execute(Execute(s, DeleteRead(d, r)), DeleteWrite(d)) == s.(keys := Red.DeleteRoom(s.keys, r))
  {
    assert s.deleters[d := Deleter(r, Members(s.keys, r).Keys)] - {d} == s.deleters;
  }

  // ---------------------------------------------------------------- the active set covers occupied rooms

  /** Some removeMember of r has taken it off the active set and not yet dropped its hash. */
  ghost predicate BeingDropped(s: State, r: RoomId) {
    exists p :: p in s.leavers && s.leavers[p] == Dropping(r)
  }

  ghost predicate ActiveInv(s: State) {
    && Red.NoEmptyHash(s.keys)
    && forall r :: r in s.keys.members && r !in s.keys.active ==> BeingDropped(s, r)
  }

  lemma EnterKeepsActive(p: Presence, r: RoomId, u: UserId, name: string)
    requires Red.NoEmptyHash(p)
    ensures var p' := Red.ScriptEnters(p, r, u, name);
      && Red.NoEmptyHash(p')
      && (forall q :: q in p'.members && q !in p'.active ==> q in p.members && q !in p.active)
  {
    assert u in Red.ScriptEnters(p, r, u, name).members[r];
  }

  lemma JoinKeepsActive(p: Presence, r: RoomId, u: UserId, name: string)
    requires Red.NoEmptyHash(p)
    ensures var p' := Red.JoinScript(p, r, u, name);
      && Red.NoEmptyHash(p')
      && (forall q :: q in p'.members && q !in p'.active ==> q in p.members && q !in p.active)
  {
    if Moves(p, r, u) {
      Red.ScriptLeavesSpec(p, p.userRoom[u], u);
      EnterKeepsActive(Red.ScriptLeaves(p, p.userRoom[u], u), r, u, name);
    } else {
      EnterKeepsActive(p, r, u, name);
    }
  }

  lemma StepKeepsActive(s: State, s': State, step: Step)
    requires ActiveInv(s) && Enabled(s, step) && s' == Execute(s, step)
    ensures ActiveInv(s')
  {
    if step.JoinRoom? { JoinKeepsActive(s.keys, step.r, step.u, step.name); }
    if step.LeaveTx? { Red.HDelIn(s.keys, step.r, step.u); }
    forall r | r in s'.keys.members && r !in s'.keys.active ensures BeingDropped(s', r) {
      if r !in s.keys.active {
        assert r in s.keys.members;
        var p :| p in s.leavers && s.leavers[p] == Dropping(r);
        assert p in s'.leavers && s'.leavers[p] == Dropping(r);
      } else {
        assert step.Unlist? && s'.leavers[step.p] == Dropping(r);
      }
    }
  }

  lemma {:induction false} RunKeepsActive(s: State, steps: seq<Step>)
    requires ActiveInv(s) && Legal(s, steps)
    ensures ActiveInv(Run(s, steps))
    decreases |steps|
  {
    if steps != [] {
      StepKeepsActive(s, Execute(s, steps[0]), steps[0]);
      RunKeepsActive(Execute(s, steps[0]), steps[1..]);
    }
  }

  /**
   After any interleaving an occupied room is listed as active, unless a removeMember of
   it stands between its SREM and its DEL; at rest the list covers every occupied room.
   */
  lemma ActiveCoversOccupied(steps: seq<Step>)
    requires Legal(INIT, steps)
    ensures var s := Run(INIT, steps);
      && (forall r :: Occupied(s.keys, r) && r !in s.keys.active ==> BeingDropped(s, r))
      && (s.leavers == map[] ==> forall r :: Occupied(s.keys, r) ==> r in s.keys.active)
  {
    RunKeepsActive(INIT, steps);
  }

  // ---------------------------------------------------------------- one room per user

  /** A member of a room is one whose key names that room; so nobody is in two. */
  ghost predicate OneRoomEach(p: Presence) {
    forall u, r :: In(p, u, r) ==> u in p.userRoom && p.userRoom[u] == r
  }

  /** The step forgets the room of no user who is still a member of another one. */
  ghost predicate Disciplined(s: State, step: Step)
    requires Enabled(s, step)
  {
    match step
    case LeaveTx(_, r, u) => forall q :: In(s.keys, u, q) ==> q == r
    case DeleteWrite(d) => forall u, q :: u in s.deleters[d].seen && In(s.keys, u, q) ==> q == s.deleters[d].r
    case _ => true
  }

  /**
   A leave names the room the user's key names, or the user has no key; a delete finds the users
   it has read still in its room, or without a key.
   */
  ghost predicate OwnRoom(s: State, step: Step)
    requires Enabled(s, step)
  {
    match step
    case LeaveTx(_, r, u) => u in s.keys.userRoom ==> s.keys.userRoom[u] == r
    case DeleteWrite(d) =>
      forall u :: u in s.deleters[d].seen && u in s.keys.userRoom ==> s.keys.userRoom[u] == s.deleters[d].r
    case _ => true
  }

  lemma OwnRoomIsDisciplined(s: State, step: Step)
    requires OneRoomEach(s.keys) && Enabled(s, step) && OwnRoom(s, step)
    ensures Disciplined(s, step)
  {
  }

  lemma JoinKeepsOneRoom(p: Presence, r: RoomId, u: UserId, name: string)
    requires OneRoomEach(p) && Red.NoEmptyHash(p)
    ensures OneRoomEach(Red.JoinScript(p, r, u, name))
  {
    if Moves(p, r, u) {
      var was := p.userRoom[u];
      Red.ScriptLeavesSpec(p, was, u);
      EnterKeepsOneRoom(Red.ScriptLeaves(p, was, u), r, u, name);
    } else {
      EnterKeepsOneRoom(p, r, u, name);
    }
  }

  lemma EnterKeepsOneRoom(p: Presence, r: RoomId, u: UserId, name: string)
    requires forall v, q :: In(p, v, q) ==> (if v == u then q == r else v in p.userRoom && p.userRoom[v] == q)
    ensures OneRoomEach(Red.ScriptEnters(p, r, u, name))
  {
    var p' := Red.ScriptEnters(p, r, u, name);
    forall v, q | In(p', v, q) ensures v in p'.userRoom && p'.userRoom[v] == q {
      assert (v == u && q == r) || In(p, v, q);
    }
  }

  lemma LeaveTxKeepsOneRoomIff(p: Presence, r: RoomId, u: UserId)
    requires OneRoomEach(p) && Red.NoEmptyHash(p)
    ensures OneRoomEach(Red.RemoveTx(p, r, u)) <==> forall q :: In(p, u, q) ==> q == r
  {
    var p' := Red.RemoveTx(p, r, u);
    Red.HDelIn(p, r, u);
    assert forall v, q :: In(p', v, q) <==> In(Red.HDel(p, r, u), v, q);
    if q :| In(p, u, q) && q != r { assert In(p', u, q) && u !in p'.userRoom; }
  }

  lemma DeleteKeepsOneRoomIff(p: Presence, r: RoomId, seen: set<UserId>)
    requires OneRoomEach(p)
    ensures OneRoomEach(Red.DeleteTx(p, r, seen)) <==> forall u, q :: u in seen && In(p, u, q) ==> q == r
  {
    var p' := Red.DeleteTx(p, r, seen);
    assert forall v, q :: In(p', v, q) <==> In(p, v, q) && q != r;
    if u, q :| u in seen && In(p, u, q) && q != r { assert In(p', u, q) && u !in p'.userRoom; }
  }

  /** From a state where everybody is in one room, a step keeps it so exactly when it is disciplined. */
  lemma OneRoomIffDisciplined(s: State, step: Step)
    requires OneRoomEach(s.keys) && Red.NoEmptyHash(s.keys) && Enabled(s, step)
    ensures OneRoomEach(Execute(s, step).keys) <==> Disciplined(s, step)
  {
    match step
    case JoinRoom(r, u, name) => JoinKeepsOneRoom(s.keys, r, u, name);
    case LeaveTx(_, r, u) => LeaveTxKeepsOneRoomIff(s.keys, r, u);
    case DeleteWrite(d) => DeleteKeepsOneRoomIff(s.keys, s.deleters[d].r, s.deleters[d].seen);
    case _ =>
      var p' := Execute(s, step).keys;
      assert forall u, q :: In(p', u, q) ==> In(s.keys, u, q);
  }

  ghost predicate EachOwnRoom(s: State, steps: seq<Step>)
    requires Legal(s, steps)
    decreases |steps|
  {
    steps == [] || (OwnRoom(s, steps[0]) && EachOwnRoom(Execute(s, steps[0]), steps[1..]))
  }

  lemma {:induction false} RunKeepsOneRoom(s: State, steps: seq<Step>)
    requires OneRoomEach(s.keys) && ActiveInv(s) && Legal(s, steps) && EachOwnRoom(s, steps)
    ensures OneRoomEach(Run(s, steps).keys)
    decreases |steps|
  {
    if steps != [] {
      hide Execute, Enabled;
      OwnRoomIsDisciplined(s, steps[0]);
      OneRoomIffDisciplined(s, steps[0]);
      StepKeepsActive(s, Execute(s, steps[0]), steps[0]);
      RunKeepsOneRoom(Execute(s, steps[0]), steps[1..]);
    }
  }

  /** In every interleaving whose leaves name the user's own room and whose deletes are not overlapped, no user is in two rooms. */
  lemma NobodyInTwoRooms(steps: seq<Step>, u: UserId, a: RoomId, b: RoomId)
    requires Legal(INIT, steps) && EachOwnRoom(INIT, steps)
    requires var s := Run(INIT, steps); In(s.keys, u, a) && In(s.keys, u, b)
    ensures a == b
  {
    RunKeepsOneRoom(INIT, steps);
  }

  // ---------------------------------------------------------------- members lost to a leave or a delete

  /** Everybody is a member of the room their key names. */
  ghost predicate Findable(p: Presence) {
    forall u :: u in p.userRoom ==> In(p, u, p.userRoom[u])
  }

  /** A DEL loses nobody exactly when the room was still empty, as the HLEN before it said. */
  lemma DropLosesNobodyIffEmpty(s: State, step: Step)
    requires Findable(s.keys) && OneRoomEach(s.keys) && Red.NoEmptyHash(s.keys)
    requires step.Drop? && Enabled(s, step)
    ensures Findable(Execute(s, step).keys) <==> !Occupied(s.keys, s.leavers[step.p].r)
  {
    var r := s.leavers[step.p].r;
    var p' := Execute(s, step).keys;
    if Occupied(s.keys, r) {
      assert s.keys.members[r].Keys != {};
      var u :| u in s.keys.members[r];
      assert In(s.keys, u, r) && !In(p', u, r);
    } else {
      assert s.keys.members - {r} == s.keys.members;
    }
  }

  /** A delete loses nobody exactly when those in its room and those it has read are the same people. */
  lemma DeleteLosesNobodyIff(s: State, step: Step)
    requires Findable(s.keys) && OneRoomEach(s.keys) && step.DeleteWrite? && Enabled(s, step)
    ensures var (p', dl) := (Execute(s, step).keys, s.deleters[step.d]);
      Findable(p') && OneRoomEach(p')
      <==> (forall u :: In(s.keys, u, dl.r) ==> u in dl.seen) && OwnRoom(s, step)
  {
    var dl, p' := s.deleters[step.d], Execute(s, step).keys;
    assert forall v, q :: In(p', v, q) <==> In(s.keys, v, q) && q != dl.r;
    if Findable(p') && OneRoomEach(p') {
      forall u | In(s.keys, u, dl.r) ensures u in dl.seen {
        assert u in p'.userRoom <==> u in s.keys.userRoom && u !in dl.seen;
      }
      forall u | u in dl.seen && u in s.keys.userRoom ensures s.keys.userRoom[u] == dl.r {
        var q := s.keys.userRoom[u];
        assert In(s.keys, u, q) && (In(p', u, q) <==> q != dl.r);
      }
    }
  }

  /** A leave that has counted the room empty and has not yet dropped its hash. */
  predicate AboutToDrop(l: Leaver, r: RoomId) {
    l == Unlisting(r) || l == Dropping(r)
  }

  /**
   Nobody joins a room between the HLEN and the DEL of a leave of it, or while a delete of it is
   open, unless that delete has read them; and leaves and deletes are as in OwnRoom.
   */
  ghost predicate Undisturbed(s: State, step: Step)
    requires Enabled(s, step)
  {
    && OwnRoom(s, step)
    && (step.JoinRoom? ==>
          && (forall p :: p in s.leavers ==> !AboutToDrop(s.leavers[p], step.r))
          && (forall d :: d in s.deleters && s.deleters[d].r == step.r ==> step.u in s.deleters[d].seen))
  }

  ghost predicate LeaverSafe(s: State, l: Leaver) {
    AboutToDrop(l, l.r) ==> l.r !in s.keys.members
  }

  ghost predicate DeleterSafe(s: State, dl: Deleter) {
    forall u :: In(s.keys, u, dl.r) ==> u in dl.seen
  }

  /** Everybody is in exactly the room their key names, and what is under way will keep it so. */
  ghost predicate Safe(s: State) {
    && Findable(s.keys) && OneRoomEach(s.keys) && Red.NoEmptyHash(s.keys)
    && (forall p :: p in s.leavers ==> LeaverSafe(s, s.leavers[p]))
    && (forall d :: d in s.deleters ==> DeleterSafe(s, s.deleters[d]))
  }

  lemma EnterMembers(p: Presence, r: RoomId, u: UserId, name: string)
    requires Red.NoEmptyHash(p)
    ensures var p' := Red.ScriptEnters(p, r, u, name);
      && Red.NoEmptyHash(p') && p'.userRoom == p.userRoom[u := r]
      && (forall v, q :: In(p', v, q) <==> ((v == u && q == r) || In(p, v, q)))
      && r in p'.members && p'.members.Keys <= p.members.Keys + {r}
  {
    assert u in Red.ScriptEnters(p, r, u, name).members[r];
  }

  predicate Stays(p: Presence, v: UserId, q: RoomId, u: UserId) {
    In(p, v, q) && !(v == u && u in p.userRoom && p.userRoom[u] == q)
  }

  /** Who is where after a join: the newcomer in r, and all others where they were. */
  lemma JoinMembers(p: Presence, r: RoomId, u: UserId, name: string)
    requires Red.NoEmptyHash(p)
    ensures var p' := Red.JoinScript(p, r, u, name);
      && Red.NoEmptyHash(p') && p'.userRoom == p.userRoom[u := r]
      && (forall v, q :: In(p', v, q) <==> ((v == u && q == r) || Stays(p, v, q, u)))
      && r in p'.members && p'.members.Keys <= p.members.Keys + {r}
  {
    hide Red.ScriptLeaves, Red.ScriptEnters, Red.NoEmptyHash, In;
    if Moves(p, r, u) {
      var was := p.userRoom[u];
      Red.ScriptLeavesSpec(p, was, u);
      EnterMembers(Red.ScriptLeaves(p, was, u), r, u, name);
    } else {
      EnterMembers(p, r, u, name);
    }
  }

  lemma JoinSafeIff(s: State, s': State, step: Step)
    requires Safe(s) && step.JoinRoom? && s' == Execute(s, step)
    ensures Safe(s') <==> Undisturbed(s, step)
  {
    JoinMembers(s.keys, step.r, step.u, step.name);
    assert In(s'.keys, step.u, step.r);
    if Undisturbed(s, step) {
      forall v | v in s'.keys.userRoom ensures In(s'.keys, v, s'.keys.userRoom[v]) {
        if v != step.u { assert In(s.keys, v, s.keys.userRoom[v]); }
      }
      forall p | p in s'.leavers ensures LeaverSafe(s', s'.leavers[p]) { assert LeaverSafe(s, s.leavers[p]); }
      forall d | d in s'.deleters ensures DeleterSafe(s', s'.deleters[d]) { assert DeleterSafe(s, s.deleters[d]); }
    } else if p :| p in s.leavers && AboutToDrop(s.leavers[p], step.r) {
      assert !LeaverSafe(s', s'.leavers[p]);
    } else {
      var d :| d in s.deleters && s.deleters[d].r == step.r && step.u !in s.deleters[d].seen;
      assert !DeleterSafe(s', s'.deleters[d]);
    }
  }

  lemma LeaveTxSafeIff(s: State, s': State, step: Step)
    requires Safe(s) && step.LeaveTx? && Enabled(s, step) && s' == Execute(s, step)
    ensures Safe(s') <==> Undisturbed(s, step)
  {
    var r, u := step.r, step.u;
    Red.HDelIn(s.keys, r, u);
    assert forall v, q :: In(s'.keys, v, q) <==> In(Red.HDel(s.keys, r, u), v, q);
    LeaveTxKeepsOneRoomIff(s.keys, r, u);
    if u in s.keys.userRoom { assert In(s.keys, u, s.keys.userRoom[u]); }
    if Undisturbed(s, step) {
      forall v | v in s'.keys.userRoom ensures In(s'.keys, v, s'.keys.userRoom[v]) {
        assert In(s.keys, v, s.keys.userRoom[v]);
      }
      forall p | p in s'.leavers ensures LeaverSafe(s', s'.leavers[p]) {
        assert p != step.p ==> LeaverSafe(s, s.leavers[p]);
      }
      forall d | d in s'.deleters ensures DeleterSafe(s', s'.deleters[d]) { assert DeleterSafe(s, s.deleters[d]); }
    }
  }

  lemma DeleteWriteSafeIff(s: State, s': State, step: Step)
    requires Safe(s) && step.DeleteWrite? && Enabled(s, step) && s' == Execute(s, step)
    ensures Safe(s') <==> Undisturbed(s, step)
  {
    DeleteLosesNobodyIff(s, step);
    assert DeleterSafe(s, s.deleters[step.d]);
    assert forall v, q :: In(s'.keys, v, q) ==> In(s.keys, v, q);
    forall p | p in s'.leavers ensures LeaverSafe(s', s'.leavers[p]) { assert LeaverSafe(s, s.leavers[p]); }
    forall d | d in s'.deleters ensures DeleterSafe(s', s'.deleters[d]) { assert DeleterSafe(s, s.deleters[d]); }
  }

  /** The commands after a leave's transaction, and reading members: safe in every case. */
  lemma OthersStaySafe(s: State, s': State, step: Step)
    requires Safe(s) && !step.JoinRoom? && !step.LeaveTx? && !step.DeleteWrite?
    requires Enabled(s, step) && s' == Execute(s, step)
    ensures Safe(s')
  {
    if step.Drop? {
      assert LeaverSafe(s, s.leavers[step.p]);
      assert s.keys.members - {s.leavers[step.p].r} == s.keys.members;
    }
    assert s'.keys.members == s.keys.members && s'.keys.userRoom == s.keys.userRoom;
    assert forall v, q :: In(s'.keys, v, q) <==> In(s.keys, v, q);
    forall p | p in s'.leavers ensures LeaverSafe(s', s'.leavers[p]) { assert LeaverSafe(s, s.leavers[p]); }
    forall d | d in s'.deleters ensures DeleterSafe(s', s'.deleters[d]) {
      assert d in s.deleters && s'.deleters[d] == s.deleters[d] ==> DeleterSafe(s, s.deleters[d]);
    }
  }

  /** A step keeps everybody where their key says, and able to stay there, exactly when it is undisturbed. */
  lemma SafeIffUndisturbed(s: State, step: Step)
    requires Safe(s) && Enabled(s, step)
    ensures Safe(Execute(s, step)) <==> Undisturbed(s, step)
  {
    hide Safe, Undisturbed, Execute;
    var s' := Execute(s, step);
    if step.JoinRoom? {
      JoinSafeIff(s, s', step);
    } else if step.LeaveTx? {
      LeaveTxSafeIff(s, s', step);
    } else if step.DeleteWrite? {
      DeleteWriteSafeIff(s, s', step);
    } else {
      OthersStaySafe(s, s', step);
      OthersAreUndisturbed(s, step);
    }
  }

  lemma OthersAreUndisturbed(s: State, step: Step)
    requires Enabled(s, step) && !step.JoinRoom? && !step.LeaveTx? && !step.DeleteWrite?
    ensures Undisturbed(s, step)
  {
  }

  ghost predicate EachUndisturbed(s: State, steps: seq<Step>)
    requires Legal(s, steps)
    decreases |steps|
  {
    steps == [] || (Undisturbed(s, steps[0]) && EachUndisturbed(Execute(s, steps[0]), steps[1..]))
  }

  lemma {:induction false} RunStaysSafe(s: State, steps: seq<Step>)
    requires Safe(s) && Legal(s, steps) && EachUndisturbed(s, steps)
    ensures Safe(Run(s, steps))
    decreases |steps|
  {
    hide Safe, Undisturbed, Execute, Enabled;
    if steps != [] {
      SafeIffUndisturbed(s, steps[0]);
      RunStaysSafe(Execute(s, steps[0]), steps[1..]);
    }
  }

  /** In every interleaving of undisturbed steps a user is in a room exactly when their key names it. */
  lemma NobodyLost(steps: seq<Step>)
    requires Legal(INIT, steps) && EachUndisturbed(INIT, steps)
    ensures var p := Run(INIT, steps).keys;
      forall u, r :: In(p, u, r) <==> u in p.userRoom && p.userRoom[u] == r
  {
    RunStaysSafe(INIT, steps);
    var p := Run(INIT, steps).keys;
    forall u | u in p.userRoom ensures In(p, u, p.userRoom[u]) {}
  }

  lemma {:induction false} RunExtends(s: State, steps: seq<Step>, step: Step)
    requires Legal(s, steps) && Enabled(Run(s, steps), step)
    ensures Legal(s, steps + [step]) && Run(s, steps + [step]) == Execute(Run(s, steps), step)
    decreases |steps|
  {
    if steps == [] {
      assert (steps + [step])[1..] == [] && (steps + [step])[0] == step;
    } else {
      RunExtends(Execute(s, steps[0]), steps[1..], step);
      assert (steps + [step])[1..] == steps[1..] + [step];
    }
  }

  ghost predicate Reachable(s: State) {
    exists steps :: Legal(INIT, steps) && Run(INIT, steps) == s
  }

  lemma Then(s: State, step: Step, s': State)
    requires Reachable(s) && Enabled(s, step) && s' == Execute(s, step)
    ensures Reachable(s')
  {
    var steps :| Legal(INIT, steps) && Run(INIT, steps) == s;
    RunExtends(INIT, steps, step);
  }

  /**
   And it can be occupied: somebody who joins while the last member's leave is between its
   HLEN and its DEL ends up in no room's hash, in a room flagged as empty, with nothing running.
   */
  lemma LeaveCanLoseAJoiner(r: RoomId, first: UserId, second: UserId, name: string)
    requires first != second
    ensures exists s :: Reachable(s) && LostMember(s, second, r)
  {
    LeaverSeesEmptyRoom(r, first, name);
    var s3 := State(Presence(map[], map[], {r}, {}), map[0 := Unlisting(r)], map[]);
    var s4 := s3.(keys := Presence(map[r := map[second := name]], map[second := r], {r}, {}));
    Then(s3, JoinRoom(r, second, name), s4);
    var s5 := s4.(keys := s4.keys.(active := {}), leavers := map[0 := Dropping(r)]);
    Then(s4, Unlist(0), s5);
    DropsJoiner(s5, r, second, name);
  }

  /** The key says u is in r, the hash does not, r is flagged for cleanup, and nothing is running. */
  ghost predicate LostMember(s: State, u: UserId, r: RoomId) {
    && s.leavers == map[] && s.deleters == map[]
    && u in s.keys.userRoom && s.keys.userRoom[u] == r
    && !In(s.keys, u, r) && r in s.keys.pendingEmpty
  }

  lemma FirstJoins(r: RoomId, first: UserId, name: string)
    ensures Reachable(INIT.(keys := Presence(map[r := map[first := name]], map[first := r], {r}, {})))
  {
    var none: seq<Step> := [];
    assert Legal(INIT, none) && Run(INIT, none) == INIT;
    var s1 := INIT.(keys := Presence(map[r := map[first := name]], map[first := r], {r}, {}));
    Then(INIT, JoinRoom(r, first, name), s1);
  }

  lemma LeaverSeesEmptyRoom(r: RoomId, first: UserId, name: string)
    ensures Reachable(State(Presence(map[], map[], {r}, {}), map[0 := Unlisting(r)], map[]))
  {
    FirstJoins(r, first, name);
    var p1, p2 := Presence(map[r := map[first := name]], map[first := r], {r}, {}), Presence(map[], map[], {r}, {});
    LastMemberGone(p1, p2, r, first, name);
    LeavesLast(INIT.(keys := p1), State(p2, map[0 := Counting(r)], map[]), r, first);
    CountsNone(State(p2, map[0 := Counting(r)], map[]), r);
  }

  lemma LeavesLast(s1: State, s2: State, r: RoomId, first: UserId)
    requires Reachable(s1) && s1.leavers == map[] && Red.RemoveTx(s1.keys, r, first) == s2.keys
    requires s2 == State(s2.keys, map[0 := Counting(r)], s1.deleters)
    ensures Reachable(s2)
  {
    hide Red.RemoveTx, Reachable;
    Then(s1, LeaveTx(0, r, first), s2);
  }

  lemma CountsNone(s: State, r: RoomId)
    requires Reachable(s) && s.leavers == map[0 := Counting(r)] && r !in s.keys.members
    ensures Reachable(s.(leavers := map[0 := Unlisting(r)]))
  {
    hide Reachable;
    Then(s, Count(0), s.(leavers := map[0 := Unlisting(r)]));
  }

  lemma LastMemberGone(p: Presence, p': Presence, r: RoomId, u: UserId, name: string)
    requires p == Presence(map[r := map[u := name]], map[u := r], {r}, {})
    requires p' == Presence(map[], map[], {r}, {})
    ensures Red.RemoveTx(p, r, u) == p'
  {
    assert map[u := name] - {u} == map[];
  }

  lemma DropsJoiner(s5: State, r: RoomId, second: UserId, name: string)
    requires Reachable(s5)
    requires s5 == State(Presence(map[r := map[second := name]], map[second := r], {}, {}), map[0 := Dropping(r)], map[])
    ensures exists s :: Reachable(s) && LostMember(s, second, r)
  {
    var s6 := s5.(keys := s5.keys.(members := map[]), leavers := map[0 := Flagging(r)]);
    Then(s5, Drop(0), s6);
    var s7 := s6.(keys := s6.keys.(pendingEmpty := {r}), leavers := map[]);
    Then(s6, Flag(0), s7);
    assert LostMember(s7, second, r);
  }

  // ---------------------------------------------------------------- a delete does it too

  /** The key says u is in r, the hash does not, and nothing is running. */
  ghost predicate Stranded(s: State, u: UserId, r: RoomId) {
    && s.leavers == map[] && s.deleters == map[]
    && u in s.keys.userRoom && s.keys.userRoom[u] == r && !In(s.keys, u, r)
  }

  lemma StartsReachable()
    ensures Reachable(INIT)
  {
    var none: seq<Step> := [];
    assert Legal(INIT, none) && Run(INIT, none) == INIT;
  }

  /** Somebody who joins between a delete's reading and its transaction is stranded, without any leave. */
  lemma DeleteCanLoseAJoiner(r: RoomId, u: UserId, name: string)
    ensures exists s :: Reachable(s) && Stranded(s, u, r)
  {
    StartsReachable();
    var s1 := INIT.(deleters := map[0 := Deleter(r, {})]);
    assert Members(EMPTY, r).Keys == {};
    Then(INIT, DeleteRead(0, r), s1);
    var s2 := s1.(keys := Presence(map[r := map[u := name]], map[u := r], {r}, {}));
    Then(s1, JoinRoom(r, u, name), s2);
    var s3 := Execute(s2, DeleteWrite(0));
    assert s3.deleters == map[] && s3.keys.userRoom == map[u := r];
    Then(s2, DeleteWrite(0), s3);
    assert Stranded(s3, u, r);
  }

  /** And somebody who moves to another room in between stays there without a key, so a next join leaves them in two. */
  lemma DeleteCanForgetAMover(r: RoomId, q: RoomId, u: UserId, name: string)
    requires r != q
    ensures exists s :: Reachable(s) && Keyless(s, u, q)
  {
    FirstJoins(r, u, name);
    var p := Presence(map[r := map[u := name]], map[u := r], {r}, {});
    var s2 := INIT.(keys := p, deleters := map[0 := Deleter(r, {u})]);
    assert map[u := name].Keys == {u};
    Then(INIT.(keys := p), DeleteRead(0, r), s2);
    MoverForgotten(s2, r, q, u, name);
  }

  /** A member whose key is gone, with nothing running. */
  ghost predicate Keyless(s: State, u: UserId, q: RoomId) {
    s.leavers == map[] && s.deleters == map[] && In(s.keys, u, q) && u !in s.keys.userRoom
  }

  lemma MoverForgotten(s: State, r: RoomId, q: RoomId, u: UserId, name: string)
    requires Reachable(s) && s.leavers == map[] && s.deleters == map[0 := Deleter(r, {u})]
    requires r != q && Red.NoEmptyHash(s.keys)
    ensures exists s' :: Reachable(s') && Keyless(s', u, q)
  {
    hide Reachable, Red.JoinScript;
    JoinMembers(s.keys, q, u, name);
    var s3 := s.(keys := Red.JoinScript(s.keys, q, u, name));
    Then(s, JoinRoom(q, u, name), s3);
    var s4 := State(Red.DeleteTx(s3.keys, r, {u}), map[], map[]);
    assert s3.deleters - {0} == map[];
    Then(s3, DeleteWrite(0), s4);
    assert In(s3.keys, u, q) && Keyless(s4, u, q);
  }
}
