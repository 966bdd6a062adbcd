/**
 Room requests and cleanups that interleave. A request looks its room up in the database, then
 checks access, then acts, a send with one command after the other; a cleanup lists its
 candidates, then counts each one's members and closes those that had none. In between, others
 are at work.
 */
module RequestInterleaving {
  import opened Common
  import opened P = Presence
  import opened RoomHub
  import opened Lifecycle
  import Red = PresenceRedis
  import RoomStore
  import ChatStore
  import Playback = PlaybackControl

  /** A request that has found its room; entered is whether it got past the access check. */
  datatype Request = Request(op: Op, room: RoomStore.Room, entered: bool)

  /** A cleanup between candidates, or about to close a room it found without members. */
  datatype Cleaner = Sweeping(todo: set<RoomId>) | Closing(r: RoomId, todo: set<RoomId>)

  datatype State = State(world: World, open: map<nat, Request>, cleaners: map<nat, Cleaner>)

  const INIT := State(EMPTY_WORLD, map[], map[])

  /** Whole stands for creating a room and draining its chat; Ends for a reply or an error, at any point. */
  datatype Step =
    | Load(p: nat, op: Op)
    | Enter(p: nat)
    | Act(p: nat)
    | ChatCommand(p: nat, after: ChatStore.Chat)
    | Ends(p: nat)
    | List(c: nat)
    | Count(c: nat, r: RoomId)
    | Close(c: nat)
    | Whole(op: Op)

  predicate OnARoom(op: Op) {
    !op.Create? && !op.Drain? && !op.Cleanup?
  }

  /** The requests that go through canAccessRoom. */
  predicate Checks(op: Op) {
    op.Join? || op.Send? || op.Read?
  }

  predicate Enabled(s: State, step: Step) {
    match step
    case Load(p, op) => p !in s.open && OnARoom(op)
    case Enter(p) => p in s.open && Checks(s.open[p].op) && !s.open[p].entered
    case Act(p) => p in s.open && !s.open[p].op.Send? && !s.open[p].op.Read? && (s.open[p].op.Join? ==> s.open[p].entered)
    case ChatCommand(p, _) => p in s.open && s.open[p].op.Send? && s.open[p].entered
    case Ends(p) => p in s.open
    case List(c) => c !in s.cleaners
    case Count(c, r) => c in s.cleaners && s.cleaners[c].Sweeping? && r in s.cleaners[c].todo
    case Close(c) => c in s.cleaners && s.cleaners[c].Closing?
    case Whole(op) => op.Create? || op.Drain?
  }

  /** A request past its checks. */
  function Acted(w: World, op: Op, room: RoomStore.Room): World {
    if op.Join? then Joined(w, room.id, op.who.id, op.name) else OnRoom(w, op, room)
  }

  function Stored(w: World, r: RoomId, after: ChatStore.Chat): World {
    w.(chats := w.chats[r := after])
  }

  /** A room that has members only loses its flag. */
  function Counted(s: State, c: nat, r: RoomId): State
    requires c in s.cleaners
  {
    var todo := s.cleaners[c].todo - {r};
    if Red.HLen(s.world.presence, r) != 0 then
      s.(world := ClearPending(s.world, r), cleaners := s.cleaners[c := Sweeping(todo)])
    else s.(cleaners := s.cleaners[c := Closing(r, todo)])
  }

  function Execute(s: State, step: Step): State
    requires Enabled(s, step)
  {
    match step
    case Load(p, op) =>
      var found := Find(s.world.rows, op.r);
      if found.Some? then s.(open := s.open[p := Request(op, found.value, false)]) else s
    case Enter(p) =>
      var q := s.open[p];
      if MayEnter(s.world, q.room, q.op.who, q.op.password) then
        s.(world := Entered(s.world, q.room, q.op.who, q.op.password), open := s.open[p := q.(entered := true)])
      else s.(open := s.open - {p})
    case Act(p) => s.(world := Acted(s.world, s.open[p].op, s.open[p].room), open := s.open - {p})
    case ChatCommand(p, after) => s.(world := Stored(s.world, s.open[p].room.id, after))
    case Ends(p) => s.(open := s.open - {p})
    case List(c) => s.(cleaners := s.cleaners[c := Sweeping(Candidates(s.world))])
    case Count(c, r) => Counted(s, c, r)
    case Close(c) =>
      s.(world := CloseEmpty(s.world, s.cleaners[c].r), cleaners := s.cleaners[c := Sweeping(s.cleaners[c].todo)])
    case Whole(op) => s.(world := Do(s.world, op))
  }

  ghost predicate Legal(s: State, steps: seq<Step>)
    decreases |steps|
  {
    steps == [] || (Enabled(s, steps[0]) && Legal(Execute(s, steps[0]), steps[1..]))
  }

  ghost function RunOf(s: State, steps: seq<Step>): State
    requires Legal(s, steps)
    decreases |steps|
  {
    if steps == [] then s else RunOf(Execute(s, steps[0]), steps[1..])
  }

  /** Undisturbed, the parts of a request are the request: access check, then the action or the commands. */
  lemma PartsMakeTheRequest(w: World, op: Op, room: RoomStore.Room)
    requires Checks(op)
    ensures MayEnter(w, room, op.who, op.password) ==>
      var v := Entered(w, room, op.who, op.password);
      OnRoom(w, op, room) == if op.Join? then Acted(v, op, room) else if op.Send? then Stored(v, room.id, op.after) else v
    ensures !MayEnter(w, room, op.who, op.password) ==> OnRoom(w, op, room) == w
  {
  }

  /** And counting and closing a candidate is its sweep. */
  lemma PartsMakeTheSweep(s: State, c: nat, r: RoomId)
    requires Enabled(s, Count(c, r))
    ensures var s1 := Execute(s, Count(c, r));
      var s2 := if s1.cleaners[c].Closing? then Execute(s1, Close(c)) else s1;
      s2 == State(SweepOne(s.world, r), s.open, s.cleaners[c := Sweeping(s.cleaners[c].todo - {r})])
  {
    var s1 := Execute(s, Count(c, r));
    var todo := s.cleaners[c].todo - {r};
    if s1.cleaners[c].Closing? {
      assert s1.cleaners[c := Sweeping(todo)] == s.cleaners[c := Sweeping(todo)];
      ClearedTwice(s.world, r);
    }
  }

  lemma ClearedTwice(w: World, r: RoomId)
    ensures ClearPending(CloseEmpty(w, r), r) == CloseEmpty(w, r)
  {
  }

  // ---------------------------------------------------------------- when keys outlive their row

  /** The action of a request past its checks stores something for its room. */
  predicate Writes(w: World, op: Op, room: RoomStore.Room) {
    match op
    case Join(_, _, _, _) => true
    case Leave(_, _) => true
    case Kick(who, _, target) => Manages(who, room) && TrimSpace(target) != ""
    case Control(who, _, input, now) => Manages(who, room) && Controlled(w, room, who, input, now) != w
    case _ => false
  }

  /** The step stores something for the room of its request. */
  predicate StepWrites(s: State, step: Step)
    requires Enabled(s, step)
  {
    match step
    case Enter(p) => var q := s.open[p]; Entered(s.world, q.room, q.op.who, q.op.password) != s.world
    case Act(p) => Writes(s.world, s.open[p].op, s.open[p].room)
    case ChatCommand(_, _) => true
    case _ => false
  }

  /** The room is still in the database when the request stores something for it. */
  predicate Attended(s: State, step: Step)
    requires Enabled(s, step)
  {
    StepWrites(s, step) ==> s.open[step.p].room.id in InDb(s.world)
  }

  lemma JoinLeavesKey(w: World, r: RoomId, u: UserId, name: string)
    ensures r in Joined(w, r, u, name).presence.members
  {
  }

  lemma LeaveLeavesKey(w: World, r: RoomId, u: UserId)
    requires Owned(w) && r !in InDb(w)
    ensures r in Removed(w, r, u).presence.pendingEmpty
  {
    var p1 := Red.RemoveTx(w.presence, r, u);
    assert r !in w.presence.members && Members(w.presence, r) - {u} == map[];
    assert r !in p1.members;
  }

  /** Whatever a request's action stores for a room without a row is a key without a row. */
  lemma WriteNeedsRow(w: World, op: Op, room: RoomStore.Room)
    requires Owned(w) && Writes(w, op, room) && room.id !in InDb(w)
    ensures !Owned(Acted(w, op, room))
  {
    match op
    case Join(who, _, _, name) => JoinLeavesKey(w, room.id, who.id, name);
    case Leave(who, _) => LeaveLeavesKey(w, room.id, who.id);
    case Kick(who, _, target) => LeaveLeavesKey(w, room.id, TrimSpace(target));
    case Control(who, _, input, now) => assert room.id in Controlled(w, room, who, input, now).states;
    case _ =>
  }

  lemma ActKeepsOwnedIff(w: World, op: Op, room: RoomStore.Room)
    requires Owned(w) && !op.Send? && !op.Read?
    ensures Owned(Acted(w, op, room)) <==> (Writes(w, op, room) ==> room.id in InDb(w))
  {
    hide Owned;
    if Writes(w, op, room) && room.id !in InDb(w) {
      WriteNeedsRow(w, op, room);
    } else if op.Delete? {
      CloseEmptyOwned(w, room.id);
    } else if op.Join? {
      JoinedOwned(w, room.id, op.who.id, op.name);
    } else if Writes(w, op, room) {
      OnRoomOwned(w, op, room);
    } else {
      NothingWritten(w, op, room);
    }
  }

  lemma NothingWritten(w: World, op: Op, room: RoomStore.Room)
    requires !Writes(w, op, room) && !op.Send? && !op.Read? && !op.Delete?
    ensures Acted(w, op, room) == w
  {
  }

  lemma EnterKeepsOwnedIff(w: World, room: RoomStore.Room, who: Caller, password: string)
    requires Owned(w)
    ensures var v := Entered(w, room, who, password);
      && (Owned(v) <==> (v != w ==> room.id in InDb(w)))
      && (!MayEnter(w, room, who, password) ==> v == w)
  {
    if room.id in InDb(w) { EnteredOwned(w, room, who, password); }
  }

  lemma StoredKeepsOwnedIff(w: World, r: RoomId, after: ChatStore.Chat)
    requires Owned(w)
    ensures Owned(Stored(w, r, after)) <==> r in InDb(w)
  {
    if r in InDb(w) { SentOwned(w, r, after); } else { assert r in Stored(w, r, after).chats; }
  }

  lemma ClearPendingOwned(w: World, r: RoomId)
    requires Owned(w)
    ensures Owned(ClearPending(w, r))
  {
    var p := w.presence;
    var p' := ClearPending(w, r).presence;
    forall u | u in p'.userRoom ensures In(p', u, p'.userRoom[u]) { assert In(p, u, p.userRoom[u]); }
  }

  /** A step keeps "every key has a row" exactly when it is attended. */
  lemma OwnedIffAttended(s: State, step: Step)
    requires Owned(s.world) && Enabled(s, step)
    ensures Owned(Execute(s, step).world) <==> Attended(s, step)
  {
    hide Owned, OnRoom, Do, Writes, Entered, MayEnter, Acted, Stored, ClearPending, CloseEmpty;
    match step
    case Enter(p) =>
      var q := s.open[p];
      EnterKeepsOwnedIff(s.world, q.room, q.op.who, q.op.password);
    case Act(p) => ActKeepsOwnedIff(s.world, s.open[p].op, s.open[p].room);
    case ChatCommand(p, after) => StoredKeepsOwnedIff(s.world, s.open[p].room.id, after);
    case Count(_, r) => ClearPendingOwned(s.world, r);
    case Close(c) => CloseEmptyOwned(s.world, s.cleaners[c].r);
    case Whole(op) => StepKeepsOwned(s.world, op);
    case _ =>
  }

  ghost predicate EachAttended(s: State, steps: seq<Step>)
    requires Legal(s, steps)
    decreases |steps|
  {
    steps == [] || (Attended(s, steps[0]) && EachAttended(Execute(s, steps[0]), steps[1..]))
  }

  lemma {:induction false} RunKeepsOwned(s: State, steps: seq<Step>)
    requires Owned(s.world) && Legal(s, steps) && EachAttended(s, steps)
    ensures Owned(RunOf(s, steps).world)
    decreases |steps|
  {
    hide Owned, Execute, Enabled, Attended;
    if steps != [] {
      OwnedIffAttended(s, steps[0]);
      RunKeepsOwned(Execute(s, steps[0]), steps[1..]);
    }
  }

  /** In every interleaving where no room goes away under a request that stores something, every key has a row. */
  lemma EveryKeyHasARowIfAttended(steps: seq<Step>)
    requires Legal(INIT, steps) && EachAttended(INIT, steps)
    ensures Owned(RunOf(INIT, steps).world)
  {
    RunKeepsOwned(INIT, steps);
  }

  // ---------------------------------------------------------------- when a cleanup closes a joined room

  /** The step takes u into room r. */
  predicate Admits(s: State, step: Step, u: UserId, r: RoomId)
    requires Enabled(s, step)
  {
    step.Act? && s.open[step.p].op.Join? && s.open[step.p].op.who.id == u && s.open[step.p].room.id == r
  }

  predicate IsIn(s: State, u: UserId, r: RoomId) {
    In(s.world.presence, u, r)
  }

  /** A step of a run takes u into r, and u is there ever after. */
  ghost predicate JoinedAndStayed(s: State, steps: seq<Step>, u: UserId, r: RoomId)
    requires Legal(s, steps)
    decreases |steps|
  {
    steps != [] && var s' := Execute(s, steps[0]);
      (Admits(s, steps[0], u, r) && StaysIn(s', steps[1..], u, r)) || JoinedAndStayed(s', steps[1..], u, r)
  }

  ghost predicate StaysIn(s: State, steps: seq<Step>, u: UserId, r: RoomId)
    requires Legal(s, steps)
    decreases |steps|
  {
    IsIn(s, u, r) && (steps == [] || StaysIn(Execute(s, steps[0]), steps[1..], u, r))
  }

  /** Nothing but a join takes anybody into a room. */
  lemma OnlyJoinsAdmit(s: State, step: Step, u: UserId, r: RoomId)
    requires Enabled(s, step)
    ensures Admits(s, step, u, r) ==> IsIn(Execute(s, step), u, r)
    ensures IsIn(Execute(s, step), u, r) ==> IsIn(s, u, r) || Admits(s, step, u, r)
  {
    hide Red.Remove, Red.JoinScript, Candidates, Find, Controlled, MayEnter;
    if step.Act? {
      var q := s.open[step.p];
      if q.op.Join? {
        JoinAddsOne(s.world.presence, q.room.id, q.op.who.id, q.op.name);
      } else if q.op.Leave? {
        RemoveAddsNobody(s.world.presence, q.room.id, q.op.who.id);
      } else if q.op.Kick? {
        RemoveAddsNobody(s.world.presence, q.room.id, TrimSpace(q.op.target));
      } else if q.op.Control? {
        assert Acted(s.world, q.op, q.room).presence == s.world.presence by {
          ControlsLeavePresence(s.world, q.room, q.op.who, q.op.input, q.op.now);
        }
      }
    }
  }

  lemma ControlsLeavePresence(w: World, room: RoomStore.Room, who: Caller, input: Playback.ControlInput, now: real)
    ensures Controlled(w, room, who, input, now).presence == w.presence
  {
  }

  /** So who is in a room, having been out of it, joined it and stayed. */
  lemma {:induction false} InIffJoinedAndStayed(s: State, steps: seq<Step>, u: UserId, r: RoomId)
    requires Legal(s, steps)
    ensures IsIn(RunOf(s, steps), u, r) <==> StaysIn(s, steps, u, r) || JoinedAndStayed(s, steps, u, r)
    decreases |steps|
  {
    hide Enabled, Execute, Admits, IsIn;
    if steps != [] {
      OnlyJoinsAdmit(s, steps[0], u, r);
      InIffJoinedAndStayed(Execute(s, steps[0]), steps[1..], u, r);
    }
  }

  /** After a count that found the room empty, the close puts u out iff u has joined in between and stayed. */
  lemma CloseEvictsIffJoinedSince(s: State, c: nat, r: RoomId, steps: seq<Step>, u: UserId)
    requires Enabled(s, Count(c, r)) && Red.HLen(s.world.presence, r) == 0
    requires var s1 := Execute(s, Count(c, r));
      Legal(s1, steps) && Enabled(RunOf(s1, steps), Close(c)) && RunOf(s1, steps).cleaners[c].r == r
    ensures var s1 := Execute(s, Count(c, r));
      var s2 := RunOf(s1, steps);
      IsIn(s2, u, r) && !IsIn(Execute(s2, Close(c)), u, r) <==> JoinedAndStayed(s1, steps, u, r)
  {
    var s1 := Execute(s, Count(c, r));
    assert !IsIn(s1, u, r);
    InIffJoinedAndStayed(s1, steps, u, r);
  }

  // ---------------------------------------------------------------- runs that show it

  ghost predicate Reaches(s: State) {
    exists steps :: Legal(INIT, steps) && RunOf(INIT, steps) == s
  }

  lemma {:induction false} RunExtends(s: State, steps: seq<Step>, step: Step)
    requires Legal(s, steps) && Enabled(RunOf(s, steps), step)
    ensures Legal(s, steps + [step]) && RunOf(s, steps + [step]) == Execute(RunOf(s, steps), step)
    decreases |steps|
  {
    hide Enabled, Execute;
    if steps == [] {
      var none: seq<Step> := [];
      assert (steps + [step])[0] == step && (steps + [step])[1..] == none;
      assert Legal(Execute(s, step), none) && RunOf(Execute(s, step), none) == Execute(s, step);
    } else {
      assert (steps + [step])[0] == steps[0] && (steps + [step])[1..] == steps[1..] + [step];
      RunExtends(Execute(s, steps[0]), steps[1..], step);
    }
  }

  lemma Then(s: State, step: Step, s': State)
    requires Reaches(s) && Enabled(s, step) && s' == Execute(s, step)
    ensures Reaches(s')
  {
    hide Enabled, Execute;
    var steps :| Legal(INIT, steps) && RunOf(INIT, steps) == s;
    RunExtends(INIT, steps, step);
  }

  /** A public room is created. */
  lemma Created(room: RoomStore.Room) returns (s: State)
    ensures Reaches(s) && s == State(EMPTY_WORLD.(rows := [room]), map[], map[])
  {
    s := State(EMPTY_WORLD.(rows := [room]), map[], map[]);
    var none: seq<Step> := [];
    assert Legal(INIT, none) && RunOf(INIT, none) == INIT;
    Then(INIT, Whole(Lifecycle.Create(room)), s);
  }

  /** A request finds the room and may enter it. */
  lemma GetsIn(s: State, room: RoomStore.Room, op: Op) returns (s': State)
    requires Reaches(s) && s.world.rows == [room] && s.open == map[] && !room.isPrivate && Checks(op) && op.r == room.id
    ensures Reaches(s') && s' == s.(open := map[0 := Request(op, room, true)])
  {
    assert Find(s.world.rows, room.id) == Some(room);
    var s1 := s.(open := map[0 := Request(op, room, false)]);
    Then(s, Load(0, op), s1);
    s' := s.(open := map[0 := Request(op, room, true)]);
    Then(s1, Enter(0), s');
  }

  /** Its owner deletes the room under it. */
  lemma DeletedUnder(s: State, room: RoomStore.Room) returns (s': State)
    requires Reaches(s) && s.world.rows == [room] && 1 !in s.open
    ensures Reaches(s') && s' == s.(world := s'.world) && s'.world == CloseEmpty(s.world, room.id) && s'.world.rows == []
  {
    assert Find(s.world.rows, room.id) == Some(room);
    var delete := Delete(Caller(room.owner, false), room.id);
    var s1 := s.(open := s.open[1 := Request(delete, room, false)]);
    Then(s, Load(1, delete), s1);
    s' := s.(world := CloseEmpty(s.world, room.id));
    RoomStore.WithoutIds([room], {room.id});
    assert s1.open - {1} == s.open;
    Then(s1, Act(1), s');
  }

  /** A join that found the room before its deletion puts the user into a room that no longer exists. */
  lemma JoinAfterDeleteLeavesOrphan(room: RoomStore.Room, u: UserId, name: string) returns (s: State)
    requires !room.isPrivate
    ensures Reaches(s) && IsIn(s, u, room.id) && room.id !in InDb(s.world)
  {
    var join := Join(Caller(u, false), room.id, "", name);
    var s1 := Created(room);
    var s2 := GetsIn(s1, room, join);
    var s3 := DeletedUnder(s2, room);
    s := Execute(s3, Act(0));
    JoinAddsOne(s3.world.presence, room.id, u, name);
    Then(s3, Act(0), s);
  }

  /** A send whose room is deleted between two of its commands leaves a chat of no room. */
  lemma SendAcrossDeleteLeavesChat(room: RoomStore.Room, u: UserId, first: ChatStore.Chat, second: ChatStore.Chat)
    returns (s: State)
    requires !room.isPrivate
    ensures Reaches(s) && room.id in s.world.chats && room.id !in InDb(s.world)
  {
    var s1 := Created(room);
    var s2 := GetsIn(s1, room, Send(Caller(u, false), room.id, "", first));
    var s3 := s2.(world := Stored(s2.world, room.id, first));
    Then(s2, ChatCommand(0, first), s3);
    var s4 := DeletedUnder(s3, room);
    s := s4.(world := Stored(s4.world, room.id, second));
    Then(s4, ChatCommand(0, second), s);
  }

  /** A cleanup counts no members, a user joins, and the cleanup closes the room with the user in it. */
  lemma CleanupClosesJoinedRoom(room: RoomStore.Room, u: UserId, name: string) returns (before: State, s: State)
    requires !room.isPrivate
    ensures Reaches(before) && IsIn(before, u, room.id) && room.id in InDb(before.world)
    ensures Enabled(before, Close(0)) && s == Execute(before, Close(0)) && Reaches(s)
    ensures !IsIn(s, u, room.id) && room.id !in InDb(s.world)
  {
    var s1 := Created(room);
    var s2 := CountedEmpty(s1, room);
    var s3 := GetsIn(s2, room, Join(Caller(u, false), room.id, "", name));
    before := Execute(s3, Act(0));
    JoinAddsOne(s3.world.presence, room.id, u, name);
    Then(s3, Act(0), before);
    s := Execute(before, Close(0));
    RoomStore.WithoutIds([room], {room.id});
    assert room in before.world.rows;
    Then(before, Close(0), s);
  }

  lemma CountedEmpty(s: State, room: RoomStore.Room) returns (s': State)
    requires Reaches(s) && s == State(EMPTY_WORLD.(rows := [room]), map[], map[])
    ensures Reaches(s') && s'.world == s.world && s'.open == map[]
    ensures 0 in s'.cleaners && s'.cleaners[0].Closing? && s'.cleaners[0].r == room.id
  {
    var s1 := Execute(s, List(0));
    Then(s, List(0), s1);
    assert RoomStore.Page(s.world.rows, CLEANUP_LIMIT, 0) == [room];
    assert room.id in Candidates(s.world);
    s' := Execute(s1, Count(0, room.id));
    Then(s1, Count(0, room.id), s');
  }
}
