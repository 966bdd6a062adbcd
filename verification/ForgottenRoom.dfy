/**
 An empty room that no cleanup ever sees: nobody joined it, so nothing flags it, and fifty
 newer rooms with somebody in them fill the page the cleanup gets.
 */
module ForgottenRoom {
  import opened Common
  import opened P = Presence
  import opened RoomHub
  import opened RoomStore
  import opened CleanupConvergence
  import Lifecycle
  import Red = PresenceRedis

  /** A different name for each number. */
  function Name(j: nat): (name: string)
    ensures |name| == j + 1
  {
    if j == 0 then "a" else "a" + Name(j - 1)
  }

  /** The old room is number 0; room j, created at j, is public and owned by user j. */
  function NthRoom(j: nat): Room {
    Room(Name(j), Name(j), false, "", j)
  }

  /** The old room, and then n rooms, each created and joined by its owner. */
  function Crowd(n: nat): seq<Lifecycle.Op> {
    if n == 0 then [Lifecycle.Create(NthRoom(0))]
    else Crowd(n - 1) + [Lifecycle.Create(NthRoom(n))]
         + [Lifecycle.Join(Lifecycle.Caller(Name(n), false), Name(n), "", "")]
  }

  /** Newest first, with the old room last. */
  function Newer(n: nat): seq<Room> {
    if n == 0 then [] else [NthRoom(n)] + Newer(n - 1)
  }

  /** The id of one of the newer rooms. */
  ghost predicate Newcomer(r: RoomId, n: nat) {
    exists j :: 0 < j <= n && r == Name(j)
  }

  lemma NewcomerStep(r: RoomId, n: nat)
    requires n > 0
    ensures Newcomer(r, n) <==> Newcomer(r, n - 1) || r == Name(n)
  {
    if Newcomer(r, n) {
      var j :| 0 < j <= n && r == Name(j);
      assert j < n ==> Newcomer(r, n - 1);
    }
  }

  /** Just the newer rooms are occupied, by users of theirs; nothing is flagged. */
  ghost predicate CrowdIn(p: Presence, n: nat) {
    && (forall r :: r in p.members <==> Newcomer(r, n))
    && (forall u :: u in p.userRoom ==> |u| <= n + 1)
    && p.active == p.members.Keys && p.pendingEmpty == {}
  }

  ghost predicate Crowded(w: World, n: nat) {
    w.rows == Newer(n) + [NthRoom(0)] && CrowdIn(w.presence, n)
  }

  lemma RunLast(run: seq<Lifecycle.Op>, op: Lifecycle.Op)
    ensures Lifecycle.Run(EMPTY_WORLD, run + [op]) == Lifecycle.Do(Lifecycle.Run(EMPTY_WORLD, run), op)
  {
    hide Lifecycle.Do;
    assert (run + [op])[..|run|] == run;
  }

  lemma {:induction false} NewerRows(n: nat)
    ensures |Newer(n)| == n && forall r :: r in Newer(n) ==> exists j :: 0 < j <= n && r == NthRoom(j)
    ensures n > 0 ==> Newer(n)[0] == NthRoom(n)
  {
    if n > 0 { NewerRows(n - 1); }
  }

  lemma NewRow(w: World, n: nat)
    requires n > 0 && Crowded(w, n - 1)
    ensures Lifecycle.Do(w, Lifecycle.Create(NthRoom(n))) == w.(rows := Newer(n) + [NthRoom(0)])
  {
    NewerRows(n - 1);
    hide CrowdIn, Newcomer;
    forall r | r in w.rows ensures r.id != Name(n) {
      if r in Newer(n - 1) { var j :| 0 < j <= n - 1 && r == NthRoom(j); }
    }
    assert NthRoom(n).id !in InDb(w);
    assert w.rows[0].createdAt <= n;
    assert [NthRoom(n)] + (Newer(n - 1) + [NthRoom(0)]) == Newer(n) + [NthRoom(0)];
  }

  /** A newcomer to a public room. */
  lemma JoinsPublic(v: World, room: Room, u: UserId)
    requires v.rows != [] && v.rows[0] == room && !room.isPrivate && u !in v.presence.userRoom
    ensures Lifecycle.Do(v, Lifecycle.Join(Lifecycle.Caller(u, false), room.id, "", ""))
         == v.(presence := Red.ScriptEnters(v.presence, room.id, u, ""))
  {
    assert Lifecycle.Find(v.rows, room.id) == Some(room);
  }

  lemma CrowdGrows(p: Presence, n: nat)
    requires n > 0 && CrowdIn(p, n - 1)
    ensures CrowdIn(Red.ScriptEnters(p, Name(n), Name(n), ""), n)
  {
    var p' := Red.ScriptEnters(p, Name(n), Name(n), "");
    assert p'.members.Keys == p.members.Keys + {Name(n)};
    forall r ensures r in p'.members <==> Newcomer(r, n) { NewcomerStep(r, n); }
  }

  lemma NewMember(v: World, n: nat)
    requires n > 0 && v.rows == Newer(n) + [NthRoom(0)] && CrowdIn(v.presence, n - 1)
    ensures Crowded(Lifecycle.Do(v, Lifecycle.Join(Lifecycle.Caller(Name(n), false), Name(n), "", "")), n)
  {
    NewerRows(n);
    assert v.rows[0] == NthRoom(n) && Name(n) !in v.presence.userRoom;
    hide CrowdIn, Lifecycle.Do, Red.ScriptEnters, Newer;
    JoinsPublic(v, NthRoom(n), Name(n));
    CrowdGrows(v.presence, n);
  }

  lemma FirstRoom()
    ensures Crowded(Lifecycle.Run(EMPTY_WORLD, Crowd(0)), 0)
  {
    RunLast([], Lifecycle.Create(NthRoom(0)));
    assert [] + [Lifecycle.Create(NthRoom(0))] == Crowd(0) && Lifecycle.Run(EMPTY_WORLD, []) == EMPTY_WORLD;
    hide Lifecycle.Run, Crowd;
    var w := Lifecycle.Do(EMPTY_WORLD, Lifecycle.Create(NthRoom(0)));
    assert w == EMPTY_WORLD.(rows := [NthRoom(0)]);
    assert Newer(0) + [NthRoom(0)] == [NthRoom(0)];
  }

  lemma CrowdStep(n: nat)
    requires n > 0 && Crowded(Lifecycle.Run(EMPTY_WORLD, Crowd(n - 1)), n - 1)
    ensures Crowded(Lifecycle.Run(EMPTY_WORLD, Crowd(n)), n)
  {
    hide CrowdIn, Lifecycle.Do, Lifecycle.Run, Newer;
    var create := Lifecycle.Create(NthRoom(n));
    var w := Lifecycle.Run(EMPTY_WORLD, Crowd(n - 1));
    RunLast(Crowd(n - 1), create);
    RunLast(Crowd(n - 1) + [create], Lifecycle.Join(Lifecycle.Caller(Name(n), false), Name(n), "", ""));
    NewRow(w, n);
    NewMember(Lifecycle.Do(w, create), n);
  }

  lemma {:induction false} CrowdIsCrowded(n: nat)
    ensures Crowded(Lifecycle.Run(EMPTY_WORLD, Crowd(n)), n)
  {
    hide Crowded, Lifecycle.Run, Crowd;
    if n == 0 {
      FirstRoom();
    } else {
      CrowdIsCrowded(n - 1);
      CrowdStep(n);
    }
  }

  /** Behind enough occupied rows a row that is not flagged stays. */
  lemma {:induction false} HiddenRowSettles(rows: seq<Room>, hidden: Room, occ: set<RoomId>, flagged: set<RoomId>, n: nat)
    requires (forall r :: r in rows ==> r.id in occ) && hidden.id !in flagged && n + |rows| >= PAGE
    ensures Settled(rows + [hidden], occ, flagged, n) == rows + [hidden]
  {
    if rows == [] {
      assert rows + [hidden] == [hidden] && [hidden][1..] == [];
    } else {
      assert rows[0] in rows && (rows + [hidden])[1..] == rows[1..] + [hidden];
      HiddenRowSettles(rows[1..], hidden, occ, flagged, n + 1);
      assert rows + [hidden] == [rows[0]] + (rows[1..] + [hidden]);
    }
  }

  lemma CrowdOccupies(w: World, n: nat)
    requires Crowded(w, n)
    ensures NthRoom(0).id !in w.presence.members && NthRoom(0).id !in Flagged(w)
    ensures |Newer(n)| == n && forall r :: r in Newer(n) ==> r.id in w.presence.members
  {
    NewerRows(n);
    forall r | r in Newer(n) ensures Newcomer(r.id, n) {
      var j :| 0 < j <= n && r == NthRoom(j);
    }
  }

  /** Whatever the number of cleanups, the old room is empty and keeps its row. */
  lemma EmptyRoomStaysForEver(n: nat)
    ensures var w := Lifecycle.Run(EMPTY_WORLD, Crowd(50));
      !Occupied(w.presence, NthRoom(0).id) && NthRoom(0) in Passes(w, n).rows
  {
    var w := Lifecycle.Run(EMPTY_WORLD, Crowd(PAGE));
    CrowdIsCrowded(PAGE);
    CrowdOccupies(w, PAGE);
    Lifecycle.EveryKeyHasARow(Crowd(PAGE));
    Lifecycle.OwnedRows(w);
    hide CrowdIn, Settled, Passes, Lifecycle.Run, Newer, Flagged, Lifecycle.Owned;
    HiddenRowSettles(Newer(PAGE), NthRoom(0), w.presence.members.Keys, Flagged(w), 0);
    SettledStays(w, n);
  }
}
