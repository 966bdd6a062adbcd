/**
 Repeating the empty-room cleanup while nobody else is at work: where it stops, and when.
 The cleanup asks for 500 rows and gets the newest 50.
 */
module CleanupConvergence {
  import opened Common
  import opened P = Presence
  import opened RoomHub
  import opened RoomStore

  /** How many rows a cleanup really sees. */
  const PAGE := 50

  function Pass(w: World): World {
    Swept(w, Candidates(w))
  }

  function Passes(w: World, n: nat): World
    decreases n
  {
    if n == 0 then w else Passes(Pass(w), n - 1)
  }

  function Flagged(w: World): set<RoomId> {
    w.presence.pendingEmpty + w.presence.active
  }

  function OccupiedCount(rows: seq<Room>, occ: set<RoomId>): nat {
    if rows == [] then 0 else OccupiedCount(rows[1..], occ) + (if rows[0].id in occ then 1 else 0)
  }

  // ---------------------------------------------------------------- one pass over the rows

  /** What a pass leaves of the rows when the first k of them are on the page. */
  function PassRows(rows: seq<Room>, occ: set<RoomId>, flagged: set<RoomId>, k: nat): seq<Room> {
    if rows == [] then []
    else
      var rest := PassRows(rows[1..], occ, flagged, if k == 0 then 0 else k - 1);
      if rows[0].id !in occ && (k > 0 || rows[0].id in flagged) then rest else [rows[0]] + rest
  }

  function Newest(rows: seq<Room>, k: nat): seq<Room> {
    if k == 0 || rows == [] then [] else [rows[0]] + Newest(rows[1..], k - 1)
  }

  lemma {:induction false} NewestIsPrefix(rows: seq<Room>, k: nat)
    ensures Newest(rows, k) == if k <= |rows| then rows[..k] else rows
  {
    if k > 0 && rows != [] { NewestIsPrefix(rows[1..], k - 1); }
  }

  lemma {:induction false} WithoutAlike(rows: seq<Room>, a: set<RoomId>, b: set<RoomId>)
    requires forall r :: r in rows ==> (r.id in a <==> r.id in b)
    ensures Without(rows, a) == Without(rows, b)
  {
    if rows != [] { WithoutAlike(rows[1..], a, b); }
  }

  lemma {:induction false} PassRowsIsWithout(rows: seq<Room>, occ: set<RoomId>, flagged: set<RoomId>, k: nat)
    requires RoomStore.Valid(rows)
    ensures Without(rows, flagged + Ids(Newest(rows, k)) - occ) == PassRows(rows, occ, flagged, k)
  {
    if rows != [] {
      var rest, k1: nat := rows[1..], if k == 0 then 0 else k - 1;
      var here, below := Newest(rows, k), Newest(rest, k1);
      ValidTail(rows);
      PassRowsIsWithout(rest, occ, flagged, k1);
      NewestIds(rows, k);
      WithoutAlike(rest, flagged + Ids(here) - occ, flagged + Ids(below) - occ);
    }
  }

  lemma NewestIds(rows: seq<Room>, k: nat)
    requires RoomStore.Valid(rows) && rows != []
    ensures var below := Newest(rows[1..], if k == 0 then 0 else k - 1);
      && Ids(Newest(rows, k)) == (if k == 0 then {} else {rows[0].id}) + Ids(below)
      && rows[0].id !in Ids(below)
  {
    var below := Newest(rows[1..], if k == 0 then 0 else k - 1);
    ValidTail(rows);
    NewestIsPrefix(rows[1..], if k == 0 then 0 else k - 1);
    assert forall r :: r in below ==> r in rows[1..];
    if k > 0 { IdsCons(rows[0], below); }
  }

  lemma IdsCons(r: Room, rest: seq<Room>)
    ensures Ids([r] + rest) == {r.id} + Ids(rest)
  {
    assert r in [r] + rest;
  }

  lemma PassOnRows(w: World)
    requires RoomStore.Valid(w.rows)
    ensures Pass(w).rows == PassRows(w.rows, w.presence.members.Keys, Flagged(w), PAGE)
    ensures RoomStore.Valid(Pass(w).rows)
  {
    var occ := w.presence.members.Keys;
    assert w.rows[0..] == w.rows;
    NewestIsPrefix(w.rows, PAGE);
    assert Page(w.rows, CLEANUP_LIMIT, 0) == Newest(w.rows, PAGE);
    assert Candidates(w) - occ == Flagged(w) + Ids(Newest(w.rows, PAGE)) - occ;
    PassRowsIsWithout(w.rows, occ, Flagged(w), PAGE);
    WithoutValid(w.rows, Candidates(w) - occ);
  }

  /** A pass changes no member, empties the flags and keeps only occupied rooms active. */
  lemma PassClearsFlags(w: World)
    ensures Pass(w).presence.pendingEmpty == {} && Pass(w).presence.members == w.presence.members
    ensures Pass(w).presence.active == w.presence.active * w.presence.members.Keys
  {
  }

  // ---------------------------------------------------------------- where it stops

  /** The rows that stay for good when n newer ones are occupied. */
  function Settled(rows: seq<Room>, occ: set<RoomId>, flagged: set<RoomId>, n: nat): seq<Room> {
    if rows == [] then []
    else if rows[0].id in occ then [rows[0]] + Settled(rows[1..], occ, flagged, n + 1)
    else if rows[0].id in flagged || n < PAGE then Settled(rows[1..], occ, flagged, n)
    else [rows[0]] + Settled(rows[1..], occ, flagged, n)
  }

  lemma {:induction false} PassKeepsSettled(rows: seq<Room>, occ: set<RoomId>, flagged: set<RoomId>, k: nat, n: nat, after: set<RoomId>)
    requires k > 0 ==> n + k <= PAGE
    requires after <= occ
    ensures Settled(PassRows(rows, occ, flagged, k), occ, after, n) == Settled(rows, occ, flagged, n)
  {
    if rows != [] {
      var r, k1: nat := rows[0], if k == 0 then 0 else k - 1;
      var rest := PassRows(rows[1..], occ, flagged, k1);
      PassKeepsSettled(rows[1..], occ, flagged, k1, if r.id in occ then n + 1 else n, after);
      assert ([r] + rest)[1..] == rest;
    }
  }

  lemma {:induction false} UnchangedIsSettled(rows: seq<Room>, occ: set<RoomId>, flagged: set<RoomId>, k: nat, n: nat)
    requires |PassRows(rows, occ, flagged, k)| == |rows| && n + k >= PAGE
    ensures Settled(rows, occ, flagged, n) == rows && PassRows(rows, occ, flagged, k) == rows
  {
    if rows != [] {
      var k1: nat := if k == 0 then 0 else k - 1;
      PassDropsRows(rows[1..], occ, flagged, k1);
      UnchangedIsSettled(rows[1..], occ, flagged, k1, if rows[0].id in occ then n + 1 else n);
    }
  }

  lemma {:induction false} PassDropsRows(rows: seq<Room>, occ: set<RoomId>, flagged: set<RoomId>, k: nat)
    ensures |PassRows(rows, occ, flagged, k)| <= |rows|
  {
    if rows != [] { PassDropsRows(rows[1..], occ, flagged, if k == 0 then 0 else k - 1); }
  }

  function Final(w: World): seq<Room> {
    Settled(w.rows, w.presence.members.Keys, Flagged(w), 0)
  }

  /** A pass does not change where it all ends, and drops a row unless this is the end. */
  lemma PassStep(w: World)
    requires RoomStore.Valid(w.rows)
    ensures RoomStore.Valid(Pass(w).rows) && Final(Pass(w)) == Final(w) && |Pass(w).rows| <= |w.rows|
    ensures |Pass(w).rows| == |w.rows| ==> Pass(w).rows == w.rows == Final(w)
  {
    var occ := w.presence.members.Keys;
    PassOnRows(w);
    PassClearsFlags(w);
    PassDropsRows(w.rows, occ, Flagged(w), PAGE);
    PassKeepsSettled(w.rows, occ, Flagged(w), PAGE, 0, Flagged(Pass(w)));
    if |Pass(w).rows| == |w.rows| { UnchangedIsSettled(w.rows, occ, Flagged(w), PAGE, 0); }
  }

  /** As many passes as there are rows are enough. */
  lemma {:induction false} CleanupConverges(w: World, n: nat)
    requires RoomStore.Valid(w.rows) && n >= |w.rows|
    ensures Passes(w, n).rows == Final(w)
    decreases n
  {
    PassStep(w);
    if n == 0 {
    } else if |Pass(w).rows| == |w.rows| {
      SettledStays(Pass(w), n - 1);
    } else {
      CleanupConverges(Pass(w), n - 1);
    }
  }

  lemma {:induction false} SettledStays(w: World, n: nat)
    requires RoomStore.Valid(w.rows) && Final(w) == w.rows
    ensures Passes(w, n).rows == w.rows
    decreases n
  {
    if n > 0 {
      PassStep(w);
      SettledShrinks(Pass(w).rows, w.presence.members.Keys, Flagged(Pass(w)), 0);
      PassClearsFlags(w);
      SettledStays(Pass(w), n - 1);
    }
  }

  lemma {:induction false} SettledShrinks(rows: seq<Room>, occ: set<RoomId>, flagged: set<RoomId>, n: nat)
    ensures |Settled(rows, occ, flagged, n)| <= |rows|
  {
    if rows != [] { SettledShrinks(rows[1..], occ, flagged, if rows[0].id in occ then n + 1 else n); }
  }

  // ---------------------------------------------------------------- what that means

  /** A row stays iff its room is occupied, or was never flagged and has 50 newer occupied rows. */
  lemma {:induction false} SettledSpec(rows: seq<Room>, occ: set<RoomId>, flagged: set<RoomId>, n: nat, i: nat)
    requires RoomStore.Valid(rows) && i < |rows|
    ensures rows[i] in Settled(rows, occ, flagged, n)
       <==> rows[i].id in occ || (rows[i].id !in flagged && n + OccupiedCount(rows[..i], occ) >= PAGE)
  {
    var n1 := if rows[0].id in occ then n + 1 else n;
    SettledMembers(rows[1..], occ, flagged, n1);
    ValidTail(rows);
    if i == 0 {
      assert rows[0] !in Settled(rows[1..], occ, flagged, n1);
    } else {
      SettledSpec(rows[1..], occ, flagged, n1, i - 1);
      assert rows[..i][0] == rows[0] && rows[..i][1..] == rows[1..][..i - 1];
      assert rows[i] == rows[1..][i - 1];
      assert rows[i] != rows[0];
    }
  }

  lemma {:induction false} SettledMembers(rows: seq<Room>, occ: set<RoomId>, flagged: set<RoomId>, n: nat)
    ensures forall r :: r in Settled(rows, occ, flagged, n) ==> r in rows
  {
    if rows != [] {
      SettledMembers(rows[1..], occ, flagged, if rows[0].id in occ then n + 1 else n);
      assert rows == [rows[0]] + rows[1..];
    }
  }

  /** Who stays in the database, for good, after as many undisturbed cleanups as there are rows. */
  lemma RowSurvivesIff(w: World, n: nat, i: nat)
    requires RoomStore.Valid(w.rows) && n >= |w.rows| && i < |w.rows|
    ensures w.rows[i] in Passes(w, n).rows
       <==> Occupied(w.presence, w.rows[i].id)
            || (w.rows[i].id !in Flagged(w) && OccupiedCount(w.rows[..i], w.presence.members.Keys) >= 50)
  {
    CleanupConverges(w, n);
    SettledSpec(w.rows, w.presence.members.Keys, Flagged(w), 0, i);
  }

  lemma {:induction false} OccupiedCountPrefix(rows: seq<Room>, occ: set<RoomId>, i: nat)
    requires i <= |rows|
    ensures OccupiedCount(rows[..i], occ) <= OccupiedCount(rows, occ)
  {
    if i > 0 {
      OccupiedCountPrefix(rows[1..], occ, i - 1);
      assert rows[..i][1..] == rows[1..][..i - 1];
    }
  }

  /** With fewer than 50 occupied rooms in the database, exactly those stay. */
  lemma FewOccupiedRoomsAreWhatRemains(w: World, n: nat)
    requires RoomStore.Valid(w.rows) && n >= |w.rows|
    requires OccupiedCount(w.rows, w.presence.members.Keys) < 50
    ensures forall r :: r in Passes(w, n).rows <==> r in w.rows && Occupied(w.presence, r.id)
  {
    var occ := w.presence.members.Keys;
    CleanupConverges(w, n);
    SettledMembers(w.rows, occ, Flagged(w), 0);
    forall r | r in w.rows ensures r in Passes(w, n).rows <==> r.id in occ {
      var i :| 0 <= i < |w.rows| && w.rows[i] == r;
      RowSurvivesIff(w, n, i);
      OccupiedCountPrefix(w.rows, occ, i);
    }
  }

  /** Otherwise the newest 50 rows that remain are all occupied, and hide the rest. */
  lemma {:induction false} SettledTop(rows: seq<Room>, occ: set<RoomId>, flagged: set<RoomId>, n: nat, i: nat)
    requires i < |Settled(rows, occ, flagged, n)| && n + i < PAGE
    ensures Settled(rows, occ, flagged, n)[i].id in occ
  {
    if rows[0].id in occ {
      if i > 0 { SettledTop(rows[1..], occ, flagged, n + 1, i - 1); }
    } else {
      SettledTop(rows[1..], occ, flagged, n, i);
    }
  }

  lemma NewestRemainingAreOccupied(w: World, n: nat)
    requires RoomStore.Valid(w.rows) && n >= |w.rows|
    ensures forall i :: 0 <= i < |Passes(w, n).rows| && i < 50 ==> Occupied(w.presence, Passes(w, n).rows[i].id)
  {
    CleanupConverges(w, n);
    var rows := Final(w);
    forall i | 0 <= i < |rows| && i < 50 ensures Occupied(w.presence, rows[i].id) {
      SettledTop(w.rows, w.presence.members.Keys, Flagged(w), 0, i);
    }
  }

  // ---------------------------------------------------------------- the rest of the world

  /** However many cleanups run, occupied rooms lose nothing. */
  lemma {:induction false} CleanupsSpareOccupied(w: World, n: nat, r: RoomId)
    requires Occupied(w.presence, r)
    ensures Passes(w, n).presence.members == w.presence.members && RoomUntouched(w, Passes(w, n), r)
    decreases n
  {
    if n > 0 {
      SweepSparesOccupied(w, Candidates(w), r);
      PassClearsFlags(w);
      CleanupsSpareOccupied(Pass(w), n - 1, r);
    }
  }

  lemma {:induction false} PassesKeepValid(w: World, n: nat)
    requires RoomStore.Valid(w.rows)
    ensures RoomStore.Valid(Passes(w, n).rows) && Passes(w, n).presence.members == w.presence.members
    ensures n > 0 ==> Passes(w, n).presence.pendingEmpty == {} && Passes(w, n).presence.active <= w.presence.members.Keys
    decreases n
  {
    if n > 0 {
      PassOnRows(w);
      PassClearsFlags(w);
      PassesKeepValid(Pass(w), n - 1);
      if n - 1 == 0 { assert Passes(w, n) == Pass(w); }
    }
  }

  /** One pass more than there are rows, and further passes change nothing at all. */
  lemma CleanupReachesFixpoint(w: World, n: nat)
    requires RoomStore.Valid(w.rows) && n > |w.rows|
    ensures Pass(Passes(w, n)) == Passes(w, n)
  {
    var v := Passes(w, n);
    PassesKeepValid(w, n);
    NewestRemainingAreOccupied(w, n);
    assert Candidates(v) - v.presence.members.Keys == {};
    NothingToClose(v);
  }

  lemma NothingToClose(w: World)
    requires Candidates(w) - w.presence.members.Keys == {} && w.presence.pendingEmpty == {}
    ensures Pass(w) == w
  {
    WithoutNone(w.rows, {});
  }
}
