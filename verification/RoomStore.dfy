/** The rooms table: rows are listed newest first, a page at a time. */
module RoomStore {
  import opened Common

  datatype Room = Room(id: RoomId, owner: UserId, isPrivate: bool, password: string, createdAt: int)

  function Ids(rows: seq<Room>): set<RoomId> {
    set r | r in rows :: r.id
  }

  /** Newest first, and the id is a key. */
  ghost predicate Valid(rows: seq<Room>) {
    forall i, j :: 0 <= i < j < |rows| ==> rows[i].createdAt >= rows[j].createdAt && rows[i].id != rows[j].id
  }

  /** A limit outside 1..100 becomes 50, so asking for 500 rows yields 50. */
  function NormalizePage(limit: int, offset: int): (nat, nat) {
    (if limit <= 0 || limit > 100 then 50 else limit, if offset < 0 then 0 else offset)
  }

  function Page(rows: seq<Room>, limit: int, offset: int): seq<Room> {
    var (n, from) := NormalizePage(limit, offset);
    var rest := if from <= |rows| then rows[from..] else [];
    if n <= |rest| then rest[..n] else rest
  }

  function Insert(rows: seq<Room>, room: Room): seq<Room> {
    if rows == [] || rows[0].createdAt <= room.createdAt then [room] + rows
    else [rows[0]] + Insert(rows[1..], room)
  }

  function Without(rows: seq<Room>, dead: set<RoomId>): seq<Room> {
    if rows == [] then []
    else if rows[0].id in dead then Without(rows[1..], dead)
    else [rows[0]] + Without(rows[1..], dead)
  }

  lemma {:induction false} WithoutIds(rows: seq<Room>, dead: set<RoomId>)
    ensures forall r :: r in Without(rows, dead) <==> r in rows && r.id !in dead
    ensures Ids(Without(rows, dead)) == Ids(rows) - dead
  {
    if rows != [] {
      assert rows == [rows[0]] + rows[1..];
      WithoutIds(rows[1..], dead);
    }
  }

  lemma {:induction false} WithoutTwice(rows: seq<Room>, a: set<RoomId>, b: set<RoomId>)
    ensures Without(Without(rows, a), b) == Without(rows, a + b)
  {
    if rows != [] {
      WithoutTwice(rows[1..], a, b);
      var rest := Without(rows[1..], a);
      if rows[0].id !in a { assert ([rows[0]] + rest)[1..] == rest; }
    }
  }

  lemma {:induction false} WithoutNone(rows: seq<Room>, dead: set<RoomId>)
    requires Ids(rows) !! dead
    ensures Without(rows, dead) == rows
  {
    if rows != [] {
      assert rows[0].id in Ids(rows) && Ids(rows[1..]) <= Ids(rows);
      WithoutNone(rows[1..], dead);
    }
  }

  lemma ValidTail(rows: seq<Room>)
    requires Valid(rows) && rows != []
    ensures Valid(rows[1..])
    ensures forall r :: r in rows[1..] ==> rows[0].createdAt >= r.createdAt && rows[0].id != r.id
  {
  }

  lemma ValidCons(room: Room, rest: seq<Room>)
    requires Valid(rest) && forall r :: r in rest ==> room.createdAt >= r.createdAt && room.id != r.id
    ensures Valid([room] + rest)
  {
    var out := [room] + rest;
    forall i, j | 0 <= i < j < |out| ensures out[i].createdAt >= out[j].createdAt && out[i].id != out[j].id {
      assert out[j] == rest[j - 1] && rest[j - 1] in rest;
    }
  }

  lemma {:induction false} WithoutValid(rows: seq<Room>, dead: set<RoomId>)
    requires Valid(rows)
    ensures Valid(Without(rows, dead))
  {
    if rows != [] {
      ValidTail(rows);
      WithoutValid(rows[1..], dead);
      WithoutIds(rows[1..], dead);
      if rows[0].id !in dead { ValidCons(rows[0], Without(rows[1..], dead)); }
    }
  }

  lemma {:induction false} InsertMembers(rows: seq<Room>, room: Room)
    ensures forall r :: r in Insert(rows, room) <==> r == room || r in rows
    ensures Ids(Insert(rows, room)) == Ids(rows) + {room.id}
  {
    if !(rows == [] || rows[0].createdAt <= room.createdAt) {
      assert rows == [rows[0]] + rows[1..];
      InsertMembers(rows[1..], room);
    }
  }

  lemma {:induction false} InsertValid(rows: seq<Room>, room: Room)
    requires Valid(rows) && room.id !in Ids(rows)
    ensures Valid(Insert(rows, room))
  {
    if rows != [] {
      ValidTail(rows);
      assert Ids(rows[1..]) <= Ids(rows) && rows[0] in rows;
    }
    if rows == [] || rows[0].createdAt <= room.createdAt {
      ValidCons(room, rows);
    } else {
      InsertValid(rows[1..], room);
      InsertMembers(rows[1..], room);
      ValidCons(rows[0], Insert(rows[1..], room));
    }
  }

  class Table {
    var rows: seq<Room>

    constructor ()
      ensures rows == [] && Valid(rows)
    {
      rows := [];
    }

    /** False is a key conflict. */
    method Create(room: Room) returns (ok: bool)
      requires Valid(rows)
      modifies this
      ensures Valid(rows) && ok == (room.id !in old(Ids(rows)))
      ensures rows == if ok then Insert(old(rows), room) else old(rows)
    {
      if room.id in Ids(rows) { return false; }
      InsertValid(rows, room);
      rows := Insert(rows, room);
      ok := true;
    }

    /** False is "not found". */
    method Delete(id: RoomId) returns (ok: bool)
      requires Valid(rows)
      modifies this
      ensures Valid(rows) && ok == (id in old(Ids(rows)))
      ensures rows == Without(old(rows), {id}) && Ids(rows) == old(Ids(rows)) - {id}
    {
      ok := id in Ids(rows);
      WithoutIds(rows, {id});
      WithoutValid(rows, {id});
      rows := Without(rows, {id});
    }

    /** One page, newest rows first, and the number of rows there are. */
    method List(limit: int, offset: int) returns (page: seq<Room>, total: nat)
      ensures page == Page(rows, limit, offset) && total == |rows|
      // the rows from the offset on, at most as many as asked for, or 50 if that is not between 1 and 100
      ensures var n, from := if 1 <= limit <= 100 then limit else 50, if offset < 0 then 0 else offset;
        && |page| == (if from >= |rows| then 0 else if |rows| - from <= n then |rows| - from else n)
        && forall i :: 0 <= i < |page| ==> page[i] == rows[from + i]
    {
      total := |rows|;
      var (n, from) := NormalizePage(limit, offset);
      page := [];
      while |page| < n && from + |page| < |rows|
        invariant |page| <= n && (from + |page| <= |rows| || page == [])
        invariant forall i :: 0 <= i < |page| ==> page[i] == rows[from + i]
        decreases n - |page|
      {
        page := page + [rows[from + |page|]];
      }
    }
  }
}
