/** A Redis sorted set: members in rank order, by score and then by member. */
module SortedSet {

  datatype Scored = Scored(score: int, id: nat)

  predicate Below(a: Scored, b: Scored) {
    a.score < b.score || (a.score == b.score && a.id < b.id)
  }

  function Ids(z: seq<Scored>): set<nat> {
    set m | m in z :: m.id
  }

  /** Ranked: strictly increasing, and no member twice. */
  ghost predicate Valid(z: seq<Scored>) {
    && (forall i, j :: 0 <= i < j < |z| ==> Below(z[i], z[j]))
    && (forall i, j :: 0 <= i < j < |z| ==> z[i].id != z[j].id)
  }

  /** ZREM */
  function Rem(z: seq<Scored>, id: nat): seq<Scored> {
    if z == [] then [] else if z[0].id == id then Rem(z[1..], id) else [z[0]] + Rem(z[1..], id)
  }

  function Insert(z: seq<Scored>, m: Scored): seq<Scored> {
    if z == [] || Below(m, z[0]) then [m] + z else [z[0]] + Insert(z[1..], m)
  }

  /** ZADD: a member already present only changes its score. */
  function Add(z: seq<Scored>, score: int, id: nat): seq<Scored> {
    Insert(Rem(z, id), Scored(score, id))
  }

  /** ZRANGE 0 n-1 */
  function Range(z: seq<Scored>, n: nat): seq<Scored> {
    if |z| <= n then z else z[..n]
  }

  /** ZRANGE gives the n lowest-ranked members in rank order, or all there are. */
  ghost predicate LowestRanked(z: seq<Scored>, n: nat, r: seq<Scored>) {
    && |r| <= n && (|r| < n ==> |r| == |z|)
    && (forall i, j :: 0 <= i < j < |r| ==>
          r[i].score < r[j].score || (r[i].score == r[j].score && r[i].id < r[j].id))
    && (forall m :: m in r ==> m in z)
    && (forall m, k :: m in r && k in z && k !in r ==> m.score < k.score || (m.score == k.score && m.id < k.id))
  }

  lemma RangeSpec(z: seq<Scored>, n: nat)
    requires Valid(z)
    ensures LowestRanked(z, n, Range(z, n))
  {
    var r := Range(z, n);
    assert forall x :: 0 <= x < |r| ==> r[x] == z[x];
    forall m, k | m in r && k in z && k !in r ensures Below(m, k) {
      var i :| 0 <= i < |r| && r[i] == m;
      var j :| 0 <= j < |z| && z[j] == k;
      assert z[i] == m;
    }
  }

  lemma {:induction false} RemMembers(z: seq<Scored>, id: nat)
    ensures forall m :: m in Rem(z, id) <==> m in z && m.id != id
  {
    if z != [] {
      RemMembers(z[1..], id);
      assert z == [z[0]] + z[1..];
    }
  }

  lemma {:induction false} RemAbsent(z: seq<Scored>, id: nat)
    requires id !in Ids(z)
    ensures Rem(z, id) == z
  {
    if z != [] {
      assert z[0] in z && forall m :: m in z[1..] ==> m in z;
      RemAbsent(z[1..], id);
    }
  }

  lemma ValidTail(z: seq<Scored>)
    requires Valid(z) && z != []
    ensures Valid(z[1..])
    ensures forall m :: m in z[1..] ==> Below(z[0], m) && z[0].id != m.id
    ensures z[0].id !in Ids(z[1..])
  {
  }

  lemma ValidCons(m: Scored, z: seq<Scored>)
    requires Valid(z)
    requires forall n :: n in z ==> Below(m, n) && m.id != n.id
    ensures Valid([m] + z)
  {
    var w := [m] + z;
    forall i, j | 0 <= i < j < |w| ensures Below(w[i], w[j]) && w[i].id != w[j].id {
      assert w[j] == z[j - 1] && z[j - 1] in z;
      if i > 0 { assert w[i] == z[i - 1]; }
    }
  }

  /** ZREM removes exactly the named member and keeps the ranking of the rest. */
  lemma {:induction false} RemSpec(z: seq<Scored>, id: nat)
    requires Valid(z)
    ensures Valid(Rem(z, id)) && Ids(Rem(z, id)) == Ids(z) - {id}
    ensures forall m :: m in Rem(z, id) <==> m in z && m.id != id
    ensures |Rem(z, id)| == |z| - (if id in Ids(z) then 1 else 0)
  {
    RemMembers(z, id);
    if z != [] {
      ValidTail(z);
      RemSpec(z[1..], id);
      RemMembers(z[1..], id);
      assert Ids(z) == {z[0].id} + Ids(z[1..]) by { assert z == [z[0]] + z[1..]; }
      if z[0].id == id {
        RemAbsent(z[1..], id);
      } else {
        ValidCons(z[0], Rem(z[1..], id));
      }
    }
  }

  lemma {:induction false} InsertMembers(z: seq<Scored>, m: Scored)
    ensures forall n :: n in Insert(z, m) <==> n == m || n in z
    ensures |Insert(z, m)| == |z| + 1
  {
    if !(z == [] || Below(m, z[0])) {
      InsertMembers(z[1..], m);
      assert z == [z[0]] + z[1..];
    }
  }

  lemma {:induction false} InsertSpec(z: seq<Scored>, m: Scored)
    requires Valid(z) && m.id !in Ids(z)
    ensures Valid(Insert(z, m)) && Ids(Insert(z, m)) == Ids(z) + {m.id}
    ensures |Insert(z, m)| == |z| + 1
  {
    InsertMembers(z, m);
    forall n | n in z ensures m.id != n.id { assert n.id in Ids(z); }
    if z == [] {
    } else if Below(m, z[0]) {
      ValidTail(z);
      ValidCons(m, z);
    } else {
      ValidTail(z);
      assert Ids(z[1..]) <= Ids(z);
      InsertSpec(z[1..], m);
      InsertMembers(z[1..], m);
      assert z[0] in z;
      ValidCons(z[0], Insert(z[1..], m));
    }
  }

  /** ZADD keeps the ranking, adds exactly the named member, and never stores it twice. */
  lemma AddSpec(z: seq<Scored>, score: int, id: nat)
    requires Valid(z)
    ensures Valid(Add(z, score, id)) && Ids(Add(z, score, id)) == Ids(z) + {id}
    ensures |Add(z, score, id)| == |z| + (if id in Ids(z) then 0 else 1)
    ensures forall m :: m in Add(z, score, id) <==> m == Scored(score, id) || (m in z && m.id != id)
  {
    RemSpec(z, id);
    RemMembers(z, id);
    InsertSpec(Rem(z, id), Scored(score, id));
    InsertMembers(Rem(z, id), Scored(score, id));
  }

  /** ZCARD counts distinct members. */
  lemma {:induction false} CardIds(z: seq<Scored>)
    requires Valid(z)
    ensures |Ids(z)| == |z|
  {
    if z != [] {
      ValidTail(z);
      CardIds(z[1..]);
      var rest := Ids(z[1..]);
      assert Ids(z) == {z[0].id} + rest by { assert z == [z[0]] + z[1..]; }
      assert |{z[0].id} + rest| == 1 + |rest|;
    }
  }

  /** ZREM of a member found at a known rank. */
  lemma {:induction false} RemAt(before: seq<Scored>, m: Scored, after: seq<Scored>)
    requires Valid(before + [m] + after)
    ensures Rem(before + [m] + after, m.id) == before + after
  {
    var z := before + [m] + after;
    if before == [] {
      assert z == [m] + after;
      ValidTail(z);
      RemAbsent(after, m.id);
    } else {
      assert z[1..] == before[1..] + [m] + after;
      ValidTail(z);
      RemAt(before[1..], m, after);
      assert z[0].id != m.id by { assert z[|before|] == m; }
    }
  }
}
