/** How the play queue advances: the two next-item rules, and the walks they generate. */
module PlaybackQueue {
  import opened Common

  type VideoId = string

  /** A stored mode may also be empty; everything but loop then behaves as sequential. */
  datatype Mode = Unset | Sequential | Loop

  /** The first position of v, or None. */
  function IndexOf(queue: seq<VideoId>, v: VideoId): (k: Option<nat>)
    ensures k.Some? ==> k.value < |queue| && queue[k.value] == v && v !in queue[..k.value]
    ensures k.None? ==> v !in queue
  {
    if queue == [] then None
    else if queue[0] == v then Some(0)
    else
      assert queue == [queue[0]] + queue[1..];
      match IndexOf(queue[1..], v)
      case None => None
      case Some(k) =>
        assert queue[..k + 1] == [queue[0]] + queue[1..][..k];
        Some(k + 1)
  }

  /** v stands at position k, and nowhere before. */
  predicate StandsFirst(queue: seq<VideoId>, v: VideoId, k: nat) {
    k < |queue| && queue[k] == v && v !in queue[..k]
  }

  lemma FirstAt(queue: seq<VideoId>, v: VideoId, k: nat)
    requires StandsFirst(queue, v, k)
    ensures IndexOf(queue, v) == Some(k)
  {
    forall m | k < m <= |queue| ensures v in queue[..m] { assert queue[..m][k] == v; }
    forall m | 0 <= m < k ensures queue[m] != v { assert queue[..k][m] == queue[m]; }
  }

  function Successor(queue: seq<VideoId>, idx: nat, mode: Mode): Option<VideoId>
    requires idx < |queue|
  {
    match mode
    case Loop => Some(queue[if idx + 1 >= |queue| then 0 else idx + 1])
    case _ => if idx + 1 >= |queue| then None else Some(queue[idx + 1])
  }

  /** project.go: what plays when the current video ends by itself. */
  function NextVideoAfterEnd(current: VideoId, queue: seq<VideoId>, mode: Mode): Option<VideoId> {
    match IndexOf(queue, current)
    case None => None
    case Some(idx) => Successor(queue, idx, mode)
  }

  /** hub.go: what a "next" control selects. */
  function NextInQueue(current: VideoId, queue: seq<VideoId>, mode: Mode): Option<VideoId> {
    if queue == [] then None
    else match IndexOf(queue, current)
      case None => Some(queue[0])
      case Some(idx) => Successor(queue, idx, mode)
  }

  /** The two rules agree exactly when the current video is in the queue, or there is no queue. */
  lemma RulesAgreeIffQueued(current: VideoId, queue: seq<VideoId>, mode: Mode)
    ensures NextInQueue(current, queue, mode) == NextVideoAfterEnd(current, queue, mode)
       <==> current in queue || queue == []
  {
  }

  // ---------------------------------------------------------------- walks

  /** The video playing after n advances from the head of the queue; None once it has ended. */
  function Walk(queue: seq<VideoId>, mode: Mode, n: nat): Option<VideoId>
    requires queue != []
  {
    if n == 0 then Some(queue[0])
    else match Walk(queue, mode, n - 1)
      case None => None
      case Some(v) => NextVideoAfterEnd(v, queue, mode)
  }

  ghost predicate Distinct(queue: seq<VideoId>) {
    forall i, j :: 0 <= i < j < |queue| ==> queue[i] != queue[j]
  }

  /** The first repeat: queue[k] already stood at j, and everything before k is distinct. */
  ghost predicate FirstRepeat(queue: seq<VideoId>, j: nat, k: nat) {
    j < k < |queue| && queue[j] == queue[k] && Distinct(queue[..k])
  }

  lemma DistinctIndex(queue: seq<VideoId>, upto: nat, i: nat)
    requires i < upto <= |queue| && Distinct(queue[..upto])
    ensures IndexOf(queue, queue[i]) == Some(i)
  {
    forall m | 0 <= m < i ensures queue[m] != queue[i] { assert queue[..upto][m] != queue[..upto][i]; }
    FirstAt(queue, queue[i], i);
  }

  /** Without repeats a sequential walk plays each item once, in order, and ends. */
  lemma {:induction false} SequentialWalk(queue: seq<VideoId>, mode: Mode, n: nat)
    requires queue != [] && Distinct(queue) && mode != Loop
    ensures Walk(queue, mode, n) == if n < |queue| then Some(queue[n]) else None
  {
    if n > 0 {
      SequentialWalk(queue, mode, n - 1);
      if n - 1 < |queue| {
        assert queue[..|queue|] == queue;
        DistinctIndex(queue, |queue|, n - 1);
      }
    }
  }

  lemma LoopStep(queue: seq<VideoId>, i: nat)
    requires Distinct(queue) && i < |queue|
    ensures NextVideoAfterEnd(queue[i], queue, Loop) == Some(queue[if i + 1 == |queue| then 0 else i + 1])
  {
    assert queue[..|queue|] == queue;
    DistinctIndex(queue, |queue|, i);
  }

  /** Without repeats a looping walk is one cycle through the whole queue. */
  lemma {:induction false} LoopWalk(queue: seq<VideoId>, n: nat)
    requires queue != [] && Distinct(queue)
    ensures Walk(queue, Loop, n) == Some(queue[Place(n, |queue|)])
  {
    hide NextVideoAfterEnd, Distinct;
    if n > 0 {
      LoopWalk(queue, n - 1);
      PlaceStep(n - 1, |queue|);
      LoopStep(queue, Place(n - 1, |queue|));
    }
  }

  /** Where one is after n steps round a circle of m places. */
  function Place(n: nat, m: nat): (i: nat)
    requires m > 0
    ensures i < m
  {
    if n < m then n else Place(n - m, m)
  }

  lemma OnceRound(n: nat, m: nat)
    requires m > 0
    ensures Place(n + m, m) == Place(n, m)
  {
  }

  lemma {:induction false} PlaceStep(n: nat, m: nat)
    requires m > 0
    ensures Place(n + 1, m) == if Place(n, m) + 1 == m then 0 else Place(n, m) + 1
  {
    if n >= m { PlaceStep(n - m, m); }
  }

  lemma {:induction false} PlaceIsRemainder(n: nat, m: nat)
    requires m > 0
    ensures Place(n, m) == n % m
  {
    if n < m {
      ModuloUnique(n, m, 0, n);
    } else {
      PlaceIsRemainder(n - m, m);
      ModuloUnique(n, m, (n - m) / m + 1, (n - m) % m);
    }
  }

  lemma ModuloUnique(n: nat, m: nat, q: int, r: nat)
    requires m > 0 && n == q * m + r && r < m
    ensures n % m == r
  {
    var d := n / m - q;
    assert d * m == r - n % m;
    if d > 0 {
      AtLeastOnce(d, m);
    } else if d < 0 {
      AtLeastOnce(-d, m);
    }
  }

  lemma AtLeastOnce(d: nat, m: nat)
    requires d > 0
    ensures d * m >= m
  {
    assert (d - 1) * m >= 0;
  }

  /** The position a walk is at after n advances when queue[j] comes back at k. */
  function CyclePosition(j: nat, k: nat, n: nat): (i: nat)
    requires j < k
    ensures i < k
  {
    if n < k then n else j + Place(n - j, k - j)
  }

  lemma CycleStep(j: nat, k: nat, n: nat)
    requires j < k
    ensures CyclePosition(j, k, n + 1)
         == if CyclePosition(j, k, n) + 1 == k then j else CyclePosition(j, k, n) + 1
  {
    if n + 1 < k {
    } else if n < k {
      assert Place(n + 1 - j, k - j) == Place(0, k - j);
    } else {
      PlaceStep(n - j, k - j);
    }
  }

  lemma RepeatStep(queue: seq<VideoId>, mode: Mode, j: nat, k: nat, i: nat)
    requires FirstRepeat(queue, j, k) && i < k
    ensures NextVideoAfterEnd(queue[i], queue, mode) == Some(queue[if i + 1 == k then j else i + 1])
  {
    DistinctIndex(queue, k, i);
  }

  /**
   With a first repeat at k of the item at j, in either mode, a walk plays queue[..k] once and
   then goes round queue[j..k] for ever: it never ends and never gets beyond k.
   */
  lemma {:induction false} RepeatWalk(queue: seq<VideoId>, mode: Mode, j: nat, k: nat, n: nat)
    requires FirstRepeat(queue, j, k)
    ensures Walk(queue, mode, n) == Some(queue[CyclePosition(j, k, n)])
  {
    hide NextVideoAfterEnd, Distinct;
    if n > 0 {
      RepeatWalk(queue, mode, j, k, n - 1);
      RepeatStep(queue, mode, j, k, CyclePosition(j, k, n - 1));
      CycleStep(j, k, n - 1);
    }
  }

  lemma {:induction false} FindFirstRepeat(queue: seq<VideoId>) returns (j: nat, k: nat)
    requires !Distinct(queue)
    ensures FirstRepeat(queue, j, k)
    decreases |queue|
  {
    var init := queue[..|queue| - 1];
    if Distinct(init) {
      var a, b :| 0 <= a < b < |queue| && queue[a] == queue[b];
      assert forall i, m :: 0 <= i < m < |init| ==> init[i] == queue[i] && init[m] == queue[m] && init[i] != init[m];
      j, k := a, b;
    } else {
      j, k := FindFirstRepeat(init);
      assert queue[..k] == init[..k];
    }
  }

  /** So a sequential walk ends exactly when nothing is queued twice. */
  lemma SequentialWalkEndsIffDistinct(queue: seq<VideoId>, mode: Mode)
    requires queue != [] && mode != Loop
    ensures (exists n :: Walk(queue, mode, n).None?) <==> Distinct(queue)
  {
    if Distinct(queue) {
      SequentialWalk(queue, mode, |queue|);
    } else {
      var j, k := FindFirstRepeat(queue);
      forall n: nat ensures Walk(queue, mode, n).Some? { RepeatWalk(queue, mode, j, k, n); }
    }
  }

  /** And with a first repeat at k it plays exactly the items before k. */
  lemma RepeatWalkVisits(queue: seq<VideoId>, mode: Mode, j: nat, k: nat, v: VideoId)
    requires FirstRepeat(queue, j, k)
    ensures (exists n :: Walk(queue, mode, n) == Some(v)) <==> v in queue[..k]
  {
    if v in queue[..k] {
      var i :| 0 <= i < k && queue[..k][i] == v;
      RepeatWalk(queue, mode, j, k, i);
    }
    if n: nat :| Walk(queue, mode, n) == Some(v) {
      RepeatWalk(queue, mode, j, k, n);
      assert queue[..k][CyclePosition(j, k, n)] == v;
    }
  }
}
