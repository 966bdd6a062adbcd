/** Playback controls: a versioned state per room, changed only by ApplyControl. */
module PlaybackControl {
  import opened Common
  import opened PlaybackQueue
  import opened PlaybackProjection

  datatype User = User(id: UserId, isAdmin: bool, isOwner: bool)

  datatype ControlInput = ControlInput(
    action: Action, position: real, videoId: string, queue: seq<VideoId>, mode: Mode,
    clientVersion: int, duration: real)

  datatype Result = Forbidden | Stale | Written(state: RoomState)

  function ResolveDuration(msg: ControlInput, prev: Option<RoomState>, videoId: VideoId): real {
    if msg.duration > 0.0 then msg.duration
    else if prev.Some? && videoId != "" && videoId == prev.value.videoId && prev.value.duration > 0.0 then
      prev.value.duration
    else 0.0
  }

  function ResolveMode(msg: ControlInput, prev: Option<RoomState>): Mode {
    if msg.mode != Unset then msg.mode
    else if prev.Some? && prev.value.mode != Unset then prev.value.mode
    else Sequential
  }

  /** The queue the control works on: its own, or for "next" the stored one when it has none. */
  function ControlQueue(msg: ControlInput, prev: Option<RoomState>): seq<VideoId> {
    if msg.action == Next && msg.queue == [] && prev.Some? then prev.value.queue else msg.queue
  }

  /** The item a "next" control moves to, if there is one. */
  function Advance(msg: ControlInput, prev: Option<RoomState>): Option<VideoId> {
    if msg.action != Next then None
    else
      var given := TrimSpace(msg.videoId);
      NextInQueue(if given == "" && prev.Some? then prev.value.videoId else given,
                  ControlQueue(msg, prev), ResolveMode(msg, prev))
  }

  function ControlVideo(msg: ControlInput, prev: Option<RoomState>): VideoId {
    var given, queue := TrimSpace(msg.videoId), ControlQueue(msg, prev);
    match msg.action
    case Next => if Advance(msg, prev).Some? then Advance(msg, prev).value else given
    case Switch => if given == "" && queue != [] then queue[0] else given
    case _ => given
  }

  predicate IsStale(msg: ControlInput, prev: Option<RoomState>) {
    prev.Some? && 0 < msg.clientVersion < prev.value.version
  }

  function Control(prev: Option<RoomState>, user: User, msg: ControlInput, now: real): Result {
    if !user.isAdmin && !user.isOwner then Forbidden
    else if IsStale(msg, prev) then Stale
    else
      var video, queue := ControlVideo(msg, prev), ControlQueue(msg, prev);
      var moved := Advance(msg, prev).Some?;
      Written(RoomState(
        video, if queue == [] && video != "" then [video] else queue,
        if moved then Pause else msg.action, if moved then 0.0 else msg.position,
        ResolveMode(msg, prev), ResolveDuration(msg, prev, video),
        if prev.Some? then prev.value.version + 1 else 1, user.id, now, 0.0))
  }

  // ---------------------------------------------------------------- what an accepted control stores

  /** The state has this action, position and video, and this queue, or just the video if that is empty. */
  predicate Shows(st: RoomState, action: Action, position: real, video: VideoId, queue: seq<VideoId>) {
    && st.action == action && st.position == position && st.videoId == video
    && st.queue == if queue == [] && video != "" then [video] else queue
  }

  /** Where a "next" goes from a current video in a queue: on, round in a loop, to the first if it is not queued. */
  ghost predicate GoesTo(queue: seq<VideoId>, current: VideoId, mode: Mode, next: VideoId) {
    && queue != []
    && (current !in queue ==> next == queue[0])
    && forall k: nat :: StandsFirst(queue, current, k) ==>
         if k + 1 < |queue| then next == queue[k + 1] else mode == Loop && next == queue[0]
  }

  /** What a control asks for, in terms of what was stored before and what it sent. */
  ghost predicate StoredAs(prev: Option<RoomState>, user: User, input: ControlInput, now: real, st: RoomState) {
    var given := TrimSpace(input.videoId);
    && st.updatedBy == user.id && st.updatedAt == now
    && st.version == (if prev.Some? then prev.value.version + 1 else 1)
    && st.mode == (if input.mode != Unset then input.mode
                   else if prev.Some? && prev.value.mode != Unset then prev.value.mode else Sequential)
    && st.duration == (if input.duration > 0.0 then input.duration
                       else if prev.Some? && st.videoId != "" && st.videoId == prev.value.videoId && prev.value.duration > 0.0
                         then prev.value.duration else 0.0)
    && match input.action
       case Switch => Shows(st, Switch, input.position, if given == "" && input.queue != [] then input.queue[0] else given, input.queue)
       case Next =>
         var current := if given == "" && prev.Some? then prev.value.videoId else given;
         var queue := if input.queue == [] && prev.Some? then prev.value.queue else input.queue;
         if exists next :: GoesTo(queue, current, st.mode, next) then
           GoesTo(queue, current, st.mode, st.videoId) && Shows(st, Pause, 0.0, st.videoId, queue)
         else
           Shows(st, Next, input.position, given, queue)
       case _ => Shows(st, input.action, input.position, given, input.queue)
  }

  lemma NextGoesTo(queue: seq<VideoId>, current: VideoId, mode: Mode)
    ensures var next := NextInQueue(current, queue, mode);
      forall v :: GoesTo(queue, current, mode, v) <==> next == Some(v)
  {
    if queue != [] && current in queue {
      var i := IndexOf(queue, current).value;
      assert StandsFirst(queue, current, i);
      forall k: nat | StandsFirst(queue, current, k) ensures k == i { FirstAt(queue, current, k); }
    }
  }

  lemma WrittenIsStored(prev: Option<RoomState>, user: User, input: ControlInput, now: real)
    requires Control(prev, user, input, now).Written?
    ensures StoredAs(prev, user, input, now, Control(prev, user, input, now).state)
  {
    var st := Control(prev, user, input, now).state;
    var given := TrimSpace(input.videoId);
    var current := if given == "" && prev.Some? then prev.value.videoId else given;
    var queue := if input.queue == [] && prev.Some? then prev.value.queue else input.queue;
    NextGoesTo(queue, current, st.mode);
    hide GoesTo, NextInQueue, IsStale;
    assert st.mode == ResolveMode(input, prev) && st.duration == ResolveDuration(input, prev, st.videoId);
  }

  class Service {
    var states: map<RoomId, RoomState>

    function State(room: RoomId): Option<RoomState>
      reads this
    {
      if room in states then Some(states[room]) else None
    }

    constructor ()
      ensures states == map[]
    {
      states := map[];
    }

    /** The switch over the action in ApplyControl. */
    method Select(prev: Option<RoomState>, input: ControlInput, mode: Mode)
      returns (videoId: VideoId, queue: seq<VideoId>, msg: ControlInput)
      requires mode == ResolveMode(input, prev)
      ensures videoId == ControlVideo(input, prev) && queue == ControlQueue(input, prev)
      ensures msg == if Advance(input, prev).Some? then input.(position := 0.0, action := Pause) else input
    {
      msg, queue, videoId := input, input.queue, TrimSpace(input.videoId);
      match msg.action {
        case Next =>
          var baseVideo := videoId;
          if baseVideo == "" && prev.Some? { baseVideo := prev.value.videoId; }
          if |queue| == 0 && prev.Some? { queue := queue + prev.value.queue; }
          assert queue == ControlQueue(input, prev);
          var next := NextInQueue(baseVideo, queue, mode);
          if next.Some? {
            videoId := next.value;
            msg := msg.(position := 0.0, action := Pause);
          }
        case Switch =>
          if videoId == "" && |queue| > 0 { videoId := queue[0]; }
        case _ =>
      }
    }

    /**
     r is None for an error reading or storing the state. ok is false for that, for a refusal, and
     when the state is stored but its announcement fails.
     */
    method ApplyControl(room: RoomId, user: User, input: ControlInput, now: real, readOk: bool, writeOk: bool, publishOk: bool)
      returns (r: Option<Result>, ok: bool)
      modifies this
      ensures ok <==> r.Some? && r.value.Written? && publishOk
      ensures r.Some? ==> r.value == Control(old(State(room)), user, input, now)
      ensures states == if r.Some? && r.value.Written? then old(states)[room := r.value.state] else old(states)
      ensures ok ==> StoredAs(old(State(room)), user, input, now, states[room])
      ensures forall q :: q != room ==> State(q) == old(State(q))
      ensures r.Some? && r.value.Forbidden? <==> !user.isAdmin && !user.isOwner
      ensures r.None? <==> (user.isAdmin || user.isOwner)
                           && (!readOk || (!writeOk && Control(old(State(room)), user, input, now).Written?))
    {
      if !user.isAdmin && !user.isOwner { return Some(Forbidden), false; }
      if !readOk { return None, false; }
      var prev := State(room);
      if prev.Some? && input.clientVersion > 0 && input.clientVersion < prev.value.version { return Some(Stale), false; }
      var mode := Sequential;
      if prev.Some? && prev.value.mode != Unset { mode := prev.value.mode; }
      if input.mode == Sequential || input.mode == Loop { mode := input.mode; }
      var videoId, queue, msg := Select(prev, input, mode);
      if |queue| == 0 && videoId != "" { queue := [videoId]; }
      var version := 1;
      if prev.Some? { version := prev.value.version + 1; }
      var state := RoomState(videoId, queue, msg.action, msg.position, mode,
                             ResolveDuration(msg, prev, videoId), version, user.id, now, 0.0);
      if !writeOk { return None, false; }
      states := states[room := state];
      WrittenIsStored(prev, user, input, now);
      r, ok := Some(Written(state)), publishOk;
    }
  }

  // ---------------------------------------------------------------- runs of controls on one room

  datatype Request = Request(user: User, msg: ControlInput, now: real)

  /** What a written control leaves for the history: the video it stored and the duration it reported. */
  datatype Write = Write(video: VideoId, reported: real)

  function Step(st: Option<RoomState>, q: Request): Option<RoomState> {
    var r := Control(st, q.user, q.msg, q.now);
    if r.Written? then Some(r.state) else st
  }

  function After(st: Option<RoomState>, run: seq<Request>): Option<RoomState>
    decreases |run|
  {
    if run == [] then st else After(Step(st, run[0]), run[1..])
  }

  function WriteOf(st: Option<RoomState>, q: Request): seq<Write> {
    var r := Control(st, q.user, q.msg, q.now);
    if r.Written? then [Write(r.state.videoId, q.msg.duration)] else []
  }

  function Writes(st: Option<RoomState>, run: seq<Request>): seq<Write>
    decreases |run|
  {
    if run == [] then [] else WriteOf(st, run[0]) + Writes(Step(st, run[0]), run[1..])
  }

  /** Write i reported a duration, and every later one kept its video and reported none. */
  ghost predicate CarriedFrom(writes: seq<Write>, i: nat) {
    && i < |writes| && writes[i].reported > 0.0
    && forall j :: i < j < |writes| ==>
         writes[j].reported <= 0.0 && writes[j].video == writes[i].video && writes[j].video != ""
  }

  ghost predicate DurationOk(d: real, writes: seq<Write>) {
    && (forall i: nat :: CarriedFrom(writes, i) ==> d == writes[i].reported)
    && ((forall i: nat :: !CarriedFrom(writes, i)) ==> d == 0.0)
  }

  /** The stored state is what its history of written controls says. */
  ghost predicate HistoryOk(st: Option<RoomState>, writes: seq<Write>) {
    if writes == [] then st.None?
    else
      && st.Some? && st.value.version == |writes|
      && st.value.videoId == writes[|writes| - 1].video
      && DurationOk(st.value.duration, writes)
      && (st.value.videoId != "" ==> st.value.queue != [])
      && st.value.mode != Unset
  }

  lemma CarriedFromInit(writes: seq<Write>, w: Write, i: nat)
    requires i < |writes|
    ensures CarriedFrom(writes + [w], i)
       <==> CarriedFrom(writes, i) && w.reported <= 0.0 && w.video == writes[i].video && w.video != ""
  {
    var all := writes + [w];
    assert all[|writes|] == w;
    forall j | 0 <= j < |writes| ensures all[j] == writes[j] {}
  }

  lemma DurationStep(prev: RoomState, writes: seq<Write>, w: Write, d: real)
    requires writes != [] && HistoryOk(Some(prev), writes)
    requires d == if w.reported > 0.0 then w.reported
                  else if w.video != "" && w.video == prev.videoId && prev.duration > 0.0 then prev.duration else 0.0
    ensures DurationOk(d, writes + [w])
  {
    var all, n := writes + [w], |writes|;
    assert CarriedFrom(all, n) <==> w.reported > 0.0;
    forall i: nat | CarriedFrom(all, i) ensures d == all[i].reported {
      if i < n {
        CarriedFromInit(writes, w, i);
        assert prev.duration == writes[i].reported;
        assert prev.videoId == writes[i].video;
      }
    }
    if d != 0.0 && w.reported <= 0.0 {
      var i: nat :| CarriedFrom(writes, i);
      assert prev.videoId == writes[i].video;
      CarriedFromInit(writes, w, i);
      assert CarriedFrom(all, i);
    }
  }

  lemma StepKeepsHistory(st: Option<RoomState>, writes: seq<Write>, q: Request)
    requires HistoryOk(st, writes)
    ensures HistoryOk(Step(st, q), writes + WriteOf(st, q))
  {
    var r := Control(st, q.user, q.msg, q.now);
    if r.Written? {
      var w := Write(r.state.videoId, q.msg.duration);
      if writes == [] {
        assert CarriedFrom([w], 0) <==> w.reported > 0.0;
        assert writes + [w] == [w];
      } else {
        DurationStep(st.value, writes, w, r.state.duration);
      }
    } else {
      assert writes + [] == writes;
    }
  }

  /** The first request of a run. */
  lemma FirstStep(st: Option<RoomState>, before: seq<Write>, run: seq<Request>)
    returns (st1: Option<RoomState>, before1: seq<Write>)
    requires run != [] && HistoryOk(st, before)
    ensures After(st, run) == After(st1, run[1..]) && before + Writes(st, run) == before1 + Writes(st1, run[1..])
    ensures HistoryOk(st1, before1)
  {
    hide HistoryOk, Control, Step, WriteOf;
    st1, before1 := Step(st, run[0]), before + WriteOf(st, run[0]);
    StepKeepsHistory(st, before, run[0]);
  }

  lemma {:induction false} RunKeepsHistory(st: Option<RoomState>, before: seq<Write>, run: seq<Request>)
    requires HistoryOk(st, before)
    ensures HistoryOk(After(st, run), before + Writes(st, run))
    decreases |run|
  {
    hide HistoryOk, Control, Step, WriteOf;
    if run == [] {
      assert before + Writes(st, run) == before;
    } else {
      var st1, before1 := FirstStep(st, before, run);
      RunKeepsHistory(st1, before1, run[1..]);
    }
  }

  /**
   Over any run since the state was last absent: the version counts the written controls; the
   duration is the last one reported that every later control carried on, else 0; a stored
   video always has a queue.
   */
  lemma StateReflectsWrites(run: seq<Request>)
    ensures var st, writes := After(None, run), Writes(None, run);
      && (st.None? <==> writes == [])
      && (st.Some? ==>
            && st.value.version == |writes|
            && DurationOk(st.value.duration, writes)
            && (st.value.videoId != "" ==> st.value.queue != []))
  {
    RunKeepsHistory(None, [], run);
    assert [] + Writes(None, run) == Writes(None, run);
  }

  /** A refused control changes nothing, and is refused only for want of rights or an old version. */
  lemma RefusedIff(st: Option<RoomState>, q: Request)
    ensures (Control(st, q.user, q.msg, q.now).Written? <==>
              (q.user.isAdmin || q.user.isOwner)
              && (st.None? || q.msg.clientVersion <= 0 || q.msg.clientVersion >= st.value.version))
    ensures !Control(st, q.user, q.msg, q.now).Written? <==> Step(st, q) == st
  {
  }

  // ---------------------------------------------------------------- pressing next

  /** A "next" with nothing else in it, from somebody who may control the room. */
  predicate PlainNext(q: Request) {
    && (q.user.isAdmin || q.user.isOwner)
    && q.msg.action == Next && TrimSpace(q.msg.videoId) == "" && q.msg.queue == []
    && q.msg.mode == Unset && q.msg.clientVersion <= 0
  }

  /** A sequential queue of different, nonempty items, and one place more that stands for "no video". */
  ghost predicate OnQueue(st: Option<RoomState>, queue: seq<VideoId>, i: nat) {
    && queue != [] && Distinct(queue) && "" !in queue && i <= |queue|
    && st.Some? && st.value.queue == queue && st.value.mode != Loop
    && st.value.videoId == if i < |queue| then queue[i] else ""
  }

  lemma NextMovesOn(st: Option<RoomState>, queue: seq<VideoId>, i: nat, q: Request)
    requires OnQueue(st, queue, i) && PlainNext(q)
    ensures OnQueue(Step(st, q), queue, if i + 1 == |queue| + 1 then 0 else i + 1)
  {
    if i < |queue| {
      assert queue[..|queue|] == queue;
      DistinctIndex(queue, |queue|, i);
      assert queue[i] in queue;
    }
  }

  /** The place k controls further on. */
  function PlaceOn(i: nat, n: nat, k: nat): nat
    decreases k
  {
    if k == 0 then i else PlaceOn(if i + 1 == n then 0 else i + 1, n, k - 1)
  }

  lemma {:induction false} PlaceOnIsPlace(i: nat, n: nat, k: nat)
    requires i < n
    ensures PlaceOn(i, n, k) == Place(i + k, n)
    decreases k
  {
    if k > 0 {
      PlaceOnIsPlace(if i + 1 == n then 0 else i + 1, n, k - 1);
      if i + 1 == n { OnceRound(k - 1, n); }
    }
  }

  lemma FirstNext(st: Option<RoomState>, queue: seq<VideoId>, i: nat, run: seq<Request>)
    returns (st1: Option<RoomState>, i1: nat)
    requires OnQueue(st, queue, i) && run != [] && PlainNext(run[0])
    ensures After(st, run) == After(st1, run[1..])
    ensures i1 == (if i + 1 == |queue| + 1 then 0 else i + 1) && OnQueue(st1, queue, i1)
  {
    hide OnQueue, Control, Step, PlainNext;
    st1, i1 := Step(st, run[0]), if i + 1 == |queue| + 1 then 0 else i + 1;
    NextMovesOn(st, queue, i, run[0]);
  }

  lemma {:induction false} NextWalksOn(st: Option<RoomState>, queue: seq<VideoId>, i: nat, run: seq<Request>)
    requires OnQueue(st, queue, i) && forall k :: 0 <= k < |run| ==> PlainNext(run[k])
    ensures OnQueue(After(st, run), queue, PlaceOn(i, |queue| + 1, |run|))
    decreases |run|
  {
    hide OnQueue, Control, Step, PlainNext;
    if run != [] {
      var st1, i1 := FirstNext(st, queue, i, run);
      NextWalksOn(st1, queue, i1, run[1..]);
    }
  }

  /**
   Pressing next goes through the queue, stores no video once after the last item, and starts
   again: a cycle of n + 1 controls.
   */
  lemma NextCyclesThroughQueue(st: Option<RoomState>, queue: seq<VideoId>, i: nat, run: seq<Request>)
    requires OnQueue(st, queue, i) && forall k :: 0 <= k < |run| ==> PlainNext(run[k])
    ensures OnQueue(After(st, run), queue, Place(i + |run|, |queue| + 1))
  {
    hide After, Place, PlaceOn;
    NextWalksOn(st, queue, i, run);
    PlaceOnIsPlace(i, |queue| + 1, |run|);
  }
}
