/** Stored playback state, and its projection to a moment in time. Seconds are reals. */
module PlaybackProjection {
  import opened Common
  import opened PlaybackQueue

  datatype Action = Play | Pause | Seek | Next | Switch

  datatype RoomState = RoomState(
    videoId: VideoId, queue: seq<VideoId>, action: Action, position: real, mode: Mode,
    duration: real, version: int, updatedBy: UserId, updatedAt: real, baseUpdatedAt: real)

  function ClampPos(pos: real, duration: real): real {
    if pos < 0.0 then 0.0 else if duration > 0.0 && pos > duration then duration else pos
  }

  /** The position at a moment, and whether the end of the video was reached. */
  function ProjectedPlayback(s: RoomState, now: real, duration: real): (real, bool) {
    if s.action != Play then (ClampPos(s.position, duration), false)
    else
      var elapsed := if now - s.updatedAt < 0.0 then 0.0 else now - s.updatedAt;
      var pos := s.position + elapsed;
      if duration > 0.0 && pos >= duration then (duration, true) else (ClampPos(pos, duration), false)
  }

  /** hub.go projectState */
  function Project(base: RoomState, now: real): RoomState {
    var (pos, atEnd) := ProjectedPlayback(base, now, base.duration);
    var out := base.(position := pos, updatedAt := now, baseUpdatedAt := base.updatedAt);
    if atEnd && base.duration > 0.0 then
      match NextVideoAfterEnd(base.videoId, base.queue, base.mode)
      case Some(next) => out.(videoId := next, position := 0.0, action := Pause, duration := 0.0)
      case None => out.(action := Pause, position := base.duration)
    else out
  }

  predicate SameButBase(a: RoomState, b: RoomState) {
    a.(baseUpdatedAt := 0.0) == b.(baseUpdatedAt := 0.0)
  }

  /** Looking at t1 on the way does not change what is seen at t2. */
  predicate FlowsThrough(s: RoomState, t1: real, t2: real) {
    SameButBase(Project(Project(s, t1), t2), Project(s, t2))
  }

  // ---------------------------------------------------------------- in seconds

  /** While it plays within the video, a second of time is a second of video, and nothing else changes. */
  lemma PlaysAtClockSpeed(s: RoomState, now: real)
    requires s.action == Play && s.position >= 0.0 && s.updatedAt <= now
    requires s.duration <= 0.0 || s.position + (now - s.updatedAt) < s.duration
    ensures Project(s, now)
         == s.(position := s.position + (now - s.updatedAt), updatedAt := now, baseUpdatedAt := s.updatedAt)
  {
  }

  /** At the end of the video the next one waits at its start, or, if there is none, this one at its end. */
  lemma EndsAtDuration(s: RoomState, now: real)
    requires s.action == Play && s.updatedAt <= now && s.position + (now - s.updatedAt) >= s.duration > 0.0
    ensures var p := Project(s, now);
      && p.action == Pause && p.queue == s.queue && p.mode == s.mode && p.version == s.version
      && p.updatedBy == s.updatedBy && p.updatedAt == now && p.baseUpdatedAt == s.updatedAt
      && (s.videoId !in s.queue ==> p.videoId == s.videoId && p.position == p.duration == s.duration)
      && forall k: nat :: StandsFirst(s.queue, s.videoId, k) ==>
           if k + 1 < |s.queue| || s.mode == Loop then
             p.videoId == s.queue[if k + 1 < |s.queue| then k + 1 else 0] && p.position == p.duration == 0.0
           else
             p.videoId == s.videoId && p.position == p.duration == s.duration
  {
    forall k: nat | StandsFirst(s.queue, s.videoId, k) ensures IndexOf(s.queue, s.videoId) == Some(k) {
      FirstAt(s.queue, s.videoId, k);
    }
  }

  /** What does not play stays where it is, within the video; a clock that is behind does not rewind. */
  lemma StaysPut(s: RoomState, now: real)
    requires s.action != Play || now <= s.updatedAt
    requires s.action != Play || s.duration <= 0.0 || s.position < s.duration
    ensures var at := if s.position < 0.0 then 0.0
                      else if s.duration > 0.0 && s.position > s.duration then s.duration else s.position;
      Project(s, now) == s.(position := at, updatedAt := now, baseUpdatedAt := s.updatedAt)
  {
  }

  /** A video that plays from p ends after exactly duration - p seconds. */
  lemma StopsExactlyWhenOver(s: RoomState, now: real)
    requires s.action == Play && s.duration > 0.0 && 0.0 <= s.position < s.duration
    ensures Project(s, now).action == Pause <==> now - s.updatedAt >= s.duration - s.position
  {
    if now - s.updatedAt >= s.duration - s.position {
      EndsAtDuration(s, now);
    } else if now >= s.updatedAt {
      PlaysAtClockSpeed(s, now);
    } else {
      StaysPut(s, now);
    }
  }

  // ---------------------------------------------------------------- as a flow

  /** The projection never leaves the video. */
  lemma ProjectionStaysInVideo(s: RoomState, now: real)
    ensures var p := Project(s, now);
      p.position >= 0.0 && (p.duration > 0.0 ==> p.position <= p.duration)
  {
  }

  lemma ProjectionFlows(s: RoomState, t1: real, t2: real)
    requires s.action != Play || s.position >= 0.0
    requires s.updatedAt <= t1 <= t2
    ensures FlowsThrough(s, t1, t2)
  {
    var p1 := Project(s, t1);
    if s.action == Play && !(s.duration > 0.0 && s.position + (t1 - s.updatedAt) >= s.duration) {
      assert p1 == s.(position := s.position + (t1 - s.updatedAt), updatedAt := t1, baseUpdatedAt := s.updatedAt);
    }
  }

  /**
   Projection is a flow in time, across the end of a video included, exactly for states
   that do not play from a negative position (which a control may store).
   */
  lemma ProjectionFlowsIff(s: RoomState)
    ensures (forall t1, t2 :: s.updatedAt <= t1 <= t2 ==> FlowsThrough(s, t1, t2))
       <==> (s.action == Play ==> s.position >= 0.0)
  {
    if s.action != Play || s.position >= 0.0 {
      forall t1, t2 | s.updatedAt <= t1 <= t2 ensures FlowsThrough(s, t1, t2) { ProjectionFlows(s, t1, t2); }
    } else {
      var t := s.updatedAt - s.position;
      assert Project(s, s.updatedAt).position == 0.0;
      assert Project(s, t).position == 0.0 && Project(s, t).action == Play;
      assert !FlowsThrough(s, s.updatedAt, t);
    }
  }
}
