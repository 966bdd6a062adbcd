/**
 Controls of one room under concurrency: ApplyControl reads the stored state, decides, and
 writes, and other controls may do the same in between. The version is meant to count them.
 */
module ControlInterleaving {
  import opened Common
  import opened PlaybackProjection
  import Playback = PlaybackControl

  /** What a control read, and how many writes there had been; clean as in State, at that time. */
  datatype Reader = Reader(seen: Option<RoomState>, writes: nat, clean: bool)

  /** Histories: the number of writes, and whether each so far followed its own read at once. */
  datatype State = State(stored: Option<RoomState>, readers: map<nat, Reader>, writes: nat, clean: bool)

  const INIT := State(None, map[], 0, true)

  datatype Step = Read(p: nat) | Finish(p: nat, q: Playback.Request)

  predicate Enabled(s: State, step: Step) {
    if step.Read? then step.p !in s.readers else step.p in s.readers
  }

  function Execute(s: State, step: Step): State
    requires Enabled(s, step)
  {
    match step
    case Read(p) => s.(readers := s.readers[p := Reader(s.stored, s.writes, s.clean)])
    case Finish(p, q) =>
      var rd := s.readers[p];
      var result := Playback.Control(rd.seen, q.user, q.msg, q.now);
      if result.Written? then
        State(Some(result.state), s.readers - {p}, s.writes + 1, s.clean && rd.writes == s.writes)
      else s.(readers := s.readers - {p})
  }

  ghost predicate Legal(s: State, steps: seq<Step>)
    decreases |steps|
  {
    steps == [] || (Enabled(s, steps[0]) && Legal(Execute(s, steps[0]), steps[1..]))
  }

  ghost function Run(s: State, steps: seq<Step>): State
    requires Legal(s, steps)
    decreases |steps|
  {
    if steps == [] then s else Run(Execute(s, steps[0]), steps[1..])
  }

  function Version(st: Option<RoomState>): int {
    if st.Some? then st.value.version else 0
  }

  ghost predicate ReaderOk(s: State, rd: Reader) {
    && Version(rd.seen) <= rd.writes <= s.writes
    && (Version(rd.seen) == rd.writes <==> rd.clean)
    && (s.clean ==> rd.clean) && (rd.clean && rd.writes == s.writes ==> s.clean)
  }

  ghost predicate Inv(s: State) {
    && Version(s.stored) <= s.writes && (Version(s.stored) == s.writes <==> s.clean)
    && forall p :: p in s.readers ==> ReaderOk(s, s.readers[p])
  }

  lemma StepKeepsInv(s: State, step: Step)
    requires Inv(s) && Enabled(s, step)
    ensures Inv(Execute(s, step))
  {
    var s' := Execute(s, step);
    assert step.p in s.readers ==> ReaderOk(s, s.readers[step.p]);
    forall p | p in s'.readers ensures ReaderOk(s', s'.readers[p]) {
      if p != step.p { assert ReaderOk(s, s.readers[p]); }
    }
  }

  lemma {:induction false} RunKeepsInv(s: State, steps: seq<Step>)
    requires Inv(s) && Legal(s, steps)
    ensures Inv(Run(s, steps))
    decreases |steps|
  {
    hide Inv;
    if steps != [] {
      StepKeepsInv(s, steps[0]);
      RunKeepsInv(Execute(s, steps[0]), steps[1..]);
    }
  }

  /**
   In every interleaving the version never exceeds the number of controls written, and equals it
   exactly when no control was ever overwritten by one that had not seen it.
   */
  lemma VersionCountsWritesIffNoneUnseen(steps: seq<Step>)
    requires Legal(INIT, steps)
    ensures var s := Run(INIT, steps);
      Version(s.stored) <= s.writes && (Version(s.stored) == s.writes <==> s.clean)
  {
    RunKeepsInv(INIT, steps);
  }

  /** With nobody in between, reading and finishing is one control. */
  lemma AloneIsOneControl(s: State, p: nat, q: Playback.Request)
    requires p !in s.readers
    ensures var s' := Execute(Execute(s, Read(p)), Finish(p, q));
      s'.stored == Playback.Step(s.stored, q) && s'.readers == s.readers
  {
  }

  lemma RunFirst(s: State, step: Step, rest: seq<Step>)
    requires Enabled(s, step) && Legal(Execute(s, step), rest)
    ensures Legal(s, [step] + rest) && Run(s, [step] + rest) == Run(Execute(s, step), rest)
  {
    hide Execute, Enabled;
    assert ([step] + rest)[1..] == rest;
  }

  /** A permitted control that saw no state writes version 1. */
  lemma FirstVersion(s: State, p: nat, q: Playback.Request)
    requires p in s.readers && s.readers[p].seen == None && (q.user.isAdmin || q.user.isOwner)
    ensures var s' := Execute(s, Finish(p, q));
      s'.writes == s.writes + 1 && Version(s'.stored) == 1 && s'.readers == s.readers - {p}
  {
  }

  /** Two controls that read the same state are two writes and one version, whatever they are. */
  lemma OverlappingControlsLoseOne(a: Playback.Request, b: Playback.Request)
    requires (a.user.isAdmin || a.user.isOwner) && (b.user.isAdmin || b.user.isOwner)
    ensures var steps := [Read(0)] + ([Read(1)] + ([Finish(0, a)] + ([Finish(1, b)] + [])));
      && Legal(INIT, steps) && Run(INIT, steps).writes == 2 && Version(Run(INIT, steps).stored) == 1
  {
    hide Playback.Control;
    var s1 := Execute(INIT, Read(0));
    var s2 := Execute(s1, Read(1));
    var s3 := Execute(s2, Finish(0, a));
    FirstVersion(s2, 0, a);
    FirstVersion(s3, 1, b);
    RunFirst(s3, Finish(1, b), []);
    RunFirst(s2, Finish(0, a), [Finish(1, b)] + []);
    RunFirst(s1, Read(1), [Finish(0, a)] + ([Finish(1, b)] + []));
    RunFirst(INIT, Read(0), [Read(1)] + ([Finish(0, a)] + ([Finish(1, b)] + [])));
  }
}
