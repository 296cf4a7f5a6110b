/**
 What lets a play through (arm/misterplexd/main.cpp).

 PlaySupersession bounds what may start. Here: a comparison or gate of doPlay turns a
 request away for the reasons the source names and for no other, and a request that
 nobody supersedes or stops does start its demux.
 */
module PlayProgress {
  import opened Options
  import opened PlaySupersession

  // ------------------------------------------------------------------ the comparisons

  /** In every run a queued request keeps the number it was queued under, and any other takes the next one. */
  lemma NumberIsTaken(states: seq<State>, acts: seq<Action>, i: nat, t: Tid)
    requires IsRun(states, acts) && i < |acts| && acts[i] == TakeNumber(t)
    ensures var s, s' := states[i], states[i + 1];
            && s'.threads[t].gen.Some? && s'.threads[t].pc == Numbered(s'.threads[t].gen.value)
            && (s.threads[t].gen.Some? ==> s'.threads[t].gen == s.threads[t].gen && s'.playGen == s.playGen)
            && (s.threads[t].gen.None? ==> s'.threads[t].gen.value == s.playGen + 1 == s'.playGen)
  {
    RunKeepsInv(states, acts, i);
    assert ThreadInv(states[i], t, states[i].threads[t]);
  }

  /** In every run doPlay's two comparisons return exactly when a newer generation was issued;
      otherwise the request goes on under its own generation, and nothing else changes. */
  lemma CheckDropsIffSuperseded(states: seq<State>, acts: seq<Action>, i: nat, t: Tid)
    requires IsRun(states, acts) && i < |acts| && acts[i] in {CheckEarly(t), CheckResolved(t)}
    ensures states[i].threads[t].gen.Some?
    ensures var s, g := states[i], states[i].threads[t].gen.value;
            var on := if acts[i].CheckEarly? then Resolving(g) else AtHandoff(g);
            states[i + 1] ==
              s.(threads := s.threads[t := s.threads[t].(pc := if g < s.playGen then Returned else on)])
  {
    RunKeepsInv(states, acts, i);
    assert ThreadInv(states[i], t, states[i].threads[t]);
  }

  /** In every run the request that gets playHandoffMu opens its section at the first gate. */
  lemma SectionOpens(states: seq<State>, acts: seq<Action>, i: nat, t: Tid)
    requires IsRun(states, acts) && i < |acts| && acts[i] == LockHandoff(t)
    ensures states[i].handoff == None && states[i + 1].handoff == Some(t) && states[i].threads[t].gen.Some?
    ensures states[i + 1].threads[t].pc == Committing(states[i].threads[t].gen.value, AspectGate)
  {
    RunKeepsInv(states, acts, i);
    assert ThreadInv(states[i], t, states[i].threads[t]);
  }

  // ------------------------------------------------------------------ the commit section

  /** The gate after taking the mutex, and the two calls that can fail before anything plays. */
  lemma RequestLeavesIff(states: seq<State>, acts: seq<Action>, i: nat, t: Tid, verdict: bool)
    requires IsRun(states, acts) && i < |acts| && acts[i] == Commit(t, verdict)
    ensures states[i].threads[t].gen.Some?
    ensures var s, pc, pc' := states[i], states[i].threads[t].pc, states[i + 1].threads[t].pc;
            var g := s.threads[t].gen.value;
            && (pc.stage.AspectGate? ==> pc' == if g < s.playGen || !verdict then Returned else Committing(g, StopPlayer))
            && (pc.stage.StopPlayer? ==> pc' == Committing(g, Aspect) && states[i + 1].playing == None)
            && (pc.stage.Aspect? ==> pc' == if !verdict then Returned else Committing(g, BindGate))
            && (pc.stage.Bind? ==> pc' == if !verdict then Returned else Committing(g, SeedGate))
  {
    RunKeepsInv(states, acts, i);
    assert ThreadInv(states[i], t, states[i].threads[t]);
  }

  /** In every run each gate from the one before binding on turns the request away exactly when a newer
      generation was issued or the companion no longer wants to play. */
  lemma GateLeavesIff(states: seq<State>, acts: seq<Action>, i: nat, t: Tid, verdict: bool)
    requires IsRun(states, acts) && i < |acts| && acts[i] == Commit(t, verdict)
    ensures states[i].threads[t].gen.Some?
    ensures var s, pc, pc' := states[i], states[i].threads[t].pc, states[i + 1].threads[t].pc;
            var g := s.threads[t].gen.value;
            var leaves := g < s.playGen || !s.wantPlay;
            && (pc.stage.BindGate? ==> pc' == if leaves then Returned else Committing(g, Bind))
            && (pc.stage.SeedGate? ==> pc' == if leaves then Returned else Committing(g, PlayGate))
            && (pc.stage.PlayGate? ==> pc' == if leaves then Returned else Committing(g, SessionGate))
            && (pc.stage.SessionGate? ==> pc' == if leaves then Returned else Committing(g, Start))
  {
    RunKeepsInv(states, acts, i);
    assert ThreadInv(states[i], t, states[i].threads[t]);
  }

  /** In every run a step of the section gives the mutex back exactly when it returns, adds a start exactly
      when player.play() was called and worked, and touches no counter and no latch. */
  lemma SectionStep(states: seq<State>, acts: seq<Action>, i: nat, t: Tid, verdict: bool)
    requires IsRun(states, acts) && i < |acts| && acts[i] == Commit(t, verdict)
    ensures states[i].threads[t].gen.Some?
    ensures var s, s', pc := states[i], states[i + 1], states[i].threads[t].pc;
            var g := s.threads[t].gen.value;
            && s'.handoff == (if s'.threads[t].pc == Returned then None else Some(t))
            && s'.starts == (if pc.stage.Start? && verdict then s.starts + [DemuxStart(g, t, s.threads[t].seek)] else s.starts)
            && (pc.stage.Start? ==> s'.threads[t].pc == Returned && s'.playing == if verdict then Some(g) else None)
            && (!pc.stage.Start? && !pc.stage.StopPlayer? ==> s'.playing == s.playing)
            && s'.playGen == s.playGen && s'.wantPlay == s.wantPlay
            && s'.seekGen == s.seekGen && s'.seekMu == s.seekMu && s'.seekRuns == s.seekRuns
  {
    RunKeepsInv(states, acts, i);
    assert ThreadInv(states[i], t, states[i].threads[t]);
  }

  /** Requests are never turned away at the door: a play without a number, a seek under the next ticket and a stop. */
  lemma RequestsAreTaken(s: State, t: Tid)
    requires t !in s.threads
    ensures Enabled(s, SpawnPlay(t)) && Apply(s, SpawnPlay(t)) == s.(threads := s.threads[t := Thread(Called(0), None, None)])
    ensures Enabled(s, IssueSeek(t)) && Apply(s, IssueSeek(t)).seekGen == s.seekGen + 1
    ensures Apply(s, IssueSeek(t)).threads == s.threads[t := Thread(SeekQueued(s.seekGen + 1), Some(s.seekGen + 1), None)]
    ensures Enabled(s, SpawnStop(t)) && !Apply(s, SpawnStop(t)).wantPlay
    ensures Apply(s, SpawnStop(t)).threads == s.threads[t := Thread(StopWaiting, None, None)]
  {
  }

  /** A cast takes the next generation exactly when the mutex is free. */
  lemma CastIsTaken(s: State, t: Tid)
    requires t !in s.threads
    ensures Enabled(s, QueueCast(t)) <==> s.handoff == None
    ensures s.handoff == None ==>
              var s' := Apply(s, QueueCast(t));
              s'.playGen == s.playGen + 1 &&
              s'.threads == s.threads[t := Thread(Called(s.playGen + 1), None, Some(s.playGen + 1))]
  {
  }

  /** The demux may end and the companion may be armed at any time. */
  lemma OthersMove(s: State)
    ensures Enabled(s, DemuxEnds) && Apply(s, DemuxEnds) == s.(playing := None)
    ensures Enabled(s, Arm) && Apply(s, Arm) == s.(wantPlay := true)
  {
  }

  /** In every run a thread that has returned lets go of seekMu, and only seeks hold it. */
  lemma FinishLetsGo(states: seq<State>, acts: seq<Action>, i: nat, t: Tid)
    requires IsRun(states, acts) && i < |acts| && acts[i] == Finish(t)
    ensures states[i + 1].threads[t].pc == Done && states[i + 1].handoff == states[i].handoff
    ensures states[i + 1].seekMu == if states[i].threads[t].seek.Some? then None else states[i].seekMu
    ensures states[i].threads[t].seek.Some? <==> states[i].seekMu == Some(t)
  {
    RunKeepsInv(states, acts, i);
    assert ThreadInv(states[i], t, states[i].threads[t]);
  }

  /** In every run a start is recorded exactly by the step that calls player.play() and sees it work. */
  lemma StartedIff(states: seq<State>, acts: seq<Action>, i: nat)
    requires IsRun(states, acts) && i < |acts|
    ensures states[i + 1].starts != states[i].starts <==>
              && acts[i].Commit? && acts[i].verdict
              && states[i].threads[acts[i].t].pc.stage == Start
    ensures states[i + 1].starts != states[i].starts <==> StartsAt(states[i], acts[i])
  {
  }

  // ------------------------------------------------------------------ progress

  predicate IsOf(a: Action, t: Tid) { !a.DemuxEnds? && !a.Arm? && a.t == t }

  /** Steps of thread `t`, with nobody else moving, lead from `s` to `s'`. */
  ghost predicate Path(s: State, s': State, t: Tid, states: seq<State>, acts: seq<Action>) {
    && |states| == |acts| + 1 && states[0] == s && states[|acts|] == s'
    && forall i :: 0 <= i < |acts| ==>
         IsOf(acts[i], t) && Enabled(states[i], acts[i]) && states[i + 1] == Apply(states[i], acts[i])
  }

  ghost predicate Alone(s: State, s': State, t: Tid) {
    exists states, acts :: Path(s, s', t, states, acts)
  }

  lemma Stay(s: State, t: Tid)
    ensures Alone(s, s, t)
  {
    assert Path(s, s, t, [s], []);
  }

  lemma StepFirst(s: State, a: Action, s': State, t: Tid)
    requires IsOf(a, t) && Enabled(s, a) && Alone(Apply(s, a), s', t)
    ensures Alone(s, s', t)
  {
    var states, acts :| Path(Apply(s, a), s', t, states, acts);
    assert Path(s, s', t, [s] + states, [a] + acts);
  }

  function Rank(stage: Stage): nat {
    match stage
    case AspectGate => 8
    case StopPlayer => 7
    case Aspect => 6
    case BindGate => 5
    case Bind => 4
    case SeedGate => 3
    case PlayGate => 2
    case SessionGate => 1
    case Start => 0
  }

  /** Thread `t` has started the demux of generation `g` and given the mutex back. */
  ghost predicate Started(s: State, s': State, t: Tid, g: nat) {
    && s'.playing == Some(g) && s'.playGen == g && s'.handoff == None
    && t in s.threads && s'.starts == s.starts + [DemuxStart(g, t, s.threads[t].seek)]
    && t in s'.threads && s'.threads[t].pc == Returned
  }

  predicate Ready(s: State, t: Tid, pc: Pc) {
    s.wantPlay && s.handoff == None && t in s.threads && s.threads[t].pc == pc
  }

  /** One step of the section with every call succeeding: the next stage, or the start. */
  lemma StagePassed(s: State, t: Tid, stage: Stage)
    requires s.wantPlay && t in s.threads && s.threads[t].pc == Committing(s.playGen, stage)
    ensures var s1 := Apply(s, Commit(t, true));
            && (stage.Start? ==> Started(s, s1, t, s.playGen))
            && (!stage.Start? ==>
                  && s1.wantPlay && s1.playGen == s.playGen && s1.starts == s.starts && t in s1.threads
                  && s1.threads[t] == s.threads[t].(pc := Committing(s.playGen, Next(stage)))
                  && Rank(Next(stage)) < Rank(stage))
  {
  }

  lemma {:induction false} SectionStarts(s: State, t: Tid, stage: Stage) returns (s': State)
    requires s.wantPlay && t in s.threads && s.threads[t].pc == Committing(s.playGen, stage)
    ensures Alone(s, s', t) && Started(s, s', t, s.playGen)
    decreases Rank(stage)
  {
    StagePassed(s, t, stage);
    var s1 := Apply(s, Commit(t, true));
    s' := s1;
    Stay(s1, t);
    if !stage.Start? {
      s' := SectionStarts(s1, t, Next(stage));
    }
    StepFirst(s, Commit(t, true), s', t);
  }

  lemma FromHandoff(s: State, t: Tid) returns (s': State)
    requires Ready(s, t, AtHandoff(s.playGen))
    ensures Alone(s, s', t) && Started(s, s', t, s.playGen)
  {
    s' := SectionStarts(Apply(s, LockHandoff(t)), t, AspectGate);
    StepFirst(s, LockHandoff(t), s', t);
  }

  lemma FromResolving(s: State, t: Tid) returns (s': State)
    requires Ready(s, t, Resolving(s.playGen))
    ensures Alone(s, s', t) && Started(s, s', t, s.playGen)
  {
    s' := FromHandoff(Apply(s, CheckResolved(t)), t);
    StepFirst(s, CheckResolved(t), s', t);
  }

  lemma FromNumbered(s: State, t: Tid) returns (s': State)
    requires Ready(s, t, Numbered(s.playGen))
    ensures Alone(s, s', t) && Started(s, s', t, s.playGen)
  {
    s' := FromResolving(Apply(s, CheckEarly(t)), t);
    StepFirst(s, CheckEarly(t), s', t);
  }

  lemma NumberTaken(s: State, t: Tid, queued: nat)
    requires Ready(s, t, Called(queued)) && queued in {0, s.playGen}
    ensures Enabled(s, TakeNumber(t))
    ensures var s1 := Apply(s, TakeNumber(t));
            && Ready(s1, t, Numbered(s1.playGen)) && s1.playGen == (if queued == 0 then s.playGen + 1 else s.playGen)
            && s1.starts == s.starts && s1.threads[t].seek == s.threads[t].seek
  {
  }

  /** A request that is current, wanted and finds the mutex free gets its demux by its own steps alone:
      under the number it was queued with, or under the next one when it had none. */
  lemma UnhinderedPlayStarts(s: State, t: Tid, queued: nat) returns (s': State)
    requires Ready(s, t, Called(queued)) && queued in {0, s.playGen}
    ensures Alone(s, s', t)
    ensures Started(s, s', t, if queued == 0 then s.playGen + 1 else s.playGen)
  {
    NumberTaken(s, t, queued);
    s' := FromNumbered(Apply(s, TakeNumber(t)), t);
    StepFirst(s, TakeNumber(t), s', t);
  }

  lemma FromSeekCheck(s: State, t: Tid) returns (s': State)
    requires Ready(s, t, SeekChecking(s.seekGen))
    ensures Alone(s, s', t) && Started(s, s', t, s.playGen + 1)
  {
    s' := UnhinderedPlayStarts(Apply(s, CheckSeek(t, true)), t, 0);
    StepFirst(s, CheckSeek(t, true), s', t);
  }

  /** The newest seek of library media that finds both mutexes free starts its own demux. */
  lemma UnhinderedSeekStarts(s: State, t: Tid) returns (s': State)
    requires Ready(s, t, SeekQueued(s.seekGen)) && s.seekMu == None
    ensures Alone(s, s', t) && Started(s, s', t, s.playGen + 1)
  {
    s' := FromSeekCheck(Apply(s, LockSeek(t)), t);
    StepFirst(s, LockSeek(t), s', t);
  }

  /** The thread's own steps continue a run. */
  lemma AloneExtendsRun(states: seq<State>, acts: seq<Action>, s': State, t: Tid)
    returns (states': seq<State>, acts': seq<Action>)
    requires IsRun(states, acts) && Alone(states[|acts|], s', t)
    ensures IsRun(states', acts') && states <= states' && acts <= acts' && states'[|acts'|] == s'
    ensures forall k :: |acts| <= k < |acts'| ==> IsOf(acts'[k], t)
  {
    var more, next :| Path(states[|acts|], s', t, more, next);
    states', acts' := states[..|acts|] + more, acts + next;
  }

  lemma CastIsQueued(s: State, t: Tid)
    requires Init(s)
    ensures IsRun([s, Apply(s, QueueCast(t)), Apply(s, QueueCast(t)).(wantPlay := true)], [QueueCast(t), Arm])
    ensures var s1 := Apply(s, QueueCast(t)).(wantPlay := true);
            Ready(s1, t, Called(1)) && s1.playGen == 1 && s1.starts == [] && s1.threads[t].seek == None
  {
  }

  /** One playMedia, alone, plays. */
  lemma PlayIsReached(t: Tid) returns (states: seq<State>, acts: seq<Action>)
    ensures IsRun(states, acts) && states[0] == State(0, None, 0, None, map[], false, None, [], [])
    ensures |acts| >= 2 && acts[0] == QueueCast(t) && acts[1] == Arm
    ensures forall k :: 2 <= k < |acts| ==> IsOf(acts[k], t)
    ensures states[|acts|].playing == Some(1) && states[|acts|].starts == [DemuxStart(1, t, None)]
  {
    var s := State(0, None, 0, None, map[], false, None, [], []);
    CastIsQueued(s, t);
    var s1 := Apply(s, QueueCast(t)).(wantPlay := true);
    var s' := UnhinderedPlayStarts(s1, t, 1);
    var start, first := [s, Apply(s, QueueCast(t)), s1], [QueueCast(t), Arm];
    states, acts := AloneExtendsRun(start, first, s', t);
    assert states[0] == start[0] && acts[0] == first[0] && acts[1] == first[1];
  }

  // ------------------------------------------------------------------ stops

  /** The stop of thread `t` is over: it took generation `g`, and nothing plays. */
  ghost predicate Stopped(s: State, t: Tid, g: nat) {
    s.playing == None && s.handoff == None && s.playGen == g && t in s.threads && s.threads[t].pc == StopDone(g)
  }

  lemma FromStopReleasing(s: State, t: Tid) returns (s': State)
    requires s.playing == None && t in s.threads && s.threads[t].pc == StopReleasing(s.playGen)
    ensures Alone(s, s', t) && Stopped(s', t, s.playGen) && s'.wantPlay == s.wantPlay
  {
    s' := Apply(s, StopUnlock(t));
    Stay(s', t);
    StepFirst(s, StopUnlock(t), s', t);
  }

  lemma FromStopPlaying(s: State, t: Tid) returns (s': State)
    requires t in s.threads && s.threads[t].pc == StopPlaying(s.playGen)
    ensures Alone(s, s', t) && Stopped(s', t, s.playGen) && s'.wantPlay == s.wantPlay
  {
    s' := FromStopReleasing(Apply(s, StopPlayer_(t)), t);
    StepFirst(s, StopPlayer_(t), s', t);
  }

  lemma FromStopBumping(s: State, t: Tid) returns (s': State)
    requires t in s.threads && s.threads[t].pc == StopBumping
    ensures Alone(s, s', t) && Stopped(s', t, s.playGen + 1) && s'.wantPlay == s.wantPlay
  {
    s' := FromStopPlaying(Apply(s, StopBump(t)), t);
    StepFirst(s, StopBump(t), s', t);
  }

  lemma FromStopWaiting(s: State, t: Tid) returns (s': State)
    requires t in s.threads && s.threads[t].pc == StopWaiting && s.handoff == None
    ensures Alone(s, s', t) && Stopped(s', t, s.playGen + 1) && s'.wantPlay == s.wantPlay
  {
    s' := FromStopBumping(Apply(s, StopLock(t)), t);
    StepFirst(s, StopLock(t), s', t);
  }

  /** A stop that finds the mutex free runs through by its own steps: it takes a generation of its own,
      clears the latch and leaves nothing playing. */
  lemma UnhinderedStopEnds(s: State, t: Tid) returns (s': State)
    requires t !in s.threads && s.handoff == None
    ensures Alone(s, s', t) && Stopped(s', t, s.playGen + 1) && !s'.wantPlay
  {
    s' := FromStopWaiting(Apply(s, SpawnStop(t)), t);
    StepFirst(s, SpawnStop(t), s', t);
  }
}
