/**
 Play, stop and seek supersession (arm/misterplexd/main.cpp).

 Detached doPlay threads, stop handlers and seek threads race on `playGen`,
 `playHandoffMu`, `seekGen` and `seekMu`. A step is one lock operation, one
 load or increment of a counter, or one call into the player. The gates read the
 companion's latch `wantPlay`; its other answers and those of the network are free
 inputs. `playing` and `starts` are the demuxes that doPlay starts; the player's own
 restarts are in PlayerRestart.
 */
module PlaySupersession {
  import opened Options

  type Tid = nat

  /** What the k-th step of doPlay's commit section does, in source order. */
  datatype Stage =
    | AspectGate      // gen and acceptsPlayRequest, right after taking the mutex
    | StopPlayer      // player.stop()
    | Aspect          // setSourceAspect acknowledged
    | BindGate        // gen and wantPlay
    | Bind            // bindMedia
    | SeedGate        // gen and wantPlay
    | PlayGate        // gen and wantPlay, after seeding the timeline
    | SessionGate     // gen and wantPlay under sessionMu, then lastPlay := bound
    | Start           // player.play()

  datatype Pc =
    | SeekQueued(ticket: nat)         // seekAsync's thread, before seekMu
    | SeekChecking(ticket: nat)       // seekMu held, seekGen not yet compared
    | Called(queued: nat)             // doPlay entered with this dispatchGeneration
    | Numbered(gen: nat)              // before the first comparison
    | Resolving(gen: nat)             // network; then the second comparison
    | AtHandoff(gen: nat)             // blocked on playHandoffMu
    | Committing(gen: nat, stage: Stage)
    | Returned                        // doPlay or seekMs has returned
    | Done
    | StopWaiting                     // setStop, blocked on playHandoffMu
    | StopBumping
    | StopPlaying(gen: nat)           // counter bumped, player.stop() next
    | StopReleasing(gen: nat)
    | StopDone(gen: nat)

  /** A thread; `seek` is its ticket when seekAsync made it, `gen` its generation once it has one. */
  datatype Thread = Thread(pc: Pc, seek: Option<nat>, gen: Option<nat>)

  /** One demux start made by doPlay. */
  datatype DemuxStart = DemuxStart(gen: nat, tid: Tid, seek: Option<nat>)

  datatype State = State(
    playGen: nat,
    handoff: Option<Tid>,
    seekGen: nat,
    seekMu: Option<Tid>,
    threads: map<Tid, Thread>,
    wantPlay: bool,                 // the companion's latch
    playing: Option<nat>,           // generation of the demux now running
    starts: seq<DemuxStart>,        // every start so far, oldest first
    seekRuns: seq<nat>)             // tickets of the seeks that passed their check

  datatype Action =
    | QueueCast(t: Tid)                    // playMedia: setPlayQueued, then the detached handler
    | SpawnPlay(t: Tid)                    // queue step or resolution change, dispatchGeneration 0
    | IssueSeek(t: Tid)
    | LockSeek(t: Tid)
    | CheckSeek(t: Tid, library: bool)
    | TakeNumber(t: Tid)
    | CheckEarly(t: Tid)
    | CheckResolved(t: Tid)
    | LockHandoff(t: Tid)
    | Commit(t: Tid, verdict: bool)
    | Finish(t: Tid)
    | SpawnStop(t: Tid)
    | StopLock(t: Tid)
    | StopBump(t: Tid)
    | StopPlayer_(t: Tid)
    | StopUnlock(t: Tid)
    | DemuxEnds
    | Arm                                  // playMedia or stagePlay, or a report once nobody holds it back

  // ------------------------------------------------------------------ steps

  predicate IsSpawn(a: Action) { a.QueueCast? || a.SpawnPlay? || a.IssueSeek? || a.SpawnStop? }

  predicate Enabled(s: State, a: Action) {
    if a.DemuxEnds? || a.Arm? then true
    else if IsSpawn(a) then a.t !in s.threads && (a.QueueCast? ==> s.handoff == None)
    else
      a.t in s.threads &&
      var pc := s.threads[a.t].pc;
      match a
      case LockSeek(_) => pc.SeekQueued? && s.seekMu == None
      case CheckSeek(_, _) => pc.SeekChecking?
      case TakeNumber(_) => pc.Called? && (pc.queued == 0 ==> s.handoff == None)
      case CheckEarly(_) => pc.Numbered?
      case CheckResolved(_) => pc.Resolving?
      case LockHandoff(_) => pc.AtHandoff? && s.handoff == None
      case Commit(_, _) => pc.Committing?
      case Finish(_) => pc.Returned?
      case StopLock(_) => pc.StopWaiting? && s.handoff == None
      case StopBump(_) => pc.StopBumping?
      case StopPlayer_(_) => pc.StopPlaying?
      case StopUnlock(_) => pc.StopReleasing?
      case _ => false
  }

  function At(s: State, t: Tid, pc: Pc): State
    requires t in s.threads
  {
    s.(threads := s.threads[t := s.threads[t].(pc := pc)])
  }

  /** `++playGen`, remembered as thread `t`'s own generation. */
  function Bump(s: State, t: Tid, pc: Pc): State
    requires t in s.threads
  {
    s.(playGen := s.playGen + 1,
       threads := s.threads[t := s.threads[t].(pc := pc, gen := Some(s.playGen + 1))])
  }

  function Apply(s: State, a: Action): State
    requires Enabled(s, a)
  {
    match a
    case DemuxEnds => s.(playing := None)
    case Arm => s.(wantPlay := true)
    case QueueCast(t) =>
      s.(playGen := s.playGen + 1,
         threads := s.threads[t := Thread(Called(s.playGen + 1), None, Some(s.playGen + 1))])
    case SpawnPlay(t) => s.(threads := s.threads[t := Thread(Called(0), None, None)])
    case IssueSeek(t) =>
      s.(seekGen := s.seekGen + 1,
         threads := s.threads[t := Thread(SeekQueued(s.seekGen + 1), Some(s.seekGen + 1), None)])
    // The HTTP stop clears the companion's session first.
    case SpawnStop(t) => s.(threads := s.threads[t := Thread(StopWaiting, None, None)], wantPlay := false)
    case LockSeek(t) => At(s, t, SeekChecking(s.threads[t].pc.ticket)).(seekMu := Some(t))
    case CheckSeek(t, library) =>
      var ticket := s.threads[t].pc.ticket;
      if ticket != s.seekGen then At(s, t, Returned)
      else At(s, t, if library then Called(0) else Returned).(seekRuns := s.seekRuns + [ticket])
    case TakeNumber(t) =>
      var queued := s.threads[t].pc.queued;
      if queued == 0 then Bump(s, t, Numbered(s.playGen + 1)) else At(s, t, Numbered(queued))
    case CheckEarly(t) =>
      var gen := s.threads[t].pc.gen;
      At(s, t, if gen == s.playGen then Resolving(gen) else Returned)
    case CheckResolved(t) =>
      var gen := s.threads[t].pc.gen;
      At(s, t, if gen == s.playGen then AtHandoff(gen) else Returned)
    case LockHandoff(t) =>
      At(s, t, Committing(s.threads[t].pc.gen, AspectGate)).(handoff := Some(t))
    case Commit(t, verdict) => CommitStep(s, t, verdict)
    case Finish(t) =>
      var s' := At(s, t, Done);
      if s.threads[t].seek.Some? then s'.(seekMu := None) else s'
    case StopLock(t) => At(s, t, StopBumping).(handoff := Some(t))
    case StopBump(t) => Bump(s, t, StopPlaying(s.playGen + 1))
    case StopPlayer_(t) => At(s, t, StopReleasing(s.threads[t].pc.gen)).(playing := None)
    case StopUnlock(t) => At(s, t, StopDone(s.threads[t].pc.gen)).(handoff := None)
  }

  function Next(stage: Stage): Stage {
    match stage
    case AspectGate => StopPlayer
    case StopPlayer => Aspect
    case Aspect => BindGate
    case BindGate => Bind
    case Bind => SeedGate
    case SeedGate => PlayGate
    case PlayGate => SessionGate
    case SessionGate => Start
    case Start => Start
  }

  /** Gates compare the generation again and, but for the first, read the latch; binding and the aspect
      ACK have only their own verdict. */
  predicate Passes(stage: Stage, current: bool, wanted: bool, verdict: bool) {
    match stage
    case StopPlayer => true
    case Aspect => verdict
    case Bind => verdict
    case Start => verdict
    case AspectGate => current && verdict
    case _ => current && wanted
  }

  /** One step of the section that doPlay runs while it holds playHandoffMu. */
  function CommitStep(s: State, t: Tid, verdict: bool): State
    requires t in s.threads && s.threads[t].pc.Committing?
  {
    var Committing(gen, stage) := s.threads[t].pc;
    var leave := At(s, t, Returned).(handoff := None);
    if !Passes(stage, gen == s.playGen, s.wantPlay, verdict) then leave
    else if stage.Start? then
      leave.(playing := Some(gen), starts := s.starts + [DemuxStart(gen, t, s.threads[t].seek)])
    else
      At(s, t, Committing(gen, Next(stage))).(playing := if stage.StopPlayer? then None else s.playing)
  }

  // ------------------------------------------------------------------ invariant

  predicate HoldsHandoff(pc: Pc) {
    pc.Committing? || pc.StopBumping? || pc.StopPlaying? || pc.StopReleasing?
  }

  predicate HoldsSeek(th: Thread) {
    th.seek.Some? && !th.pc.SeekQueued? && !th.pc.Done?
  }

  /** May this thread still start a demux? */
  predicate Live(pc: Pc) { !pc.Returned? && !pc.Done? }

  /** A thread's program counter carries its own generation and ticket. */
  predicate ThreadInv(s: State, t: Tid, th: Thread) {
    && (th.gen.Some? ==> 1 <= th.gen.value <= s.playGen)
    && (th.seek.Some? ==> 1 <= th.seek.value <= s.seekGen)
    && (match th.pc
        case SeekQueued(k) => th.seek == Some(k) && th.gen == None
        case SeekChecking(k) => th.seek == Some(k) && th.gen == None
        case Called(q) => th.gen == if q == 0 then None else Some(q)
        case Numbered(g) => th.gen == Some(g)
        case Resolving(g) => th.gen == Some(g)
        case AtHandoff(g) => th.gen == Some(g)
        case Committing(g, stage) =>
          th.gen == Some(g) && (!stage.AspectGate? ==> g == s.playGen)
          && (!stage.AspectGate? && !stage.StopPlayer? ==> s.playing == None)
        case StopPlaying(g) => th.gen == Some(g) && g == s.playGen
        case StopReleasing(g) => th.gen == Some(g) && g == s.playGen && s.playing == None
        case StopDone(g) => th.gen == Some(g) && (s.playing.Some? ==> s.playing.value > g)
        case StopWaiting => th.seek == None && th.gen == None
        case StopBumping => th.seek == None && th.gen == None
        case _ => true)
    && (th.pc.StopPlaying? || th.pc.StopReleasing? || th.pc.StopDone? ==> th.seek == None)
    && (s.handoff == Some(t) <==> HoldsHandoff(th.pc))
    && (s.seekMu == Some(t) <==> HoldsSeek(th))
  }

  /** Every start belongs to a thread that has since returned. */
  ghost predicate StartInv(s: State, x: DemuxStart) {
    && x.gen <= s.playGen
    && x.tid in s.threads && s.threads[x.tid].gen == Some(x.gen) && s.threads[x.tid].seek == x.seek
    && !Live(s.threads[x.tid].pc)
  }

  ghost predicate Increasing(xs: seq<nat>) {
    forall i, j :: 0 <= i < j < |xs| ==> xs[i] < xs[j]
  }

  /** A seek that passed its check and whose doPlay has not returned. */
  predicate SeekRunning(th: Thread) {
    th.seek.Some? && !th.pc.SeekQueued? && !th.pc.SeekChecking? && Live(th.pc)
  }

  predicate SeekPending(th: Thread) { th.seek.Some? && (th.pc.SeekQueued? || th.pc.SeekChecking?) }

  ghost predicate SeekInv(s: State) {
    && Increasing(s.seekRuns)
    && (forall k :: k in s.seekRuns ==> k <= s.seekGen)
    && (forall t :: t in s.threads && SeekRunning(s.threads[t]) ==>
          s.seekRuns != [] && s.seekRuns[|s.seekRuns| - 1] == s.threads[t].seek.value)
    && (forall t :: t in s.threads && SeekPending(s.threads[t]) ==> s.threads[t].seek.value !in s.seekRuns)
    && (forall i :: 0 <= i < |s.starts| && s.starts[i].seek.Some? ==> s.starts[i].seek.value in s.seekRuns)
    && (forall i, j :: 0 <= i < j < |s.starts| && s.starts[i].seek.Some? && s.starts[j].seek.Some? ==>
          s.starts[i].seek.value < s.starts[j].seek.value)
  }

  ghost predicate ThreadsInv(s: State) {
    && (forall t :: t in s.threads ==> ThreadInv(s, t, s.threads[t]))
    && (s.handoff.Some? ==> s.handoff.value in s.threads)
    && (s.seekMu.Some? ==> s.seekMu.value in s.threads)
  }

  /** A generation and a ticket each belong to one thread. */
  ghost predicate Unique(s: State) {
    forall t, u :: t in s.threads && u in s.threads && t != u ==>
      && (s.threads[t].gen.Some? ==> s.threads[t].gen != s.threads[u].gen)
      && (s.threads[t].seek.Some? ==> s.threads[t].seek != s.threads[u].seek)
  }

  ghost predicate StartsInv(s: State) {
    && (forall i :: 0 <= i < |s.starts| ==> StartInv(s, s.starts[i]))
    && (forall i, j :: 0 <= i < j < |s.starts| ==> s.starts[i].gen < s.starts[j].gen)
    && (s.playing.Some? ==> s.starts != [] && s.playing.value == s.starts[|s.starts| - 1].gen)
  }

  ghost predicate Inv(s: State) {
    ThreadsInv(s) && Unique(s) && StartsInv(s) && SeekInv(s)
  }

  ghost predicate Init(s: State) {
    && s.playGen == 0 && s.seekGen == 0 && s.handoff == None && s.seekMu == None
    && s.threads == map[] && s.playing == None && s.starts == [] && s.seekRuns == []
  }

  // ------------------------------------------------------------------ preservation

  /** Thread `t` becomes `th`: it keeps its seek ticket, and keeps its generation or takes the next one. */
  predicate Moves(s: State, s': State, t: Tid, th: Thread) {
    && s'.threads == s.threads[t := th]
    && (if t in s.threads then
          && th.seek == s.threads[t].seek
          && (th.gen == s.threads[t].gen || (s.threads[t].gen == None && th.gen == Some(s.playGen + 1)))
          && (Live(th.pc) ==> Live(s.threads[t].pc))
        else th.gen in {None, Some(s.playGen + 1)} && th.seek in {None, Some(s.seekGen + 1)} && Live(th.pc))
    // Counters move by one, and only for this thread; playGen only with the mutex free or its own.
    && (s'.playGen == if th.gen == Some(s.playGen + 1) then s.playGen + 1 else s.playGen)
    && (s'.seekGen == if th.seek == Some(s.seekGen + 1) then s.seekGen + 1 else s.seekGen)
    && (s'.playGen > s.playGen ==> s.handoff in {None, Some(t)})
    // Locks change hands only through this thread.
    && (s'.handoff == s.handoff || (s.handoff in {None, Some(t)} && s'.handoff in {None, Some(t)}))
    && (s'.seekMu == s.seekMu || (s.seekMu in {None, Some(t)} && s'.seekMu in {None, Some(t)}))
  }

  lemma MovesKeepsUnique(s: State, s': State, t: Tid, th: Thread)
    requires ThreadsInv(s) && Unique(s) && Moves(s, s', t, th)
    ensures Unique(s')
  {
  }

  lemma MovesKeepsStarts(s: State, s': State, t: Tid, th: Thread)
    requires StartsInv(s) && Moves(s, s', t, th)
    requires s'.starts == s.starts && s'.playing in {s.playing, None}
    ensures StartsInv(s')
  {
  }

  /** What a step of `t` does to another thread's claims. */
  lemma MovesKeepsOthers(s: State, s': State, t: Tid, th: Thread, u: Tid)
    requires ThreadsInv(s) && Unique(s) && Moves(s, s', t, th) && u in s.threads && u != t
    requires s'.playing == s.playing || s'.playing == None
             || (s'.playing == Some(s.playGen) && s.handoff == Some(t) && th.gen == Some(s.playGen))
    ensures ThreadInv(s', u, s.threads[u])
  {
  }

  lemma MovesKeepsThreads(s: State, s': State, t: Tid, th: Thread)
    requires ThreadsInv(s) && Unique(s) && Moves(s, s', t, th) && ThreadInv(s', t, th)
    requires s'.playing == s.playing || s'.playing == None
             || (s'.playing == Some(s.playGen) && s.handoff == Some(t) && th.gen == Some(s.playGen))
    ensures ThreadsInv(s')
  {
    forall u | u in s'.threads ensures ThreadInv(s', u, s'.threads[u]) {
      if u != t {
        MovesKeepsOthers(s, s', t, th, u);
      }
    }
  }

  lemma MovesKeepsSeeks(s: State, s': State, t: Tid, th: Thread)
    requires ThreadsInv(s) && SeekInv(s) && Moves(s, s', t, th)
    requires s'.starts == s.starts && s'.seekRuns == s.seekRuns
    requires t in s.threads ==> (SeekRunning(th) ==> SeekRunning(s.threads[t]))
    requires t in s.threads ==> (SeekPending(th) ==> SeekPending(s.threads[t]))
    requires t !in s.threads ==> !SeekRunning(th)
    ensures SeekInv(s')
  {
  }

  /** A step of `t` that starts nothing and passes no seek check. */
  lemma PlainStep(s: State, s': State, t: Tid, th: Thread)
    requires Inv(s) && Moves(s, s', t, th) && ThreadInv(s', t, th)
    requires s'.starts == s.starts && s'.seekRuns == s.seekRuns && s'.playing in {s.playing, None}
    requires t in s.threads ==> (SeekRunning(th) ==> SeekRunning(s.threads[t]))
    requires t in s.threads ==> (SeekPending(th) ==> SeekPending(s.threads[t]))
    requires t !in s.threads ==> !SeekRunning(th)
    ensures Inv(s')
  {
    MovesKeepsUnique(s, s', t, th);
    MovesKeepsStarts(s, s', t, th);
    MovesKeepsThreads(s, s', t, th);
    MovesKeepsSeeks(s, s', t, th);
  }

  lemma SpawnKeepsInv(s: State, a: Action)
    requires Inv(s) && Enabled(s, a) && IsSpawn(a)
    ensures Inv(Apply(s, a))
  {
    PlainStep(s, Apply(s, a), a.t, Apply(s, a).threads[a.t]);
  }

  lemma NumberKeepsInv(s: State, t: Tid)
    requires Inv(s) && Enabled(s, TakeNumber(t))
    ensures Inv(Apply(s, TakeNumber(t)))
  {
    var s' := Apply(s, TakeNumber(t));
    assert ThreadInv(s, t, s.threads[t]);
    PlainStep(s, s', t, s'.threads[t]);
  }

  lemma CheckEarlyKeepsInv(s: State, t: Tid)
    requires Inv(s) && Enabled(s, CheckEarly(t))
    ensures Inv(Apply(s, CheckEarly(t)))
  {
    var s' := Apply(s, CheckEarly(t));
    assert ThreadInv(s, t, s.threads[t]);
    PlainStep(s, s', t, s'.threads[t]);
  }

  lemma CheckResolvedKeepsInv(s: State, t: Tid)
    requires Inv(s) && Enabled(s, CheckResolved(t))
    ensures Inv(Apply(s, CheckResolved(t)))
  {
    var s' := Apply(s, CheckResolved(t));
    assert ThreadInv(s, t, s.threads[t]);
    PlainStep(s, s', t, s'.threads[t]);
  }

  lemma LockSeekKeepsInv(s: State, t: Tid)
    requires Inv(s) && Enabled(s, LockSeek(t))
    ensures Inv(Apply(s, LockSeek(t)))
  {
    var s' := Apply(s, LockSeek(t));
    assert ThreadInv(s, t, s.threads[t]);
    PlainStep(s, s', t, s'.threads[t]);
  }

  lemma LockHandoffKeepsInv(s: State, t: Tid)
    requires Inv(s) && Enabled(s, LockHandoff(t))
    ensures Inv(Apply(s, LockHandoff(t)))
  {
    var s' := Apply(s, LockHandoff(t));
    assert ThreadInv(s, t, s.threads[t]);
    PlainStep(s, s', t, s'.threads[t]);
  }

  lemma FinishKeepsInv(s: State, t: Tid)
    requires Inv(s) && Enabled(s, Finish(t))
    ensures Inv(Apply(s, Finish(t)))
  {
    var s' := Apply(s, Finish(t));
    assert ThreadInv(s, t, s.threads[t]);
    PlainStep(s, s', t, s'.threads[t]);
  }

  lemma StopLockKeepsInv(s: State, t: Tid)
    requires Inv(s) && Enabled(s, StopLock(t))
    ensures Inv(Apply(s, StopLock(t)))
  {
    var s' := Apply(s, StopLock(t));
    assert ThreadInv(s, t, s.threads[t]);
    PlainStep(s, s', t, s'.threads[t]);
  }

  lemma StopBumpKeepsInv(s: State, t: Tid)
    requires Inv(s) && Enabled(s, StopBump(t))
    ensures Inv(Apply(s, StopBump(t)))
  {
    var s' := Apply(s, StopBump(t));
    assert ThreadInv(s, t, s.threads[t]);
    PlainStep(s, s', t, s'.threads[t]);
  }

  lemma StopPlayerKeepsInv(s: State, t: Tid)
    requires Inv(s) && Enabled(s, StopPlayer_(t))
    ensures Inv(Apply(s, StopPlayer_(t)))
  {
    var s' := Apply(s, StopPlayer_(t));
    assert ThreadInv(s, t, s.threads[t]);
    PlainStep(s, s', t, s'.threads[t]);
  }

  lemma StopUnlockKeepsInv(s: State, t: Tid)
    requires Inv(s) && Enabled(s, StopUnlock(t))
    ensures Inv(Apply(s, StopUnlock(t)))
  {
    var s' := Apply(s, StopUnlock(t));
    assert ThreadInv(s, t, s.threads[t]);
    PlainStep(s, s', t, s'.threads[t]);
  }

  /** The locked comparison: a seek passes only as the newest ticket, above every earlier one. */
  lemma SeekCheckKeepsInv(s: State, t: Tid, library: bool)
    requires Inv(s) && Enabled(s, CheckSeek(t, library))
    ensures Inv(Apply(s, CheckSeek(t, library)))
  {
    if s.threads[t].pc.ticket != s.seekGen {
      DroppedSeekKeepsInv(s, t, library);
    } else {
      PassedSeekKeepsInv(s, t, library);
    }
  }

  lemma DroppedSeekKeepsInv(s: State, t: Tid, library: bool)
    requires Inv(s) && Enabled(s, CheckSeek(t, library)) && s.threads[t].pc.ticket != s.seekGen
    ensures Inv(Apply(s, CheckSeek(t, library)))
  {
    assert ThreadInv(s, t, s.threads[t]);
    PlainStep(s, At(s, t, Returned), t, s.threads[t].(pc := Returned));
  }

  lemma PassedSeekKeepsInv(s: State, t: Tid, library: bool)
    requires Inv(s) && Enabled(s, CheckSeek(t, library)) && s.threads[t].pc.ticket == s.seekGen
    ensures Inv(Apply(s, CheckSeek(t, library)))
  {
    var th := s.threads[t].(pc := if library then Called(0) else Returned);
    var s' := s.(threads := s.threads[t := th], seekRuns := s.seekRuns + [s.seekGen]);
    assert ThreadInv(s, t, s.threads[t]);
    MovesKeepsUnique(s, s', t, th);
    MovesKeepsStarts(s, s', t, th);
    MovesKeepsThreads(s, s', t, th);
    PassingSeek(s, s', t, th);
  }

  lemma PassingSeek(s: State, s': State, t: Tid, th: Thread)
    requires Inv(s) && t in s.threads && s.threads[t].pc == SeekChecking(s.seekGen)
    requires Moves(s, s', t, th) && s'.starts == s.starts && s'.seekRuns == s.seekRuns + [s.seekGen]
    requires !SeekPending(th) && th.seek == Some(s.seekGen)
    ensures SeekInv(s')
  {
    assert ThreadInv(s, t, s.threads[t]);
    assert s.seekGen !in s.seekRuns;
    forall k | 0 <= k < |s.seekRuns| ensures s.seekRuns[k] < s.seekGen {
      assert s.seekRuns[k] in s.seekRuns;
    }
    forall u | u in s'.threads && u != t
      ensures !SeekRunning(s'.threads[u])
      ensures SeekPending(s'.threads[u]) ==> s'.threads[u].seek.value !in s'.seekRuns
    {
      assert ThreadInv(s, u, s.threads[u]);
    }
  }

  /** A refused thread leaves the commit section. */
  lemma LeaveKeepsInv(s: State, t: Tid)
    requires Inv(s) && t in s.threads && s.threads[t].pc.Committing?
    ensures Inv(At(s, t, Returned).(handoff := None))
  {
    var th := s.threads[t].(pc := Returned);
    assert ThreadInv(s, t, s.threads[t]);
    PlainStep(s, At(s, t, Returned).(handoff := None), t, th);
  }

  /** Gates and the player.stop() of the commit section. */
  lemma AdvanceKeepsInv(s: State, t: Tid, stage: Stage, verdict: bool)
    requires Inv(s) && t in s.threads && s.threads[t].pc.Committing? && s.threads[t].pc.stage == stage && !stage.Start?
    requires Passes(stage, s.threads[t].pc.gen == s.playGen, s.wantPlay, verdict)
    ensures Inv(At(s, t, Committing(s.threads[t].pc.gen, Next(stage))).(playing := if stage.StopPlayer? then None else s.playing))
  {
    var th := s.threads[t].(pc := Committing(s.threads[t].pc.gen, Next(stage)));
    var s' := s.(threads := s.threads[t := th], playing := if stage.StopPlayer? then None else s.playing);
    assert ThreadInv(s, t, s.threads[t]);
    PlainStep(s, s', t, th);
  }

  lemma CommitKeepsInv(s: State, t: Tid, verdict: bool)
    requires Inv(s) && Enabled(s, Commit(t, verdict))
    ensures Inv(CommitStep(s, t, verdict))
  {
    var stage := s.threads[t].pc.stage;
    if !Passes(stage, s.threads[t].pc.gen == s.playGen, s.wantPlay, verdict) {
      LeaveKeepsInv(s, t);
    } else if stage.Start? {
      StartKeepsInv(s, t);
    } else {
      AdvanceKeepsInv(s, t, stage, verdict);
    }
  }

  /** player.play() appends the newest generation, above every earlier start. */
  lemma StartKeepsInv(s: State, t: Tid)
    requires Inv(s) && Enabled(s, Commit(t, true)) && s.threads[t].pc.stage.Start?
    ensures Inv(CommitStep(s, t, true))
  {
    var s' := CommitStep(s, t, true);
    var th := s'.threads[t];
    assert ThreadInv(s, t, s.threads[t]);
    MovesKeepsUnique(s, s', t, th);
    MovesKeepsThreads(s, s', t, th);
    var x := DemuxStart(s.playGen, t, s.threads[t].seek);
    NewStartIsNewest(s, t, x);
    StartGrows(s, s', t, th, x);
    StartGrowsSeeks(s, s', t, th, x);
  }

  lemma NewStartIsNewest(s: State, t: Tid, x: DemuxStart)
    requires Inv(s) && t in s.threads && s.threads[t].pc == Committing(s.playGen, Start)
    requires x == DemuxStart(s.playGen, t, s.threads[t].seek)
    ensures forall i :: 0 <= i < |s.starts| ==> s.starts[i].gen < x.gen && s.starts[i].tid != t
    ensures forall i :: 0 <= i < |s.starts| && s.starts[i].seek.Some? && x.seek.Some? ==>
              s.starts[i].seek.value < x.seek.value
  {
  }

  lemma StartGrows(s: State, s': State, t: Tid, th: Thread, x: DemuxStart)
    requires StartsInv(s) && Moves(s, s', t, th) && !Live(th.pc)
    requires s'.starts == s.starts + [x] && s'.playing == Some(x.gen)
    requires x.gen == s'.playGen && x.tid == t && th.gen == Some(x.gen) && th.seek == x.seek
    requires forall i :: 0 <= i < |s.starts| ==> s.starts[i].gen < x.gen && s.starts[i].tid != t
    ensures StartsInv(s')
  {
  }

  lemma StartGrowsSeeks(s: State, s': State, t: Tid, th: Thread, x: DemuxStart)
    requires Inv(s) && t in s.threads && SeekRunning(s.threads[t]) == x.seek.Some?
    requires x.seek == s.threads[t].seek && Moves(s, s', t, th) && !Live(th.pc)
    requires s'.starts == s.starts + [x] && s'.seekRuns == s.seekRuns
    requires forall i :: 0 <= i < |s.starts| && s.starts[i].seek.Some? && x.seek.Some? ==>
               s.starts[i].seek.value < x.seek.value
    ensures SeekInv(s')
  {
    assert forall u :: u in s'.threads && u != t ==> u in s.threads;
    assert x.seek.Some? ==> x.seek.value in s.seekRuns;
  }

  lemma StepKeepsInv(s: State, a: Action)
    requires Inv(s) && Enabled(s, a)
    ensures Inv(Apply(s, a))
  {
    if IsSpawn(a) {
      SpawnKeepsInv(s, a);
    } else {
      match a
      case DemuxEnds => EndKeepsInv(s);
      case Arm => ArmKeepsInv(s);
      case CheckSeek(t, library) => SeekCheckKeepsInv(s, t, library);
      case Commit(t, verdict) => CommitKeepsInv(s, t, verdict);
      case LockSeek(t) => LockSeekKeepsInv(s, t);
      case LockHandoff(t) => LockHandoffKeepsInv(s, t);
      case Finish(t) => FinishKeepsInv(s, t);
      case TakeNumber(t) => NumberKeepsInv(s, t);
      case CheckEarly(t) => CheckEarlyKeepsInv(s, t);
      case CheckResolved(t) => CheckResolvedKeepsInv(s, t);
      case StopLock(t) => StopLockKeepsInv(s, t);
      case StopBump(t) => StopBumpKeepsInv(s, t);
      case StopPlayer_(t) => StopPlayerKeepsInv(s, t);
      case StopUnlock(t) => StopUnlockKeepsInv(s, t);
    }
  }

  lemma EndKeepsInv(s: State)
    requires Inv(s)
    ensures Inv(s.(playing := None))
  {
    var s' := s.(playing := None);
    forall t | t in s'.threads ensures ThreadInv(s', t, s'.threads[t]) {
      assert ThreadInv(s, t, s.threads[t]);
    }
    forall i | 0 <= i < |s'.starts| ensures StartInv(s', s'.starts[i]) {
      assert StartInv(s, s.starts[i]);
    }
  }

  lemma ArmKeepsInv(s: State)
    requires Inv(s)
    ensures Inv(s.(wantPlay := true))
  {
    var s' := s.(wantPlay := true);
    forall t | t in s'.threads ensures ThreadInv(s', t, s'.threads[t]) {
      assert ThreadInv(s, t, s.threads[t]);
    }
    forall i | 0 <= i < |s'.starts| ensures StartInv(s', s'.starts[i]) {
      assert StartInv(s, s.starts[i]);
    }
  }

  // ------------------------------------------------------------------ runs

  ghost predicate IsRun(states: seq<State>, acts: seq<Action>) {
    && |states| == |acts| + 1
    && Init(states[0])
    && forall i :: 0 <= i < |acts| ==> Enabled(states[i], acts[i]) && states[i + 1] == Apply(states[i], acts[i])
  }

  lemma {:induction false} RunKeepsInv(states: seq<State>, acts: seq<Action>, i: nat)
    requires IsRun(states, acts) && i < |states|
    ensures Inv(states[i])
  {
    if i > 0 {
      RunKeepsInv(states, acts, i - 1);
      StepKeepsInv(states[i - 1], acts[i - 1]);
    }
  }

  /** Step `i` calls player.play() and it succeeds. */
  predicate StartsAt(s: State, a: Action) {
    a.Commit? && a.verdict && a.t in s.threads && s.threads[a.t].pc.Committing? && s.threads[a.t].pc.stage.Start?
  }

  /** In every run a demux starts only with the newest generation issued so far. */
  lemma StartsHoldNewestGeneration(states: seq<State>, acts: seq<Action>, i: nat)
    requires IsRun(states, acts) && i < |acts| && StartsAt(states[i], acts[i])
    ensures states[i].threads[acts[i].t].gen == Some(states[i].playGen)
    ensures states[i + 1].playing == Some(states[i].playGen)
    ensures |states[i + 1].starts| == |states[i].starts| + 1
    ensures states[i + 1].starts[|states[i].starts|].gen == states[i].playGen
  {
    RunKeepsInv(states, acts, i);
    assert ThreadInv(states[i], acts[i].t, states[i].threads[acts[i].t]);
  }

  /** In every run the generations of successive starts strictly increase, and so do the
      tickets of the seeks among them. */
  lemma StartsStrictlyIncrease(states: seq<State>, acts: seq<Action>, i: nat, j: nat, k: nat)
    requires IsRun(states, acts) && i < |states| && j < k < |states[i].starts|
    ensures states[i].starts[j].gen < states[i].starts[k].gen
    ensures states[i].starts[j].seek.Some? && states[i].starts[k].seek.Some? ==>
              states[i].starts[j].seek.value < states[i].starts[k].seek.value
  {
    RunKeepsInv(states, acts, i);
  }

  lemma StepTouchesOneThread(s: State, a: Action)
    requires Enabled(s, a)
    ensures a.DemuxEnds? || a.Arm? ==> Apply(s, a).threads == s.threads
    ensures !a.DemuxEnds? && !a.Arm? ==>
              a.t in Apply(s, a).threads && Apply(s, a).threads == s.threads[a.t := Apply(s, a).threads[a.t]]
  {
  }

  lemma DoneStaysDone(s: State, a: Action, t: Tid)
    requires Enabled(s, a) && t in s.threads && s.threads[t].pc.StopDone?
    ensures t in Apply(s, a).threads && Apply(s, a).threads[t] == s.threads[t]
  {
    StepTouchesOneThread(s, a);
  }

  lemma {:induction false} StopStaysDone(states: seq<State>, acts: seq<Action>, i: nat, j: nat, t: Tid)
    requires IsRun(states, acts) && i <= j < |states|
    requires t in states[i].threads && states[i].threads[t].pc.StopDone?
    ensures t in states[j].threads && states[j].threads[t] == states[i].threads[t]
  {
    if i < j {
      StopStaysDone(states, acts, i, j - 1, t);
      DoneStaysDone(states[j - 1], acts[j - 1], t);
    }
  }

  /** In every run, once a stop's critical section has ended no request numbered before it ever
      starts a demux, and no demux numbered before it is running. */
  lemma StopIsFinal(states: seq<State>, acts: seq<Action>, i: nat, j: nat, t: Tid, g: nat)
    requires IsRun(states, acts) && i <= j < |states|
    requires t in states[i].threads && states[i].threads[t].pc == StopDone(g)
    ensures states[j].playing.Some? ==> states[j].playing.value > g
    ensures j < |acts| && StartsAt(states[j], acts[j]) ==>
              states[j].threads[acts[j].t].gen.Some? && states[j].threads[acts[j].t].gen.value > g
  {
    StopStaysDone(states, acts, i, j, t);
    RunKeepsInv(states, acts, j);
    assert ThreadInv(states[j], t, states[j].threads[t]);
    if j < |acts| && StartsAt(states[j], acts[j]) {
      assert ThreadInv(states[j], acts[j].t, states[j].threads[acts[j].t]);
    }
  }

  /** Since the stop of thread `t` cleared the latch: nobody has passed the last gate behind it, and once
      its section has stopped the player nothing plays. */
  ghost predicate Silenced(s: State, t: Tid) {
    && !s.wantPlay && t in s.threads && IsStop(s.threads[t].pc)
    && (PlayerStopped(s.threads[t].pc) ==> s.playing == None)
    && (s.threads[t].pc.StopDone? ==> forall u :: u in s.threads ==> !PastLastGate(s.threads[u].pc))
  }

  predicate IsStop(pc: Pc) { pc.StopWaiting? || pc.StopBumping? || pc.StopPlaying? || pc.StopReleasing? || pc.StopDone? }

  predicate PlayerStopped(pc: Pc) { pc.StopReleasing? || pc.StopDone? }

  predicate PastLastGate(pc: Pc) { pc.Committing? && pc.stage.Start? }

  /** While the stop holds the mutex no commit section is open. */
  lemma StopExcludesCommits(s: State, t: Tid, u: Tid)
    requires Inv(s) && t in s.threads && u in s.threads && HoldsHandoff(s.threads[t].pc) && u != t
    ensures !s.threads[u].pc.Committing?
  {
    assert ThreadInv(s, t, s.threads[t]);
    assert ThreadInv(s, u, s.threads[u]);
  }

  lemma StopStepKeepsSilence(s: State, t: Tid, a: Action)
    requires Inv(s) && Enabled(s, a) && Silenced(s, t) && !a.Arm? && !a.DemuxEnds? && a.t == t
    ensures Silenced(Apply(s, a), t)
  {
    var s' := Apply(s, a);
    StepTouchesOneThread(s, a);
    if s'.threads[t].pc.StopDone? {
      forall u | u in s'.threads ensures !PastLastGate(s'.threads[u].pc) {
        if u != t {
          StopExcludesCommits(s, t, u);
        }
      }
    }
  }

  /** Another thread's step behind a cleared latch: it does not start, pass the last gate, or arm. */
  lemma OtherStepKeepsSilence(s: State, t: Tid, a: Action)
    requires Inv(s) && Enabled(s, a) && Silenced(s, t) && !a.Arm? && !a.DemuxEnds? && a.t != t
    ensures Silenced(Apply(s, a), t)
  {
    if a.Commit? {
      if HoldsHandoff(s.threads[t].pc) {
        StopExcludesCommits(s, t, a.t);
      }
      CommitBehindStop(s, a.t, a.verdict);
    } else {
      OnlyCommitsStart(s, a);
    }
    StepTouchesOneThread(s, a);
  }

  lemma CommitBehindStop(s: State, u: Tid, verdict: bool)
    requires !s.wantPlay && u in s.threads && s.threads[u].pc.Committing?
    ensures !PastLastGate(CommitStep(s, u, verdict).threads[u].pc) && !CommitStep(s, u, verdict).wantPlay
    ensures !PastLastGate(s.threads[u].pc) ==> CommitStep(s, u, verdict).playing in {s.playing, None}
  {
  }

  lemma OnlyCommitsStart(s: State, a: Action)
    requires Enabled(s, a) && !a.Commit? && !a.Arm? && !a.DemuxEnds?
    ensures Apply(s, a).playing in {s.playing, None} && (!s.wantPlay ==> !Apply(s, a).wantPlay)
    ensures !PastLastGate(Apply(s, a).threads[a.t].pc)
  {
  }

  lemma {:induction false} SilenceLasts(states: seq<State>, acts: seq<Action>, i: nat, j: nat, t: Tid)
    requires IsRun(states, acts) && i < j < |states| && acts[i] == SpawnStop(t)
    requires forall k :: i <= k < j ==> !acts[k].Arm?
    ensures Silenced(states[j], t)
    decreases j
  {
    if j == i + 1 {
      StopSilences(states[i], t);
    } else {
      SilenceLasts(states, acts, i, j - 1, t);
      RunKeepsInv(states, acts, j - 1);
      StepKeepsSilence(states[j - 1], t, acts[j - 1]);
    }
  }

  lemma StopSilences(s: State, t: Tid)
    requires Enabled(s, SpawnStop(t))
    ensures Silenced(Apply(s, SpawnStop(t)), t)
  {
  }

  lemma StepKeepsSilence(s: State, t: Tid, a: Action)
    requires Inv(s) && Enabled(s, a) && Silenced(s, t) && !a.Arm?
    ensures Silenced(Apply(s, a), t)
  {
    if a.DemuxEnds? {
      EndKeepsSilence(s, t);
    } else if a.t == t {
      StopStepKeepsSilence(s, t, a);
    } else {
      OtherStepKeepsSilence(s, t, a);
    }
  }

  lemma EndKeepsSilence(s: State, t: Tid)
    requires Silenced(s, t)
    ensures Silenced(s.(playing := None), t)
  {
  }

  /** In every run, from the end of a stop's critical section until something arms the companion again,
      no demux of doPlay plays and doPlay starts none, for no request, issued before the stop or after it. */
  lemma NothingStartsUntilArmed(states: seq<State>, acts: seq<Action>, i: nat, j: nat, t: Tid)
    requires IsRun(states, acts) && i < j < |states| && acts[i] == SpawnStop(t)
    requires t in states[j].threads && states[j].threads[t].pc.StopDone?
    requires forall k :: i <= k < j ==> !acts[k].Arm?
    ensures states[j].playing == None
    ensures j < |acts| ==> !StartsAt(states[j], acts[j])
  {
    SilenceLasts(states, acts, i, j, t);
  }

  /** In every run at most one thread is between taking playHandoffMu and giving it up. */
  lemma CommitsExclude(states: seq<State>, acts: seq<Action>, i: nat, t: Tid, u: Tid)
    requires IsRun(states, acts) && i < |states| && t in states[i].threads && u in states[i].threads
    requires HoldsHandoff(states[i].threads[t].pc) && HoldsHandoff(states[i].threads[u].pc)
    ensures t == u
  {
    RunKeepsInv(states, acts, i);
    assert ThreadInv(states[i], t, states[i].threads[t]);
    assert ThreadInv(states[i], u, states[i].threads[u]);
  }

  /** In every run the seeks that pass their check do so in strictly increasing issue order. */
  lemma SeeksRunInIssueOrder(states: seq<State>, acts: seq<Action>, i: nat)
    requires IsRun(states, acts) && i < |states|
    ensures Increasing(states[i].seekRuns)
  {
    RunKeepsInv(states, acts, i);
  }

  /** In every run a seek is dropped at its check exactly when a newer one has been issued. */
  lemma SeekDroppedIffSuperseded(states: seq<State>, acts: seq<Action>, i: nat, t: Tid, library: bool)
    requires IsRun(states, acts) && i < |acts| && acts[i] == CheckSeek(t, library)
    ensures states[i].threads[t].seek.Some?
    ensures states[i + 1].seekRuns == states[i].seekRuns <==> states[i].seekGen > states[i].threads[t].seek.value
    ensures states[i + 1].seekRuns != states[i].seekRuns ==>
              states[i + 1].seekRuns == states[i].seekRuns + [states[i].threads[t].seek.value]
  {
    RunKeepsInv(states, acts, i);
    assert ThreadInv(states[i], t, states[i].threads[t]);
  }
}
