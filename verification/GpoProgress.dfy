/**
 What the sharing of GPO lets happen (arm/misterplexd/fpga_spi.cpp): Main is hindered by
 nothing but a stop, and a daemon thread that has the file lock gets through its window
 by its own steps, whatever Main does not do.
 */
module GpoProgress {
  import opened Options
  import opened GpoSharing

  // ------------------------------------------------------------------ Main's freedom

  /** A running task of Main may write any word, waiting for an ACK only with one of its four bits up; it may exit,
      start another task unless a stop is pending, and stop only under one. */
  lemma RunningMainIsFree(m: MainState, t: Task, child: Task, w: Word, h: bool)
    requires t in m.tasks && !m.tasks[t]
    ensures MainEnabled(m, MainWrites(t, w, h)) <==>
              (h ==> w & 0x2_0000 != 0 || w & 0x4_0000 != 0 || w & 0x8_0000 != 0 || w & 0x10_0000 != 0)
    ensures MainEnabled(m, MainWrites(t, w, h)) ==>
              MainStep(m, MainWrites(t, w, h)) == m.(gpo := w, shadow := w, handshake := h)
    ensures MainEnabled(m, MainSpawns(t, child)) <==> t.pid !in m.stopReq && child.pid == t.pid && child !in m.tasks
    ensures MainEnabled(m, MainSpawns(t, child)) ==>
              MainStep(m, MainSpawns(t, child)) == m.(tasks := m.tasks[child := false])
    ensures MainEnabled(m, MainTaskStops(t)) <==> t.pid in m.stopReq
    ensures MainEnabled(m, MainTaskStops(t)) ==> MainStep(m, MainTaskStops(t)) == m.(tasks := m.tasks[t := true])
    ensures MainEnabled(m, MainTaskExits(t)) && MainStep(m, MainTaskExits(t)).tasks == m.tasks - {t}
  {
    BusyBits(w);
  }

  /** Main processes come and go: an exit takes its tasks and its stop along, and a new one may start when none is there. */
  lemma MainComesAndGoes(m: MainState, p: nat, t: Task, w: Word)
    ensures MainEnabled(m, MainExits(p)) <==> p in m.alive
    ensures p in m.alive ==>
              var m' := MainStep(m, MainExits(p));
              && m'.alive == m.alive - {p} && m'.stopReq == m.stopReq - {p} && m'.gpo == m.gpo && m'.shadow == m.shadow
              && (forall u :: u in m'.tasks <==> u in m.tasks && u.pid != p)
              && (forall u :: u in m'.tasks ==> m'.tasks[u] == m.tasks[u])
    ensures MainEnabled(m, MainStarts(t, w)) <==> m.alive == {}
    ensures m.alive == {} ==>
              MainStep(m, MainStarts(t, w)) == MainState({t.pid}, {}, map[t := false], w, w, false, m.mapped)
  {
  }

  // ------------------------------------------------------------------ single steps of the window

  /** A SIGCONT lifts the stop of its process, wakes exactly its tasks and crosses it off the list. */
  lemma ContIsSent(s: State, d: Thread, p: nat)
    requires Present(s, d) && p in Todo(s.threads[d].phase)
    ensures OpEnabled(s, d, SendCont(p))
    ensures var s', ph := OpStep(s, d, SendCont(p)), s.threads[d].phase;
            && Todo(s'.threads[d].phase) == Todo(ph) - {p}
            && s'.main.stopReq == s.main.stopReq - {p}
            && s'.main.tasks.Keys == s.main.tasks.Keys
            && (forall t :: t in s.main.tasks ==> s'.main.tasks[t] == (t.pid != p && s.main.tasks[t]))
            && s'.main.gpo == s.main.gpo && s'.main.shadow == s.main.shadow && s'.main.alive == s.main.alive
  {
  }

  /** A SIGSTOP asks exactly its process to stop, and the poll then waits for exactly the tasks of the stopped ones. */
  lemma StopIsSent(s: State, d: Thread, p: nat)
    requires Present(s, d) && s.threads[d].phase.Stopping?
    ensures OpEnabled(s, d, SendStop(p)) <==> p in s.threads[d].phase.todo
    ensures p in s.threads[d].phase.todo ==>
              var s', ph := OpStep(s, d, SendStop(p)), s.threads[d].phase;
              && s'.threads[d].phase == Stopping(ph.left, ph.pids, ph.todo - {p})
              && s'.main == s.main.(stopReq := if p in s.main.alive then s.main.stopReq + {p} else s.main.stopReq)
    ensures OpEnabled(s, d, PollStart) <==> s.threads[d].phase.todo == {}
    ensures s.threads[d].phase.todo == {} ==>
              var ph' := OpStep(s, d, PollStart).threads[d].phase;
              ph'.Polling? && forall t :: t in ph'.unseen <==> t in s.main.tasks && t.pid in s.threads[d].phase.pids
  {
  }

  /** A task counts as stopped only when it is seen stopped or gone; GPO is sampled once all are. */
  lemma PollSeesStopped(s: State, d: Thread, t: Task)
    requires Present(s, d) && s.threads[d].phase.Polling?
    ensures OpEnabled(s, d, SeeStopped(t)) <==> t in s.threads[d].phase.unseen && (t in s.main.tasks ==> s.main.tasks[t])
    ensures OpEnabled(s, d, Sample) <==> s.threads[d].phase.unseen == {} && s.main.mapped
    ensures OpEnabled(s, d, Sample) ==>
              OpStep(s, d, Sample).threads[d].phase
              == Sampled(s.threads[d].phase.left, s.threads[d].phase.pids, s.main.gpo)
    ensures OpEnabled(s, d, PollTimeout)
            && OpStep(s, d, PollTimeout).threads[d].phase == BackingOff(s.threads[d].phase.left, s.threads[d].phase.pids)
  {
  }

  /** A frame is entered from outside or from a body, when the process's mutex is free or already held by the thread. */
  lemma EnterIff(s: State, d: Thread)
    requires Present(s, d)
    ensures OpEnabled(s, d, Enter) <==>
              && (s.threads[d].phase.Idle? || s.threads[d].phase.Body?)
              && (s.procs[d.proc].mutex == None || s.procs[d.proc].mutex == Some(d))
    ensures OpEnabled(s, d, Enter) ==>
              var s' := OpStep(s, d, Enter);
              && s'.procs[d.proc] == s.procs[d.proc].(mutex := Some(d), depth := s.procs[d.proc].depth + 1)
              && s'.threads[d].frames == s.threads[d].frames + [s.procs[d.proc].depth == 0]
              && s'.threads[d].phase == (if s.procs[d.proc].depth == 0 then WantFlock else s.threads[d].phase)
              && s'.main == s.main && s'.flock == s.flock
  {
  }

  /** The file lock is taken exactly when it is free, and starts the attempts; a store is made exactly in a body whose
      window is safe, and changes the register alone. */
  lemma LockAndStore(s: State, d: Thread, n: nat, w: Word)
    requires Present(s, d)
    ensures OpEnabled(s, d, TakeFlock(n)) <==> s.threads[d].phase.WantFlock? && s.flock == None
    ensures OpEnabled(s, d, TakeFlock(n)) ==>
              OpStep(s, d, TakeFlock(n)).flock == Some(d) && OpStep(s, d, TakeFlock(n)).threads[d].phase == Attempt(n)
    ensures OpEnabled(s, d, Store(w)) <==> s.threads[d].phase.Body? && s.procs[d.proc].safe && s.main.mapped
    ensures OpEnabled(s, d, Store(w)) ==> OpStep(s, d, Store(w)) == s.(main := s.main.(gpo := w))
  {
  }

  // ------------------------------------------------------------------ runs of one thread

  /** Steps of thread `d`, with nobody else moving, lead from `s` to `s'`. */
  ghost predicate Path(s: State, s': State, d: Thread, states: seq<State>, ops: seq<Op>) {
    && |states| == |ops| + 1 && states[0] == s && states[|ops|] == s'
    && forall i :: 0 <= i < |ops| ==>
         Enabled(states[i], Daemon(d, ops[i])) && states[i + 1] == Apply(states[i], Daemon(d, ops[i]))
  }

  ghost predicate Alone(s: State, s': State, d: Thread) {
    exists states, ops :: Path(s, s', d, states, ops)
  }

  lemma Stay(s: State, d: Thread)
    ensures Alone(s, s, d)
  {
    assert Path(s, s, d, [s], []);
  }

  lemma StepFirst(s: State, op: Op, s1: State, s': State, d: Thread)
    requires Enabled(s, Daemon(d, op)) && s1 == Apply(s, Daemon(d, op)) && Alone(s1, s', d)
    ensures Alone(s, s', d)
  {
    var states, ops :| Path(s1, s', d, states, ops);
    assert Path(s, s', d, [s] + states, [op] + ops);
  }

  /** What the signals to `pids` leave of Main: those processes run, and nothing else has changed. */
  ghost predicate Continued(m: MainState, m': MainState, pids: set<nat>) {
    && m'.stopReq == m.stopReq - pids && m'.alive == m.alive && m'.gpo == m.gpo && m'.shadow == m.shadow
    && m'.mapped == m.mapped && m'.tasks.Keys == m.tasks.Keys
    && (forall t :: t in m.tasks ==> m'.tasks[t] == (t.pid !in pids && m.tasks[t]))
  }

  lemma ContinuedOne(m: MainState, p: nat, m': MainState, pids: set<nat>)
    requires p in pids && Continued(Continue(m, p), m', pids - {p})
    ensures Continued(m, m', pids)
  {
  }

  /** The list of processes to signal is worked off. */
  ghost predicate Signalled(s: State, s': State, d: Thread) {
    && Present(s, d) && Present(s', d)
    && Continued(s.main, s'.main, Todo(s.threads[d].phase))
    && Todo(s'.threads[d].phase) == {}
    && s'.threads[d].frames == s.threads[d].frames && s'.procs == s.procs && s'.flock == s.flock
    && (match s.threads[d].phase
        case BackingOff(left, _) => s'.threads[d].phase == BackingOff(left, {})
        case GivingUp(_) => s'.threads[d].phase == GivingUp({})
        case Resuming(_) => s'.threads[d].phase == Resuming({})
        case _ => false)
  }

  predicate Signals(ph: Phase) { ph.BackingOff? || ph.GivingUp? || ph.Resuming? }

  /** One signal, and the list is one shorter. */
  lemma OneSignal(s: State, d: Thread, p: nat)
    requires Present(s, d) && Signals(s.threads[d].phase) && p in Todo(s.threads[d].phase)
    ensures var s1 := OpStep(s, d, SendCont(p));
            && Present(s1, d) && Signals(s1.threads[d].phase) && s1.main == Continue(s.main, p)
            && Todo(s1.threads[d].phase) == Todo(s.threads[d].phase) - {p}
            && forall s' :: Signalled(s1, s', d) ==> Signalled(s, s', d)
  {
    var s1 := OpStep(s, d, SendCont(p));
    forall s' | Signalled(s1, s', d) ensures Signalled(s, s', d) {
      ContinuedOne(s.main, p, s'.main, Todo(s.threads[d].phase));
    }
  }

  /** A thread that is sending SIGCONT gets to the end of its list. */
  lemma {:induction false} SignalsAll(s: State, d: Thread) returns (s': State)
    requires Present(s, d) && Signals(s.threads[d].phase)
    ensures Alone(s, s', d) && Signalled(s, s', d)
    decreases Todo(s.threads[d].phase)
  {
    var todo := Todo(s.threads[d].phase);
    if todo == {} {
      s' := s;
      Stay(s, d);
    } else {
      var p :| p in todo;
      OneSignal(s, d, p);
      var s1 := OpStep(s, d, SendCont(p));
      s' := SignalsAll(s1, d);
      StepFirst(s, SendCont(p), s1, s', d);
    }
  }

  lemma AloneOn(s: State, s1: State, s': State, d: Thread)
    requires Alone(s, s1, d) && Alone(s1, s', d)
    ensures Alone(s, s', d)
  {
    var a, p :| Path(s, s1, d, a, p);
    var b, q :| Path(s1, s', d, b, q);
    assert Path(s, s', d, a[..|p|] + b, p + q);
  }

  // ------------------------------------------------------------------ closing

  /** The thread is out: no frame, no mutex, no file lock. */
  ghost predicate Out(s: State, d: Thread) {
    Present(s, d) && s.threads[d] == ThreadState(Idle, []) && s.procs[d.proc].mutex == None && s.flock == None
  }

  lemma FromResuming(s: State, d: Thread) returns (s': State)
    requires Present(s, d) && s.threads[d].phase.Resuming?
    ensures Alone(s, s', d) && Out(s', d) && Continued(s.main, s'.main, s.threads[d].phase.todo)
    ensures s'.procs[d.proc].depth == s.procs[d.proc].depth
  {
    var s1 := SignalsAll(s, d);
    var s2 := OpStep(s1, d, DropFlock);
    s' := OpStep(s2, d, DropMutex);
    Stay(s', d);
    StepFirst(s2, DropMutex, s', s', d);
    StepFirst(s1, DropFlock, s2, s', d);
    AloneOn(s, s1, s', d);
  }

  lemma RestoreStep(s: State, d: Thread, win: Window)
    requires Present(s, d) && s.threads[d].phase == Restoring(win)
    ensures OpEnabled(s, d, Restore)
    ensures var s1 := OpStep(s, d, Restore);
            && Present(s1, d) && s1.threads[d].phase == Resuming(if s.main.alive == {} then win.pids else s.main.alive)
            && s1.main == s.main.(gpo := if win.safe && s.main.mapped then win.saved else s.main.gpo)
            && s1.procs == s.procs
  {
  }

  /** A window closes by the thread's own steps: GPO gets its saved word back, every Main process its SIGCONT, and
      then the file lock and the mutex are given up. */
  lemma WindowCloses(s: State, d: Thread, win: Window) returns (s': State)
    requires Present(s, d) && s.threads[d] == ThreadState(Body(win), [true]) && s.procs[d.proc].depth > 0
    ensures Alone(s, s', d) && Out(s', d) && s'.procs[d.proc].depth == s.procs[d.proc].depth - 1
    ensures Continued(s.main.(gpo := if win.safe && s.main.mapped then win.saved else s.main.gpo), s'.main,
                      if s.main.alive == {} then win.pids else s.main.alive)
  {
    var s1 := OpStep(s, d, Leave);
    RestoreStep(s1, d, win);
    var s2 := OpStep(s1, d, Restore);
    s' := FromResuming(s2, d);
    StepFirst(s1, Restore, s2, s', d);
    StepFirst(s, Leave, s1, s', d);
  }

  /** So in every run the only frame of a thread ends with every Main task running on its own word. */
  lemma WindowEndsWithMainRunning(states: seq<State>, acts: seq<Action>, d: Thread, win: Window) returns (s': State)
    requires IsRun(states, acts) && Present(states[|acts|], d) && states[|acts|].threads[d] == ThreadState(Body(win), [true])
    ensures Alone(states[|acts|], s', d) && Out(s', d) && s'.procs[d.proc].depth == 0
    ensures forall t :: t in states[|acts|].main.tasks ==> Runs(s'.main, t)
    ensures states[|acts|].main.tasks != map[] ==> s'.main.gpo == states[|acts|].main.shadow
  {
    var s := states[|acts|];
    RunKeepsInv(states, acts, |acts|);
    InvFacts(s, d, win);
    s' := WindowCloses(s, d, win);
  }

  lemma InvFacts(s: State, d: Thread, win: Window)
    requires Inv(s) && Present(s, d) && s.threads[d] == ThreadState(Body(win), [true])
    ensures s.procs[d.proc].depth == 1
    ensures forall t :: t in s.main.tasks ==> t.pid in s.main.alive
    ensures s.main.tasks != map[] ==> (if win.safe && s.main.mapped then win.saved else s.main.gpo) == s.main.shadow
  {
    assert FrameInv(d, s.threads[d], s.procs[d.proc]);
  }

  // ------------------------------------------------------------------ opening

  /** The SIGSTOPs are sent. */
  lemma {:induction false} StopsAll(s: State, d: Thread, left: nat, pids: set<nat>, todo: set<nat>) returns (s': State)
    requires Present(s, d) && s.threads[d].phase == Stopping(left, pids, todo)
    ensures Alone(s, s', d) && Present(s', d) && s'.threads[d] == s.threads[d].(phase := Stopping(left, pids, {}))
    ensures s'.procs == s.procs && s'.flock == s.flock && s'.main.alive == s.main.alive
    decreases todo
  {
    if todo == {} {
      s' := s;
      Stay(s, d);
    } else {
      var p :| p in todo;
      var s1 := OpStep(s, d, SendStop(p));
      s' := StopsAll(s1, d, left, pids, todo - {p});
      StepFirst(s, SendStop(p), s1, s', d);
    }
  }

  /** An attempt whose poll times out is undone, and the next one begins. */
  lemma AttemptTimesOut(s: State, d: Thread, left: nat) returns (s': State)
    requires Present(s, d) && s.threads[d].phase == Attempt(left + 1) && s.main.alive != {}
    ensures Alone(s, s', d) && Present(s', d) && s'.threads[d] == s.threads[d].(phase := Attempt(left))
    ensures s'.procs == s.procs && s'.main.alive == s.main.alive
  {
    var pids := s.main.alive;
    var s1 := OpStep(s, d, FindMain);
    var s2 := StopsAll(s1, d, left, pids, pids);
    var s3 := OpStep(s2, d, PollStart);
    var s4 := OpStep(s3, d, PollTimeout);
    var s5 := SignalsAll(s4, d);
    s' := OpStep(s5, d, Retry);
    Stay(s', d);
    StepFirst(s5, Retry, s', s', d);
    AloneOn(s4, s5, s', d);
    StepFirst(s3, PollTimeout, s4, s', d);
    StepFirst(s2, PollStart, s3, s', d);
    AloneOn(s1, s2, s', d);
    StepFirst(s, FindMain, s1, s', d);
  }

  lemma GivesUp(s: State, d: Thread) returns (s': State)
    requires Present(s, d) && s.threads[d].phase == Attempt(0)
    ensures Alone(s, s', d) && Present(s', d) && s'.threads[d] == s.threads[d].(phase := Body(Window({}, 0, false)))
    ensures !s'.procs[d.proc].safe
  {
    var s1 := OpStep(s, d, FindMain);
    var s2 := SignalsAll(s1, d);
    s' := OpStep(s2, d, FailOpen);
    Stay(s', d);
    StepFirst(s2, FailOpen, s', s', d);
    AloneOn(s1, s2, s', d);
    StepFirst(s, FindMain, s1, s', d);
  }

  lemma NoMain(s: State, d: Thread) returns (s': State)
    requires Present(s, d) && s.threads[d].phase.Attempt? && s.threads[d].phase.left > 0 && s.main.alive == {}
    ensures Alone(s, s', d) && Present(s', d) && s'.threads[d].frames == s.threads[d].frames
    ensures s'.threads[d].phase == Body(Window({}, s.main.gpo, true)) && s'.procs[d.proc].safe
  {
    s' := OpStep(s, d, FindMain);
    Stay(s', d);
    StepFirst(s, FindMain, s', s', d);
  }

  /** The constructor always ends: even if Main never stops, the thread gets to its body by its own steps, and then the
      body knows that it is not safe. Without Main it is safe at once. */
  lemma {:induction false} ConstructorEnds(s: State, d: Thread, left: nat) returns (s': State)
    requires Present(s, d) && s.threads[d].phase == Attempt(left)
    ensures Alone(s, s', d) && Present(s', d) && s'.threads[d].phase.Body? && s'.threads[d].frames == s.threads[d].frames
    ensures s'.procs[d.proc].safe == s'.threads[d].phase.win.safe == (left > 0 && s.main.alive == {})
    decreases left
  {
    if left == 0 {
      s' := GivesUp(s, d);
    } else if s.main.alive == {} {
      s' := NoMain(s, d);
    } else {
      var s1 := AttemptTimesOut(s, d, left - 1);
      s' := ConstructorEnds(s1, d, left - 1);
      AloneOn(s, s1, s', d);
    }
  }
}
