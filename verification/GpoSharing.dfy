/**
 Sharing the FPGA manager's GPO register with Main (arm/misterplexd/fpga_spi.cpp).

 Main and any number of daemon processes, each with any number of threads, are
 interleaved one step at a time. A step is one register access, one signal, one
 /proc observation, or one lock operation. SIGSTOP only requests a stop: every
 task of the process stops later, on its own, and may write GPO until it does.
 */
module GpoSharing {
  import opened Options

  type Word = bv32

  // SSPI strobe, FPGA_EN, OSD_EN and IO_EN: bits 17 to 20.
  const MAIN_BUSY_MASK: Word := 0x1E_0000

  predicate Busy(w: Word) { w & MAIN_BUSY_MASK != 0 }

  /** A task of a Main process. */
  datatype Task = Task(pid: nat, tid: nat)

  /** A thread of a daemon process. */
  datatype Thread = Thread(proc: nat, id: nat)

  /** Main and the hardware it shares with the daemon. */
  datatype MainState = MainState(
    alive: set<nat>,               // Main processes
    stopReq: set<nat>,             // Main processes with a group stop in effect
    tasks: map<Task, bool>,        // every Main task, and whether it has stopped
    gpo: Word,                     // the hardware register
    shadow: Word,                  // what Main last wrote, which it never re-reads
    handshake: bool,               // Main is waiting for an ACK with the strobe up
    mapped: bool)                  // the daemon has the register mapped

  /** What the outermost MainSafeWindow remembers. */
  datatype Window = Window(pids: set<nat>, saved: Word, safe: bool)

  /** Where a daemon thread stands in SpiExclusive's constructor, body or destructor. */
  datatype Phase =
    | Idle                                                          // no frame
    | WantFlock                                                     // mutex held, blocked in flock()
    | Attempt(left: nat)                                            // head of the retry loop
    | Stopping(left: nat, pids: set<nat>, todo: set<nat>)           // sending SIGSTOP, pid by pid
    | Polling(left: nat, pids: set<nat>, unseen: set<Task>)         // reading /proc, task by task
    | Sampled(left: nat, pids: set<nat>, word: Word)                // GPO has been read
    | BackingOff(left: nat, todo: set<nat>)                         // sending SIGCONT, then retry
    | GivingUp(todo: set<nat>)                                      // sending SIGCONT, then not safe
    | Body(win: Window)                                             // caller's code
    | Restoring(win: Window)                                        // destructor, GPO not yet restored
    | Resuming(todo: set<nat>)                                      // destructor, sending SIGCONT
    | Unlocking                                                     // flock released, mutex not yet

  /** A thread's phase and, outermost first, the `outer` flag of each live SpiExclusive. */
  datatype ThreadState = ThreadState(phase: Phase, frames: seq<bool>)

  /** One daemon process: spiMutex, spiDepth and spiWindowSafe. */
  datatype Proc = Proc(mutex: Option<Thread>, depth: nat, safe: bool)

  datatype State = State(
    main: MainState,
    flock: Option<Thread>,
    procs: map<nat, Proc>,
    threads: map<Thread, ThreadState>)

  datatype MainAction =
    | MainWrites(t: Task, w: Word, handshake: bool)
    | MainSpawns(t: Task, child: Task)
    | MainTaskStops(t: Task)
    | MainTaskExits(t: Task)
    | MainExits(p: nat)
    | MainStarts(t: Task, w: Word)

  datatype Op =
    | Enter
    | TakeFlock(attempts: nat)
    | FindMain
    | SendStop(p: nat)
    | PollStart
    | SeeStopped(t: Task)
    | PollTimeout
    | Sample
    | Judge
    | SendCont(p: nat)
    | Retry
    | FailOpen
    | Store(w: Word)
    | Leave
    | Restore
    | DropFlock
    | DropMutex

  datatype Action = Main(act: MainAction) | Daemon(d: Thread, op: Op)

  // ------------------------------------------------------------------ Main's steps

  predicate Runs(m: MainState, t: Task) { t in m.tasks && !m.tasks[t] }

  function TasksOf(m: MainState, pids: set<nat>): set<Task> {
    set t | t in m.tasks && t.pid in pids
  }

  predicate MainEnabled(m: MainState, a: MainAction) {
    match a
    // Main holds its enables for the whole of a transaction, so it only waits
    // for an ACK with a busy bit up.
    case MainWrites(t, w, h) => Runs(m, t) && (h ==> Busy(w))
    // clone() fails while a stop signal is pending.
    case MainSpawns(t, child) =>
      Runs(m, t) && t.pid !in m.stopReq && child.pid == t.pid && child !in m.tasks
    case MainTaskStops(t) => Runs(m, t) && t.pid in m.stopReq
    case MainTaskExits(t) => Runs(m, t)
    case MainExits(p) => p in m.alive
    case MainStarts(t, w) => m.alive == {}
  }

  function MainStep(m: MainState, a: MainAction): MainState
    requires MainEnabled(m, a)
  {
    match a
    case MainWrites(t, w, h) => m.(gpo := w, shadow := w, handshake := h)
    case MainSpawns(t, child) => m.(tasks := m.tasks[child := false])
    case MainTaskStops(t) => m.(tasks := m.tasks[t := true])
    case MainTaskExits(t) => Reap(m.(tasks := m.tasks - {t}))
    case MainExits(p) =>
      Reap(m.(alive := m.alive - {p}, stopReq := m.stopReq - {p}, tasks := m.tasks - TasksOf(m, {p})))
    case MainStarts(t, w) =>
      m.(alive := {t.pid}, stopReq := {}, tasks := map[t := false], gpo := w, shadow := w, handshake := false)
  }

  /** With the last Main task gone nobody is waiting for an ACK. */
  function Reap(m: MainState): MainState {
    m.(handshake := m.handshake && m.tasks != map[])
  }

  /** SIGSTOP starts a group stop; tasks go on until they notice. */
  function Stop(m: MainState, p: nat): MainState {
    m.(stopReq := m.stopReq + ({p} * m.alive))
  }

  /** SIGCONT clears the group stop and wakes every task of the process. */
  function Continue(m: MainState, p: nat): MainState {
    m.(stopReq := m.stopReq - {p},
       tasks := map t | t in m.tasks :: if t.pid == p then false else m.tasks[t])
  }

  // ------------------------------------------------------------------ the daemon's steps

  function Todo(ph: Phase): set<nat> {
    match ph
    case BackingOff(_, todo) => todo
    case GivingUp(todo) => todo
    case Resuming(todo) => todo
    case _ => {}
  }

  function Without(ph: Phase, p: nat): Phase {
    match ph
    case BackingOff(left, todo) => BackingOff(left, todo - {p})
    case GivingUp(todo) => GivingUp(todo - {p})
    case Resuming(todo) => Resuming(todo - {p})
    case _ => ph
  }

  predicate Present(s: State, d: Thread) { d in s.threads && d.proc in s.procs }

  predicate OpEnabled(s: State, d: Thread, op: Op)
    requires Present(s, d)
  {
    var ph := s.threads[d].phase;
    match op
    case Enter => (ph.Idle? || ph.Body?) && s.procs[d.proc].mutex in {None, Some(d)}
    case TakeFlock(n) => ph.WantFlock? && s.flock == None
    case FindMain => ph.Attempt?
    case SendStop(p) => ph.Stopping? && p in ph.todo
    case PollStart => ph.Polling? || (ph.Stopping? && ph.todo == {})
    case SeeStopped(t) => ph.Polling? && t in ph.unseen && !Runs(s.main, t)
    case PollTimeout => ph.Polling?
    case Sample => ph.Polling? && ph.unseen == {} && s.main.mapped
    case Judge => ph.Sampled?
    case SendCont(p) => p in Todo(ph)
    case Retry => ph.BackingOff? && ph.todo == {}
    case FailOpen => ph.GivingUp? && ph.todo == {}
    // Callers check safe() and the mapping before every register access.
    case Store(w) => ph.Body? && s.procs[d.proc].safe && s.main.mapped
    case Leave => ph.Body? && s.threads[d].frames != [] && s.procs[d.proc].depth > 0
    case Restore => ph.Restoring?
    case DropFlock => ph.Resuming? && ph.todo == {}
    case DropMutex => ph.Unlocking?
  }

  function SetPhase(s: State, d: Thread, ph: Phase): State
    requires d in s.threads
  {
    s.(threads := s.threads[d := s.threads[d].(phase := ph)])
  }

  function OpStep(s: State, d: Thread, op: Op): State
    requires Present(s, d) && OpEnabled(s, d, op)
  {
    var ph := s.threads[d].phase;
    match op
    case Enter => EnterFrame(s, d)
    case TakeFlock(n) => SetPhase(s, d, Attempt(n)).(flock := Some(d))
    case FindMain =>
      if ph.left == 0 then SetPhase(s, d, GivingUp(s.main.alive))
      else if s.main.alive == {} then OpenBody(s, d, Window({}, s.main.gpo, true))
      else SetPhase(s, d, Stopping(ph.left - 1, s.main.alive, s.main.alive))
    case SendStop(p) =>
      SetPhase(s, d, Stopping(ph.left, ph.pids, ph.todo - {p})).(main := Stop(s.main, p))
    case PollStart => SetPhase(s, d, Polling(ph.left, ph.pids, TasksOf(s.main, ph.pids)))
    case SeeStopped(t) => SetPhase(s, d, Polling(ph.left, ph.pids, ph.unseen - {t}))
    case PollTimeout => SetPhase(s, d, BackingOff(ph.left, ph.pids))
    case Sample => SetPhase(s, d, Sampled(ph.left, ph.pids, s.main.gpo))
    case Judge =>
      if Busy(ph.word) then SetPhase(s, d, BackingOff(ph.left, ph.pids))
      else OpenBody(s, d, Window(ph.pids, ph.word, true))
    case SendCont(p) => SetPhase(s, d, Without(ph, p)).(main := Continue(s.main, p))
    case Retry => SetPhase(s, d, Attempt(ph.left))
    case FailOpen => OpenBody(s, d, Window({}, 0, false))
    case Store(w) => s.(main := s.main.(gpo := w))
    case Leave => LeaveFrame(s, d)
    case Restore =>
      SetPhase(s, d, Resuming(if s.main.alive == {} then ph.win.pids else s.main.alive)).(
        main := if ph.win.safe && s.main.mapped then s.main.(gpo := ph.win.saved) else s.main)
    case DropFlock => SetPhase(s, d, Unlocking).(flock := None)
    case DropMutex =>
      s.(threads := s.threads[d := ThreadState(Idle, [])],
         procs := s.procs[d.proc := s.procs[d.proc].(mutex := None)])
  }

  /** SpiExclusive(): only depth zero makes an outer frame and builds a window. */
  function EnterFrame(s: State, d: Thread): State
    requires Present(s, d)
  {
    var p := s.procs[d.proc];
    var outer := p.depth == 0;
    var ts := s.threads[d];
    s.(procs := s.procs[d.proc := p.(mutex := Some(d), depth := p.depth + 1)],
       threads := s.threads[d := ThreadState(if outer then WantFlock else ts.phase, ts.frames + [outer])])
  }

  /** The end of the constructor publishes the window's verdict to nested frames. */
  function OpenBody(s: State, d: Thread, win: Window): State
    requires Present(s, d)
  {
    SetPhase(s, d, Body(win)).(procs := s.procs[d.proc := s.procs[d.proc].(safe := win.safe)])
  }

  /** ~SpiExclusive(): a frame that is not outer drops its depth and nothing else. */
  function LeaveFrame(s: State, d: Thread): State
    requires Present(s, d) && OpEnabled(s, d, Leave)
  {
    var p := s.procs[d.proc];
    var ts := s.threads[d];
    var last := |ts.frames| - 1;
    s.(procs := s.procs[d.proc := p.(depth := p.depth - 1)],
       threads := s.threads[d :=
         if ts.frames[last] then ts.(phase := Restoring(ts.phase.win))
         else ts.(frames := ts.frames[..last])])
  }

  predicate Enabled(s: State, a: Action) {
    match a
    // No Main process starts while a daemon thread holds the flock.
    case Main(act) => MainEnabled(s.main, act) && (act.MainStarts? ==> s.flock == None)
    case Daemon(d, op) => Present(s, d) && OpEnabled(s, d, op)
  }

  function Apply(s: State, a: Action): State
    requires Enabled(s, a)
  {
    match a
    case Main(act) => s.(main := MainStep(s.main, act))
    case Daemon(d, op) => OpStep(s, d, op)
  }

  // ------------------------------------------------------------------ invariant

  ghost predicate AllStopped(m: MainState) { forall t :: t in m.tasks ==> m.tasks[t] }

  ghost predicate Untouched(m: MainState) { m.tasks != map[] ==> m.gpo == m.shadow }

  ghost predicate MainInv(m: MainState) {
    && m.stopReq <= m.alive
    && (forall t :: t in m.tasks ==> t.pid in m.alive)
    && (forall t :: t in m.tasks && m.tasks[t] ==> t.pid in m.stopReq)
    && (m.handshake ==> m.tasks != map[] && Busy(m.shadow))
  }

  /** Main is parked between transactions and the window remembers its word. */
  ghost predicate WindowInv(m: MainState, win: Window) {
    if win.safe then
      && AllStopped(m)
      && m.alive <= m.stopReq
      && (m.tasks != map[] ==> win.saved == m.shadow && !Busy(win.saved))
      && (!m.mapped ==> Untouched(m))
    else
      m.stopReq == {} && Untouched(m)
  }

  /** What the flock holder's phase says about Main. */
  ghost predicate HolderInv(m: MainState, ph: Phase) {
    match ph
    case Attempt(_) => m.stopReq == {} && Untouched(m)
    case Stopping(_, pids, todo) =>
      m.stopReq <= pids - todo && m.alive - todo <= m.stopReq && m.alive <= pids && Untouched(m)
    case Polling(_, pids, unseen) =>
      && m.alive <= m.stopReq <= pids
      && (forall t :: t in m.tasks && t !in unseen ==> m.tasks[t])
      && Untouched(m)
    case Sampled(_, pids, word) =>
      && m.alive <= m.stopReq <= pids && AllStopped(m)
      && (m.tasks != map[] ==> word == m.shadow) && Untouched(m)
    case BackingOff(_, todo) => m.stopReq <= todo && Untouched(m)
    case GivingUp(todo) => m.stopReq <= todo && Untouched(m)
    case Body(win) => WindowInv(m, win)
    case Restoring(win) => WindowInv(m, win)
    case Resuming(todo) => m.stopReq <= todo && Untouched(m)
    case _ => true
  }

  predicate HoldsFlock(ph: Phase) { !ph.Idle? && !ph.WantFlock? && !ph.Unlocking? }

  predicate Closing(ph: Phase) { ph.Restoring? || ph.Resuming? || ph.Unlocking? }

  /** One thread's frames: only the outermost is outer, and spiDepth counts them. */
  ghost predicate FrameInv(d: Thread, ts: ThreadState, p: Proc) {
    && (p.mutex == Some(d) <==> !ts.phase.Idle?)
    && (ts.phase.Idle? <==> ts.frames == [])
    && (forall i :: 0 <= i < |ts.frames| ==> (ts.frames[i] <==> i == 0))
    && (!ts.phase.Body? ==> |ts.frames| <= 1)
    && (!ts.phase.Idle? ==> p.depth == if Closing(ts.phase) then 0 else |ts.frames|)
    && (ts.phase.Body? ==> p.safe == ts.phase.win.safe)
  }

  ghost predicate ProcInv(s: State, c: nat, p: Proc) {
    match p.mutex
    case None => p.depth == 0
    case Some(d) => d.proc == c && d in s.threads
  }

  /** Mutexes, depths and the flock agree with every thread's phase. */
  ghost predicate LockInv(s: State) {
    && (forall d :: d in s.threads ==> d.proc in s.procs && FrameInv(d, s.threads[d], s.procs[d.proc]))
    && (forall c :: c in s.procs ==> ProcInv(s, c, s.procs[c]))
    && (forall d :: d in s.threads ==> (s.flock == Some(d) <==> HoldsFlock(s.threads[d].phase)))
    && (s.flock.Some? ==> s.flock.value in s.threads)
  }

  /** The flock holder's phase; a free flock says of Main what the loop head says. */
  function HolderPhase(s: State): Phase {
    if s.flock.Some? && s.flock.value in s.threads then s.threads[s.flock.value].phase else Attempt(0)
  }

  ghost predicate Inv(s: State) {
    MainInv(s.main) && LockInv(s) && HolderInv(s.main, HolderPhase(s))
  }

  /** Main running untouched, every daemon thread outside SpiExclusive. */
  ghost predicate Init(s: State) {
    && s.main.stopReq == {} && s.main.gpo == s.main.shadow && !s.main.handshake && s.flock == None
    && (forall t :: t in s.main.tasks ==> !s.main.tasks[t] && t.pid in s.main.alive)
    && (forall c :: c in s.procs ==> s.procs[c].mutex == None && s.procs[c].depth == 0)
    && (forall d :: d in s.threads ==> d.proc in s.procs && s.threads[d] == ThreadState(Idle, []))
  }

  // ------------------------------------------------------------------ preservation

  lemma MainStepKeepsMain(m: MainState, a: MainAction)
    requires MainInv(m) && MainEnabled(m, a)
    ensures MainInv(MainStep(m, a))
  {
  }

  lemma MainStepKeepsHolder(m: MainState, a: MainAction, ph: Phase)
    requires MainInv(m) && MainEnabled(m, a) && HolderInv(m, ph) && HoldsFlock(ph)
    requires a.MainStarts? ==> ph.Attempt?
    ensures HolderInv(MainStep(m, a), ph)
  {
  }

  /** A step of thread `d` touches only `d`, its process and the flock. */
  lemma ThreadStepKeepsLocks(s: State, s': State, d: Thread)
    requires LockInv(s) && Present(s, d) && Present(s', d)
    requires s'.threads == s.threads[d := s'.threads[d]]
    requires s'.procs == s.procs[d.proc := s'.procs[d.proc]]
    requires s.procs[d.proc].mutex in {None, Some(d)} && s'.procs[d.proc].mutex in {None, Some(d)}
    requires ProcInv(s', d.proc, s'.procs[d.proc])
    requires FrameInv(d, s'.threads[d], s'.procs[d.proc])
    requires s'.flock == s.flock || (s.flock in {None, Some(d)} && s'.flock in {None, Some(d)})
    requires s'.flock == Some(d) <==> HoldsFlock(s'.threads[d].phase)
    ensures LockInv(s')
  {
    forall e | e in s'.threads
      ensures e.proc in s'.procs && FrameInv(e, s'.threads[e], s'.procs[e.proc])
    {
      assert FrameInv(e, s.threads[e], s.procs[e.proc]);
    }
    forall c | c in s'.procs ensures ProcInv(s', c, s'.procs[c]) {
      assert c in s.procs && ProcInv(s, c, s.procs[c]);
    }
  }

  /** The flock holder moves from `ph` to `ph'` between opening, body and closing phases. */
  lemma HolderMoves(s: State, d: Thread, m: MainState, ph': Phase)
    requires Inv(s) && Present(s, d) && HoldsFlock(s.threads[d].phase) && HoldsFlock(ph')
    requires !s.threads[d].phase.Body? && !ph'.Body? && Closing(s.threads[d].phase) == Closing(ph')
    requires MainInv(m) && HolderInv(m, ph')
    ensures Inv(SetPhase(s, d, ph').(main := m))
  {
    assert FrameInv(d, s.threads[d], s.procs[d.proc]);
    ThreadStepKeepsLocks(s, SetPhase(s, d, ph').(main := m), d);
  }

  lemma OpenBodyKeepsInv(s: State, d: Thread, win: Window)
    requires Inv(s) && Present(s, d) && WindowInv(s.main, win)
    requires s.threads[d].phase.Attempt? || s.threads[d].phase.Sampled? || s.threads[d].phase.GivingUp?
    ensures Inv(OpenBody(s, d, win))
  {
    assert FrameInv(d, s.threads[d], s.procs[d.proc]);
    ThreadStepKeepsLocks(s, OpenBody(s, d, win), d);
  }

  lemma FramesKeepInv(s: State, d: Thread, op: Op)
    requires Inv(s) && Present(s, d) && OpEnabled(s, d, op) && (op.Enter? || op.Leave?)
    ensures Inv(OpStep(s, d, op))
  {
    assert FrameInv(d, s.threads[d], s.procs[d.proc]);
    assert ProcInv(s, d.proc, s.procs[d.proc]);
    ThreadStepKeepsLocks(s, OpStep(s, d, op), d);
  }

  lemma TakeFlockKeepsInv(s: State, d: Thread, n: nat)
    requires Inv(s) && Present(s, d) && OpEnabled(s, d, TakeFlock(n))
    ensures Inv(OpStep(s, d, TakeFlock(n)))
  {
    assert FrameInv(d, s.threads[d], s.procs[d.proc]);
    ThreadStepKeepsLocks(s, OpStep(s, d, TakeFlock(n)), d);
  }

  lemma DropFlockKeepsInv(s: State, d: Thread)
    requires Inv(s) && Present(s, d) && OpEnabled(s, d, DropFlock)
    ensures Inv(OpStep(s, d, DropFlock))
  {
    assert FrameInv(d, s.threads[d], s.procs[d.proc]);
    assert s.flock == Some(d) && HolderInv(s.main, s.threads[d].phase);
    var s' := SetPhase(s, d, Unlocking).(flock := None);
    ThreadStepKeepsLocks(s, s', d);
    assert HolderPhase(s') == Attempt(0) && s'.main == s.main;
  }

  lemma DropMutexKeepsInv(s: State, d: Thread)
    requires Inv(s) && Present(s, d) && OpEnabled(s, d, DropMutex)
    ensures Inv(OpStep(s, d, DropMutex))
  {
    assert FrameInv(d, s.threads[d], s.procs[d.proc]);
    ThreadStepKeepsLocks(s, OpStep(s, d, DropMutex), d);
  }

  /** With no Main process there is nobody to park. */
  lemma NobodyToPark(m: MainState)
    requires MainInv(m) && m.alive == {} && Untouched(m)
    ensures WindowInv(m, Window({}, m.gpo, true))
  {
  }

  lemma FindMainKeepsInv(s: State, d: Thread)
    requires Inv(s) && Present(s, d) && OpEnabled(s, d, FindMain)
    ensures Inv(OpStep(s, d, FindMain))
  {
    var left := s.threads[d].phase.left;
    var m := s.main;
    assert HolderPhase(s) == Attempt(left);
    if left == 0 {
      HolderMoves(s, d, m, GivingUp(m.alive));
      assert OpStep(s, d, FindMain) == SetPhase(s, d, GivingUp(m.alive)).(main := m);
    } else if m.alive == {} {
      NobodyToPark(m);
      OpenBodyKeepsInv(s, d, Window({}, m.gpo, true));
      assert OpStep(s, d, FindMain) == OpenBody(s, d, Window({}, m.gpo, true));
    } else {
      HolderMoves(s, d, m, Stopping(left - 1, m.alive, m.alive));
      assert OpStep(s, d, FindMain) == SetPhase(s, d, Stopping(left - 1, m.alive, m.alive)).(main := m);
    }
  }

  lemma JudgeKeepsInv(s: State, d: Thread)
    requires Inv(s) && Present(s, d) && OpEnabled(s, d, Judge)
    ensures Inv(OpStep(s, d, Judge))
  {
    var ph := s.threads[d].phase;
    assert HolderInv(s.main, ph);
    if Busy(ph.word) {
      HolderMoves(s, d, s.main, BackingOff(ph.left, ph.pids));
    } else {
      OpenBodyKeepsInv(s, d, Window(ph.pids, ph.word, true));
    }
  }

  lemma FailOpenKeepsInv(s: State, d: Thread)
    requires Inv(s) && Present(s, d) && OpEnabled(s, d, FailOpen)
    ensures Inv(OpStep(s, d, FailOpen))
  {
    assert HolderInv(s.main, s.threads[d].phase);
    OpenBodyKeepsInv(s, d, Window({}, 0, false));
  }

  lemma PollKeepsInv(s: State, d: Thread)
    requires Inv(s) && Present(s, d) && OpEnabled(s, d, PollStart)
    ensures Inv(OpStep(s, d, PollStart))
  {
    var ph := s.threads[d].phase;
    assert HolderInv(s.main, ph);
    HolderMoves(s, d, s.main, Polling(ph.left, ph.pids, TasksOf(s.main, ph.pids)));
  }

  lemma SeeStoppedKeepsInv(s: State, d: Thread, t: Task)
    requires Inv(s) && Present(s, d) && OpEnabled(s, d, SeeStopped(t))
    ensures Inv(OpStep(s, d, SeeStopped(t)))
  {
    var ph := s.threads[d].phase;
    assert HolderInv(s.main, ph);
    HolderMoves(s, d, s.main, Polling(ph.left, ph.pids, ph.unseen - {t}));
  }

  lemma SampleKeepsInv(s: State, d: Thread)
    requires Inv(s) && Present(s, d) && OpEnabled(s, d, Sample)
    ensures Inv(OpStep(s, d, Sample))
  {
    var ph := s.threads[d].phase;
    assert HolderInv(s.main, ph);
    HolderMoves(s, d, s.main, Sampled(ph.left, ph.pids, s.main.gpo));
  }

  lemma BackOffKeepsInv(s: State, d: Thread, op: Op)
    requires Inv(s) && Present(s, d) && OpEnabled(s, d, op) && (op.PollTimeout? || op.Retry?)
    ensures Inv(OpStep(s, d, op))
  {
    var ph := s.threads[d].phase;
    assert HolderInv(s.main, ph);
    HolderMoves(s, d, s.main, if op.Retry? then Attempt(ph.left) else BackingOff(ph.left, ph.pids));
  }

  lemma SendStopKeepsInv(s: State, d: Thread, p: nat)
    requires Inv(s) && Present(s, d) && OpEnabled(s, d, SendStop(p))
    ensures Inv(OpStep(s, d, SendStop(p)))
  {
    var ph := s.threads[d].phase;
    assert HolderInv(s.main, ph);
    HolderMoves(s, d, Stop(s.main, p), Stopping(ph.left, ph.pids, ph.todo - {p}));
  }

  lemma ContinueKeepsMain(m: MainState, p: nat, ph: Phase)
    requires MainInv(m) && HolderInv(m, ph) && p in Todo(ph)
    ensures MainInv(Continue(m, p)) && HolderInv(Continue(m, p), Without(ph, p))
  {
  }

  lemma SendContKeepsInv(s: State, d: Thread, p: nat)
    requires Inv(s) && Present(s, d) && OpEnabled(s, d, SendCont(p))
    ensures Inv(OpStep(s, d, SendCont(p)))
  {
    var ph := s.threads[d].phase;
    assert HolderInv(s.main, ph);
    ContinueKeepsMain(s.main, p, ph);
    HolderMoves(s, d, Continue(s.main, p), Without(ph, p));
  }

  lemma StoreKeepsInv(s: State, d: Thread, w: Word)
    requires Inv(s) && Present(s, d) && OpEnabled(s, d, Store(w))
    ensures Inv(OpStep(s, d, Store(w)))
  {
    assert HolderInv(s.main, s.threads[d].phase) && FrameInv(d, s.threads[d], s.procs[d.proc]);
    ThreadStepKeepsLocks(s, OpStep(s, d, Store(w)), d);
  }

  /** Writing the saved word back hands the register over as Main left it. */
  lemma RestoreHandsBack(m: MainState, win: Window)
    requires MainInv(m) && WindowInv(m, win)
    ensures var m' := if win.safe && m.mapped then m.(gpo := win.saved) else m;
            MainInv(m') && HolderInv(m', Resuming(if m.alive == {} then win.pids else m.alive))
  {
  }

  lemma RestoreKeepsInv(s: State, d: Thread)
    requires Inv(s) && Present(s, d) && OpEnabled(s, d, Restore)
    ensures Inv(OpStep(s, d, Restore))
  {
    var win := s.threads[d].phase.win;
    assert HolderInv(s.main, Restoring(win));
    RestoreHandsBack(s.main, win);
    HolderMoves(s, d, OpStep(s, d, Restore).main,
                Resuming(if s.main.alive == {} then win.pids else s.main.alive));
  }

  lemma DaemonStepKeepsInv(s: State, d: Thread, op: Op)
    requires Inv(s) && Present(s, d) && OpEnabled(s, d, op)
    ensures Inv(OpStep(s, d, op))
  {
    match op
    case Enter => FramesKeepInv(s, d, op);
    case TakeFlock(n) => TakeFlockKeepsInv(s, d, n);
    case FindMain => FindMainKeepsInv(s, d);
    case SendStop(p) => SendStopKeepsInv(s, d, p);
    case PollStart => PollKeepsInv(s, d);
    case SeeStopped(t) => SeeStoppedKeepsInv(s, d, t);
    case PollTimeout => BackOffKeepsInv(s, d, op);
    case Sample => SampleKeepsInv(s, d);
    case Judge => JudgeKeepsInv(s, d);
    case SendCont(p) => SendContKeepsInv(s, d, p);
    case Retry => BackOffKeepsInv(s, d, op);
    case FailOpen => FailOpenKeepsInv(s, d);
    case Store(w) => StoreKeepsInv(s, d, w);
    case Leave => FramesKeepInv(s, d, op);
    case Restore => RestoreKeepsInv(s, d);
    case DropFlock => DropFlockKeepsInv(s, d);
    case DropMutex => DropMutexKeepsInv(s, d);
  }

  lemma StepKeepsInv(s: State, a: Action)
    requires Inv(s) && Enabled(s, a)
    ensures Inv(Apply(s, a))
  {
    match a
    case Main(act) =>
      MainStepKeepsMain(s.main, act);
      MainStepKeepsHolder(s.main, act, HolderPhase(s));
    case Daemon(d, op) => DaemonStepKeepsInv(s, d, op);
  }

  // ------------------------------------------------------------------ runs

  ghost predicate IsRun(states: seq<State>, acts: seq<Action>) {
    && |states| == |acts| + 1
    && Init(states[0])
    && forall i :: 0 <= i < |acts| ==> Enabled(states[i], acts[i]) && states[i + 1] == Apply(states[i], acts[i])
  }

  lemma {:induction false} RunKeepsInv(states: seq<State>, acts: seq<Action>, i: nat)
    requires IsRun(states, acts) && i < |states|
    ensures Inv(states[i])
  {
    if i > 0 {
      RunKeepsInv(states, acts, i - 1);
      StepKeepsInv(states[i - 1], acts[i - 1]);
    }
  }

  /** Every Main task has stopped, outside any transaction and any ACK wait. */
  ghost predicate MainParked(m: MainState) {
    AllStopped(m) && !m.handshake && (m.tasks != map[] ==> !Busy(m.shadow))
  }

  lemma StoringNeedsSafeWindow(s: State, d: Thread, op: Op)
    requires Inv(s) && Present(s, d) && OpEnabled(s, d, op)
    requires op.Store? || OpStep(s, d, op).main.gpo != s.main.gpo
    ensures MainParked(s.main)
  {
    assert op.Store? || op.Restore?;
    assert FrameInv(d, s.threads[d], s.procs[d.proc]);
    assert HolderInv(s.main, s.threads[d].phase);
  }

  /** In every run the daemon stores to GPO only while Main is parked. */
  lemma DaemonStoresOnlyWhileParked(states: seq<State>, acts: seq<Action>, i: nat)
    requires IsRun(states, acts) && i < |acts| && acts[i].Daemon?
    requires acts[i].op.Store? || states[i + 1].main.gpo != states[i].main.gpo
    ensures MainParked(states[i].main)
    ensures !states[i].main.handshake && forall t :: t in states[i].main.tasks ==> states[i].main.tasks[t]
  {
    RunKeepsInv(states, acts, i);
    StoringNeedsSafeWindow(states[i], acts[i].d, acts[i].op);
  }

  /** Main's strobe and its three enables are down. */
  lemma BusyBits(w: Word)
    ensures !Busy(w) <==> w & 0x2_0000 == 0 && w & 0x4_0000 == 0 && w & 0x8_0000 == 0 && w & 0x10_0000 == 0
  {
  }

  /** In every run, whenever a daemon step stores to GPO or changes it, Main's last word has the strobe (bit 17)
      and FPGA_EN, OSD_EN and IO_EN (bits 18 to 20) down. */
  lemma StoresWithEnablesDown(states: seq<State>, acts: seq<Action>, i: nat)
    requires IsRun(states, acts) && i < |acts| && acts[i].Daemon? && states[i].main.tasks != map[]
    requires acts[i].op.Store? || states[i + 1].main.gpo != states[i].main.gpo
    ensures var w := states[i].main.shadow;
            w & 0x2_0000 == 0 && w & 0x4_0000 == 0 && w & 0x8_0000 == 0 && w & 0x10_0000 == 0
  {
    DaemonStoresOnlyWhileParked(states, acts, i);
    BusyBits(states[i].main.shadow);
  }

  /** A sampled word opens the window exactly when those four bits are clear; otherwise the daemon backs off. */
  lemma JudgeOpensIff(s: State, d: Thread)
    requires Present(s, d) && OpEnabled(s, d, Judge)
    ensures var w := s.threads[d].phase.word;
            var ph := OpStep(s, d, Judge).threads[d].phase;
            if w & 0x2_0000 == 0 && w & 0x4_0000 == 0 && w & 0x8_0000 == 0 && w & 0x10_0000 == 0
            then ph == Body(Window(s.threads[d].phase.pids, w, true))
            else ph == BackingOff(s.threads[d].phase.left, s.threads[d].phase.pids)
  {
    BusyBits(s.threads[d].phase.word);
  }

  /** The attempts that a phase still has. */
  function Left(ph: Phase): nat {
    match ph
    case Attempt(left) => left
    case Stopping(left, _, _) => left
    case Polling(left, _, _) => left
    case Sampled(left, _, _) => left
    case BackingOff(left, _) => left
    case _ => 0
  }

  /** Every round of SIGSTOP uses up an attempt, nothing gives one back, and without one left the daemon gives up. */
  lemma AttemptsRunOut(s: State, d: Thread, op: Op)
    requires Present(s, d) && OpEnabled(s, d, op) && !op.TakeFlock?
    ensures var ph, ph' := s.threads[d].phase, OpStep(s, d, op).threads[d].phase;
            && Left(ph') <= Left(ph)
            && (ph'.Stopping? && !ph.Stopping? ==> Left(ph') + 1 == Left(ph))
            && (op.FindMain? && ph.left == 0 ==> ph' == GivingUp(s.main.alive))
            && (op.FindMain? && ph.left > 0 && s.main.alive != {} ==> ph'.Stopping? && ph'.todo == ph'.pids == s.main.alive)
  {
  }

  /** In every run a Main task that runs sees the register exactly as Main left it. */
  lemma RunningMainOwnsGpo(states: seq<State>, acts: seq<Action>, i: nat, t: Task)
    requires IsRun(states, acts) && i < |states| && Runs(states[i].main, t)
    ensures states[i].main.gpo == states[i].main.shadow
  {
    RunKeepsInv(states, acts, i);
    assert !AllStopped(states[i].main);
  }

  /** In every run, a frame that was opened inside another one neither restores nor resumes,
      and the outermost one always goes on to restore. */
  lemma NestedFrameIsInert(states: seq<State>, acts: seq<Action>, i: nat, d: Thread)
    requires IsRun(states, acts) && i < |acts| && acts[i] == Daemon(d, Leave)
    ensures |states[i].threads[d].frames| > 1 ==> states[i + 1].threads[d].phase == states[i].threads[d].phase
    ensures |states[i].threads[d].frames| == 1 ==> states[i + 1].threads[d].phase.Restoring?
    ensures states[i + 1].main == states[i].main && states[i + 1].flock == states[i].flock
  {
    RunKeepsInv(states, acts, i);
    LeaveIsInert(states[i], d);
  }

  lemma LeaveIsInert(s: State, d: Thread)
    requires Inv(s) && Present(s, d) && OpEnabled(s, d, Leave)
    ensures var s' := LeaveFrame(s, d);
            && (|s.threads[d].frames| > 1 ==> s'.threads[d].phase == s.threads[d].phase)
            && (|s.threads[d].frames| == 1 ==> s'.threads[d].phase.Restoring?)
            && s'.main == s.main && s'.flock == s.flock
  {
    assert FrameInv(d, s.threads[d], s.procs[d.proc]);
  }

  /** Main runs, as it left the register. */
  ghost predicate MainIsItself(m: MainState) {
    m.stopReq == {} && (forall t :: t in m.tasks ==> Runs(m, t)) && (m.tasks != map[] ==> m.gpo == m.shadow)
  }

  /** In every run, whenever the flock is free Main runs and owns the register, whatever threads of
      other frames and processes are doing. */
  lemma MainRunsWhileLockIsFree(states: seq<State>, acts: seq<Action>, i: nat)
    requires IsRun(states, acts) && i < |states| && states[i].flock == None
    ensures var m := states[i].main;
            m.stopReq == {} && (forall t :: t in m.tasks ==> !m.tasks[t]) && (m.tasks != map[] ==> m.gpo == m.shadow)
  {
    RunKeepsInv(states, acts, i);
  }

  /** In every run every exit resumes Main: the step that ends a window, and the step that gives up and
      goes on without one, leave every Main task running and the register Main's. */
  lemma EveryExitResumesMain(states: seq<State>, acts: seq<Action>, i: nat)
    requires IsRun(states, acts) && i < |acts| && acts[i].Daemon? && (acts[i].op.DropFlock? || acts[i].op.FailOpen?)
    ensures var m := states[i + 1].main;
            m.stopReq == {} && (forall t :: t in m.tasks ==> !m.tasks[t]) && (m.tasks != map[] ==> m.gpo == m.shadow)
  {
    RunKeepsInv(states, acts, i);
    ExitResumes(states[i], acts[i].d, acts[i].op);
  }

  lemma ExitResumes(s: State, d: Thread, op: Op)
    requires Inv(s) && Present(s, d) && OpEnabled(s, d, op) && (op.DropFlock? || op.FailOpen?)
    ensures MainIsItself(OpStep(s, d, op).main)
  {
    assert s.flock == Some(d) && HolderInv(s.main, s.threads[d].phase);
  }

  /** In every run the body after giving up never stores: Main goes on as it was. */
  lemma UnsafeBodyLeavesMainAlone(states: seq<State>, acts: seq<Action>, i: nat, d: Thread, w: Word)
    requires IsRun(states, acts) && i < |states| && d in states[i].threads
    requires states[i].threads[d].phase.Body? && !states[i].threads[d].phase.win.safe
    ensures MainIsItself(states[i].main) && !Enabled(states[i], Daemon(d, Store(w)))
  {
    RunKeepsInv(states, acts, i);
    assert FrameInv(d, states[i].threads[d], states[i].procs[d.proc]);
    assert HolderInv(states[i].main, states[i].threads[d].phase);
  }

  // ------------------------------------------------------------------ resuming a stranded Main

  /** mainPauseDepth() of process `c` is not zero. */
  ghost predicate Pausing(s: State, c: nat) {
    exists d :: d in s.threads && d.proc == c && HoldsFlock(s.threads[d].phase)
  }

  /** The first step of resumeStrandedMain() in process `c`: it loads its pause counter and finds zero. */
  ghost predicate LoadsZero(s: State, c: nat) { c in s.procs && !Pausing(s, c) }

  /** The second step: it finds `p` stopped and signals it. Anything may happen between the two. */
  ghost predicate SignalEnabled(s: State, p: nat) {
    exists t :: t in s.main.tasks && t.pid == p && s.main.tasks[t]
  }

  function Resumed(s: State, p: nat): State { s.(main := Continue(s.main, p)) }

  lemma OnlyTakeFlockLocks(s: State, a: Action)
    requires Enabled(s, a) && s.flock == None && !(a.Daemon? && a.op.TakeFlock?)
    ensures Apply(s, a).flock == None
  {
  }

  lemma {:induction false} FlockStaysFree(states: seq<State>, acts: seq<Action>, j: nat, i: nat)
    requires IsRun(states, acts) && j <= i < |states| && states[j].flock == None
    requires forall k :: j <= k < i ==> !(acts[k].Daemon? && acts[k].op.TakeFlock?)
    ensures states[i].flock == None
  {
    if j < i {
      FlockStaysFree(states, acts, j, i - 1);
      OnlyTakeFlockLocks(states[i - 1], acts[i - 1]);
    }
  }

  /** With one daemon process, the signal of a resume finds nothing stopped if no window of the process was
      opened since the load. */
  lemma OneProcessStrandsNothing(states: seq<State>, acts: seq<Action>, j: nat, i: nat, c: nat, p: nat)
    requires IsRun(states, acts) && j <= i < |states| && LoadsZero(states[j], c)
    requires forall d :: d in states[j].threads ==> d.proc == c
    requires forall k :: j <= k < i ==> !(acts[k].Daemon? && acts[k].op.TakeFlock?)
    ensures !SignalEnabled(states[i], p) && Inv(Resumed(states[i], p))
  {
    RunKeepsInv(states, acts, j);
    RunKeepsInv(states, acts, i);
    FreeUnlessPausing(states[j], c);
    FlockStaysFree(states, acts, j, i);
    ResumeKeepsInvIff(states[i], p);
  }

  lemma FreeUnlessPausing(s: State, c: nat)
    requires Inv(s) && !Pausing(s, c) && forall d :: d in s.threads ==> d.proc == c
    ensures s.flock == None
  {
    assert forall d :: d in s.threads ==> !HoldsFlock(s.threads[d].phase);
  }

  lemma ResumeKeepsMain(m: MainState, p: nat, ph: Phase)
    requires MainInv(m) && HolderInv(m, ph) && HoldsFlock(ph) && p in m.stopReq
    ensures MainInv(Continue(m, p)) && (HolderInv(Continue(m, p), ph) <==> Todo(ph) != {})
  {
    assert p in m.alive && p !in Continue(m, p).stopReq;
    assert Continue(m, p).alive == m.alive && Continue(m, p).tasks.Keys == m.tasks.Keys;
  }

  lemma ResumeOfRunning(m: MainState, p: nat)
    requires MainInv(m) && p !in m.stopReq
    ensures Continue(m, p) == m
  {
    assert forall t :: t in m.tasks && t.pid == p ==> !m.tasks[t];
    assert Continue(m, p).tasks == m.tasks;
    assert m.stopReq - {p} == m.stopReq;
  }

  lemma StoppedForAWindow(s: State, p: nat)
    requires Inv(s) && p in s.main.stopReq
    ensures s.flock.Some? && s.flock.value in s.threads && HoldsFlock(HolderPhase(s))
  {
  }

  /** The invariant survives a resume of `p` by another process exactly when `p` was not stopped for a
      window, or the window's owner is already sending SIGCONT. */
  lemma ResumeKeepsInvIff(s: State, p: nat)
    requires Inv(s)
    ensures Inv(Resumed(s, p)) <==> p !in s.main.stopReq || Todo(HolderPhase(s)) != {}
  {
    if p in s.main.stopReq {
      StoppedForAWindow(s, p);
      ResumeKeepsMain(s.main, p, HolderPhase(s));
      SameLocks(s, Resumed(s, p));
    } else {
      ResumeOfRunning(s.main, p);
    }
  }

  lemma SameLocks(s: State, s': State)
    requires s' == s.(main := s'.main)
    ensures (LockInv(s) <==> LockInv(s')) && HolderPhase(s) == HolderPhase(s')
  {
  }

  /** What a broken invariant means in an open window: Main runs while the owner may still store to GPO. */
  lemma StrandedResumeBreaksWindow(states: seq<State>, acts: seq<Action>, i: nat, d: Thread, t: Task, w: Word)
    requires IsRun(states, acts) && i < |states|
    requires t in states[i].main.tasks && Enabled(states[i], Daemon(d, Store(w)))
    ensures !Runs(states[i].main, t) && !Inv(Resumed(states[i], t.pid))
    ensures Runs(Resumed(states[i], t.pid).main, t) && Enabled(Resumed(states[i], t.pid), Daemon(d, Store(w)))
  {
    RunKeepsInv(states, acts, i);
    StoringNeedsSafeWindow(states[i], d, Store(w));
    ResumeKeepsInvIff(states[i], t.pid);
    assert HolderPhase(states[i]) == states[i].threads[d].phase;
  }

  // ------------------------------------------------------------------ a run that opens a window

  const MAIN_TASK := Task(1, 1)
  const OWNER := Thread(0, 0)

  function MainWith(stopReq: set<nat>, stopped: bool): MainState {
    MainState({1}, stopReq, map[MAIN_TASK := stopped], 0, 0, false, true)
  }

  predicate Snapshot(s: State, m: MainState, ph: Phase) {
    && s.main == m && s.threads.Keys == {OWNER} && s.threads[OWNER].phase == ph
    && 0 in s.procs && 1 in s.procs && (!HoldsFlock(ph) ==> s.flock == None)
  }

  /** The run has come to the owner's phase `ph` and Main's state `m`; process 1 has no thread inside. */
  ghost predicate Reaches(states: seq<State>, acts: seq<Action>, m: MainState, ph: Phase) {
    IsRun(states, acts) && Snapshot(states[0], MainWith({}, false), Idle) && Snapshot(states[|acts|], m, ph)
  }

  /** One more step of a run. */
  lemma Extend(states: seq<State>, acts: seq<Action>, a: Action, m: MainState, ph: Phase)
    returns (states': seq<State>, acts': seq<Action>)
    requires IsRun(states, acts) && Snapshot(states[0], MainWith({}, false), Idle)
    requires Enabled(states[|acts|], a) && Snapshot(Apply(states[|acts|], a), m, ph)
    ensures Reaches(states', acts', m, ph) && states'[|acts'|] == Apply(states[|acts|], a)
  {
    states', acts' := states + [Apply(states[|acts|], a)], acts + [a];
  }

  lemma RunToAttempt() returns (states: seq<State>, acts: seq<Action>)
    ensures Reaches(states, acts, MainWith({}, false), Attempt(1))
  {
    var m, procs := MainWith({}, false), map[0 := Proc(None, 0, false), 1 := Proc(None, 0, false)];
    states, acts := [State(m, None, procs, map[OWNER := ThreadState(Idle, [])])], [];
    states, acts := Extend(states, acts, Daemon(OWNER, Enter), m, WantFlock);
    states, acts := Extend(states, acts, Daemon(OWNER, TakeFlock(1)), m, Attempt(1));
  }

  /** Main is found. */
  lemma RunToStopping() returns (states: seq<State>, acts: seq<Action>)
    ensures Reaches(states, acts, MainWith({}, false), Stopping(0, {1}, {1}))
  {
    states, acts := RunToAttempt();
    states, acts := Extend(states, acts, Daemon(OWNER, FindMain), MainWith({}, false), Stopping(0, {1}, {1}));
  }

  /** Main is told to stop, and its task stops. */
  lemma RunToTold() returns (states: seq<State>, acts: seq<Action>)
    ensures Reaches(states, acts, MainWith({1}, false), Stopping(0, {1}, {}))
  {
    states, acts := RunToStopping();
    assert Stop(MainWith({}, false), 1) == MainWith({1}, false) && {1} - {1} == {};
    states, acts := Extend(states, acts, Daemon(OWNER, SendStop(1)), MainWith({1}, false), Stopping(0, {1}, {}));
  }

  lemma RunToStopped() returns (states: seq<State>, acts: seq<Action>)
    ensures Reaches(states, acts, MainWith({1}, true), Stopping(0, {1}, {}))
  {
    states, acts := RunToTold();
    states, acts := Extend(states, acts, Main(MainTaskStops(MAIN_TASK)), MainWith({1}, true), Stopping(0, {1}, {}));
  }

  /** Its task is seen to have stopped, and the register is read. */
  lemma RunToPolling() returns (states: seq<State>, acts: seq<Action>)
    ensures Reaches(states, acts, MainWith({1}, true), Polling(0, {1}, {MAIN_TASK}))
  {
    states, acts := RunToStopped();
    assert TasksOf(MainWith({1}, true), {1}) == {MAIN_TASK};
    states, acts := Extend(states, acts, Daemon(OWNER, PollStart), MainWith({1}, true), Polling(0, {1}, {MAIN_TASK}));
  }

  lemma RunToSeen() returns (states: seq<State>, acts: seq<Action>)
    ensures Reaches(states, acts, MainWith({1}, true), Polling(0, {1}, {}))
  {
    states, acts := RunToPolling();
    assert {MAIN_TASK} - {MAIN_TASK} == {};
    states, acts := Extend(states, acts, Daemon(OWNER, SeeStopped(MAIN_TASK)), MainWith({1}, true), Polling(0, {1}, {}));
  }

  lemma RunToSampled() returns (states: seq<State>, acts: seq<Action>)
    ensures Reaches(states, acts, MainWith({1}, true), Sampled(0, {1}, 0))
  {
    states, acts := RunToSeen();
    states, acts := Extend(states, acts, Daemon(OWNER, Sample), MainWith({1}, true), Sampled(0, {1}, 0));
  }

  lemma RunToBody() returns (states: seq<State>, acts: seq<Action>)
    ensures Reaches(states, acts, MainWith({1}, true), Body(Window({1}, 0, true)))
    ensures Enabled(states[|acts|], Daemon(OWNER, Store(0)))
  {
    states, acts := RunToSampled();
    assert !Busy(0);
    states, acts := Extend(states, acts, Daemon(OWNER, Judge), MainWith({1}, true), Body(Window({1}, 0, true)));
  }

  /**
   A run of one process reaches an open window over a stopped Main task. The process's own watchdog, which
   loaded its counter before the run, and a second process, which loads it now, may both signal that task:
   it then runs while the owner may still store.
   */
  lemma WindowIsReached() returns (states: seq<State>, acts: seq<Action>)
    ensures IsRun(states, acts) && (forall d :: d in states[0].threads ==> d.proc == OWNER.proc)
    ensures var s := states[|acts|];
            && LoadsZero(states[0], OWNER.proc) && LoadsZero(s, 1)
            && SignalEnabled(s, MAIN_TASK.pid) && !Inv(Resumed(s, MAIN_TASK.pid))
            && Runs(Resumed(s, MAIN_TASK.pid).main, MAIN_TASK)
            && Enabled(Resumed(s, MAIN_TASK.pid), Daemon(OWNER, Store(0)))
  {
    states, acts := RunToBody();
    assert states[|acts|].main.tasks[MAIN_TASK];
    StrandedResumeBreaksWindow(states, acts, |acts|, OWNER, MAIN_TASK, 0);
  }
}
