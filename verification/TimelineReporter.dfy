/**
 The PMS timeline reporter (arm/misterplexd/pms_timeline.cpp): which updates are
 worth sending, a queue of at most four with a priority drop policy, and a worker
 that drains it. Deciding and enqueueing are separate lock sections.
 */
module TimelineReporter {
  import opened Options

  datatype PlayState = Playing | Paused | Stopped | Buffering | Ended | Other(text: string)

  const MAX_QUEUE := 4
  const PLAYING_CADENCE_MS := 1000

  // ------------------------------------------------------------------ the queue

  /** An update and its enqueue number. */
  datatype Pending = Pending(no: nat, state: PlayState)

  /** The queue and worker, with the history of every update. */
  datatype Queue = Queue(
    waiting: seq<Pending>, inFlight: Option<Pending>, stopping: bool, exited: bool,
    enqueued: seq<Pending>, sent: seq<Pending>, dropped: seq<Pending>)

  datatype Step = Enqueue(state: PlayState) | Take | Finish | RequestStop | Exit

  /** Index of the first update that is not "stopped", or the length if all are. */
  function FirstUnprotected(q: seq<Pending>): (i: nat)
    ensures i <= |q| && (i < |q| ==> !q[i].state.Stopped?)
    ensures forall k :: 0 <= k < i ==> q[k].state.Stopped?
  {
    if q == [] || !q[0].state.Stopped? then 0 else 1 + FirstUnprotected(q[1..])
  }

  /** Where a full queue makes room: the oldest update that is not "stopped", else the oldest. */
  function Victim(q: seq<Pending>): (i: nat)
    requires q != []
    ensures i < |q|
    ensures q[i].state.Stopped? ==> i == 0 && forall k :: 0 <= k < |q| ==> q[k].state.Stopped?
    ensures forall k :: 0 <= k < i ==> q[k].state.Stopped?
  {
    if FirstUnprotected(q) < |q| then FirstUnprotected(q) else 0
  }

  function Without(q: seq<Pending>, i: nat): (r: seq<Pending>)
    requires i < |q|
    ensures |r| == |q| - 1
  {
    q[..i] + q[i + 1..]
  }

  function Push(q: Queue, state: PlayState): Queue {
    var p := Pending(|q.enqueued|, state);
    var q1 := q.(enqueued := q.enqueued + [p]);
    if |q.waiting| >= MAX_QUEUE then
      var v := Victim(q.waiting);
      q1.(waiting := Without(q.waiting, v) + [p], dropped := q.dropped + [q.waiting[v]])
    else q1.(waiting := q.waiting + [p])
  }

  predicate Enabled(q: Queue, a: Step) {
    match a
    case Enqueue(_) => true
    case Take => !q.exited && q.inFlight == None && q.waiting != []
    case Finish => q.inFlight.Some?
    case RequestStop => true
    case Exit => !q.exited && q.inFlight == None && q.waiting == [] && q.stopping
  }

  function Apply(q: Queue, a: Step): Queue
    requires Enabled(q, a)
  {
    match a
    case Enqueue(state) => Push(q, state)
    case Take => q.(inFlight := Some(q.waiting[0]), waiting := q.waiting[1..])
    case Finish => q.(inFlight := None, sent := q.sent + [q.inFlight.value])
    case RequestStop => q.(stopping := true)
    case Exit => q.(exited := true)
  }

  function InFlightSeq(q: Queue): seq<Pending> { if q.inFlight.Some? then [q.inFlight.value] else [] }

  /** Everything not dropped, in the order it goes out. */
  function Line(q: Queue): seq<Pending> { q.sent + InFlightSeq(q) + q.waiting }

  ghost predicate InOrder(s: seq<Pending>) { forall i, j :: 0 <= i < j < |s| ==> s[i].no < s[j].no }

  /** The books balance: what goes out, in order, and what was dropped are together exactly what was
      enqueued, each update once. */
  ghost predicate Books(line: seq<Pending>, dropped: seq<Pending>, enqueued: seq<Pending>) {
    && (forall i :: 0 <= i < |enqueued| ==> enqueued[i].no == i)
    && (forall i :: 0 <= i < |line| ==> line[i].no < |enqueued| && enqueued[line[i].no] == line[i])
    && InOrder(line)
    && multiset(line) + multiset(dropped) == multiset(enqueued)
  }

  /** Every update ever enqueued is exactly one of sent, in flight, waiting or dropped, and what goes
      out keeps the order of enqueueing. */
  ghost predicate Conserved(q: Queue) {
    |q.waiting| <= MAX_QUEUE && Books(Line(q), q.dropped, q.enqueued)
  }

  lemma InOrderWithout(a: seq<Pending>, q: seq<Pending>, i: nat)
    requires i < |q| && InOrder(a + q)
    ensures InOrder(a + Without(q, i))
  {
    var r := a + Without(q, i);
    var at := (k: int) => if k < |a| + i then k else k + 1;
    assert forall k :: 0 <= k < |r| ==> r[k] == (a + q)[at(k)];
  }

  lemma WithoutIsMultisetMinus(q: seq<Pending>, i: nat)
    requires i < |q|
    ensures multiset(Without(q, i)) + multiset{q[i]} == multiset(q)
  {
    assert q == q[..i] + [q[i]] + q[i + 1..];
  }

  lemma BooksAppend(line: seq<Pending>, dropped: seq<Pending>, enqueued: seq<Pending>, p: Pending)
    requires Books(line, dropped, enqueued) && p.no == |enqueued|
    ensures Books(line + [p], dropped, enqueued + [p])
  {
  }

  lemma PushRoom(q: Queue, state: PlayState)
    requires Conserved(q) && |q.waiting| < MAX_QUEUE
    ensures Conserved(Push(q, state))
  {
    var p := Pending(|q.enqueued|, state);
    assert Line(Push(q, state)) == Line(q) + [p];
    BooksAppend(Line(q), q.dropped, q.enqueued, p);
  }

  /** A full queue gives up its victim and keeps the rest of the line in order. */
  lemma DropKeepsConserved(q: Queue)
    requires Conserved(q) && q.waiting != []
    ensures var v := Victim(q.waiting);
            Conserved(q.(waiting := Without(q.waiting, v), dropped := q.dropped + [q.waiting[v]]))
  {
    var v := Victim(q.waiting);
    var front := q.sent + InFlightSeq(q);
    var q' := q.(waiting := Without(q.waiting, v), dropped := q.dropped + [q.waiting[v]]);
    InOrderWithout(front, q.waiting, v);
    WithoutIsMultisetMinus(q.waiting, v);
    assert Line(q') == front + Without(q.waiting, v);
    forall i | 0 <= i < |Line(q')|
      ensures Line(q')[i].no < |q.enqueued| && q.enqueued[Line(q')[i].no] == Line(q')[i]
    {
      assert Line(q')[i] == if i < |front| + v then Line(q)[i] else Line(q)[i + 1];
    }
  }

  lemma PushKeepsConserved(q: Queue, state: PlayState)
    requires Conserved(q)
    ensures Conserved(Push(q, state))
  {
    if |q.waiting| >= MAX_QUEUE {
      var v := Victim(q.waiting);
      DropKeepsConserved(q);
      PushRoom(q.(waiting := Without(q.waiting, v), dropped := q.dropped + [q.waiting[v]]), state);
    } else {
      PushRoom(q, state);
    }
  }

  lemma StepKeepsConserved(q: Queue, a: Step)
    requires Conserved(q) && Enabled(q, a)
    ensures Conserved(Apply(q, a))
  {
    match a
    case Enqueue(state) => PushKeepsConserved(q, state);
    case Take => assert Line(Apply(q, a)) == Line(q);
    case Finish => assert Line(Apply(q, a)) == Line(q);
    case RequestStop => assert Line(Apply(q, a)) == Line(q);
    case Exit => assert Line(Apply(q, a)) == Line(q);
  }

  ghost predicate IsRun(qs: seq<Queue>, acts: seq<Step>) {
    && |qs| == |acts| + 1
    && qs[0] == Queue([], None, false, false, [], [], [])
    && forall i :: 0 <= i < |acts| ==> Enabled(qs[i], acts[i]) && qs[i + 1] == Apply(qs[i], acts[i])
  }

  /** In every run updates are conserved and keep their order, and at most four wait. */
  lemma {:induction false} UpdatesAreConserved(qs: seq<Queue>, acts: seq<Step>, i: nat)
    requires IsRun(qs, acts) && i < |qs|
    ensures Conserved(qs[i])
    ensures var line := Line(qs[i]); forall a, b :: 0 <= a < b < |line| ==> line[a].no < line[b].no
  {
    if i > 0 {
      UpdatesAreConserved(qs, acts, i - 1);
      StepKeepsConserved(qs[i - 1], acts[i - 1]);
    }
  }

  /** In every run a "stopped" update is dropped only when all four that wait are "stopped". */
  lemma StoppedDroppedOnlyUnderStopped(qs: seq<Queue>, acts: seq<Step>, i: nat)
    requires IsRun(qs, acts) && i < |acts| && qs[i + 1].dropped != qs[i].dropped
    ensures qs[i].dropped < qs[i + 1].dropped && |qs[i + 1].dropped| == |qs[i].dropped| + 1
    ensures qs[i + 1].dropped[|qs[i].dropped|].state.Stopped? ==>
              |qs[i].waiting| == MAX_QUEUE && forall k :: 0 <= k < MAX_QUEUE ==> qs[i].waiting[k].state.Stopped?
  {
    UpdatesAreConserved(qs, acts, i);
  }

  /** In every run at most four wait, and an update is dropped exactly when a fifth comes. */
  lemma DroppedIffFull(qs: seq<Queue>, acts: seq<Step>, i: nat)
    requires IsRun(qs, acts) && i < |acts|
    ensures |qs[i].waiting| <= 4
    ensures qs[i + 1].dropped != qs[i].dropped <==> acts[i].Enqueue? && |qs[i].waiting| == 4
    ensures acts[i].Enqueue? ==> qs[i + 1].waiting != [] && qs[i + 1].waiting[|qs[i + 1].waiting| - 1].state == acts[i].state
  {
    UpdatesAreConserved(qs, acts, i);
  }

  /** In every run the worker takes the oldest waiting update, and sends what it took. */
  lemma WorkerSendsInTurn(qs: seq<Queue>, acts: seq<Step>, i: nat)
    requires IsRun(qs, acts) && i < |acts|
    ensures acts[i].Take? ==> qs[i].waiting != [] && qs[i + 1].inFlight == Some(qs[i].waiting[0])
    ensures acts[i].Finish? ==> qs[i].inFlight.Some? && qs[i + 1].sent == qs[i].sent + [qs[i].inFlight.value]
  {
  }

  /** In every run the worker is gone only once everything enqueued before it left was sent or dropped. */
  lemma WorkerLeavesNothing(qs: seq<Queue>, acts: seq<Step>, i: nat)
    requires IsRun(qs, acts) && i < |acts| && qs[i + 1].exited && !qs[i].exited
    ensures qs[i].stopping && qs[i].waiting == [] && qs[i].inFlight == None
    ensures multiset(qs[i].sent) + multiset(qs[i].dropped) == multiset(qs[i].enqueued)
  {
    UpdatesAreConserved(qs, acts, i);
    assert Line(qs[i]) == qs[i].sent;
  }

  /** The worker alone gets from `q` to `q'`. */
  ghost predicate WorkerRun(q: Queue, q': Queue, qs: seq<Queue>, acts: seq<Step>) {
    && |qs| == |acts| + 1 && qs[0] == q && qs[|acts|] == q'
    && forall i :: 0 <= i < |acts| ==>
         acts[i] in {Take, Finish, Exit} && Enabled(qs[i], acts[i]) && qs[i + 1] == Apply(qs[i], acts[i])
  }

  lemma WorkerFirst(q: Queue, a: Step, q': Queue, qs: seq<Queue>, acts: seq<Step>)
    requires a in {Take, Finish, Exit} && Enabled(q, a) && WorkerRun(Apply(q, a), q', qs, acts)
    ensures WorkerRun(q, q', [q] + qs, [a] + acts)
  {
  }

  /** Once a stop is requested the worker, left alone, sends everything that waits, in order, and exits. */
  lemma {:induction false} WorkerDrains(q: Queue) returns (q': Queue, qs: seq<Queue>, acts: seq<Step>)
    requires q.stopping && !q.exited
    ensures WorkerRun(q, q', qs, acts)
    ensures q'.exited && q'.waiting == [] && q'.inFlight == None
    ensures q'.sent == q.sent + InFlightSeq(q) + q.waiting && q'.dropped == q.dropped
    decreases |q.waiting|, q.inFlight.Some?
  {
    if q.inFlight == None && q.waiting == [] {
      q' := Apply(q, Exit);
      qs, acts := [q, q'], [Exit];
    } else {
      var a := if q.inFlight.Some? then Finish else Take;
      q', qs, acts := WorkerDrains(Apply(q, a));
      WorkerFirst(q, a, q', qs, acts);
      qs, acts := [q] + qs, [a] + acts;
    }
  }

  /** A run of the given updates alone. */
  lemma {:induction false} RunOf(states: seq<PlayState>) returns (qs: seq<Queue>, acts: seq<Step>)
    requires |states| <= 4
    ensures IsRun(qs, acts) && |acts| == |states|
    ensures var q := qs[|acts|];
            && |q.waiting| == |states| && (forall i :: 0 <= i < |states| ==> q.waiting[i].state == states[i])
            && q.inFlight == None && q.sent == [] && q.dropped == [] && !q.exited && !q.stopping
  {
    if states == [] {
      qs, acts := [Queue([], None, false, false, [], [], [])], [];
    } else {
      var n := |states| - 1;
      qs, acts := RunOf(states[..n]);
      assert Enabled(qs[n], Enqueue(states[n]));
      qs, acts := qs + [Apply(qs[n], Enqueue(states[n]))], acts + [Enqueue(states[n])];
    }
  }

  /** Up to four updates before a stop all go out, in order, and then the worker exits. */
  lemma FewAreAllSent(states: seq<PlayState>) returns (qs: seq<Queue>, acts: seq<Step>)
    requires |states| <= 4
    ensures IsRun(qs, acts) && qs[|acts|].exited && qs[|acts|].dropped == []
    ensures |qs[|acts|].sent| == |states| && forall i :: 0 <= i < |states| ==> qs[|acts|].sent[i].state == states[i]
  {
    qs, acts := RunOf(states);
    var stopped := Apply(qs[|acts|], RequestStop);
    var q', more, next := WorkerDrains(stopped);
    qs, acts := qs + more, acts + [RequestStop] + next;
  }

  /** Callers are never kept waiting: an update or the stop is taken in any state. */
  lemma CallersNeverWait(q: Queue, state: PlayState)
    ensures Enabled(q, Enqueue(state)) && Enabled(q, RequestStop) && Apply(q, RequestStop) == q.(stopping := true)
  {
  }

  /** Nothing is sent once the worker is gone, whatever callers still enqueue. */
  lemma {:induction false} NothingAfterExit(qs: seq<Queue>, acts: seq<Step>, i: nat, j: nat)
    requires IsRun(qs, acts) && i <= j < |qs| && qs[i].exited
    ensures qs[j].exited && qs[j].inFlight == None && qs[j].sent == qs[i].sent
    decreases i + j
  {
    if j > i {
      NothingAfterExit(qs, acts, i, j - 1);
    } else if i > 0 && qs[i - 1].exited {
      NothingAfterExit(qs, acts, i - 1, i);
    }
  }

  // ------------------------------------------------------------------ what is worth sending

  /** active_, lastSentState_ and lastPlayingSent_. */
  datatype Desk = Desk(active: bool, last: Option<PlayState>, lastPlaying: Option<nat>)

  /** A call at time `now`; `buildable` says whether a request can be built for it. */
  datatype Call =
    | Begin(now: nat, buildable: bool)
    | ReportAs(state: PlayState, now: nat, buildable: bool)
    | EndSession(now: nat, buildable: bool)

  datatype Emission = Emission(state: PlayState, at: nat)

  predicate ShouldSend(d: Desk, state: PlayState, now: nat) {
    || state.Stopped?
    || Some(state) != d.last
    || (state.Playing? && (d.lastPlaying == None || now >= d.lastPlaying.value + PLAYING_CADENCE_MS))
  }

  predicate ValidState(s: PlayState) { s.Playing? || s.Paused? || s.Stopped? || s.Buffering? }

  function Decide(d: Desk, c: Call): (Desk, Option<PlayState>) {
    match c
    case Begin(now, ok) =>
      if ok then (Desk(true, Some(Buffering), None), Some(Buffering)) else (Desk(false, None, None), None)
    case ReportAs(Ended, now, ok) => DecideEnd(d, ok)
    case ReportAs(state, now, ok) =>
      if !d.active || !ShouldSend(d, state, now) || !ok || !ValidState(state) then (d, None)
      else (d.(last := Some(state), lastPlaying := if state.Playing? then Some(now) else d.lastPlaying), Some(state))
    case EndSession(now, ok) => DecideEnd(d, ok)
  }

  function DecideEnd(d: Desk, ok: bool): (Desk, Option<PlayState>) {
    if !d.active then (d, None)
    else if !ok then (d.(active := false), None)
    else (d.(active := false, last := Some(Stopped)), Some(Stopped))
  }

  /** Everything a run of calls sends, with its times. */
  function Emissions(d: Desk, cs: seq<Call>): seq<Emission>
    decreases |cs|
  {
    if cs == [] then []
    else
      var (d', e) := Decide(d, cs[0]);
      (if e.Some? then [Emission(e.value, cs[0].now)] else []) + Emissions(d', cs[1..])
  }

  /** A report is sent exactly when the session is active, a request can be built, its state is one of the four,
      and it is "stopped", or not the state sent last, or "playing" a second after the last "playing". */
  lemma ReportSentIff(d: Desk, state: PlayState, now: nat, buildable: bool)
    requires state != Ended
    ensures var (d', e) := Decide(d, ReportAs(state, now, buildable));
            && (e != None <==>
                && d.active && buildable && state in {Playing, Paused, Stopped, Buffering}
                && (|| state == Stopped || d.last != Some(state)
                    || (state == Playing && (d.lastPlaying == None || now >= d.lastPlaying.value + 1000))))
            && (e != None ==> e == Some(state) && d'.active && d'.last == Some(state)
                              && d'.lastPlaying == if state == Playing then Some(now) else d.lastPlaying)
            && (e == None ==> d' == d)
  {
  }

  /** A begin that can be built sends one "buffering" and starts a session without memory; one that cannot ends it.
      An end sends one "stopped" for an active session that can build it, and leaves it inactive. */
  lemma BeginAndEnd(d: Desk, now: nat, buildable: bool, end: Call)
    requires (end.EndSession? || (end.ReportAs? && end.state == Ended)) && end.buildable == buildable
    ensures Decide(d, Begin(now, buildable))
            == if buildable then (Desk(true, Some(Buffering), None), Some(Buffering)) else (Desk(false, None, None), None)
    ensures var (d', e) := Decide(d, end);
            && !d'.active && e == (if d.active && buildable then Some(Stopped) else None)
            && d'.last == (if d.active && buildable then Some(Stopped) else d.last) && d'.lastPlaying == d.lastPlaying
  {
  }

  /** Once a session has ended nothing is sent until the next begin. */
  lemma {:induction false} SilentAfterEnd(d: Desk, end: Call, cs: seq<Call>)
    requires end.EndSession? || (end.ReportAs? && end.state == Ended)
    requires forall i :: 0 <= i < |cs| ==> !cs[i].Begin?
    ensures Emissions(Decide(d, end).0, cs) == []
  {
    SilentWhileInactive(Decide(d, end).0, cs);
  }

  lemma {:induction false} SilentWhileInactive(d: Desk, cs: seq<Call>)
    requires !d.active && forall i :: 0 <= i < |cs| ==> !cs[i].Begin?
    ensures Emissions(d, cs) == []
    decreases |cs|
  {
    if cs != [] {
      SilentWhileInactive(Decide(d, cs[0]).0, cs[1..]);
    }
  }

  /** A repeat is legitimate: a "stopped", or "playing" at least a second later. */
  predicate RepeatOk(a: Emission, b: Emission) {
    a.state == b.state ==> a.state.Stopped? || (a.state.Playing? && b.at >= a.at + PLAYING_CADENCE_MS)
  }

  /** No emission idly repeats the one before it. */
  predicate Spaced(es: seq<Emission>) {
    |es| >= 2 ==> RepeatOk(es[0], es[1]) && Spaced(es[1..])
  }

  /** The desk remembers the last emission of the running session. */
  ghost predicate Remembers(d: Desk, e: Emission) {
    d.active ==> d.last == Some(e.state) && (e.state.Playing? ==> d.lastPlaying == Some(e.at))
  }

  /** Within one session, whatever is reported and when, a state is never sent twice in a row except
      "stopped", and "playing" no more than once a second. */
  lemma {:induction false} NoIdleRepeats(d: Desk, cs: seq<Call>, prev: Emission)
    requires Remembers(d, prev) && forall i :: 0 <= i < |cs| ==> !cs[i].Begin?
    ensures Spaced([prev] + Emissions(d, cs))
    decreases |cs|
  {
    if cs != [] {
      var (d', e) := Decide(d, cs[0]);
      if e.Some? {
        var next := Emission(e.value, cs[0].now);
        NoIdleRepeats(d', cs[1..], next);
        assert Emissions(d, cs) == [next] + Emissions(d', cs[1..]);
        assert ([prev] + Emissions(d, cs))[1..] == [next] + Emissions(d', cs[1..]);
        assert RepeatOk(prev, next);
      } else {
        NoIdleRepeats(d', cs[1..], prev);
        assert Emissions(d, cs) == Emissions(d', cs[1..]);
      }
    }
  }

  lemma {:induction false} SpacedAt(es: seq<Emission>, i: nat)
    requires Spaced(es) && i + 1 < |es|
    ensures es[i].state == es[i + 1].state ==>
              es[i].state == Stopped || (es[i].state == Playing && es[i + 1].at >= es[i].at + 1000)
  {
    if i > 0 {
      SpacedAt(es[1..], i - 1);
    }
  }

  /** A whole session, from its begin on: no state is sent twice in a row but "stopped", and "playing" a second later. */
  lemma SessionIsSpaced(d: Desk, begin: Call, cs: seq<Call>)
    requires begin.Begin? && forall i :: 0 <= i < |cs| ==> !cs[i].Begin?
    ensures var es := Emissions(d, [begin] + cs);
            forall i :: 0 <= i && i + 1 < |es| && es[i].state == es[i + 1].state ==>
              es[i].state == Stopped || (es[i].state == Playing && es[i + 1].at >= es[i].at + 1000)
  {
    SessionSpaced(d, begin, cs);
    var es := Emissions(d, [begin] + cs);
    forall i | 0 <= i && i + 1 < |es| && es[i].state == es[i + 1].state
      ensures es[i].state == Stopped || (es[i].state == Playing && es[i + 1].at >= es[i].at + 1000)
    {
      SpacedAt(es, i);
    }
  }

  lemma SessionSpaced(d: Desk, begin: Call, cs: seq<Call>)
    requires begin.Begin? && forall i :: 0 <= i < |cs| ==> !cs[i].Begin?
    ensures Spaced(Emissions(d, [begin] + cs))
  {
    var d' := Decide(d, begin).0;
    assert ([begin] + cs)[1..] == cs;
    if begin.buildable {
      NoIdleRepeats(d', cs, Emission(Buffering, begin.now));
    } else {
      SilentWhileInactive(d', cs);
    }
  }

  // ------------------------------------------------------------------ the object

  class PmsTimelineReporter {
    var queue: seq<Pending>
    var stopping: bool
    var desk: Desk
    var nextNo: nat              // numbers the updates, so that histories can tell them apart
    ghost var history: Queue

    ghost predicate Valid()
      reads this
    {
      queue == history.waiting && stopping == history.stopping && nextNo == |history.enqueued| && Conserved(history)
    }

    constructor ()
      ensures Valid() && history == Queue([], None, false, false, [], [], []) && desk == Desk(false, None, None)
    {
      queue, stopping, desk, nextNo := [], false, Desk(false, None, None), 0;
      history := Queue([], None, false, false, [], [], []);
    }

    /** Make room: find_if for the first update that is not "stopped", else the front. */
    method DropOne()
      requires queue != []
      modifies this`queue
      ensures queue == Without(old(queue), Victim(old(queue)))
    {
      var it := 0;
      while it < |queue| && queue[it].state.Stopped?
        invariant 0 <= it <= |queue| && forall k :: 0 <= k < it ==> queue[k].state.Stopped?
      {
        it := it + 1;
      }
      assert it == FirstUnprotected(queue);
      if it < |queue| {
        queue := queue[..it] + queue[it + 1..];
      } else {
        queue := queue[1..];
      }
    }

    /** enqueue's locked section. */
    method EnqueueUpdate(state: PlayState)
      requires Valid()
      modifies this`queue, this`history, this`nextNo
      ensures Valid() && history == Push(old(history), state)
    {
      if |queue| >= MAX_QUEUE {
        DropOne();
      }
      queue := queue + [Pending(nextNo, state)];
      nextNo := nextNo + 1;
      PushKeepsConserved(history, state);
      history := Push(history, state);
    }

    /** The worker's locked section: the front of the queue, or nothing if it is empty. */
    method TakeNext() returns (p: Option<Pending>)
      requires Valid() && history.inFlight == None && !history.exited
      modifies this`queue, this`history
      ensures Valid()
      ensures p == None ==> old(queue) == [] && history == old(history)
      ensures p.Some? ==> Enabled(old(history), Take) && history == Apply(old(history), Take) && history.inFlight == p
    {
      if queue == [] {
        return None;
      }
      p := Some(queue[0]);
      queue := queue[1..];
      StepKeepsConserved(history, Take);
      history := Apply(history, Take);
    }

    /** reportState's first locked section: is this worth sending? */
    method DecideReport(state: PlayState, now: nat, buildable: bool) returns (send: bool)
      requires !state.Ended?
      modifies this`desk
      ensures Decide(old(desk), ReportAs(state, now, buildable)) == (desk, if send then Some(state) else None)
    {
      if !desk.active {
        return false;
      }
      send := state.Stopped? || Some(state) != desk.last;
      if !send && state.Playing? {
        send := desk.lastPlaying == None || now - desk.lastPlaying.value >= PLAYING_CADENCE_MS;
      }
      if !send || !buildable || !ValidState(state) {
        return false;
      }
      desk := desk.(last := Some(state));
      if state.Playing? {
        desk := desk.(lastPlaying := Some(now));
      }
    }

    /** reportState: decide in one locked section, enqueue in the next. */
    method ReportState(state: PlayState, now: nat, buildable: bool)
      requires Valid()
      modifies this
      ensures Valid()
      ensures var (d, e) := Decide(old(desk), ReportAs(state, now, buildable));
              desk == d && history == if e.Some? then Push(old(history), e.value) else old(history)
    {
      if state.Ended? {
        EndSessionNow(now, buildable);
        return;
      }
      var send := DecideReport(state, now, buildable);
      if send {
        EnqueueUpdate(state);
      }
    }

    method EndSessionNow(now: nat, buildable: bool)
      requires Valid()
      modifies this
      ensures Valid()
      ensures var (d, e) := Decide(old(desk), EndSession(now, buildable));
              desk == d && history == if e.Some? then Push(old(history), e.value) else old(history)
    {
      if !desk.active {
        return;
      }
      if !buildable {
        desk := desk.(active := false);
        return;
      }
      desk := desk.(last := Some(Stopped), active := false);
      EnqueueUpdate(Stopped);
    }

    method BeginSession(now: nat, buildable: bool)
      requires Valid()
      modifies this
      ensures Valid()
      ensures var (d, e) := Decide(old(desk), Begin(now, buildable));
              desk == d && history == if e.Some? then Push(old(history), e.value) else old(history)
    {
      desk := Desk(true, None, None);
      if !buildable {
        desk := desk.(active := false);
        return;
      }
      desk := desk.(last := Some(Buffering));
      EnqueueUpdate(Buffering);
    }
  }
}
