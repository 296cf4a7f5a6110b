/**
 The companion's push loop (arm/misterplexd/companion.cpp): requestTimelinePush,
 timelinePushLoop and the subscriber table, interleaved at lock granularity.

 Every change of the timeline state gets the next version number. Changing the
 state and asking for a push are separate steps, and so are clearing the flag,
 copying the subscribers, and building each subscriber's XML.
 */
module TimelinePush {

  type Tid = nat
  type SubscriberId = nat

  const MAX_SUBSCRIBERS := 8
  const MAX_FAILURES := 3

  /** One XML built and posted in a round: for whom, and from which state version. */
  datatype Post = Post(id: SubscriberId, version: nat)

  datatype Pc =
    | Waiting                    // in the condition-variable waits
    | Cleared                    // flags cleared, subscribers not yet copied
    | Posting                    // working through the copy
    | Tallying(id: SubscriberId) // posted; its failure count not yet updated

  /** What a thread has changed but not yet asked to be pushed. */
  datatype Owed = OwedState(version: nat) | OwedSubscriber(id: SubscriberId)

  datatype State = State(
    version: nat,                     // of the timeline state
    pending: bool,
    immediate: bool,
    running: bool,
    now: nat,
    nextPeriodic: nat,
    subscribers: seq<SubscriberId>,
    failures: map<SubscriberId, nat>,
    pc: Pc,
    todo: seq<SubscriberId>,          // copied subscribers not yet served
    owed: map<Tid, Owed>,
    // history
    requested: nat,                   // newest version whose request has completed
    announced: set<SubscriberId>,     // subscribers whose subscribe request has completed
    base: nat,                        // version when the flags were last cleared
    copied: set<SubscriberId>,        // last copy of the subscribers
    posts: seq<Post>)                 // posts of the current or last round

  datatype Action =
    | Change(t: Tid)
    | Subscribe(t: Tid, id: SubscriberId)
    | Request(t: Tid, immediate: bool)
    | Unsubscribe(id: SubscriberId)
    | Tick(ms: nat)
    | StopRunning
    | Clear
    | Copy
    | Build
    | Tally(ok: bool)
    | EndRound

  // ------------------------------------------------------------------ steps

  function Remove(xs: seq<SubscriberId>, id: SubscriberId): (r: seq<SubscriberId>)
    ensures forall x :: x in r <==> x in xs && x != id
  {
    if xs == [] then []
    else if xs[0] == id then Remove(xs[1..], id)
    else [xs[0]] + Remove(xs[1..], id)
  }

  /** subscribeTimeline: replace in place, or evict the oldest of eight and append. */
  function Add(xs: seq<SubscriberId>, id: SubscriberId): (r: seq<SubscriberId>)
    ensures id in r && forall x :: x in r ==> x in xs || x == id
  {
    if id in xs then xs
    else if |xs| >= MAX_SUBSCRIBERS then xs[1..] + [id]
    else xs + [id]
  }

  function Failures(s: State, id: SubscriberId): nat {
    if id in s.failures then s.failures[id] else 0
  }

  function Keep(s: State, subs: seq<SubscriberId>): State {
    s.(subscribers := subs, announced := set id | id in s.announced && id in subs)
  }

  predicate Enabled(s: State, a: Action) {
    match a
    case Change(t) => t !in s.owed
    case Subscribe(t, id) => t !in s.owed
    case Request(t, _) => t in s.owed
    case Clear => s.pc.Waiting? && s.running && s.pending && (s.immediate || s.now >= s.nextPeriodic)
    case Copy => s.pc.Cleared?
    case Build => s.pc.Posting? && s.todo != []
    case Tally(_) => s.pc.Tallying?
    case EndRound => s.pc.Posting? && s.todo == []
    case _ => true
  }

  function Apply(s: State, a: Action): State
    requires Enabled(s, a)
  {
    match a
    case Change(t) => s.(version := s.version + 1, owed := s.owed[t := OwedState(s.version + 1)])
    case Subscribe(t, id) =>
      Keep(s, Add(s.subscribers, id)).(failures := s.failures[id := 0], owed := s.owed[t := OwedSubscriber(id)])
    case Request(t, immediate) =>
      var s1 := s.(pending := true, immediate := s.immediate || immediate, owed := s.owed - {t});
      (match s.owed[t]
       case OwedState(v) => s1.(requested := if v > s.requested then v else s.requested)
       case OwedSubscriber(id) => if id in s.subscribers then s1.(announced := s.announced + {id}) else s1)
    case Unsubscribe(id) => Keep(s, Remove(s.subscribers, id))
    case Tick(ms) => s.(now := s.now + ms)
    case StopRunning => s.(running := false)
    case Clear => s.(pending := false, immediate := false, pc := Cleared, base := s.version)
    case Copy =>
      s.(pc := Posting, todo := s.subscribers, posts := [], copied := set id | id in s.subscribers)
    case Build =>
      s.(pc := Tallying(s.todo[0]), todo := s.todo[1..], posts := s.posts + [Post(s.todo[0], s.version)])
    case Tally(ok) =>
      var id := s.pc.id;
      var s1 := s.(pc := Posting);
      if id !in s.subscribers then s1
      else if ok then s1.(failures := s.failures[id := 0])
      else if Failures(s, id) + 1 >= MAX_FAILURES then Keep(s1, Remove(s.subscribers, id))
      else s1.(failures := s.failures[id := Failures(s, id) + 1])
    case EndRound => s.(pc := Waiting, nextPeriodic := s.now + 1000)
  }

  // ------------------------------------------------------------------ invariant

  /** Every copied subscriber is still to be served or has been posted to. */
  ghost predicate Covered(s: State) {
    forall id :: id in s.copied ==> id in s.todo || exists i :: 0 <= i < |s.posts| && s.posts[i].id == id
  }

  ghost predicate Inv(s: State) {
    && s.base <= s.version && s.requested <= s.version
    && (forall t :: t in s.owed && s.owed[t].OwedState? ==> s.owed[t].version <= s.version)
    // Nothing requested is lost: it is pending, or the flags were cleared at a state at least that new.
    && (s.pending || s.requested <= s.base)
    && (forall id :: id in s.announced ==> id in s.subscribers)
    && (forall id :: id in s.announced ==> s.pending || s.pc.Cleared? || id in s.copied)
    && (!s.pc.Cleared? ==> forall i :: 0 <= i < |s.posts| ==> s.posts[i].version >= s.base)
    && (!s.pc.Cleared? ==> Covered(s))
    && (s.pc.Waiting? ==> s.todo == [])
  }

  ghost predicate Init(s: State) {
    && s.version == 0 && !s.pending && !s.immediate && s.subscribers == [] && s.pc.Waiting? && s.todo == []
    && s.owed == map[] && s.requested == 0 && s.announced == {} && s.base == 0 && s.copied == {} && s.posts == []
  }

  lemma BuildKeepsCovered(s: State)
    requires Covered(s) && Enabled(s, Build)
    ensures Covered(Apply(s, Build))
  {
    var s' := Apply(s, Build);
    forall id | id in s'.copied && id !in s'.todo
      ensures exists i :: 0 <= i < |s'.posts| && s'.posts[i].id == id
    {
      if id == s.todo[0] {
        assert s'.posts[|s.posts|].id == id;
      } else {
        assert id !in s.todo;
        var i :| 0 <= i < |s.posts| && s.posts[i].id == id;
        assert s'.posts[i].id == id;
      }
    }
  }

  lemma BuildKeepsInv(s: State)
    requires Inv(s) && Enabled(s, Build)
    ensures Inv(Apply(s, Build))
  {
    BuildKeepsCovered(s);
  }

  lemma RoundStepKeepsInv(s: State, a: Action)
    requires Inv(s) && Enabled(s, a) && (a.Clear? || a.Copy? || a.EndRound?)
    ensures Inv(Apply(s, a))
  {
  }

  /** What one step must leave alone for the round's own facts to carry over. */
  ghost predicate SameRound(s: State, s': State) {
    && s'.todo == s.todo && s'.posts == s.posts && s'.copied == s.copied && s'.base == s.base
    && s'.version >= s.version && (s'.pc.Cleared? <==> s.pc.Cleared?) && (s'.pc.Waiting? <==> s.pc.Waiting?)
  }

  lemma SameRoundKeepsInv(s: State, s': State)
    requires Inv(s) && SameRound(s, s')
    requires s'.requested <= s'.version && (s'.pending || (!s.pending && s'.requested == s.requested))
    requires forall t :: t in s'.owed && s'.owed[t].OwedState? ==> s'.owed[t].version <= s'.version
    requires forall id :: id in s'.announced ==> id in s'.subscribers && (id in s.announced || s'.pending)
    ensures Inv(s')
  {
  }

  /** A tally touches failure counts and the subscribers, and goes on with the round. */
  lemma TallyKeepsInv(s: State, ok: bool)
    requires Inv(s) && Enabled(s, Tally(ok))
    ensures Inv(Apply(s, Tally(ok)))
  {
    var s1 := s.(pc := Posting);
    SameRoundKeepsInv(s, s1);
    var s' := Apply(s, Tally(ok));
    if s'.subscribers == s.subscribers {
      SameRoundKeepsInv(s1, s');
    } else {
      DroppingKeepsInv(s1, s.pc.id);
    }
  }

  lemma DroppingKeepsInv(s: State, id: SubscriberId)
    requires Inv(s)
    ensures Inv(Keep(s, Remove(s.subscribers, id)))
  {
    SameRoundKeepsInv(s, Keep(s, Remove(s.subscribers, id)));
  }

  lemma OutsideStepKeepsInv(s: State, a: Action)
    requires Inv(s) && Enabled(s, a) && !(a.Build? || a.Tally? || a.Clear? || a.Copy? || a.EndRound?)
    ensures Inv(Apply(s, a))
  {
    SameRoundKeepsInv(s, Apply(s, a));
  }

  lemma StepKeepsInv(s: State, a: Action)
    requires Inv(s) && Enabled(s, a)
    ensures Inv(Apply(s, a))
  {
    if a.Build? {
      BuildKeepsInv(s);
    } else if a.Clear? || a.Copy? || a.EndRound? {
      RoundStepKeepsInv(s, a);
    } else if a.Tally? {
      TallyKeepsInv(s, a.ok);
    } else {
      OutsideStepKeepsInv(s, a);
    }
  }

  // ------------------------------------------------------------------ runs

  ghost predicate IsRun(states: seq<State>, acts: seq<Action>) {
    && |states| == |acts| + 1
    && Init(states[0])
    && forall i :: 0 <= i < |acts| ==> Enabled(states[i], acts[i]) && states[i + 1] == Apply(states[i], acts[i])
  }

  lemma {:induction false} RunKeepsInv(states: seq<State>, acts: seq<Action>, i: nat)
    requires IsRun(states, acts) && i < |states|
    ensures Inv(states[i])
  {
    if i > 0 {
      RunKeepsInv(states, acts, i - 1);
      StepKeepsInv(states[i - 1], acts[i - 1]);
    }
  }

  /** In every run, a version whose request has completed is still pending, or the round that cleared
      the flag builds every XML from a state at least that new. */
  lemma NoUpdateIsLost(states: seq<State>, acts: seq<Action>, i: nat, k: nat)
    requires IsRun(states, acts) && i < |states| && !states[i].pending && !states[i].pc.Cleared?
    requires k < |states[i].posts|
    ensures states[i].posts[k].version >= states[i].base >= states[i].requested
  {
    RunKeepsInv(states, acts, i);
  }

  /** In every run, when the loop waits with nothing pending, every subscriber whose subscribe completed
      was posted to in the last round, from a state at least as new as every completed request. */
  lemma QuietMeansDelivered(states: seq<State>, acts: seq<Action>, i: nat, id: SubscriberId) returns (k: nat)
    requires IsRun(states, acts) && i < |states|
    requires states[i].pc.Waiting? && !states[i].pending && id in states[i].announced
    ensures k < |states[i].posts| && states[i].posts[k].id == id
    ensures states[i].posts[k].version >= states[i].requested
  {
    RunKeepsInv(states, acts, i);
    assert id in states[i].copied && id !in states[i].todo;
    k :| 0 <= k < |states[i].posts| && states[i].posts[k].id == id;
  }

  // ------------------------------------------------------------------ who is served

  /** The table holds at most eight, each once. */
  ghost predicate TableOk(xs: seq<SubscriberId>) {
    |xs| <= 8 && forall i, j :: 0 <= i < j < |xs| ==> xs[i] != xs[j]
  }

  lemma {:induction false} RemoveIs(xs: seq<SubscriberId>, id: SubscriberId)
    requires TableOk(xs)
    ensures TableOk(Remove(xs, id)) && |Remove(xs, id)| == |xs| - if id in xs then 1 else 0
  {
    if xs != [] {
      TailIsOk(xs);
      RemoveIs(xs[1..], id);
    }
  }

  lemma TailIsOk(xs: seq<SubscriberId>)
    requires TableOk(xs) && xs != []
    ensures TableOk(xs[1..]) && xs[0] !in xs[1..] && forall x :: x in xs <==> x == xs[0] || x in xs[1..]
  {
    assert xs == [xs[0]] + xs[1..];
  }

  /** Subscribing keeps everybody, and adds the new one, unless eight others are there: then exactly the first is gone. */
  lemma SubscribeKeepsOthers(xs: seq<SubscriberId>, id: SubscriberId)
    requires TableOk(xs)
    ensures TableOk(Add(xs, id)) && id in Add(xs, id)
    ensures forall x :: x in xs && x !in Add(xs, id) <==> |xs| == 8 && id !in xs && x == xs[0]
  {
    if xs != [] {
      TailIsOk(xs);
    }
  }

  /** The order stays, and the new one comes last. */
  lemma SubscribeAppends(xs: seq<SubscriberId>, id: SubscriberId)
    requires TableOk(xs)
    ensures id in xs ==> Add(xs, id) == xs
    ensures id !in xs && |xs| < 8 ==> Add(xs, id) == xs + [id]
    ensures id !in xs && |xs| == 8 ==> Add(xs, id) == xs[1..] + [id]
  {
  }

  lemma {:induction false} RunKeepsTable(states: seq<State>, acts: seq<Action>, i: nat)
    requires IsRun(states, acts) && i < |states|
    ensures TableOk(states[i].subscribers)
  {
    if i > 0 {
      RunKeepsTable(states, acts, i - 1);
      StepKeepsTable(states[i - 1], acts[i - 1]);
    }
  }

  lemma StepKeepsTable(s: State, a: Action)
    requires TableOk(s.subscribers) && Enabled(s, a)
    ensures TableOk(Apply(s, a).subscribers)
  {
    match a
    case Subscribe(_, id) => SubscribeKeepsOthers(s.subscribers, id);
    case Unsubscribe(id) => RemoveIs(s.subscribers, id);
    case Tally(_) => RemoveIs(s.subscribers, s.pc.id);
    case _ =>
  }

  /** The posts to `id` that have failed in a row, up to step i, since it last subscribed or a post went through. */
  ghost function Streak(states: seq<State>, acts: seq<Action>, i: nat, id: SubscriberId): nat
    requires IsRun(states, acts) && i < |states|
  {
    if i == 0 then 0 else NextStreak(states[i - 1], acts[i - 1], id, Streak(states, acts, i - 1, id))
  }

  /** How one step changes the failures in a row of a subscriber that stays. */
  function NextStreak(s: State, a: Action, id: SubscriberId, before: nat): nat {
    match a
    case Subscribe(_, x) => if x == id then 0 else before
    case Tally(ok) => if s.pc != Tallying(id) || id !in s.subscribers then before else if ok then 0 else before + 1
    case _ => before
  }

  lemma {:induction false} FailuresAreStreak(states: seq<State>, acts: seq<Action>, i: nat, id: SubscriberId)
    requires IsRun(states, acts) && i < |states| && id in states[i].subscribers
    ensures Failures(states[i], id) == Streak(states, acts, i, id) < 3
  {
    if i > 0 {
      var s, a := states[i - 1], acts[i - 1];
      if id in s.subscribers {
        FailuresAreStreak(states, acts, i - 1, id);
        FailuresStep(s, a, id);
      } else {
        NewSubscriber(s, a, id);
      }
    }
  }

  lemma NewSubscriber(s: State, a: Action, id: SubscriberId)
    requires Enabled(s, a) && id !in s.subscribers && id in Apply(s, a).subscribers
    ensures a.Subscribe? && a.id == id && Failures(Apply(s, a), id) == 0
  {
  }

  lemma FailuresStep(s: State, a: Action, id: SubscriberId)
    requires Enabled(s, a) && id in s.subscribers && id in Apply(s, a).subscribers && Failures(s, id) < 3
    ensures Failures(Apply(s, a), id) == NextStreak(s, a, id, Failures(s, id)) < 3
  {
    if a.Tally? {
      TallyCounts(s, a.ok, id);
    } else {
      OthersDoNotCount(s, a, id);
    }
  }

  lemma OthersDoNotCount(s: State, a: Action, id: SubscriberId)
    requires Enabled(s, a) && !a.Tally?
    ensures Failures(Apply(s, a), id) == if a.Subscribe? && a.id == id then 0 else Failures(s, id)
  {
  }

  lemma TallyCounts(s: State, ok: bool, id: SubscriberId)
    requires Enabled(s, Tally(ok)) && id in s.subscribers && id in Apply(s, Tally(ok)).subscribers && Failures(s, id) < 3
    ensures Failures(Apply(s, Tally(ok)), id)
            == (if s.pc.id != id then Failures(s, id) else if ok then 0 else Failures(s, id) + 1) < 3
  {
  }

  /** In every run a subscriber whose subscribe completed stops being one only by unsubscribing, by a third failed post
      in a row, or as the oldest of eight when another subscribes. */
  lemma AnnouncedLeavesOnly(states: seq<State>, acts: seq<Action>, i: nat, id: SubscriberId)
    requires IsRun(states, acts) && i < |acts| && id in states[i].announced && id !in states[i + 1].announced
    ensures || acts[i] == Unsubscribe(id)
            || (acts[i] == Tally(false) && states[i].pc == Tallying(id) && Streak(states, acts, i, id) == 2)
            || (acts[i].Subscribe? && acts[i].id !in states[i].subscribers && |states[i].subscribers| == 8 && states[i].subscribers[0] == id)
  {
    RunKeepsInv(states, acts, i);
    RunKeepsTable(states, acts, i);
    FailuresAreStreak(states, acts, i, id);
    LeavesOnly(states[i], acts[i], id);
  }

  lemma LeavesOnly(s: State, a: Action, id: SubscriberId)
    requires Enabled(s, a) && TableOk(s.subscribers) && id in s.announced && id in s.subscribers && id !in Apply(s, a).announced
    ensures || a == Unsubscribe(id)
            || (a == Tally(false) && s.pc == Tallying(id) && Failures(s, id) >= 2)
            || (a.Subscribe? && a.id !in s.subscribers && |s.subscribers| == 8 && s.subscribers[0] == id)
  {
    if a.Subscribe? {
      SubscribeKeepsOthers(s.subscribers, a.id);
    }
  }

  /** Three failed posts in a row do drop a subscriber. */
  lemma ThirdFailureDrops(s: State)
    requires Enabled(s, Tally(false)) && s.pc.id in s.subscribers && Failures(s, s.pc.id) == 2
    ensures s.pc.id !in Apply(s, Tally(false)).subscribers
  {
  }

  /** A subscribe whose request completes while it is in the table is announced, and every request asks for a push. */
  lemma RequestAsks(s: State, t: Tid, immediate: bool)
    requires Enabled(s, Request(t, immediate))
    ensures var s' := Apply(s, Request(t, immediate));
            && s'.pending && (s'.immediate <==> s.immediate || immediate)
            && (s.owed[t].OwedSubscriber? && s.owed[t].id in s.subscribers ==> s.owed[t].id in s'.announced)
            && (s.owed[t].OwedState? ==> s'.requested >= s.owed[t].version) && s'.requested >= s.requested
            && (s'.requested == s.requested || (s.owed[t].OwedState? && s'.requested == s.owed[t].version))
            && t !in s'.owed && s'.subscribers == s.subscribers
  {
  }

  /** A waiting loop takes a pending push at once if it is immediate, and otherwise no sooner than a second after the
      round before it; then it posts the current state to each subscriber in turn. */
  lemma LoopServes(s: State)
    ensures Enabled(s, Clear) <==> s.pc.Waiting? && s.running && s.pending && (s.immediate || s.now >= s.nextPeriodic)
    ensures Enabled(s, EndRound) ==> Apply(s, EndRound).nextPeriodic == s.now + 1000
    ensures Enabled(s, Copy) ==> Apply(s, Copy).todo == s.subscribers
    ensures Enabled(s, Build) ==>
              && s.todo == [s.todo[0]] + Apply(s, Build).todo
              && Apply(s, Build).posts == s.posts + [Post(s.todo[0], s.version)]
              && Apply(s, Build).pc == Tallying(s.todo[0])
  {
  }

  /** An unsubscribe takes exactly its subscriber out and leaves the others in their order; it, the clock and the
      shutdown wait for nobody. */
  lemma UnsubscribeRemoves(s: State, id: SubscriberId, ms: nat)
    requires TableOk(s.subscribers)
    ensures Enabled(s, Unsubscribe(id)) && Enabled(s, Tick(ms)) && Enabled(s, StopRunning)
    ensures id !in s.subscribers ==> Apply(s, Unsubscribe(id)).subscribers == s.subscribers
    ensures forall i :: 0 <= i < |s.subscribers| && s.subscribers[i] == id ==>
              Apply(s, Unsubscribe(id)).subscribers == s.subscribers[..i] + s.subscribers[i + 1..]
    ensures Apply(s, Tick(ms)) == s.(now := s.now + ms) && Apply(s, StopRunning) == s.(running := false)
  {
    var xs := s.subscribers;
    RemoveAbsent(xs, id);
    forall i | 0 <= i < |xs| && xs[i] == id ensures Remove(xs, id) == xs[..i] + xs[i + 1..] {
      RemoveAt(xs, i);
    }
  }

  lemma {:induction false} RemoveAbsent(xs: seq<SubscriberId>, id: SubscriberId)
    ensures id !in xs ==> Remove(xs, id) == xs
  {
    if xs != [] {
      RemoveAbsent(xs[1..], id);
    }
  }

  lemma {:induction false} RemoveAt(xs: seq<SubscriberId>, i: nat)
    requires TableOk(xs) && i < |xs|
    ensures Remove(xs, xs[i]) == xs[..i] + xs[i + 1..]
  {
    TailIsOk(xs);
    if i == 0 {
      RemoveAbsent(xs[1..], xs[0]);
    } else {
      RemoveAt(xs[1..], i - 1);
      assert xs[..i] == [xs[0]] + xs[1..][..i - 1] && xs[i + 1..] == xs[1..][i..];
    }
  }

  /** A good post clears the failures of a subscriber and a failed one counts one more; one for a subscriber that has
      left counts for nothing. */
  lemma TallyOutcome(s: State, ok: bool)
    requires s.pc.Tallying?
    ensures Enabled(s, Tally(ok)) && Apply(s, Tally(ok)).pc == Posting
    ensures s.pc.id !in s.subscribers ==> Apply(s, Tally(ok)) == s.(pc := Posting)
    ensures s.pc.id in s.subscribers && (ok || Failures(s, s.pc.id) < 2) ==>
              Failures(Apply(s, Tally(ok)), s.pc.id) == if ok then 0 else Failures(s, s.pc.id) + 1
  {
  }

  function Start(): State { State(0, false, false, true, 0, 0, [], map[], Waiting, [], map[], 0, {}, 0, {}, []) }

  /** One more step of a run. */
  lemma Extend(states: seq<State>, acts: seq<Action>, a: Action, s: State)
    returns (states': seq<State>, acts': seq<Action>)
    requires IsRun(states, acts) && Enabled(states[|acts|], a) && Apply(states[|acts|], a) == s
    ensures IsRun(states', acts') && states'[|acts'|] == s
  {
    states', acts' := states + [s], acts + [a];
  }

  lemma RunToChanged() returns (states: seq<State>, acts: seq<Action>)
    ensures IsRun(states, acts) && states[|acts|] == Start().(version := 1, pending := true, requested := 1)
  {
    var s1 := Start().(version := 1, owed := map[1 := OwedState(1)]);
    var s2 := Start().(version := 1, pending := true, requested := 1);
    states, acts := [Start()], [];
    states, acts := Extend(states, acts, Change(1), s1);
    assert s1.owed - {1} == map[];
    states, acts := Extend(states, acts, Request(1, false), s2);
  }

  lemma RunToSubscribed(id: SubscriberId) returns (states: seq<State>, acts: seq<Action>)
    ensures IsRun(states, acts)
    ensures states[|acts|] == Start().(version := 1, pending := true, immediate := true, requested := 1,
                                       subscribers := [id], failures := map[id := 0], announced := {id})
  {
    states, acts := RunToChanged();
    var s2 := states[|acts|];
    var s3 := s2.(subscribers := [id], failures := map[id := 0], owed := map[2 := OwedSubscriber(id)]);
    assert Keep(s2, [id]) == s2.(subscribers := [id]);
    states, acts := Extend(states, acts, Subscribe(2, id), s3);
    assert s3.owed - {2} == map[] && {} + {id} == {id};
    states, acts := Extend(states, acts, Request(2, true), s3.(owed := map[], announced := {id}, immediate := true));
  }

  /** A run that serves one subscriber: the state changes, it subscribes, and is posted the change. */
  lemma OneIsServed(id: SubscriberId) returns (states: seq<State>, acts: seq<Action>)
    ensures IsRun(states, acts) && states[|acts|].posts == [Post(id, 1)] && states[|acts|].pc.Waiting?
    ensures states[|acts|].announced == {id} && !states[|acts|].pending
  {
    states, acts := RunToSubscribed(id);
    var s5 := states[|acts|].(pending := false, immediate := false, pc := Cleared, base := 1);
    var s6 := s5.(pc := Posting, todo := [id], copied := {id});
    var s7 := s6.(pc := Tallying(id), todo := [], posts := [Post(id, 1)]);
    states, acts := Extend(states, acts, Clear, s5);
    assert (set x | x in [id]) == {id};
    states, acts := Extend(states, acts, Copy, s6);
    states, acts := Extend(states, acts, Build, s7);
    states, acts := Extend(states, acts, Tally(true), s7.(pc := Posting));
    states, acts := Extend(states, acts, EndRound, s7.(pc := Waiting, nextPeriodic := 1000));
  }

  /** In every run a completed request stays visible until a clear: only Clear lowers the flag. */
  lemma OnlyClearLowersPending(s: State, a: Action)
    requires Enabled(s, a) && s.pending && !Apply(s, a).pending
    ensures a.Clear? && (s.immediate || s.now >= s.nextPeriodic)
  {
  }
}
