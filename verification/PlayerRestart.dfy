/**
 The media player's own life cycle (arm/misterplexd/media_player.cpp): play and stop
 run under lifeMu_, while seekMs copies the session's URL first and restarts with the
 copy later. It is reached from the FPGA remote and from seeks in local files, past
 doPlay and its mutex, so a stop can come between the copy and the restart.
 */
module PlayerRestart {
  import opened Options

  type Tid = nat
  type Session = nat

  /** Who holds lifeMu_, and how far it has come. */
  datatype Life =
    | Free
    | Stopping                                // demux joined, URL not yet dropped
    | Starting(session: Session, urlSet: bool)

  datatype State = State(
    url: Option<Session>,                     // currentUrl_
    playing: Option<Session>,                 // the demux now running
    life: Life,
    copies: map<Tid, Session>)                // seeks that have copied the URL and not yet restarted

  datatype Action =
    | StopBegin
    | StopDropsUrl
    | PlayBegin(session: Session)             // play() of a new session
    | CopyUrl(t: Tid)                         // seekMs, its locked copy
    | SamePosition(t: Tid)                    // seekMs returns without a restart
    | RestartBegin(t: Tid)                    // seekMs calls play() with its copy
    | SetUrl
    | DemuxStarts
    | PresentFails                            // initPresent() failed: play() returns false
    | DemuxEnds

  predicate Enabled(s: State, a: Action) {
    match a
    case StopBegin => s.life.Free?
    case StopDropsUrl => s.life.Stopping?
    case PlayBegin(_) => s.life.Free?
    case CopyUrl(t) => t !in s.copies
    case SamePosition(t) => t in s.copies
    case RestartBegin(t) => t in s.copies && s.life.Free?
    case SetUrl => s.life.Starting? && !s.life.urlSet
    case DemuxStarts => s.life.Starting? && s.life.urlSet
    case PresentFails => s.life.Starting? && !s.life.urlSet
    case DemuxEnds => true
  }

  function Apply(s: State, a: Action): State
    requires Enabled(s, a)
  {
    match a
    case StopBegin => s.(life := Stopping, playing := None)
    case StopDropsUrl => s.(life := Free, url := None)
    case PlayBegin(n) => s.(life := Starting(n, false), playing := None)
    case CopyUrl(t) => if s.url.Some? then s.(copies := s.copies[t := s.url.value]) else s
    case SamePosition(t) => s.(copies := s.copies - {t})
    case RestartBegin(t) => s.(life := Starting(s.copies[t], false), playing := None, copies := s.copies - {t})
    case SetUrl => s.(life := s.life.(urlSet := true), url := Some(s.life.session))
    case DemuxStarts => s.(life := Free, playing := Some(s.life.session))
    case PresentFails => s.(life := Free)
    case DemuxEnds => s.(playing := None)
  }

  ghost predicate IsRun(states: seq<State>, acts: seq<Action>) {
    && |states| == |acts| + 1
    && forall i :: 0 <= i < |acts| ==> Enabled(states[i], acts[i]) && states[i + 1] == Apply(states[i], acts[i])
  }

  /** A run from `s` in which no new session is played. */
  ghost predicate Quiet(s: State, states: seq<State>, acts: seq<Action>) {
    IsRun(states, acts) && states[0] == s && forall i :: 0 <= i < |acts| ==> !acts[i].PlayBegin?
  }

  /** A stop has just ended. */
  predicate Stopped(s: State) { s.life.Free? && s.url == None && s.playing == None }

  /** Every session that the player, a starting play or a copy knows of is one of `held`. */
  ghost predicate Within(s: State, held: set<Session>) {
    && (s.url.Some? ==> s.url.value in held)
    && (s.playing.Some? ==> s.playing.value in held)
    && (s.life.Starting? ==> s.life.session in held)
    && (forall t :: t in s.copies ==> s.copies[t] in held)
  }

  lemma StepKeepsWithin(s: State, a: Action, held: set<Session>)
    requires Within(s, held) && Enabled(s, a) && !a.PlayBegin?
    ensures Within(Apply(s, a), held)
  {
  }

  lemma {:induction false} RunKeepsWithin(s: State, states: seq<State>, acts: seq<Action>, i: nat, held: set<Session>)
    requires Quiet(s, states, acts) && Within(s, held) && i < |states|
    ensures Within(states[i], held)
  {
    if i > 0 {
      RunKeepsWithin(s, states, acts, i - 1, held);
      StepKeepsWithin(states[i - 1], acts[i - 1], held);
    }
  }

  /** After a stop, until a new session is played, whatever plays is a session whose URL some seek had
      copied before the stop dropped it. */
  lemma OnlyCopiesComeBack(s: State, states: seq<State>, acts: seq<Action>, i: nat)
    requires Stopped(s) && Quiet(s, states, acts) && i < |states|
    ensures states[i].playing.Some? ==> states[i].playing.value in s.copies.Values
  {
    RunKeepsWithin(s, states, acts, i, s.copies.Values);
  }

  /** Three steps restart the session of a copy. */
  lemma RestartAfterStop(s: State, t: Tid) returns (states: seq<State>, acts: seq<Action>)
    requires Stopped(s) && t in s.copies
    ensures Quiet(s, states, acts) && states[|acts|].playing == Some(s.copies[t])
  {
    var s1 := Apply(s, RestartBegin(t));
    var s2 := Apply(s1, SetUrl);
    states, acts := [s, s1, s2, Apply(s2, DemuxStarts)], [RestartBegin(t), SetUrl, DemuxStarts];
  }

  /** A stop is final, whatever runs until a new session is played, exactly when no seek holds a copy. */
  lemma StopIsFinalIff(s: State)
    requires Stopped(s)
    ensures s.copies == map[] <==>
            forall states: seq<State>, acts: seq<Action>, i: nat ::
              Quiet(s, states, acts) && i < |states| ==> states[i].playing == None
  {
    if s.copies == map[] {
      forall states: seq<State>, acts: seq<Action>, i: nat | Quiet(s, states, acts) && i < |states|
        ensures states[i].playing == None
      {
        OnlyCopiesComeBack(s, states, acts, i);
      }
    } else {
      var t :| t in s.copies;
      var states, acts := RestartAfterStop(s, t);
      assert states[|acts|].playing != None;
    }
  }

  /** Nothing plays while lifeMu_ is held, and what plays, or is about to, is what currentUrl_ names. */
  predicate Inv(s: State) {
    && (s.playing.Some? ==> s.life.Free? && s.playing == s.url)
    && (s.life.Starting? && s.life.urlSet ==> s.url == Some(s.life.session))
  }

  lemma StepKeepsInv(s: State, a: Action)
    requires Inv(s) && Enabled(s, a)
    ensures Inv(Apply(s, a))
  {
  }

  /** In every run from the idle player: a demux plays only with lifeMu_ free, and only the session of the
      current URL. */
  lemma {:induction false} PlaysCurrentUrl(states: seq<State>, acts: seq<Action>, i: nat)
    requires IsRun(states, acts) && states[0] == State(None, None, Free, map[]) && i < |states|
    ensures states[i].playing.Some? ==> states[i].life.Free? && states[i].url == states[i].playing
    ensures Inv(states[i])
  {
    if i > 0 {
      PlaysCurrentUrl(states, acts, i - 1);
      StepKeepsInv(states[i - 1], acts[i - 1]);
    }
  }

  /** A seek uses its copy once, for a restart or not at all, and leaves the other seeks theirs; the
      demux may end at any time, and a play that fails to present leaves the player free and silent. */
  lemma SeekIsSpent(s: State, t: Tid)
    requires Inv(s) && t in s.copies
    ensures Enabled(s, SamePosition(t)) && Apply(s, SamePosition(t)) == s.(copies := s.copies - {t})
    ensures s.life.Free? ==> Enabled(s, RestartBegin(t)) && Apply(s, RestartBegin(t)).copies == s.copies - {t}
    ensures Enabled(s, DemuxEnds) && Apply(s, DemuxEnds) == s.(playing := None)
    ensures s.life.Starting? && !s.life.urlSet ==>
              Enabled(s, PresentFails) && Apply(s, PresentFails) == s.(life := Free) && s.playing == None
  {
  }

  /** A stop ends whatever plays and drops its URL; a play that presents ends in its own session playing. */
  lemma StopStopsPlayPlays(s: State, n: Session)
    requires s.life.Free?
    ensures Stopped(Apply(Apply(s, StopBegin), StopDropsUrl)) && Apply(s, StopBegin).playing == None
    ensures var s' := Apply(Apply(Apply(s, PlayBegin(n)), SetUrl), DemuxStarts);
            s'.playing == Some(n) && s'.url == Some(n) && s'.life.Free? && s'.copies == s.copies
  {
  }

  /** A session plays, a seek copies its URL, a stop ends: the seek brings the session back. */
  lemma StopIsUndone(n: Session, t: Tid) returns (states: seq<State>, acts: seq<Action>)
    ensures IsRun(states, acts) && |acts| == 9 && states[0] == State(None, None, Free, map[]) && acts[5] == StopDropsUrl
    ensures Stopped(states[6]) && states[9].playing == Some(n) && forall i :: 6 <= i < |acts| ==> !acts[i].PlayBegin?
  {
    acts := [PlayBegin(n), SetUrl, DemuxStarts, CopyUrl(t), StopBegin, StopDropsUrl, RestartBegin(t), SetUrl, DemuxStarts];
    var s0 := State(None, None, Free, map[]);
    var s1 := Apply(s0, acts[0]);
    var s2 := Apply(s1, acts[1]);
    var s3 := Apply(s2, acts[2]);
    var s4 := Apply(s3, acts[3]);
    var s5 := Apply(s4, acts[4]);
    var s6 := Apply(s5, acts[5]);
    var s7 := Apply(s6, acts[6]);
    var s8 := Apply(s7, acts[7]);
    states := [s0, s1, s2, s3, s4, s5, s6, s7, s8, Apply(s8, acts[8])];
  }

  /** lifeMu_ keeps its sections apart: each begins with it free, and a play() goes on from its own beginning. */
  lemma SectionsExclude(s: State, n: Session, t: Tid)
    ensures Enabled(s, StopBegin) <==> s.life.Free?
    ensures Enabled(s, PlayBegin(n)) <==> s.life.Free?
    ensures Enabled(s, RestartBegin(t)) <==> s.life.Free? && t in s.copies
    ensures Enabled(s, SetUrl) <==> s.life.Starting? && !s.life.urlSet
    ensures Enabled(s, PresentFails) <==> s.life.Starting? && !s.life.urlSet
    ensures Enabled(s, DemuxStarts) <==> s.life.Starting? && s.life.urlSet
  {
  }

  /** A seek that copies after the stop gets nothing, and can restart nothing. */
  lemma LateCopyIsEmpty(s: State, t: Tid)
    requires Stopped(s) && Enabled(s, CopyUrl(t))
    ensures Apply(s, CopyUrl(t)) == s && !Enabled(s, RestartBegin(t))
  {
  }
}
