/**
 Two promises of the companion over whole runs: the scrub hold, which keeps the
 displayed time near a plant until playback has caught up with it, and the stop
 hold, which keeps a stopped session from being re-armed by late traffic.
 */
module CompanionHolds {
  import opened Options
  import opened Companion

  function Run(s: Session, es: seq<Event>): Session
    decreases |es|
  {
    if es == [] then s else Run(Serve(s, es[0]), es[1..])
  }

  // ------------------------------------------------------------------ scrub hold

  /** Not far behind the plant, and not yet caught up with it. */
  predicate NearPlant(time: int, target: int) { target - SCRUB_CATCHUP_MS <= time < target + SCRUB_ADVANCE_MS }

  /** A plant at `target` is held and the display is near it. */
  predicate Held(s: Session, target: int) {
    && s.wantPlay && s.scrub == target && target >= 0 && s.timeMs >= 0
    && NearPlant(s.timeMs, target)
    && (IsActive(s.state) || s.state.Stopped?)
  }

  /** A report of one of the five known states. */
  predicate KnownReport(e: Event) { e.Progress? && !e.st.Named? }

  predicate ReleasesAt(s: Session, e: Event) { e.Progress? && Releases(s, e.st, e.t, e.d) }

  /** Planting starts the hold, at the clamped target. */
  lemma PlantsStartHold(s: Session, e: Event)
    requires e.PlayMedia? || e.Stage? || e.SeekTo? || e.StepPlayback? || e.SkipPrevious? || e.SeedAt?
    requires s.durationMs >= 0 && s.timeMs >= 0
    requires e.SeekTo? || e.StepPlayback? || e.SkipPrevious? ==> s.wantPlay && Serve(s, e).timeMs != s.timeMs
    requires e.SeedAt? ==> s.wantPlay && (IsActive(s.state) || s.state.Stopped?)
    ensures Serve(s, e).scrub >= 0 && Held(Serve(s, e), Serve(s, e).scrub)
    ensures Serve(s, e).timeMs == Serve(s, e).scrub
  {
  }

  /** Traffic that plants, binds and clears nothing in the state it meets: reports in known states, polls,
      subscriptions, pause and resume, skipNext, and seeks, steps and skips that do not move. */
  predicate Calm(s: Session, e: Event) {
    || KnownReport(e) || e.Poll? || e.Subscribe? || e.Unsubscribe? || e.PausePlayback? || e.ResumePlayback? || e.SkipNext?
    || ((e.SeekTo? || e.StepPlayback? || e.SkipPrevious?) && Serve(s, e).timeMs == s.timeMs)
  }

  predicate AllCalm(s: Session, es: seq<Event>)
    decreases |es|
  {
    es == [] || (Calm(s, es[0]) && AllCalm(Serve(s, es[0]), es[1..]))
  }

  /** What a timeline shows of a releasing report's time: an end without a media key shows nothing. */
  function ReleasedTime(s: Session, e: Event): int
    requires e.Progress?
  {
    if e.st.Ended? && s.media.key == "" then 0 else Clamp(s, e.t, e.d)
  }

  /** One event: the hold survives it exactly when it is not a releasing report, and a releasing one is
      displayed, clamped. */
  lemma EventAgainstHold(s: Session, target: int, e: Event)
    requires Held(s, target) && Calm(s, e)
    ensures ReleasesAt(s, e) ==> Serve(s, e).scrub == -1 && Serve(s, e).timeMs == Clamp(s, e.t, e.d)
    ensures ReleasesAt(s, e) ==> Timeline(Serve(s, e)).timeMs == ReleasedTime(s, e)
    ensures !ReleasesAt(s, e) ==> Held(Serve(s, e), target)
  {
  }

  /** No report in the run releases the hold, each judged in the state it meets. */
  predicate NoneReleases(s: Session, es: seq<Event>)
    decreases |es|
  {
    es == [] || (!ReleasesAt(s, es[0]) && NoneReleases(Serve(s, es[0]), es[1..]))
  }

  lemma {:induction false} NoHoldWithoutPlant(s: Session, es: seq<Event>)
    requires s.scrub == -1 && AllCalm(s, es)
    ensures Run(s, es).scrub == -1
    decreases |es|
  {
    if es != [] {
      NoHoldWithoutPlant(Serve(s, es[0]), es[1..]);
    }
  }

  /** Over any run of calm traffic, the hold is still there exactly when no report released it, and
      while it is there the timeline shows a time in [target - 2000, target + 400). */
  lemma {:induction false} ScrubHold(s: Session, target: int, es: seq<Event>)
    requires Held(s, target) && AllCalm(s, es)
    ensures NoneReleases(s, es) <==> Run(s, es).scrub == target
    ensures NoneReleases(s, es) ==> Held(Run(s, es), target)
    ensures NoneReleases(s, es) ==> NearPlant(Timeline(Run(s, es)).timeMs, target)
    decreases |es|
  {
    if es != [] {
      EventAgainstHold(s, target, es[0]);
      if ReleasesAt(s, es[0]) {
        NoHoldWithoutPlant(Serve(s, es[0]), es[1..]);
      } else {
        ScrubHold(Serve(s, es[0]), target, es[1..]);
      }
    }
  }

  /** The hold of a run that lost it ended on one releasing report, whose time the timeline then showed. */
  lemma {:induction false} HoldEndsOnRelease(s: Session, target: int, es: seq<Event>) returns (k: nat)
    requires Held(s, target) && AllCalm(s, es) && !NoneReleases(s, es)
    ensures k < |es|
    ensures var before := Run(s, es[..k]);
            && Held(before, target)
            && ReleasesAt(before, es[k])
            && Serve(before, es[k]).scrub == -1
            && Serve(before, es[k]).timeMs == Clamp(before, es[k].t, es[k].d)
            && Timeline(Serve(before, es[k])).timeMs == ReleasedTime(before, es[k])
    decreases |es|
  {
    EventAgainstHold(s, target, es[0]);
    if ReleasesAt(s, es[0]) {
      k := 0;
    } else {
      var j := HoldEndsOnRelease(Serve(s, es[0]), target, es[1..]);
      k := j + 1;
      assert es[..k][1..] == es[1..][..j];
    }
  }

  /** A report in none of the five states, which no caller sends, keeps the plant but is shown as it is: the
      timeline stays near the plant exactly when the report's clamped time is near it, or 0 without a key. */
  lemma UnknownReportAgainstHold(s: Session, target: int, name: string, t: int, d: int)
    requires Held(s, target)
    ensures var s' := Serve(s, Progress(Named(name), t, d));
            s'.scrub == target &&
            (NearPlant(Timeline(s').timeMs, target) <==>
             NearPlant(if s.media.key == "" && name != "" then 0 else Clamp(s, t, d), target))
  {
  }

  // ------------------------------------------------------------------ stop hold

  predicate StopHeld(s: Session) { !s.wantPlay && s.prePlayHold }

  /** A timeline at navigation: no media, time 0. */
  predicate AtNavigation(w: Wire) { w == Wire(w.state, Navigation, 0, 0, None) }

  predicate RearmsOrReleases(e: Event) { e.PlayMedia? || e.Stage? || e == Unsubscribe(true) }

  /** The exact events that can turn an idle session live again. */
  lemma RearmsIff(s: Session, e: Event)
    requires !s.wantPlay
    ensures Serve(s, e).wantPlay <==>
              e.PlayMedia? || e.Stage? || (e.Progress? && IsActive(e.st) && !s.prePlayHold)
  {
  }

  /** The exact events that give up the stop hold of an idle session. */
  lemma HoldLostIff(s: Session, e: Event)
    requires !s.wantPlay && s.prePlayHold
    ensures !Serve(s, e).prePlayHold <==> RearmsOrReleases(e)
  {
  }

  /** An HTTP stop, then any run of other traffic: progress reports in any state, stale binds, seeds,
      polls, mirrors, pause, resume, seek, step and skip requests, further stops. No step arms the session
      and every timeline is at navigation; if the reports were in known states it shows buffering. */
  lemma {:induction false} StopHold(s: Session, es: seq<Event>)
    requires forall i :: 0 <= i < |es| ==> !RearmsOrReleases(es[i])
    ensures var s' := Run(Serve(s, StopPlayback), es); StopHeld(s') && AtNavigation(Timeline(s'))
    ensures (forall i :: 0 <= i < |es| && es[i].Progress? ==> KnownReport(es[i])) ==>
              Timeline(Run(Serve(s, StopPlayback), es)).state == Buffering
  {
    StopHoldLasts(Serve(s, StopPlayback), es);
  }

  lemma {:induction false} StopHoldLasts(s: Session, es: seq<Event>)
    requires StopHeld(s) && forall i :: 0 <= i < |es| ==> !RearmsOrReleases(es[i])
    ensures StopHeld(Run(s, es)) && AtNavigation(Timeline(Run(s, es)))
    ensures s.state.Stopped? && (forall i :: 0 <= i < |es| && es[i].Progress? ==> KnownReport(es[i])) ==>
              Timeline(Run(s, es)).state == Buffering
    decreases |es|
  {
    if es != [] {
      HoldLostIff(s, es[0]);
      RearmsIff(s, es[0]);
      StopHoldLasts(Serve(s, es[0]), es[1..]);
    }
  }

  /** The last unsubscribe ends the promise: one late report then re-arms the stopped session. */
  lemma LateReportAfterUnsubscribe(s: Session, t: int, d: int)
    ensures Run(s, [StopPlayback, Unsubscribe(true), Progress(Playing, t, d)]).wantPlay
  {
    var s1 := Serve(s, StopPlayback);
    var s2 := Serve(s1, Unsubscribe(true));
    assert [StopPlayback, Unsubscribe(true), Progress(Playing, t, d)][1..] == [Unsubscribe(true), Progress(Playing, t, d)];
    assert [Unsubscribe(true), Progress(Playing, t, d)][1..] == [Progress(Playing, t, d)];
    assert Run(s2, [Progress(Playing, t, d)]) == Run(Serve(s2, Progress(Playing, t, d)), []);
  }

  /** Traffic that neither stages, stops nor mirrors, and binds no empty key. */
  predicate KeepsKey(e: Event) {
    !e.PlayMedia? && !e.Stage? && !e.StopPlayback? && !e.MirrorStage? && (e.BindTo? ==> e.req.key != "")
  }

  lemma {:induction false} StagedKeyStays(s: Session, es: seq<Event>)
    requires s.wantPlay && s.media.key != "" && forall i :: 0 <= i < |es| ==> KeepsKey(es[i])
    ensures Run(s, es).wantPlay && Run(s, es).media.key == s.media.key
    decreases |es|
  {
    if es != [] {
      EventKeepsKey(s, es[0]);
      StagedKeyStays(Serve(s, es[0]), es[1..]);
    }
  }

  lemma EventKeepsKey(s: Session, e: Event)
    requires s.wantPlay && s.media.key != "" && KeepsKey(e)
    ensures Serve(s, e).wantPlay && Serve(s, e).media.key == s.media.key
  {
  }

  /** After a play is staged, over any such traffic, a bind for another key is refused and changes nothing. */
  lemma StaleBindIsRefused(s: Session, newer: PlayRequest, es: seq<Event>, stale: PlayRequest, d: int)
    requires newer.key != "" && stale.key != "" && stale.key != newer.key
    requires forall i :: 0 <= i < |es| ==> KeepsKey(es[i])
    ensures var s' := Run(Serve(s, Stage(newer)), es);
            s'.wantPlay && s'.media.key == newer.key && Serve(s', BindTo(stale, d)) == s'
  {
    StagedKeyStays(Serve(s, Stage(newer)), es);
  }
}
