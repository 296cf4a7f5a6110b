/**
 What the companion's timeline shows after each kind of event, in the event's own numbers
 (arm/misterplexd/companion.cpp): where a report, a plant, a bind or a request leaves the
 displayed state, time, duration and media.
 */
module CompanionShows {
  import opened Options
  import opened Companion
  import opened CompanionHolds

  // ------------------------------------------------------------------ any session

  /** A live session with a media key is on the full screen with its own time, duration and media; one
      that has gone quiet shows buffering. */
  lemma LiveSessionShows(s: Session)
    requires s.wantPlay && s.media.key != ""
    ensures Timeline(s) == Wire(if s.state in {Stopped, Named("")} then Buffering else s.state, FullScreenVideo,
                                if s.timeMs >= 0 then s.timeMs else 0, if s.durationMs >= 0 then s.durationMs else 0,
                                Some(s.media))
  {
  }

  /** Without a key it shows no media, and an end or an unknown state is not on the full screen. */
  lemma KeylessSessionShows(s: Session)
    requires s.wantPlay && s.media.key == ""
    ensures s.state in {Playing, Paused, Buffering, Stopped, Named("")} ==>
              Timeline(s) == Wire(if s.state in {Stopped, Named("")} then Buffering else s.state, FullScreenVideo,
                                  if s.timeMs >= 0 then s.timeMs else 0, if s.durationMs >= 0 then s.durationMs else 0,
                                  None)
    ensures s.state !in {Playing, Paused, Buffering, Stopped, Named("")} ==>
              Timeline(s) == Wire(s.state, Navigation, 0, 0, None)
  {
  }

  /** An idle session is at navigation; while a cast is bound or held a quiet one shows buffering. */
  lemma IdleSessionShows(s: Session)
    requires !s.wantPlay
    ensures Timeline(s) ==
              Wire(if (s.prePlayHold || s.castBound) && s.state in {Stopped, Named("")} then Buffering else s.state,
                   Navigation, 0, 0, None)
  {
  }

  // ------------------------------------------------------------------ reports

  /** A report to a live session without a plant is shown: its state; its time, or 0 when negative, or the
      report's duration when past it, or else the session's when past that; and its duration when it has one. */
  lemma LiveReportIsShown(s: Session, st: Transport, t: int, d: int)
    requires s.wantPlay && s.scrub < 0 && st in {Playing, Paused, Buffering}
    ensures var s' := Serve(s, Progress(st, t, d));
            var w := Timeline(s');
            && w.state == st && w.location == FullScreenVideo
            && w.media == (if s.media.key != "" then Some(s.media) else None)
            && (t < 0 ==> w.timeMs == 0)
            && (t >= 0 && (d <= 0 || t <= d) && (s.durationMs <= 0 || t <= s.durationMs) ==> w.timeMs == t)
            && (0 < d < t ==> w.timeMs == d)
            && (0 < s.durationMs < t && (d <= 0 || t <= d) ==> w.timeMs == s.durationMs)
            && w.durationMs == (if d > 0 then d else if s.durationMs > 0 then s.durationMs else 0)
            && s' == s.(state := st, timeMs := w.timeMs, durationMs := if d > 0 then d else s.durationMs)
  {
  }

  /** The duration in force after a report. */
  function InForce(s: Session, d: int): int { if d > 0 then d else s.durationMs }

  /** A live report's time is shown bounded by the duration then in force, except exactly when the report
      itself lengthens a known duration past its time: it then shows the end of the shorter one. */
  lemma ShownWithinDurationIff(s: Session, st: Transport, t: int, d: int)
    requires s.wantPlay && s.scrub < 0 && st in {Playing, Paused, Buffering}
    ensures Timeline(Serve(s, Progress(st, t, d))).timeMs ==
              (if t < 0 then 0 else if 0 < InForce(s, d) < t then InForce(s, d) else t)
            <==> !(0 < s.durationMs < t <= d)
  {
  }

  /** After any run that leaves a live session without a plant, the next report is what the timeline shows. */
  lemma LastReportIsShown(s: Session, es: seq<Event>, st: Transport, t: int, d: int)
    requires Run(s, es).wantPlay && Run(s, es).scrub < 0 && st in {Playing, Paused, Buffering} && 0 <= t <= d && 0 < d
    requires Run(s, es).durationMs <= 0 || t <= Run(s, es).durationMs
    ensures var w := Timeline(Run(s, es + [Progress(st, t, d)])); w.state == st && w.timeMs == t && w.durationMs == d
  {
    RunThen(s, es, Progress(st, t, d));
    LiveReportIsShown(Run(s, es), st, t, d);
  }

  lemma {:induction false} RunThen(s: Session, es: seq<Event>, e: Event)
    ensures Run(s, es + [e]) == Serve(Run(s, es), e)
    decreases |es|
  {
    if es == [] {
      var one := es + [e];
      assert one[0] == e && one[1..] == [];
      assert Run(s, one) == Run(Serve(s, e), []);
      assert Run(s, es) == s;
    } else {
      RunThen(Serve(s, es[0]), es[1..], e);
      assert (es + [e])[1..] == es[1..] + [e];
    }
  }

  /** The other known reports: a stop of a live session keeps its time and shows buffering, an end is shown
      as such, and an idle session is armed exactly by an active report that nothing holds back. */
  lemma OtherReportsShow(s: Session, t: int, d: int)
    ensures s.wantPlay ==> Serve(s, Progress(Stopped, t, d)) == s.(state := Stopped, durationMs := InForce(s, d))
    ensures s.wantPlay && s.scrub < 0 ==> Serve(s, Progress(Ended, t, d)).state == Ended
    ensures !s.wantPlay && s.prePlayHold ==>
              forall st :: st in {Playing, Paused, Buffering, Ended} ==> Serve(s, Progress(st, t, d)) == s
    ensures !s.wantPlay && !s.prePlayHold ==>
              forall st :: st in {Playing, Paused, Buffering} ==>
                Serve(s, Progress(st, t, d)).wantPlay && Timeline(Serve(s, Progress(st, t, d))).state == st
  {
  }

  // ------------------------------------------------------------------ reports against a plant

  /** The report's time, after the bounds of the scrubber, is at least `x`. */
  predicate ComesTo(s: Session, t: int, d: int, x: int) {
    x <= 0 || (t >= x && (d <= 0 || d >= x) && (s.durationMs <= 0 || s.durationMs >= x || 0 < d < t))
  }

  /** A plant is given up exactly by a playing or paused report 400 ms past it, or by an end no more than
      2000 ms before it; any other report keeps it. */
  lemma ReleasedIff(s: Session, target: int, st: Transport, t: int, d: int)
    requires Held(s, target) && st in {Playing, Paused, Buffering, Stopped, Ended}
    ensures ReleasesAt(s, Progress(st, t, d)) <==>
              || (st in {Playing, Paused} && ComesTo(s, t, d, target + 400))
              || (st == Ended && ComesTo(s, t, d, target - 2000))
    ensures Serve(s, Progress(st, t, d)).scrub == if ReleasesAt(s, Progress(st, t, d)) then -1 else target
  {
  }

  /** What a held session shows of a report: buffering stays on the plant, a rewind of more than 2000 ms is
      not shown, and anything nearer or further on is shown with the report's own time. */
  lemma HeldReportIsShown(s: Session, target: int, st: Transport, t: int, d: int)
    requires Held(s, target) && st in {Playing, Paused, Buffering}
    ensures var w := Timeline(Serve(s, Progress(st, t, d)));
            && w.state == st && w.location == FullScreenVideo
            && w.durationMs == (if d > 0 then d else if s.durationMs > 0 then s.durationMs else 0)
            && (st == Buffering ==> w.timeMs == target)
            && (st != Buffering && !ComesTo(s, t, d, target - 2000) ==> w.timeMs == s.timeMs)
            && (st != Buffering && ComesTo(s, t, d, target - 2000) ==>
                  && (t < 0 ==> w.timeMs == 0)
                  && (t >= 0 && (d <= 0 || t <= d) && (s.durationMs <= 0 || t <= s.durationMs) ==> w.timeMs == t)
                  && (0 < d < t ==> w.timeMs == d)
                  && (0 < s.durationMs < t && (d <= 0 || t <= d) ==> w.timeMs == s.durationMs))
  {
  }

  /** An end that is shown shows its own bounded time in a session with a key. */
  lemma HeldEndIsShown(s: Session, target: int, t: int, d: int)
    requires Held(s, target) && s.media.key != "" && 0 <= t && (d <= 0 || t <= d) && (s.durationMs <= 0 || t <= s.durationMs)
    ensures var w := Timeline(Serve(s, Progress(Ended, t, d)));
            if t >= target - 2000 then w.state == Ended && w.timeMs == t
            else w.state == Timeline(s).state && w.timeMs == s.timeMs
  {
  }

  // ------------------------------------------------------------------ plants

  /** A cast or a staged play shows its own offset and media at once, with no duration yet. */
  lemma PlayIsShown(s: Session, req: PlayRequest)
    requires req.key != ""
    ensures var s' := Serve(s, PlayMedia(req));
            && s' == Serve(s, Stage(req)) && s'.scrub == s'.timeMs && s'.wantPlay && s'.castBound && !s'.prePlayHold
            && Timeline(s') ==
                 Wire(Buffering, FullScreenVideo, if req.offsetMs >= 0 then req.offsetMs else 0, 0,
                      Some(Media(req.key,
                                 if req.containerKey != "" || req.queueId == "" then req.containerKey
                                 else "/playQueues/" + req.queueId + "?own=1",
                                 req.queueId, req.queueItemId, if req.queueVersion != "" then req.queueVersion else "1",
                                 if req.ratingKey != "" then req.ratingKey else s.media.ratingKey)))
    ensures Serve(s, PlayMedia(req.(key := ""))) == Serve(s, PlayMedia(req.(key := "(no-key)")))
  {
  }

  /** A seek shows and plants its offset within the session's duration; one that would not move shows nothing new. */
  lemma SeekIsShown(s: Session, ms: int, target: int)
    requires s.wantPlay && 0 <= s.timeMs
    requires if ms < 0 then target == 0
             else if 0 < s.durationMs < ms then target == s.durationMs else target == ms
    ensures var s' := Serve(s, SeekTo(true, ms));
            && (target == s.timeMs ==> Timeline(s') == Timeline(s) && s'.scrub == s.scrub)
            && (target != s.timeMs ==> s'.scrub == target && Timeline(s') == Timeline(s.(state := Buffering, timeMs := target)))
    ensures Serve(s, SeekTo(false, ms)) == s.(castBound := true)
  {
  }

  /** A step lands its own distance from the current time, within the session's bounds. */
  lemma StepIsShown(s: Session, delta: int, target: int)
    requires s.wantPlay && 0 <= s.timeMs
    requires if s.timeMs + delta < 0 then target == 0
             else if 0 < s.durationMs < s.timeMs + delta then target == s.durationMs else target == s.timeMs + delta
    ensures var s' := Serve(s, StepPlayback(delta));
            && (target == s.timeMs ==> Timeline(s') == Timeline(s) && s'.scrub == s.scrub)
            && (target != s.timeMs ==> s'.scrub == target && Timeline(s') == Timeline(s.(state := Buffering, timeMs := target)))
  {
  }

  /** skipPrevious restarts at 0; skipNext leaves the session to its handler. */
  lemma SkipIsShown(s: Session)
    requires s.wantPlay && 0 <= s.timeMs
    ensures var s' := Serve(s, SkipPrevious);
            && (s.timeMs == 0 ==> Timeline(s') == Timeline(s) && s'.scrub == s.scrub)
            && (s.timeMs != 0 ==> s'.scrub == 0 && Timeline(s') == Timeline(s.(state := Buffering, timeMs := 0)))
    ensures Serve(s, SkipNext) == s.(castBound := true)
  {
  }

  /** A seed shows and plants its position within the duration it leaves in force. */
  lemma SeedIsShown(s: Session, t: int, d: int)
    requires s.wantPlay && s.media.key != ""
    ensures var s' := Serve(s, SeedAt(t, d));
            var w := Timeline(s');
            && s'.scrub == w.timeMs && w.media == Some(s.media)
            && w.timeMs == (if t < 0 then 0 else if 0 < InForce(s, d) < t then InForce(s, d) else t)
            && w.durationMs == (if d > 0 then d else if s.durationMs > 0 then s.durationMs else 0)
            && w.state == Timeline(s).state && s'.wantPlay
            && s'.state == (if s.state in {Stopped, Named("")} then Buffering else s.state)
  {
  }

  /** A seed of an idle session sets its position and arms nothing. */
  lemma SeedOfIdle(s: Session, t: int, d: int)
    requires !s.wantPlay
    ensures var time := if t < 0 then 0 else if 0 < InForce(s, d) < t then InForce(s, d) else t;
            Serve(s, SeedAt(t, d)) == s.(timeMs := time, scrub := time, durationMs := InForce(s, d))
  {
  }

  // ------------------------------------------------------------------ binds

  /** An accepted bind shows the request's media and duration, and the plant or time within it. */
  lemma BindIsShown(s: Session, req: PlayRequest, d: int)
    requires s.wantPlay && req.key != "" && s.media.key in {"", req.key}
    ensures var s' := Serve(s, BindTo(req, d));
            var w := Timeline(s');
            var shown := if s.scrub >= 0 then s.scrub else if s.timeMs >= 0 then s.timeMs else 0;
            && w.location == FullScreenVideo && w.state == Timeline(s.(media := s'.media)).state
            && w.media == Some(Media(req.key,
                                     if req.containerKey != "" || req.queueId == "" then req.containerKey
                                     else "/playQueues/" + req.queueId + "?own=1",
                                     req.queueId, req.queueItemId,
                                     if req.queueVersion != "" then req.queueVersion else "1", req.ratingKey))
            && w.durationMs == (if d > 0 then d else 0)
            && w.timeMs == (if 0 < d < shown then d else shown)
            && (s.scrub >= 0 ==> s'.scrub == w.timeMs) && (s.scrub < 0 ==> s'.scrub == s.scrub)
            && s'.wantPlay && !s'.prePlayHold && s'.timeMs == w.timeMs && s'.state == s.state
  {
  }

  /** A bind is taken exactly by a live session whose key and the request's agree or are missing. */
  lemma BindTakenIff(s: Session, req: PlayRequest, d: int)
    ensures (!s.wantPlay || (s.media.key != "" && req.key != "" && s.media.key != req.key)) ==>
              Serve(s, BindTo(req, d)) == s
    ensures s.wantPlay && (s.media.key == "" || req.key == "" || s.media.key == req.key) ==>
              Serve(s, BindTo(req, d)).media.key == req.key && Serve(s, BindTo(req, d)).durationMs == if d > 0 then d else 0
  {
  }

  // ------------------------------------------------------------------ requests

  /** Pause and resume change only the state shown, of a live session within its bounds. */
  lemma PauseIsShown(s: Session)
    requires s.wantPlay && 0 <= s.timeMs && (s.durationMs <= 0 || s.timeMs <= s.durationMs)
    requires s.scrub < 0 || s.scrub - 2000 <= s.timeMs < s.scrub + 400
    ensures Serve(s, PausePlayback) == s.(state := Paused, castBound := true)
    ensures Serve(s, ResumePlayback) == s.(state := Playing, castBound := true)
  {
  }

  /** A stop shows an empty timeline, still buffering for the bound cast. */
  lemma StopIsShown(s: Session)
    ensures Timeline(Serve(s, StopPlayback)) == Wire(Buffering, Navigation, 0, 0, None)
    ensures Serve(s, StopPlayback) == Session(Stopped, 0, 0, -1, false, true, true, Media("", "", "", "", "", ""))
  {
  }

  /** Playback requests to an idle session only bind the cast. */
  lemma IdleIgnoresRequests(s: Session, e: Event)
    requires !s.wantPlay
    requires e in {PausePlayback, ResumePlayback, SkipNext, SkipPrevious, Subscribe, Unsubscribe(false)}
             || e.SeekTo? || e.StepPlayback?
    ensures Serve(s, e) == s.(castBound := true)
  {
  }

  /** A poll holds an idle session; the last unsubscribe lets it go. Neither touches a live one's timeline. */
  lemma PollsAndUnsubscribes(s: Session)
    ensures Serve(s, Poll) == s.(castBound := true, prePlayHold := s.prePlayHold || !s.wantPlay)
    ensures Serve(s, Unsubscribe(true)) == s.(castBound := false, prePlayHold := s.prePlayHold && s.wantPlay)
    ensures s.wantPlay ==>
              Timeline(Serve(s, Poll)) == Timeline(s) && Timeline(Serve(s, Unsubscribe(true))) == Timeline(s)
  {
  }

  /** `p` stands somewhere in `s`. */
  ghost predicate Within(s: string, p: string) { exists a, b :: s == a + p + b }

  lemma {:induction false} ContainsIff(s: string, p: string)
    ensures Contains(s, p) <==> Within(s, p)
  {
    if Contains(s, p) {
      var a, b := ContainsWithin(s, p);
    }
    if Within(s, p) {
      var a, b :| s == a + p + b;
      WithinContains(a, p, b);
    }
  }

  lemma {:induction false} ContainsWithin(s: string, p: string) returns (a: string, b: string)
    requires Contains(s, p)
    ensures s == a + p + b
  {
    if s[..|p|] == p {
      a, b := [], s[|p|..];
    } else {
      a, b := ContainsWithin(s[1..], p);
      assert s == [s[0]] + s[1..];
      a := [s[0]] + a;
    }
  }

  lemma {:induction false} WithinContains(a: string, p: string, b: string)
    ensures Contains(a + p + b, p)
  {
    var s := a + p + b;
    if a == [] {
      assert s[..|p|] == p;
    } else {
      WithinContains(a[1..], p, b);
      assert s[1..] == a[1..] + p + b;
    }
  }

  /** A mirror leaves an active session alone; otherwise it stages the request's media, keeping a container
      only when it names a play queue, idle and held. */
  lemma MirrorIsStaged(s: Session, req: PlayRequest)
    ensures s.wantPlay && s.state in {Playing, Paused, Buffering} ==>
              Serve(s, MirrorStage(req)) == s.(castBound := true)
    ensures !(s.wantPlay && s.state in {Playing, Paused, Buffering}) ==>
              var s' := Serve(s, MirrorStage(req));
              && Timeline(s') == Wire(Buffering, Navigation, 0, 0, None) && !s'.wantPlay && s'.prePlayHold && s'.castBound
              && s'.timeMs == s.timeMs && s'.durationMs == 0 && s'.scrub == s.scrub
              && s'.media == Media(if req.key != "" then req.key else s.media.key,
                                   if Within(req.containerKey, "/playQueues/") then req.containerKey else "",
                                   req.queueId, req.queueItemId, s.media.queueVersion,
                                   if req.ratingKey != "" then req.ratingKey else s.media.ratingKey)
  {
    ContainsIff(req.containerKey, "/playQueues/");
  }
}
