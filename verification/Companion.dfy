/**
 The companion's timeline state (arm/misterplexd/companion.cpp): what setState,
 bindMedia, the plants and the HTTP handlers do to it, and what a timeline shows.
 */
module Companion {
  import opened Options

  /** A transport state by name; anything but the five known ones is `Named`. */
  datatype Transport = Playing | Paused | Buffering | Stopped | Ended | Named(text: string)

  datatype PlayRequest = PlayRequest(
    key: string, containerKey: string, queueId: string, queueItemId: string, queueVersion: string,
    ratingKey: string, offsetMs: int)

  /** Identity of the staged or active media. */
  datatype Media = Media(
    key: string, containerKey: string, queueId: string, queueItemId: string, queueVersion: string,
    ratingKey: string)

  const NO_MEDIA := Media("", "", "", "", "", "")

  /** The fields that mu_ guards. `scrub` is -1 when no plant is held. */
  datatype Session = Session(
    state: Transport, timeMs: int, durationMs: int, scrub: int,
    wantPlay: bool, prePlayHold: bool, castBound: bool, media: Media)

  const SCRUB_CATCHUP_MS := 2000
  const SCRUB_ADVANCE_MS := 400

  predicate IsProgress(st: Transport) { st.Playing? || st.Paused? || st.Buffering? || st.Ended? }

  predicate IsActive(st: Transport) { st.Playing? || st.Paused? || st.Buffering? }

  // ------------------------------------------------------------------ reports

  /** An incoming time, brought into the scrubber's bounds. */
  function Clamp(s: Session, t: int, d: int): (c: int)
    ensures t < 0 ==> c == 0
    ensures 0 <= t && (d <= 0 || t <= d) && (s.durationMs <= 0 || t <= s.durationMs) ==> c == t
    ensures 0 < d < t ==> c == d
    ensures 0 < s.durationMs < t && (d <= 0 || t <= d) ==> c == s.durationMs
  {
    var t0 := if t < 0 then 0 else t;
    if d > 0 && t0 > d then d
    else if s.durationMs > 0 && t0 > s.durationMs then s.durationMs
    else t0
  }

  predicate Holding(s: Session) { s.wantPlay && s.scrub >= 0 }

  /** A playing or paused report past the plant, or an end near or past it, gives up the hold. */
  predicate Releases(s: Session, st: Transport, t: int, d: int) {
    var c := Clamp(s, t, d);
    || ((st.Playing? || st.Paused?) && c >= s.scrub + SCRUB_ADVANCE_MS)
    || (st.Ended? && c >= s.scrub - SCRUB_CATCHUP_MS)
  }

  function NewDuration(s: Session, d: int): int { if d > 0 then d else s.durationMs }

  /** What a report leaves behind, said by what it means for the scrubber. */
  function Report(s: Session, st: Transport, t: int, d: int): Session {
    var c := Clamp(s, t, d);
    var s1 := s.(durationMs := NewDuration(s, d));
    if !s.wantPlay && s.prePlayHold && IsProgress(st) then s               // late progress after stop
    else if st.Stopped? && s.wantPlay then s1.(state := Stopped)           // keeps the scrubber's time
    else if Holding(s) && IsProgress(st) then
      if st.Buffering? then s1.(state := Buffering, timeMs := s.scrub)
      else if c < s.scrub - SCRUB_CATCHUP_MS then                          // a rewind is not shown
        s1.(state := if st.Ended? then s.state else st)
      else s1.(state := st, timeMs := c, scrub := if Releases(s, st, t, d) then -1 else s.scrub)
    else s1.(state := st, timeMs := c, wantPlay := s.wantPlay || IsActive(st))
  }

  // ------------------------------------------------------------------ binds and plants

  function Version(v: string): string { if v == "" then "1" else v }

  function Container(req: PlayRequest): string {
    if req.containerKey == "" && req.queueId != "" then "/playQueues/" + req.queueId + "?own=1" else req.containerKey
  }

  predicate AcceptsBind(s: Session, req: PlayRequest) {
    s.wantPlay && (s.media.key == "" || req.key == "" || s.media.key == req.key)
  }

  function Bind(s: Session, req: PlayRequest, d: int): Session {
    if !AcceptsBind(s, req) then s
    else
      var dur := if d > 0 then d else 0;
      var cap := (x: int) => if dur > 0 && x > dur then dur else x;
      var scrub := if s.scrub >= 0 then cap(s.scrub) else s.scrub;
      s.(media := Media(req.key, Container(req), req.queueId, req.queueItemId, Version(req.queueVersion), req.ratingKey),
         durationMs := dur, scrub := scrub,
         timeMs := if s.scrub >= 0 then scrub else cap(if s.timeMs < 0 then 0 else s.timeMs),
         prePlayHold := false)
  }

  function Seed(s: Session, t: int, d: int): Session {
    var t0 := if t < 0 then 0 else t;
    var dur := NewDuration(s, d);
    var t1 := if dur > 0 && t0 > dur then dur else t0;
    s.(timeMs := t1, scrub := t1, durationMs := dur,
       state := if s.wantPlay && (s.state.Stopped? || s.state == Named("")) then Buffering else s.state)
  }

  /** stagePlay and playMedia: a fresh session planted at the request's offset. */
  function Fresh(s: Session, req: PlayRequest): Session {
    var off := if req.offsetMs < 0 then 0 else req.offsetMs;
    Session(Buffering, off, 0, off, true, false, true,
            Media(req.key, Container(req), req.queueId, req.queueItemId, Version(req.queueVersion),
                  if req.ratingKey != "" then req.ratingKey else s.media.ratingKey))
  }

  function Keyed(req: PlayRequest): PlayRequest { if req.key == "" then req.(key := "(no-key)") else req }

  /** A seek, step or restart planted at `target`. */
  function Plant(s: Session, target: int): Session {
    s.(scrub := target, timeMs := target, state := Buffering, wantPlay := true)
  }

  function Clear(s: Session): Session {
    Session(Stopped, 0, 0, -1, false, s.prePlayHold || s.castBound, s.castBound, NO_MEDIA)
  }

  // ------------------------------------------------------------------ HTTP requests

  function Mirror(s: Session, req: PlayRequest): Session {
    if s.wantPlay && IsActive(s.state) then s
    else
      s.(media := s.media.(
           key := if req.key != "" then req.key else s.media.key,
           ratingKey := if req.ratingKey != "" then req.ratingKey else s.media.ratingKey,
           queueId := req.queueId, queueItemId := req.queueItemId, containerKey := QueueRef(req.containerKey)),
         durationMs := 0, prePlayHold := true, wantPlay := false, state := Stopped, castBound := true)
  }

  /** A mirror keeps only a container that names a play queue. */
  function QueueRef(containerKey: string): string {
    if Contains(containerKey, "/playQueues/") then containerKey else ""
  }

  predicate Contains(s: string, p: string) {
    |p| <= |s| && (s[..|p|] == p || (s != [] && Contains(s[1..], p)))
  }

  /** seekTo: clamp, then plant only an active session that really moves. */
  function Seek(s: Session, present: bool, ms: int): Session {
    var m0 := if ms < 0 then 0 else ms;
    var m := if s.durationMs > 0 && m0 > s.durationMs then s.durationMs else m0;
    if s.wantPlay && present && m != s.timeMs then Plant(s, m) else s
  }

  function StepTarget(s: Session, delta: int): int {
    var t := if s.timeMs + delta < 0 then 0 else s.timeMs + delta;
    if s.durationMs > 0 && t > s.durationMs then s.durationMs else t
  }

  function StepBy(s: Session, delta: int): Session {
    if s.wantPlay && StepTarget(s, delta) != s.timeMs then Plant(s, StepTarget(s, delta)) else s
  }

  /** Everything that reaches the timeline state from outside: the media thread, doPlay, HTTP. */
  datatype Event =
    | Progress(st: Transport, t: int, d: int)
    | BindTo(req: PlayRequest, d: int)
    | SeedAt(t: int, d: int)
    | Stage(req: PlayRequest)
    | PlayMedia(req: PlayRequest)
    | StopPlayback
    | PausePlayback
    | ResumePlayback
    | SeekTo(present: bool, ms: int)
    | StepPlayback(delta: int)
    | SkipNext
    | SkipPrevious
    | MirrorStage(req: PlayRequest)
    | Poll
    | Subscribe
    | Unsubscribe(last: bool)

  predicate IsHttp(e: Event) { !e.Progress? && !e.BindTo? && !e.SeedAt? && !e.Stage? }

  function Serve(s0: Session, e: Event): Session {
    var s := if IsHttp(e) then s0.(castBound := true) else s0;
    match e
    case Progress(st, t, d) => Report(s, st, t, d)
    case BindTo(req, d) => Bind(s, req, d)
    case SeedAt(t, d) => Seed(s, t, d)
    case Stage(req) => Fresh(s, req)
    case PlayMedia(req) => Fresh(s, Keyed(req))
    case StopPlayback => Clear(s)
    case PausePlayback => if s.wantPlay then Report(s, Paused, s.timeMs, s.durationMs) else s
    case ResumePlayback => if s.wantPlay then Report(s, Playing, s.timeMs, s.durationMs) else s
    case SeekTo(present, ms) => Seek(s, present, ms)
    case StepPlayback(delta) => StepBy(s, delta)
    case SkipNext => s
    case SkipPrevious => if s.wantPlay && s.timeMs != 0 then Plant(s, 0) else s
    case MirrorStage(req) => Mirror(s, req)
    case Poll => if s.wantPlay then s else s.(prePlayHold := true)
    case Subscribe => s
    case Unsubscribe(last) =>
      if last then s.(castBound := false, prePlayHold := s.prePlayHold && s.wantPlay) else s
  }

  // ------------------------------------------------------------------ what a timeline shows

  datatype Location = FullScreenVideo | Navigation

  /** The attributes of the one Timeline element. `media` is None when no key is sent. */
  datatype Wire = Wire(state: Transport, location: Location, timeMs: int, durationMs: int, media: Option<Media>)

  predicate Quiet(st: Transport) { st.Stopped? || st == Named("") }

  function Timeline(s: Session): Wire {
    var holdIdle := !s.wantPlay && (s.prePlayHold || s.castBound) && (Quiet(s.state) || s.state.Buffering?);
    var st := if s.wantPlay && Quiet(s.state) then Buffering else if holdIdle then Buffering else s.state;
    var mediaActive := s.wantPlay && (IsActive(st) || s.media.key != "");
    Wire(st,
         if mediaActive then FullScreenVideo else Navigation,
         if mediaActive then (if s.timeMs < 0 then 0 else s.timeMs) else 0,
         if mediaActive && s.durationMs > 0 then s.durationMs else 0,
         if mediaActive && s.media.key != "" then Some(s.media) else None)
  }

  // ------------------------------------------------------------------ the object

  class CompanionState {
    var state: Transport
    var timeMs: int
    var durationMs: int
    var scrubTargetMs: int
    var wantPlay: bool
    var prePlayHold: bool
    var castBound: bool
    var media: Media
    var pushPending: bool
    var pushImmediate: bool

    ghost function View(): Session
      reads this
    {
      Session(state, timeMs, durationMs, scrubTargetMs, wantPlay, prePlayHold, castBound, media)
    }

    constructor ()
      ensures View() == Session(Stopped, 0, 0, -1, false, false, false, NO_MEDIA) && !pushPending && !pushImmediate
    {
      state, timeMs, durationMs, scrubTargetMs := Stopped, 0, 0, -1;
      wantPlay, prePlayHold, castBound, media := false, false, false, NO_MEDIA;
      pushPending, pushImmediate := false, false;
    }

    method RequestTimelinePush(immediate: bool)
      modifies this`pushPending, this`pushImmediate
      ensures pushPending && pushImmediate == (old(pushImmediate) || immediate)
    {
      pushPending := true;
      pushImmediate := pushImmediate || immediate;
    }

    /** The plant-hold block: either the report ends here, or the hold is kept or given up and the
        report goes on to be adopted. */
    method HoldPlant(st: Transport, time: int, d: int) returns (handled: bool)
      requires wantPlay && scrubTargetMs >= 0 && IsProgress(st)
      modifies this`state, this`timeMs, this`durationMs, this`scrubTargetMs
      ensures handled <==> st.Buffering? || time < old(scrubTargetMs) - SCRUB_CATCHUP_MS
      ensures handled ==>
                && durationMs == (if d > 0 then d else old(durationMs)) && scrubTargetMs == old(scrubTargetMs)
                && state == (if st.Ended? then old(state) else st)
                && timeMs == (if st.Buffering? then scrubTargetMs else old(timeMs))
      ensures !handled ==>
                && state == old(state) && timeMs == old(timeMs) && durationMs == old(durationMs)
                && scrubTargetMs == if st.Ended? || time >= old(scrubTargetMs) + SCRUB_ADVANCE_MS then -1
                                    else old(scrubTargetMs)
    {
      var delta := if time > scrubTargetMs then time - scrubTargetMs else scrubTargetMs - time;
      if st.Buffering? {
        if d > 0 { durationMs := d; }
        state := Buffering;
        timeMs := scrubTargetMs;
        return true;
      }
      if delta > SCRUB_CATCHUP_MS {
        if time + SCRUB_CATCHUP_MS < scrubTargetMs {
          if d > 0 { durationMs := d; }
          if st.Playing? || st.Paused? { state := st; }
          return true;
        }
        scrubTargetMs := -1;
      } else if st.Ended? || ((st.Playing? || st.Paused?) && time >= scrubTargetMs + SCRUB_ADVANCE_MS) {
        scrubTargetMs := -1;
      }
      return false;
    }

    method ClampTime(t: int, d: int) returns (time: int)
      ensures time == Clamp(View(), t, d)
    {
      time := if t < 0 then 0 else t;
      if d > 0 && time > d {
        time := d;
      } else if durationMs > 0 && time > durationMs {
        time := durationMs;
      }
    }

    /** The tail of setState: take over state, duration and the already clamped time. */
    method Adopt(st: Transport, clamped: int, d: int)
      requires (d > 0 ==> clamped <= d) && (d <= 0 && durationMs > 0 ==> clamped <= durationMs)
      modifies this`state, this`timeMs, this`durationMs, this`wantPlay
      ensures state == st && timeMs == clamped && durationMs == (if d > 0 then d else old(durationMs))
      ensures wantPlay == (old(wantPlay) || IsActive(st))
    {
      var time := clamped;
      state := st;
      if d > 0 { durationMs := d; }
      if durationMs > 0 && time > durationMs { time := durationMs; }
      timeMs := time;
      if st.Playing? || st.Paused? || st.Buffering? { wantPlay := true; }
    }

    /** A report that is neither dropped nor an empty session's end. */
    method TakeReport(st: Transport, t: int, d: int)
      requires !(!wantPlay && prePlayHold && IsProgress(st)) && !(st.Stopped? && wantPlay)
      modifies this`state, this`timeMs, this`durationMs, this`scrubTargetMs, this`wantPlay
      ensures View() == Report(old(View()), st, t, d)
    {
      var time := ClampTime(t, d);
      if wantPlay && scrubTargetMs >= 0 && IsProgress(st) {
        var handled := HoldPlant(st, time, d);
        if handled {
          return;
        }
      }
      Adopt(st, time, d);
    }

    /** setState, in the source's order; a push is asked for unless the report is dropped. */
    method SetState(st: Transport, t: int, d: int)
      modifies this
      ensures View() == Report(old(View()), st, t, d)
      ensures pushPending == (old(pushPending) || !(!old(wantPlay) && old(prePlayHold) && IsProgress(st)))
    {
      var previous := state;
      if !wantPlay && prePlayHold && IsProgress(st) {
        return;
      }
      if st.Stopped? && wantPlay {
        state := st;
        if d > 0 { durationMs := d; }
      } else {
        TakeReport(st, t, d);
      }
      RequestTimelinePush(previous != state);
    }

    method BindMedia(req: PlayRequest, d: int) returns (bound: bool)
      modifies this
      ensures View() == Bind(old(View()), req, d)
      ensures bound <==> AcceptsBind(old(View()), req)
    {
      if !wantPlay {
        return false;
      }
      if media.key != "" && req.key != "" && media.key != req.key {
        return false;
      }
      var container := req.containerKey;
      if container == "" && req.queueId != "" {
        container := "/playQueues/" + req.queueId + "?own=1";
      }
      media := Media(req.key, container, req.queueId, req.queueItemId, Version(req.queueVersion), req.ratingKey);
      durationMs := if d > 0 then d else 0;
      if timeMs < 0 { timeMs := 0; }
      if durationMs > 0 && timeMs > durationMs { timeMs := durationMs; }
      if scrubTargetMs >= 0 {
        if durationMs > 0 && scrubTargetMs > durationMs { scrubTargetMs := durationMs; }
        timeMs := scrubTargetMs;
      }
      wantPlay := true;
      prePlayHold := false;
      RequestTimelinePush(true);
      return true;
    }

    method SeedPlaybackPosition(t: int, d: int)
      modifies this
      ensures View() == Seed(old(View()), t, d)
    {
      var time := if t < 0 then 0 else t;
      if d > 0 {
        durationMs := d;
        if time > durationMs { time := durationMs; }
      } else if durationMs > 0 && time > durationMs {
        time := durationMs;
      }
      timeMs := time;
      scrubTargetMs := time;
      if wantPlay && (state.Stopped? || state == Named("")) { state := Buffering; }
      RequestTimelinePush(true);
    }

    /** stagePlay, and the part of playMedia that it shares. */
    method StagePlay(req: PlayRequest)
      modifies this
      ensures View() == Fresh(old(View()), req)
    {
      wantPlay := true;
      prePlayHold := false;
      castBound := true;
      state := Buffering;
      durationMs := 0;
      timeMs := if req.offsetMs < 0 then 0 else req.offsetMs;
      scrubTargetMs := timeMs;
      media := media.(key := req.key, containerKey := req.containerKey, queueId := req.queueId,
                      queueItemId := req.queueItemId, queueVersion := Version(req.queueVersion));
      if media.containerKey == "" && media.queueId != "" {
        media := media.(containerKey := "/playQueues/" + media.queueId + "?own=1");
      }
      if req.ratingKey != "" { media := media.(ratingKey := req.ratingKey); }
      RequestTimelinePush(true);
    }

    method ClearMedia()
      modifies this
      ensures View() == Clear(old(View()))
    {
      media := NO_MEDIA;
      wantPlay := false;
      state := Stopped;
      timeMs := 0;
      durationMs := 0;
      scrubTargetMs := -1;
      if castBound { prePlayHold := true; }
      RequestTimelinePush(true);
    }

    // The HTTP thread's handlers. Every request to /player/ first marks the cast as bound.

    method PollRequest()
      modifies this`castBound, this`prePlayHold
      ensures View() == Serve(old(View()), Poll)
    {
      castBound := true;
      if !wantPlay && !prePlayHold { prePlayHold := true; }
    }

    method UnsubscribeRequest(last: bool)
      modifies this`castBound, this`prePlayHold
      ensures View() == Serve(old(View()), Unsubscribe(last))
    {
      castBound := true;
      if last { castBound := false; }
      if last && !wantPlay { prePlayHold := false; }
    }

    method MirrorRequest(req: PlayRequest)
      modifies this
      ensures View() == Serve(old(View()), MirrorStage(req))
    {
      castBound := true;
      var keepActive := wantPlay && (state.Playing? || state.Buffering? || state.Paused?);
      if !keepActive {
        if req.key != "" { media := media.(key := req.key); }
        if req.ratingKey != "" { media := media.(ratingKey := req.ratingKey); }
        media := media.(queueId := req.queueId, queueItemId := req.queueItemId, containerKey := QueueRef(req.containerKey));
        durationMs := 0;
        prePlayHold := true;
        wantPlay := false;
        state := Stopped;
      }
      RequestTimelinePush(true);
    }

    method PlayMediaRequest(req: PlayRequest)
      modifies this
      ensures View() == Serve(old(View()), PlayMedia(req))
    {
      StagePlay(if req.key == "" then req.(key := "(no-key)") else req);
    }

    method StopRequest()
      modifies this
      ensures View() == Serve(old(View()), StopPlayback)
    {
      castBound := true;
      ClearMedia();
    }

    method PauseOrResumeRequest(st: Transport)
      requires st.Paused? || st.Playing?
      modifies this
      ensures View() == Serve(old(View()), if st.Paused? then PausePlayback else ResumePlayback)
    {
      castBound := true;
      if wantPlay {
        SetState(st, timeMs, durationMs);
      }
    }

    method PlantAt(target: int)
      modifies this`scrubTargetMs, this`timeMs, this`state, this`wantPlay
      ensures View() == Plant(old(View()), target)
    {
      scrubTargetMs := target;
      timeMs := target;
      state := Buffering;
      wantPlay := true;
    }

    method SeekRequest(present: bool, offset: int)
      modifies this
      ensures View() == Serve(old(View()), SeekTo(present, offset))
    {
      castBound := true;
      var ms := if offset < 0 then 0 else offset;
      if durationMs > 0 && ms > durationMs { ms := durationMs; }
      var moved := present && ms != timeMs;
      if wantPlay && moved {
        PlantAt(ms);
      }
    }

    method StepRequest(delta: int)
      modifies this
      ensures View() == Serve(old(View()), StepPlayback(delta))
    {
      castBound := true;
      var target := timeMs + delta;
      if target < 0 { target := 0; }
      if durationMs > 0 && target > durationMs { target := durationMs; }
      if wantPlay && target - timeMs != 0 {
        PlantAt(target);
      }
    }

    /** skipPrevious plants a restart at 0 once the handler has run. */
    method SkipPreviousRequest()
      modifies this
      ensures View() == Serve(old(View()), SkipPrevious)
    {
      castBound := true;
      if wantPlay && timeMs != 0 {
        PlantAt(0);
      }
    }

    /** timelineXml reads the state and leaves it alone. */
    method TimelineXml() returns (w: Wire)
      ensures w == Timeline(View())
    {
      var videoState := state;
      var holdIdle := !wantPlay && (prePlayHold || castBound)
                      && (videoState.Stopped? || videoState == Named("") || videoState.Buffering?);
      if wantPlay && (videoState.Stopped? || videoState == Named("")) {
        videoState := Buffering;
      } else if holdIdle {
        videoState := Buffering;
      }
      var mediaActive := wantPlay && (videoState.Playing? || videoState.Paused? || videoState.Buffering? || media.key != "");
      if mediaActive && videoState.Stopped? { videoState := Buffering; }
      var location := if mediaActive then FullScreenVideo else Navigation;
      var reportMs := if mediaActive then (if timeMs < 0 then 0 else timeMs) else 0;
      var dur := if mediaActive && durationMs > 0 then durationMs else 0;
      w := Wire(videoState, location, reportMs, dur, if mediaActive && media.key != "" then Some(media) else None);
    }
  }
}
