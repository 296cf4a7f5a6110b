/**
 The status and input mailboxes (arm/misterplexd/fpga_spi.cpp, readOsdMailbox and
 readInputMailbox): 64-bit words that the core publishes whole and the daemon
 reads as two 32-bit halves, twice.
 */
module Mailbox {
  import opened Options

  datatype Word = Word(lo: nat, hi: nat)

  const OSD_MAGIC: nat := 0x504C5853
  const INPUT_MAGIC: nat := 0x504C5849

  const ATTEMPTS := 4

  /** `h[i]` is the word that stands in the mailbox at instant `i`; `at` holds the instants of the loads. */
  ghost predicate Loads(h: seq<Word>, at: seq<nat>) {
    |at| == 4 * ATTEMPTS &&
    (forall k :: 0 <= k < |at| ==> at[k] < |h|) &&
    Ascending(at)
  }

  /** Between these instants no two different publications share a high half. */
  ghost predicate FreshHigh(h: seq<Word>, from: nat, to: nat) {
    forall i, j :: 0 <= from <= i < j <= to < |h| && h[i].hi == h[j].hi ==> h[i] == h[j] && Steady(h, i, j)
  }

  ghost predicate Steady(h: seq<Word>, i: nat, j: nat) {
    i <= j < |h| && forall k :: i <= k <= j ==> h[k] == h[i]
  }

  ghost predicate PublishedIn(h: seq<Word>, from: nat, to: nat, w: Word) {
    exists i :: 0 <= from <= i <= to < |h| && h[i] == w
  }

  /** Between these instants the low half is one that the publisher uses. */
  ghost predicate LowIn(h: seq<Word>, a: nat, b: nat, lows: set<nat>) {
    b < |h| && forall k :: a <= k <= b ==> h[k].lo in lows
  }

  ghost predicate LoadsIn(at: seq<nat>, a: nat, b: nat) { forall k :: 0 <= k < |at| ==> a <= at[k] <= b }

  ghost predicate Ascending(at: seq<nat>) { forall j, k :: 0 <= j <= k < |at| ==> at[j] <= at[k] }

  // ------------------------------------------------------------------ the input mailbox

  /** Four torn attempts, a stable word without the magic, or one with it. */
  datatype InputRead = Torn | NoValidWord(w: Word) | Accepted(w: Word)

  /** What the attempts come to: the first pair of equal reads. */
  function InputWord(h: seq<Word>, at: seq<nat>): InputRead
    requires forall k :: 0 <= k < |at| ==> at[k] < |h|
  {
    if |at| < 4 then Torn
    else if h[at[0]].lo != h[at[2]].lo || h[at[1]].hi != h[at[3]].hi then InputWord(h, at[4..])
    else
      var w := Word(h[at[0]].lo, h[at[1]].hi);
      if w.lo != INPUT_MAGIC then NoValidWord(w) else Accepted(w)
  }

  lemma InputAttempt(h: seq<Word>, at: seq<nat>, k: nat)
    requires (forall j :: 0 <= j < |at| ==> at[j] < |h|) && k + 4 <= |at|
    ensures InputWord(h, at[k..])
            == if h[at[k]].lo != h[at[k + 2]].lo || h[at[k + 1]].hi != h[at[k + 3]].hi then InputWord(h, at[k + 4..])
               else if h[at[k]].lo != INPUT_MAGIC then NoValidWord(Word(h[at[k]].lo, h[at[k + 1]].hi))
               else Accepted(Word(h[at[k]].lo, h[at[k + 1]].hi))
  {
    assert at[k..][4..] == at[k + 4..];
  }

  /** The loop of readInputMailbox: low, high, low, high, up to four times. */
  method ReadInput(h: seq<Word>, at: seq<nat>) returns (r: InputRead)
    requires Loads(h, at)
    ensures r == InputWord(h, at)
  {
    assert at[0..] == at;
    for attempt := 0 to ATTEMPTS
      invariant InputWord(h, at[4 * attempt..]) == InputWord(h, at)
    {
      var k := 4 * attempt;
      var lo, hi := h[at[k]].lo, h[at[k + 1]].hi;
      var verifyLo, verifyHi := h[at[k + 2]].lo, h[at[k + 3]].hi;
      InputAttempt(h, at, k);
      if lo != verifyLo || hi != verifyHi { continue; }
      return if lo != INPUT_MAGIC then NoValidWord(Word(lo, hi)) else Accepted(Word(lo, hi));
    }
    return Torn;
  }

  /**
   Every word that comes out of the double read was published while it was being read: because the core puts
   the magic in every low half, or, for any low halves, if no high half comes back meanwhile.
   */
  lemma {:induction false} InputWordWasPublished(h: seq<Word>, at: seq<nat>, a: nat, b: nat)
    requires LoadsIn(at, a, b) && b < |h|
    requires LowIn(h, a, b, {INPUT_MAGIC}) || (Ascending(at) && FreshHigh(h, a, b))
    ensures InputWord(h, at).Torn? || PublishedIn(h, a, b, InputWord(h, at).w)
    decreases |at|
  {
    if |at| >= 4 {
      if h[at[0]].lo != h[at[2]].lo || h[at[1]].hi != h[at[3]].hi {
        InputWordWasPublished(h, at[4..], a, b);
      } else if LowIn(h, a, b, {INPUT_MAGIC}) {
        assert h[at[1]] == Word(h[at[0]].lo, h[at[1]].hi);
      } else {
        StableInputWord(h, a, b, at[0], at[1], at[2], at[3]);
      }
    }
  }

  /** The loads of attempt k agree. */
  ghost predicate Agree(h: seq<Word>, at: seq<nat>, k: nat)
    requires (forall j :: 0 <= j < |at| ==> at[j] < |h|) && 4 * k + 4 <= |at|
  {
    h[at[4 * k]].lo == h[at[4 * k + 2]].lo && h[at[4 * k + 1]].hi == h[at[4 * k + 3]].hi
  }

  /** The reader is left without a word exactly when the loads of no attempt agree. */
  lemma {:induction false} TornIffNoneAgrees(h: seq<Word>, at: seq<nat>, n: nat)
    requires |at| == 4 * n && forall j :: 0 <= j < |at| ==> at[j] < |h|
    ensures InputWord(h, at).Torn? <==> forall k :: 0 <= k < n ==> !Agree(h, at, k)
    decreases n
  {
    if n > 0 {
      var rest := at[4..];
      TornIffNoneAgrees(h, rest, n - 1);
      assert Agree(h, at, 0) <==> !(h[at[0]].lo != h[at[2]].lo || h[at[1]].hi != h[at[3]].hi);
      forall k | 0 <= k < n - 1 ensures Agree(h, rest, k) == Agree(h, at, k + 1) {
        assert rest[4 * k] == at[4 * (k + 1)];
      }
      assert forall k :: 1 <= k < n ==> Agree(h, at, k) == Agree(h, rest, k - 1);
    }
  }

  /** It makes four attempts of four loads. */
  lemma TornIff(h: seq<Word>, at: seq<nat>)
    requires |at| == 16 && (forall k :: 0 <= k < 16 ==> at[k] < |h|) && forall j, k :: 0 <= j <= k < 16 ==> at[j] <= at[k]
    ensures Loads(h, at)
    ensures InputWord(h, at).Torn? <==> forall k :: 0 <= k < 4 ==> !Agree(h, at, k)
  {
    TornIffNoneAgrees(h, at, 4);
  }

  /** The first attempt whose loads agree decides, and it is taken as valid exactly by its magic, "PLXI". */
  lemma {:induction false} InputFirstAgreement(h: seq<Word>, at: seq<nat>, k: nat)
    requires (forall j :: 0 <= j < |at| ==> at[j] < |h|) && 4 * k + 4 <= |at| && Agree(h, at, k)
    requires forall j :: 0 <= j < k ==> !Agree(h, at, j)
    ensures var w := Word(h[at[4 * k]].lo, h[at[4 * k + 1]].hi);
            InputWord(h, at) == if w.lo == 0x504C5849 then Accepted(w) else NoValidWord(w)
    decreases |at|
  {
    if k > 0 {
      var rest := at[4..];
      assert !Agree(h, at, 0);
      assert forall j :: 0 <= j < k ==> Agree(h, rest, j) == Agree(h, at, j + 1) by {
        forall j | 0 <= j < k ensures Agree(h, rest, j) == Agree(h, at, j + 1) {
          assert rest[4 * j] == at[4 * (j + 1)];
        }
      }
      InputFirstAgreement(h, rest, k - 1);
    }
  }

  /** Two equal reads of low-high-low-high saw one publication. */
  lemma StableInputWord(h: seq<Word>, a: nat, b: nat, i1: nat, i2: nat, i3: nat, i4: nat)
    requires a <= i1 <= i2 <= i3 <= i4 <= b < |h| && FreshHigh(h, a, b)
    requires h[i1].lo == h[i3].lo && h[i2].hi == h[i4].hi
    ensures PublishedIn(h, a, b, Word(h[i1].lo, h[i2].hi))
  {
  }

  /** The reader accepts only published words, whatever words with a low half in `lows` are published. */
  ghost predicate InputSound(lows: set<nat>) {
    forall h: seq<Word>, at: seq<nat>, a: nat, b: nat ::
      (LowIn(h, a, b, lows) && Ascending(at) && LoadsIn(at, a, b) && InputWord(h, at).Accepted?) ==>
      PublishedIn(h, a, b, InputWord(h, at).w)
  }

  /** Which publishers the reader is sound for, high halves being free: the magic alone, or never the magic. */
  lemma InputSoundIff(lows: set<nat>)
    ensures InputSound(lows) <==> INPUT_MAGIC !in lows || lows == {INPUT_MAGIC}
  {
    if INPUT_MAGIC !in lows || lows == {INPUT_MAGIC} {
      forall h: seq<Word>, at: seq<nat>, a: nat, b: nat
        | LowIn(h, a, b, lows) && LoadsIn(at, a, b) && InputWord(h, at).Accepted?
        ensures PublishedIn(h, a, b, InputWord(h, at).w)
      {
        if INPUT_MAGIC in lows {
          InputWordWasPublished(h, at, a, b);
        } else {
          AcceptedHasMagic(h, at, a, b, lows);
        }
      }
    } else {
      var x :| x in lows && x != INPUT_MAGIC;
      RepeatedHighIsTorn(lows, x);
    }
  }

  lemma {:induction false} AcceptedHasMagic(h: seq<Word>, at: seq<nat>, a: nat, b: nat, lows: set<nat>)
    requires LowIn(h, a, b, lows) && LoadsIn(at, a, b) && InputWord(h, at).Accepted?
    ensures INPUT_MAGIC in lows
    decreases |at|
  {
    if h[at[0]].lo != h[at[2]].lo || h[at[1]].hi != h[at[3]].hi {
      AcceptedHasMagic(h, at[4..], a, b, lows);
    } else {
      assert h[at[0]].lo in lows;
    }
  }

  /** With other low halves beside the magic and a high half that comes back, an unpublished word is accepted. */
  lemma RepeatedHighIsTorn(lows: set<nat>, x: nat)
    requires INPUT_MAGIC in lows && x in lows && x != INPUT_MAGIC
    ensures !InputSound(lows)
  {
    var h, at := [Word(INPUT_MAGIC, 2), Word(x, 1), Word(INPUT_MAGIC, 2), Word(x, 1)], [0, 1, 2, 3];
    assert LowIn(h, 0, 3, lows) && Ascending(at) && LoadsIn(at, 0, 3);
    assert InputWord(h, at) == Accepted(Word(INPUT_MAGIC, 1)) && !PublishedIn(h, 0, 3, Word(INPUT_MAGIC, 1));
  }

  // ------------------------------------------------------------------ the status mailbox

  /** What the four attempts come to: the first stable word with the magic, unless one without it came first. */
  function OsdWord(h: seq<Word>, at: seq<nat>): Option<nat>
    requires forall k :: 0 <= k < |at| ==> at[k] < |h|
  {
    if |at| < 4 || h[at[0]].lo != OSD_MAGIC then None
    else if h[at[2]].hi != h[at[1]].hi || h[at[3]].lo != h[at[0]].lo then OsdWord(h, at[4..])
    else Some(h[at[1]].hi)
  }

  lemma OsdAttempt(h: seq<Word>, at: seq<nat>, k: nat)
    requires (forall j :: 0 <= j < |at| ==> at[j] < |h|) && k + 4 <= |at|
    ensures OsdWord(h, at[k..])
            == if h[at[k]].lo != OSD_MAGIC then None
               else if h[at[k + 2]].hi != h[at[k + 1]].hi || h[at[k + 3]].lo != h[at[k]].lo then OsdWord(h, at[k + 4..])
               else Some(h[at[k + 1]].hi)
  {
    assert at[k..][4..] == at[k + 4..];
  }

  /** The high half is read twice alike between two like reads of the low half. */
  ghost predicate Stable(h: seq<Word>, at: seq<nat>, k: nat)
    requires (forall j :: 0 <= j < |at| ==> at[j] < |h|) && 4 * k + 4 <= |at|
  {
    h[at[4 * k]].lo == h[at[4 * k + 3]].lo && h[at[4 * k + 1]].hi == h[at[4 * k + 2]].hi
  }

  /** The attempts decided in turn: the first that is stable, or does not show the magic, ends the search. */
  lemma {:induction false} OsdFirstStable(h: seq<Word>, at: seq<nat>, k: nat)
    requires (forall j :: 0 <= j < |at| ==> at[j] < |h|) && 4 * k <= |at|
    requires forall j :: 0 <= j < k ==> !Stable(h, at, j) && h[at[4 * j]].lo == 0x504C5853
    ensures |at| < 4 * k + 4 ==> OsdWord(h, at) == None
    ensures |at| >= 4 * k + 4 && h[at[4 * k]].lo != 0x504C5853 ==> OsdWord(h, at) == None
    ensures |at| >= 4 * k + 4 && h[at[4 * k]].lo == 0x504C5853 && Stable(h, at, k) ==>
              OsdWord(h, at) == Some(h[at[4 * k + 1]].hi)
    decreases k
  {
    if k > 0 {
      var rest := at[4..];
      assert !Stable(h, at, 0);
      forall j | 0 <= j < k - 1 ensures !Stable(h, rest, j) && h[rest[4 * j]].lo == 0x504C5853 {
        assert !Stable(h, at, j + 1) && rest[4 * j] == at[4 * (j + 1)];
      }
      OsdFirstStable(h, rest, k - 1);
    }
  }

  /** A status word that stands still, with the magic "PLXS", is taken. */
  lemma SteadyOsdWordIsTaken(h: seq<Word>, at: seq<nat>, a: nat, b: nat)
    requires |at| >= 4 && LoadsIn(at, a, b) && a <= b < |h| && forall k :: a <= k <= b ==> h[k] == h[a]
    ensures OsdWord(h, at) == if h[a].lo == 0x504C5853 then Some(h[a].hi) else None
  {
  }

  /** The core publishes no other low half than the magic, so every word that the reader takes was published
      while it was being read, with no condition on the high halves. */
  lemma {:induction false} OsdWordWasPublished(h: seq<Word>, at: seq<nat>, a: nat, b: nat)
    requires LoadsIn(at, a, b) && LowIn(h, a, b, {OSD_MAGIC})
    ensures OsdWord(h, at).Some? ==> PublishedIn(h, a, b, Word(OSD_MAGIC, OsdWord(h, at).value))
    decreases |at|
  {
    if |at| >= 4 {
      if h[at[2]].hi == h[at[1]].hi {
        assert h[at[1]] == Word(OSD_MAGIC, h[at[1]].hi);
      } else {
        OsdWordWasPublished(h, at[4..], a, b);
      }
    }
  }

  /** The reader takes only published words, whatever fresh words from `lows` are published and whenever it loads. */
  ghost predicate OsdSound(lows: set<nat>) {
    forall h: seq<Word>, at: seq<nat>, a: nat, b: nat ::
      (LowIn(h, a, b, lows) && FreshHigh(h, a, b) && Ascending(at) && LoadsIn(at, a, b) && OsdWord(h, at).Some?) ==>
      PublishedIn(h, a, b, Word(OSD_MAGIC, OsdWord(h, at).value))
  }

  /**
   Which publishers the reader is sound for. Its second pair is read high half first, so fresh high halves
   are not enough: a publisher may use the magic, or other low halves, but not both.
   */
  lemma OsdSoundIff(lows: set<nat>)
    ensures OsdSound(lows) <==> OSD_MAGIC !in lows || lows == {OSD_MAGIC}
  {
    if OSD_MAGIC !in lows || lows == {OSD_MAGIC} {
      forall h: seq<Word>, at: seq<nat>, a: nat, b: nat
        | LowIn(h, a, b, lows) && LoadsIn(at, a, b) && OsdWord(h, at).Some?
        ensures PublishedIn(h, a, b, Word(OSD_MAGIC, OsdWord(h, at).value))
      {
        if OSD_MAGIC in lows {
          OsdWordWasPublished(h, at, a, b);
        }
      }
    } else {
      var x :| x in lows && x != OSD_MAGIC;
      OsdTorn(lows, x);
    }
  }

  lemma OsdTorn(lows: set<nat>, x: nat)
    requires OSD_MAGIC in lows && x in lows && x != OSD_MAGIC
    ensures !OsdSound(lows)
  {
    var h, at := [Word(OSD_MAGIC, 1), Word(x, 2), Word(OSD_MAGIC, 3)], [0, 1, 1, 2];
    assert LowIn(h, 0, 2, lows) && FreshHigh(h, 0, 2) && Ascending(at);
    assert OsdWord(h, at) == Some(2) && !PublishedIn(h, 0, 2, Word(OSD_MAGIC, 2));
  }

  // ------------------------------------------------------------------ is anything publishing?

  const TIMEOUT_MS := 2000.0

  datatype Sample = Sample(seqNo: nat, osd: nat, now: real)

  /** mboxInit_, mboxSeq_, mboxSeqMs_, mboxAlive_ */
  datatype Watch = Watch(init: bool, seqNo: nat, seqMs: real, alive: bool)

  const UNMAPPED := Watch(false, 0, 0.0, false)

  function Observe(w: Watch, s: Sample): Watch {
    if !w.init then Watch(true, s.seqNo, s.now, w.alive)
    else if s.seqNo != w.seqNo then Watch(true, s.seqNo, s.now, true)
    else if s.now - w.seqMs > TIMEOUT_MS then w.(alive := false)
    else w
  }

  /** Whether the sample is handed to the caller. */
  predicate Shown(w: Watch, s: Sample) { w.init && Observe(w, s).alive }

  class OsdMailbox {
    var mboxInit: bool
    var mboxSeq: nat
    var mboxSeqMs: real
    var mboxAlive: bool

    ghost function State(): Watch
      reads this
    {
      Watch(mboxInit, mboxSeq, mboxSeqMs, mboxAlive)
    }

    constructor ()
      ensures State() == UNMAPPED
    {
      mboxInit, mboxSeq, mboxSeqMs, mboxAlive := false, 0, 0.0, false;
    }

    /** releaseDdrMap's part: what is observed next is judged as at a first mapping. */
    method Release()
      modifies this
      ensures forall s :: Observe(State(), s) == Observe(UNMAPPED, s) && !Shown(State(), s)
    {
      mboxInit, mboxAlive := false, false;
    }

    /** The liveness half of readOsdMailbox, on a stable high half. */
    method Accept(hi: nat, now: real) returns (osd: Option<nat>)
      modifies this
      ensures var s := Sample(hi / 0x10000, hi % 0x10000, now);
              State() == Observe(old(State()), s) &&
              osd == if Shown(old(State()), s) then Some(s.osd) else None
    {
      var seqNo := hi / 0x10000;
      osd := None;
      if !mboxInit {
        mboxInit, mboxSeq, mboxSeqMs := true, seqNo, now;
        return;
      }
      if seqNo != mboxSeq {
        mboxSeq, mboxSeqMs, mboxAlive := seqNo, now, true;
      } else if now - mboxSeqMs > TIMEOUT_MS {
        mboxAlive := false;
      }
      if mboxAlive {
        osd := Some(hi % 0x10000);
      }
    }

    /** readOsdMailbox, on the loads it makes and the clock it reads. */
    method ReadOsdMailbox(h: seq<Word>, at: seq<nat>, now: real) returns (osd: Option<nat>)
      requires Loads(h, at)
      modifies this
      ensures match OsdWord(h, at)
              case None => State() == old(State()) && osd == None
              case Some(hi) =>
                var s := Sample(hi / 0x10000, hi % 0x10000, now);
                State() == Observe(old(State()), s) && osd == if Shown(old(State()), s) then Some(s.osd) else None
    {
      osd := None;
      assert at[0..] == at;
      for attempt := 0 to ATTEMPTS
        invariant State() == old(State()) && OsdWord(h, at[4 * attempt..]) == OsdWord(h, at)
      {
        var k := 4 * attempt;
        var lo, hi := h[at[k]].lo, h[at[k + 1]].hi;
        OsdAttempt(h, at, k);
        if lo != OSD_MAGIC { return; }
        if h[at[k + 2]].hi != hi || h[at[k + 3]].lo != lo { continue; }
        osd := Accept(hi, now);
        return;
      }
    }
  }

  // ------------------------------------------------------------------ over a whole mapping

  function Watched(ss: seq<Sample>): Watch {
    if ss == [] then UNMAPPED else Observe(Watched(ss[..|ss| - 1]), ss[|ss| - 1])
  }

  ghost predicate ClockRuns(ss: seq<Sample>) {
    forall i, j :: 0 <= i <= j < |ss| ==> ss[i].now <= ss[j].now
  }

  predicate Changed(ss: seq<Sample>, m: nat) {
    1 <= m < |ss| && ss[m].seqNo != ss[m - 1].seqNo
  }

  /** The last sample at which the sequence number moved; 0 when it never did. */
  function LastChange(ss: seq<Sample>): (m: nat)
    requires ss != []
    ensures m < |ss| && (m > 0 ==> Changed(ss, m))
    ensures forall k :: m < k < |ss| ==> !Changed(ss, k)
  {
    if |ss| == 1 then 0
    else if Changed(ss, |ss| - 1) then |ss| - 1
    else
      var m := LastChange(ss[..|ss| - 1]);
      assert forall k :: 0 < k < |ss| - 1 ==> (Changed(ss, k) <==> Changed(ss[..|ss| - 1], k));
      m
  }

  lemma {:induction false} WatchedIs(ss: seq<Sample>)
    requires ss != [] && ClockRuns(ss)
    ensures var last, m := ss[|ss| - 1], LastChange(ss);
            Watched(ss) == Watch(true, last.seqNo, ss[m].now, m > 0 && last.now - ss[m].now <= TIMEOUT_MS)
    decreases |ss|
  {
    var fore := ss[..|ss| - 1];
    if fore == [] {
      assert Watched(fore) == UNMAPPED;
    } else {
      assert ClockRuns(fore);
      WatchedIs(fore);
      assert fore[|fore| - 1] == ss[|ss| - 2];
    }
  }

  /**
   The status is handed out exactly when, since the mapping, the sequence number was
   seen to move, and that at most two seconds ago.
   */
  lemma ShownIffRecentChange(ss: seq<Sample>)
    requires ss != [] && forall i, j :: 0 <= i <= j < |ss| ==> ss[i].now <= ss[j].now
    ensures var last := ss[|ss| - 1];
            Shown(Watched(ss[..|ss| - 1]), last) <==>
            exists m: nat :: Changed(ss, m) && last.now - ss[m].now <= 2000.0
  {
    WatchedIs(ss);
    var last, c := ss[|ss| - 1], LastChange(ss);
    var fore := ss[..|ss| - 1];
    if fore != [] {
      assert ClockRuns(fore);
      WatchedIs(fore);
    }
    if m: nat :| Changed(ss, m) && last.now - ss[m].now <= TIMEOUT_MS {
      assert m <= c;
      assert ss[m].now <= ss[c].now;
    }
  }
}
