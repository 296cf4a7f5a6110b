/**
 Annex B byte streams: the two splitters (tools/analyze_h264_intra_mbs.cpp and
 tools/extract_h264_golden.cpp) and the join that they undo.
 */
module AnnexB {

  type Byte = x: int | 0 <= x < 256

  datatype Nal = Nal(start: nat, end: nat, typ: Byte)

  datatype NalUnit = NalUnit(start: nat, startCodeBytes: nat, headerOffset: nat, payloadOffset: nat,
                             end: nat, header: Byte, typ: Byte)

  /** Both tools' startCodeLen: 4, 3, or 0 for none. */
  function StartCodeLen(b: seq<Byte>, p: nat): (n: nat)
    ensures n == 0 || (3 <= n <= 4 && p + n <= |b|)
  {
    if p + 4 <= |b| && b[p] == 0 && b[p + 1] == 0 && b[p + 2] == 0 && b[p + 3] == 1 then 4
    else if p + 3 <= |b| && b[p] == 0 && b[p + 1] == 0 && b[p + 2] == 1 then 3
    else 0
  }

  /** The start codes from `i` on, left to right, none inside another. */
  function Starts(b: seq<Byte>, i: nat): seq<nat>
    decreases |b| - i
  {
    if i + 3 >= |b| then []
    else if StartCodeLen(b, i) > 0 then [i] + Starts(b, i + StartCodeLen(b, i))
    else Starts(b, i + 1)
  }

  function AnalyzerUnits(b: seq<Byte>, starts: seq<nat>): seq<Nal> {
    if starts == [] then []
    else NalPiece(b, starts[0], if |starts| > 1 then starts[1] else |b|) + AnalyzerUnits(b, starts[1..])
  }

  /** The analyzer's unit for one start code: none if no byte follows the code. */
  function NalPiece(b: seq<Byte>, i: nat, end: nat): seq<Nal> {
    var hdr := i + StartCodeLen(b, i);
    if hdr >= |b| then [] else [Nal(i, end, b[hdr] % 32)]
  }

  /** What the analyzer returns from `i` on. */
  function AnalyzedFrom(b: seq<Byte>, i: nat): seq<Nal> { AnalyzerUnits(b, Starts(b, i)) }

  /** The next start code at or after `j`, or the end of the data. */
  function NextStart(b: seq<Byte>, j: nat): (n: nat)
    requires j <= |b|
    ensures j <= n <= |b|
    ensures n == |b| || (n + 3 < |b| && StartCodeLen(b, n) > 0)
    decreases |b| - j
  {
    if j + 3 >= |b| then |b|
    else if StartCodeLen(b, j) > 0 then j
    else NextStart(b, j + 1)
  }

  function UnitAt(b: seq<Byte>, i: nat, j: nat): NalUnit
    requires i + StartCodeLen(b, i) < j <= |b|
  {
    var hdr := i + StartCodeLen(b, i);
    NalUnit(i, StartCodeLen(b, i), hdr, hdr + 1, j, b[hdr], b[hdr] % 32)
  }

  /** What the golden extractor returns from `i` on. */
  function GoldenFrom(b: seq<Byte>, i: nat): seq<NalUnit>
    decreases |b| - i
  {
    if i + 3 >= |b| then []
    else if StartCodeLen(b, i) == 0 then GoldenFrom(b, i + 1)
    else
      var j := NextStart(b, i + StartCodeLen(b, i));
      UnitPiece(b, i, j) + GoldenFrom(b, j)
  }

  /** The extractor's unit for one start code: none if it is empty. */
  function UnitPiece(b: seq<Byte>, i: nat, j: nat): seq<NalUnit>
    requires j <= |b|
  {
    if i + StartCodeLen(b, i) < j then [UnitAt(b, i, j)] else []
  }

  // ------------------------------------------------------------------ the code

  /** splitAnnexB of the analyzer. */
  method AnalyzerSplit(b: seq<Byte>) returns (out: seq<Nal>)
    ensures out == AnalyzedFrom(b, 0)
  {
    var starts: seq<nat> := [];
    var i: nat := 0;
    while i + 3 < |b|
      invariant starts + Starts(b, i) == Starts(b, 0)
      decreases |b| - i
    {
      var sc := StartCodeLen(b, i);
      if sc > 0 {
        ghost var rest := Starts(b, i + sc);
        assert starts + ([i] + rest) == (starts + [i]) + rest;
        starts := starts + [i];
        i := i + sc;
      } else {
        i := i + 1;
      }
    }
    assert starts == Starts(b, 0);
    out := UnitsOf(b, starts);
  }

  lemma UnitsUnfold(b: seq<Byte>, starts: seq<nat>, i: nat)
    requires i < |starts|
    ensures AnalyzerUnits(b, starts[i..])
            == NalPiece(b, starts[i], if i + 1 < |starts| then starts[i + 1] else |b|) + AnalyzerUnits(b, starts[i + 1..])
  {
    assert starts[i..][1..] == starts[i + 1..];
  }

  /** What is out, and what is still to come, make the whole. */
  ghost predicate Completes<T>(out: seq<T>, rest: seq<T>, goal: seq<T>) { out + rest == goal }

  lemma CompletesWith<T>(out: seq<T>, piece: seq<T>, rest: seq<T>, goal: seq<T>)
    requires Completes(out, piece + rest, goal)
    ensures Completes(out + piece, rest, goal)
  {
    assert out + (piece + rest) == (out + piece) + rest;
  }

  /** The analyzer's second loop. */
  method UnitsOf(b: seq<Byte>, starts: seq<nat>) returns (out: seq<Nal>)
    ensures out == AnalyzerUnits(b, starts)
  {
    out := [];
    ghost var goal := AnalyzerUnits(b, starts);
    assert starts[0..] == starts;
    for i := 0 to |starts|
      invariant Completes(out, AnalyzerUnits(b, starts[i..]), goal)
    {
      var end := if i + 1 < |starts| then starts[i + 1] else |b|;
      UnitsUnfold(b, starts, i);
      CompletesWith(out, NalPiece(b, starts[i], end), AnalyzerUnits(b, starts[i + 1..]), goal);
      var hdr := starts[i] + StartCodeLen(b, starts[i]);
      if hdr >= |b| {
        assert out + [] == out;
        continue;
      }
      out := out + [Nal(starts[i], end, b[hdr] % 32)];
    }
  }

  lemma GoldenUnfolds(b: seq<Byte>, i: nat)
    ensures i + 3 >= |b| ==> GoldenFrom(b, i) == []
    ensures i + 3 < |b| && StartCodeLen(b, i) == 0 ==> GoldenFrom(b, i) == GoldenFrom(b, i + 1)
    ensures i + 3 < |b| && StartCodeLen(b, i) > 0 ==>
              var j := NextStart(b, i + StartCodeLen(b, i)); GoldenFrom(b, i) == UnitPiece(b, i, j) + GoldenFrom(b, j)
  {
  }

  /** splitAnnexB of the golden extractor. */
  method GoldenSplit(b: seq<Byte>) returns (out: seq<NalUnit>)
    ensures out == GoldenFrom(b, 0)
  {
    out := [];
    var i: nat := 0;
    ghost var goal := GoldenFrom(b, 0);
    ghost var rest := goal;
    while i + 3 < |b|
      invariant rest == GoldenFrom(b, i) && Completes(out, rest, goal)
      decreases |b| - i
    {
      GoldenUnfolds(b, i);
      var sc := StartCodeLen(b, i);
      if sc == 0 {
        i := i + 1;
        continue;
      }
      var j := SkipPayload(b, i + sc);
      var piece := UnitIfAny(b, i, sc, j);
      rest := GoldenFrom(b, j);
      CompletesWith(out, piece, rest, goal);
      out := out + piece;
      i := j;
    }
    GoldenUnfolds(b, i);
  }

  /** The extractor's test for an empty unit. */
  method UnitIfAny(b: seq<Byte>, i: nat, sc: nat, j: nat) returns (piece: seq<NalUnit>)
    requires sc == StartCodeLen(b, i) && j <= |b|
    ensures piece == UnitPiece(b, i, j)
  {
    piece := [];
    if i + sc < j {
      piece := [NalUnit(i, sc, i + sc, i + sc + 1, j, b[i + sc], b[i + sc] % 32)];
    }
  }

  /** The extractor's inner loop. */
  method SkipPayload(b: seq<Byte>, from: nat) returns (j: nat)
    requires from <= |b|
    ensures j == NextStart(b, from)
  {
    j := from;
    while j + 3 < |b| && StartCodeLen(b, j) == 0
      invariant from <= j <= |b| && NextStart(b, j) == NextStart(b, from)
      decreases |b| - j
    {
      j := j + 1;
    }
    if j + 3 >= |b| {
      j := |b|;
    }
  }

  // ------------------------------------------------------------------ which start codes are found

  /** A start code that is not the tail of a longer one, with a byte behind three. */
  predicate IsStart(b: seq<Byte>, p: nat) {
    p + 3 < |b| && StartCodeLen(b, p) > 0 && !(p > 0 && StartCodeLen(b, p - 1) == 4)
  }

  lemma InsideACode(b: seq<Byte>, i: nat, p: nat)
    requires StartCodeLen(b, i) > 0 && i < p < i + StartCodeLen(b, i)
    ensures !IsStart(b, p) && StartCodeLen(b, i + StartCodeLen(b, i) - 1) == 0
  {
  }

  /** What the scan finds from `i` on is increasing and stands at start codes. */
  predicate FoundFrom(b: seq<Byte>, i: nat, st: seq<nat>) {
    (forall k :: 0 <= k < |st| ==> st[k] >= i && IsStart(b, st[k])) &&
    (forall j, k :: 0 <= j < k < |st| ==> st[j] < st[k])
  }

  lemma FoundCons(b: seq<Byte>, i: nat, h: nat, st: seq<nat>)
    requires IsStart(b, i) && i < h && FoundFrom(b, h, st)
    ensures FoundFrom(b, i, [i] + st)
  {
  }

  lemma {:induction false} StartsAreSound(b: seq<Byte>, i: nat)
    requires i > 0 ==> StartCodeLen(b, i - 1) != 4
    ensures FoundFrom(b, i, Starts(b, i))
    decreases |b| - i
  {
    if i + 3 < |b| {
      var sc := StartCodeLen(b, i);
      if sc > 0 {
        InsideACode(b, i, i + 1);
        StartsAreSound(b, i + sc);
        FoundCons(b, i, i + sc, Starts(b, i + sc));
      } else {
        StartsAreSound(b, i + 1);
      }
    }
  }

  lemma {:induction false} StartsAreComplete(b: seq<Byte>, i: nat, p: nat)
    requires p >= i && IsStart(b, p)
    ensures p in Starts(b, i)
    decreases |b| - i
  {
    var sc := StartCodeLen(b, i);
    if sc > 0 && i < p < i + sc {
      InsideACode(b, i, p);
    } else if sc > 0 && p > i {
      StartsAreComplete(b, i + sc, p);
    } else if p > i {
      StartsAreComplete(b, i + 1, p);
    }
  }

  /** The scan finds exactly the start codes that are not the tail of a longer one, in increasing order. */
  lemma StartsAreExact(b: seq<Byte>)
    ensures forall p: nat :: p in Starts(b, 0) <==> IsStart(b, p)
    ensures forall j, k :: 0 <= j < k < |Starts(b, 0)| ==> Starts(b, 0)[j] < Starts(b, 0)[k]
  {
    StartsAreSound(b, 0);
    forall p: nat | IsStart(b, p) ensures p in Starts(b, 0) {
      StartsAreComplete(b, 0, p);
    }
  }

  // ------------------------------------------------------------------ the two splitters agree

  lemma {:induction false} StartsFromNext(b: seq<Byte>, j: nat)
    requires j <= |b|
    ensures Starts(b, j) == Starts(b, NextStart(b, j))
    ensures GoldenFrom(b, j) == GoldenFrom(b, NextStart(b, j))
    ensures Starts(b, j) == [] <==> NextStart(b, j) == |b|
    ensures Starts(b, j) != [] ==> Starts(b, j)[0] == NextStart(b, j)
    decreases |b| - j
  {
    if j + 3 < |b| && StartCodeLen(b, j) == 0 {
      StartsFromNext(b, j + 1);
    }
  }

  lemma FirstGolden(b: seq<Byte>, i: nat, hdr: nat, j: nat)
    requires i + 3 < |b| && StartCodeLen(b, i) > 0 && hdr == i + StartCodeLen(b, i) && j == NextStart(b, hdr)
    ensures GoldenFrom(b, i) == UnitPiece(b, i, j) + GoldenFrom(b, j)
  {
  }

  lemma FirstAnalyzed(b: seq<Byte>, i: nat, hdr: nat, j: nat)
    requires i + 3 < |b| && StartCodeLen(b, i) > 0 && hdr == i + StartCodeLen(b, i) && j == NextStart(b, hdr)
    ensures AnalyzedFrom(b, i) == NalPiece(b, i, j) + AnalyzedFrom(b, j)
  {
    StartsFromNext(b, hdr);
    FirstOf(b, i, Starts(b, hdr), j);
  }

  lemma FirstOf(b: seq<Byte>, i: nat, st: seq<nat>, j: nat)
    requires j == if st == [] then |b| else st[0]
    ensures AnalyzerUnits(b, [i] + st) == NalPiece(b, i, j) + AnalyzerUnits(b, st)
  {
    assert ([i] + st)[1..] == st;
  }

  predicate NonEmpty(b: seq<Byte>, n: Nal) { n.start + StartCodeLen(b, n.start) < n.end }

  function Filled(b: seq<Byte>, ns: seq<Nal>): seq<Nal> {
    if ns == [] then [] else (if NonEmpty(b, ns[0]) then [ns[0]] else []) + Filled(b, ns[1..])
  }

  function AsNal(u: NalUnit): Nal { Nal(u.start, u.end, u.typ) }

  function AsNals(us: seq<NalUnit>): seq<Nal> {
    if us == [] then [] else [AsNal(us[0])] + AsNals(us[1..])
  }

  lemma FilledCons(b: seq<Byte>, ns: seq<Nal>, n: Nal)
    ensures Filled(b, [n] + ns) == (if NonEmpty(b, n) then [n] else []) + Filled(b, ns)
  {
  }

  lemma AsNalsCons(u: NalUnit, us: seq<NalUnit>)
    ensures AsNals([u] + us) == [AsNal(u)] + AsNals(us)
  {
  }

  lemma {:induction false} AgreeFrom(b: seq<Byte>, i: nat, us: seq<NalUnit>, ns: seq<Nal>)
    requires i <= |b| && us == GoldenFrom(b, i) && ns == AnalyzedFrom(b, i)
    ensures AsNals(us) == Filled(b, ns)
    decreases |b| - i, 1
  {
    if i + 3 >= |b| {
      NothingLeft(b, i);
    } else if StartCodeLen(b, i) == 0 {
      NothingHere(b, i);
      AgreeFrom(b, i + 1, us, ns);
    } else {
      AgreeAtCode(b, i, us, ns);
    }
  }

  lemma NothingLeft(b: seq<Byte>, i: nat)
    requires i + 3 >= |b|
    ensures GoldenFrom(b, i) == [] && AnalyzedFrom(b, i) == []
  {
  }

  lemma NothingHere(b: seq<Byte>, i: nat)
    requires i + 3 < |b| && StartCodeLen(b, i) == 0
    ensures GoldenFrom(b, i) == GoldenFrom(b, i + 1) && AnalyzedFrom(b, i) == AnalyzedFrom(b, i + 1)
  {
  }

  lemma {:induction false} AgreeAtCode(b: seq<Byte>, i: nat, us: seq<NalUnit>, ns: seq<Nal>)
    requires i + 3 < |b| && StartCodeLen(b, i) > 0 && us == GoldenFrom(b, i) && ns == AnalyzedFrom(b, i)
    ensures AsNals(us) == Filled(b, ns)
    decreases |b| - i, 0
  {
    var hdr := i + StartCodeLen(b, i);
    var j := NextStart(b, hdr);
    FirstGolden(b, i, hdr, j);
    FirstAnalyzed(b, i, hdr, j);
    AgreeFrom(b, j, GoldenFrom(b, j), AnalyzedFrom(b, j));
    AgreePiece(b, i, hdr, j, us, ns, GoldenFrom(b, j), AnalyzedFrom(b, j));
  }

  lemma AgreePiece(b: seq<Byte>, i: nat, hdr: nat, j: nat, us: seq<NalUnit>, ns: seq<Nal>, us': seq<NalUnit>, ns': seq<Nal>)
    requires hdr == i + StartCodeLen(b, i) <= j <= |b|
    requires us == UnitPiece(b, i, j) + us' && ns == NalPiece(b, i, j) + ns' && AsNals(us') == Filled(b, ns')
    ensures AsNals(us) == Filled(b, ns)
  {
    if hdr >= |b| {
      assert us == us' && ns == ns';
    } else if hdr == j {
      assert us == us';
      FilledSkips(b, Nal(i, j, b[hdr] % 32), ns', ns);
    } else {
      FilledTakes(b, UnitAt(b, i, j), Nal(i, j, b[hdr] % 32), us', ns', us, ns);
    }
  }

  lemma FilledSkips(b: seq<Byte>, n: Nal, ns': seq<Nal>, ns: seq<Nal>)
    requires !NonEmpty(b, n) && ns == [n] + ns'
    ensures Filled(b, ns) == Filled(b, ns')
  {
    FilledCons(b, ns', n);
  }

  lemma FilledTakes(b: seq<Byte>, u: NalUnit, n: Nal, us': seq<NalUnit>, ns': seq<Nal>, us: seq<NalUnit>, ns: seq<Nal>)
    requires NonEmpty(b, n) && n == AsNal(u) && us == [u] + us' && ns == [n] + ns' && AsNals(us') == Filled(b, ns')
    ensures AsNals(us) == Filled(b, ns)
  {
    FilledCons(b, ns', n);
    AsNalsCons(u, us');
  }

  /** On arbitrary bytes the extractor returns the analyzer's units without the empty ones. */
  lemma SplittersAgree(b: seq<Byte>)
    ensures AsNals(GoldenFrom(b, 0)) == Filled(b, AnalyzedFrom(b, 0))
  {
    AgreeFrom(b, 0, GoldenFrom(b, 0), AnalyzedFrom(b, 0));
  }

  // ------------------------------------------------------------------ splitting undoes joining

  /** One unit to be written: which start code, and the bytes after it. */
  datatype Coded = Coded(long: bool, bytes: seq<Byte>)

  function CodeOf(u: Coded): (c: seq<Byte>)
    ensures |c| == if u.long then 4 else 3
  {
    if u.long then [0, 0, 0, 1] else [0, 0, 1]
  }

  /** Not empty, no start code inside, and not ending in zero: section 7.4.1 of ITU-T H.264. */
  predicate ValidBytes(x: seq<Byte>) {
    x != [] && x[|x| - 1] != 0 &&
    forall k :: 0 <= k && k + 2 < |x| ==> !(x[k] == 0 && x[k + 1] == 0 && x[k + 2] == 1)
  }

  predicate ValidUnits(us: seq<Coded>) { forall k :: 0 <= k < |us| ==> ValidBytes(us[k].bytes) }

  /** Non-empty units without a zero byte are valid, among others. */
  lemma NonZeroIsValid(us: seq<Coded>)
    requires forall k :: 0 <= k < |us| ==> us[k].bytes != [] && 0 !in us[k].bytes
    ensures ValidUnits(us)
  {
  }

  function Join(us: seq<Coded>): seq<Byte> {
    if us == [] then [] else CodeOf(us[0]) + us[0].bytes + Join(us[1..])
  }

  function Length(u: Coded): nat { |CodeOf(u)| + |u.bytes| }

  /** The units where the join puts them, from offset `at` on. */
  function Placed(us: seq<Coded>, at: nat): seq<NalUnit>
    requires ValidUnits(us)
  {
    if us == [] then []
    else
      var u := us[0];
      [PlacedAt(u, at)] + Placed(us[1..], at + Length(u))
  }

  function PlacedAt(u: Coded, at: nat): NalUnit
    requires u.bytes != []
  {
    var hdr := at + |CodeOf(u)|;
    NalUnit(at, |CodeOf(u)|, hdr, hdr + 1, at + Length(u), u.bytes[0], u.bytes[0] % 32)
  }

  /** `b` holds `code + x` at `i`, and then the end or another start code. */
  ghost predicate UnitInStream(b: seq<Byte>, i: nat, u: Coded) {
    i + Length(u) <= |b| &&
    (forall k :: 0 <= k < |CodeOf(u)| ==> b[i + k] == CodeOf(u)[k]) &&
    (forall k :: 0 <= k < |u.bytes| ==> b[i + |CodeOf(u)| + k] == u.bytes[k])
  }

  lemma HeadInStream(b: seq<Byte>, i: nat, us: seq<Coded>)
    requires us != [] && i <= |b| && b[i..] == Join(us)
    ensures UnitInStream(b, i, us[0]) && b[i + Length(us[0])..] == Join(us[1..])
  {
    var u, rest := us[0], Join(us[1..]);
    var t := CodeOf(u) + u.bytes + rest;
    assert b[i..] == t;
    forall k | 0 <= k < |CodeOf(u)| ensures b[i + k] == CodeOf(u)[k] {
      assert b[i..][k] == t[k];
    }
    forall k | 0 <= k < |u.bytes| ensures b[i + |CodeOf(u)| + k] == u.bytes[k] {
      assert b[i..][|CodeOf(u)| + k] == t[|CodeOf(u)| + k];
    }
    assert b[i + Length(u)..] == t[Length(u)..] == rest;
  }

  /** `b` from `i` on is the join of `us`, said byte by byte. */
  ghost predicate InStream(b: seq<Byte>, i: nat, us: seq<Coded>)
    decreases |us|
  {
    if us == [] then i == |b| else UnitInStream(b, i, us[0]) && InStream(b, i + Length(us[0]), us[1..])
  }

  lemma {:induction false} JoinIsInStream(b: seq<Byte>, i: nat, us: seq<Coded>)
    requires i <= |b| && b[i..] == Join(us)
    ensures InStream(b, i, us)
    decreases |us|
  {
    if us != [] {
      var next := i + Length(us[0]);
      HeadInStream(b, i, us);
      JoinIsInStream(b, next, us[1..]);
      assert UnitInStream(b, i, us[0]) && InStream(b, next, us[1..]);
    } else {
      assert |b[i..]| == 0;
    }
  }

  lemma CodeIsFound(b: seq<Byte>, i: nat, u: Coded)
    requires UnitInStream(b, i, u)
    ensures StartCodeLen(b, i) == |CodeOf(u)|
  {
    assert b[i] == CodeOf(u)[0] && b[i + 1] == CodeOf(u)[1] && b[i + 2] == CodeOf(u)[2];
    assert u.long ==> b[i + 3] == CodeOf(u)[3];
  }

  /** No start code begins inside valid bytes, whatever follows them. */
  lemma NoCodeInside(b: seq<Byte>, h: nat, x: seq<Byte>, k: nat)
    requires ValidBytes(x) && h + |x| <= |b| && (forall m :: 0 <= m < |x| ==> b[h + m] == x[m]) && k < |x|
    ensures StartCodeLen(b, h + k) == 0
  {
    var last := |x| - 1;
    assert b[h + last] == x[last] && b[h + k] == x[k];
    if k + 1 < |x| {
      assert b[h + (k + 1)] == x[k + 1];
    }
    if k + 2 < |x| {
      assert b[h + (k + 2)] == x[k + 2];
    }
    if k + 3 < |x| {
      assert b[h + (k + 3)] == x[k + 3];
      assert !(x[k + 1] == 0 && x[k + 1 + 1] == 0 && x[k + 1 + 2] == 1);
    }
  }

  lemma {:induction false} NextAfterBytes(b: seq<Byte>, h: nat, x: seq<Byte>, k: nat)
    requires ValidBytes(x) && h + |x| <= |b| && (forall m :: 0 <= m < |x| ==> b[h + m] == x[m]) && k <= |x|
    requires h + |x| == |b| || (h + |x| + 3 < |b| && StartCodeLen(b, h + |x|) > 0)
    ensures NextStart(b, h + k) == h + |x|
    decreases |x| - k
  {
    if k < |x| && h + k + 3 < |b| {
      NoCodeInside(b, h, x, k);
      NextAfterBytes(b, h, x, k + 1);
    }
  }

  /** The first unit of a joined stream. */
  lemma HeadIsFound(b: seq<Byte>, i: nat, us: seq<Coded>, hdr: nat, next: nat)
    requires us != [] && ValidUnits(us) && InStream(b, i, us)
    requires hdr == i + |CodeOf(us[0])| && next == i + Length(us[0])
    ensures InStream(b, next, us[1..])
    ensures FoundAs(b, i, hdr, next, us[0])
  {
    StreamGoesOn(b, next, us[1..]);
    UnitIsFound(b, i, us[0]);
  }

  predicate FoundAs(b: seq<Byte>, i: nat, hdr: nat, next: nat, u: Coded) {
    i + 3 < |b| && hdr < next <= |b| && hdr == i + StartCodeLen(b, i) && StartCodeLen(b, i) == |CodeOf(u)| &&
    next == i + Length(u) && next == NextStart(b, hdr) && u.bytes != [] && b[hdr] == u.bytes[0]
  }

  lemma GoldenHead(b: seq<Byte>, i: nat, hdr: nat, next: nat, u: Coded)
    requires FoundAs(b, i, hdr, next, u)
    ensures GoldenFrom(b, i) == [PlacedAt(u, i)] + GoldenFrom(b, next)
  {
    FirstGolden(b, i, hdr, next);
  }

  lemma AnalyzedHead(b: seq<Byte>, i: nat, hdr: nat, next: nat, u: Coded)
    requires FoundAs(b, i, hdr, next, u)
    ensures AnalyzedFrom(b, i) == [AsNal(PlacedAt(u, i))] + AnalyzedFrom(b, next)
  {
    FirstAnalyzed(b, i, hdr, next);
  }

  lemma PlacedCons(us: seq<Coded>, at: nat)
    requires us != [] && ValidUnits(us)
    ensures ValidUnits(us[1..]) && Placed(us, at) == [PlacedAt(us[0], at)] + Placed(us[1..], at + Length(us[0]))
  {
  }

  lemma UnitIsFound(b: seq<Byte>, i: nat, u: Coded)
    requires UnitInStream(b, i, u) && ValidBytes(u.bytes)
    requires var next := i + Length(u); next == |b| || (next + 3 < |b| && StartCodeLen(b, next) > 0)
    ensures b[i + |CodeOf(u)|] == u.bytes[0] && StartCodeLen(b, i) == |CodeOf(u)|
    ensures NextStart(b, i + |CodeOf(u)|) == i + Length(u)
  {
    CodeIsFound(b, i, u);
    NextAfterBytes(b, i + |CodeOf(u)|, u.bytes, 0);
    assert b[i + |CodeOf(u)| + 0] == u.bytes[0];
  }

  lemma HeadSplits(b: seq<Byte>, i: nat, us: seq<Coded>, next: nat)
    requires us != [] && ValidUnits(us) && InStream(b, i, us) && next == i + Length(us[0])
    ensures InStream(b, next, us[1..])
    ensures GoldenFrom(b, i) == [PlacedAt(us[0], i)] + GoldenFrom(b, next)
    ensures AnalyzedFrom(b, i) == [AsNal(PlacedAt(us[0], i))] + AnalyzedFrom(b, next)
  {
    var hdr := i + |CodeOf(us[0])|;
    HeadIsFound(b, i, us, hdr, next);
    GoldenHead(b, i, hdr, next, us[0]);
    AnalyzedHead(b, i, hdr, next, us[0]);
  }

  lemma {:induction false} SplitFrom(b: seq<Byte>, i: nat, us: seq<Coded>)
    requires ValidUnits(us) && InStream(b, i, us)
    ensures GoldenFrom(b, i) == Placed(us, i)
    decreases |us|
  {
    if us == [] {
      assert i == |b|;
    } else {
      PlacedCons(us, i);
      var next := i + Length(us[0]);
      HeadSplits(b, i, us, next);
      SplitFrom(b, next, us[1..]);
    }
  }

  lemma {:induction false} AnalyzeFrom(b: seq<Byte>, i: nat, us: seq<Coded>, ns: seq<Nal>, ps: seq<NalUnit>)
    requires ValidUnits(us) && InStream(b, i, us) && ns == AnalyzedFrom(b, i) && ps == Placed(us, i)
    ensures ns == AsNals(ps)
    decreases |us|
  {
    if us == [] {
      NothingLeft(b, i);
    } else {
      var next := i + Length(us[0]);
      PlacedCons(us, i);
      HeadSplits(b, i, us, next);
      AnalyzeFrom(b, next, us[1..], AnalyzedFrom(b, next), Placed(us[1..], next));
      AsNalsCons(PlacedAt(us[0], i), Placed(us[1..], next));
    }
  }

  lemma StreamGoesOn(b: seq<Byte>, i: nat, us: seq<Coded>)
    requires ValidUnits(us) && InStream(b, i, us)
    ensures i == |b| || (i + 3 < |b| && StartCodeLen(b, i) > 0)
  {
    if us != [] {
      CodeIsFound(b, i, us[0]);
    }
  }

  /** Splitting undoes joining: the same ranges, headers and types, for any mix of start codes. */
  lemma SplitUndoesJoin(us: seq<Coded>)
    requires ValidUnits(us)
    ensures GoldenFrom(Join(us), 0) == Placed(us, 0) && AnalyzedFrom(Join(us), 0) == AsNals(Placed(us, 0))
  {
    JoinIsInStream(Join(us), 0, us);
    assert Join(us)[0..] == Join(us);
    SplitFrom(Join(us), 0, us);
    AnalyzeFrom(Join(us), 0, us, AnalyzedFrom(Join(us), 0), Placed(us, 0));
  }

  /** A unit's range holds the bytes, and its header and type are those of the first byte. */
  predicate Holds(b: seq<Byte>, n: NalUnit, u: Coded) {
    u.bytes != [] && n.startCodeBytes == |CodeOf(u)| && n.headerOffset == n.start + |CodeOf(u)| &&
    n.headerOffset <= n.end <= |b| && b[n.headerOffset..n.end] == u.bytes &&
    n.header == u.bytes[0] && n.typ == u.bytes[0] % 32
  }

  lemma HeadHolds(b: seq<Byte>, us: seq<Coded>, at: nat)
    requires us != [] && ValidUnits(us) && InStream(b, at, us)
    ensures Holds(b, Placed(us, at)[0], us[0])
  {
  }

  lemma {:induction false} PlacedHoldsBytes(b: seq<Byte>, us: seq<Coded>, at: nat, k: nat)
    requires ValidUnits(us) && InStream(b, at, us) && k < |us| == |Placed(us, at)|
    ensures Holds(b, Placed(us, at)[k], us[k])
    decreases |us|
  {
    if k == 0 {
      HeadHolds(b, us, at);
    } else {
      var next := at + Length(us[0]);
      PlacedCons(us, at);
      PlacedHoldsBytes(b, us[1..], next, k - 1);
      TailAt(Placed(us, at), PlacedAt(us[0], at), Placed(us[1..], next), k);
    }
  }

  lemma TailAt(ps: seq<NalUnit>, p: NalUnit, rest: seq<NalUnit>, k: nat)
    requires ps == [p] + rest && 0 < k < |ps|
    ensures ps[k] == rest[k - 1]
  {
  }

  lemma {:induction false} PlacedCount(us: seq<Coded>, at: nat)
    requires ValidUnits(us)
    ensures |Placed(us, at)| == |us|
    decreases |us|
  {
    if us != [] {
      PlacedCount(us[1..], at + Length(us[0]));
    }
  }

  /** What comes back is the bytes that went in. */
  lemma SplitReturnsBytes(us: seq<Coded>, k: nat)
    requires ValidUnits(us) && k < |us|
    ensures |GoldenFrom(Join(us), 0)| == |us|
    ensures var n := GoldenFrom(Join(us), 0)[k];
            && n.headerOffset == n.start + (if us[k].long then 4 else 3) && n.headerOffset <= n.end <= |Join(us)|
            && Join(us)[n.headerOffset..n.end] == us[k].bytes
            && n.header == us[k].bytes[0] && n.typ == us[k].bytes[0] % 32
  {
    JoinIsInStream(Join(us), 0, us);
    assert Join(us)[0..] == Join(us);
    SplitUndoesJoin(us);
    PlacedCount(us, 0);
    PlacedHoldsBytes(Join(us), us, 0, k);
  }

  // ------------------------------------------------------------------ tiling

  predicate InRange(b: seq<Byte>, ns: seq<Nal>) {
    forall k :: 0 <= k < |ns| ==> ns[k].start <= ns[k].end <= |b|
  }

  /** appendNal of every unit in turn. */
  function Appended(b: seq<Byte>, ns: seq<Nal>): seq<Byte>
    requires InRange(b, ns)
  {
    if ns == [] then [] else b[ns[0].start..ns[0].end] + Appended(b, ns[1..])
  }

  lemma AppendedCons(b: seq<Byte>, n: Nal, ns: seq<Nal>)
    requires InRange(b, ns) && n.start <= n.end <= |b|
    ensures InRange(b, [n] + ns) && Appended(b, [n] + ns) == b[n.start..n.end] + Appended(b, ns)
  {
  }

  /** Where the units stop: at a bare start code that ends the data, or at the end. */
  function StopFrom(b: seq<Byte>, j: nat): (n: nat)
    requires j <= |b|
    ensures j <= n <= |b|
    decreases |b| - j
  {
    var i := NextStart(b, j);
    if i == |b| || i + StartCodeLen(b, i) == |b| then i else StopFrom(b, i + StartCodeLen(b, i))
  }

  lemma {:induction false} TilesFrom(b: seq<Byte>, j: nat)
    requires j <= |b|
    ensures var ns := AnalyzedFrom(b, j);
            InRange(b, ns) && NextStart(b, j) <= StopFrom(b, j) && Appended(b, ns) == b[NextStart(b, j)..StopFrom(b, j)]
    decreases |b| - j
  {
    var i := NextStart(b, j);
    StartsFromNext(b, j);
    if i < |b| {
      var hdr := i + StartCodeLen(b, i);
      TilesFrom(b, hdr);
      StartsFromNext(b, hdr);
      TilesOne(b, i, hdr, NextStart(b, hdr), StopFrom(b, hdr));
    }
  }

  lemma TilesOne(b: seq<Byte>, i: nat, hdr: nat, k: nat, stop: nat)
    requires i + 3 < |b| && StartCodeLen(b, i) > 0 && hdr == i + StartCodeLen(b, i) && k == NextStart(b, hdr) <= stop <= |b|
    requires var ns := AnalyzedFrom(b, k); InRange(b, ns) && Appended(b, ns) == b[k..stop]
    ensures var ns := AnalyzedFrom(b, i);
            InRange(b, ns) && Appended(b, ns) == if hdr < |b| then b[i..stop] else b[k..stop]
  {
    FirstAnalyzed(b, i, hdr, k);
    PieceThen(b, i, hdr, k, stop, AnalyzedFrom(b, k));
  }

  lemma PieceThen(b: seq<Byte>, i: nat, hdr: nat, k: nat, stop: nat, rest: seq<Nal>)
    requires hdr == i + StartCodeLen(b, i) && i <= k <= stop <= |b| && InRange(b, rest) && Appended(b, rest) == b[k..stop]
    ensures var ns := NalPiece(b, i, k) + rest;
            InRange(b, ns) && Appended(b, ns) == if hdr < |b| then b[i..stop] else b[k..stop]
  {
    if hdr < |b| {
      AppendedCons(b, Nal(i, k, b[hdr] % 32), rest);
      assert b[i..k] + b[k..stop] == b[i..stop];
    } else {
      assert NalPiece(b, i, k) + rest == rest;
    }
  }

  /** Appending the analyzer's units in turn gives back the data, from the first start code on. */
  lemma UnitsTileTheData(b: seq<Byte>)
    ensures InRange(b, AnalyzedFrom(b, 0)) && NextStart(b, 0) <= StopFrom(b, 0)
    ensures Appended(b, AnalyzedFrom(b, 0)) == b[NextStart(b, 0)..StopFrom(b, 0)]
  {
    TilesFrom(b, 0);
  }

  /** Only a bare four-byte start code at the very end is lost. */
  lemma {:induction false} StopIsTheEnd(b: seq<Byte>, j: nat)
    requires j <= |b|
    ensures StopFrom(b, j) == |b| || (StopFrom(b, j) == |b| - 4 && b[|b| - 4..] == [0, 0, 0, 1])
    decreases |b| - j
  {
    var i := NextStart(b, j);
    if i < |b| && i + StartCodeLen(b, i) < |b| {
      StopIsTheEnd(b, i + StartCodeLen(b, i));
    }
  }
}
