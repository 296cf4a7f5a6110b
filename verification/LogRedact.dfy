/**
 Log redaction (arm/misterplexd/log_redact.hpp): eight passes, each replacing the
 values of one key in query form `Key=VALUE` or header form `Key: VALUE`.
 */
module LogRedact {

  const REDACTED := "REDACTED"

  /** One pass: a key, in header or query form. */
  datatype Rule = Rule(key: string, header: bool)

  function Separator(r: Rule): char { if r.header then ':' else '=' }

  function Prefix(r: Rule): string { r.key + [Separator(r)] }

  const KEYS := ["X-Plex-Token", "accessToken", "PLEX_TOKEN", "token"]

  /** The passes in order: each key as a query, then as a header. */
  const RULES := [
    Rule("X-Plex-Token", false), Rule("X-Plex-Token", true),
    Rule("accessToken", false), Rule("accessToken", true),
    Rule("PLEX_TOKEN", false), Rule("PLEX_TOKEN", true),
    Rule("token", false), Rule("token", true)]

  predicate IsBoundary(c: char) {
    c == '&' || c == '?' || c == ' ' || c == '\t' || c == '\n' || c == '\r' || c == ';' || c == '"' || c == '\''
  }

  predicate IsBlank(c: char) { c == ' ' || c == '\t' }

  /** What ends a value. */
  predicate IsEnd(r: Rule, c: char) {
    c == '\r' || c == '\n' || (!r.header && (c == '&' || c == ' ' || c == '\t' || c == '"' || c == '\''))
  }

  /** How many leading blanks a header keeps. */
  function Skip(r: Rule, w: string): (k: nat)
    ensures k <= |w|
  {
    if r.header && w != "" && IsBlank(w[0]) then 1 + Skip(r, w[1..]) else 0
  }

  function ValueLen(r: Rule, w: string): (n: nat)
    ensures n <= |w|
  {
    if w == "" || IsEnd(r, w[0]) then 0 else 1 + ValueLen(r, w[1..])
  }

  /** What follows the value. */
  function Unread(r: Rule, w: string): (rest: string)
    ensures |rest| <= |w|
  {
    AfterValue(r, w[Skip(r, w)..])
  }

  function AfterValue(r: Rule, t: string): (rest: string)
    ensures |rest| <= |t|
  {
    t[ValueLen(r, t)..]
  }

  /** What a pass makes of unread text; `b` says whether a key may start here. */
  function Pass(r: Rule, b: bool, u: string): string
    decreases |u|, 0
  {
    if u == "" then ""
    else if Prefix(r) <= u then Prefix(r) + PassValue(r, b, u[|Prefix(r)|..])
    else [u[0]] + Pass(r, IsBoundary(u[0]), u[1..])
  }

  /** What a pass makes of the text after its prefix. */
  function PassValue(r: Rule, b: bool, w: string): string
    decreases |w|, 1
  {
    if b then w[..Skip(r, w)] + REDACTED + Pass(r, false, Unread(r, w)) else Pass(r, false, w)
  }

  function Passes(rs: seq<Rule>, s: string): string {
    if rs == [] then s else Passes(rs[1..], Pass(rs[0], true, s))
  }

  function Redact(s: string): string { Passes(RULES, s) }

  // ------------------------------------------------------------------ text

  lemma Assoc(a: string, b: string, c: string)
    ensures (a + b) + c == a + (b + c)
  {
  }

  lemma JoinFour(a: string, b: string, c: string, d: string)
    ensures a + (b + c + d) == a + b + c + d
  {
  }

  lemma NoText(x: string)
    ensures x + "" == x && "" + x == x
  {
  }

  lemma SplitPrefix(u: string, p: string)
    requires p <= u
    ensures u == p + u[|p|..]
  {
  }

  lemma SplitAt(x: string, n: nat)
    requires n <= |x|
    ensures x == x[..n] + x[n..]
  {
  }

  lemma SuffixOfSuffix(s: string, p: nat, k: nat)
    requires p <= |s| && p + k <= |s|
    ensures s[p..][k..] == s[p + k..] && s[p..][..k] == s[p..p + k]
  {
  }

  /** The two halves of a join. */
  lemma Halves(x: string, y: string)
    ensures (x + y)[..|x|] == x && (x + y)[|x|..] == y
  {
  }

  /** Cutting a join in its first half. */
  lemma CutFirst(w: string, y: string, n: nat)
    requires n <= |w|
    ensures (w + y)[..n] == w[..n] && (w + y)[n..] == w[n..] + y
  {
  }

  // ------------------------------------------------------------------ values

  predicate NoEnd(r: Rule, v: string) { forall i :: 0 <= i < |v| ==> !IsEnd(r, v[i]) }

  predicate AllBlank(x: string) { forall i :: 0 <= i < |x| ==> IsBlank(x[i]) }

  /** The text after a value: nothing, or what ends it. */
  predicate EndsHere(r: Rule, rest: string) { rest == "" || IsEnd(r, rest[0]) }

  predicate Blanks(r: Rule, blanks: string) { AllBlank(blanks) && (!r.header ==> blanks == "") }

  /** Text that one pass takes for a whole value. */
  predicate IsValue(r: Rule, v: string) { NoEnd(r, v) && (r.header && v != "" ==> !IsBlank(v[0])) }

  lemma {:induction false} SkipIs(r: Rule, blanks: string, t: string)
    requires Blanks(r, blanks) && (r.header && t != "" ==> !IsBlank(t[0]))
    ensures Skip(r, blanks + t) == |blanks|
    decreases |blanks|
  {
    if blanks == "" {
      NoText(t);
    } else {
      var tail := blanks[1..];
      assert (blanks + t)[0] == blanks[0] && (blanks + t)[1..] == tail + t;
      assert AllBlank(tail);
      SkipIs(r, tail, t);
    }
  }

  lemma {:induction false} SkipFacts(r: Rule, w: string)
    ensures Blanks(r, w[..Skip(r, w)])
    ensures var t := w[Skip(r, w)..]; r.header && t != "" ==> !IsBlank(t[0])
  {
    if r.header && w != "" && IsBlank(w[0]) {
      var tail := w[1..];
      SkipFacts(r, tail);
      assert w[..Skip(r, w)] == [w[0]] + tail[..Skip(r, tail)];
      assert w[Skip(r, w)..] == tail[Skip(r, tail)..];
    }
  }

  lemma {:induction false} ValueIs(r: Rule, v: string, rest: string)
    requires NoEnd(r, v) && EndsHere(r, rest)
    ensures ValueLen(r, v + rest) == |v| && AfterValue(r, v + rest) == rest
    decreases |v|
  {
    Halves(v, rest);
    if v == "" {
      NoText(rest);
    } else {
      var tail := v[1..];
      assert (v + rest)[0] == v[0] && (v + rest)[1..] == tail + rest;
      assert NoEnd(r, tail);
      ValueIs(r, tail, rest);
    }
  }

  lemma {:induction false} ValueFacts(r: Rule, w: string)
    ensures NoEnd(r, w[..ValueLen(r, w)]) && EndsHere(r, AfterValue(r, w))
  {
    if w != "" && !IsEnd(r, w[0]) {
      var tail := w[1..];
      ValueFacts(r, tail);
      assert w[..ValueLen(r, w)] == [w[0]] + tail[..ValueLen(r, tail)];
      assert AfterValue(r, w) == AfterValue(r, tail);
    }
  }

  /** The text after a prefix, cut into blanks, value and rest. */
  lemma CutValue(r: Rule, w: string) returns (blanks: string, v: string, rest: string)
    ensures w == blanks + v + rest && Blanks(r, blanks) && IsValue(r, v) && EndsHere(r, rest)
    ensures blanks == w[..Skip(r, w)] && rest == Unread(r, w)
  {
    var t := w[Skip(r, w)..];
    SkipFacts(r, w);
    ValueFacts(r, t);
    blanks, v, rest := w[..Skip(r, w)], t[..ValueLen(r, t)], AfterValue(r, t);
    SplitAt(t, ValueLen(r, t));
    SplitAt(w, Skip(r, w));
    Assoc(blanks, v, rest);
  }

  /** A join of blanks, value and rest is cut there. */
  lemma JoinIsCut(r: Rule, blanks: string, v: string, rest: string)
    requires Blanks(r, blanks) && IsValue(r, v) && EndsHere(r, rest)
    ensures var w := blanks + v + rest;
            Skip(r, w) == |blanks| && w[..Skip(r, w)] == blanks && Unread(r, w) == rest
  {
    Assoc(blanks, v, rest);
    if r.header && v + rest != "" {
      HeadOfRest(r, v, rest);
    }
    SkipIs(r, blanks, v + rest);
    Halves(blanks, v + rest);
    ValueIs(r, v, rest);
  }

  lemma CutIs(r: Rule, w: string, blanks: string, v: string, rest: string)
    requires w == blanks + v + rest && Blanks(r, blanks) && IsValue(r, v) && EndsHere(r, rest)
    ensures w[..Skip(r, w)] == blanks && Unread(r, w) == rest
  {
    JoinIsCut(r, blanks, v, rest);
  }

  lemma HeadOfRest(r: Rule, v: string, rest: string)
    requires IsValue(r, v) && EndsHere(r, rest) && r.header && v + rest != ""
    ensures !IsBlank((v + rest)[0])
  {
    assert (v + rest)[0] == if v == "" then rest[0] else v[0];
  }

  // ------------------------------------------------------------------ one step of a pass

  lemma PassCopies(q: Rule, b: bool, c: char, w: string)
    requires !(Prefix(q) <= [c] + w)
    ensures Pass(q, b, [c] + w) == [c] + Pass(q, IsBoundary(c), w)
  {
    Halves([c], w);
  }

  lemma PassSkips(q: Rule, w: string)
    ensures Pass(q, false, Prefix(q) + w) == Prefix(q) + Pass(q, false, w)
  {
    Halves(Prefix(q), w);
  }

  lemma PassRedacts(q: Rule, w: string)
    ensures Pass(q, true, Prefix(q) + w) == Prefix(q) + w[..Skip(q, w)] + REDACTED + Pass(q, false, Unread(q, w))
  {
    Halves(Prefix(q), w);
    JoinFour(Prefix(q), w[..Skip(q, w)], REDACTED, Pass(q, false, Unread(q, w)));
  }

  lemma PassSkipsAt(q: Rule, u: string, w: string)
    requires u == Prefix(q) + w
    ensures Pass(q, false, u) == Prefix(q) + Pass(q, false, w)
  {
    PassSkips(q, w);
  }

  lemma PassRedactsAt(q: Rule, u: string, w: string, kept: string, rest: string)
    requires u == Prefix(q) + w && kept == w[..Skip(q, w)] && rest == Unread(q, w)
    ensures Pass(q, true, u) == Prefix(q) + kept + REDACTED + Pass(q, false, rest)
  {
    PassRedacts(q, w);
  }

  /** What a pass does to one value of its own key. */
  lemma PassOnSecret(r: Rule, blanks: string, v: string, rest: string)
    requires Blanks(r, blanks) && IsValue(r, v) && EndsHere(r, rest)
    ensures Pass(r, true, Prefix(r) + blanks + v + rest) == Prefix(r) + blanks + REDACTED + Pass(r, false, rest)
  {
    JoinIsCut(r, blanks, v, rest);
    JoinFour(Prefix(r), blanks, v, rest);
    PassRedacts(r, blanks + v + rest);
  }

  /** Unread text that starts with the prefix, cut at the value's ends. */
  lemma Cut(r: Rule, u: string) returns (blanks: string, v: string, rest: string)
    requires Prefix(r) <= u
    ensures u == Prefix(r) + blanks + v + rest && Blanks(r, blanks) && IsValue(r, v) && EndsHere(r, rest)
    ensures Pass(r, true, u) == Prefix(r) + blanks + REDACTED + Pass(r, false, rest)
  {
    blanks, v, rest := CutValue(r, u[|Prefix(r)|..]);
    SplitPrefix(u, Prefix(r));
    JoinFour(Prefix(r), blanks, v, rest);
    PassRedacts(r, u[|Prefix(r)|..]);
  }

  // ------------------------------------------------------------------ the code

  predicate Boundary(s: string, pos: nat)
    requires pos <= |s|
  {
    pos == 0 || IsBoundary(s[pos - 1])
  }

  predicate StartsAt(s: string, p: string, i: nat)
    requires i <= |s|
  {
    p <= s[i..]
  }

  /** std::string::find: the first occurrence at or after `pos`, or -1. */
  method Find(s: string, p: string, pos: nat) returns (at: int)
    requires pos <= |s| && p != ""
    ensures at == -1 || (pos <= at < |s| && StartsAt(s, p, at))
    ensures forall i :: pos <= i < (if at == -1 then |s| else at) ==> !StartsAt(s, p, i)
  {
    at := pos;
    while at < |s|
      invariant pos <= at <= |s|
      invariant forall i :: pos <= i < at ==> !StartsAt(s, p, i)
    {
      if StartsAt(s, p, at) { return; }
      at := at + 1;
    }
    at := -1;
  }

  /** A pass copies up to the next occurrence. */
  lemma {:induction false} PassUntil(r: Rule, s: string, pos: nat, at: nat)
    requires pos <= at <= |s| && forall i :: pos <= i < at ==> !StartsAt(s, Prefix(r), i)
    ensures Pass(r, Boundary(s, pos), s[pos..]) == s[pos..at] + Pass(r, Boundary(s, at), s[at..])
    decreases at - pos
  {
    if pos < at {
      var c := s[pos];
      assert !StartsAt(s, Prefix(r), pos);
      FirstChar(s, pos, at);
      PassUntil(r, s, pos + 1, at);
      PassCopies(r, Boundary(s, pos), c, s[pos + 1..]);
      Assoc([c], s[pos + 1..at], Pass(r, Boundary(s, at), s[at..]));
    } else {
      NoText(Pass(r, Boundary(s, at), s[at..]));
    }
  }

  lemma FirstChar(s: string, pos: nat, at: nat)
    requires pos < at <= |s|
    ensures s[pos..] == [s[pos]] + s[pos + 1..] && s[pos..at] == [s[pos]] + s[pos + 1..at]
  {
  }

  /** The text before `pos` is done and the rest still has to be passed. */
  ghost predicate Done(r: Rule, s: string, pos: nat, goal: string)
    requires pos <= |s|
  {
    s[..pos] + Pass(r, Boundary(s, pos), s[pos..]) == goal
  }

  lemma DoneMoves(r: Rule, s: string, pos: nat, at: nat, goal: string)
    requires pos <= at <= |s| && Done(r, s, pos, goal)
    requires forall i :: pos <= i < at ==> !StartsAt(s, Prefix(r), i)
    ensures Done(r, s, at, goal)
  {
    PassUntil(r, s, pos, at);
    assert s[..at] == s[..pos] + s[pos..at];
    Assoc(s[..pos], s[pos..at], Pass(r, Boundary(s, at), s[at..]));
  }

  lemma Slices(s: string, at: nat, p: string)
    requires at <= |s| && StartsAt(s, p, at)
    ensures at + |p| <= |s| && s[at..] == p + s[at + |p|..] && s[..at + |p|] == s[..at] + p
  {
    SplitPrefix(s[at..], p);
    SuffixOfSuffix(s, at, |p|);
    assert s[..at + |p|] == s[..at] + s[at..at + |p|];
  }

  lemma DoneSkips(r: Rule, s: string, at: nat, goal: string)
    requires at <= |s| && StartsAt(s, Prefix(r), at) && !Boundary(s, at) && Done(r, s, at, goal)
    ensures at + |Prefix(r)| <= |s| && Done(r, s, at + |Prefix(r)|, goal)
  {
    var val := at + |Prefix(r)|;
    var rest := Pass(r, false, s[val..]);
    Slices(s, at, Prefix(r));
    PassSkipsAt(r, s[at..], s[val..]);
    RejoinSkipped(s[..at], Prefix(r), rest, Pass(r, false, s[at..]), s[..val], goal);
    NoBoundaryAfter(r, s, s[..at], val);
  }

  lemma RejoinSkipped(a: string, p: string, rest: string, passed: string, front: string, goal: string)
    requires passed == p + rest && front == a + p && a + passed == goal
    ensures front + rest == goal
  {
    Assoc(a, p, rest);
  }

  lemma NoBoundaryAfter(r: Rule, s: string, front: string, val: nat)
    requires val <= |s| && s[..val] == front + Prefix(r)
    ensures !Boundary(s, val)
  {
    assert s[..val][val - 1] == Separator(r);
  }

  /** Where a value stands in the whole text. */
  lemma WhereValueIs(r: Rule, s: string, p: nat, val: nat, end: nat)
    requires p <= val <= end <= |s| && val == p + Skip(r, s[p..]) && end == val + ValueLen(r, s[val..])
    ensures s[p..][..Skip(r, s[p..])] == s[p..val] && Unread(r, s[p..]) == s[end..]
  {
    SuffixOfSuffix(s, p, val - p);
    SuffixOfSuffix(s, val, end - val);
    assert AfterValue(r, s[val..]) == s[end..];
  }

  lemma PassRedactsIn(r: Rule, s: string, p: nat, val: nat, end: nat, u: string, passed: string, rest: string)
    requires p <= val <= end <= |s| && u == Prefix(r) + s[p..]
    requires val == p + Skip(r, s[p..]) && end == val + ValueLen(r, s[val..])
    requires passed == Pass(r, true, u) && rest == Pass(r, false, s[end..])
    ensures passed == Prefix(r) + s[p..val] + REDACTED + rest
  {
    WhereValueIs(r, s, p, val, end);
    PassRedactsAt(r, u, s[p..], s[p..val], s[end..]);
  }

  /** What replacing a value does, on the text alone. */
  lemma ReplaceJoins(s: string, at: nat, p: string, val: nat, passed: string, rest: string, goal: string)
    requires at <= |s| && StartsAt(s, p, at) && at + |p| <= val <= |s|
    requires passed == p + s[at + |p|..val] + REDACTED + rest && s[..at] + passed == goal
    ensures JoinsTo(s[..val], rest, goal)
  {
    Slices(s, at, p);
    FrontOf(s, at, p, val);
    Rejoin(s[..at], p, s[at + |p|..val], rest, passed, s[..val], goal);
  }

  lemma FrontOf(s: string, at: nat, p: string, val: nat)
    requires at <= |s| && at + |p| <= val <= |s| && s[..at + |p|] == s[..at] + p
    ensures s[..val] == s[..at] + p + s[at + |p|..val]
  {
    assert s[..val] == s[..at + |p|] + s[at + |p|..val];
  }

  ghost predicate JoinsTo(front: string, rest: string, goal: string) { front + REDACTED + rest == goal }

  lemma Rejoin(a: string, p: string, kept: string, rest: string, passed: string, front: string, goal: string)
    requires passed == p + kept + REDACTED + rest && front == a + p + kept && a + passed == goal
    ensures JoinsTo(front, rest, goal)
  {
    assert a + (p + kept + REDACTED + rest) == a + p + kept + REDACTED + rest;
  }

  lemma DoneAfterReplace(r: Rule, s: string, val: nat, end: nat, s': string, rest: string, goal: string)
    requires val <= end <= |s| && s' == s[..val] + REDACTED + s[end..]
    requires rest == Pass(r, false, s[end..]) && JoinsTo(s[..val], rest, goal)
    ensures val + |REDACTED| <= |s'| && Done(r, s', val + |REDACTED|, goal)
  {
    Halves(s[..val] + REDACTED, s[end..]);
    assert (s[..val] + REDACTED)[val + |REDACTED| - 1] == 'D';
  }

  /** What the pass makes of a value is its replacement and the pass over the rest. */
  lemma DoneReplaces(r: Rule, s: string, at: nat, p: nat, val: nat, end: nat, u: string, rest: string, goal: string)
    requires at <= |s| && StartsAt(s, Prefix(r), at) && p == at + |Prefix(r)| <= val <= end <= |s|
    requires val == p + Skip(r, s[p..]) && end == val + ValueLen(r, s[val..])
    requires u == Prefix(r) + s[p..] && rest == Pass(r, false, s[end..]) && s[..at] + Pass(r, true, u) == goal
    ensures JoinsTo(s[..val], rest, goal)
  {
    var passed := Pass(r, true, u);
    PassRedactsIn(r, s, p, val, end, u, passed, rest);
    ReplaceJoins(s, at, Prefix(r), val, passed, rest, goal);
  }

  lemma DoneGoesOn(r: Rule, s: string, at: nat, val: nat, end: nat, s': string, goal: string)
    requires at <= |s| && StartsAt(s, Prefix(r), at) && Boundary(s, at) && Done(r, s, at, goal)
    requires at + |Prefix(r)| <= val <= end <= |s| && val == at + |Prefix(r)| + Skip(r, s[at + |Prefix(r)|..])
    requires end == val + ValueLen(r, s[val..]) && s' == s[..val] + REDACTED + s[end..]
    ensures val + |REDACTED| <= |s'| && Done(r, s', val + |REDACTED|, goal)
  {
    var rest := Pass(r, false, s[end..]);
    Slices(s, at, Prefix(r));
    DoneReplaces(r, s, at, at + |Prefix(r)|, val, end, s[at..], rest, goal);
    DoneAfterReplace(r, s, val, end, s', rest, goal);
  }

  /** One find-and-replace loop. */
  method RedactPass(r: Rule, text: string) returns (s: string)
    ensures s == Pass(r, true, text)
  {
    s := text;
    var pfx := Prefix(r);
    ghost var goal := Pass(r, true, text);
    var pos: nat := 0;
    assert s[0..] == s;
    NoText(goal);
    var at := Find(s, pfx, pos);
    while at != -1
      invariant pos <= |s| && Done(r, s, pos, goal)
      invariant at == -1 || (pos <= at < |s| && StartsAt(s, pfx, at))
      invariant forall i :: pos <= i < (if at == -1 then |s| else at) ==> !StartsAt(s, pfx, i)
      decreases |s| - pos, at
    {
      DoneMoves(r, s, pos, at, goal);
      s, pos := ReplaceAt(r, s, at, goal);
      at := Find(s, pfx, pos);
    }
    DoneMoves(r, s, pos, |s|, goal);
    NoText(s);
  }

  /** The loop's body, for the occurrence at `at`: what is left unread gets shorter. */
  method ReplaceAt(r: Rule, text: string, at: nat, ghost goal: string) returns (s: string, pos: nat)
    requires at < |text| && StartsAt(text, Prefix(r), at) && Done(r, text, at, goal)
    ensures pos <= |s| && Done(r, s, pos, goal)
    ensures |s| - pos < |text| - at
  {
    s := text;
    if !Boundary(s, at) {
      DoneSkips(r, s, at, goal);
      pos := at + |Prefix(r)|;
      return;
    }
    s, pos := ReplaceValue(r, text, at, goal);
  }

  method ReplaceValue(r: Rule, text: string, at: nat, ghost goal: string) returns (s: string, pos: nat)
    requires at < |text| && StartsAt(text, Prefix(r), at) && Boundary(text, at) && Done(r, text, at, goal)
    ensures pos <= |s| && Done(r, s, pos, goal)
    ensures |s| - pos < |text| - at
  {
    Slices(text, at, Prefix(r));
    var val := SkipValue(r, text, at + |Prefix(r)|);
    var end := val + ValueLen(r, text[val..]);
    s := text[..val] + REDACTED + text[end..];
    pos := val + |REDACTED|;
    DoneGoesOn(r, text, at, val, end, s, goal);
  }

  /** Where the value starts: a header's blanks are kept. */
  method SkipValue(r: Rule, s: string, p: nat) returns (val: nat)
    requires p <= |s|
    ensures val == p + Skip(r, s[p..])
  {
    val := p;
    if r.header {
      while val < |s| && IsBlank(s[val])
        invariant p <= val <= |s| && p + Skip(r, s[p..]) == val + Skip(r, s[val..])
      {
        FirstChar(s, val, |s|);
        Halves([s[val]], s[val + 1..]);
        val := val + 1;
      }
    }
  }

  /** The rules are the keys in order, each as a query and then as a header. */
  ghost predicate RulesOf(rs: seq<Rule>, keys: seq<string>) {
    |rs| == 2 * |keys| &&
    forall i :: 0 <= i < |keys| ==> rs[2 * i] == Rule(keys[i], false) && rs[2 * i + 1] == Rule(keys[i], true)
  }

  lemma RulesOfKeys()
    ensures RulesOf(RULES, KEYS)
  {
  }

  lemma KeyPasses(rs: seq<Rule>, keys: seq<string>, i: nat, s: string)
    requires RulesOf(rs, keys) && i < |keys|
    ensures Passes(rs[2 * i..], s)
            == Passes(rs[2 * (i + 1)..], Pass(Rule(keys[i], true), true, Pass(Rule(keys[i], false), true, s)))
  {
    assert rs[2 * i..][1..] == rs[2 * i + 1..] && rs[2 * i + 1..][1..] == rs[2 * (i + 1)..];
  }

  /** The loop over the keys. */
  method RedactKeys(ghost rs: seq<Rule>, keys: seq<string>, text: string) returns (s: string)
    requires RulesOf(rs, keys)
    ensures s == Passes(rs, text)
  {
    s := text;
    assert rs[0..] == rs;
    for i := 0 to |keys|
      invariant Passes(rs[2 * i..], s) == Passes(rs, text)
    {
      KeyPasses(rs, keys, i, s);
      var t := RedactPass(Rule(keys[i], false), s);
      s := RedactPass(Rule(keys[i], true), t);
    }
  }

  /** redactSensitive. */
  method RedactSensitive(text: string) returns (s: string)
    ensures s == Redact(text)
  {
    RulesOfKeys();
    s := RedactKeys(RULES, KEYS, text);
  }
}
