/**
 What the eight passes leave behind: text in which every key at a boundary is
 followed by REDACTED, and which redaction leaves alone.
 */
module LogRedactClean {
  import opened LogRedact

  /** The text after a prefix: blanks, REDACTED, and then an end. */
  predicate RedactedHead(r: Rule, w: string) {
    var t := w[Skip(r, w)..];
    REDACTED <= t && EndsHere(r, t[|REDACTED|..])
  }

  /** Every occurrence of the key at a boundary is followed by REDACTED and an end. */
  predicate Clean(r: Rule, b: bool, u: string)
    decreases |u|
  {
    u == "" ||
    ((b && Prefix(r) <= u ==> RedactedHead(r, u[|Prefix(r)|..])) && Clean(r, IsBoundary(u[0]), u[1..]))
  }

  // ------------------------------------------------------------------ keys

  predicate IsKeyChar(c: char) { !IsBoundary(c) && c != '=' && c != ':' && c != 'R' }

  /** A key whose occurrences cannot hide in a separator, in a boundary, or in REDACTED. */
  predicate GoodKey(key: string) {
    key != "" && key[0] !in REDACTED && forall i :: 0 <= i < |key| ==> IsKeyChar(key[i])
  }

  predicate IsSuffix(a: string, b: string) { |a| <= |b| && b[|b| - |a|..] == a }

  /** Neither key ends the other, unless they are the same. */
  predicate Apart(a: string, b: string) { a == b || (!IsSuffix(a, b) && !IsSuffix(b, a)) }

  /** `p` cannot start at `x[i]`, whatever follows `x`. */
  ghost predicate Clash(p: string, x: string, i: nat) {
    exists j :: 0 <= j < |p| && i + j < |x| && p[j] != x[i + j]
  }

  lemma ClashMeansNoStart(p: string, x: string, i: nat, y: string)
    requires i < |x| && Clash(p, x, i)
    ensures !(p <= x[i..] + y)
  {
  }

  lemma KeysDiffer(k: string, l: string)
    requires k != l && Apart(k, l) && |k| <= |l|
    ensures exists j :: 0 <= j < |k| && k[j] != l[|l| - |k| + j]
  {
  }

  /** A prefix starts nowhere inside another prefix; it starts at its front only if they are the same. */
  lemma PrefixesClash(r: Rule, q: Rule, i: nat)
    requires GoodKey(r.key) && GoodKey(q.key) && Apart(r.key, q.key) && i < |Prefix(q)|
    requires i > 0 || r != q
    ensures Clash(Prefix(r), Prefix(q), i)
  {
    var a, b := |r.key|, |q.key|;
    if i + a < b {
      PrefixAt(q, i + a);
      ClashAt(Prefix(r), Prefix(q), i, a);
    } else if i + a > b {
      PrefixAt(r, b - i);
      ClashAt(Prefix(r), Prefix(q), i, b - i);
    } else if r.key == q.key {
      ClashAt(Prefix(r), Prefix(q), i, a);
    } else {
      KeysDiffer(r.key, q.key);
      var j :| 0 <= j < a && r.key[j] != q.key[i + j];
      ClashAt(Prefix(r), Prefix(q), i, j);
    }
  }

  lemma ClashAt(p: string, x: string, i: nat, j: nat)
    requires j < |p| && i + j < |x| && p[j] != x[i + j]
    ensures Clash(p, x, i)
  {
  }

  lemma PrefixAt(r: Rule, j: nat)
    requires GoodKey(r.key) && j < |r.key|
    ensures Prefix(r)[j] == r.key[j] && IsKeyChar(Prefix(r)[j])
  {
  }

  /** A prefix starts nowhere in a redacted entry of another rule, nor inside one of its own. */
  lemma EntryClashes(r: Rule, q: Rule, blanks: string, i: nat)
    requires GoodKey(r.key) && GoodKey(q.key) && Apart(r.key, q.key)
    requires AllBlank(blanks)
    requires i < |Prefix(q) + blanks + REDACTED| && (i > 0 || r != q)
    ensures Clash(Prefix(r), Prefix(q) + blanks + REDACTED, i)
  {
    var p, x := Prefix(r), Prefix(q) + blanks + REDACTED;
    if i < |Prefix(q)| {
      PrefixesClash(r, q, i);
      var j :| 0 <= j < |p| && i + j < |Prefix(q)| && p[j] != Prefix(q)[i + j];
      assert x[i + j] == Prefix(q)[i + j];
    } else {
      assert p[0] == r.key[0];
      assert p[0] != x[i];
    }
  }

  // ------------------------------------------------------------------ walking over chunks

  /** Whether a key may start after the chunk `x`. */
  function After(b: bool, x: string): bool { if x == "" then b else IsBoundary(x[|x| - 1]) }

  ghost predicate AllClash(r: Rule, x: string) { forall i :: 0 <= i < |x| ==> Clash(Prefix(r), x, i) }

  lemma AllClashTail(r: Rule, x: string)
    requires x != "" && AllClash(r, x)
    ensures AllClash(r, x[1..])
  {
    forall i | 0 <= i < |x[1..]| ensures Clash(Prefix(r), x[1..], i) {
      assert Clash(Prefix(r), x, i + 1);
      var j :| 0 <= j < |Prefix(r)| && i + 1 + j < |x| && Prefix(r)[j] != x[i + 1 + j];
      assert x[1..][i + j] == x[i + 1 + j];
    }
  }

  lemma AfterTail(b: bool, c: char, t: string)
    ensures After(b, [c] + t) == After(IsBoundary(c), t)
  {
  }

  /** A pass copies a chunk in which its prefix cannot start. */
  lemma {:induction false} PassOver(r: Rule, b: bool, x: string, y: string)
    requires AllClash(r, x)
    ensures Pass(r, b, x + y) == x + Pass(r, After(b, x), y)
    decreases |x|
  {
    if x == "" {
      assert x + y == y;
    } else {
      var c, t := x[0], x[1..];
      ClashMeansNoStart(Prefix(r), x, 0, y);
      assert x[0..] == x == [c] + t;
      AllClashTail(r, x);
      PassOver(r, IsBoundary(c), t, y);
      AfterTail(b, c, t);
      Assoc([c], t, y);
      PassCopies(r, b, c, t + y);
      Assoc([c], t, Pass(r, After(b, x), y));
    }
  }

  lemma {:induction false} CleanOver(r: Rule, b: bool, x: string, y: string)
    requires AllClash(r, x)
    ensures Clean(r, b, x + y) <==> Clean(r, After(b, x), y)
    decreases |x|
  {
    if x == "" {
      assert x + y == y;
    } else {
      ClashMeansNoStart(Prefix(r), x, 0, y);
      assert x[0..] == x && (x + y)[1..] == x[1..] + y;
      AllClashTail(r, x);
      CleanOver(r, IsBoundary(x[0]), x[1..], y);
    }
  }

  lemma {:induction false} CleanSuffix(r: Rule, b: bool, x: string, y: string)
    requires Clean(r, b, x + y)
    ensures Clean(r, After(b, x), y)
    decreases |x|
  {
    if x == "" {
      assert x + y == y;
    } else {
      assert (x + y)[1..] == x[1..] + y;
      CleanSuffix(r, IsBoundary(x[0]), x[1..], y);
    }
  }

  /** Text that does not start like a key. */
  predicate Dull(u: string) { u == "" || IsBoundary(u[0]) }

  lemma DullHead(r: Rule, b: bool, c: bool, u: string)
    requires GoodKey(r.key) && Dull(u)
    ensures Pass(r, b, u) == Pass(r, c, u) && (Clean(r, b, u) <==> Clean(r, c, u))
    ensures u != "" ==> Pass(r, b, u) != "" && Pass(r, b, u)[0] == u[0]
    ensures u == "" ==> Pass(r, b, u) == ""
  {
  }

  // ------------------------------------------------------------------ one pass

  /** What a pass writes without an 'R' in it was there before: only REDACTED is new. */
  lemma {:induction false} PassAddsOnlyRedacted(r: Rule, b: bool, u: string, p: string)
    requires p <= Pass(r, b, u) && 'R' !in p
    ensures p <= u
    decreases |u|
  {
    if u == "" || p == "" {
    } else if Prefix(r) <= u {
      if b {
        StopsAtRedacted(r, u, p);
      } else if |p| > |Prefix(r)| {
        var p' := p[|Prefix(r)|..];
        assert p == Prefix(r) + p' && p' <= Pass(r, false, u[|Prefix(r)|..]);
        PassAddsOnlyRedacted(r, false, u[|Prefix(r)|..], p');
      }
    } else {
      assert p[1..] <= Pass(r, IsBoundary(u[0]), u[1..]);
      PassAddsOnlyRedacted(r, IsBoundary(u[0]), u[1..], p[1..]);
      assert p == [u[0]] + p[1..];
    }
  }

  lemma StopsAtRedacted(r: Rule, u: string, p: string)
    requires Prefix(r) <= u && p <= Pass(r, true, u) && 'R' !in p
    ensures p <= u
  {
    var w := u[|Prefix(r)|..];
    var head := Prefix(r) + w[..Skip(r, w)];
    assert Pass(r, true, u)[..|head|] == head && Pass(r, true, u)[|head|] == 'R';
    assert |p| <= |head|;
    assert head == u[..|head|];
  }

  /** The redacted entry at the head of clean text, split off. */
  lemma CleanEntry(r: Rule, u: string) returns (blanks: string, rest: string)
    requires Prefix(r) <= u && RedactedHead(r, u[|Prefix(r)|..])
    ensures u == Prefix(r) + blanks + REDACTED + rest && Blanks(r, blanks) && EndsHere(r, rest)
  {
    var w := u[|Prefix(r)|..];
    var t := w[Skip(r, w)..];
    blanks, rest := w[..Skip(r, w)], t[|REDACTED|..];
    SkipFacts(r, w);
    SplitAt(w, Skip(r, w));
    SplitPrefix(t, REDACTED);
    Assoc(blanks, REDACTED, rest);
    JoinFour(Prefix(r), blanks, REDACTED, rest);
    SplitPrefix(u, Prefix(r));
  }

  lemma EntryIsRedacted(r: Rule, blanks: string, rest: string)
    requires Blanks(r, blanks) && EndsHere(r, rest)
    ensures RedactedHead(r, blanks + REDACTED + rest)
  {
    Assoc(blanks, REDACTED, rest);
    SkipIs(r, blanks, REDACTED + rest);
    Halves(blanks, REDACTED + rest);
    Halves(REDACTED, rest);
  }

  lemma OwnEntryClashes(r: Rule, blanks: string)
    requires GoodKey(r.key) && Blanks(r, blanks)
    ensures AllClash(r, (Prefix(r) + blanks + REDACTED)[1..])
  {
    var x := Prefix(r) + blanks + REDACTED;
    forall i | 0 <= i < |x[1..]| ensures Clash(Prefix(r), x[1..], i) {
      EntryClashes(r, r, blanks, i + 1);
      var j :| 0 <= j < |Prefix(r)| && i + 1 + j < |x| && Prefix(r)[j] != x[i + 1 + j];
      ClashAt(Prefix(r), x[1..], i, j);
    }
  }

  lemma OwnEntryThenClean(r: Rule, b: bool, blanks: string, rest: string)
    requires GoodKey(r.key) && Blanks(r, blanks) && EndsHere(r, rest)
    ensures Clean(r, b, Prefix(r) + blanks + REDACTED + rest) <==> Clean(r, false, rest)
  {
    var x := Prefix(r) + blanks + REDACTED;
    OwnEntryClashes(r, blanks);
    CleanOver(r, IsBoundary(x[0]), x[1..], rest);
    assert (x + rest)[1..] == x[1..] + rest;
    assert (x + rest)[|Prefix(r)|..] == blanks + REDACTED + rest;
    EntryIsRedacted(r, blanks, rest);
  }

  /** A redacted entry followed by clean text is clean, for its own rule and for others. */
  lemma EntryThenClean(r: Rule, q: Rule, b: bool, blanks: string, rest: string)
    requires GoodKey(r.key) && GoodKey(q.key) && Apart(r.key, q.key)
    requires Blanks(q, blanks) && EndsHere(q, rest)
    ensures Clean(r, b, Prefix(q) + blanks + REDACTED + rest) <==> Clean(r, false, rest)
  {
    var x := Prefix(q) + blanks + REDACTED;
    if r == q {
      OwnEntryThenClean(r, b, blanks, rest);
    } else {
      forall i | 0 <= i < |x| ensures Clash(Prefix(r), x, i) {
        EntryClashes(r, q, blanks, i);
      }
      CleanOver(r, b, x, rest);
    }
  }

  lemma PrefixThenClean(r: Rule, q: Rule, b: bool, y: string)
    requires GoodKey(r.key) && GoodKey(q.key) && Apart(r.key, q.key) && (r != q || !b)
    ensures Clean(r, b, Prefix(q) + y) <==> Clean(r, false, y)
  {
    var x := Prefix(q);
    var t := x[1..];
    forall i | 0 <= i < |t| ensures Clash(Prefix(r), t, i) {
      PrefixesClash(r, q, i + 1);
      var j :| 0 <= j < |Prefix(r)| && i + 1 + j < |x| && Prefix(r)[j] != x[i + 1 + j];
      assert t[i + j] == x[i + 1 + j];
    }
    CleanOver(r, IsBoundary(x[0]), t, y);
    assert (x + y)[1..] == t + y;
    if b {
      PrefixesClash(r, q, 0);
      ClashMeansNoStart(Prefix(r), x, 0, y);
      assert x[0..] == x;
    }
  }

  lemma RestStaysAnEnd(r: Rule, q: Rule, rest: string)
    requires GoodKey(r.key) && EndsHere(q, rest)
    ensures EndsHere(q, Pass(r, false, rest))
  {
  }

  lemma CopyStaysClean(r: Rule, q: Rule, b: bool, u: string)
    requires GoodKey(q.key) && u != "" && !(Prefix(r) <= u) && !(b && Prefix(q) <= u)
    requires Clean(q, IsBoundary(u[0]), Pass(r, IsBoundary(u[0]), u[1..]))
    ensures Clean(q, b, Pass(r, b, u))
  {
    var out := Pass(r, b, u);
    assert out[0] == u[0] && out[1..] == Pass(r, IsBoundary(u[0]), u[1..]);
    if b && Prefix(q) <= out {
      PassAddsOnlyRedacted(r, b, u, Prefix(q));
      assert false;
    }
  }

  /** A pass leaves its own key clean. */
  lemma {:induction false} PassClean(r: Rule, b: bool, u: string)
    requires GoodKey(r.key)
    ensures Clean(r, b, Pass(r, b, u))
    decreases |u|
  {
    if u == "" {
    } else if Prefix(r) <= u {
      if b {
        var blanks, v, rest := Cut(r, u);
        PassClean(r, false, rest);
        RestStaysAnEnd(r, r, rest);
        EntryThenClean(r, r, b, blanks, Pass(r, false, rest));
      } else {
        PassClean(r, false, u[|Prefix(r)|..]);
        PrefixThenClean(r, r, b, Pass(r, false, u[|Prefix(r)|..]));
      }
    } else {
      PassClean(r, IsBoundary(u[0]), u[1..]);
      CopyStaysClean(r, r, b, u);
    }
  }

  /** Text that a pass leaves alone is exactly the clean text. */
  lemma {:induction false} CleanIsFixed(r: Rule, b: bool, u: string)
    requires GoodKey(r.key)
    ensures Clean(r, b, u) <==> Pass(r, b, u) == u
  {
    PassClean(r, b, u);
    if Clean(r, b, u) {
      CleanUnchanged(r, b, u);
    }
  }

  lemma CleanHead(r: Rule, u: string) returns (blanks: string, rest: string)
    requires GoodKey(r.key) && Clean(r, true, u) && Prefix(r) <= u
    ensures |rest| < |u| && Clean(r, false, rest) && u == Prefix(r) + blanks + REDACTED + rest
    ensures Pass(r, true, u) == Prefix(r) + blanks + REDACTED + Pass(r, false, rest)
  {
    blanks, rest := CleanEntry(r, u);
    EntryThenClean(r, r, true, blanks, rest);
    PassOnSecret(r, blanks, REDACTED, rest);
  }

  lemma {:induction false} CleanUnchanged(r: Rule, b: bool, u: string)
    requires GoodKey(r.key) && Clean(r, b, u)
    ensures Pass(r, b, u) == u
    decreases |u|
  {
    if u == "" {
    } else if Prefix(r) <= u {
      SplitPrefix(u, Prefix(r));
      if b {
        var blanks, rest := CleanHead(r, u);
        CleanUnchanged(r, false, rest);
      } else {
        PrefixThenClean(r, r, b, u[|Prefix(r)|..]);
        CleanUnchanged(r, false, u[|Prefix(r)|..]);
      }
    } else {
      CleanUnchanged(r, IsBoundary(u[0]), u[1..]);
    }
  }

  /** A pass leaves the other keys as clean as they were. */
  lemma {:induction false} PassKeepsClean(r: Rule, q: Rule, b: bool, u: string)
    requires GoodKey(r.key) && GoodKey(q.key) && Apart(r.key, q.key) && r != q && Clean(q, b, u)
    ensures Clean(q, b, Pass(r, b, u))
    decreases |u|
  {
    if u == "" {
    } else if Prefix(r) <= u {
      if b {
        var blanks, v, rest := Cut(r, u);
        CleanSuffix(q, b, Prefix(r) + blanks + v, rest);
        DullHead(q, After(b, Prefix(r) + blanks + v), false, rest);
        PassKeepsClean(r, q, false, rest);
        RestStaysAnEnd(r, r, rest);
        EntryThenClean(q, r, b, blanks, Pass(r, false, rest));
      } else {
        SplitPrefix(u, Prefix(r));
        PrefixThenClean(q, r, b, u[|Prefix(r)|..]);
        PassKeepsClean(r, q, false, u[|Prefix(r)|..]);
        PrefixThenClean(q, r, b, Pass(r, false, u[|Prefix(r)|..]));
      }
    } else if b && Prefix(q) <= u {
      var blanks, rest := CleanEntry(q, u);
      EntryThenClean(q, q, b, blanks, rest);
      PassKeepsClean(r, q, false, rest);
      RestStaysAnEnd(r, q, rest);
      EntryThenClean(q, q, b, blanks, Pass(r, false, rest));
      PassOverEntry(r, q, b, blanks, rest);
    } else {
      PassKeepsClean(r, q, IsBoundary(u[0]), u[1..]);
      CopyStaysClean(r, q, b, u);
    }
  }

  lemma PassOverEntry(r: Rule, q: Rule, b: bool, blanks: string, rest: string)
    requires GoodKey(r.key) && GoodKey(q.key) && Apart(r.key, q.key) && r != q
    requires AllBlank(blanks)
    ensures Pass(r, b, Prefix(q) + blanks + REDACTED + rest) == Prefix(q) + blanks + REDACTED + Pass(r, false, rest)
  {
    var x := Prefix(q) + blanks + REDACTED;
    forall i | 0 <= i < |x| ensures Clash(Prefix(r), x, i) {
      EntryClashes(r, q, blanks, i);
    }
    PassOver(r, b, x, rest);
  }

  // ------------------------------------------------------------------ all eight passes

  /** No two rules can disturb each other. */
  predicate Compatible(rs: seq<Rule>) {
    (forall i :: 0 <= i < |rs| ==> GoodKey(rs[i].key)) &&
    (forall i, j :: 0 <= i < j < |rs| ==> rs[i] != rs[j] && Apart(rs[i].key, rs[j].key))
  }

  lemma KeysAreGood()
    ensures GoodKey("X-Plex-Token") && GoodKey("accessToken") && GoodKey("PLEX_TOKEN") && GoodKey("token")
  {
  }

  lemma KeysAreApart()
    ensures Apart("X-Plex-Token", "accessToken") && Apart("X-Plex-Token", "PLEX_TOKEN") && Apart("X-Plex-Token", "token")
    ensures Apart("accessToken", "PLEX_TOKEN") && Apart("accessToken", "token") && Apart("PLEX_TOKEN", "token")
  {
  }

  lemma RuleAt(i: nat)
    requires i < |RULES|
    ensures RULES[i] == Rule(KEYS[i / 2], i % 2 == 1)
  {
  }

  lemma KeyPair(i: nat, j: nat)
    requires i <= j < |KEYS|
    ensures GoodKey(KEYS[j]) && Apart(KEYS[i], KEYS[j]) && (i < j ==> KEYS[i] != KEYS[j])
  {
    KeysAreGood();
    KeysAreApart();
  }

  lemma RulesAreCompatible()
    ensures Compatible(RULES)
  {
    forall i, j | 0 <= i <= j < |RULES|
      ensures GoodKey(RULES[i].key) && (i < j ==> RULES[i] != RULES[j] && Apart(RULES[i].key, RULES[j].key))
    {
      RuleAt(i);
      RuleAt(j);
      KeyPair(i / 2, i / 2);
      KeyPair(i / 2, j / 2);
    }
  }

  lemma WithoutSecond(q: Rule, rs: seq<Rule>)
    requires rs != [] && Compatible([q] + rs)
    ensures Compatible([q] + rs[1..])
  {
    var a, z := [q] + rs, [q] + rs[1..];
    forall i | 0 <= i < |z| ensures z[i] == a[if i == 0 then 0 else i + 1] {
    }
  }

  lemma {:induction false} PassesKeepClean(rs: seq<Rule>, q: Rule, s: string)
    requires Compatible([q] + rs) && Clean(q, true, s)
    ensures Clean(q, true, Passes(rs, s))
    decreases |rs|
  {
    if rs != [] {
      assert ([q] + rs)[0] == q && ([q] + rs)[1] == rs[0];
      PassKeepsClean(rs[0], q, true, s);
      WithoutSecond(q, rs);
      PassesKeepClean(rs[1..], q, Pass(rs[0], true, s));
    }
  }

  lemma {:induction false} PassesClean(rs: seq<Rule>, s: string, i: nat)
    requires Compatible(rs) && i < |rs|
    ensures Clean(rs[i], true, Passes(rs, s))
    decreases |rs|
  {
    var t := Pass(rs[0], true, s);
    if i == 0 {
      PassClean(rs[0], true, s);
      assert [rs[0]] + rs[1..] == rs;
      PassesKeepClean(rs[1..], rs[0], t);
    } else {
      PassesClean(rs[1..], t, i - 1);
    }
  }

  lemma {:induction false} PassesFix(rs: seq<Rule>, s: string)
    requires Compatible(rs) && forall i :: 0 <= i < |rs| ==> Clean(rs[i], true, s)
    ensures Passes(rs, s) == s
    decreases |rs|
  {
    if rs != [] {
      CleanIsFixed(rs[0], true, s);
      PassesFix(rs[1..], s);
    }
  }

  // ------------------------------------------------------------------ main results

  /** `r`'s prefix stands at `i`, at the start of the text or after a boundary. */
  predicate KeyAt(r: Rule, s: string, i: nat)
    requires i <= |s|
  {
    (i == 0 || IsBoundary(s[i - 1])) && Prefix(r) <= s[i..]
  }

  /** Clean, said of positions in the whole text. */
  ghost predicate Redacted(r: Rule, s: string) { RedactedFrom(r, s, 0) }

  ghost predicate RedactedFrom(r: Rule, s: string, i: nat) {
    forall j :: i <= j <= |s| ==> RedactedAt(r, s, j)
  }

  /** A key that stands at `i` is followed by REDACTED and an end. */
  predicate RedactedAt(r: Rule, s: string, i: nat)
    requires i <= |s|
  {
    KeyAt(r, s, i) ==> RedactedHead(r, s[i + |Prefix(r)|..])
  }

  lemma RedactedStep(r: Rule, s: string, i: nat)
    requires i < |s|
    ensures RedactedFrom(r, s, i) <==> RedactedAt(r, s, i) && RedactedFrom(r, s, i + 1)
  {
  }

  lemma RedactedAtEnd(r: Rule, s: string)
    ensures RedactedFrom(r, s, |s|)
  {
  }

  lemma CleanStep(r: Rule, s: string, i: nat, u: string, w: string)
    requires i < |s| && u == s[i..] && w == s[i + 1..]
    ensures Clean(r, i == 0 || IsBoundary(s[i - 1]), u) <==> RedactedAt(r, s, i) && Clean(r, IsBoundary(s[i]), w)
  {
    CleanUnfolds(r, i == 0 || IsBoundary(s[i - 1]), u);
    SuffixOfSuffix(s, i, 1);
    if Prefix(r) <= u {
      SuffixOfSuffix(s, i, |Prefix(r)|);
    }
  }

  lemma CleanUnfolds(r: Rule, b: bool, u: string)
    requires u != ""
    ensures Clean(r, b, u) <==>
            (b && Prefix(r) <= u ==> RedactedHead(r, u[|Prefix(r)|..])) && Clean(r, IsBoundary(u[0]), u[1..])
  {
  }

  lemma {:induction false} CleanFrom(r: Rule, s: string, i: nat)
    requires i <= |s|
    ensures Clean(r, i == 0 || IsBoundary(s[i - 1]), s[i..]) <==> RedactedFrom(r, s, i)
    decreases |s| - i
  {
    if i < |s| {
      CleanFrom(r, s, i + 1);
      RedactedStep(r, s, i);
      CleanStep(r, s, i, s[i..], s[i + 1..]);
    } else {
      RedactedAtEnd(r, s);
    }
  }

  lemma CleanIsRedacted(r: Rule, s: string)
    ensures Clean(r, true, s) <==> Redacted(r, s)
  {
    CleanFrom(r, s, 0);
    assert s[0..] == s;
  }

  /** After the eight passes every key at a boundary, in either form, is followed by REDACTED and an end. */
  lemma NothingLeaks(s: string, r: Rule)
    requires r in RULES
    ensures Redacted(r, Redact(s))
  {
    RulesAreCompatible();
    var i :| 0 <= i < |RULES| && RULES[i] == r;
    PassesClean(RULES, s, i);
    CleanIsRedacted(r, Redact(s));
  }

  /** Redaction changes a text exactly when some key in it is not yet redacted. */
  lemma UnchangedIffRedacted(s: string)
    ensures Redact(s) == s <==> forall r :: r in RULES ==> Redacted(r, s)
  {
    if Redact(s) == s {
      forall r | r in RULES ensures Redacted(r, s) {
        NothingLeaks(s, r);
      }
    }
    if forall r :: r in RULES ==> Redacted(r, s) {
      RulesAreCompatible();
      forall i | 0 <= i < |RULES| ensures Clean(RULES[i], true, s) {
        CleanIsRedacted(RULES[i], s);
      }
      PassesFix(RULES, s);
    }
  }

  lemma RedactIsIdempotent(s: string)
    ensures Redact(Redact(s)) == Redact(s)
  {
    forall r | r in RULES ensures Redacted(r, Redact(s)) {
      NothingLeaks(s, r);
    }
    UnchangedIffRedacted(Redact(s));
  }

  /** Byte-identical when no key stands at a boundary. */
  lemma NoKeyNoChange(s: string)
    requires forall r, i :: r in RULES && 0 <= i <= |s| ==> !KeyAt(r, s, i)
    ensures Redact(s) == s
  {
    UnchangedIffRedacted(s);
  }
}
