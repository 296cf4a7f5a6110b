/**
 Which secrets redaction hides: the output does not depend on the value, whatever
 text stands around it.
 */
module LogRedactSecrets {
  import opened LogRedact
  import opened LogRedactClean

  /** The text of one entry and what follows it. */
  function Entry(r: Rule, blanks: string, v: string, z: string): string { Prefix(r) + blanks + v + z }

  const QUERY := Rule("", false)

  // ------------------------------------------------------------------ a pass over a value

  lemma StartsBeforeEnd(q: Rule, x: string, z: string)
    requires GoodKey(q.key) && Dull(z)
    ensures Prefix(q) <= x + z <==> Prefix(q) <= x
  {
    assert z != "" ==> (x + z)[|x|] == z[0];
    if |Prefix(q)| <= |x| {
      CutFirst(x, z, |Prefix(q)|);
    }
  }

  /** A value before an end is cut the same with the end behind it. */
  lemma UnreadThenEnd(q: Rule, w: string, z: string)
    requires EndsHere(q, z)
    ensures (w + z)[..Skip(q, w + z)] == w[..Skip(q, w)] && Unread(q, w + z) == Unread(q, w) + z
  {
    var blanks, v, rest := CutValue(q, w);
    EndBeforeEnd(q, rest, z);
    Assoc(blanks + v, rest, z);
    CutIs(q, w + z, blanks, v, rest + z);
  }

  lemma EndBeforeEnd(q: Rule, rest: string, z: string)
    requires EndsHere(q, rest) && EndsHere(q, z)
    ensures EndsHere(q, rest + z)
  {
  }

  /** A pass works on the two sides of an end independently. */
  lemma {:induction false} PassThenEnd(q: Rule, b: bool, v: string, z: string)
    requires GoodKey(q.key) && EndsHere(q, z)
    ensures Pass(q, b, v + z) == Pass(q, b, v) + Pass(q, false, z)
    decreases |v|
  {
    StartsBeforeEnd(q, v, z);
    if v == "" {
      NoText(z);
      DullHead(q, b, false, z);
      NoText(Pass(q, false, z));
    } else if Prefix(q) <= v {
      var w := v[|Prefix(q)|..];
      SplitPrefix(v, Prefix(q));
      Assoc(Prefix(q), w, z);
      if b {
        PassThenEnd(q, false, Unread(q, w), z);
        UnreadThenEnd(q, w, z);
        PassRedactsAt(q, v + z, w + z, w[..Skip(q, w)], Unread(q, w) + z);
        PassRedactsAt(q, v, w, w[..Skip(q, w)], Unread(q, w));
        Assoc(Prefix(q) + w[..Skip(q, w)] + REDACTED, Pass(q, false, Unread(q, w)), Pass(q, false, z));
      } else {
        PassThenEnd(q, false, w, z);
        PassSkipsAt(q, v + z, w + z);
        PassSkipsAt(q, v, w);
        Assoc(Prefix(q), Pass(q, false, w), Pass(q, false, z));
      }
    } else {
      var c, w := v[0], v[1..];
      SplitPrefix(v, [c]);
      PassThenEnd(q, IsBoundary(c), w, z);
      Assoc([c], w, z);
      PassCopies(q, b, c, w + z);
      PassCopies(q, b, c, w);
      Assoc([c], Pass(q, IsBoundary(c), w), Pass(q, false, z));
    }
  }

  /** Pass `q` finds no key at a boundary in `u`. */
  predicate KeyFree(q: Rule, b: bool, u: string)
    decreases |u|
  {
    if u == "" then true
    else if Prefix(q) <= u then !b && KeyFree(q, false, u[|Prefix(q)|..])
    else KeyFree(q, IsBoundary(u[0]), u[1..])
  }

  /** A pass copies what it finds no key in. */
  lemma {:induction false} PassWithoutKey(q: Rule, b: bool, v: string, z: string)
    requires GoodKey(q.key) && KeyFree(q, b, v) && Dull(z)
    ensures Pass(q, b, v + z) == v + Pass(q, false, z)
    decreases |v|
  {
    StartsBeforeEnd(q, v, z);
    if v == "" {
      NoText(z);
      DullHead(q, b, false, z);
      NoText(Pass(q, false, z));
    } else if Prefix(q) <= v {
      var w := v[|Prefix(q)|..];
      SplitPrefix(v, Prefix(q));
      Assoc(Prefix(q), w, z);
      PassWithoutKey(q, false, w, z);
      PassSkipsAt(q, v + z, w + z);
      Assoc(Prefix(q), w, Pass(q, false, z));
    } else {
      var c, w := v[0], v[1..];
      SplitPrefix(v, [c]);
      PassWithoutKey(q, IsBoundary(c), w, z);
      Assoc([c], w, z);
      PassCopies(q, b, c, w + z);
      Assoc([c], w, Pass(q, false, z));
    }
  }

  lemma PassIsIdentity(q: Rule, b: bool, v: string)
    requires GoodKey(q.key) && KeyFree(q, b, v)
    ensures Pass(q, b, v) == v
  {
    PassWithoutKey(q, b, v, "");
    NoText(v);
  }

  /** A pass makes no characters but those of REDACTED. */
  lemma {:induction false} PassChars(q: Rule, b: bool, u: string, c: char)
    requires c in Pass(q, b, u)
    ensures c in u || c in REDACTED
    decreases |u|
  {
    if u == "" {
    } else if Prefix(q) <= u {
      if b {
        var blanks, v, rest := Cut(q, u);
        if c in Pass(q, false, rest) {
          PassChars(q, false, rest, c);
        }
      } else {
        var w := u[|Prefix(q)|..];
        SplitPrefix(u, Prefix(q));
        PassSkipsAt(q, u, w);
        if c in Pass(q, false, w) {
          PassChars(q, false, w, c);
        }
      }
    } else {
      SplitPrefix(u, [u[0]]);
      PassCopies(q, b, u[0], u[1..]);
      if c in Pass(q, IsBoundary(u[0]), u[1..]) {
        PassChars(q, IsBoundary(u[0]), u[1..], c);
      }
    }
  }

  lemma PassKeepsNoEnd(q: Rule, b: bool, v: string, r: Rule)
    requires NoEnd(r, v)
    ensures NoEnd(r, Pass(q, b, v))
  {
    var out := Pass(q, b, v);
    forall i | 0 <= i < |out| ensures !IsEnd(r, out[i]) {
      PassChars(q, b, v, out[i]);
    }
  }

  /** A pass keeps the first character. */
  lemma PassHead(q: Rule, b: bool, u: string)
    requires GoodKey(q.key)
    ensures Pass(q, b, u) == "" <==> u == ""
    ensures u != "" ==> Pass(q, b, u)[0] == u[0]
  {
    if u != "" && Prefix(q) <= u {
      assert Prefix(q)[0] == u[0];
    }
  }

  // ------------------------------------------------------------------ a pass over an entry

  lemma HeadClashes(q: Rule, r: Rule, blanks: string)
    requires GoodKey(q.key) && GoodKey(r.key) && Apart(q.key, r.key) && q != r && Blanks(r, blanks)
    ensures AllClash(q, Prefix(r) + blanks)
  {
    var x := Prefix(r) + blanks;
    forall i | 0 <= i < |x| ensures Clash(Prefix(q), x, i) {
      if i < |Prefix(r)| {
        PrefixesClash(q, r, i);
        var j :| 0 <= j < |Prefix(q)| && i + j < |Prefix(r)| && Prefix(q)[j] != Prefix(r)[i + j];
        assert x[i + j] == Prefix(r)[i + j];
      } else {
        assert Prefix(q)[0] == q.key[0] && Prefix(q)[0] != x[i];
      }
    }
  }

  /** What a pass for another key makes of the value. */
  function Passed(q: Rule, blanks: string, v: string): string { Pass(q, blanks != "", v) }

  /** A pass for another key turns an entry into an entry. */
  lemma PassOtherSecret(q: Rule, r: Rule, blanks: string, v: string, z: string)
    requires GoodKey(q.key) && GoodKey(r.key) && Apart(q.key, r.key) && q != r
    requires Blanks(r, blanks) && EndsHere(r, z) && (r.header || !q.header || KeyFree(q, false, v))
    ensures Pass(q, true, Entry(r, blanks, v, z)) == Entry(r, blanks, Passed(q, blanks, v), Pass(q, false, z))
  {
    var x := Prefix(r) + blanks;
    HeadClashes(q, r, blanks);
    PassOver(q, true, x, v + z);
    Assoc(x, v, z);
    AfterHead(r, blanks);
    if r.header || !q.header {
      PassThenEnd(q, blanks != "", v, z);
    } else {
      PassWithoutKey(q, false, v, z);
      PassIsIdentity(q, false, v);
    }
    Assoc(x, Passed(q, blanks, v), Pass(q, false, z));
  }

  lemma AfterHead(r: Rule, blanks: string)
    requires AllBlank(blanks)
    ensures After(true, Prefix(r) + blanks) <==> blanks != ""
  {
    var x := Prefix(r) + blanks;
    assert x[|x| - 1] == if blanks == "" then Separator(r) else blanks[|blanks| - 1];
  }

  // ------------------------------------------------------------------ the text before an entry

  /** What a pass makes of the text before an entry, and whether a value there runs on into the entry. */
  function Lead(q: Rule, b: bool, a: string): (string, bool)
    decreases |a|
  {
    if a == "" then ("", false)
    else if Prefix(q) <= a then
      var w := a[|Prefix(q)|..];
      if !b then Put(Prefix(q), Lead(q, false, w))
      else if Unread(q, w) == "" then (Prefix(q) + w[..Skip(q, w)] + REDACTED, true)
      else Put(Prefix(q) + w[..Skip(q, w)] + REDACTED, Lead(q, false, Unread(q, w)))
    else Put([a[0]], Lead(q, IsBoundary(a[0]), a[1..]))
  }

  function Put(front: string, lead: (string, bool)): (string, bool) { (front + lead.0, lead.1) }

  predicate EndsAtBoundary(a: string) { a == "" || IsBoundary(a[|a| - 1]) }

  /** Text that the next entry starts with: not a boundary, so neither a blank nor an end. */
  predicate Opens(y: string) { y != "" && !IsBoundary(y[0]) }

  lemma NoStraddle(q: Rule, a: string, y: string)
    requires GoodKey(q.key) && a != "" && EndsAtBoundary(a)
    ensures Prefix(q) <= a + y <==> Prefix(q) <= a
  {
    assert (a + y)[|a| - 1] == a[|a| - 1];
    if |Prefix(q)| <= |a| {
      CutFirst(a, y, |Prefix(q)|);
    }
  }

  /** A value in the text before: it ends there, or runs on into the entry. */
  lemma UnreadBefore(q: Rule, w: string, y: string)
    requires Opens(y)
    ensures (w + y)[..Skip(q, w + y)] == w[..Skip(q, w)]
    ensures Unread(q, w + y) == if Unread(q, w) == "" then AfterValue(q, y) else Unread(q, w) + y
  {
    var blanks, v, rest := CutValue(q, w);
    if rest != "" {
      assert (rest + y)[0] == rest[0];
      Assoc(blanks + v, rest, y);
      CutIs(q, w + y, blanks, v, rest + y);
    } else {
      var m := ValueLen(q, y);
      ValueFacts(q, y);
      NoText(blanks + v);
      SplitAt(y, m);
      var v' := v + y[..m];
      assert NoEnd(q, v');
      assert q.header && v' != "" ==> !IsBlank(v'[0]);
      RegroupValue(blanks, v, y, m);
      CutIs(q, w + y, blanks, v', y[m..]);
    }
  }

  lemma RegroupValue(blanks: string, v: string, y: string, m: nat)
    requires m <= |y|
    ensures blanks + v + y == blanks + (v + y[..m]) + y[m..]
  {
  }

  /** The pass over an entry, of which a running value may take the front. */
  function Remainder(q: Rule, runsOn: bool, y: string): string {
    if runsOn then Pass(q, false, AfterValue(q, y)) else Pass(q, true, y)
  }

  lemma PutThen(front: string, lead: (string, bool), y: string, q: Rule)
    ensures Put(front, lead).0 + Remainder(q, Put(front, lead).1, y) == front + (lead.0 + Remainder(q, lead.1, y))
  {
    Assoc(front, lead.0, Remainder(q, lead.1, y));
  }

  /** A pass over text and entry is `Lead` over the text, and then the pass over what is left. */
  lemma {:induction false} LeadPass(q: Rule, b: bool, a: string, y: string)
    requires GoodKey(q.key) && EndsAtBoundary(a) && (a == "" ==> b) && Opens(y)
    ensures var (out, runsOn) := Lead(q, b, a);
            Pass(q, b, a + y) == out + Remainder(q, runsOn, y)
    decreases |a|, 1
  {
    if a == "" {
      NoText(y);
      NoText(Pass(q, true, y));
    } else {
      NoStraddle(q, a, y);
      if Prefix(q) <= a {
        LeadPassKey(q, b, a, y);
      } else {
        var c, w := a[0], a[1..];
        SplitPrefix(a, [c]);
        LeadPass(q, IsBoundary(c), w, y);
        Assoc([c], w, y);
        PassCopies(q, b, c, w + y);
        PutThen([c], Lead(q, IsBoundary(c), w), y, q);
      }
    }
  }

  lemma {:induction false} LeadPassKey(q: Rule, b: bool, a: string, y: string)
    requires GoodKey(q.key) && EndsAtBoundary(a) && Opens(y) && Prefix(q) <= a
    ensures var (out, runsOn) := Lead(q, b, a);
            Pass(q, b, a + y) == out + Remainder(q, runsOn, y)
    decreases |a|, 0
  {
    var w := a[|Prefix(q)|..];
    SplitPrefix(a, Prefix(q));
    LastAfterPrefix(q, a);
    Assoc(Prefix(q), w, y);
    if b {
      var front := Prefix(q) + w[..Skip(q, w)] + REDACTED;
      UnreadBefore(q, w, y);
      PassRedactsAt(q, a + y, w + y, w[..Skip(q, w)], Unread(q, w + y));
      if Unread(q, w) != "" {
        UnreadEnd(q, w);
        LeadPass(q, false, Unread(q, w), y);
        PutThen(front, Lead(q, false, Unread(q, w)), y, q);
      }
    } else {
      LeadPass(q, false, w, y);
      PassSkipsAt(q, a + y, w + y);
      PutThen(Prefix(q), Lead(q, false, w), y, q);
    }
  }

  lemma LastAfterPrefix(q: Rule, a: string)
    requires EndsAtBoundary(a) && Prefix(q) <= a
    ensures var w := a[|Prefix(q)|..]; w != "" && w[|w| - 1] == a[|a| - 1]
  {
    assert a[|Prefix(q)| - 1] == Separator(q);
  }

  /** The last character stays last; if nothing is unread, it did not end the value. */
  lemma UnreadEnd(q: Rule, w: string)
    requires w != ""
    ensures var rest := Unread(q, w);
            if rest == "" then !IsEnd(q, w[|w| - 1]) else rest[|rest| - 1] == w[|w| - 1]
  {
    var blanks, v, rest := CutValue(q, w);
    if rest == "" {
      NoText(blanks + v);
      assert w[|w| - 1] == if v == "" then blanks[|blanks| - 1] else v[|v| - 1];
    }
  }

  /** `Lead` keeps the last character, unless a value runs on: then that character did not end it. */
  predicate LeadEndsLike(q: Rule, lead: (string, bool), a: string) {
    if lead.1 then a != "" && !IsEnd(q, a[|a| - 1])
    else if a == "" then lead.0 == ""
    else lead.0 != "" && lead.0[|lead.0| - 1] == a[|a| - 1]
  }

  lemma {:induction false} LeadEnd(q: Rule, b: bool, a: string)
    requires EndsAtBoundary(a)
    ensures LeadEndsLike(q, Lead(q, b, a), a)
    decreases |a|, 1
  {
    if a == "" {
    } else if Prefix(q) <= a {
      LeadEndKey(q, b, a);
    } else {
      LeadEnd(q, IsBoundary(a[0]), a[1..]);
      PutEnd(q, [a[0]], Lead(q, IsBoundary(a[0]), a[1..]), a[1..], a);
    }
  }

  lemma {:induction false} LeadEndKey(q: Rule, b: bool, a: string)
    requires EndsAtBoundary(a) && Prefix(q) <= a
    ensures LeadEndsLike(q, Lead(q, b, a), a)
    decreases |a|, 0
  {
    var w := a[|Prefix(q)|..];
    LastAfterPrefix(q, a);
    UnreadEnd(q, w);
    if !b {
      LeadEnd(q, false, w);
      PutEnd(q, Prefix(q), Lead(q, false, w), w, a);
    } else if Unread(q, w) != "" {
      LeadEnd(q, false, Unread(q, w));
      PutEnd(q, Prefix(q) + w[..Skip(q, w)] + REDACTED, Lead(q, false, Unread(q, w)), Unread(q, w), a);
    }
  }

  lemma PutEnd(q: Rule, front: string, lead: (string, bool), w: string, a: string)
    requires LeadEndsLike(q, lead, w) && a != ""
    requires if w == "" then front == a else w[|w| - 1] == a[|a| - 1]
    ensures LeadEndsLike(q, Put(front, lead), a)
  {
  }

  // ------------------------------------------------------------------ secrets do not show

  /** Before a header entry: nothing, or what ends a query value, so that no query value runs into it. */
  predicate Separated(a: string) { a == "" || IsEnd(QUERY, a[|a| - 1]) }

  /** No value of another key that runs on into the entry, or stands in it, stops short of its end. */
  predicate Whole(r: Rule, a: string, blanks: string, v: string) {
    IsValue(r, v) && (r.header && !Separated(a) ==> blanks == "" && NoEnd(QUERY, v))
  }

  /** No header pass before `r`'s own finds a key inside the query value `v`, as the passes before it leave it. */
  predicate Quiet(rs: seq<Rule>, r: Rule, v: string) {
    rs == [] || rs[0] == r ||
    ((rs[0].header ==> KeyFree(rs[0], false, v)) && Quiet(rs[1..], r, Pass(rs[0], false, v)))
  }

  /** What a caller can check of a secret: the rule, the text before, the blanks and the value. */
  predicate Shielded(rs: seq<Rule>, r: Rule, a: string, blanks: string, v: string) {
    Whole(r, a, blanks, v) && (!r.header ==> Quiet(rs, r, v))
  }

  lemma ValueStaysValue(q: Rule, r: Rule, a: string, blanks: string, v: string)
    requires GoodKey(q.key) && Whole(r, a, blanks, v)
    ensures Whole(r, a, blanks, Passed(q, blanks, v))
  {
    PassKeepsNoEnd(q, blanks != "", v, r);
    PassHead(q, blanks != "", v);
    if r.header && !Separated(a) {
      PassKeepsNoEnd(q, blanks != "", v, QUERY);
    }
  }

  /** A value that runs on into the entry swallows the secret with it. */
  lemma Swallowed(q: Rule, r: Rule, a: string, blanks: string, v: string, z: string)
    requires GoodKey(r.key) && Blanks(r, blanks) && Whole(r, a, blanks, v)
    requires a != "" && !IsEnd(q, a[|a| - 1])
    ensures AfterValue(q, Entry(r, blanks, v, z)) == AfterValue(q, z)
  {
    var x, m := Prefix(r) + blanks + v, ValueLen(q, z);
    EntryHasNoEnd(q, r, a, blanks, v);
    ValueFacts(q, z);
    SplitAt(z, m);
    assert NoEnd(q, x + z[..m]);
    ValueIs(q, x + z[..m], z[m..]);
    Assoc(x, z[..m], z[m..]);
  }

  lemma EntryHasNoEnd(q: Rule, r: Rule, a: string, blanks: string, v: string)
    requires GoodKey(r.key) && Blanks(r, blanks) && Whole(r, a, blanks, v)
    requires a != "" && !IsEnd(q, a[|a| - 1])
    ensures NoEnd(q, Prefix(r) + blanks + v)
  {
    assert NoEnd(q, Prefix(r));
    assert NoEnd(q, blanks);
    assert NoEnd(q, v);
  }

  /** A text with one secret in it, as a pass leaves it: the secret swallowed or redacted, or again such a text. */
  datatype Outcome = Gone(text: string) | Still(before: string, after: string)

  function OutcomeOf(q: Rule, r: Rule, a: string, blanks: string, z: string): Outcome {
    var (out, runsOn) := Lead(q, true, a);
    if runsOn then Gone(out + Pass(q, false, AfterValue(q, z)))
    else if q == r then Gone(out + Entry(r, blanks, REDACTED, Pass(q, false, z)))
    else Still(out, Pass(q, false, z))
  }

  /** One pass, on a text with a secret: what becomes of it does not depend on the secret. */
  lemma PassIsBlind(q: Rule, r: Rule, a: string, blanks: string, v: string, z: string)
    requires GoodKey(q.key) && GoodKey(r.key) && Apart(q.key, r.key) && EndsAtBoundary(a)
    requires Blanks(r, blanks) && EndsHere(r, z) && Whole(r, a, blanks, v)
    requires q != r && !r.header && q.header ==> KeyFree(q, false, v)
    ensures match OutcomeOf(q, r, a, blanks, z)
            case Gone(text) => Pass(q, true, a + Entry(r, blanks, v, z)) == text
            case Still(a', z') => Pass(q, true, a + Entry(r, blanks, v, z)) == a' + Entry(r, blanks, Passed(q, blanks, v), z')
  {
    EntryOpens(r, blanks, v, z);
    LeadPass(q, true, a, Entry(r, blanks, v, z));
    LeadEnd(q, true, a);
    if Lead(q, true, a).1 {
      Swallowed(q, r, a, blanks, v, z);
    } else if q == r {
      PassOnSecret(r, blanks, v, z);
    } else {
      PassOtherSecret(q, r, blanks, v, z);
    }
  }

  lemma EntryOpens(r: Rule, blanks: string, v: string, z: string)
    requires GoodKey(r.key)
    ensures Opens(Entry(r, blanks, v, z))
  {
    assert Entry(r, blanks, v, z)[0] == r.key[0];
  }

  /** The text before and after stay as they have to be. */
  lemma OutcomeKeeps(q: Rule, r: Rule, a: string, blanks: string, z: string)
    requires GoodKey(q.key) && EndsAtBoundary(a) && EndsHere(r, z)
    ensures match OutcomeOf(q, r, a, blanks, z)
            case Gone(_) => true
            case Still(a', z') => EndsAtBoundary(a') && (Separated(a') <==> Separated(a)) && EndsHere(r, z')
  {
    LeadEnd(q, true, a);
    RestStaysAnEnd(q, r, z);
  }

  lemma {:induction false} PassesAreBlind(rs: seq<Rule>, r: Rule, a: string, blanks: string, v1: string, v2: string, z: string)
    requires Compatible(rs) && r in rs && EndsAtBoundary(a) && Blanks(r, blanks) && EndsHere(r, z)
    requires Shielded(rs, r, a, blanks, v1) && Shielded(rs, r, a, blanks, v2)
    ensures Passes(rs, a + Entry(r, blanks, v1, z)) == Passes(rs, a + Entry(r, blanks, v2, z))
    decreases |rs|
  {
    var q := rs[0];
    InRules(rs, r);
    PassIsBlind(q, r, a, blanks, v1, z);
    PassIsBlind(q, r, a, blanks, v2, z);
    OutcomeKeeps(q, r, a, blanks, z);
    if OutcomeOf(q, r, a, blanks, z).Still? {
      var Still(a', z') := OutcomeOf(q, r, a, blanks, z);
      ValueStaysValue(q, r, a, blanks, v1);
      ValueStaysValue(q, r, a, blanks, v2);
      PassesAreBlind(rs[1..], r, a', blanks, Passed(q, blanks, v1), Passed(q, blanks, v2), z');
    }
  }

  lemma InRules(rs: seq<Rule>, r: Rule)
    requires Compatible(rs) && r in rs
    ensures GoodKey(r.key) && GoodKey(rs[0].key) && Apart(rs[0].key, r.key) && Compatible(rs[1..])
    ensures rs[0] != r ==> r in rs[1..]
  {
    var i :| 0 <= i < |rs| && rs[i] == r;
    if i > 0 {
      assert rs[1..][i - 1] == r;
    }
  }

  /** Two texts that differ only in one shielded secret redact to the same text. */
  lemma SecretsDoNotShow(r: Rule, a: string, blanks: string, v1: string, v2: string, z: string)
    requires r in RULES && EndsAtBoundary(a) && Blanks(r, blanks) && EndsHere(r, z)
    requires Shielded(RULES, r, a, blanks, v1) && Shielded(RULES, r, a, blanks, v2)
    ensures Redact(a + Entry(r, blanks, v1, z)) == Redact(a + Entry(r, blanks, v2, z))
  {
    RulesAreCompatible();
    PassesAreBlind(RULES, r, a, blanks, v1, v2, z);
  }

  // ------------------------------------------------------------------ what follows a redacted entry

  /** What the passes make of text after an entry that is redacted. */
  function Chain(rs: seq<Rule>, y: string): string {
    if rs == [] then y else Chain(rs[1..], Pass(rs[0], false, y))
  }

  lemma {:induction false} PassesAfterEntry(rs: seq<Rule>, q: Rule, y: string)
    requires GoodKey(q.key) && EndsHere(q, y)
    requires forall i :: 0 <= i < |rs| ==> GoodKey(rs[i].key) && Apart(rs[i].key, q.key)
    ensures Passes(rs, Entry(q, "", REDACTED, y)) == Entry(q, "", REDACTED, Chain(rs, y))
    decreases |rs|
  {
    if rs != [] {
      if rs[0] == q {
        PassOnSecret(q, "", REDACTED, y);
      } else {
        PassOverEntry(rs[0], q, true, "", y);
      }
      RestStaysAnEnd(rs[0], q, y);
      PassesAfterEntry(rs[1..], q, Pass(rs[0], false, y));
    }
  }

  lemma RulesAfterEntry(rs: seq<Rule>, i: nat, y: string)
    requires rs == RULES || rs == RULES[1..]
    requires i < |RULES| && EndsHere(RULES[i], y)
    ensures Passes(rs, Entry(RULES[i], "", REDACTED, y)) == Entry(RULES[i], "", REDACTED, Chain(rs, y))
  {
    RulesAreCompatible();
    forall j | 0 <= j < |rs| ensures GoodKey(rs[j].key) && Apart(rs[j].key, RULES[i].key) {
      assert rs[j] == if rs == RULES then RULES[j] else RULES[j + 1];
    }
    PassesAfterEntry(rs, RULES[i], y);
  }

  lemma PassBlanks(q: Rule, b: bool, x: string, t: string)
    requires GoodKey(q.key) && AllBlank(x)
    ensures Pass(q, b, x + t) == x + Pass(q, After(b, x), t)
  {
    forall i | 0 <= i < |x| ensures Clash(Prefix(q), x, i) {
      ClashAt(Prefix(q), x, i, 0);
    }
    PassOver(q, b, x, t);
  }

  /** Blanks stay, and something stays behind them exactly if something was there. */
  lemma {:induction false} ChainKeeps(rs: seq<Rule>, x: string, t: string) returns (t': string)
    requires AllBlank(x) && forall i :: 0 <= i < |rs| ==> GoodKey(rs[i].key)
    ensures Chain(rs, x + t) == x + t' && (t' == "" <==> t == "")
    decreases |rs|
  {
    t' := t;
    if rs != [] {
      PassBlanks(rs[0], false, x, t);
      PassHead(rs[0], After(false, x), t);
      t' := ChainKeeps(rs[1..], x, Pass(rs[0], After(false, x), t));
    }
  }

  // ------------------------------------------------------------------ header secrets

  /** A value of the first rule that runs on through `c` into a header entry stops at the first query end. */
  lemma RunsIntoHeader(c: char, r: Rule, u: string)
    requires r in RULES && IsBoundary(c) && !IsEnd(QUERY, c)
    ensures var q := RULES[0];
            Redact(Prefix(q) + [c] + (Prefix(r) + u)) == Entry(q, "", REDACTED, Chain(RULES, AfterValue(q, u)))
  {
    var q, m := RULES[0], ValueLen(RULES[0], u);
    var x, y := [c] + Prefix(r) + u[..m], AfterValue(q, u);
    RulesAreCompatible();
    InRules(RULES, r);
    ValueFacts(q, u);
    PrefixHasNoEnd(q, r);
    assert NoEnd(q, x);
    PassOnSecret(q, "", x, y);
    RegroupRun(Prefix(q), c, Prefix(r), u, m);
    RestStaysAnEnd(q, q, y);
    RulesAfterEntry(RULES[1..], 0, Pass(q, false, y));
  }

  lemma PrefixHasNoEnd(q: Rule, r: Rule)
    requires GoodKey(r.key)
    ensures NoEnd(q, Prefix(r))
  {
  }

  lemma RegroupRun(p: string, c: char, x: string, u: string, m: nat)
    requires m <= |u|
    ensures p + [c] + (x + u) == p + "" + ([c] + x + u[..m]) + u[m..]
  {
  }

  lemma FirstQueryEnd(v: string)
    requires !NoEnd(QUERY, v)
    ensures AfterValue(RULES[0], v) != ""
  {
    if AfterValue(RULES[0], v) == "" {
      ValueFacts(RULES[0], v);
      assert v[..ValueLen(RULES[0], v)] == v;
    }
  }

  /** What is left of the entry's text behind that value: its blanks, and some of the secret. */
  lemma LeftOver(blanks: string, v: string) returns (t: string)
    requires AllBlank(blanks) && v != "" && (blanks == "" ==> !NoEnd(QUERY, v))
    ensures AfterValue(RULES[0], blanks + v) == blanks + t && t != ""
    ensures AfterValue(RULES[0], blanks) == blanks
  {
    ValueIs(RULES[0], "", blanks);
    NoText(blanks);
    if blanks == "" {
      NoText(v);
      FirstQueryEnd(v);
      t := AfterValue(RULES[0], v);
      NoText(t);
    } else {
      assert (blanks + v)[0] == blanks[0];
      ValueIs(RULES[0], "", blanks + v);
      NoText(blanks + v);
      t := v;
    }
  }

  lemma HeaderSecretShows(c: char, r: Rule, blanks: string, v: string)
    requires r in RULES && IsBoundary(c) && !IsEnd(QUERY, c) && AllBlank(blanks)
    requires v != "" && (blanks == "" ==> !NoEnd(QUERY, v))
    ensures Redact(Prefix(RULES[0]) + [c] + Entry(r, blanks, v, "")) != Redact(Prefix(RULES[0]) + [c] + Entry(r, blanks, "", ""))
  {
    RulesAreCompatible();
    var t := LeftOver(blanks, v);
    RunsIntoHeader(c, r, blanks + v);
    RunsIntoHeader(c, r, blanks);
    EntryText(r, blanks, v);
    EntryText(r, blanks, "");
    NoText(blanks);
    var t' := ChainKeeps(RULES, blanks, t);
    var none := ChainKeeps(RULES, blanks, "");
    Longer(RULES[0], blanks + t', blanks + none);
  }

  lemma EntryText(r: Rule, blanks: string, v: string)
    ensures Entry(r, blanks, v, "") == Prefix(r) + (blanks + v)
  {
  }

  lemma Longer(q: Rule, x: string, y: string)
    requires |x| > |y|
    ensures Entry(q, "", REDACTED, x) != Entry(q, "", REDACTED, y)
  {
    assert |Entry(q, "", REDACTED, x)| > |Entry(q, "", REDACTED, y)|;
  }

  /**
   Which header secrets are hidden after a boundary `c`, whatever stands before and after: every value if `c`
   also ends a query value; else, behind no blanks, exactly the values without a query end.
   */
  lemma HeaderHiddenIff(c: char, r: Rule, blanks: string, v: string)
    requires r in RULES && r.header && IsBoundary(c) && Blanks(r, blanks) && IsValue(r, v)
    ensures (forall a, z :: EndsHere(r, z) ==>
               Redact(a + [c] + Entry(r, blanks, v, z)) == Redact(a + [c] + Entry(r, blanks, "", z)))
            <==> IsEnd(QUERY, c) || v == "" || (blanks == "" && NoEnd(QUERY, v))
  {
    if IsEnd(QUERY, c) || v == "" || (blanks == "" && NoEnd(QUERY, v)) {
      forall a, z | EndsHere(r, z)
        ensures Redact(a + [c] + Entry(r, blanks, v, z)) == Redact(a + [c] + Entry(r, blanks, "", z))
      {
        if v != "" {
          SecretsDoNotShow(r, a + [c], blanks, v, "", z);
        }
      }
    } else {
      HeaderSecretShows(c, r, blanks, v);
      assert EndsHere(r, "");
    }
  }

  // ------------------------------------------------------------------ query secrets

  /** A header key found inside takes everything to the end of the line, the '&' behind the value too. */
  lemma {:induction false} KeyEats(q: Rule, b: bool, v: string)
    requires GoodKey(q.key) && q.header && !KeyFree(q, b, v) && NoEnd(q, v) && '&' !in v
    ensures '&' !in Pass(q, b, v + "&")
    decreases |v|
  {
    StartsBeforeEnd(q, v, "&");
    if Prefix(q) <= v {
      var w := v[|Prefix(q)|..];
      SplitPrefix(v, Prefix(q));
      Assoc(Prefix(q), w, "&");
      if b {
        ToLineEnd(q, w + "&");
        PassRedactsAt(q, v + "&", w + "&", (w + "&")[..Skip(q, w + "&")], "");
        SkipFacts(q, w + "&");
      } else {
        KeyEats(q, false, w);
        PassSkipsAt(q, v + "&", w + "&");
      }
    } else {
      var c, w := v[0], v[1..];
      SplitPrefix(v, [c]);
      Assoc([c], w, "&");
      KeyEats(q, IsBoundary(c), w);
      PassCopies(q, b, c, w + "&");
    }
  }

  lemma ToLineEnd(q: Rule, w: string)
    requires NoEnd(q, w)
    ensures Unread(q, w) == ""
  {
    var t := w[Skip(q, w)..];
    assert NoEnd(q, t);
    ValueIs(q, t, "");
    NoText(t);
  }

  lemma {:induction false} PassesAddNoAmpersand(rs: seq<Rule>, s: string)
    requires '&' !in s
    ensures '&' !in Passes(rs, s)
    decreases |rs|
  {
    if rs != [] {
      if '&' in Pass(rs[0], true, s) {
        PassChars(rs[0], true, s, '&');
        assert false;
      }
      PassesAddNoAmpersand(rs[1..], Pass(rs[0], true, s));
    }
  }

  /** A value that is not quiet makes the '&' behind it disappear. */
  lemma {:induction false} LoudValueEats(rs: seq<Rule>, r: Rule, v: string)
    requires Compatible(rs) && r in rs && !r.header && IsValue(r, v) && !Quiet(rs, r, v)
    ensures '&' !in Passes(rs, Entry(r, "", v, "&"))
    decreases |rs|
  {
    var q := rs[0];
    InRules(rs, r);
    if q.header && !KeyFree(q, false, v) {
      HeadClashes(q, r, "");
      AfterHead(r, "");
      NoText(Prefix(r));
      PassOver(q, true, Prefix(r), v + "&");
      Assoc(Prefix(r), v, "&");
      assert NoEnd(q, v) && '&' !in v;
      KeyEats(q, false, v);
      PrefixHasNoEnd(QUERY, r);
      assert '&' !in Pass(q, true, Entry(r, "", v, "&"));
      PassesAddNoAmpersand(rs[1..], Pass(q, true, Entry(r, "", v, "&")));
    } else {
      PassOtherSecret(q, r, "", v, "&");
      AmpersandStays(q);
      PassKeepsNoEnd(q, false, v, r);
      LoudValueEats(rs[1..], r, Pass(q, false, v));
    }
  }

  lemma AmpersandStays(q: Rule)
    requires GoodKey(q.key)
    ensures Pass(q, false, "&") == "&"
  {
    assert !(Prefix(q) <= "&");
    assert "&"[1..] == "";
  }

  lemma {:induction false} ChainAmpersand(rs: seq<Rule>)
    requires forall i :: 0 <= i < |rs| ==> GoodKey(rs[i].key)
    ensures Chain(rs, "&") == "&"
    decreases |rs|
  {
    if rs != [] {
      AmpersandStays(rs[0]);
      ChainAmpersand(rs[1..]);
    }
  }

  /** Text without a boundary character. */
  predicate Plain(v: string) { forall i :: 0 <= i < |v| ==> !IsBoundary(v[i]) }

  lemma {:induction false} PlainIsKeyFree(q: Rule, v: string)
    requires Plain(v)
    ensures KeyFree(q, false, v)
    decreases |v|
  {
    if v != "" {
      PlainIsKeyFree(q, if Prefix(q) <= v then v[|Prefix(q)|..] else v[1..]);
    }
  }

  /** Every value without a boundary character is quiet, for every rule. */
  lemma {:induction false} PlainIsQuiet(rs: seq<Rule>, r: Rule, v: string)
    requires Plain(v) && forall i :: 0 <= i < |rs| ==> GoodKey(rs[i].key)
    ensures Quiet(rs, r, v)
    decreases |rs|
  {
    if rs != [] {
      PlainIsKeyFree(rs[0], v);
      PassIsIdentity(rs[0], false, v);
      PlainIsQuiet(rs[1..], r, v);
    }
  }

  /** The first rule runs before every header pass, so all its values are quiet. */
  lemma FirstRuleIsQuiet(v: string)
    ensures Quiet(RULES, RULES[0], v)
  {
  }

  /** An empty value and a redacted one come to the same. */
  lemma EmptyLikeRedacted(r: Rule, z: string)
    requires r in RULES && !r.header && EndsHere(r, z)
    ensures Redact(Entry(r, "", "", z)) == Redact(Entry(r, "", REDACTED, z))
  {
    RulesAreCompatible();
    PlainIsQuiet(RULES, r, "");
    PlainIsQuiet(RULES, r, REDACTED);
    SecretsDoNotShow(r, "", "", "", REDACTED, z);
    NoText(Entry(r, "", "", z));
    NoText(Entry(r, "", REDACTED, z));
  }

  lemma EmptyValueKeepsAmpersand(i: nat)
    requires i < |RULES| && !RULES[i].header
    ensures '&' in Redact(Entry(RULES[i], "", "", "&"))
  {
    EmptyLikeRedacted(RULES[i], "&");
    RulesAfterEntry(RULES, i, "&");
    RulesAreCompatible();
    ChainAmpersand(RULES);
    EndsInAmpersand(Prefix(RULES[i]) + "" + REDACTED);
  }

  lemma EndsInAmpersand(x: string)
    ensures '&' in x + "&"
  {
    assert (x + "&")[|x|] == '&';
  }

  /**
   Which query secrets are hidden in every context: exactly the quiet ones. A value that is not quiet hides a
   header key behind ';' or '?' that an earlier pass finds, and that pass takes the rest of the line.
   */
  lemma QueryHiddenIff(r: Rule, v: string)
    requires r in RULES && !r.header && IsValue(r, v)
    ensures (forall a, z :: EndsAtBoundary(a) && EndsHere(r, z) ==>
               Redact(a + Entry(r, "", v, z)) == Redact(a + Entry(r, "", "", z)))
            <==> Quiet(RULES, r, v)
  {
    RulesAreCompatible();
    if Quiet(RULES, r, v) {
      PlainIsQuiet(RULES, r, "");
      forall a, z | EndsAtBoundary(a) && EndsHere(r, z)
        ensures Redact(a + Entry(r, "", v, z)) == Redact(a + Entry(r, "", "", z))
      {
        SecretsDoNotShow(r, a, "", v, "", z);
      }
    } else {
      var i :| 0 <= i < |RULES| && RULES[i] == r;
      LoudValueEats(RULES, r, v);
      EmptyValueKeepsAmpersand(i);
      NoText(Entry(r, "", v, "&"));
      NoText(Entry(r, "", "", "&"));
      assert EndsAtBoundary("") && EndsHere(r, "&");
    }
  }
}
