/**
 Redaction in plain characters (arm/misterplexd/log_redact.hpp): the four key names, the
 characters that may stand before a key and those that end a value, written out, and what
 the redacted text then is.
 */
module LogRedactText {
  import opened LogRedact
  import opened LogRedactClean
  import opened LogRedactSecrets

  // ------------------------------------------------------------------ the characters

  /** A key may follow this text. */
  predicate MayPrecede(a: string) { a == "" || a[|a| - 1] in {'&', '?', ' ', '\t', '\n', '\r', ';', '"', '\''} }

  /** A value may end here. */
  predicate ValueMayEnd(header: bool, rest: string) {
    rest == "" || rest[0] in (if header then {'\r', '\n'} else {'&', ' ', '\t', '\r', '\n', '"', '\''})
  }

  /** What follows the separator is hidden: REDACTED and then an end, after a header's kept blanks. */
  predicate Hidden(header: bool, x: string) {
    if header && x != "" && x[0] in {' ', '\t'} then Hidden(header, x[1..])
    else "REDACTED" <= x && ValueMayEnd(header, x[8..])
  }

  predicate IsKey(key: string) { key in {"X-Plex-Token", "accessToken", "PLEX_TOKEN", "token"} }

  /** `key`, with the separator of a query or a header, stands in `s` between `a` and `x`. */
  predicate Stands(s: string, a: string, key: string, header: bool, x: string) {
    s == a + key + (if header then ":" else "=") + x
  }

  /** Every key that stands in the text where a key may stand has its value hidden. */
  ghost predicate LooksRedacted(s: string) {
    forall a, key, header, x :: IsKey(key) && MayPrecede(a) && Stands(s, a, key, header, x) ==> Hidden(header, x)
  }

  lemma KeyIsRule(key: string, header: bool)
    ensures IsKey(key) <==> Rule(key, header) in RULES
  {
    assert IsKey(key) ==>
      Rule(key, header) in {RULES[0], RULES[1], RULES[2], RULES[3], RULES[4], RULES[5], RULES[6], RULES[7]};
  }

  lemma {:induction false} HiddenIs(r: Rule, w: string)
    ensures RedactedHead(r, w) <==> Hidden(r.header, w)
  {
    if r.header && w != "" && IsBlank(w[0]) {
      HiddenIs(r, w[1..]);
      assert w[Skip(r, w)..] == w[1..][Skip(r, w[1..])..];
    }
  }

  /** A key stands at a boundary position exactly as it stands between two texts. */
  lemma StandsIs(r: Rule, s: string, a: string, x: string)
    requires s == a + Prefix(r) + x
    ensures |a| <= |s| && (KeyAt(r, s, |a|) <==> MayPrecede(a)) && s[|a| + |Prefix(r)|..] == x
  {
    assert s[|a|..] == Prefix(r) + x;
    assert a != "" ==> s[|a| - 1] == a[|a| - 1];
  }

  lemma PrefixText(r: Rule, a: string, x: string)
    ensures Stands(a + Prefix(r) + x, a, r.key, r.header, x)
    ensures forall s :: Stands(s, a, r.key, r.header, x) ==> s == a + Prefix(r) + x
  {
    assert Prefix(r) == r.key + (if r.header then ":" else "=");
    Assoc(a, r.key, if r.header then ":" else "=");
  }

  lemma RedactedKeyIsHidden(s: string, a: string, key: string, header: bool, x: string)
    requires Redacted(Rule(key, header), s) && MayPrecede(a) && Stands(s, a, key, header, x)
    ensures Hidden(header, x)
  {
    var r := Rule(key, header);
    PrefixText(r, a, x);
    StandsIs(r, s, a, x);
    assert RedactedAt(r, s, |a|);
    HiddenIs(r, x);
  }

  /** The text around a key at position `i`. */
  lemma AroundKey(s: string, p: string, i: nat) returns (a: string, x: string)
    requires i <= |s| && p <= s[i..]
    ensures |a| == i && s == a + p + x
  {
    a, x := s[..i], s[i..][|p|..];
    SplitPrefix(s[i..], p);
    SplitAt(s, i);
    Assoc(a, p, x);
  }

  lemma HiddenKeyIsRedacted(s: string, r: Rule, i: nat)
    requires LooksRedacted(s) && r in RULES && i <= |s|
    ensures RedactedAt(r, s, i)
  {
    if KeyAt(r, s, i) {
      var a, x := AroundKey(s, Prefix(r), i);
      StandsIs(r, s, a, x);
      PrefixText(r, a, x);
      KeyIsRule(r.key, r.header);
      HiddenIs(r, x);
    }
  }

  lemma LooksRedactedIff(s: string)
    ensures LooksRedacted(s) <==> forall r :: r in RULES ==> Redacted(r, s)
  {
    if LooksRedacted(s) {
      forall r, i | r in RULES && 0 <= i <= |s| ensures RedactedAt(r, s, i) {
        HiddenKeyIsRedacted(s, r, i);
      }
    }
    if forall r :: r in RULES ==> Redacted(r, s) {
      forall a, key, header, x | IsKey(key) && MayPrecede(a) && Stands(s, a, key, header, x) ensures Hidden(header, x) {
        KeyIsRule(key, header);
        RedactedKeyIsHidden(s, a, key, header, x);
      }
    }
  }

  // ------------------------------------------------------------------ main results

  /** In every redacted text each of the four keys, at the start or behind one of the nine characters, is
      followed by REDACTED and one of the characters that end its value. */
  lemma OutputLooksRedacted(s: string)
    ensures LooksRedacted(Redact(s))
  {
    forall r | r in RULES ensures Redacted(r, Redact(s)) {
      NothingLeaks(s, r);
    }
    LooksRedactedIff(Redact(s));
  }

  /** Redaction leaves alone exactly the texts that look redacted; a key behind any other character does not count. */
  lemma UnchangedIffLooksRedacted(s: string)
    ensures Redact(s) == s <==> LooksRedacted(s)
  {
    UnchangedIffRedacted(s);
    LooksRedactedIff(s);
  }

  /** A shielded value in a text that otherwise looks redacted is replaced, and nothing else changes. */
  lemma ValueIsReplaced(r: Rule, a: string, blanks: string, v: string, z: string, t: string, t': string)
    requires r in RULES && EndsAtBoundary(a) && Blanks(r, blanks) && EndsHere(r, z)
    requires Shielded(RULES, r, a, blanks, v) && Shielded(RULES, r, a, blanks, REDACTED)
    requires t == a + Entry(r, blanks, v, z) && t' == a + Entry(r, blanks, REDACTED, z) && LooksRedacted(t')
    ensures Redact(t) == t'
  {
    SecretsDoNotShow(r, a, blanks, v, REDACTED, z);
    UnchangedIffLooksRedacted(t');
  }

  lemma {:induction false} NoColonIsKeyFree(q: Rule, b: bool, v: string)
    requires q.header && ':' !in v
    ensures KeyFree(q, b, v)
    decreases |v|
  {
    if v != "" {
      assert Prefix(q)[|q.key|] == ':';
      assert !(Prefix(q) <= v);
      NoColonIsKeyFree(q, IsBoundary(v[0]), v[1..]);
    }
  }

  /** No header key stands in a value without a colon. */
  lemma {:induction false} NoColonIsQuiet(rs: seq<Rule>, r: Rule, v: string)
    requires ':' !in v
    ensures Quiet(rs, r, v)
    decreases |rs|
  {
    if rs != [] {
      if rs[0].header {
        NoColonIsKeyFree(rs[0], false, v);
      }
      if ':' in Pass(rs[0], false, v) {
        PassChars(rs[0], false, v, ':');
        assert false;
      }
      NoColonIsQuiet(rs[1..], r, Pass(rs[0], false, v));
    }
  }

  /** A query value: nothing that ends it, and no header key behind a ';' or '?' in it. */
  predicate IsQueryValue(v: string) {
    && (forall i :: 0 <= i < |v| ==> v[i] !in {'&', ' ', '\t', '\r', '\n', '"', '\''})
    && (':' !in v || (';' !in v && '?' !in v))
  }

  lemma QueryShielded(key: string, a: string, v: string)
    requires IsKey(key) && IsQueryValue(v)
    ensures Shielded(RULES, Rule(key, false), a, "", v)
  {
    RulesAreCompatible();
    if ':' !in v {
      NoColonIsQuiet(RULES, Rule(key, false), v);
    } else {
      assert Plain(v);
      PlainIsQuiet(RULES, Rule(key, false), v);
    }
  }

  lemma EntryAround(a: string, r: Rule, sep: string, blanks: string, v: string, z: string)
    requires sep == [Separator(r)]
    ensures a + Entry(r, blanks, v, z) == a + r.key + sep + blanks + v + z
  {
  }

  lemma QueryAround(a: string, r: Rule, v: string, z: string)
    requires !r.header
    ensures a + Entry(r, "", v, z) == a + r.key + "=" + v + z
  {
    EntryAround(a, r, "=", "", v, z);
    NoText(a + r.key + "=");
  }

  /** In a text that otherwise looks redacted a query value is replaced and nothing else changes. */
  lemma QueryIsReplaced(a: string, key: string, v: string, z: string)
    requires IsKey(key) && MayPrecede(a) && ValueMayEnd(false, z) && IsQueryValue(v)
    requires LooksRedacted(a + key + "=REDACTED" + z)
    ensures Redact(a + key + "=" + v + z) == a + key + "=REDACTED" + z
  {
    var r := Rule(key, false);
    KeyIsRule(key, false);
    QueryShielded(key, a, v);
    QueryShielded(key, a, REDACTED);
    QueryAround(a, r, v, z);
    QueryAround(a, r, REDACTED, z);
    Assoc(a + key, "=", "REDACTED");
    assert "=" + "REDACTED" == "=REDACTED";
    ValueIsReplaced(r, a, "", v, z, a + key + "=" + v + z, a + key + "=REDACTED" + z);
  }

  // ------------------------------------------------------------------ texts with one key

  predicate NoSeparator(x: string) { '=' !in x && ':' !in x }

  lemma KeyChars(key: string)
    requires IsKey(key)
    ensures NoSeparator(key) && key != "" && forall i :: 0 <= i < |key| ==> !MayPrecede([key[i]])
  {
    KeysAreGood();
  }

  /** The only separator of a text is found wherever a key stands. */
  lemma SameSeparator(s: string, a: string, key: string, header: bool, x: string,
                      a2: string, key2: string, header2: bool, x2: string)
    requires NoSeparator(a + key) && NoSeparator(x) && NoSeparator(key2)
    requires Stands(s, a, key, header, x) && Stands(s, a2, key2, header2, x2)
    ensures header == header2 && x == x2 && a + key == a2 + key2
  {
    var n, n2 := |a + key|, |a2 + key2|;
    assert s[n] == (if header then ':' else '=') && s[n2] == (if header2 then ':' else '=');
    if n2 < n {
      assert false;
    } else if n2 > n {
      assert false;
    }
    assert s[..n] == a + key && s[..n] == a2 + key2;
    assert s[n + 1..] == x && s[n + 1..] == x2;
  }

  /** A text with one separator looks redacted if the key before it may not stand there or has its value hidden. */
  lemma OneKeyLooksRedacted(s: string, a: string, key: string, header: bool, x: string)
    requires IsKey(key) && NoSeparator(a) && NoSeparator(x) && Stands(s, a, key, header, x)
    requires MayPrecede(a) ==> Hidden(header, x)
    ensures LooksRedacted(s)
  {
    KeyChars(key);
    forall a2, key2, header2, x2 | IsKey(key2) && MayPrecede(a2) && Stands(s, a2, key2, header2, x2)
      ensures Hidden(header2, x2)
    {
      KeyChars(key2);
      SameSeparator(s, a, key, header, x, a2, key2, header2, x2);
      SameKey(a, key, a2, key2);
    }
  }

  /** No key ends another, so a text ends in one key at most. */
  lemma SameKey(a: string, key: string, a2: string, key2: string)
    requires IsKey(key) && IsKey(key2) && a + key == a2 + key2
    ensures a == a2
  {
    KeysAreApart();
    var t := a + key;
    assert t[|a|..] == key && t[|a2|..] == key2;
    assert |key| <= |key2| ==> IsSuffix(key, key2);
    assert |key2| <= |key| ==> IsSuffix(key2, key);
    assert a == t[..|a|] && a2 == t[..|a2|];
  }

  /** A key behind a character that no key may follow is left alone, and its value with it. */
  lemma KeyElsewhereStays(a: string, key: string, header: bool, x: string)
    requires IsKey(key) && NoSeparator(a) && NoSeparator(x) && !MayPrecede(a)
    ensures Redact(a + key + (if header then ":" else "=") + x) == a + key + (if header then ":" else "=") + x
  {
    var s := a + key + (if header then ":" else "=") + x;
    OneKeyLooksRedacted(s, a, key, header, x);
    UnchangedIffLooksRedacted(s);
  }

  /** One key and its value, in text without another separator: exactly the value is replaced. */
  lemma OneQuery(a: string, key: string, v: string, z: string)
    requires IsKey(key) && MayPrecede(a) && ValueMayEnd(false, z) && NoSeparator(a) && NoSeparator(z)
    requires IsQueryValue(v)
    ensures Redact(a + key + "=" + v + z) == a + key + "=REDACTED" + z
  {
    var t, x := a + key + "=REDACTED" + z, "REDACTED" + z;
    assert "=" + "REDACTED" == "=REDACTED";
    Assoc(a + key, "=", "REDACTED");
    Assoc(a + key + "=", "REDACTED", z);
    OneKeyLooksRedacted(t, a, key, false, x);
    QueryIsReplaced(a, key, v, z);
  }

  lemma {:induction false} LeadWithoutKey(q: Rule, b: bool, a: string)
    requires NoSeparator(a)
    ensures Lead(q, b, a) == (a, false)
    decreases |a|
  {
    if a != "" {
      assert Prefix(q)[|q.key|] == Separator(q);
      assert !(Prefix(q) <= a);
      LeadWithoutKey(q, IsBoundary(a[0]), a[1..]);
      assert a == [a[0]] + a[1..];
    }
  }

  lemma {:induction false} NoSeparatorIsKeyFree(q: Rule, b: bool, z: string)
    requires NoSeparator(z)
    ensures KeyFree(q, b, z)
    decreases |z|
  {
    if z != "" {
      assert Prefix(q)[|q.key|] == Separator(q);
      assert !(Prefix(q) <= z);
      NoSeparatorIsKeyFree(q, IsBoundary(z[0]), z[1..]);
    }
  }

  lemma PassBehind(q: Rule, a: string, y: string)
    requires GoodKey(q.key) && EndsAtBoundary(a) && NoSeparator(a) && Opens(y)
    ensures Pass(q, true, a + y) == a + Pass(q, true, y)
  {
    LeadPass(q, true, a, y);
    LeadWithoutKey(q, true, a);
  }

  lemma PassNothing(q: Rule, z: string)
    requires GoodKey(q.key) && NoSeparator(z)
    ensures Pass(q, false, z) == z
  {
    NoSeparatorIsKeyFree(q, false, z);
    PassIsIdentity(q, false, z);
  }

  /** A header's own pass, between texts without a separator, replaces the value. */
  lemma PassOnOwnHeader(r: Rule, a: string, blanks: string, v: string, z: string)
    requires GoodKey(r.key) && EndsAtBoundary(a) && NoSeparator(a) && NoSeparator(z)
    requires Blanks(r, blanks) && IsValue(r, v) && EndsHere(r, z)
    ensures Pass(r, true, a + Entry(r, blanks, v, z)) == a + Entry(r, blanks, REDACTED, z)
  {
    EntryOpens(r, blanks, v, z);
    PassBehind(r, a, Entry(r, blanks, v, z));
    PassOnSecret(r, blanks, v, z);
    PassNothing(r, z);
  }

  /** Another pass leaves a value of the same line. */
  lemma PassOnOtherHeader(q: Rule, r: Rule, a: string, blanks: string, v: string, z: string)
    requires GoodKey(q.key) && GoodKey(r.key) && Apart(q.key, r.key) && q != r && r.header && EndsAtBoundary(a)
    requires Blanks(r, blanks) && IsValue(r, v) && EndsHere(r, z) && NoSeparator(a) && NoSeparator(z)
    ensures Pass(q, true, a + Entry(r, blanks, v, z)) == a + Entry(r, blanks, Passed(q, blanks, v), z)
  {
    EntryOpens(r, blanks, v, z);
    PassBehind(q, a, Entry(r, blanks, v, z));
    PassOtherSecret(q, r, blanks, v, z);
    PassNothing(q, z);
  }

  lemma StaysValue(q: Rule, r: Rule, blanks: string, v: string)
    requires GoodKey(q.key) && IsValue(r, v)
    ensures IsValue(r, Passed(q, blanks, v))
  {
    PassKeepsNoEnd(q, blanks != "", v, r);
    PassHead(q, blanks != "", v);
  }

  lemma {:induction false} HeaderPasses(rs: seq<Rule>, r: Rule, a: string, blanks: string, v: string, w: string, z: string)
    requires Compatible(rs) && r in rs && r.header && EndsAtBoundary(a) && NoSeparator(a) && NoSeparator(z)
    requires Blanks(r, blanks) && IsValue(r, v) && IsValue(r, w) && EndsHere(r, z)
    ensures Passes(rs, a + Entry(r, blanks, v, z)) == Passes(rs, a + Entry(r, blanks, w, z))
    decreases |rs|
  {
    var q := rs[0];
    InRules(rs, r);
    if q == r {
      PassOnOwnHeader(r, a, blanks, v, z);
      PassOnOwnHeader(r, a, blanks, w, z);
    } else {
      PassOnOtherHeader(q, r, a, blanks, v, z);
      PassOnOtherHeader(q, r, a, blanks, w, z);
      StaysValue(q, r, blanks, v);
      StaysValue(q, r, blanks, w);
      HeaderPasses(rs[1..], r, a, blanks, Passed(q, blanks, v), Passed(q, blanks, w), z);
    }
  }

  lemma HeaderLooksRedacted(a: string, key: string, blanks: string, z: string, t: string)
    requires IsKey(key) && ValueMayEnd(true, z) && NoSeparator(a) && NoSeparator(z) && AllBlank(blanks)
    requires t == a + key + ":" + (blanks + "REDACTED" + z)
    ensures LooksRedacted(t)
  {
    EntryIsRedacted(Rule(key, true), blanks, z);
    HiddenIs(Rule(key, true), blanks + "REDACTED" + z);
    OneKeyLooksRedacted(t, a, key, true, blanks + "REDACTED" + z);
  }

  lemma HeaderIsReplaced(r: Rule, a: string, blanks: string, v: string, z: string, t: string, t': string)
    requires r in RULES && r.header && EndsAtBoundary(a) && NoSeparator(a) && NoSeparator(z)
    requires Blanks(r, blanks) && IsValue(r, v) && EndsHere(r, z)
    requires t == a + Entry(r, blanks, v, z) && t' == a + Entry(r, blanks, REDACTED, z) && LooksRedacted(t')
    ensures Redact(t) == t'
  {
    RulesAreCompatible();
    HeaderPasses(RULES, r, a, blanks, v, REDACTED, z);
    UnchangedIffLooksRedacted(t');
  }

  /** A header value in such a text is replaced up to the end of its line, and its leading blanks stay. */
  lemma OneHeader(a: string, key: string, blanks: string, v: string, z: string)
    requires IsKey(key) && MayPrecede(a) && ValueMayEnd(true, z) && NoSeparator(a) && NoSeparator(z)
    requires forall i :: 0 <= i < |blanks| ==> blanks[i] in {' ', '\t'}
    requires forall i :: 0 <= i < |v| ==> v[i] !in {'\r', '\n'}
    requires v == "" || v[0] !in {' ', '\t'}
    ensures Redact(a + key + ":" + blanks + v + z) == a + key + ":" + blanks + "REDACTED" + z
  {
    var r, t' := Rule(key, true), a + key + ":" + blanks + "REDACTED" + z;
    Regroup(a + key, ":", blanks, "REDACTED", z);
    HeaderLooksRedacted(a, key, blanks, z, t');
    KeyIsRule(key, true);
    EntryAround(a, r, ":", blanks, v, z);
    EntryAround(a, r, ":", blanks, "REDACTED", z);
    HeaderIsReplaced(r, a, blanks, v, z, a + key + ":" + blanks + v + z, t');
  }

  lemma Regroup(a: string, sep: string, blanks: string, v: string, z: string)
    ensures a + sep + blanks + v + z == a + sep + (blanks + v + z)
  {
  }
}
