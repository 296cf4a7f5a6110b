/**
 Command ids of the companion protocol (arm/misterplexd/companion.cpp): the
 comparison of decimal ids of any length, and the table of controllers.
 */
module CommandIds {
  import opened Division

  predicate IsDigit(c: char) { '0' <= c <= '9' }

  /** decimalCommandId */
  predicate Decimal(s: string) { s != "" && Digits(s) }

  predicate Digits(s: string) { forall i :: 0 <= i < |s| ==> IsDigit(s[i]) }

  /** The suffix from the first character that is not '0'. */
  function Strip(s: string): string {
    if s != "" && s[0] == '0' then Strip(s[1..]) else s
  }

  /** normalizedDecimal */
  function Normalized(s: string): string {
    if Strip(s) == "" then "0" else Strip(s)
  }

  /** operator>= on strings: lexicographic by character. */
  predicate LexGe(a: string, b: string) {
    b == "" || (a != "" && (a[0] > b[0] || (a[0] == b[0] && LexGe(a[1..], b[1..]))))
  }

  /** commandIsNewerOrEqual */
  predicate NewerOrEqual(candidate: string, current: string) {
    if current == "" || !Decimal(candidate) || !Decimal(current) then true
    else
      var left, right := Normalized(candidate), Normalized(current);
      if |left| != |right| then |left| > |right| else LexGe(left, right)
  }

  // ------------------------------------------------------------------ numbers

  function Pow10(n: nat): (p: nat)
    ensures p >= 1
  {
    if n == 0 then 1 else 10 * Pow10(n - 1)
  }

  function Digit(c: char): (d: nat)
    requires IsDigit(c)
    ensures d <= 9
  {
    c as int - '0' as int
  }

  /** The number a digit string denotes, most significant digit first. */
  function Value(s: string): (v: nat)
    requires Digits(s)
    ensures v < Pow10(|s|)
  {
    if s == "" then 0
    else
      Multiples(Digit(s[0]), 10, Pow10(|s| - 1));
      Product(Digit(s[0]), Pow10(|s| - 1));
      Digit(s[0]) * Pow10(|s| - 1) + Value(s[1..])
  }

  lemma {:induction false} StripKeepsValue(s: string)
    requires Digits(s)
    ensures Digits(Strip(s)) && Value(Strip(s)) == Value(s)
    ensures Strip(s) == "" || Strip(s)[0] != '0'
  {
    if s != "" && s[0] == '0' {
      StripKeepsValue(s[1..]);
    }
  }

  lemma NormalizedKeepsValue(s: string)
    requires Digits(s)
    ensures var n := Normalized(s); Digits(n) && Value(n) == Value(s) && n != "" && (n[0] != '0' || n == "0")
  {
    StripKeepsValue(s);
  }

  lemma {:induction false} Pow10Grows(m: nat, n: nat)
    requires m <= n
    ensures 1 <= Pow10(m) <= Pow10(n)
  {
    if m < n {
      Pow10Grows(m, n - 1);
    } else if m > 0 {
      Pow10Grows(m - 1, m - 1);
    }
  }

  lemma LeadingDigit(s: string)
    requires Digits(s) && s != "" && s[0] != '0'
    ensures Value(s) >= Pow10(|s| - 1)
  {
    Multiples(0, Digit(s[0]), Pow10(|s| - 1));
  }

  lemma LongerIsLarger(a: string, b: string)
    requires Digits(a) && Digits(b) && |a| > |b| && a[0] != '0'
    ensures Value(a) > Value(b)
  {
    LeadingDigit(a);
    Pow10Grows(|b|, |a| - 1);
    assert Value(b) < Pow10(|b|);
  }

  lemma FirstDigitDecides(a: string, b: string)
    requires Digits(a) && Digits(b) && |a| == |b| && a != "" && a[0] > b[0]
    ensures Value(a) > Value(b)
  {
    Multiples(Digit(b[0]), Digit(a[0]), Pow10(|a| - 1));
  }

  lemma {:induction false} LexIsNumeric(a: string, b: string)
    requires Digits(a) && Digits(b) && |a| == |b|
    ensures LexGe(a, b) <==> Value(a) >= Value(b)
  {
    if a == "" {
    } else if a[0] > b[0] {
      FirstDigitDecides(a, b);
    } else if a[0] < b[0] {
      FirstDigitDecides(b, a);
    } else {
      LexIsNumeric(a[1..], b[1..]);
    }
  }

  /** On decimal ids of any length, with any leading zeros, the comparison is the numeric one. */
  lemma ComparesNumerically(a: string, b: string)
    requires Decimal(a) && Decimal(b)
    ensures NewerOrEqual(a, b) <==> Value(a) >= Value(b)
  {
    NormalizedKeepsValue(a);
    NormalizedKeepsValue(b);
    var l, r := Normalized(a), Normalized(b);
    if |l| > |r| {
      LongerIsLarger(l, r);
    } else if |l| < |r| {
      LongerIsLarger(r, l);
    } else {
      LexIsNumeric(l, r);
    }
  }

  /** A decimal id is one or more of the ten digits, and appending a digit multiplies by ten and adds it. */
  lemma {:induction false} ValueIsDecimal(s: string, c: char)
    requires Digits(s) && c in "0123456789"
    ensures Decimal(s + [c]) && Value(s + [c]) == 10 * Value(s) + (c as int - '0' as int)
  {
    assert Digits(s + [c]);
    if s == "" {
      assert (s + [c])[1..] == "";
      assert Pow10(0) == 1;
    } else {
      assert (s + [c])[1..] == s[1..] + [c];
      ValueIsDecimal(s[1..], c);
      assert Pow10(|s|) == 10 * Pow10(|s| - 1);
      Tenfold(Digit(s[0]), Pow10(|s| - 1));
    }
  }

  lemma Tenfold(d: nat, p: nat)
    ensures d * (10 * p) == 10 * (d * p)
  {
  }

  lemma DecimalIff(s: string)
    ensures Decimal(s) <==> s != "" && forall i :: 0 <= i < |s| ==> s[i] in "0123456789"
  {
    forall c: char ensures IsDigit(c) <==> c in "0123456789" {
      DigitIff(c);
    }
  }

  lemma DigitIff(c: char)
    ensures IsDigit(c) <==> c in "0123456789"
  {
    assert c in "0123456789" <==> c in ['0', '1', '2', '3', '4', '5', '6', '7', '8', '9'];
  }

  // ------------------------------------------------------------------ the table

  datatype ControllerCommand = ControllerCommand(id: string, host: string, commandId: string)

  datatype Subscriber = Subscriber(id: string, host: string, commandId: string)

  const MAX_CONTROLLERS := 16

  /** Who sends: by id, or by host when the id is empty. */
  datatype Key = Id(id: string) | Host(host: string)

  function KeyOf(id: string, host: string): Key { if id != "" then Id(id) else Host(host) }

  /** std::find_if over the table; |cs| when there is none. */
  function IndexOf(cs: seq<ControllerCommand>, id: string, host: string): (i: nat)
    ensures i <= |cs|
    ensures i < |cs| ==> KeyOf(cs[i].id, cs[i].host) == KeyOf(id, host)
    ensures forall j :: 0 <= j < i ==> KeyOf(cs[j].id, cs[j].host) != KeyOf(id, host)
  {
    if cs == [] then 0
    else if (if id != "" then cs[0].id == id else cs[0].id == "" && cs[0].host == host) then 0
    else 1 + IndexOf(cs[1..], id, host)
  }

  function Keep(current: string, candidate: string): string {
    if NewerOrEqual(candidate, current) then candidate else current
  }

  function Update(cs: seq<ControllerCommand>, id: string, host: string, cmd: string): seq<ControllerCommand> {
    if cmd == "" then cs
    else
      var i := IndexOf(cs, id, host);
      if i < |cs| then cs[i := cs[i].(commandId := Keep(cs[i].commandId, cmd))]
      else (if |cs| >= MAX_CONTROLLERS then cs[1..] else cs) + [ControllerCommand(id, host, cmd)]
  }

  /** What a controller's requests are answered with; "0" when it has no entry. */
  function Stored(cs: seq<ControllerCommand>, id: string, host: string): string {
    var i := IndexOf(cs, id, host);
    if i < |cs| then cs[i].commandId else "0"
  }

  predicate Addressed(x: Subscriber, id: string, host: string) {
    if id != "" then x.id == id else x.host == host
  }

  class CommandTable {
    var controllers: seq<ControllerCommand>
    var subscribers: seq<Subscriber>

    constructor ()
      ensures controllers == [] && subscribers == []
    {
      controllers, subscribers := [], [];
    }

    /** updateTimelineCommand: every addressed subscriber gets the id the table now holds. */
    method UpdateTimelineCommand(id: string, host: string, cmd: string)
      modifies this
      ensures controllers == Update(old(controllers), id, host, cmd)
      ensures |subscribers| == |old(subscribers)|
      ensures forall k :: 0 <= k < |subscribers| ==>
                subscribers[k] == if cmd != "" && (if id != "" then old(subscribers)[k].id == id else old(subscribers)[k].host == host)
                                  then old(subscribers)[k].(commandId := Stored(controllers, id, host))
                                  else old(subscribers)[k]
    {
      if cmd == "" { return; }
      var i := IndexOf(controllers, id, host);
      var effective := cmd;
      if i < |controllers| {
        if NewerOrEqual(cmd, controllers[i].commandId) {
          controllers := controllers[i := controllers[i].(commandId := cmd)];
        }
        effective := controllers[i].commandId;
        UpdateFinds(old(controllers), id, host, cmd);
      } else {
        if |controllers| >= MAX_CONTROLLERS {
          controllers := controllers[1..];
        }
        controllers := controllers + [ControllerCommand(id, host, cmd)];
        UpdateFinds(old(controllers), id, host, cmd);
      }
      assert controllers == Update(old(controllers), id, host, cmd);
      var k := 0;
      while k < |subscribers|
        invariant 0 <= k <= |subscribers| == |old(subscribers)|
        invariant controllers == Update(old(controllers), id, host, cmd)
        invariant forall j :: k <= j < |subscribers| ==> subscribers[j] == old(subscribers)[j]
        invariant forall j :: 0 <= j < k ==>
                    subscribers[j] == if Addressed(old(subscribers)[j], id, host)
                                      then old(subscribers)[j].(commandId := effective)
                                      else old(subscribers)[j]
      {
        var x := subscribers[k];
        if (id != "" && x.id == id) || (id == "" && x.host == host) {
          subscribers := subscribers[k := x.(commandId := effective)];
        }
        k := k + 1;
      }
    }

    /** timelineCommandFor */
    method TimelineCommandFor(id: string, host: string, cmd: string) returns (answer: string)
      modifies this
      ensures controllers == Update(old(controllers), id, host, cmd)
      ensures answer == Stored(controllers, id, host)
    {
      UpdateTimelineCommand(id, host, cmd);
      var i := IndexOf(controllers, id, host);
      answer := if i == |controllers| then "0" else controllers[i].commandId;
    }
  }

  // ------------------------------------------------------------------ one update

  predicate Has(cs: seq<ControllerCommand>, key: Key) {
    exists i :: 0 <= i < |cs| && KeyOf(cs[i].id, cs[i].host) == key
  }

  /** One entry a controller, at most sixteen. */
  predicate TableOk(cs: seq<ControllerCommand>) {
    |cs| <= MAX_CONTROLLERS &&
    forall i, j :: 0 <= i < j < |cs| ==> KeyOf(cs[i].id, cs[i].host) != KeyOf(cs[j].id, cs[j].host)
  }

  lemma IndexIs(cs: seq<ControllerCommand>, i: nat, id: string, host: string)
    requires TableOk(cs) && i < |cs| && KeyOf(cs[i].id, cs[i].host) == KeyOf(id, host)
    ensures IndexOf(cs, id, host) == i
  {
  }

  /** After an update the sender's entry is found, and it holds the effective id. */
  lemma UpdateFinds(cs: seq<ControllerCommand>, id: string, host: string, cmd: string)
    requires cmd != ""
    ensures var i := IndexOf(cs, id, host);
            Stored(Update(cs, id, host, cmd), id, host) == if i < |cs| then Keep(cs[i].commandId, cmd) else cmd
  {
    var i := IndexOf(cs, id, host);
    var t := Update(cs, id, host, cmd);
    var j := IndexOf(t, id, host);
    if i < |cs| {
      assert KeyOf(t[i].id, t[i].host) == KeyOf(id, host);
      forall k | 0 <= k < i ensures KeyOf(t[k].id, t[k].host) != KeyOf(id, host) {
        assert t[k] == cs[k];
      }
    } else {
      var last := |t| - 1;
      assert t[last] == ControllerCommand(id, host, cmd);
      forall k | 0 <= k < last ensures KeyOf(t[k].id, t[k].host) != KeyOf(id, host) {
        assert t[k] == if |cs| >= MAX_CONTROLLERS then cs[k + 1] else cs[k];
      }
    }
  }

  /** An update drops an entry only when its sender is new and sixteen are there, and then only the oldest. */
  lemma UpdateDropsOnlyOldest(cs: seq<ControllerCommand>, id: string, host: string, cmd: string)
    requires TableOk(cs)
    ensures var t := Update(cs, id, host, cmd);
            if cmd == "" then t == cs
            else if Has(cs, KeyOf(id, host)) then
              && |t| == |cs|
              && (forall i :: 0 <= i < |cs| ==> t[i].id == cs[i].id && t[i].host == cs[i].host)
              && (forall i :: 0 <= i < |cs| && KeyOf(cs[i].id, cs[i].host) != KeyOf(id, host) ==> t[i] == cs[i])
            else t == (if |cs| == 16 then cs[1..] else cs) + [ControllerCommand(id, host, cmd)]
  {
    if Has(cs, KeyOf(id, host)) {
      FoundIfThere(cs, id, host);
    }
  }

  /** Two requests are one controller's exactly when they name the same id, or neither has one and their host is the same. */
  lemma SameControllerIff(id: string, host: string, id': string, host': string)
    ensures KeyOf(id, host) == KeyOf(id', host') <==> id == id' && (id != "" || host == host')
  {
  }

  /** A controller without an entry is answered with "0". */
  lemma UnknownIsZero(cs: seq<ControllerCommand>, id: string, host: string)
    requires !Has(cs, KeyOf(id, host))
    ensures Stored(cs, id, host) == "0"
  {
  }

  lemma UpdateKeepsTable(cs: seq<ControllerCommand>, id: string, host: string, cmd: string)
    requires TableOk(cs)
    ensures TableOk(Update(cs, id, host, cmd))
  {
  }

  /** An update for someone else leaves an entry as it is, unless it drops it. */
  lemma UpdateOther(cs: seq<ControllerCommand>, id: string, host: string, cmd: string, id': string, host': string)
    requires TableOk(cs) && KeyOf(id, host) != KeyOf(id', host')
    requires Has(Update(cs, id, host, cmd), KeyOf(id', host'))
    ensures Stored(Update(cs, id, host, cmd), id', host') == Stored(cs, id', host')
  {
    var t := Update(cs, id, host, cmd);
    UpdateKeepsTable(cs, id, host, cmd);
    var b :| 0 <= b < |t| && KeyOf(t[b].id, t[b].host) == KeyOf(id', host');
    IndexIs(t, b, id', host');
    var c := OtherEntry(cs, id, host, cmd, b);
    IndexIs(cs, c, id', host');
  }

  /** Where an entry of someone else stood before an update. */
  lemma OtherEntry(cs: seq<ControllerCommand>, id: string, host: string, cmd: string, b: nat) returns (c: nat)
    requires b < |Update(cs, id, host, cmd)|
    requires var t := Update(cs, id, host, cmd); KeyOf(t[b].id, t[b].host) != KeyOf(id, host)
    ensures c < |cs| && Update(cs, id, host, cmd)[b] == cs[c]
  {
    c := if cmd != "" && IndexOf(cs, id, host) == |cs| >= MAX_CONTROLLERS then b + 1 else b;
  }

  // ------------------------------------------------------------------ whole runs

  datatype Request = Request(id: string, host: string, cmd: string)

  function Run(cs: seq<ControllerCommand>, rs: seq<Request>): seq<ControllerCommand> {
    if rs == [] then cs
    else var r := rs[|rs| - 1]; Update(Run(cs, rs[..|rs| - 1]), r.id, r.host, r.cmd)
  }

  /** The ids that one controller sent in a run. */
  function Sent(rs: seq<Request>, key: Key): seq<string> {
    if rs == [] then []
    else
      var r := rs[|rs| - 1];
      Sent(rs[..|rs| - 1], key) + if r.cmd != "" && KeyOf(r.id, r.host) == key then [r.cmd] else []
  }

  /** The controller's entry is there at the start of a run and is never dropped in it. */
  ghost predicate Stays(cs: seq<ControllerCommand>, rs: seq<Request>, key: Key) {
    forall n :: 0 <= n <= |rs| ==> Has(Run(cs, rs[..n]), key)
  }

  lemma StaysBefore(cs: seq<ControllerCommand>, rs: seq<Request>, key: Key)
    requires rs != [] && Stays(cs, rs, key)
    ensures Stays(cs, rs[..|rs| - 1], key)
  {
    var fore := rs[..|rs| - 1];
    forall n | 0 <= n <= |fore| ensures Has(Run(cs, fore[..n]), key) {
      assert fore[..n] == rs[..n];
    }
  }

  lemma {:induction false} RunKeepsTable(cs: seq<ControllerCommand>, rs: seq<Request>)
    requires TableOk(cs)
    ensures TableOk(Run(cs, rs))
  {
    if rs != [] {
      var r := rs[|rs| - 1];
      RunKeepsTable(cs, rs[..|rs| - 1]);
      UpdateKeepsTable(Run(cs, rs[..|rs| - 1]), r.id, r.host, r.cmd);
    }
  }

  /** From the empty table on, after any requests: at most sixteen entries, no two of one controller. */
  lemma TableStaysSmall(rs: seq<Request>)
    ensures |Run([], rs)| <= 16
    ensures var t := Run([], rs);
            forall i, j :: 0 <= i < j < |t| ==> !(t[i].id == t[j].id && (t[i].id != "" || t[i].host == t[j].host))
  {
    RunKeepsTable([], rs);
    var t := Run([], rs);
    forall i, j | 0 <= i < j < |t| ensures !(t[i].id == t[j].id && (t[i].id != "" || t[i].host == t[j].host)) {
      SameControllerIff(t[i].id, t[i].host, t[j].id, t[j].host);
    }
  }

  lemma KnownUpdateKeeps(cs: seq<ControllerCommand>, r: Request, key: Key)
    requires TableOk(cs) && Has(cs, KeyOf(r.id, r.host))
    ensures Has(Update(cs, r.id, r.host, r.cmd), key) <==> Has(cs, key)
  {
    var t := Update(cs, r.id, r.host, r.cmd);
    UpdateDropsOnlyOldest(cs, r.id, r.host, r.cmd);
    assert |t| == |cs| && forall i :: 0 <= i < |cs| ==> KeyOf(t[i].id, t[i].host) == KeyOf(cs[i].id, cs[i].host);
  }

  /** While only controllers of the table send, nobody is dropped from it. */
  lemma {:induction false} KnownControllersStay(cs: seq<ControllerCommand>, rs: seq<Request>, key: Key)
    requires TableOk(cs) && Has(cs, key) && forall i :: 0 <= i < |rs| ==> Has(cs, KeyOf(rs[i].id, rs[i].host))
    ensures Stays(cs, rs, key)
  {
    forall n | 0 <= n <= |rs| ensures Has(Run(cs, rs[..n]), key) {
      KnownRunKeeps(cs, rs[..n], key);
    }
  }

  lemma {:induction false} KnownRunKeeps(cs: seq<ControllerCommand>, rs: seq<Request>, key: Key)
    requires TableOk(cs) && forall i :: 0 <= i < |rs| ==> Has(cs, KeyOf(rs[i].id, rs[i].host))
    ensures Has(Run(cs, rs), key) <==> Has(cs, key)
  {
    if rs != [] {
      var fore, r := rs[..|rs| - 1], rs[|rs| - 1];
      KnownRunKeeps(cs, fore, key);
      KnownRunKeeps(cs, fore, KeyOf(r.id, r.host));
      RunKeepsTable(cs, fore);
      KnownUpdateKeeps(Run(cs, fore), r, key);
    }
  }

  function Fold(current: string, cmds: seq<string>): string {
    if cmds == [] then current else Keep(Fold(current, cmds[..|cmds| - 1]), cmds[|cmds| - 1])
  }

  lemma SentNext(rs: seq<Request>, key: Key)
    requires rs != []
    ensures var fore, r := rs[..|rs| - 1], rs[|rs| - 1];
            Sent(rs, key) == if r.cmd != "" && KeyOf(r.id, r.host) == key then Sent(fore, key) + [r.cmd] else Sent(fore, key)
  {
  }

  lemma FoldNext(current: string, cmds: seq<string>, c: string)
    ensures Fold(current, cmds + [c]) == Keep(Fold(current, cmds), c)
  {
  }

  /** While an entry stays, only its own controller's requests matter. */
  lemma {:induction false} StoredIsFold(cs: seq<ControllerCommand>, rs: seq<Request>, id: string, host: string)
    requires TableOk(cs) && Stays(cs, rs, KeyOf(id, host))
    ensures Stored(Run(cs, rs), id, host) == Fold(Stored(cs, id, host), Sent(rs, KeyOf(id, host)))
  {
    if rs != [] {
      var fore, r, key := rs[..|rs| - 1], rs[|rs| - 1], KeyOf(id, host);
      var before := Run(cs, fore);
      StaysBefore(cs, rs, key);
      StoredIsFold(cs, fore, id, host);
      RunKeepsTable(cs, fore);
      assert Has(Run(cs, rs[..|fore|]), key) && Has(Run(cs, rs[..|rs|]), key);
      assert rs[..|rs|] == rs;
      StoredAfter(before, r, id, host);
      SentNext(rs, key);
      FoldNext(Stored(cs, id, host), Sent(fore, key), r.cmd);
    }
  }

  /** One request, seen from an entry that is there before and after. */
  lemma StoredAfter(cs: seq<ControllerCommand>, r: Request, id: string, host: string)
    requires TableOk(cs) && Has(cs, KeyOf(id, host)) && Has(Update(cs, r.id, r.host, r.cmd), KeyOf(id, host))
    ensures Stored(Update(cs, r.id, r.host, r.cmd), id, host)
            == if r.cmd != "" && KeyOf(r.id, r.host) == KeyOf(id, host) then Keep(Stored(cs, id, host), r.cmd)
               else Stored(cs, id, host)
  {
    if KeyOf(r.id, r.host) != KeyOf(id, host) {
      UpdateOther(cs, r.id, r.host, r.cmd, id, host);
    } else if r.cmd != "" {
      UpdateFinds(cs, r.id, r.host, r.cmd);
      SameKeySameEntry(cs, r.id, r.host, id, host);
      SameKeySameEntry(Update(cs, r.id, r.host, r.cmd), r.id, r.host, id, host);
      FoundIfThere(cs, id, host);
    }
  }

  lemma FoundIfThere(cs: seq<ControllerCommand>, id: string, host: string)
    requires Has(cs, KeyOf(id, host))
    ensures IndexOf(cs, id, host) < |cs|
  {
  }

  lemma {:induction false} SameKeySameEntry(cs: seq<ControllerCommand>, id: string, host: string, id': string, host': string)
    requires KeyOf(id, host) == KeyOf(id', host')
    ensures IndexOf(cs, id, host) == IndexOf(cs, id', host')
  {
  }

  predicate Decimals(cmds: seq<string>) { forall i :: 0 <= i < |cmds| ==> Decimal(cmds[i]) }

  /** The largest number among decimal ids. */
  function MaxValue(cmds: seq<string>): nat
    requires cmds != [] && Decimals(cmds)
  {
    assert Decimal(cmds[|cmds| - 1]);
    var last := Value(cmds[|cmds| - 1]);
    if |cmds| == 1 then last
    else var m := MaxValue(cmds[..|cmds| - 1]); if last >= m then last else m
  }

  /** The decimal ids after the last one that is not decimal. */
  function DecimalTail(cmds: seq<string>): (t: seq<string>)
    ensures |t| <= |cmds| && t == cmds[|cmds| - |t|..]
    ensures Decimals(t)
    ensures |t| < |cmds| ==> !Decimal(cmds[|cmds| - |t| - 1])
  {
    if cmds == [] || !Decimal(cmds[|cmds| - 1]) then []
    else DecimalTail(cmds[..|cmds| - 1]) + [cmds[|cmds| - 1]]
  }

  /** One more decimal id. */
  lemma KeepIsMax(s: string, all: seq<string>, last: string)
    requires all != [] && Decimal(last)
    requires var tail := DecimalTail(all);
             if tail == [] then s == all[|all| - 1] else Decimal(s) && Value(s) == MaxValue(tail)
    ensures Decimals(DecimalTail(all) + [last])
    ensures Decimal(Keep(s, last)) && Value(Keep(s, last)) == MaxValue(DecimalTail(all) + [last])
  {
    var tail := DecimalTail(all);
    MaxWith(tail, last);
    if tail != [] {
      ComparesNumerically(last, s);
    }
  }

  lemma MaxWith(tail: seq<string>, last: string)
    requires Decimals(tail) && Decimal(last)
    ensures Decimals(tail + [last])
    ensures MaxValue(tail + [last])
            == if tail == [] || Value(last) >= MaxValue(tail) then Value(last) else MaxValue(tail)
  {
    assert (tail + [last])[..|tail|] == tail && (tail + [last])[|tail|] == last;
  }

  lemma {:induction false} FoldIsMax(current: string, cmds: seq<string>)
    ensures var all := [current] + cmds;
            var tail := DecimalTail(all);
            var s := Fold(current, cmds);
            if tail == [] then s == all[|all| - 1] else Decimal(s) && Value(s) == MaxValue(tail)
  {
    var all := [current] + cmds;
    if cmds != [] {
      var fore, last := cmds[..|cmds| - 1], cmds[|cmds| - 1];
      assert all[..|all| - 1] == [current] + fore && all[|all| - 1] == last;
      FoldIsMax(current, fore);
      if Decimal(last) {
        KeepIsMax(Fold(current, fore), [current] + fore, last);
      }
    }
  }

  /**
   What a controller is answered with after any run in which its entry stays: the largest
   of its decimal ids since the last id that is not a decimal, or that id itself.
   */
  lemma AnswerIsLargestSinceNonDecimal(cs: seq<ControllerCommand>, rs: seq<Request>, id: string, host: string)
    requires TableOk(cs) && Stays(cs, rs, KeyOf(id, host))
    ensures var all := [Stored(cs, id, host)] + Sent(rs, KeyOf(id, host));
            var tail := DecimalTail(all);
            var s := Stored(Run(cs, rs), id, host);
            if tail == [] then s == all[|all| - 1] else Decimal(s) && Value(s) == MaxValue(tail)
  {
    StoredIsFold(cs, rs, id, host);
    FoldIsMax(Stored(cs, id, host), Sent(rs, KeyOf(id, host)));
  }

  lemma {:induction false} MaxBounds(cmds: seq<string>, i: nat)
    requires i < |cmds| && Decimals(cmds)
    ensures MaxValue(cmds) >= Value(cmds[i])
  {
    if i < |cmds| - 1 {
      MaxBounds(cmds[..|cmds| - 1], i);
    }
  }

  lemma {:induction false} AllDecimal(cmds: seq<string>)
    requires Decimals(cmds)
    ensures DecimalTail(cmds) == cmds
  {
  }

  lemma DecimalsJoin(first: string, sent: seq<string>)
    requires Decimal(first) && Decimals(sent)
    ensures Decimals([first] + sent)
  {
  }

  /** A controller that sends decimal ids only never sees its stored id go down. */
  lemma StoredNeverDecreases(cs: seq<ControllerCommand>, rs: seq<Request>, id: string, host: string)
    requires TableOk(cs) && Stays(cs, rs, KeyOf(id, host)) && Decimal(Stored(cs, id, host))
    requires Decimals(Sent(rs, KeyOf(id, host)))
    ensures var s := Stored(Run(cs, rs), id, host);
            var all := [Stored(cs, id, host)] + Sent(rs, KeyOf(id, host));
            Decimal(s) && Decimals(all) && Value(s) == MaxValue(all) >= Value(Stored(cs, id, host))
  {
    AnswerIsLargestSinceNonDecimal(cs, rs, id, host);
    var all := [Stored(cs, id, host)] + Sent(rs, KeyOf(id, host));
    DecimalsJoin(Stored(cs, id, host), Sent(rs, KeyOf(id, host)));
    AllDecimal(all);
    MaxBounds(all, 0);
  }

  /** Exactly the non-decimal ids can lower it: one that is accepted lets any later decimal in. */
  lemma LowersIffNonDecimal(c: string)
    requires c != ""
    ensures !Decimal(c) <==>
            exists a, b :: Decimal(a) && Decimal(b) && Decimal(Fold(a, [c, b])) && Value(Fold(a, [c, b])) < Value(a)
  {
    forall a, b ensures Fold(a, [c, b]) == Keep(Keep(a, c), b) {
      assert [c, b][..1] == [c] && [c][..0] == [];
      assert Fold(a, [c]) == Keep(Fold(a, []), c);
    }
    if !Decimal(c) {
      assert Value("3") == 3 && Value("5") == 5;
      assert Fold("5", [c, "3"]) == "3";
    } else {
      forall a, b | Decimal(a) && Decimal(b)
        ensures Decimal(Fold(a, [c, b])) && Value(Fold(a, [c, b])) >= Value(a)
      {
        ComparesNumerically(c, a);
        ComparesNumerically(b, Keep(a, c));
      }
    }
  }
}
