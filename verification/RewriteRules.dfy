/** Rewrite rules and when two of them clash (internal/coredns/rewrite.go). */
module RewriteRules {
  import opened Options
  import opened Text
  import opened DnsNames

  datatype RewriteRule = RewriteRule(owner: string, from: string, to: string) {

    /** The first label of the source is an asterisk. */
    predicate FromIsWildcard() {
      Split(from, LABEL_SEPARATOR)[0] == "*"
    }

    predicate ToIsIpAddress() {
      ParsesAsIp(to)
    }

    predicate Matches(host: string) {
      if FromIsWildcard() then from != "" && HasSuffix(host, from[1..]) else host == from
    }
  }

  /* ---- IP addresses: dotted decimal, no leading zeros ---- */

  predicate IsDigit(c: char) {
    '0' <= c <= '9'
  }

  function DecimalValue(s: string): nat
    requires forall i | 0 <= i < |s| :: IsDigit(s[i])
  {
    if s == "" then 0
    else
      assert IsDigit(s[|s| - 1]);
      10 * DecimalValue(s[..|s| - 1]) + (s[|s| - 1] as int - '0' as int)
  }

  predicate IsOctet(s: string) {
    && 1 <= |s| <= 3
    && (forall i | 0 <= i < |s| :: IsDigit(s[i]))
    && (|s| > 1 ==> s[0] != '0')
    && DecimalValue(s) <= 255
  }

  /** `net.ParseIP(s) != nil`, for addresses of version 4. */
  predicate ParsesAsIp(s: string) {
    var octets := Split(s, '.');
    |octets| == 4 && forall i | 0 <= i < 4 :: IsOctet(octets[i])
  }

  /* ---- construction ---- */

  function NewRewriteRule(owner: string, from: string, to: string): Option<RewriteRule> {
    if !CheckDnsName(from, false, true) then None
    else if !ParsesAsIp(to) then
      if CheckDnsName(to, false, false) then Some(RewriteRule(owner, from, to)) else None
    else if Split(from, LABEL_SEPARATOR)[0] == "*" then None
    else Some(RewriteRule(owner, from, to))
  }

  /** The rule is one that `NewRewriteRule` can return. */
  predicate Accepted(r: RewriteRule) {
    NewRewriteRule(r.owner, r.from, r.to) == Some(r)
  }

  /** A name for which the source pattern of the custom resource allows a leading `*` as a whole label only. */
  predicate StarOnlyAsLabel(from: string) {
    from != "" && from[0] == '*' ==> Split(from, LABEL_SEPARATOR)[0] == "*"
  }

  lemma WildcardShape(r: RewriteRule)
    ensures r.FromIsWildcard() <==> r.from == "*" || (|r.from| >= 2 && r.from[..2] == "*.")
  {
    SplitFirst(r.from, LABEL_SEPARATOR);
    if |r.from| >= 2 && r.from[..2] == "*." {
      SplitHead("*", r.from[2..], LABEL_SEPARATOR);
      assert r.from == "*" + [LABEL_SEPARATOR] + r.from[2..];
    }
    SplitHead("*", "", LABEL_SEPARATOR);
  }

  /* ---- what an address is ---- */

  /** A number in decimal digits. */
  function Decimal(n: nat): string {
    if n < 10 then ["0123456789"[n]] else Decimal(n / 10) + ["0123456789"[n % 10]]
  }

  /** Four numbers from 0 to 255, separated by dots. */
  ghost predicate IsAddress(s: string) {
    exists a: nat, b: nat, c: nat, d: nat ::
      && a <= 255 && b <= 255 && c <= 255 && d <= 255
      && s == Decimal(a) + "." + Decimal(b) + "." + Decimal(c) + "." + Decimal(d)
  }

  lemma DigitOf(c: char)
    requires IsDigit(c)
    ensures 0 <= c as int - '0' as int < 10 && "0123456789"[c as int - '0' as int] == c
  {
  }

  lemma DigitAt(n: nat)
    requires n < 10
    ensures var c := "0123456789"[n]; IsDigit(c) && c as int - '0' as int == n
  {
  }

  lemma DecimalStep(n: nat, digit: nat)
    requires n > 0 && digit < 10
    ensures Decimal(10 * n + digit) == Decimal(n) + ["0123456789"[digit]]
  {
    assert (10 * n + digit) / 10 == n && (10 * n + digit) % 10 == digit;
  }

  /** Digits without leading zeros are the decimal form of their value. */
  lemma {:induction false} DecimalOfValue(s: string)
    requires s != "" && (forall i | 0 <= i < |s| :: IsDigit(s[i])) && (|s| > 1 ==> s[0] != '0')
    ensures Decimal(DecimalValue(s)) == s
    ensures s[0] != '0' ==> DecimalValue(s) > 0
    decreases |s|
  {
    hide IsDigit, Decimal;
    var init, last := s[..|s| - 1], s[|s| - 1];
    var digit := last as int - '0' as int;
    DigitOf(last);
    assert s == init + [last];
    if init == "" {
      OneDigit(last);
    } else {
      DecimalOfValue(init);
      DecimalStep(DecimalValue(init), digit);
    }
  }

  lemma OneDigit(c: char)
    requires IsDigit(c)
    ensures DecimalValue([c]) == c as int - '0' as int && Decimal(DecimalValue([c])) == [c]
  {
    DigitOf(c);
    assert [c][..0] == "" && DecimalValue([c][..0]) == 0;
  }

  lemma {:induction false} ValueOfDecimal(n: nat)
    ensures forall i | 0 <= i < |Decimal(n)| :: IsDigit(Decimal(n)[i])
    ensures Decimal(n) != "" && DecimalValue(Decimal(n)) == n
    ensures n > 0 ==> Decimal(n)[0] != '0'
  {
    var s := Decimal(n);
    var init, last := s[..|s| - 1], s[|s| - 1];
    if n < 10 {
      DigitAt(n);
      assert init == "" && DecimalValue(init) == 0;
    } else {
      ValueOfDecimal(n / 10);
      DigitAt(n % 10);
      assert init == Decimal(n / 10);
    }
  }

  lemma OctetIffDecimal(s: string)
    ensures IsOctet(s) <==> exists n: nat :: n <= 255 && s == Decimal(n)
  {
    if IsOctet(s) { DecimalOfValue(s); }
    if n: nat :| n <= 255 && s == Decimal(n) {
      ValueOfDecimal(n);
      if n >= 10 && n < 100 { assert |Decimal(n / 10)| == 1; }
      if n >= 100 { assert |Decimal(n / 100)| == 1 && |Decimal(n / 10)| == 2; }
    }
  }

  /** The address test accepts exactly four numbers from 0 to 255 in decimal form. */
  lemma AddressGrammar(s: string)
    ensures ParsesAsIp(s) <==> IsAddress(s)
  {
    if ParsesAsIp(s) { AddressParts(s); }
    if IsAddress(s) { AddressParses(s); }
  }

  lemma AddressParts(s: string)
    requires ParsesAsIp(s)
    ensures IsAddress(s)
  {
    hide IsOctet, Decimal, Split;
    var o := Split(s, '.');
    OctetIffDecimal(o[0]);
    OctetIffDecimal(o[1]);
    OctetIffDecimal(o[2]);
    OctetIffDecimal(o[3]);
    var a: nat :| a <= 255 && o[0] == Decimal(a);
    var b: nat :| b <= 255 && o[1] == Decimal(b);
    var c: nat :| c <= 255 && o[2] == Decimal(c);
    var d: nat :| d <= 255 && o[3] == Decimal(d);
    JoinFour(s);
  }

  lemma AddressParses(s: string)
    requires IsAddress(s)
    ensures ParsesAsIp(s)
  {
    hide IsOctet, Decimal, Split;
    var a: nat, b: nat, c: nat, d: nat :| && a <= 255 && b <= 255 && c <= 255 && d <= 255
      && s == Decimal(a) + "." + Decimal(b) + "." + Decimal(c) + "." + Decimal(d);
    DecimalHasNoDot(a);
    DecimalHasNoDot(b);
    DecimalHasNoDot(c);
    DecimalHasNoDot(d);
    SplitFour(Decimal(a), Decimal(b), Decimal(c), Decimal(d));
    OctetIffDecimal(Decimal(a));
    OctetIffDecimal(Decimal(b));
    OctetIffDecimal(Decimal(c));
    OctetIffDecimal(Decimal(d));
  }

  lemma DecimalHasNoDot(n: nat)
    ensures '.' !in Decimal(n)
  {
    ValueOfDecimal(n);
    assert !IsDigit('.');
  }

  lemma DotInside(p: string, a: string, rest: string)
    ensures p + a + "." + rest == p + (a + "." + rest)
  {
  }

  lemma Regroup(a: string, b: string, c: string, d: string)
    ensures a + "." + b + "." + c + "." + d == a + "." + (b + "." + (c + "." + d))
  {
    DotInside(a + "." + b + ".", c, d);
    DotInside(a + ".", b, c + "." + d);
  }

  lemma SplitFour(a: string, b: string, c: string, d: string)
    requires '.' !in a && '.' !in b && '.' !in c && '.' !in d
    ensures Split(a + "." + b + "." + c + "." + d, '.') == [a, b, c, d]
  {
    hide Split;
    Regroup(a, b, c, d);
    SplitHead(a, b + "." + (c + "." + d), '.');
    SplitHead(b, c + "." + d, '.');
    SplitHead(c, d, '.');
    SplitHead(d, "", '.');
  }

  lemma JoinFour(s: string)
    requires |Split(s, '.')| == 4
    ensures var o := Split(s, '.'); s == o[0] + "." + o[1] + "." + o[2] + "." + o[3]
  {
    hide Split;
    var o := Split(s, '.');
    var s1 := SplitOff(s);
    var s2 := SplitOff(s1);
    var s3 := SplitOff(s2);
    SplitFirst(s3, '.');
    Regroup(o[0], o[1], o[2], o[3]);
  }

  lemma SplitOff(s: string) returns (rest: string)
    requires |Split(s, '.')| > 1
    ensures s == Split(s, '.')[0] + "." + rest && Split(rest, '.') == Split(s, '.')[1..]
  {
    hide Split;
    SplitFirst(s, '.');
    rest := s[|Split(s, '.')[0]| + 1..];
  }

  /** When a rule can be constructed: the source passes the check, and the target is an address, for which the first
      label of the source must not be an asterisk, or a name without an asterisk. */
  lemma ConstructedIff(owner: string, from: string, to: string)
    ensures NewRewriteRule(owner, from, to).Some?
            <==> && CheckDnsName(from, false, true)
                 && if IsAddress(to) then from != "*" && !("*." <= from) else CheckDnsName(to, false, false)
    ensures NewRewriteRule(owner, from, to).Some? ==>
              NewRewriteRule(owner, from, to).value == RewriteRule(owner, from, to)
  {
    hide CheckDnsName, ParsesAsIp, IsAddress;
    AddressGrammar(to);
    WildcardShape(RewriteRule(owner, from, to));
  }

  lemma IpChars(s: string)
    requires ParsesAsIp(s)
    ensures s != "" && NoSpace(s)
  {
    var octets := Split(s, '.');
    assert IsOctet(octets[0]) && IsOctet(octets[3]);
    assert s != "";
    IpPartChars(s);
  }

  lemma IpStartsWithDigit(s: string)
    requires ParsesAsIp(s)
    ensures s != "" && IsDigit(s[0])
  {
    var octet := Split(s, '.')[0];
    assert IsOctet(octet);
    SplitFirst(s, '.');
    assert IsDigit(octet[0]) && s[0] == octet[0];
  }

  lemma {:induction false} IpPartChars(s: string)
    requires forall i | 0 <= i < |Split(s, '.')| :: IsOctet(Split(s, '.')[i])
    ensures NoSpace(s)
    decreases |s|
  {
    SplitFirst(s, '.');
    var part := Split(s, '.')[0];
    assert IsOctet(part);
    if s != part {
      var rest := s[|part| + 1..];
      assert Split(rest, '.') == Split(s, '.')[1..];
      IpPartChars(rest);
      forall i | 0 <= i < |s| ensures !IsSpace(s[i]) {
        if i < |part| { assert s[i] == part[i]; }
        if i > |part| { assert s[i] == rest[i - |part| - 1]; }
      }
    }
  }

  /** Source and target of an accepted rule are non-empty and free of whitespace; only the first character of
      the source may be an asterisk. */
  lemma AcceptedChars(r: RewriteRule)
    requires Accepted(r)
    ensures r.from != "" && r.to != "" && NoSpace(r.from) && NoSpace(r.to)
    ensures forall i | 0 <= i < |r.from| :: IsNameChar(r.from[i]) || (i == 0 && r.from[i] == '*')
  {
    AcceptedNameChars(r.from, true);
    if r.ToIsIpAddress() { IpChars(r.to); } else { AcceptedNameChars(r.to, false); }
  }

  /** A rule matches the names that end like its source behind a leading asterisk label, or its source alone. */
  lemma MatchedNames(r: RewriteRule, host: string)
    ensures r.Matches(host)
            <==> if r.from == "*" || "*." <= r.from then exists first: string :: host == first + r.from[1..]
                 else host == r.from
  {
    WildcardShape(r);
    if r.from != "" && HasSuffix(host, r.from[1..]) {
      var first := host[..|host| - |r.from[1..]|];
      assert host == first + r.from[1..];
    }
  }

  /* ---- clashes ---- */

  /** The syntactic test by which `AddRule` compares a new rule with the rules of other owners. */
  predicate Clash(t: RewriteRule, r: RewriteRule) {
    t.Matches(r.from) || r.Matches(t.from)
  }

  lemma ClashSymmetric(t: RewriteRule, r: RewriteRule)
    ensures Clash(t, r) <==> Clash(r, t)
  {
  }

  lemma SuffixChain(host: string, a: string, b: string)
    requires HasSuffix(host, a) && HasSuffix(host, b) && |a| <= |b|
    ensures HasSuffix(b, a)
  {
    assert b == host[|host| - |b|..];
    assert b[|b| - |a|..] == host[|host| - |a|..];
  }

  lemma MatchesOwnSource(r: RewriteRule)
    ensures r.Matches(r.from)
  {
  }

  /** The test is sound and complete: it fires exactly when some string is matched by both rules. */
  lemma ClashIffCommonName(t: RewriteRule, r: RewriteRule)
    ensures Clash(t, r) <==> exists host :: t.Matches(host) && r.Matches(host)
  {
    MatchesOwnSource(t);
    MatchesOwnSource(r);
    if host :| t.Matches(host) && r.Matches(host) {
      CommonNameClashes(t, r, host);
    }
  }

  lemma CommonNameClashes(t: RewriteRule, r: RewriteRule, host: string)
    requires t.Matches(host) && r.Matches(host)
    ensures Clash(t, r)
  {
    if t.FromIsWildcard() && r.FromIsWildcard() {
      var a, b := t.from[1..], r.from[1..];
      if |a| <= |b| {
        SuffixChain(host, a, b);
        assert r.from[|r.from| - |a|..] == b[|b| - |a|..];
      } else {
        SuffixChain(host, b, a);
        assert t.from[|t.from| - |b|..] == a[|a| - |b|..];
      }
    }
  }

  /* ---- the name that is looked up to see whether a rule is active ---- */

  /** `^\*(.*)$` replaced by `wildcard$1` in the source of the rule. */
  function ProbeName(r: RewriteRule): string {
    ReplaceLeadingStar(r.from)
  }

  /** The probe of an accepted rule is a concrete DNS name. The rule matches it exactly when a leading `*` of
      its source is a label of its own, as the schema of the custom resource demands. */
  lemma ProbeIsConcreteAndMatched(r: RewriteRule)
    requires Accepted(r)
    ensures r.from != ""
    ensures ProbeName(r) == if r.from[0] == '*' then "wildcard" + r.from[1..] else r.from
    ensures CheckDnsName(ProbeName(r), false, false)
    ensures r.Matches(ProbeName(r)) <==> StarOnlyAsLabel(r.from)
  {
    AcceptedChars(r);
    WildcardShape(r);
    if r.from[0] == '*' {
      var rest := r.from[1..];
      WildcardProbe(r);
      assert ProbeName(r)[0] == 'w';
      assert ProbeName(r)[|ProbeName(r)| - |rest|..] == rest;
    }
  }

  /** A source that the check accepts and the schema does not: the probe is a name that the rule does not match. */
  lemma StarInsideLabelIsMissed()
    ensures var r := RewriteRule("owner", "*a", "b");
            Accepted(r) && !StarOnlyAsLabel(r.from) && !r.Matches(ProbeName(r))
  {
    hide CheckDnsName, Accepted;
    var r := RewriteRule("owner", "*a", "b");
    var name := "wildcarda";
    assert ReplaceLeadingStar("*a") == name;
    OneLabelName(name);
    OneLabelName("b");
    NameGrammar("*a", false);
    SplitHead("*a", "", LABEL_SEPARATOR);
    AcceptedNameToName(r);
    ProbeIsConcreteAndMatched(r);
  }

  lemma OneLabelName(name: string)
    requires 1 <= |name| <= 63 && forall i | 0 <= i < |name| :: 'a' <= name[i] <= 'z'
    ensures CheckDnsName(name, false, false) && !ParsesAsIp(name)
  {
    hide CheckDnsName;
    assert LABEL_SEPARATOR !in name;
    SplitHead(name, "", LABEL_SEPARATOR);
    NameGrammar(name, false);
    assert ValidLabel(name, false);
  }

  lemma AcceptedNameToName(r: RewriteRule)
    requires CheckDnsName(r.from, false, true) && CheckDnsName(r.to, false, false) && !ParsesAsIp(r.to)
    ensures Accepted(r)
  {
    hide CheckDnsName, ParsesAsIp;
  }

  /** For sources that the schema allows, the test fires exactly when some DNS name is matched by both rules. */
  lemma ClashIffCommonDnsName(t: RewriteRule, r: RewriteRule)
    requires Accepted(t) && Accepted(r) && StarOnlyAsLabel(t.from) && StarOnlyAsLabel(r.from)
    ensures Clash(t, r) <==> exists host :: CheckDnsName(host, false, false) && t.Matches(host) && r.Matches(host)
  {
    if Clash(t, r) {
      var p, q := if t.Matches(r.from) then t else r, if t.Matches(r.from) then r else t;
      ProbeIsConcreteAndMatched(q);
      ProbeMatchedByOuter(p, q);
    }
    if host :| CheckDnsName(host, false, false) && t.Matches(host) && r.Matches(host) {
      CommonNameClashes(t, r, host);
    }
  }

  lemma ProbeMatchedByOuter(p: RewriteRule, q: RewriteRule)
    requires Accepted(p) && Accepted(q) && StarOnlyAsLabel(p.from) && StarOnlyAsLabel(q.from)
    requires p.Matches(q.from)
    ensures p.Matches(ProbeName(q))
  {
    hide Accepted;
    AcceptedChars(p);
    AcceptedChars(q);
    WildcardShape(p);
    WildcardShape(q);
    if q.from[0] == '*' {
      WildcardProbe(q);
      if p.FromIsWildcard() {
        SuffixOfProbe(p.from[1..], q.from);
      }
    }
  }

  lemma WildcardProbe(r: RewriteRule)
    requires r.from != "" && r.from[0] == '*' && NoSpace(r.from)
    ensures ProbeName(r) == "wildcard" + r.from[1..]
  {
    assert forall i | 1 <= i < |r.from| :: !IsSpace(r.from[i]);
  }

  lemma SuffixOfProbe(a: string, from: string)
    requires from != "" && from[0] == '*' && HasSuffix(from, a) && (a == "" || a[0] != '*')
    ensures HasSuffix("wildcard" + from[1..], a)
  {
    var rest := from[1..];
    assert a != "" ==> a[0] == from[|from| - |a|];
    assert |a| <= |rest|;
    assert ("wildcard" + rest)[8 + |rest| - |a|..] == rest[|rest| - |a|..];
    assert rest[|rest| - |a|..] == from[|from| - |a|..];
  }
}
