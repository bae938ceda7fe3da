/** What a snippet tells CoreDNS to do with a name. The directives are read from the text alone, without the
    comments that the operator uses; patterns are matched against the whole name. */
module Directives {
  import opened Options
  import opened Text
  import opened Regexes
  import opened DnsNames
  import opened RewriteRules
  import opened RuleMaps
  import opened Snippets

  datatype Directive =
    | HostsEntry(address: string, name: string)
    | RewriteExact(name: string, target: string)
    | RewriteRegex(pattern: string, target: string)
  {
    predicate Applies(host: string) {
      match this
      case HostsEntry(_, name) => host == name
      case RewriteExact(name, _) => host == name
      case RewriteRegex(pattern, _) => Match(ReadPattern(pattern), host)
    }

    function Answer(): string {
      match this
      case HostsEntry(address, _) => address
      case RewriteExact(_, target) => target
      case RewriteRegex(_, target) => target
    }
  }

  /* ---- reading ---- */

  /** The words of a line. */
  function Fields(line: string): seq<string>
    decreases |line|
  {
    if line == "" then []
    else if IsSpace(line[0]) then Fields(line[1..])
    else
      var n := WordLength(line);
      [line[..n]] + Fields(line[n..])
  }

  function WordLength(line: string): (n: nat)
    ensures n <= |line|
    ensures line != "" && !IsSpace(line[0]) ==> n > 0
  {
    if line != "" && !IsSpace(line[0]) then 1 + WordLength(line[1..]) else 0
  }

  predicate IsComment(words: seq<string>) {
    words == [] || (words[0] != "" && words[0][0] == '#')
  }

  /** The directives of a snippet, in the order of its lines. Inside of the hosts block, the options `ttl` and
      `fallthrough` are not entries. */
  function ReadDirectives(lines: seq<string>, inHosts: bool): seq<Directive> {
    if lines == [] then []
    else
      var words := Fields(lines[0]);
      if IsComment(words) then ReadDirectives(lines[1..], inHosts)
      else if inHosts then
        if words[0] == "}" then ReadDirectives(lines[1..], false)
        else if words[0] == "ttl" || words[0] == "fallthrough" || |words| < 2 then ReadDirectives(lines[1..], true)
        else [HostsEntry(words[0], words[1])] + ReadDirectives(lines[1..], true)
      else if words[0] == "hosts" then ReadDirectives(lines[1..], true)
      else if |words| == 5 && words[0] == "rewrite" && words[1] == "name" && words[2] == "exact" then
        [RewriteExact(words[3], words[4])] + ReadDirectives(lines[1..], false)
      else if |words| == 5 && words[0] == "rewrite" && words[1] == "name" && words[2] == "regex" then
        [RewriteRegex(words[3], words[4])] + ReadDirectives(lines[1..], false)
      else ReadDirectives(lines[1..], false)
  }

  /** A regular expression made of characters, `.`, escaped characters and `*` behind one of these. */
  function ReadPattern(p: string): Regex
    decreases |p|
  {
    if p == "" then Empty
    else
      var escaped := p[0] == '\\' && |p| > 1;
      var atom := if escaped then Class(Only(p[1])) else if p[0] == '.' then Class(AnyChar) else Class(Only(p[0]));
      var rest := if escaped then p[2..] else p[1..];
      if rest != "" && rest[0] == '*' then Cat(Star(atom), ReadPattern(rest[1..]))
      else Cat(atom, ReadPattern(rest))
  }

  /** The answer of the first directive that applies. */
  function Lookup(directives: seq<Directive>, host: string): Option<string> {
    if directives == [] then None
    else if directives[0].Applies(host) then Some(directives[0].Answer())
    else Lookup(directives[1..], host)
  }

  /* ---- what is written for a rule ---- */

  function DirectiveOf(r: RewriteRule): Directive {
    if r.ToIsIpAddress() then HostsEntry(r.to, r.from)
    else if r.FromIsWildcard() then RewriteRegex(NamePattern(r.from), r.to)
    else RewriteExact(r.from, r.to)
  }

  function DirectivesOf(rules: seq<RewriteRule>): seq<Directive> {
    if rules == [] then []
    else DirectivesOf(rules[..|rules| - 1]) + [DirectiveOf(rules[|rules| - 1])]
  }

  lemma {:induction false} WordLengthOf(word: string, rest: string)
    requires NoSpace(word) && (rest == "" || IsSpace(rest[0]))
    ensures WordLength(word + rest) == |word|
  {
    if word != "" {
      assert (word + rest)[1..] == word[1..] + rest;
      WordLengthOf(word[1..], rest);
    } else {
      assert word + rest == rest;
    }
  }

  lemma FirstField(word: string, rest: string)
    requires NoSpace(word) && word != "" && (rest == "" || IsSpace(rest[0]))
    ensures Fields(word + rest) == [word] + Fields(rest)
  {
    WordLengthOf(word, rest);
    assert (word + rest)[..|word|] == word && (word + rest)[|word|..] == rest;
    assert !IsSpace((word + rest)[0]);
  }

  lemma SkipSpace(line: string)
    ensures Fields(" " + line) == Fields(line)
    ensures Fields("  " + line) == Fields(line)
  {
    assert (" " + line)[1..] == line;
    assert ("  " + line)[1..] == " " + line;
  }

  lemma FieldBehindSpace(word: string, rest: string)
    requires NoSpace(word) && word != "" && (rest == "" || IsSpace(rest[0]))
    ensures Fields(" " + word + rest) == [word] + Fields(rest)
    ensures Fields("  " + word + rest) == [word] + Fields(rest)
  {
    hide Fields;
    FirstField(word, rest);
    SkipSpace(word + rest);
    assert " " + word + rest == " " + (word + rest);
    assert "  " + word + rest == "  " + (word + rest);
  }

  lemma TwoFields(a: string, b: string)
    requires NoSpace(a) && NoSpace(b) && a != "" && b != ""
    ensures Fields(" " + a + " " + b) == [a, b]
    ensures Fields("  " + a + " " + b) == [a, b]
  {
    hide Fields;
    FieldBehindSpace(b, "");
    NoFields();
    assert " " + b + "" == " " + b;
    FieldBehindSpace(a, " " + b);
    assert " " + a + (" " + b) == " " + a + " " + b;
    assert "  " + a + (" " + b) == "  " + a + " " + b;
  }

  lemma NoFields()
    ensures Fields("") == []
  {
  }

  lemma RewriteFields(kind: string, a: string, b: string)
    requires kind == "exact" || kind == "regex"
    requires NoSpace(a) && NoSpace(b) && a != "" && b != ""
    ensures Fields("rewrite name " + kind + " " + a + " " + b) == ["rewrite", "name", kind, a, b]
  {
    hide Fields;
    var tail := " " + a + " " + b;
    TwoFields(a, b);
    FieldBehindSpace(kind, tail);
    FieldBehindSpace("name", " " + kind + tail);
    FirstField("rewrite", " name" + (" " + kind + tail));
    assert " " + "name" + (" " + kind + tail) == " name" + (" " + kind + tail);
    assert "rewrite" + (" name" + (" " + kind + tail)) == "rewrite name " + kind + " " + a + " " + b;
  }

  /** A line that starts with a tag of the operator is a comment. */
  lemma TagLineIsComment(inHosts: bool, word: string, rest: string)
    requires |word| > 1 && word[0] == '#' && word[1] == ' '
    ensures IsComment(Fields(Indent(inHosts) + word + rest))
  {
    hide Fields;
    var tail := word[1..] + rest;
    FirstField("#", tail);
    SkipSpace("#" + tail);
    assert word + rest == "#" + tail;
    assert "" + word + rest == word + rest;
    assert "  " + word + rest == "  " + (word + rest);
  }

  /** The line of a rule reads as the directive of the rule. */
  lemma ReadDirectiveLine(r: RewriteRule, rest: seq<string>)
    requires Accepted(r)
    ensures ReadDirectives([DirectiveLine(r, r.ToIsIpAddress())] + rest, r.ToIsIpAddress())
            == [DirectiveOf(r)] + ReadDirectives(rest, r.ToIsIpAddress())
  {
    hide Fields, Accepted, RewriteRule.ToIsIpAddress, RewriteRule.FromIsWildcard, NamePattern, NoSpace;
    AcceptedChars(r);
    var line := DirectiveLine(r, r.ToIsIpAddress());
    assert ([line] + rest)[1..] == rest;
    if r.ToIsIpAddress() {
      TwoFields(r.to, r.from);
      IpIsNoKeyword(r);
    } else if r.FromIsWildcard() {
      NamePatternNoSpace(r.from);
      RewriteFields("regex", NamePattern(r.from), r.to);
      assert "rewrite name " + "regex" + " " == REGEX_WORDS;
    } else {
      RewriteFields("exact", r.from, r.to);
      assert "rewrite name " + "exact" + " " == EXACT_WORDS;
    }
  }

  lemma IpIsNoKeyword(r: RewriteRule)
    requires r.ToIsIpAddress()
    ensures r.to != "" && r.to[0] != '#' && r.to != "}" && r.to != "ttl" && r.to != "fallthrough"
  {
    IpStartsWithDigit(r.to);
  }

  lemma ReadPrintedDirective(r: RewriteRule, rest: seq<string>)
    requires Accepted(r)
    ensures ReadDirectives(Block(r, r.ToIsIpAddress()) + rest, r.ToIsIpAddress())
            == [DirectiveOf(r)] + ReadDirectives(rest, r.ToIsIpAddress())
  {
    hide Fields, Accepted, RewriteRule.ToIsIpAddress, DirectiveOf, DirectiveLine, Indent, IsComment;
    var ip := r.ToIsIpAddress();
    var line := DirectiveLine(r, ip);
    var lines := Block(r, ip) + rest;
    TagLineIsComment(ip, OWNER_TAG, r.owner);
    TagLineIsComment(ip, FROM_TAG, r.from);
    TagLineIsComment(ip, TO_TAG, r.to);
    SkipComment(lines, ip);
    SkipComment(lines[1..], ip);
    SkipComment(lines[2..], ip);
    ReadDirectiveLine(r, rest);
    assert lines[1..][1..] == lines[2..] && lines[2..][1..] == [line] + rest;
  }

  lemma SkipComment(lines: seq<string>, inHosts: bool)
    requires lines != [] && IsComment(Fields(lines[0]))
    ensures ReadDirectives(lines, inHosts) == ReadDirectives(lines[1..], inHosts)
  {
  }

  lemma {:induction false} ReadPrintedSection(rules: seq<RewriteRule>, ip: bool, rest: seq<string>)
    requires forall r | r in rules :: Accepted(r) && r.ToIsIpAddress() == ip
    ensures ReadDirectives(Blocks(rules, ip) + rest, ip) == DirectivesOf(rules) + ReadDirectives(rest, ip)
  {
    hide Accepted, RewriteRule.ToIsIpAddress, DirectiveOf, ReadDirectives, Block;
    if rules == [] {
      assert Blocks(rules, ip) + rest == rest;
    } else {
      var init, last := rules[..|rules| - 1], rules[|rules| - 1];
      assert last in rules;
      ReadPrintedSection(init, ip, Block(last, ip) + rest);
      ReadPrintedDirective(last, rest);
      assert Blocks(rules, ip) + rest == Blocks(init, ip) + (Block(last, ip) + rest);
    }
  }

  lemma HostsBlockFrame(body: seq<string>, tail: seq<string>)
    ensures ReadDirectives([HOSTS_HEADER] + body, false) == ReadDirectives(body, true)
    ensures ReadDirectives([TTL_LINE, FALLTHROUGH_LINE, CLOSING_LINE] + tail, true) == ReadDirectives(tail, false)
  {
    hide Fields;
    var closing := [TTL_LINE, FALLTHROUGH_LINE, CLOSING_LINE] + tail;
    FirstField("hosts", " /dev/null {");
    assert "hosts" + " /dev/null {" == HOSTS_HEADER;
    assert ([HOSTS_HEADER] + body)[1..] == body;
    TwoFields("ttl", "10");
    assert "  " + "ttl" + " " + "10" == TTL_LINE;
    FieldBehindSpace("fallthrough", "");
    assert "  " + "fallthrough" + "" == FALLTHROUGH_LINE;
    FirstField("}", "");
    NoFields();
    assert "}" + "" == CLOSING_LINE;
    assert ReadDirectives(closing, true) == ReadDirectives(closing[1..], true);
    assert ReadDirectives(closing[1..], true) == ReadDirectives(closing[1..][1..], true);
    assert closing[1..][1..] == [CLOSING_LINE] + tail;
    assert ([CLOSING_LINE] + tail)[1..] == tail;
  }

  /** Reading the lines of a set gives one directive for each of its rules and nothing else. */
  lemma ReadPrintedDirectives(m: RuleMap)
    requires WellFormed(m)
    ensures var owners := SortedKeys(m.Keys);
            ReadDirectives(Lines(m), false)
            == DirectivesOf(Section(m, owners, true)) + DirectivesOf(Section(m, owners, false))
  {
    hide WellFormed, Section, Blocks, ReadDirectives, DirectivesOf, SortedKeys;
    var owners := SortedKeys(m.Keys);
    var hosts, names := Section(m, owners, true), Section(m, owners, false);
    var tail := Blocks(names, false);
    SectionRules(m, owners, true);
    SectionRules(m, owners, false);
    ReadPrintedSection(names, false, []);
    NoDirectives(false);
    assert tail + [] == tail;
    if hosts == [] {
      NoDirectives(true);
      assert Lines(m) == tail;
    } else {
      var closing := [TTL_LINE, FALLTHROUGH_LINE, CLOSING_LINE] + tail;
      HostsBlockFrame(Blocks(hosts, true) + closing, tail);
      ReadPrintedSection(hosts, true, closing);
      assert Lines(m) == [HOSTS_HEADER] + (Blocks(hosts, true) + closing);
    }
  }

  lemma NoDirectives(inHosts: bool)
    ensures ReadDirectives([], inHosts) == [] && DirectivesOf([]) == []
  {
  }

  /* ---- what a directive means ---- */

  lemma {:induction false} ReplaceAbsent(s: string, c: char, text: string)
    requires c !in s
    ensures ReplaceAll(s, c, text) == s
  {
    if s != "" { ReplaceAbsent(s[1..], c, text); }
  }

  /** A suffix whose dots are escaped reads as a pattern for this suffix. */
  lemma {:induction false} EscapedSuffix(s: string, host: string)
    requires forall i | 0 <= i < |s| :: IsNameChar(s[i])
    ensures Match(ReadPattern(ReplaceAll(s, '.', "\\.")), host) <==> host == s
    decreases |s|
  {
    if s != "" {
      var p, q := ReplaceAll(s, '.', "\\."), ReplaceAll(s[1..], '.', "\\.");
      PatternStep(s);
      MatchClassThen(Only(s[0]), ReadPattern(q), host);
      if host != "" {
        EscapedSuffix(s[1..], host[1..]);
        assert host == [host[0]] + host[1..] && s == [s[0]] + s[1..];
      }
    }
  }

  lemma PatternStep(s: string)
    requires s != "" && forall i | 0 <= i < |s| :: IsNameChar(s[i])
    ensures ReadPattern(ReplaceAll(s, '.', "\\."))
            == Cat(Class(Only(s[0])), ReadPattern(ReplaceAll(s[1..], '.', "\\.")))
  {
    hide ReplaceAll;
    var p, q := ReplaceAll(s, '.', "\\."), ReplaceAll(s[1..], '.', "\\.");
    EscapedHead(s);
    EscapedHead(s[1..]);
    assert IsNameChar(s[0]);
    if s[0] == '.' {
      assert p[2..] == q;
    } else {
      assert p[1..] == q;
    }
  }

  lemma EscapedHead(s: string)
    requires forall i | 0 <= i < |s| :: IsNameChar(s[i])
    ensures var e := ReplaceAll(s, '.', "\\.");
            if s == "" then e == ""
            else e == (if s[0] == '.' then "\\." else [s[0]]) + ReplaceAll(s[1..], '.', "\\.") && e[0] != '*'
  {
    assert s != "" ==> IsNameChar(s[0]);
  }

  lemma EscapedNoStar(s: string)
    requires forall i | 0 <= i < |s| :: IsNameChar(s[i])
    ensures '*' !in ReplaceAll(s, '.', "\\.")
  {
  }

  /** The pattern of a wildcard source matches the whole of a one-line name exactly when the rule matches the name. */
  lemma PatternMeaning(r: RewriteRule, host: string)
    requires Accepted(r) && r.FromIsWildcard() && '\n' !in host
    ensures Match(ReadPattern(NamePattern(r.from)), host) <==> r.Matches(host)
  {
    hide Accepted, Match;
    AcceptedChars(r);
    WildcardShape(r);
    var suffix := r.from[1..];
    var escaped := ReplaceAll(suffix, '.', "\\.");
    EscapedNoStar(suffix);
    ReplaceAbsent(escaped, '*', ".*");
    assert ReplaceAll(r.from, '.', "\\.") == "*" + escaped;
    assert ("*" + escaped)[1..] == escaped;
    assert NamePattern(r.from) == ".*" + escaped;
    assert (".*" + escaped)[1..][1..] == escaped;
    assert ReadPattern(".*" + escaped) == Cat(Star(Class(AnyChar)), ReadPattern(escaped));
    AnythingThenSuffix(suffix, ReadPattern(escaped), host);
  }

  lemma AnythingThenSuffix(suffix: string, tail: Regex, host: string)
    requires '\n' !in host && forall i | 0 <= i < |suffix| :: IsNameChar(suffix[i])
    requires tail == ReadPattern(ReplaceAll(suffix, '.', "\\."))
    ensures Match(Cat(Star(Class(AnyChar)), tail), host) <==> HasSuffix(host, suffix)
  {
    hide Match, ReadPattern, ReplaceAll;
    if Match(Cat(Star(Class(AnyChar)), tail), host) {
      var i := SplitCat(Star(Class(AnyChar)), tail, host);
      EscapedSuffix(suffix, host[i..]);
    }
    if HasSuffix(host, suffix) {
      var n := |host| - |suffix|;
      EscapedSuffix(suffix, host[n..]);
      MatchStarClass(AnyChar, host[..n]);
      MatchCat(Star(Class(AnyChar)), tail, host[..n], host[n..]);
      assert host == host[..n] + host[n..];
    }
  }

  /** The pattern is matched by some part of the name. */
  ghost predicate FoundIn(pattern: Regex, host: string) {
    exists i, j :: 0 <= i <= j <= |host| && Match(pattern, host[i..j])
  }

  /** What the assumption that patterns are matched against the whole name is for: the pattern has no anchors, and
      if it were searched in the name, it would also be found in names of which the rule matches a prefix only. */
  lemma UnanchoredMeaning(r: RewriteRule, host: string)
    requires Accepted(r) && r.FromIsWildcard() && '\n' !in host
    ensures FoundIn(ReadPattern(NamePattern(r.from)), host) <==> exists j :: 0 <= j <= |host| && r.Matches(host[..j])
  {
    hide Accepted, Match, ReadPattern, NamePattern, RewriteRule.FromIsWildcard;
    var pattern := ReadPattern(NamePattern(r.from));
    if i, j :| 0 <= i <= j <= |host| && Match(pattern, host[i..j]) {
      PatternMeaning(r, host[i..j]);
      LongerNameMatches(r, host[i..j], host[..j]);
    }
    if j :| 0 <= j <= |host| && r.Matches(host[..j]) {
      PatternMeaning(r, host[..j]);
      assert host[0..j] == host[..j];
    }
  }

  lemma LongerNameMatches(r: RewriteRule, part: string, host: string)
    requires r.FromIsWildcard() && r.Matches(part) && HasSuffix(host, part)
    ensures r.Matches(host)
  {
    var suffix := r.from[1..];
    assert host[|host| - |suffix|..] == part[|part| - |suffix|..];
  }

  /** The directive of a rule applies to the names that the rule matches and answers with the target of the rule. */
  lemma DirectiveMeaning(r: RewriteRule, host: string)
    requires Accepted(r) && '\n' !in host
    ensures DirectiveOf(r).Applies(host) <==> r.Matches(host)
    ensures DirectiveOf(r).Answer() == r.to
  {
    hide Match, NamePattern, ReadPattern;
    if r.FromIsWildcard() { PatternMeaning(r, host); }
  }

  lemma {:induction false} LookupIn(directives: seq<Directive>, host: string)
    ensures match Lookup(directives, host)
            case Some(answer) => exists d :: d in directives && d.Applies(host) && d.Answer() == answer
            case None => forall d | d in directives :: !d.Applies(host)
  {
    hide Match, ReadPattern;
    if directives != [] && !directives[0].Applies(host) {
      LookupIn(directives[1..], host);
      assert directives == [directives[0]] + directives[1..];
    }
  }

  lemma {:induction false} DirectivesOfMembers(rules: seq<RewriteRule>, d: Directive)
    ensures d in DirectivesOf(rules) <==> exists r :: r in rules && DirectiveOf(r) == d
  {
    hide DirectiveOf;
    if rules != [] {
      var init, last := rules[..|rules| - 1], rules[|rules| - 1];
      DirectivesOfMembers(init, d);
      assert rules == init + [last];
    }
  }

  lemma DirectivesOfSet(m: RuleMap, d: Directive)
    requires WellFormed(m)
    ensures d in ReadDirectives(Lines(m), false) <==> exists o :: o in m && DirectiveOf(m[o]) == d
  {
    hide ReadDirectives, Lines, DirectiveOf, DirectivesOf, Section, Printable;
    var owners := SortedKeys(m.Keys);
    ReadPrintedDirectives(m);
    DirectivesOfMembers(Section(m, owners, true), d);
    DirectivesOfMembers(Section(m, owners, false), d);
    SectionRules(m, owners, true);
    SectionRules(m, owners, false);
    if o :| o in m && DirectiveOf(m[o]) == d {
      SectionMembers(m, owners, m[o].ToIsIpAddress(), o);
    }
  }

  /** The snippet means what the set means: for every name on one line, the first directive of the written text
      that applies answers with the target of the rule that `FindMatchingRule` returns, and none applies if
      there is no such rule. */
  lemma SnippetMeaning(m: RuleMap, host: string, found: Option<RewriteRule>)
    requires WellFormed(m) && '\n' !in host && Finds(m, host, found)
    ensures Lookup(ReadDirectives(Split(Print(m), '\n'), false), host)
            == if found.Some? then Some(found.value.to) else None
  {
    hide ReadDirectives, Lines, Lookup, DirectiveOf, Directive.Applies, Directive.Answer, Accepted;
    var directives := ReadDirectives(Lines(m), false);
    LinesOfPrinted(m);
    LookupIn(directives, host);
    forall o | o in m ensures DirectiveOf(m[o]).Applies(host) <==> m[o].Matches(host) {
      DirectiveMeaning(m[o], host);
    }
    if found.Some? {
      var d := DirectiveOf(found.value);
      DirectivesOfSet(m, d);
      assert d in directives && d.Applies(host);
      var e :| e in directives && e.Applies(host) && Lookup(directives, host) == Some(e.Answer());
      DirectivesOfSet(m, e);
      var o :| o in m && DirectiveOf(m[o]) == e;
      MatchUnique(m, host, o, found.value.owner);
      DirectiveMeaning(found.value, host);
    } else {
      forall d | d in directives ensures !d.Applies(host) {
        DirectivesOfSet(m, d);
      }
    }
  }

  lemma LinesOfPrinted(m: RuleMap)
    requires WellFormed(m)
    ensures ReadDirectives(Split(Print(m), '\n'), false) == ReadDirectives(Lines(m), false)
  {
    if Lines(m) == [] {
      assert Split("", '\n') == [""];
      assert Fields("") == [];
    } else {
      SplitPrinted(m);
    }
  }

  /** At most one directive of a written text applies to a name, so that their order does not matter. */
  lemma OneDirectiveApplies(m: RuleMap, host: string, d: Directive, e: Directive)
    requires WellFormed(m) && '\n' !in host
    requires d in ReadDirectives(Lines(m), false) && e in ReadDirectives(Lines(m), false)
    requires d.Applies(host) && e.Applies(host)
    ensures d == e
  {
    hide ReadDirectives, Lines, DirectiveOf, Directive.Applies, Accepted;
    DirectivesOfSet(m, d);
    DirectivesOfSet(m, e);
    var o :| o in m && DirectiveOf(m[o]) == d;
    var p :| p in m && DirectiveOf(m[p]) == e;
    DirectiveMeaning(m[o], host);
    DirectiveMeaning(m[p], host);
    MatchUnique(m, host, o, p);
  }
}
