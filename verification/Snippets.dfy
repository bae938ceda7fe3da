/** The CoreDNS snippet that stands for a rule set: how a set is written and how a text is read back
    (internal/coredns/rewrite.go). */
module Snippets {
  import opened Options
  import opened Text
  import opened Regexes
  import opened RewriteRules
  import opened RuleMaps

  const HOSTS_HEADER := "hosts /dev/null {"
  const TTL_LINE := "  ttl 10"
  const FALLTHROUGH_LINE := "  fallthrough"
  const CLOSING_LINE := "}"
  const OWNER_TAG := "# owner: "
  const FROM_TAG := "# from: "
  const TO_TAG := "# to: "
  const EXACT_WORDS := "rewrite name exact "
  const REGEX_WORDS := "rewrite name regex "

  /* ---- writing ---- */

  function ReplaceAll(s: string, c: char, text: string): string {
    if s == "" then ""
    else (if s[0] == c then text else [s[0]]) + ReplaceAll(s[1..], c, text)
  }

  /** The source of a wildcard rule as a regular expression. */
  function NamePattern(from: string): string {
    ReplaceAll(ReplaceAll(from, '.', "\\."), '*', ".*")
  }

  /** The line that carries the rule, inside or outside of the hosts block. */
  function DirectiveLine(r: RewriteRule, inHosts: bool): string {
    if inHosts then "  " + r.to + " " + r.from
    else if r.FromIsWildcard() then REGEX_WORDS + NamePattern(r.from) + " " + r.to
    else EXACT_WORDS + r.from + " " + r.to
  }

  function Indent(inHosts: bool): string {
    if inHosts then "  " else ""
  }

  function Block(r: RewriteRule, inHosts: bool): seq<string> {
    [Indent(inHosts) + OWNER_TAG + r.owner,
     Indent(inHosts) + FROM_TAG + r.from,
     Indent(inHosts) + TO_TAG + r.to,
     DirectiveLine(r, inHosts)]
  }

  function Blocks(rules: seq<RewriteRule>, inHosts: bool): seq<string> {
    if rules == [] then []
    else Blocks(rules[..|rules| - 1], inHosts) + Block(rules[|rules| - 1], inHosts)
  }

  /** The rules of the given owners whose target is (or is not) an IP address, in the order of the owners. */
  function Section(m: RuleMap, owners: seq<string>, ip: bool): (rules: seq<RewriteRule>)
    requires forall o | o in owners :: o in m
    ensures forall r | r in rules :: r.ToIsIpAddress() == ip && exists o :: o in owners && m[o] == r
  {
    if owners == [] then []
    else
      var last := owners[|owners| - 1];
      Section(m, owners[..|owners| - 1], ip) + if m[last].ToIsIpAddress() == ip then [m[last]] else []
  }

  function HostsBlock(rules: seq<RewriteRule>): seq<string> {
    if rules == [] then []
    else [HOSTS_HEADER] + Blocks(rules, true) + [TTL_LINE, FALLTHROUGH_LINE, CLOSING_LINE]
  }

  ghost function Lines(m: RuleMap): seq<string> {
    var owners := SortedKeys(m.Keys);
    HostsBlock(Section(m, owners, true)) + Blocks(Section(m, owners, false), false)
  }

  ghost function Print(m: RuleMap): string {
    Join(Lines(m), '\n')
  }

  lemma EmptySection(m: RuleMap, ip: bool)
    ensures Section(m, [], ip) == [] && Blocks([], ip) == []
  {
  }

  lemma SectionStep(m: RuleMap, owners: seq<string>, i: nat, ip: bool)
    requires i < |owners| && forall o | o in owners :: o in m
    ensures Section(m, owners[..i + 1], ip)
            == Section(m, owners[..i], ip) + if m[owners[i]].ToIsIpAddress() == ip then [m[owners[i]]] else []
  {
    assert owners[..i + 1][..i] == owners[..i];
  }

  lemma BlocksStep(rules: seq<RewriteRule>, r: RewriteRule, inHosts: bool)
    ensures Blocks(rules + [r], inHosts) == Blocks(rules, inHosts) + Block(r, inHosts)
  {
    assert (rules + [r])[..|rules|] == rules;
  }

  /* ---- reading ---- */

  /** The submatch of `^\s*<tag>(.+)$`. */
  function Capture(tag: string, line: string): Option<string> {
    var rest := TrimLeft(line);
    if tag <= rest && |tag| < |rest| && '\n' !in rest[|tag|..] then Some(rest[|tag|..]) else None
  }

  function TagRegex(tag: string): Regex {
    Cat(Star(Class(Space)), Cat(Lit(tag), Plus(Class(AnyChar))))
  }

  /** `^\s*\S+\s+\S+$` */
  const HOSTS_LINE_REGEX :=
    Cat(Star(Class(Space)), Cat(Plus(Class(NonSpace)), Cat(Plus(Class(Space)), Plus(Class(NonSpace)))))

  /** `^\s*rewrite name (exact|regex) (\S+) (\S+)$` */
  const REWRITE_LINE_REGEX :=
    Cat(Star(Class(Space)),
        Cat(Alt(Lit(EXACT_WORDS), Lit(REGEX_WORDS)),
            Cat(Plus(Class(NonSpace)), Cat(Class(Only(' ')), Plus(Class(NonSpace))))))

  predicate DirectiveLineOk(line: string, haveHosts: bool) {
    if haveHosts then Match(HOSTS_LINE_REGEX, line) else Match(REWRITE_LINE_REGEX, line)
  }

  /** The rule that four lines describe. */
  function ReadBlock(lines: seq<string>, haveHosts: bool): Option<RewriteRule>
    requires |lines| >= 4
  {
    var owner, from, to := Capture(OWNER_TAG, lines[0]), Capture(FROM_TAG, lines[1]), Capture(TO_TAG, lines[2]);
    if owner.Some? && from.Some? && to.Some? && DirectiveLineOk(lines[3], haveHosts) then
      NewRewriteRule(owner.value, from.value, to.value)
    else None
  }

  predicate ClosesHosts(lines: seq<string>) {
    |lines| >= 3 && lines[0] == TTL_LINE && lines[1] == FALLTHROUGH_LINE && lines[2] == CLOSING_LINE
  }

  ghost function ParseLines(lines: seq<string>, haveHosts: bool, m: RuleMap): Option<RuleMap> {
    if lines == [] then Some(m)
    else if lines[0] == HOSTS_HEADER && !haveHosts then ParseLines(lines[1..], true, m)
    else if ClosesHosts(lines) then ParseLines(lines[3..], false, m)
    else if |lines| < 4 then None
    else
      match ReadBlock(lines, haveHosts)
      case None => None
      case Some(r) =>
        match AddRule(m, r)
        case None => None
        case Some(m') => ParseLines(lines[4..], haveHosts, m')
  }

  lemma ParseNothing(haveHosts: bool, m: RuleMap)
    ensures ParseLines([], haveHosts, m) == Some(m)
  {
  }

  /** One round of the reader at line `i`. */
  lemma ParseStep(lines: seq<string>, i: nat, haveHosts: bool, m: RuleMap)
    requires i < |lines|
    ensures ParseLines(lines[i..], haveHosts, m) ==
            if lines[i] == HOSTS_HEADER && !haveHosts then ParseLines(lines[i + 1..], true, m)
            else if i + 2 < |lines| && ClosesHosts([lines[i], lines[i + 1], lines[i + 2]]) then
              ParseLines(lines[i + 3..], false, m)
            else if i + 3 >= |lines| then None
            else
              match ReadBlock([lines[i], lines[i + 1], lines[i + 2], lines[i + 3]], haveHosts)
              case None => None
              case Some(r) => if Admits(m, r) then ParseLines(lines[i + 4..], haveHosts, m[r.owner := r]) else None
  {
    hide Capture, DirectiveLineOk, NewRewriteRule, Admits;
    var rest := lines[i..];
    assert rest[1..] == lines[i + 1..];
    if i + 2 < |lines| { assert rest[3..] == lines[i + 3..]; }
    if i + 3 < |lines| {
      assert rest[4..] == lines[i + 4..];
      assert ReadBlock(rest, haveHosts) == ReadBlock([lines[i], lines[i + 1], lines[i + 2], lines[i + 3]], haveHosts);
    }
  }

  ghost function Parse(text: string): Option<RuleMap> {
    if text == "" then Some(map[]) else ParseLines(Split(text, '\n'), false, map[])
  }

  /** A rule that can be written and read back: its owner is not empty and stays on one line. */
  predicate Printable(r: RewriteRule) {
    Accepted(r) && r.owner != "" && '\n' !in r.owner
  }

  ghost predicate WellFormed(m: RuleMap) {
    Consistent(m) && forall o | o in m :: Printable(m[o])
  }

  /* ---- the regular expressions of the reader ---- */

  lemma CaptureParts(tag: string, line: string) returns (space: string)
    requires Capture(tag, line).Some?
    ensures AllSpace(space) && line == space + (tag + Capture(tag, line).value)
    ensures Capture(tag, line).value != "" && '\n' !in Capture(tag, line).value
  {
    space := TrimLeftParts(line);
  }

  lemma CaptureOfParts(tag: string, space: string, value: string)
    requires tag != "" && !IsSpace(tag[0])
    requires AllSpace(space) && value != "" && '\n' !in value
    ensures Capture(tag, space + (tag + value)) == Some(value)
  {
    hide IsSpace;
    TrimLeftOf(space, tag + value);
    assert (tag + value)[|tag|..] == value;
  }

  lemma LineRegexParts(tag: string, line: string) returns (space: string, value: string)
    requires Match(TagRegex(tag), line)
    ensures AllSpace(space) && value != "" && '\n' !in value && line == space + (tag + value)
  {
    hide Match, Lit, AllSpace;
    var i := SplitCat(Star(Class(Space)), Cat(Lit(tag), Plus(Class(AnyChar))), line);
    space := line[..i];
    SpaceRegex(space);
    value := TaggedParts(tag, line[i..]);
  }

  lemma TaggedParts(tag: string, rest: string) returns (value: string)
    requires Match(Cat(Lit(tag), Plus(Class(AnyChar))), rest)
    ensures value != "" && '\n' !in value && rest == tag + value
  {
    hide Match, Lit;
    var j := SplitCat(Lit(tag), Plus(Class(AnyChar)), rest);
    value := rest[j..];
    MatchLit(tag, rest[..j]);
    AnyTextRegex(value);
  }

  lemma SpaceRegex(s: string)
    ensures Match(Star(Class(Space)), s) <==> AllSpace(s)
  {
    hide Match;
    MatchStarClass(Space, s);
  }

  lemma AnyTextRegex(s: string)
    ensures Match(Plus(Class(AnyChar)), s) <==> s != "" && '\n' !in s
  {
    hide Match;
    MatchPlusClass(AnyChar, s);
  }

  lemma LineRegexOfParts(tag: string, space: string, value: string)
    requires AllSpace(space) && value != "" && '\n' !in value
    ensures Match(TagRegex(tag), space + (tag + value))
  {
    hide Match, Lit, AllSpace;
    SpaceRegex(space);
    MatchLit(tag, tag);
    AnyTextRegex(value);
    MatchCat(Lit(tag), Plus(Class(AnyChar)), tag, value);
    MatchCat(Star(Class(Space)), Cat(Lit(tag), Plus(Class(AnyChar))), space, tag + value);
  }

  /** The captured value is the submatch: a value is captured exactly when the regular expression matches the
      line, and it is what follows the tag. */
  lemma CaptureIsSubmatch(tag: string, line: string)
    requires tag != "" && !IsSpace(tag[0])
    ensures Capture(tag, line).Some? <==> Match(TagRegex(tag), line)
    ensures forall space, value | AllSpace(space) && value != "" && '\n' !in value && line == space + (tag + value) ::
              Capture(tag, line) == Some(value)
  {
    hide Match, TagRegex, Capture, AllSpace, IsSpace;
    if Capture(tag, line).Some? {
      var space := CaptureParts(tag, line);
      LineRegexOfParts(tag, space, Capture(tag, line).value);
    }
    if Match(TagRegex(tag), line) {
      var space, value := LineRegexParts(tag, line);
      CaptureOfParts(tag, space, value);
    }
    forall space, value | AllSpace(space) && value != "" && '\n' !in value && line == space + (tag + value)
      ensures Capture(tag, line) == Some(value)
    {
      CaptureOfParts(tag, space, value);
    }
  }

  lemma HostsLineMatches(to: string, from: string)
    requires to != "" && from != "" && NoSpace(to) && NoSpace(from)
    ensures Match(HOSTS_LINE_REGEX, "  " + to + " " + from)
  {
    hide Match;
    MatchStarClass(Space, "  ");
    MatchPlusClass(NonSpace, to);
    MatchPlusClass(Space, " ");
    MatchPlusClass(NonSpace, from);
    var gap, word := Plus(Class(Space)), Plus(Class(NonSpace));
    MatchCat(gap, word, " ", from);
    MatchCat(word, Cat(gap, word), to, " " + from);
    MatchCat(Star(Class(Space)), Cat(word, Cat(gap, word)), "  ", to + (" " + from));
    assert "  " + to + " " + from == "  " + (to + (" " + from));
  }

  lemma RewriteLineMatches(words: string, pattern: string, to: string)
    requires words == EXACT_WORDS || words == REGEX_WORDS
    requires to != "" && pattern != "" && NoSpace(to) && NoSpace(pattern)
    ensures Match(REWRITE_LINE_REGEX, words + pattern + " " + to)
  {
    hide Match, Lit, AllIn;
    var verb, word := Alt(Lit(EXACT_WORDS), Lit(REGEX_WORDS)), Plus(Class(NonSpace));
    var tail := Cat(word, Cat(Class(Only(' ')), word));
    VerbMatches(words);
    TwoWordsMatch(pattern, to);
    MatchCat(verb, tail, words, pattern + " " + to);
    EmptyMatchesStar(Class(Space));
    MatchCat(Star(Class(Space)), Cat(verb, tail), "", words + (pattern + " " + to));
    assert words + pattern + " " + to == "" + (words + (pattern + " " + to));
  }

  lemma EmptyMatchesStar(r: Regex)
    ensures Match(Star(r), "")
  {
  }

  lemma VerbMatches(words: string)
    requires words == EXACT_WORDS || words == REGEX_WORDS
    ensures Match(Alt(Lit(EXACT_WORDS), Lit(REGEX_WORDS)), words)
  {
    MatchLit(EXACT_WORDS, words);
    MatchLit(REGEX_WORDS, words);
    AltMatches(Lit(EXACT_WORDS), Lit(REGEX_WORDS), words);
  }

  lemma AltMatches(a: Regex, b: Regex, s: string)
    requires Match(a, s) || Match(b, s)
    ensures Match(Alt(a, b), s)
  {
  }

  lemma TwoWordsMatch(pattern: string, to: string)
    requires to != "" && pattern != "" && NoSpace(to) && NoSpace(pattern)
    ensures Match(Cat(Plus(Class(NonSpace)), Cat(Class(Only(' ')), Plus(Class(NonSpace)))), pattern + " " + to)
  {
    hide Match;
    var word := Plus(Class(NonSpace));
    MatchPlusClass(NonSpace, pattern);
    MatchPlusClass(NonSpace, to);
    MatchClassThen(Only(' '), word, " " + to);
    assert (" " + to)[1..] == to;
    MatchCat(word, Cat(Class(Only(' ')), word), pattern, " " + to);
    assert pattern + " " + to == pattern + (" " + to);
  }

  lemma {:induction false} ReplaceAllNoSpace(s: string, c: char, text: string)
    requires NoSpace(s) && NoSpace(text)
    ensures NoSpace(ReplaceAll(s, c, text))
    ensures s != "" && text != "" ==> ReplaceAll(s, c, text) != ""
  {
    if s != "" { ReplaceAllNoSpace(s[1..], c, text); }
  }

  lemma DirectiveLineOfRule(r: RewriteRule, inHosts: bool)
    requires Accepted(r)
    ensures DirectiveLineOk(DirectiveLine(r, inHosts), inHosts)
  {
    hide Match, Accepted, Lit, ReplaceAll, NoSpace;
    AcceptedChars(r);
    if inHosts {
      HostsLineMatches(r.to, r.from);
    } else if r.FromIsWildcard() {
      NamePatternNoSpace(r.from);
      RewriteLineMatches(REGEX_WORDS, NamePattern(r.from), r.to);
    } else {
      RewriteLineMatches(EXACT_WORDS, r.from, r.to);
    }
  }

  lemma NamePatternNoSpace(from: string)
    requires NoSpace(from) && from != ""
    ensures NoSpace(NamePattern(from)) && NamePattern(from) != ""
  {
    ReplaceAllNoSpace(from, '.', "\\.");
    ReplaceAllNoSpace(ReplaceAll(from, '.', "\\."), '*', ".*");
  }

  lemma DirectiveOnOneLine(r: RewriteRule, inHosts: bool)
    requires Accepted(r)
    ensures '\n' !in DirectiveLine(r, inHosts)
  {
    hide Accepted, ReplaceAll;
    AcceptedChars(r);
    NamePatternNoSpace(r.from);
  }

  /* ---- round trip ---- */

  lemma CaptureTagged(tag: string, inHosts: bool, value: string)
    requires tag != "" && !IsSpace(tag[0]) && value != "" && '\n' !in value
    ensures Capture(tag, Indent(inHosts) + tag + value) == Some(value)
  {
    hide Capture;
    assert AllSpace(Indent(inHosts));
    CaptureOfParts(tag, Indent(inHosts), value);
    assert Indent(inHosts) + tag + value == Indent(inHosts) + (tag + value);
  }

  lemma ReadPrintedBlock(r: RewriteRule, inHosts: bool, rest: seq<string>)
    requires Printable(r)
    ensures ReadBlock(Block(r, inHosts) + rest, inHosts) == Some(r)
  {
    hide DirectiveLineOk, DirectiveLine, Capture;
    AcceptedChars(r);
    CaptureTagged(OWNER_TAG, inHosts, r.owner);
    CaptureTagged(FROM_TAG, inHosts, r.from);
    CaptureTagged(TO_TAG, inHosts, r.to);
    DirectiveLineOfRule(r, inHosts);
  }

  lemma ParsePrintedBlock(r: RewriteRule, inHosts: bool, rest: seq<string>, m: RuleMap)
    requires Printable(r) && Admits(m, r)
    ensures ParseLines(Block(r, inHosts) + rest, inHosts, m) == ParseLines(rest, inHosts, m[r.owner := r])
  {
    hide ReadBlock, DirectiveLine;
    var lines := Block(r, inHosts) + rest;
    ReadPrintedBlock(r, inHosts, rest);
    assert lines[0][if inHosts then 2 else 0] == '#';
    assert lines[4..] == rest;
  }

  ghost predicate PartOf(part: RuleMap, m: RuleMap) {
    forall o | o in part :: o in m && part[o] == m[o]
  }

  function WithRules(m: RuleMap, rules: seq<RewriteRule>): RuleMap {
    if rules == [] then m
    else WithRules(m, rules[..|rules| - 1])[rules[|rules| - 1].owner := rules[|rules| - 1]]
  }

  lemma {:induction false} WithRulesDomain(m: RuleMap, rules: seq<RewriteRule>, o: string)
    ensures o in WithRules(m, rules) <==> o in m || exists r :: r in rules && r.owner == o
  {
    if rules != [] {
      var init, last := rules[..|rules| - 1], rules[|rules| - 1];
      WithRulesDomain(m, init, o);
      assert rules == init + [last];
    }
  }

  /** Reading written rules of a well-formed map adds them to any part of that map that was read before. */
  lemma {:induction false} ParsePrintedBlocks(
      whole: RuleMap, rules: seq<RewriteRule>, inHosts: bool, rest: seq<string>, m: RuleMap)
    requires WellFormed(whole) && PartOf(m, whole)
    requires forall r | r in rules :: r.owner in whole && whole[r.owner] == r
    ensures ParseLines(Blocks(rules, inHosts) + rest, inHosts, m) == ParseLines(rest, inHosts, WithRules(m, rules))
    ensures PartOf(WithRules(m, rules), whole)
  {
    if rules == [] {
      assert Blocks(rules, inHosts) + rest == rest;
    } else {
      var init, last := rules[..|rules| - 1], rules[|rules| - 1];
      var rest' := Block(last, inHosts) + rest;
      assert Blocks(rules, inHosts) + rest == Blocks(init, inHosts) + rest';
      ParsePrintedBlocks(whole, init, inHosts, rest', m);
      PartAdmits(whole, WithRules(m, init), last.owner);
      ParsePrintedBlock(last, inHosts, rest, WithRules(m, init));
    }
  }

  lemma {:induction false} SectionMembers(m: RuleMap, owners: seq<string>, ip: bool, o: string)
    requires forall p | p in owners :: p in m
    requires o in owners && m[o].ToIsIpAddress() == ip
    ensures m[o] in Section(m, owners, ip)
  {
    var init, last := owners[..|owners| - 1], owners[|owners| - 1];
    assert owners == init + [last];
    if o != last { SectionMembers(m, init, ip, o); }
  }

  lemma SectionRules(m: RuleMap, owners: seq<string>, ip: bool)
    requires WellFormed(m) && forall o | o in owners :: o in m
    ensures forall r | r in Section(m, owners, ip) :: r.owner in m && m[r.owner] == r && Printable(r)
  {
    hide Printable, Section;
  }

  lemma ParseHostsBlock(m: RuleMap, hosts: seq<RewriteRule>, tail: seq<string>)
    requires WellFormed(m)
    requires forall r | r in hosts :: r.owner in m && m[r.owner] == r
    ensures ParseLines(HostsBlock(hosts) + tail, false, map[]) == ParseLines(tail, false, WithRules(map[], hosts))
    ensures PartOf(WithRules(map[], hosts), m)
  {
    hide Printable, Blocks, ReadBlock, Consistent, Admits;
    if hosts == [] {
      assert HostsBlock(hosts) + tail == tail;
    } else {
      var closing := [TTL_LINE, FALLTHROUGH_LINE, CLOSING_LINE] + tail;
      var lines := HostsBlock(hosts) + tail;
      assert lines == [HOSTS_HEADER] + (Blocks(hosts, true) + closing);
      assert lines[1..] == Blocks(hosts, true) + closing;
      ParsePrintedBlocks(m, hosts, true, closing, map[]);
      assert closing[3..] == tail;
    }
  }

  lemma BothSections(m: RuleMap, owners: seq<string>)
    requires WellFormed(m) && forall o :: o in owners <==> o in m
    ensures var read := WithRules(map[], Section(m, owners, true));
            PartOf(WithRules(read, Section(m, owners, false)), m)
            ==> WithRules(read, Section(m, owners, false)) == m
  {
    hide Printable, Section, WithRules, Consistent;
    var hosts, names := Section(m, owners, true), Section(m, owners, false);
    var read := WithRules(map[], hosts);
    SectionRules(m, owners, true);
    SectionRules(m, owners, false);
    forall o ensures o in WithRules(read, names) <==> o in m {
      WithRulesDomain(map[], hosts, o);
      WithRulesDomain(read, names, o);
      if o in m {
        SectionMembers(m, owners, m[o].ToIsIpAddress(), o);
        OwnerOf(m, o);
      }
    }
  }

  lemma OwnerOf(m: RuleMap, o: string)
    requires Consistent(m) && o in m
    ensures m[o].owner == o
  {
  }

  lemma ParsePrintedLines(m: RuleMap)
    requires WellFormed(m)
    ensures ParseLines(Lines(m), false, map[]) == Some(m)
  {
    hide WellFormed, Blocks, HostsBlock, ReadBlock, Section, WithRules, PartOf;
    var owners := SortedKeys(m.Keys);
    var hosts, names := Section(m, owners, true), Section(m, owners, false);
    var tail, read := Blocks(names, false), WithRules(map[], hosts);
    SectionRules(m, owners, true);
    SectionRules(m, owners, false);
    ParseHostsBlock(m, hosts, tail);
    assert tail + [] == tail;
    ParsePrintedBlocks(m, names, false, [], read);
    BothSections(m, owners);
  }

  lemma {:induction false} BlocksOnOneLineEach(rules: seq<RewriteRule>, inHosts: bool)
    requires forall r | r in rules :: Printable(r)
    ensures forall i | 0 <= i < |Blocks(rules, inHosts)| :: '\n' !in Blocks(rules, inHosts)[i]
  {
    hide Accepted, DirectiveLine;
    if rules != [] {
      var init, last := rules[..|rules| - 1], rules[|rules| - 1];
      BlocksOnOneLineEach(init, inHosts);
      assert last in rules && Printable(last);
      assert forall r | r in init :: r in rules;
      AcceptedChars(last);
      DirectiveOnOneLine(last, inHosts);
      assert forall line | line in Block(last, inHosts) :: '\n' !in line;
    }
  }

  lemma LinesOnOneLineEach(m: RuleMap)
    requires WellFormed(m)
    ensures forall i | 0 <= i < |Lines(m)| :: '\n' !in Lines(m)[i]
  {
    hide Accepted, Blocks, Consistent;
    var owners := SortedKeys(m.Keys);
    BlocksOnOneLineEach(Section(m, owners, true), true);
    BlocksOnOneLineEach(Section(m, owners, false), false);
  }

  lemma SplitPrinted(m: RuleMap)
    requires WellFormed(m) && Lines(m) != []
    ensures Split(Print(m), '\n') == Lines(m) && Print(m) != ""
  {
    LinesOnOneLineEach(m);
    SplitJoin(Lines(m), '\n');
  }

  /** Reading a written set gives the set back. */
  lemma ParsePrint(m: RuleMap)
    requires WellFormed(m)
    ensures Parse(Print(m)) == Some(m)
  {
    ParsePrintedLines(m);
    if Lines(m) == [] {
      assert Print(m) == "";
    } else {
      SplitPrinted(m);
    }
  }

  /* ---- normal form ---- */

  lemma ReadBlockPrintable(lines: seq<string>, haveHosts: bool)
    requires |lines| >= 4 && ReadBlock(lines, haveHosts).Some?
    ensures Printable(ReadBlock(lines, haveHosts).value)
  {
  }

  lemma {:induction false} ParseLinesWellFormed(lines: seq<string>, haveHosts: bool, m: RuleMap)
    requires WellFormed(m)
    ensures ParseLines(lines, haveHosts, m).Some? ==> WellFormed(ParseLines(lines, haveHosts, m).value)
    decreases |lines|
  {
    hide ReadBlock, Printable, Consistent;
    if lines == [] {
    } else if lines[0] == HOSTS_HEADER && !haveHosts {
      ParseLinesWellFormed(lines[1..], true, m);
    } else if ClosesHosts(lines) {
      ParseLinesWellFormed(lines[3..], false, m);
    } else if |lines| >= 4 && ReadBlock(lines, haveHosts).Some? {
      var r := ReadBlock(lines, haveHosts).value;
      ReadBlockPrintable(lines, haveHosts);
      if Admits(m, r) {
        AddKeepsConsistent(m, r);
        ParseLinesWellFormed(lines[4..], haveHosts, m[r.owner := r]);
      }
    }
  }

  /** Every text that is accepted, canonical or not, stands for a well-formed set, and writing that set
      gives a text that stands for the same set. */
  lemma NormalForm(text: string)
    requires Parse(text).Some?
    ensures WellFormed(Parse(text).value)
    ensures Parse(Print(Parse(text).value)) == Parse(text)
  {
    ParseLinesWellFormed(Split(text, '\n'), false, map[]);
    ParsePrint(Parse(text).value);
  }

  /* ---- every owner once ---- */

  function OwnerCount(rules: seq<RewriteRule>, owner: string): nat {
    if rules == [] then 0
    else OwnerCount(rules[..|rules| - 1], owner) + if rules[|rules| - 1].owner == owner then 1 else 0
  }

  lemma OwnerCountStep(rules: seq<RewriteRule>, r: RewriteRule, owner: string)
    ensures OwnerCount(rules + [r], owner) == OwnerCount(rules, owner) + if r.owner == owner then 1 else 0
    ensures OwnerCount(rules + [], owner) == OwnerCount(rules, owner)
  {
    assert (rules + [r])[..|rules|] == rules;
    assert rules + [] == rules;
  }

  function OwnerLine(owner: string, inHosts: bool): string {
    Indent(inHosts) + OWNER_TAG + owner
  }

  lemma CountOfFour<T>(a: T, b: T, c: T, d: T, x: T)
    requires b != x && c != x && d != x
    ensures multiset([a, b, c, d])[x] == if a == x then 1 else 0
  {
    assert multiset([a, b, c, d]) == multiset{a, b, c, d};
  }

  lemma BlockOwnerLines(r: RewriteRule, inHosts: bool, owner: string, indented: bool)
    requires inHosts ==> r.ToIsIpAddress()
    ensures multiset(Block(r, inHosts))[OwnerLine(owner, indented)]
            == if indented == inHosts && r.owner == owner then 1 else 0
  {
    hide RewriteRule.ToIsIpAddress, DirectiveLine, OwnerLine;
    var line := OwnerLine(owner, indented);
    OwnerLineEqual(r.owner, inHosts, owner, indented);
    TagLinesDiffer(r, inHosts, owner, indented);
    DirectiveIsNoOwnerLine(r, inHosts, owner, indented);
    CountOfFour(OwnerLine(r.owner, inHosts), Indent(inHosts) + FROM_TAG + r.from, Indent(inHosts) + TO_TAG + r.to,
                DirectiveLine(r, inHosts), line);
    assert OwnerLine(r.owner, inHosts) == Block(r, inHosts)[0] by { OwnerLineOfBlock(r, inHosts); }
  }

  lemma OwnerLineOfBlock(r: RewriteRule, inHosts: bool)
    ensures OwnerLine(r.owner, inHosts) == Block(r, inHosts)[0]
  {
  }

  lemma OwnerLineEqual(o: string, inHosts: bool, owner: string, indented: bool)
    ensures OwnerLine(o, inHosts) == OwnerLine(owner, indented) <==> inHosts == indented && o == owner
  {
    var a, b := OwnerLine(o, inHosts), OwnerLine(owner, indented);
    assert a[if inHosts then 2 else 0] == '#' && (inHosts ==> a[0] == ' ');
    assert b[if indented then 2 else 0] == '#' && (indented ==> b[0] == ' ');
    assert a[|Indent(inHosts)| + |OWNER_TAG|..] == o && b[|Indent(indented)| + |OWNER_TAG|..] == owner;
  }

  lemma TagLinesDiffer(r: RewriteRule, inHosts: bool, owner: string, indented: bool)
    ensures Indent(inHosts) + FROM_TAG + r.from != OwnerLine(owner, indented)
    ensures Indent(inHosts) + TO_TAG + r.to != OwnerLine(owner, indented)
  {
    var line := OwnerLine(owner, indented);
    var f, t := Indent(inHosts) + FROM_TAG + r.from, Indent(inHosts) + TO_TAG + r.to;
    var n, k := if inHosts then 2 else 0, if indented then 2 else 0;
    assert f[n] == '#' && f[n + 2] == 'f' && (inHosts ==> f[0] == ' ');
    assert t[n] == '#' && t[n + 2] == 't' && (inHosts ==> t[0] == ' ');
    assert line[k] == '#' && line[k + 2] == 'o' && (indented ==> line[0] == ' ');
  }

  lemma DirectiveIsNoOwnerLine(r: RewriteRule, inHosts: bool, owner: string, indented: bool)
    requires inHosts ==> r.ToIsIpAddress()
    ensures DirectiveLine(r, inHosts) != OwnerLine(owner, indented)
  {
    hide RewriteRule.ToIsIpAddress, RewriteRule.FromIsWildcard, NamePattern;
    var line, d := OwnerLine(owner, indented), DirectiveLine(r, inHosts);
    assert line[if indented then 2 else 0] == '#' && (indented ==> line[0] == ' ');
    if inHosts {
      IpTarget(r);
      IpStartsWithDigit(r.to);
      assert d[0] == ' ' && d[2] == r.to[0];
    } else {
      assert d[0] == 'r';
    }
  }

  lemma IpTarget(r: RewriteRule)
    requires r.ToIsIpAddress()
    ensures ParsesAsIp(r.to)
  {
  }

  lemma {:induction false} BlocksOwnerLines(rules: seq<RewriteRule>, inHosts: bool, owner: string, indented: bool)
    requires forall r | r in rules :: inHosts ==> r.ToIsIpAddress()
    ensures multiset(Blocks(rules, inHosts))[OwnerLine(owner, indented)]
            == if indented == inHosts then OwnerCount(rules, owner) else 0
  {
    hide RewriteRule.ToIsIpAddress, Block, OwnerLine;
    if rules != [] {
      var init, last := rules[..|rules| - 1], rules[|rules| - 1];
      assert last in rules;
      BlocksOwnerLines(init, inHosts, owner, indented);
      BlockOwnerLines(last, inHosts, owner, indented);
    }
  }

  lemma {:induction false} SectionOwnerCount(m: RuleMap, owners: seq<string>, ip: bool, owner: string)
    requires Consistent(m) && Distinct(owners) && forall o | o in owners :: o in m
    ensures OwnerCount(Section(m, owners, ip), owner)
            == if owner in owners && m[owner].ToIsIpAddress() == ip then 1 else 0
  {
    hide RewriteRule.ToIsIpAddress, Consistent;
    if owners != [] {
      var init, last := owners[..|owners| - 1], owners[|owners| - 1];
      SectionOwnerCount(m, init, ip, owner);
      assert owners == init + [last];
      forall o | o in init ensures o != last {
        var i :| 0 <= i < |init| && init[i] == o;
        assert owners[i] != owners[|owners| - 1];
      }
      OwnerOf(m, last);
      OwnerCountStep(Section(m, init, ip), m[last], owner);
    }
  }

  /** Every owner of the set appears in one section of the text, the one that its target calls for, and there it
      appears once; no other owner appears at all. */
  lemma EveryOwnerOnce(m: RuleMap, owner: string, inHosts: bool)
    requires WellFormed(m)
    ensures multiset(Lines(m))[OwnerLine(owner, inHosts)]
            == if owner in m && m[owner].ToIsIpAddress() == inHosts then 1 else 0
  {
    hide RewriteRule.ToIsIpAddress, Blocks, Section, OwnerLine, Printable, Consistent, SortedKeys;
    var owners := SortedKeys(m.Keys);
    var hosts, names := Section(m, owners, true), Section(m, owners, false);
    AscendingDistinct(owners);
    SectionOwnerCount(m, owners, true, owner);
    SectionOwnerCount(m, owners, false, owner);
    BlocksOwnerLines(hosts, true, owner, inHosts);
    BlocksOwnerLines(names, false, owner, inHosts);
    FrameIsNoOwnerLine(owner, inHosts);
    if hosts == [] {
      assert OwnerCount(hosts, owner) == 0;
      assert Lines(m) == Blocks(names, false);
    } else {
      assert multiset(Lines(m)) == multiset{HOSTS_HEADER} + multiset(Blocks(hosts, true))
             + multiset([TTL_LINE, FALLTHROUGH_LINE, CLOSING_LINE]) + multiset(Blocks(names, false));
    }
  }

  lemma AscendingDistinct(owners: seq<string>)
    requires Ascending(owners)
    ensures Distinct(owners)
  {
  }

  lemma FrameIsNoOwnerLine(owner: string, inHosts: bool)
    ensures var line := OwnerLine(owner, inHosts);
            line != HOSTS_HEADER && line != TTL_LINE && line != FALLTHROUGH_LINE && line != CLOSING_LINE
  {
    var line, k := OwnerLine(owner, inHosts), if inHosts then 2 else 0;
    assert line[k] == '#' && |line| > 8;
    assert HOSTS_HEADER[0] == 'h' && TTL_LINE[0] == ' ' && TTL_LINE[2] == 't' && FALLTHROUGH_LINE[0] == ' '
           && FALLTHROUGH_LINE[2] == 'f';
    assert HOSTS_HEADER[2] == 's';
  }
}
