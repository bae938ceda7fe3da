/** The texts that the reader accepts, as a grammar (internal/coredns/rewrite.go). */
module SnippetGrammar {
  import opened Options
  import opened Text
  import opened DnsNames
  import opened Regexes
  import opened RewriteRules
  import opened RuleMaps
  import opened Snippets

  const BLANKS := [' ', '\t', '\n', '\r', '\U{000C}']

  predicate Blank(s: string) {
    forall i | 0 <= i < |s| :: s[i] in BLANKS
  }

  predicate Word(s: string) {
    s != "" && forall i | 0 <= i < |s| :: s[i] !in BLANKS
  }

  lemma BlankIsSpace(s: string)
    ensures Blank(s) <==> AllSpace(s)
    ensures Word(s) <==> s != "" && NoSpace(s)
  {
  }

  /* ---- the fourth line ---- */

  /** Two words. */
  ghost predicate HostsForm(line: string) {
    exists indent, to, gap, from ::
      Blank(indent) && Word(to) && Blank(gap) && gap != "" && Word(from) && line == indent + (to + (gap + from))
  }

  /** Five words, of which the first three are fixed; single spaces between them. */
  ghost predicate RewriteForm(line: string) {
    exists indent, pattern, to ::
      && Blank(indent) && Word(pattern) && Word(to)
      && (|| line == indent + ("rewrite name exact " + (pattern + (" " + to)))
          || line == indent + ("rewrite name regex " + (pattern + (" " + to))))
  }

  lemma WordRegex(s: string)
    ensures Match(Plus(Class(NonSpace)), s) <==> Word(s)
  {
    hide Match;
    MatchPlusClass(NonSpace, s);
    BlankIsSpace(s);
  }

  lemma GapRegex(s: string)
    ensures Match(Star(Class(Space)), s) <==> Blank(s)
    ensures Match(Plus(Class(Space)), s) <==> Blank(s) && s != ""
  {
    hide Match;
    MatchStarClass(Space, s);
    MatchPlusClass(Space, s);
    BlankIsSpace(s);
  }

  /** A match of a concatenation, in both directions. */
  lemma CatParts(a: Regex, b: Regex, s: string)
    ensures Match(Cat(a, b), s) <==> exists x, y :: s == x + y && Match(a, x) && Match(b, y)
  {
    hide Match;
    if Match(Cat(a, b), s) {
      var i := SplitCat(a, b, s);
      assert s == s[..i] + s[i..];
    }
    if x, y :| s == x + y && Match(a, x) && Match(b, y) { MatchCat(a, b, x, y); }
  }

  lemma HostsLineForm(line: string)
    ensures Match(HOSTS_LINE_REGEX, line) <==> HostsForm(line)
  {
    hide Match, Blank, Word;
    var word, gap, indent := Plus(Class(NonSpace)), Plus(Class(Space)), Star(Class(Space));
    if Match(HOSTS_LINE_REGEX, line) {
      CatParts(indent, Cat(word, Cat(gap, word)), line);
      var x, y :| line == x + y && Match(indent, x) && Match(Cat(word, Cat(gap, word)), y);
      CatParts(word, Cat(gap, word), y);
      var to, z :| y == to + z && Match(word, to) && Match(Cat(gap, word), z);
      CatParts(gap, word, z);
      var g, from :| z == g + from && Match(gap, g) && Match(word, from);
      GapRegex(x);
      GapRegex(g);
      WordRegex(to);
      WordRegex(from);
    }
    if HostsForm(line) {
      var x, to, g, from :| && Blank(x) && Word(to) && Blank(g) && g != "" && Word(from)
                            && line == x + (to + (g + from));
      GapRegex(x);
      GapRegex(g);
      WordRegex(to);
      WordRegex(from);
      MatchCat(gap, word, g, from);
      MatchCat(word, Cat(gap, word), to, g + from);
      MatchCat(indent, Cat(word, Cat(gap, word)), x, to + (g + from));
    }
  }

  lemma VerbForm(s: string)
    ensures Match(Alt(Lit(EXACT_WORDS), Lit(REGEX_WORDS)), s)
            <==> s == "rewrite name exact " || s == "rewrite name regex "
  {
    hide Match, Lit;
    MatchAlt(Lit(EXACT_WORDS), Lit(REGEX_WORDS), s);
    MatchLit(EXACT_WORDS, s);
    MatchLit(REGEX_WORDS, s);
  }

  /** The last two words, with one space between them. */
  lemma LastWordsForm(s: string)
    ensures Match(Cat(Plus(Class(NonSpace)), Cat(Class(Only(' ')), Plus(Class(NonSpace)))), s)
            <==> exists pattern, to :: Word(pattern) && Word(to) && s == pattern + (" " + to)
  {
    hide Match, Word;
    var word := Plus(Class(NonSpace));
    var tail := Cat(Class(Only(' ')), word);
    if Match(Cat(word, tail), s) {
      CatParts(word, tail, s);
      var pattern, y :| s == pattern + y && Match(word, pattern) && Match(tail, y);
      MatchClassThen(Only(' '), word, y);
      WordRegex(pattern);
      WordRegex(y[1..]);
      assert y == " " + y[1..];
    }
    if pattern, to :| Word(pattern) && Word(to) && s == pattern + (" " + to) {
      WordRegex(pattern);
      WordRegex(to);
      MatchClassThen(Only(' '), word, " " + to);
      assert (" " + to)[1..] == to;
      MatchCat(word, tail, pattern, " " + to);
    }
  }

  lemma RewriteLineForm(line: string)
    ensures Match(REWRITE_LINE_REGEX, line) <==> RewriteForm(line)
  {
    hide Match, Lit, Blank, Word;
    var word, indent := Plus(Class(NonSpace)), Star(Class(Space));
    var verb, tail := Alt(Lit(EXACT_WORDS), Lit(REGEX_WORDS)), Cat(word, Cat(Class(Only(' ')), word));
    if Match(REWRITE_LINE_REGEX, line) {
      CatParts(indent, Cat(verb, tail), line);
      var x, y :| line == x + y && Match(indent, x) && Match(Cat(verb, tail), y);
      CatParts(verb, tail, y);
      var v, z :| y == v + z && Match(verb, v) && Match(tail, z);
      GapRegex(x);
      VerbForm(v);
      LastWordsForm(z);
    }
    if RewriteForm(line) {
      var x, pattern, to :| && Blank(x) && Word(pattern) && Word(to)
        && (|| line == x + ("rewrite name exact " + (pattern + (" " + to)))
            || line == x + ("rewrite name regex " + (pattern + (" " + to))));
      var z := pattern + (" " + to);
      var v := if line == x + ("rewrite name exact " + z) then "rewrite name exact " else "rewrite name regex ";
      GapRegex(x);
      VerbForm(v);
      LastWordsForm(z);
      MatchCat(verb, tail, v, z);
      MatchCat(indent, Cat(verb, tail), x, v + z);
    }
  }

  /** The fourth line of a block is accepted exactly if it has the words of its form. */
  lemma DirectiveLineForm(line: string, haveHosts: bool)
    ensures DirectiveLineOk(line, haveHosts) <==> if haveHosts then HostsForm(line) else RewriteForm(line)
  {
    hide Match;
    HostsLineForm(line);
    RewriteLineForm(line);
  }

  /* ---- whole texts ---- */

  /** What a text consists of: the first and the last lines of hosts blocks, and rules with their four lines. */
  datatype Item =
    | Opening
    | Closing
    | Entry(rule: RewriteRule, indents: (string, string, string), directive: string)

  function ItemLines(item: Item): seq<string> {
    match item
    case Opening => ["hosts /dev/null {"]
    case Closing => ["  ttl 10", "  fallthrough", "}"]
    case Entry(r, indents, directive) =>
      [indents.0 + ("# owner: " + r.owner), indents.1 + ("# from: " + r.from), indents.2 + ("# to: " + r.to), directive]
  }

  function Flatten(items: seq<Item>): seq<string> {
    if items == [] then [] else ItemLines(items[0]) + Flatten(items[1..])
  }

  ghost predicate EntryOk(item: Item, haveHosts: bool)
    requires item.Entry?
  {
    && Blank(item.indents.0) && Blank(item.indents.1) && Blank(item.indents.2)
    && item.rule.owner != "" && '\n' !in item.rule.owner + item.rule.from + item.rule.to
    && (if haveHosts then HostsForm(item.directive) else RewriteForm(item.directive))
    && NewRewriteRule(item.rule.owner, item.rule.from, item.rule.to) == Some(item.rule)
  }

  /** Inside or outside of a hosts block, the items take the rules from `m` to `m'`. A block is only opened where none
      is open; it may be closed anywhere, and need not be closed at the end. */
  ghost predicate Takes(items: seq<Item>, haveHosts: bool, m: RuleMap, m': RuleMap) {
    if items == [] then m' == m
    else
      match items[0]
      case Opening => !haveHosts && Takes(items[1..], true, m, m')
      case Closing => Takes(items[1..], false, m, m')
      case Entry(r, _, _) =>
        EntryOk(items[0], haveHosts) && Admits(m, r) && Takes(items[1..], haveHosts, m[r.owner := r], m')
  }

  lemma AcceptedNotEmpty(r: RewriteRule)
    requires Accepted(r)
    ensures r.from != "" && r.to != "" && '\n' !in r.from && '\n' !in r.to
  {
    hide Accepted;
    AcceptedChars(r);
    NoNewlineInWord(r.from);
    NoNewlineInWord(r.to);
  }

  lemma NoNewlineInWord(s: string)
    requires NoSpace(s)
    ensures '\n' !in s
  {
    assert IsSpace('\n');
  }

  lemma TaggedLine(tag: string, line: string, value: string)
    requires tag != "" && !IsSpace(tag[0])
    ensures Capture(tag, line) == Some(value)
            <==> value != "" && '\n' !in value && exists indent :: Blank(indent) && line == indent + (tag + value)
  {
    hide Capture, TagRegex, Match, IsSpace, Blank, AllSpace;
    CaptureIsSubmatch(tag, line);
    if Capture(tag, line) == Some(value) {
      var indent := CaptureParts(tag, line);
      BlankIsSpace(indent);
    }
    if value != "" && '\n' !in value {
      forall indent | Blank(indent) && line == indent + (tag + value) ensures Capture(tag, line) == Some(value) {
        BlankIsSpace(indent);
      }
    }
  }

  /** The four lines of an entry read as its rule, and four lines that read as a rule are those of an entry. */
  lemma EntryReads(item: Item, haveHosts: bool)
    requires item.Entry? && EntryOk(item, haveHosts)
    ensures ReadBlock(ItemLines(item), haveHosts) == Some(item.rule)
  {
    hide Capture, NewRewriteRule, DirectiveLineOk, HostsForm, RewriteForm, Blank;
    var r := item.rule;
    AcceptedNotEmpty(r);
    TaggedLine(OWNER_TAG, ItemLines(item)[0], r.owner);
    TaggedLine(FROM_TAG, ItemLines(item)[1], r.from);
    TaggedLine(TO_TAG, ItemLines(item)[2], r.to);
    DirectiveLineForm(item.directive, haveHosts);
  }

  lemma ReadsAsEntry(lines: seq<string>, haveHosts: bool) returns (item: Item)
    requires |lines| == 4 && ReadBlock(lines, haveHosts).Some?
    ensures item.Entry? && EntryOk(item, haveHosts) && ItemLines(item) == lines
    ensures ReadBlock(lines, haveHosts) == Some(item.rule)
  {
    hide Capture, CheckDnsName, ParsesAsIp, DirectiveLineOk, HostsForm, RewriteForm, Blank;
    var r := ReadBlock(lines, haveHosts).value;
    TaggedLine(OWNER_TAG, lines[0], r.owner);
    TaggedLine(FROM_TAG, lines[1], r.from);
    TaggedLine(TO_TAG, lines[2], r.to);
    DirectiveLineForm(lines[3], haveHosts);
    var x :| Blank(x) && lines[0] == x + (OWNER_TAG + r.owner);
    var y :| Blank(y) && lines[1] == y + (FROM_TAG + r.from);
    var z :| Blank(z) && lines[2] == z + (TO_TAG + r.to);
    item := Entry(r, (x, y, z), lines[3]);
  }

  /** The first line of an entry is no line of the hosts block. */
  lemma OwnerLineIsNoOther(line: string)
    requires Capture(OWNER_TAG, line).Some?
    ensures line != HOSTS_HEADER && line != TTL_LINE
  {
    assert TTL_LINE[1..] == " ttl 10" && TTL_LINE[2..] == "ttl 10";
  }

  /** One step of the reader at the first item. */
  lemma ItemStep(item: Item, rest: seq<string>, haveHosts: bool, m: RuleMap)
    requires item.Opening? ==> !haveHosts
    requires item.Entry? ==> EntryOk(item, haveHosts) && Admits(m, item.rule)
    ensures ParseLines(ItemLines(item) + rest, haveHosts, m)
            == match item
               case Opening => ParseLines(rest, true, m)
               case Closing => ParseLines(rest, false, m)
               case Entry(r, _, _) => ParseLines(rest, haveHosts, m[r.owner := r])
  {
    hide ReadBlock, Admits, EntryOk, ParseLines;
    var lines := ItemLines(item) + rest;
    ParseStep(lines, 0, haveHosts, m);
    assert lines[0..] == lines;
    match item
    case Opening => assert lines[1..] == rest;
    case Closing => assert lines[3..] == rest;
    case Entry(r, _, _) =>
      assert lines[4..] == rest && [lines[0], lines[1], lines[2], lines[3]] == ItemLines(item);
      EntryReads(item, haveHosts);
      OwnerLineOfBlock(ItemLines(item), haveHosts);
  }

  lemma OwnerLineOfBlock(lines: seq<string>, haveHosts: bool)
    requires |lines| >= 4 && ReadBlock(lines, haveHosts).Some?
    ensures lines[0] != HOSTS_HEADER && lines[0] != TTL_LINE
  {
    hide DirectiveLineOk, NewRewriteRule;
    OwnerLineIsNoOther(lines[0]);
  }

  lemma {:induction false} TakenIsParsed(items: seq<Item>, haveHosts: bool, m: RuleMap, m': RuleMap)
    requires Takes(items, haveHosts, m, m')
    ensures ParseLines(Flatten(items), haveHosts, m) == Some(m')
  {
    hide EntryOk, Admits, ParseLines, ItemLines;
    if items == [] {
      ParseNothing(haveHosts, m);
    } else {
      ItemStep(items[0], Flatten(items[1..]), haveHosts, m);
      match items[0]
      case Opening => TakenIsParsed(items[1..], true, m, m');
      case Closing => TakenIsParsed(items[1..], false, m, m');
      case Entry(r, _, _) => TakenIsParsed(items[1..], haveHosts, m[r.owner := r], m');
    }
  }

  lemma {:induction false} ParsedIsTaken(lines: seq<string>, haveHosts: bool, m: RuleMap) returns (items: seq<Item>)
    requires ParseLines(lines, haveHosts, m).Some?
    ensures Flatten(items) == lines && Takes(items, haveHosts, m, ParseLines(lines, haveHosts, m).value)
    decreases |lines|
  {
    hide EntryOk, Admits, ReadBlock;
    if lines == [] {
      items := [];
    } else if lines[0] == HOSTS_HEADER && !haveHosts {
      var more := ParsedIsTaken(lines[1..], true, m);
      items := [Opening] + more;
      assert lines == ItemLines(Opening) + lines[1..] && items[1..] == more;
    } else if ClosesHosts(lines) {
      var more := ParsedIsTaken(lines[3..], false, m);
      items := [Closing] + more;
      assert lines == ItemLines(Closing) + lines[3..] && items[1..] == more;
    } else {
      ReadBlockFour(lines, haveHosts);
      var item := ReadsAsEntry(lines[..4], haveHosts);
      var more := ParsedIsTaken(lines[4..], haveHosts, m[item.rule.owner := item.rule]);
      items := [item] + more;
      assert lines == ItemLines(item) + lines[4..] && items[1..] == more;
    }
  }

  lemma ReadBlockFour(lines: seq<string>, haveHosts: bool)
    requires |lines| >= 4
    ensures ReadBlock(lines, haveHosts) == ReadBlock(lines[..4], haveHosts)
  {
    hide Capture, DirectiveLineOk, NewRewriteRule;
  }

  /** A text is accepted, with the rules `m`, exactly if it is empty or its lines are those of items that take the
      empty set to `m`. */
  lemma AcceptedTexts(text: string, m: RuleMap)
    ensures Parse(text) == Some(m)
            <==> if text == "" then m == map[]
                 else exists items :: Split(text, '\n') == Flatten(items) && Takes(items, false, map[], m)
  {
    hide ParseLines, Split, Takes, Flatten;
    if text != "" {
      if Parse(text) == Some(m) {
        var items := ParsedIsTaken(Split(text, '\n'), false, map[]);
        assert Split(text, '\n') == Flatten(items) && Takes(items, false, map[], m);
      }
      if items :| Split(text, '\n') == Flatten(items) && Takes(items, false, map[], m) {
        TakenIsParsed(items, false, map[], m);
      }
    }
  }
}
