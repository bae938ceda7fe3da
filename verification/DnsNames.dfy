/** DNS name validation (internal/dnsutil/name.go). */
module DnsNames {
  import opened Text
  import opened Regexes

  const LABEL_SEPARATOR := '.'

  function EdgeClass(upper: bool): CharClass {
    if upper then Alnum else LowerAlnum
  }

  function InnerClass(upper: bool): CharClass {
    if upper then AlnumHyphen else LowerAlnumHyphen
  }

  /** `[e]|[e][i]{0,61}[e]` */
  function LabelRegex(upper: bool): Regex {
    var edge := Class(EdgeClass(upper));
    Alt(edge, Cat(edge, Cat(UpTo(Class(InnerClass(upper)), 61), edge)))
  }

  /** `(\.label)*` */
  function FurtherLabelsRegex(upper: bool): Regex {
    Star(Cat(Class(Only(LABEL_SEPARATOR)), LabelRegex(upper)))
  }

  function NameRegex(upper: bool): Regex {
    Cat(LabelRegex(upper), FurtherLabelsRegex(upper))
  }

  /** The effect of replacing the regular expression `^\*(.*)$` by `wildcard$1`. */
  function ReplaceLeadingStar(s: string): string {
    if s != "" && s[0] == '*' && '\n' !in s[1..] then "wildcard" + s[1..] else s
  }

  predicate CheckDnsName(s: string, allowUppercase: bool, allowWildcard: bool) {
    var name := if allowWildcard then ReplaceLeadingStar(s) else s;
    |name| <= 255 && Match(NameRegex(allowUppercase), name)
  }

  /* ---- the grammar of sections 2.1 of RFC 1123 and 2.3.4 of RFC 1035 ---- */

  /** A letter, a digit or a hyphen. */
  predicate IsLabelChar(c: char, upper: bool) {
    'a' <= c <= 'z' || '0' <= c <= '9' || c == '-' || (upper && 'A' <= c <= 'Z')
  }

  predicate ValidLabel(part: string, upper: bool) {
    && 1 <= |part| <= 63 && part[0] != '-' && part[|part| - 1] != '-'
    && forall i | 0 <= i < |part| :: IsLabelChar(part[i], upper)
  }

  predicate ValidLabels(labels: seq<string>, upper: bool) {
    forall i | 0 <= i < |labels| :: ValidLabel(labels[i], upper)
  }

  lemma LabelGrammar(upper: bool, s: string)
    ensures Match(LabelRegex(upper), s) <==> ValidLabel(s, upper)
  {
    hide Match;
    var edge, inner := EdgeClass(upper), InnerClass(upper);
    var body := UpTo(Class(inner), 61);
    MatchAlt(Class(edge), Cat(Class(edge), Cat(body, Class(edge))), s);
    MatchClass(edge, s);
    MatchClassThen(edge, Cat(body, Class(edge)), s);
    if s != "" { MatchThenClass(body, edge, s[1..]); }
    if |s| > 1 {
      var middle := s[1..|s| - 1];
      assert s[1..][..|s| - 2] == middle && s[1..][|s| - 2] == s[|s| - 1];
      MatchUpToClass(inner, 61, middle);
      assert forall k | 1 <= k < |s| - 1 :: s[k] == middle[k - 1];
    }
    LabelClasses(upper);
  }

  /** Which characters the expressions allow inside a label and at its ends. */
  lemma LabelClasses(upper: bool)
    ensures forall c: char :: InnerClass(upper).Has(c) <==> IsLabelChar(c, upper)
    ensures forall c: char :: EdgeClass(upper).Has(c) <==> IsLabelChar(c, upper) && c != '-'
  {
  }

  lemma LabelHasNoDot(part: string, upper: bool)
    requires ValidLabel(part, upper)
    ensures LABEL_SEPARATOR !in part
  {
    forall i | 0 <= i < |part| ensures part[i] != LABEL_SEPARATOR {
      assert IsLabelChar(part[i], upper);
    }
  }

  lemma FirstOfLabels(part: string, others: seq<string>, upper: bool)
    ensures ValidLabels([part] + others, upper) <==> ValidLabel(part, upper) && ValidLabels(others, upper)
  {
    hide ValidLabel;
    var all := [part] + others;
    assert all[0] == part && forall i | 0 <= i < |others| :: all[i + 1] == others[i];
    assert forall i | 1 <= i < |all| :: all[i] == others[i - 1];
  }

  /** A valid first label followed by nothing or by a dot and more labels. */
  lemma PrependLabel(upper: bool, part: string, rest: string)
    requires ValidLabel(part, upper)
    requires rest == "" || rest[0] == LABEL_SEPARATOR
    ensures Split(part + rest, LABEL_SEPARATOR)
            == [part] + if rest == "" then [] else Split(rest[1..], LABEL_SEPARATOR)
    ensures ValidLabels(Split(part + rest, LABEL_SEPARATOR), upper)
            <==> rest == "" || ValidLabels(Split(rest[1..], LABEL_SEPARATOR), upper)
  {
    hide ValidLabel, ValidLabels, Split;
    LabelHasNoDot(part, upper);
    SplitHead(part, if rest == "" then "" else rest[1..], LABEL_SEPARATOR);
    if rest == "" {
      assert part + rest == part;
      FirstOfLabels(part, [], upper);
      assert ValidLabels([], upper) by { NoLabels(upper); }
    } else {
      assert part + rest == part + [LABEL_SEPARATOR] + rest[1..];
      FirstOfLabels(part, Split(rest[1..], LABEL_SEPARATOR), upper);
    }
  }

  lemma NoLabels(upper: bool)
    ensures ValidLabels([], upper)
  {
  }

  lemma FirstLabel(upper: bool, s: string) returns (part: string, rest: string)
    requires ValidLabels(Split(s, LABEL_SEPARATOR), upper)
    ensures s == part + rest && ValidLabel(part, upper)
    ensures rest == "" || (rest[0] == LABEL_SEPARATOR && ValidLabels(Split(rest[1..], LABEL_SEPARATOR), upper))
  {
    part := Split(s, LABEL_SEPARATOR)[0];
    SplitFirst(s, LABEL_SEPARATOR);
    rest := s[|part|..];
    if rest != "" {
      assert rest[1..] == s[|part| + 1..];
      PrependLabel(upper, part, rest);
    }
  }

  /** One step `\.label` of the repetition, for any expression `lr` that is matched by `part`. */
  lemma StepMatch(lr: Regex, part: string)
    requires Match(lr, part)
    ensures Match(Cat(Class(Only(LABEL_SEPARATOR)), lr), [LABEL_SEPARATOR] + part)
  {
    MatchCat(Class(Only(LABEL_SEPARATOR)), lr, [LABEL_SEPARATOR], part);
  }

  lemma StepParts(lr: Regex, s: string)
    requires Match(Cat(Class(Only(LABEL_SEPARATOR)), lr), s)
    ensures s != "" && s[0] == LABEL_SEPARATOR && Match(lr, s[1..])
  {
    MatchClassThen(Only(LABEL_SEPARATOR), lr, s);
  }

  /** The repetition `(step)*`, of which the two directions below know only what one step looks like. */
  lemma {:induction false} FurtherLabelsSound(upper: bool, step: Regex, s: string)
    requires step == Cat(Class(Only(LABEL_SEPARATOR)), LabelRegex(upper))
    requires Match(Star(step), s) && s != ""
    ensures s[0] == LABEL_SEPARATOR && ValidLabels(Split(s[1..], LABEL_SEPARATOR), upper)
    decreases |s|
  {
    hide Match, ValidLabel, LabelRegex;
    var i := SplitStar(step, s);
    var part, rest := s[..i][1..], s[i..];
    StepParts(LabelRegex(upper), s[..i]);
    LabelGrammar(upper, part);
    if rest != "" { FurtherLabelsSound(upper, step, rest); }
    PrependLabel(upper, part, rest);
    assert s[1..] == part + rest && s[0] == s[..i][0];
  }

  lemma {:induction false} FurtherLabelsComplete(upper: bool, step: Regex, s: string)
    requires step == Cat(Class(Only(LABEL_SEPARATOR)), LabelRegex(upper))
    requires s == "" || (s[0] == LABEL_SEPARATOR && ValidLabels(Split(s[1..], LABEL_SEPARATOR), upper))
    ensures Match(Star(step), s)
    decreases |s|
  {
    if s != "" {
      var part, rest := FirstLabel(upper, s[1..]);
      FurtherLabelsComplete(upper, step, rest);
      LabelGrammar(upper, part);
      StepMatch(LabelRegex(upper), part);
      MatchStarStep(step, [LABEL_SEPARATOR] + part, rest);
      assert s == [LABEL_SEPARATOR] + part + rest;
    }
  }

  lemma NameRegexGrammar(upper: bool, s: string)
    ensures Match(NameRegex(upper), s) <==> ValidLabels(Split(s, LABEL_SEPARATOR), upper)
  {
    if Match(NameRegex(upper), s) { NameRegexSound(upper, s); }
    if ValidLabels(Split(s, LABEL_SEPARATOR), upper) { NameRegexComplete(upper, s); }
  }

  lemma NameRegexSound(upper: bool, s: string)
    requires Match(NameRegex(upper), s)
    ensures ValidLabels(Split(s, LABEL_SEPARATOR), upper)
  {
    var step := Cat(Class(Only(LABEL_SEPARATOR)), LabelRegex(upper));
    var i := SplitCat(LabelRegex(upper), Star(step), s);
    LabelGrammar(upper, s[..i]);
    if s[i..] != "" { FurtherLabelsSound(upper, step, s[i..]); }
    PrependLabel(upper, s[..i], s[i..]);
    assert s == s[..i] + s[i..];
  }

  lemma NameRegexComplete(upper: bool, s: string)
    requires ValidLabels(Split(s, LABEL_SEPARATOR), upper)
    ensures Match(NameRegex(upper), s)
  {
    var step := Cat(Class(Only(LABEL_SEPARATOR)), LabelRegex(upper));
    var part, rest := FirstLabel(upper, s);
    LabelGrammar(upper, part);
    FurtherLabelsComplete(upper, step, rest);
    MatchCat(LabelRegex(upper), Star(step), part, rest);
  }

  /** The check accepts exactly the names of the grammar; where wildcards are allowed, a leading `*` counts as the
      eight letters of `wildcard`. */
  lemma NameGrammar(s: string, upper: bool)
    ensures CheckDnsName(s, upper, false) <==> |s| <= 255 && ValidLabels(Split(s, '.'), upper)
    ensures CheckDnsName(s, upper, true)
            <==> CheckDnsName(if s != "" && s[0] == '*' then "wildcard" + s[1..] else s, upper, false)
  {
    hide Match;
    NameRegexGrammar(upper, s);
    if s != "" && s[0] == '*' && '\n' in s[1..] {
      NameHasNoNewline("wildcard" + s[1..], upper);
      NameHasNoNewline(s, upper);
      assert ("wildcard" + s[1..])[8..] == s[1..];
    }
  }

  lemma {:induction false} LabelCharsOnly(s: string, upper: bool)
    requires ValidLabels(Split(s, LABEL_SEPARATOR), upper)
    ensures forall i | 0 <= i < |s| :: IsLabelChar(s[i], upper) || s[i] == LABEL_SEPARATOR
    decreases |s|
  {
    var part := Split(s, LABEL_SEPARATOR)[0];
    SplitFirst(s, LABEL_SEPARATOR);
    assert ValidLabel(part, upper);
    if s != part {
      var rest := s[|part| + 1..];
      assert Split(rest, LABEL_SEPARATOR) == Split(s, LABEL_SEPARATOR)[1..];
      LabelCharsOnly(rest, upper);
      forall i | 0 <= i < |s| ensures IsLabelChar(s[i], upper) || s[i] == LABEL_SEPARATOR {
        if i < |part| { assert s[i] == part[i]; }
        if i > |part| { assert s[i] == rest[i - |part| - 1]; }
      }
    }
  }

  lemma NameHasNoNewline(s: string, upper: bool)
    requires '\n' in s
    ensures !CheckDnsName(s, upper, false)
  {
    hide Match;
    NameRegexGrammar(upper, s);
    if ValidLabels(Split(s, LABEL_SEPARATOR), upper) { LabelCharsOnly(s, upper); }
  }

  /** The first label of a wildcard name behind its asterisk: it may be empty, may start with a hyphen, and is at
      most 55 long. */
  predicate ValidAfterStar(part: string, upper: bool) {
    && |part| <= 55 && (part != "" ==> part[|part| - 1] != '-')
    && forall i | 0 <= i < |part| :: IsLabelChar(part[i], upper)
  }

  /** Which wildcard names the check accepts; the asterisk need not be a label of its own. */
  lemma WildcardGrammar(rest: string, upper: bool)
    ensures CheckDnsName("*" + rest, upper, true)
            <==> && |rest| <= 247 && ValidAfterStar(Split(rest, '.')[0], upper)
                 && ValidLabels(Split(rest, '.')[1..], upper)
  {
    hide CheckDnsName, ValidLabel, ValidLabels, ValidAfterStar, Split;
    var first, others := Split(rest, '.')[0], Split(rest, '.')[1..];
    NameGrammar("*" + rest, upper);
    NameGrammar("wildcard" + rest, upper);
    assert ("*" + rest)[0] == '*' && ("*" + rest)[1..] == rest;
    WildcardSplit(rest);
    WildcardLabel(first, upper);
    FirstOfLabels("wildcard" + first, others, upper);
  }

  lemma WildcardSplit(rest: string)
    ensures Split("wildcard" + rest, '.') == ["wildcard" + Split(rest, '.')[0]] + Split(rest, '.')[1..]
  {
    hide Split;
    var first := Split(rest, '.')[0];
    SplitFirst(rest, '.');
    NoDotInFront(first);
    if rest == first {
      SplitHead("wildcard" + first, "", '.');
    } else {
      var more := rest[|first| + 1..];
      SplitHead("wildcard" + first, more, '.');
      assert "wildcard" + (first + ['.'] + more) == "wildcard" + first + ['.'] + more;
    }
  }

  lemma NoDotInFront(s: string)
    requires '.' !in s
    ensures '.' !in "wildcard" + s
  {
  }

  lemma WildcardLabel(part: string, upper: bool)
    ensures ValidLabel("wildcard" + part, upper) <==> ValidAfterStar(part, upper)
  {
    var whole := "wildcard" + part;
    assert forall i | 0 <= i < |part| :: whole[i + 8] == part[i];
    assert forall i | 0 <= i < 8 :: IsLabelChar(whole[i], upper);
    assert forall i | 8 <= i < |whole| :: whole[i] == part[i - 8];
  }

  /** A lower-case letter, a digit, a hyphen or a dot. */
  predicate IsNameChar(c: char) {
    IsLabelChar(c, false) || c == LABEL_SEPARATOR
  }

  lemma NameChars(s: string)
    requires ValidLabels(Split(s, LABEL_SEPARATOR), false)
    ensures s != "" && forall i | 0 <= i < |s| :: IsNameChar(s[i])
  {
    SplitFirst(s, LABEL_SEPARATOR);
    assert ValidLabel(Split(s, LABEL_SEPARATOR)[0], false);
    LabelCharsOnly(s, false);
  }

  /** What the other proofs use of an accepted lower-case name: it is not empty and holds name characters
      only, except that a wildcard name starts with `*`. */
  lemma AcceptedNameChars(s: string, wildcard: bool)
    requires CheckDnsName(s, false, wildcard)
    ensures s != ""
    ensures forall i | 0 <= i < |s| :: IsNameChar(s[i]) || (wildcard && i == 0 && s[i] == '*')
  {
    var name := if wildcard then ReplaceLeadingStar(s) else s;
    NameGrammar(s, false);
    NameGrammar(name, false);
    NameChars(name);
    if name != s {
      forall i | 1 <= i < |s| ensures IsNameChar(s[i]) {
        assert s[i] == name[i + 7];
      }
    }
  }
}
