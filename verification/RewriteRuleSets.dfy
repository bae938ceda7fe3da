/** The mutable rule set (internal/coredns/rewrite.go). Its methods visit the owners in any order. */
module RewriteRuleSets {
  import opened Options
  import opened Text
  import opened RewriteRules
  import opened RuleMaps
  import opened Snippets

  class RewriteRuleSet {
    var rulesByOwner: RuleMap

    ghost predicate Valid()
      reads this
    {
      Consistent(rulesByOwner)
    }

    constructor ()
      ensures Valid() && rulesByOwner == map[]
    {
      rulesByOwner := map[];
    }

    method GetRule(owner: string) returns (found: Option<RewriteRule>)
      requires Valid()
      ensures found.Some? <==> owner in rulesByOwner
      ensures found.Some? ==> found.value == rulesByOwner[owner] && found.value.owner == owner
    {
      found := if owner in rulesByOwner then Some(rulesByOwner[owner]) else None;
    }

    /** Whatever the order of iteration, the answer is the one of the specification. */
    method FindMatchingRule(host: string) returns (found: Option<RewriteRule>)
      requires Valid()
      ensures Finds(rulesByOwner, host, found)
      ensures forall other | Finds(rulesByOwner, host, other) :: other == found
    {
      found := None;
      var rest := rulesByOwner.Keys;
      while rest != {}
        invariant rest <= rulesByOwner.Keys && found.None?
        invariant forall o | o in rulesByOwner && o !in rest :: !rulesByOwner[o].Matches(host)
      {
        var o :| o in rest;
        if rulesByOwner[o].Matches(host) {
          found := Some(rulesByOwner[o]);
          break;
        }
        rest := rest - {o};
      }
      forall other | Finds(rulesByOwner, host, other) ensures other == found {
        FindsUnique(rulesByOwner, host, other, found);
      }
    }

    /** Adds a rule unless it clashes with a rule of another owner; says whether the set has changed. */
    method AddRule(r: RewriteRule) returns (ok: bool, changed: bool)
      requires Valid()
      modifies this
      ensures Valid()
      ensures ok <==> Admits(old(rulesByOwner), r)
      ensures rulesByOwner == if ok then old(rulesByOwner)[r.owner := r] else old(rulesByOwner)
      ensures changed <==> rulesByOwner != old(rulesByOwner)
    {
      var rest := rulesByOwner.Keys;
      while rest != {}
        invariant rest <= rulesByOwner.Keys
        invariant forall o | o in rulesByOwner && o !in rest && rulesByOwner[o].owner != r.owner ::
                    !Clash(rulesByOwner[o], r)
      {
        var o :| o in rest;
        var t := rulesByOwner[o];
        if t.owner != r.owner && (t.Matches(r.from) || r.Matches(t.from)) {
          assert Clash(t, r);
          return false, false;
        }
        rest := rest - {o};
      }
      AddKeepsConsistent(rulesByOwner, r);
      changed := true;
      if r.owner in rulesByOwner {
        var s := rulesByOwner[r.owner];
        changed := r.from != s.from || r.to != s.to;
      }
      ghost var before := rulesByOwner;
      rulesByOwner := rulesByOwner[r.owner := r];
      ok := true;
      assert changed ==> (r.owner !in before || before[r.owner] != rulesByOwner[r.owner]);
    }

    method RemoveRule(owner: string) returns (changed: bool)
      requires Valid()
      modifies this
      ensures Valid()
      ensures rulesByOwner == RuleMaps.RemoveRule(old(rulesByOwner), owner)
      ensures changed <==> rulesByOwner != old(rulesByOwner)
    {
      changed := owner in rulesByOwner;
      ghost var before := rulesByOwner;
      if changed {
        rulesByOwner := rulesByOwner - {owner};
      }
      assert changed ==> owner in before && owner !in rulesByOwner;
    }

    method SortedOwners() returns (owners: seq<string>)
      ensures owners == SortedKeys(rulesByOwner.Keys)
      ensures forall i | 0 < i < |owners| :: Precedes(owners[i - 1], owners[i])
      ensures forall o :: o in owners <==> o in rulesByOwner
    {
      var keys, rest := [], rulesByOwner.Keys;
      while rest != {}
        invariant rest <= rulesByOwner.Keys && Distinct(keys)
        invariant forall k :: k in keys <==> k in rulesByOwner.Keys - rest
      {
        var o :| o in rest;
        assert o !in keys;
        keys := keys + [o];
        rest := rest - {o};
      }
      SortGivesListing(keys, rulesByOwner.Keys);
      owners := Sort(keys);
      SortedListingUnique(owners, SortedKeys(rulesByOwner.Keys), rulesByOwner.Keys);
      forall i | 0 < i < |owners| ensures Precedes(owners[i - 1], owners[i]) {
        BeforeIffPrecedes(owners[i - 1], owners[i]);
      }
    }

    /** The text depends on the rules alone, not on the order of iteration or on the history of the set. */
    method String() returns (text: string)
      ensures text == Print(rulesByOwner)
    {
      var lines := HostsLines();
      var nameLines := NameLines();
      text := Join(lines + nameLines, '\n');
    }

    /** The first half: the hosts block, if some target is an IP address. */
    method HostsLines() returns (lines: seq<string>)
      ensures lines == HostsBlock(Section(rulesByOwner, SortedKeys(rulesByOwner.Keys), true))
    {
      hide Section, Blocks, RewriteRule.ToIsIpAddress, SortedKeys, Consistent, Precedes;
      lines := [];
      var haveHosts := false;
      var owners := SortedOwners();
      ghost var done: seq<RewriteRule> := [];
      EmptySection(rulesByOwner, true);
      var i := 0;
      while i < |owners|
        invariant 0 <= i <= |owners|
        invariant done == Section(rulesByOwner, owners[..i], true)
        invariant haveHosts <==> done != []
        invariant lines == if haveHosts then [HOSTS_HEADER] + Blocks(done, true) else []
      {
        var r := rulesByOwner[owners[i]];
        SectionStep(rulesByOwner, owners, i, true);
        if r.ToIsIpAddress() {
          if !haveHosts {
            haveHosts := true;
            lines := lines + [HOSTS_HEADER];
          }
          assert lines == [HOSTS_HEADER] + Blocks(done, true);
          BlocksStep(done, r, true);
          done := done + [r];
          lines := lines + ["  " + OWNER_TAG + r.owner];
          lines := lines + ["  " + FROM_TAG + r.from];
          lines := lines + ["  " + TO_TAG + r.to];
          lines := lines + ["  " + r.to + " " + r.from];
        }
        i := i + 1;
      }
      assert owners[..i] == owners;
      if haveHosts {
        lines := lines + [TTL_LINE];
        lines := lines + [FALLTHROUGH_LINE];
        lines := lines + [CLOSING_LINE];
      }
    }

    /** The second half: the rewrite lines for the other targets. */
    method NameLines() returns (lines: seq<string>)
      ensures lines == Blocks(Section(rulesByOwner, SortedKeys(rulesByOwner.Keys), false), false)
    {
      hide Section, Blocks, RewriteRule.ToIsIpAddress, RewriteRule.FromIsWildcard, SortedKeys, ReplaceAll, Precedes;
      lines := [];
      var owners := SortedOwners();
      ghost var done: seq<RewriteRule> := [];
      EmptySection(rulesByOwner, false);
      var i := 0;
      while i < |owners|
        invariant 0 <= i <= |owners|
        invariant done == Section(rulesByOwner, owners[..i], false)
        invariant lines == Blocks(done, false)
      {
        var r := rulesByOwner[owners[i]];
        SectionStep(rulesByOwner, owners, i, false);
        if !r.ToIsIpAddress() {
          BlocksStep(done, r, false);
          assert Indent(false) + OWNER_TAG == OWNER_TAG && Indent(false) + FROM_TAG == FROM_TAG
                 && Indent(false) + TO_TAG == TO_TAG;
          done := done + [r];
          lines := lines + [OWNER_TAG + r.owner];
          lines := lines + [FROM_TAG + r.from];
          lines := lines + [TO_TAG + r.to];
          if r.FromIsWildcard() {
            lines := lines + [REGEX_WORDS + ReplaceAll(ReplaceAll(r.from, '.', "\\."), '*', ".*") + " " + r.to];
          } else {
            lines := lines + [EXACT_WORDS + r.from + " " + r.to];
          }
        }
        i := i + 1;
      }
      assert owners[..i] == owners;
    }
  }

  /** Reads a snippet; fails exactly when the specification of the reader does. */
  method ParseRewriteRuleSet(text: string) returns (ok: bool, rs: RewriteRuleSet)
    ensures fresh(rs) && rs.Valid()
    ensures ok <==> Parse(text).Some?
    ensures ok ==> rs.rulesByOwner == Parse(text).value
  {
    hide Capture, DirectiveLineOk, NewRewriteRule, Consistent, Admits, Split, ParseLines;
    rs := new RewriteRuleSet();
    if text == "" {
      return true, rs;
    }
    var lines := Split(text, '\n');
    assert lines[0..] == lines;
    var haveHosts := false;
    var i := 0;
    while i < |lines|
      invariant 0 <= i <= |lines| && rs.Valid() && fresh(rs)
      invariant ParseLines(lines[i..], haveHosts, rs.rulesByOwner) == Parse(text)
    {
      ParseStep(lines, i, haveHosts, rs.rulesByOwner);
      if lines[i] == HOSTS_HEADER && !haveHosts {
        haveHosts := true;
        i := i + 1;
        continue;
      }
      if i + 2 < |lines| && lines[i] == TTL_LINE && lines[i + 1] == FALLTHROUGH_LINE && lines[i + 2] == CLOSING_LINE {
        haveHosts := false;
        i := i + 3;
        continue;
      }
      var owner := Capture(OWNER_TAG, lines[i]);
      if owner.None? {
        return false, rs;
      }
      i := i + 1;
      if i >= |lines| {
        return false, rs;
      }
      var from := Capture(FROM_TAG, lines[i]);
      if from.None? {
        return false, rs;
      }
      i := i + 1;
      if i >= |lines| {
        return false, rs;
      }
      var to := Capture(TO_TAG, lines[i]);
      if to.None? {
        return false, rs;
      }
      i := i + 1;
      if i >= |lines| {
        return false, rs;
      }
      if !DirectiveLineOk(lines[i], haveHosts) {
        return false, rs;
      }
      var r := NewRewriteRule(owner.value, from.value, to.value);
      if r.None? {
        return false, rs;
      }
      var added, _ := rs.AddRule(r.value);
      if !added {
        return false, rs;
      }
      i := i + 1;
    }
    assert lines[i..] == [];
    ParseNothing(haveHosts, rs.rulesByOwner);
    return true, rs;
  }
}
