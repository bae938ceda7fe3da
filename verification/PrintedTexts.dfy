/** What a written snippet looks like, line by line (internal/coredns/rewrite.go). */
module PrintedTexts {
  import opened Text
  import opened RewriteRules
  import opened RuleMaps
  import opened Snippets

  /** The four lines of a rule. */
  lemma BlockText(r: RewriteRule, inHosts: bool)
    ensures Block(r, inHosts)
            == if inHosts then
                 ["  # owner: " + r.owner, "  # from: " + r.from, "  # to: " + r.to, "  " + r.to + " " + r.from]
               else
                 ["# owner: " + r.owner, "# from: " + r.from, "# to: " + r.to,
                  if r.FromIsWildcard() then
                    "rewrite name regex " + ReplaceAll(ReplaceAll(r.from, '.', "\\."), '*', ".*") + " " + r.to
                  else "rewrite name exact " + r.from + " " + r.to]
  {
    hide RewriteRule.FromIsWildcard, ReplaceAll;
    assert "  " + "# owner: " == "  # owner: ";
    assert "  " + "# from: " == "  # from: ";
    assert "  " + "# to: " == "  # to: ";
    assert "" + "# owner: " == "# owner: " && "" + "# from: " == "# from: " && "" + "# to: " == "# to: ";
  }

  /** The owners, each of which precedes all later ones. */
  ghost predicate OwnersInOrder(m: RuleMap, owners: seq<string>) {
    && (forall o :: o in owners <==> o in m)
    && (forall i, j | 0 <= i < j < |owners| :: Precedes(owners[i], owners[j]))
  }

  /** The text consists of the rules with addresses for targets, in a hosts block if there are any, and of the other
      rules behind it, both in the order of their owners. */
  lemma PrintedText(m: RuleMap, owners: seq<string>)
    requires OwnersInOrder(m, owners)
    ensures var addresses, names := Section(m, owners, true), Section(m, owners, false);
            Lines(m)
            == (if addresses == [] then []
                else ["hosts /dev/null {"] + Blocks(addresses, true) + ["  ttl 10", "  fallthrough", "}"])
               + Blocks(names, false)
  {
    hide SortedKeys, Section, Blocks, Precedes;
    forall i, j | 0 <= i < j < |owners| ensures Before(owners[i], owners[j]) {
      BeforeIffPrecedes(owners[i], owners[j]);
    }
    SortedListingUnique(owners, SortedKeys(m.Keys), m.Keys);
  }

  /** The text of two rules, in full. */
  lemma TextOfTwo(m: RuleMap, o: string, p: string)
    requires m.Keys == {o, p} && Precedes(o, p)
    ensures var first, second := m[o], m[p];
            var head, foot := ["hosts /dev/null {"], ["  ttl 10", "  fallthrough", "}"];
            Lines(m)
            == if first.ToIsIpAddress() && second.ToIsIpAddress() then
                 head + Block(first, true) + Block(second, true) + foot
               else if first.ToIsIpAddress() then head + Block(first, true) + foot + Block(second, false)
               else if second.ToIsIpAddress() then head + Block(second, true) + foot + Block(first, false)
               else Block(first, false) + Block(second, false)
  {
    hide Section, Block, Blocks, RewriteRule.ToIsIpAddress, Lines, Precedes;
    var first, second := m[o], m[p];
    PrintedText(m, [o, p]);
    TwoSections(m, o, p, true);
    TwoSections(m, o, p, false);
    TwoBlocks(first, second, first.ToIsIpAddress());
    OneBlock(first, first.ToIsIpAddress());
    OneBlock(second, second.ToIsIpAddress());
    assert Blocks([], false) == [] by { EmptySection(m, false); }
  }

  lemma TwoSections(m: RuleMap, o: string, p: string, ip: bool)
    requires o in m && p in m
    ensures Section(m, [o, p], ip)
            == if m[o].ToIsIpAddress() == ip then if m[p].ToIsIpAddress() == ip then [m[o], m[p]] else [m[o]]
               else if m[p].ToIsIpAddress() == ip then [m[p]] else []
  {
    hide Section, RewriteRule.ToIsIpAddress;
    EmptySection(m, ip);
    SectionStep(m, [o, p], 0, ip);
    SectionStep(m, [o, p], 1, ip);
    assert [o, p][..0] == [] && [o, p][..2] == [o, p];
  }

  lemma TwoBlocks(first: RewriteRule, second: RewriteRule, inHosts: bool)
    ensures Blocks([first, second], inHosts) == Block(first, inHosts) + Block(second, inHosts)
  {
    hide Block, Blocks;
    BlocksStep([first], second, inHosts);
    OneBlock(first, inHosts);
    assert [first] + [second] == [first, second];
  }

  lemma OneBlock(r: RewriteRule, inHosts: bool)
    ensures Blocks([r], inHosts) == Block(r, inHosts)
  {
    hide Block;
    assert [r][..0] == [] && Blocks([r][..0], inHosts) == [];
  }
}
