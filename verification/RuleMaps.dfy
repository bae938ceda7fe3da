/** The values of a rule set: maps from owners to rules, and the operations on them
    (internal/coredns/rewrite.go). */
module RuleMaps {
  import opened Options
  import opened RewriteRules
  import opened DnsNames

  type RuleMap = map<string, RewriteRule>

  /** The guarantees of a rule set: rules are stored under their owners, and no two of them clash. */
  ghost predicate Consistent(m: RuleMap) {
    && (forall o | o in m :: m[o].owner == o)
    && (forall o, p | o in m && p in m && o != p :: !Clash(m[o], m[p]))
  }

  /** The rule may join the map: it clashes with no rule of another owner. */
  ghost predicate Admits(m: RuleMap, r: RewriteRule) {
    forall o | o in m && m[o].owner != r.owner :: !Clash(m[o], r)
  }

  ghost function AddRule(m: RuleMap, r: RewriteRule): Option<RuleMap> {
    if Admits(m, r) then Some(m[r.owner := r]) else None
  }

  function RemoveRule(m: RuleMap, owner: string): RuleMap {
    m - {owner}
  }

  lemma AddKeepsConsistent(m: RuleMap, r: RewriteRule)
    requires Consistent(m) && Admits(m, r)
    ensures Consistent(m[r.owner := r])
  {
    var m' := m[r.owner := r];
    forall o, p | o in m' && p in m' && o != p ensures !Clash(m'[o], m'[p]) {
      if o == r.owner { ClashSymmetric(m'[p], r); }
    }
  }

  /** A rule of a consistent map is admitted again by every part of that map. */
  lemma PartAdmits(m: RuleMap, part: RuleMap, o: string)
    requires Consistent(m) && o in m
    requires forall p | p in part :: p in m && part[p] == m[p]
    ensures Admits(part, m[o])
  {
  }

  /** A new rule is refused exactly when some string is matched by it and by a rule of another owner. */
  lemma RefusedIffCommonName(m: RuleMap, r: RewriteRule)
    requires Consistent(m)
    ensures AddRule(m, r).None?
            <==> exists o, host :: o in m && o != r.owner && m[o].Matches(host) && r.Matches(host)
  {
    forall o | o in m ensures Clash(m[o], r) <==> exists host :: m[o].Matches(host) && r.Matches(host) {
      ClashIffCommonName(m[o], r);
    }
  }

  /** The same for names that can be looked up, for sources that the schema allows. */
  lemma RefusedIffCommonDnsName(m: RuleMap, r: RewriteRule)
    requires Consistent(m) && Accepted(r) && StarOnlyAsLabel(r.from)
    requires forall o | o in m :: Accepted(m[o]) && StarOnlyAsLabel(m[o].from)
    ensures AddRule(m, r).None?
            <==> exists o, host :: o in m && o != r.owner && CheckDnsName(host, false, false)
                                   && m[o].Matches(host) && r.Matches(host)
  {
    forall o | o in m
      ensures Clash(m[o], r)
              <==> exists host :: CheckDnsName(host, false, false) && m[o].Matches(host) && r.Matches(host)
    {
      ClashIffCommonDnsName(m[o], r);
    }
  }

  /* ---- histories ---- */

  datatype Op = Add(rule: RewriteRule) | Remove(owner: string)

  /** The value of a set after a sequence of calls; a refused add leaves it as it was. */
  ghost function AfterOps(m: RuleMap, ops: seq<Op>): RuleMap
    decreases |ops|
  {
    if ops == [] then m
    else
      var before := AfterOps(m, ops[..|ops| - 1]);
      match ops[|ops| - 1]
      case Add(r) => (match AddRule(before, r) case Some(after) => after case None => before)
      case Remove(o) => RemoveRule(before, o)
  }

  lemma {:induction false} HistoryConsistent(ops: seq<Op>)
    ensures Consistent(AfterOps(map[], ops))
    decreases |ops|
  {
    if ops != [] {
      var before := AfterOps(map[], ops[..|ops| - 1]);
      HistoryConsistent(ops[..|ops| - 1]);
      match ops[|ops| - 1]
      case Add(r) => if Admits(before, r) { AddKeepsConsistent(before, r); }
      case Remove(o) =>
    }
  }

  /** The name is matched by at most one rule of a consistent map. */
  lemma MatchUnique(m: RuleMap, host: string, o: string, p: string)
    requires Consistent(m) && o in m && p in m
    requires m[o].Matches(host) && m[p].Matches(host)
    ensures o == p
  {
    if o != p { CommonNameClashes(m[o], m[p], host); }
  }

  /** After any sequence of adds and removes, starting with the empty set, at most one rule matches any string. */
  lemma HistoryMatchUnique(ops: seq<Op>, host: string, o: string, p: string)
    requires var m := AfterOps(map[], ops);
             o in m && p in m && m[o].Matches(host) && m[p].Matches(host)
    ensures o == p
  {
    HistoryConsistent(ops);
    MatchUnique(AfterOps(map[], ops), host, o, p);
  }

  /** What a lookup returns, whatever order it visits the rules in. */
  ghost predicate Finds(m: RuleMap, host: string, found: Option<RewriteRule>) {
    match found
    case Some(r) => r.owner in m && m[r.owner] == r && r.Matches(host)
    case None => forall o | o in m :: !m[o].Matches(host)
  }

  lemma FindsUnique(m: RuleMap, host: string, f: Option<RewriteRule>, g: Option<RewriteRule>)
    requires Consistent(m) && Finds(m, host, f) && Finds(m, host, g)
    ensures f == g
  {
    if f.Some? && g.Some? { MatchUnique(m, host, f.value.owner, g.value.owner); }
  }

  /** The probe of a rule with an allowed source finds that rule and no other one. */
  lemma ProbeFindsOwnRule(m: RuleMap, o: string, found: Option<RewriteRule>)
    requires Consistent(m) && o in m && Accepted(m[o]) && StarOnlyAsLabel(m[o].from)
    requires Finds(m, ProbeName(m[o]), found)
    ensures CheckDnsName(ProbeName(m[o]), false, false)
    ensures found == Some(m[o])
  {
    ProbeIsConcreteAndMatched(m[o]);
    FindsUnique(m, ProbeName(m[o]), found, Some(m[o]));
  }

  /** Two owners cannot exchange their sources one after the other: the exchanged set would be consistent, but
      either rule is refused as long as the other owner has its old one. */
  lemma SwapRefused(r: RewriteRule, s: RewriteRule)
    requires Consistent(map[r.owner := r, s.owner := s]) && r.owner != s.owner
    ensures var m := map[r.owner := r, s.owner := s];
            var r', s' := r.(from := s.from), s.(from := r.from);
            && Consistent(map[r.owner := r', s.owner := s'])
            && AddRule(m, r').None? && AddRule(m, s').None?
  {
    var m := map[r.owner := r, s.owner := s];
    var r', s' := r.(from := s.from), s.(from := r.from);
    assert !Clash(m[r.owner], m[s.owner]);
    assert Clash(m[s.owner], r') && Clash(m[r.owner], s');
  }
}
