/** What names resolve to while the operator is running: the reconcile protocol and the written text together
    (internal/controllers/masqueradingrule_controller.go, internal/coredns/rewrite.go). */
module Resolution {
  import opened Conventions
  import opened Options
  import opened Text
  import opened RewriteRules
  import opened RuleMaps
  import opened Snippets
  import opened Directives
  import opened Clusters
  import opened ClusterSafety
  import opened ClusterTheorems

  /** Once there are entries, the text is the one that `String` writes for them. */
  ghost predicate Canonical(c: Cluster) {
    c.configMap.Some? && Entries(c.configMap) != map[] ==> c.configMap.value.text == Print(Entries(c.configMap))
  }

  lemma WrittenText(c: Cluster, s: Step)
    requires Inv(c) && Writes(c, s)
    ensures Canonical(Next(c, s))
  {
    hide Parse, Print, Entries, OwnerName, HasHolder, ReadyIsTrue, Accepted, Admits, WritesOk, ObjectOk, Decide, CopyOk;
    var w := c.workers[s.key];
    WorkerUid(c, s.key);
    WriteChangesOwnEntry(c, s);
    NoEntries();
    var rule := RuleOf(s.key, w.obj);
    assert map[][rule.owner := rule] == map[rule.owner := rule];
    assert Next(c, s).configMap.value.text == w.call.text;
  }

  lemma KeptText(c: Cluster, s: Step)
    requires Inv(c) && !Writes(c, s) && Canonical(c)
    ensures Canonical(Next(c, s))
  {
    hide Inv, Parse, Print, Entries, Decide;
    OtherStepsKeepEntries(c, s);
    NoEntries();
  }

  lemma {:induction false} RunKeepsCanonical(c: Cluster, steps: seq<Step>)
    requires Initial(c)
    ensures Canonical(Run(c, steps))
    decreases |steps|
  {
    hide Inv, Next, Entries, Parse, Writes, Print;
    if steps == [] {
      InitialEntries(c);
    } else {
      var init, last := steps[..|steps| - 1], steps[|steps| - 1];
      RunKeepsCanonical(c, init);
      RunKeepsInv(c, init);
      if Writes(Run(c, init), last) { WrittenText(Run(c, init), last); } else { KeptText(Run(c, init), last); }
    }
  }

  /** What CoreDNS makes of a one-line name by the stored text. */
  function Resolve(c: Cluster, host: string): Option<string> {
    match c.configMap
    case None => None
    case Some(cm) => Lookup(ReadDirectives(Split(cm.text, '\n'), false), host)
  }

  /** A rule that is reported as Ready for its present specification is in effect: every name that it matches is
      answered with its target. */
  lemma ReadyMeansServed(c: Cluster, steps: seq<Step>, key: Key, host: string)
    requires Initial(c) && '\n' !in host
    requires key in Run(c, steps).objects && ReadyForSpec(Run(c, steps).objects[key])
    requires RuleOf(key, Run(c, steps).objects[key]).Matches(host)
    ensures Resolve(Run(c, steps), host) == Some(Run(c, steps).objects[key].to)
  {
    hide Inv, Run, Parse, Print, ReadDirectives, Lookup, OwnerName, WellFormed, RewriteRule.Matches, Split;
    var now := Run(c, steps);
    var obj := now.objects[key];
    var m := Entries(now.configMap);
    ReadyEntry(c, steps, key);
    RunKeepsCanonical(c, steps);
    EntriesWellFormed(now.configMap);
    SnippetMeaning(m, host, Some(RuleOf(key, obj)));
  }

  lemma ReadyEntry(c: Cluster, steps: seq<Step>, key: Key)
    requires Initial(c) && key in Run(c, steps).objects && ReadyForSpec(Run(c, steps).objects[key])
    ensures var now := Run(c, steps);
            var rule := RuleOf(key, now.objects[key]);
            now.configMap.Some? && rule.owner in Entries(now.configMap) && Entries(now.configMap)[rule.owner] == rule
  {
    hide Run, Parse;
    ReadyIsNeverStale(c, steps, key);
  }

  /** Conversely, while there are entries, a name is answered only with the target of an entry that matches it, and
      the owner of that entry is a stored object that carries the finalizer. */
  lemma OnlyHoldersAnswer(c: Cluster, steps: seq<Step>, host: string)
    requires Initial(c) && '\n' !in host
    requires Entries(Run(c, steps).configMap) != map[] && Resolve(Run(c, steps), host).Some?
    ensures var now := Run(c, steps);
            exists key :: key in now.objects && FINALIZER in now.objects[key].finalizers
                          && var entry := EntryOf(Entries(now.configMap), OwnerName(key, now.objects[key].uid));
                             entry.Some? && entry.value.Matches(host) && Resolve(now, host) == Some(entry.value.to)
  {
    hide Inv, Run, Parse, Print, ReadDirectives, Lookup, OwnerName, WellFormed, RewriteRule.Matches, Split, Entries;
    var now := Run(c, steps);
    var m := Entries(now.configMap);
    RunKeepsCanonical(c, steps);
    EntriesWellFormed(now.configMap);
    var found := LookUp(m, host);
    SnippetMeaning(m, host, found);
    NoOrphanedEntries(c, steps, found.value.owner);
  }

  lemma LookUp(m: RuleMap, host: string) returns (found: Option<RewriteRule>)
    requires WellFormed(m)
    ensures Finds(m, host, found)
  {
    hide Printable;
    if o :| o in m && m[o].Matches(host) { found := Some(m[o]); } else { found := None; }
  }
}
