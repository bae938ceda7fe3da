# DNS masquerading operator: a verified model

The operator turns `MasqueradingRule` objects into a CoreDNS snippet that lives under one key of a shared config map.
This project models that in Dafny 4.11 and proves what the operator promises. `dafny verify dfyconfig.toml` checks the
whole project.

There are three layers, and the upper ones use the theorems of the lower ones.

**Rule sets and their text** (`internal/coredns/rewrite.go`, `internal/dnsutil/name.go`).
`Text.dfy` has splitting, joining and sorting of strings. `Regexes.dfy` gives regular expressions a meaning as
languages, and `DnsNames.dfy`, `RewriteRules.dfy` and `Snippets.dfy` write the expressions of the source in that form.
`RuleMaps.dfy` and `Snippets.dfy` specify rule sets as maps, and how they are written and read;
`RewriteRuleSets.dfy` holds the mutable class with its loops, proved against that specification. `SnippetGrammar.dfy`
has the accepted texts as a grammar, `PrintedTexts.dfy` the written lines, and `Directives.dfy` reads the written text
as CoreDNS directives.

**The reconcile protocol** (`internal/controllers/masqueradingrule_controller.go`).
`Clusters.dfy` is a state machine: stored rule objects and config map with resource versions, the work queue, and one
worker for every key under reconciliation, with its copies and its next API call. Each step is one API call of one
worker or one action of somebody else; a call may succeed, fail, or take effect although the caller sees an error, and
workers may crash at any point. A step that is not possible changes nothing, so the theorems range over all sequences
of steps. `ClusterSafety.dfy` proves the invariant, `ClusterTheorems.dfy` states what follows for whole runs, and
`Convergence.dfy` shows where undisturbed reconciliation leads. `Deadlocks.dfy` shows that rules which wait for each
other's entries in a circle do so for good, and `ExactConvergence.dfy`, with the finite graphs of `Graphs.dfy`, that
such circles are all that keeps compatible rules from converging. `Failures.dfy` says what becomes of failing calls, and
`Resolution.dfy` what names resolve to in every run. `Reconcilers.dfy` has one reconciliation as sequential
code over an API server with fields, proved to take exactly the steps of the machine.

**Dependent rules** (`internal/controllers/common.go`).
`Dependents.dfy` has `ManageDependents` with its loops; it is proved to carry out a plan of API writes up to the write
that fails. `DependentTheorems.dfy` proves what plans achieve, for every prefix.

## Assumptions

- Rule objects and the config map are read without a cache (`main.go:115-120`), and one process is active.
- The work queue hands a key to one worker at a time. Finalizer safety rests on this.
- Nobody else changes the operator's key of the config map or its timestamp, deletes the config map, or removes the
  operator's finalizer, and nobody else writes the status of a rule object. Foreign finalizers, other keys and labels
  may change at any time.
- Identifiers of objects contain no space, and namespaces and names no newline, as in Kubernetes. Every use of an
  identifier is its first.
- The response of an update replaces the copy of the object including its status. So the generation that was
  acknowledged before the finalizer was added (line 79) is lost in that pass; the next pass acknowledges it.
- CoreDNS matches patterns against the whole name. The emitted patterns have no anchors; `UnanchoredMeaning` says which
  names would be rewritten in addition if patterns were searched in the name.

## Where the code does less than one might expect

- `CheckDnsName` accepts `*foo.x`, which the schema of the custom resource excludes. Such a rule is exact, but its probe
  name is `wildcardfoo.x`, which it does not match. `ProbeIsConcreteAndMatched` has the exact condition.
- Live rules that wait for each other's entries in a circle, such as two rules that have exchanged their sources
  (`SwapRefused`, `SwapIsDeadlock`), stay out of the config map for good, until somebody edits or deletes one of them
  (`DeadlockIsForGood`). `ConvergesIffNoCycle` has the exact condition: reconciliation converges if and only if the
  live rules are valid and do not clash with each other, no foreign finalizer holds a deletion up, and there is no such
  circle.
- If the rule that stays for a host is already being deleted, a run of `manageDependents` still counts it and the host
  is left without a rule (`AllServedIffMatchesAlive` has the exact condition).
- A live resource with a target but without hosts gets the finalizer and loses it again in every run, so running again
  is not free of API writes; this is the only exception (`QuietIffNotHostless`).

## Model

| member | source | states |
|---|---|---|
| DnsNames.NameGrammar | internal/dnsutil/name.go:14-38 | a name is accepted exactly when it is at most 255 long and all its dot-separated labels have 1 to 63 letters, digits or hyphens and no hyphen at the ends; where wildcards are allowed, a leading asterisk counts as `wildcard` |
| DnsNames.WildcardGrammar | internal/dnsutil/name.go:22-38 | a name with a leading asterisk is accepted exactly when the rest is at most 247 long, the rest of the first label has at most 55 letters, digits or hyphens and no hyphen at its end, and all other labels are valid |
| RewriteRules.AddressGrammar | internal/coredns/rewrite.go:32-36 | a target counts as an address exactly when it is four numbers from 0 to 255 in decimal form, separated by dots |
| RewriteRules.ConstructedIff | internal/coredns/rewrite.go:27-41 | a rule can be constructed exactly when the source is accepted and the target is an address, with a first label of the source other than an asterisk, or an accepted name without an asterisk; it has the given owner, source and target |
| RewriteRules.MatchedNames | internal/coredns/rewrite.go:62-68 | a rule whose first label is an asterisk matches exactly the names that end like the rest of its source, any other rule its source alone |
| RewriteRules.AcceptedChars | internal/coredns/rewrite.go:27-41 | source and target of a rule that can be constructed are non-empty and free of whitespace, and only the first character of the source may be an asterisk |
| RewriteRules.ClashIffCommonName | internal/coredns/rewrite.go:62-68 | the syntactic clash test fires exactly when some string is matched by both rules, for any two rules |
| RewriteRules.ClashIffCommonDnsName | internal/coredns/rewrite.go:62-68 | for rules that the schema allows, it fires exactly when some valid DNS name is matched by both |
| RewriteRules.ProbeIsConcreteAndMatched | internal/controllers/masqueradingrule_controller.go:241 | the probe name of an accepted rule is its source with `wildcard` for a leading asterisk, it is a valid concrete DNS name, and the rule matches it if and only if a leading asterisk is a whole label |
| RewriteRules.StarInsideLabelIsMissed | internal/controllers/masqueradingrule_controller.go:241 | a concrete accepted rule whose probe it does not match |
| RuleMaps.RefusedIffCommonName | internal/coredns/rewrite.go:186-201 | adding is refused exactly when some string is matched by the new rule and by a rule of another owner |
| RuleMaps.RefusedIffCommonDnsName | internal/coredns/rewrite.go:186-201 | the same with valid DNS names, for rules that the schema allows |
| RuleMaps.HistoryConsistent | internal/coredns/rewrite.go:85-94 | after any sequence of adds and removes the set is consistent |
| RuleMaps.HistoryMatchUnique | internal/coredns/rewrite.go:85-94 | after any sequence of adds and removes at most one rule matches any string |
| RuleMaps.FindsUnique | internal/coredns/rewrite.go:173-182 | all orders of iteration give the same answer to a lookup |
| RuleMaps.ProbeFindsOwnRule | internal/controllers/masqueradingrule_controller.go:241 | in a consistent set, looking up the probe of an allowed rule finds that rule and no other one |
| RuleMaps.SwapRefused | internal/coredns/rewrite.go:186-201 | exchanging the sources of two rules one after the other is refused, though the exchanged set would be consistent |
| RewriteRuleSets.RewriteRuleSet.GetRule | internal/coredns/rewrite.go:166-171 | the rule stored for the owner, if there is one |
| RewriteRuleSets.RewriteRuleSet.FindMatchingRule | internal/coredns/rewrite.go:175-182 | iterating in any order finds the one matching rule, or none if none matches |
| RewriteRuleSets.RewriteRuleSet.AddRule | internal/coredns/rewrite.go:186-201 | accepts exactly the admitted rules, changes only the entry of their owner, leaves the set alone on refusal, and reports a change exactly when the map has changed |
| RewriteRuleSets.RewriteRuleSet.RemoveRule | internal/coredns/rewrite.go:205-211 | removes only the entry of the owner and reports a change exactly when the map has changed |
| Text.BeforeIffPrecedes | internal/coredns/rewrite.go:217-217 | in the order of the sorted owners, a string comes before another exactly when it is a proper prefix of it or has the smaller character where they first differ |
| RewriteRuleSets.RewriteRuleSet.SortedOwners | internal/coredns/rewrite.go:217-217 | however the keys are enumerated, sorting gives the one ascending listing of the owners, in which each owner is a proper prefix of the next one or has the smaller first differing character |
| RewriteRuleSets.RewriteRuleSet.String | internal/coredns/rewrite.go:214-252 | the text is a function of the owner-to-rule map alone, for every order of iteration and every history |
| RewriteRuleSets.ParseRewriteRuleSet | internal/coredns/rewrite.go:97-162 | the line-by-line reader succeeds exactly when its recursive specification does, with the same rules, and yields a consistent set |
| PrintedTexts.PrintedText | internal/coredns/rewrite.go:214-252 | with the owners in that order, the text consists of the rules with address targets, in a hosts block with its fixed lines if there are any, and of the other rules behind it |
| PrintedTexts.BlockText | internal/coredns/rewrite.go:226-248 | the four lines of a rule inside and outside of the hosts block |
| PrintedTexts.TextOfTwo | internal/coredns/rewrite.go:214-252 | the whole text of any two rules, in all combinations of address and name targets |
| SnippetGrammar.DirectiveLineForm | internal/coredns/rewrite.go:144-152 | the fourth line of a block is accepted exactly when it has the two or the five words of its form, with the spacing of the regular expression |
| SnippetGrammar.AcceptedTexts | internal/coredns/rewrite.go:97-162 | a text is accepted, with the given rules, exactly when it is empty or its lines are a sequence of block openings, block closings and rules with four lines each, where no open block is opened again and every rule is valid and admitted by the rules before it |
| Snippets.CaptureIsSubmatch | internal/coredns/rewrite.go:115-139 | the captured owner, source or target is the submatch of the regular expression, and there is one exactly when the expression matches the line |
| Snippets.DirectiveLineOfRule | internal/coredns/rewrite.go:144-152 | the directive line written for any accepted rule matches the expression by which the reader checks it |
| Snippets.ParsePrint | internal/coredns/rewrite.go:97-252 | round trip: for every consistent set of accepted rules with non-empty one-line owners, reading the written text gives the same map, including the empty set |
| Snippets.NormalForm | internal/coredns/rewrite.go:97-162 | every accepted text, canonical or not, stands for a consistent set of printable rules, and writing and reading that set gives it back |
| Snippets.EveryOwnerOnce | internal/coredns/rewrite.go:214-252 | every owner has exactly one owner line, in the section that its target calls for; no other owner has one |
| Directives.ReadPrintedDirectives | internal/coredns/rewrite.go:214-252 | reading the written lines gives one directive for each rule and nothing else, in the order of the sections |
| Directives.SnippetMeaning | internal/coredns/rewrite.go:175-252 | the first directive of the text that applies to a name answers with the target of the rule that the lookup finds, and none applies if it finds none, for every one-line name |
| Directives.OneDirectiveApplies | internal/coredns/rewrite.go:214-252 | at most one directive applies to a name, so their order does not matter |
| Directives.PatternMeaning | internal/coredns/rewrite.go:245-247 | the emitted pattern, read back as a regular expression, matches exactly the names that the wildcard rule matches |
| Directives.UnanchoredMeaning | internal/coredns/rewrite.go:245-247 | searched inside a name, the pattern is found exactly when the rule matches some prefix of the name |
| ClusterSafety.OwnerNameInjective | internal/controllers/masqueradingrule_controller.go:158 | different keys or identifiers give different owner strings |
| ClusterSafety.StepKeepsInv | internal/controllers/masqueradingrule_controller.go:58-313 | every step of a worker, user or other party, with any outcome of the API call, keeps the invariant |
| ClusterSafety.RunKeepsInv | internal/controllers/masqueradingrule_controller.go:58-313 | the invariant holds in every state of every interleaving |
| ClusterTheorems.ReadyIsNeverStale | internal/controllers/masqueradingrule_controller.go:79-95 | in every run, a live rule stored as Ready for its present generation has exactly its owner (identifier and key in the written form), source and target in the current config map |
| Resolution.ReadyMeansServed | internal/controllers/masqueradingrule_controller.go:241-250 | in every run, if a live rule is stored as Ready for its present generation, the stored text answers every one-line name that the rule matches with the target of the rule |
| Resolution.OnlyHoldersAnswer | internal/controllers/masqueradingrule_controller.go:161-172 | in every run with entries, a name is answered only with the target of an entry that matches it and whose owner is a stored object with the finalizer |
| Resolution.RunKeepsCanonical | internal/controllers/masqueradingrule_controller.go:231-231 | in every run, a stored text with entries is the text that is written for exactly these entries |
| Failures.FailureIsReported | internal/controllers/masqueradingrule_controller.go:81-95 | if any API call of a reconciliation fails, by a conflict, an error or a lost answer, the reconciliation ends with saving the state Error; a refused or late call has changed nothing |
| Failures.SuccessIsReported | internal/controllers/masqueradingrule_controller.go:187-239 | a successful write of the config map stores the text and the time of an update, and the reconciliation ends with saving the state that was decided |
| Failures.AnswerIsReported | internal/controllers/masqueradingrule_controller.go:241-255 | the DNS check leads to Ready, Processing or Error, according to its answer |
| Failures.UnreadableIsReported | internal/controllers/masqueradingrule_controller.go:201-204 | an unreadable text is left as it is and reported as Error, for live and deleted rules |
| Failures.UnreadableAfterFinalizer | internal/controllers/masqueradingrule_controller.go:165-204 | the same when the finalizer is added first, which is kept |
| ClusterTheorems.NoOrphanedEntries | internal/controllers/masqueradingrule_controller.go:165-172 | in every run, the owner of each entry is a stored object that carries the finalizer |
| ClusterTheorems.UpdatesAreSpaced | internal/controllers/masqueradingrule_controller.go:216-237 | in every run, consecutive updates record timestamps that are at least the delay apart, for adding and removing alike |
| ClusterTheorems.NoRuleIsForgotten | internal/controllers/masqueradingrule_controller.go:81-95 | in every run, each stored object is queued or being reconciled |
| ClusterTheorems.TextRefinesAtomicMap | internal/controllers/masqueradingrule_controller.go:161-237 | in every run, the stored text can be read and stands for the result of the effective writes, applied one after the other to an initially empty map |
| ClusterTheorems.NoLostUpdates | internal/controllers/masqueradingrule_controller.go:161-237 | an effective write puts or removes exactly the entry of the writer and keeps the entries of all other owners |
| ClusterTheorems.WriteChangesOwnEntry | internal/controllers/masqueradingrule_controller.go:200-237 | an effective write is admitted by the entries that are there and changes the map by that one operation |
| ClusterTheorems.OtherStepsKeepEntries | internal/controllers/masqueradingrule_controller.go:161-164 | no other step changes the entries, so a write on a stale copy has no effect |
| Convergence.PassIsRun | internal/controllers/masqueradingrule_controller.go:58-313 | an undisturbed reconciliation is a run of the state machine |
| Convergence.WritingPass | internal/controllers/masqueradingrule_controller.go:165-239 | a pass over a live, admitted and missing rule puts it into the config map, keeps all other entries and saves Processing |
| Convergence.WritingPassInstalls | internal/controllers/masqueradingrule_controller.go:204-239 | after it the entry of the rule is current |
| Convergence.CheckingPass | internal/controllers/masqueradingrule_controller.go:241-250 | a pass over a rule whose entry is current finds no change, writes nothing to the config map and saves Ready for the present generation |
| Convergence.FailingPass | internal/controllers/masqueradingrule_controller.go:174-207 | a pass over an invalid or refused rule saves Error and leaves the config map alone |
| Convergence.RemovingPass | internal/controllers/masqueradingrule_controller.go:260-298 | a pass over a rule that is being deleted removes its entry and no other one |
| Convergence.DeletionBlockedPass | internal/controllers/masqueradingrule_controller.go:257-259 | foreign finalizers on a rule that is being deleted lead to DeletionBlocked and an untouched config map |
| Convergence.HeldUpPass | internal/controllers/masqueradingrule_controller.go:213-226 | too early after the last write nothing is put or removed and the status says so; with an unreadable timestamp it is an error |
| Convergence.DroppingPass | internal/controllers/masqueradingrule_controller.go:299-311 | once the entry is gone, a pass makes the object disappear |
| Convergence.InstalledIffAdmitted | internal/controllers/masqueradingrule_controller.go:174-239 | after a pass, a live rule is in the config map if and only if it is valid and clashes with no entry of another owner |
| Convergence.PassProgress | internal/controllers/masqueradingrule_controller.go:142-312 | if nothing stands in the way, a pass lowers the rank of its rule unless it is zero |
| Convergence.OtherRanksStay | internal/controllers/masqueradingrule_controller.go:142-312 | and changes the rank of no other rule |
| Convergence.PassesProgress | internal/controllers/masqueradingrule_controller.go:142-312 | passes in any order lower every rank by the number of passes over its key, down to zero, and keep the conditions |
| Convergence.Convergence | internal/controllers/masqueradingrule_controller.go:142-312 | after three passes over every object, in any order, the remaining objects are the live ones, all of them Ready, and the config map holds exactly their rules |
| Convergence.PassFrame | internal/controllers/masqueradingrule_controller.go:58-313 | whatever stands in the way, a pass over one key changes no other object, no specification and no entry of another owner, and only an object under deletion without foreign finalizers disappears |
| Convergence.PassesKeep | internal/controllers/masqueradingrule_controller.go:58-313 | any sequence of passes leaves the cluster idle and keeps every live rule and every object held by foreign finalizers; the config map carries its old timestamp, none, or the time of a pass |
| Convergence.PassesAreRun | internal/controllers/masqueradingrule_controller.go:58-313 | any sequence of passes is a run of the state machine |
| Convergence.ReachableIdle | internal/controllers/masqueradingrule_controller.go:81-95 | whenever nobody is at work in a run from a fresh installation, the invariant holds and every stored object is queued, as the theorems about passes assume |
| Deadlocks.AdmittedIffWaitsForNone | internal/coredns/rewrite.go:186-201 | a live rule is refused by the stored entries exactly if it clashes with the entry of some other stored object |
| Deadlocks.StepKeepsDeadlock | internal/controllers/masqueradingrule_controller.go:58-313 | every step by anybody, except an edit or deletion of a rule of the circle, keeps the circle of waiting rules, their specifications and their entries |
| Deadlocks.DeadlockIsForGood | internal/controllers/masqueradingrule_controller.go:204-207 | live rules that wait for each other's entries in a circle of any length never get their entries in place nor become Ready, in any run with any interleaving, failures and other rules, unless one of them is edited or deleted |
| Deadlocks.SwapIsDeadlock | internal/controllers/masqueradingrule_controller.go:204-207 | exchanging the sources of two rules that are in place leads to such a circle |
| Deadlocks.SwappedRulesStayBlocked | internal/controllers/masqueradingrule_controller.go:204-207 | two live rules that each want what the entry of the other one holds keep waiting and keep their entries through any passes over these and all other rules |
| ExactConvergence.RoundsReach | internal/controllers/masqueradingrule_controller.go:142-312 | without circles, rounds of passes take every rule forward in the order of the waits: after two rounds more than its height its entry is in place, after three it is Ready |
| ExactConvergence.ConvergesIffNoCycle | internal/controllers/masqueradingrule_controller.go:142-312 | after two rounds of passes more than there are objects, the cluster has converged if and only if the live rules are valid and do not clash with each other, no foreign finalizer holds a deletion up, and no live rules wait for each other's entries in a circle |
| ExactConvergence.RunsConvergeIffNoCycle | internal/controllers/masqueradingrule_controller.go:58-313 | the same at any point of any run from a fresh installation at which nobody is at work, for the run that goes on with undisturbed reconciliations |
| ExactConvergence.UnblockedIffNobodyWaits | internal/controllers/masqueradingrule_controller.go:142-312 | the condition of Convergence, under which three passes for each object are enough, is that no rule waits at all |
| Reconcilers.ApiServer.Reconcile | internal/controllers/masqueradingrule_controller.go:58-313 | the sequential code leads to the state that the steps of the machine lead to, for every outcome of every API call |
| Reconcilers.ApiServer.ReconcileRule | internal/controllers/masqueradingrule_controller.go:147-313 | the part between reading the object and the deferred status update makes the calls of the machine and ends with the status that the machine saves |
| Reconcilers.ApiServer.ReconcileLive | internal/controllers/masqueradingrule_controller.go:174-256 | reading, changing and writing the rule set of a live rule agrees with the decision of the machine and its next call |
| Reconcilers.ApiServer.CreateRuleSet | internal/controllers/masqueradingrule_controller.go:179-199 | without a config map, the rule set with this one rule is stored in a new one, as by the decision of the machine and its next call |
| Reconcilers.ApiServer.AddToText | internal/controllers/masqueradingrule_controller.go:201-208 | reading the text and adding the rule fails exactly when the text cannot be read or the map that it stands for refuses the rule; otherwise the set is that map with the rule, and a change is reported exactly when it differs |
| Reconcilers.ApiServer.ReconcileDeleting | internal/controllers/masqueradingrule_controller.go:257-312 | the same for a rule that is being deleted, including the exit without a status update |
| Reconcilers.CallsAreRun | internal/controllers/masqueradingrule_controller.go:58-313 | the calls of one reconciliation form a run |
| Dependents.ManageDependents | internal/controllers/common.go:43-124 | a run carries out its plan of writes up to the write that fails, succeeds exactly when it reaches the end, and then has counted the dependents |
| Dependents.CreateMissing | internal/controllers/common.go:66-84 | exactly the hosts without a listed rule get one, in order, and the rules to keep are the first matches |
| Dependents.DeleteOthers | internal/controllers/common.go:87-103 | exactly the listed rules that do not stay and are not being deleted are deleted, and all that do not stay are counted off |
| DependentTheorems.FirstMatchIsFirst | internal/controllers/common.go:68-74 | the rule found for a host is the first listed one with this source and target, whether or not it is being deleted; none is found only if none is listed |
| DependentTheorems.CountIsExact | internal/controllers/common.go:50-113 | the final count is the number of wanted hosts, and zero for a resource that is being deleted or has no target |
| DependentTheorems.TargetOfRules | internal/controllers/common.go:51-103 | a complete run leaves unmarked rules only on a live resource with a target annotation, all with the target of the new annotation, or of the legacy one if the new one is missing; it serves a host with that target exactly when no match that stays was being deleted |
| DependentTheorems.AllServedIffMatchesAlive | internal/controllers/common.go:60-103 | a complete run leaves a rule for every host if and only if no rule that stays was being deleted already |
| DependentTheorems.RunLeavesNothingElse | internal/controllers/common.go:87-103 | every rule that a complete run leaves unmarked is the first match of a wanted host or was created for one |
| DependentTheorems.OneRuleForHost | internal/controllers/common.go:66-103 | a complete run leaves no two unmarked rules for the same host, whatever duplicates were listed |
| DependentTheorems.CreatedRulesAreGuarded | internal/controllers/common.go:60-84 | after any prefix of the writes, a rule created by the run implies that the resource carries the finalizer |
| DependentTheorems.RemovedOnlyWhenAllMarked | internal/controllers/common.go:115-121 | after any prefix of the writes that removes the finalizer, whether it was there before or was added in the same run, every stored dependent is marked for deletion |
| DependentTheorems.FinalizerReleased | internal/controllers/common.go:104-121 | a complete run on a resource that is being deleted or wants no rules leaves no finalizer |
| DependentTheorems.StartingAgain | internal/controllers/common.go:60-121 | after any prefix of the writes and the disappearance of any terminating rules, a later run, with the hosts in any order, finds the same rules to keep |
| DependentTheorems.CrashTolerance | internal/controllers/common.go:60-121 | a run that stops after any prefix followed by a complete run with the hosts in any other order serves exactly the wanted hosts, as an uninterrupted run does |
| DependentTheorems.QuietIffNotHostless | internal/controllers/common.go:60-121 | after a complete run, another run with the hosts in any order makes no API write, except on a live resource with a target and no hosts, where it makes exactly two |

## Left out

- IPv6 targets: only dotted-decimal addresses count as IP addresses; the schema of the custom resource excludes colons in targets.
- Status conditions, events, log and error texts, and the line numbers of parse errors: only the state, the observed generation and success or failure are kept.
- Timestamps as text: times are integers, with a separate value for a timestamp that cannot be read.
- The DNS check and port forwarding (`internal/coredns/resolver.go`, `internal/portforward/portforward.go`): the check answers yes, no or an error, freely in the safety theorems and with yes in the convergence theorems.
- Plugin order of CoreDNS and names that are rewritten more than once: only which directive of the snippet applies to the queried name.
- Host extraction of the service, ingress and gateway controllers: only that the hosts are distinct.
- Delays and rate limits of the work queue: a key is queued or not.
- The limit of three concurrent workers: any number of keys may be under reconciliation at once.
- Changes by others during one run of `manageDependents`: between two runs terminating rules may disappear; a failing list call is the run that stops before its first write.
- The generated client, wiring in `main.go`, and the webhook, which calls the same validation as the reconciler.
