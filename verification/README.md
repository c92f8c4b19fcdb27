# Verified model of the AutoCAD mechanical harness's acceptance logic

The harness lets an AI client prepare mechanical drawings while humans keep control of every write, and it
accepts its own results only on evidence. This project models the logic that decides: it is a set of Dafny
modules, each beside one part of the repository, with the properties that part is for proved over all inputs,
all runs or all reachable states. `dafny verify dfyconfig.toml` checks the whole project.

| Modules | Part of the repository |
|---|---|
| `GoldenPaths`, `GoldenModel`, `GoldenLeaves`, `GoldenComparison`, `GoldenLaws`, `Matching` | the semantic golden comparator: a recursive comparison of JSON-like trees in which order-insensitive collections are matched by augmenting paths whose edges are the comparison itself |
| `GreedyPairing`, `ProductionGolden` | the production golden check, which pairs expected records with entities greedily |
| `OwnershipLinks`, `ProcessAdmission`, `ProcessCleanup` | process tracking and cleanup of the live acceptance run, against an operating system in which processes spawn, exit and reuse PIDs between any two observations |
| `ApprovalGate`, `SessionTrace`, `DesktopController` | the engineer's approval window: eligibility, and the memory-only commit and rollback credentials over a service that may return anything or raise |
| `RasterAccuracy`, `RasterReadback`, `RasterWitness`, `RasterUnequal`, `Shoelace` | raster accuracy samples, live readback measurements, polygon areas |
| `PilotChronology` | the time line and the durations of a production pilot bundle |
| `EnvironmentBlock`, `OwnedLaunch` | the child environment block, and the resource life cycle of the owned bridge process |
| `CorpusTraversal`, `CaseNaming` | corpus enumeration with an explicit stack, and case identifiers |
| `Options`, `Permutations`, `Reals`, `Sequences`, `Text`, `TextOrder` | shared vocabulary |

Code that changes state step by step is modelled by classes, methods and loops (`Matcher`, `Tracker`,
`EngineerDesktopController`, `PilotVerifier`, `Host`, the stack walk); code made of expressions by functions. Each
method's contract ties it to a declarative meaning, about which the laws are then proved. The outside world enters
as nondeterminism: `ProcessCleanup.Os` replaces its process table arbitrarily before every observation,
`DesktopController.Service` and `OwnedLaunch.Host` return arbitrary results.

## Results that qualify the code

* **A failed tracking call can leave a stranger on record.** The call records accepted candidates in PID order and
  stops at the first it must refuse, so it may record a process that only the refused one links to a root: because
  the refused one reuses a tracked PID (`ReuseAdmitsStranger`), or because it is not acceptable itself
  (`RefusalLosesLink`). Started from a record whose every entry links back to a root through records, a call
  leaves such a record again if and only if each candidate that precedes the first refused one links to a tracked or
  root PID through such candidates alone (`RootedExactlyWhenSupported`, `Tracker.Track`); a call that refuses nothing
  always does (`CompletedIsRooted`).
* **A cleanup after such a call can kill the stranger.** The acceptance run hands the record of its failed call to the
  cleanup, which kills whatever is on it (`StrangerIsKilled`). The kills that a cleanup round can make are all of owned
  processes if and only if its record links back to the roots (`KillsOwnedExactlyWhenRooted`); over a whole run they
  are, unless a tracking call refused a candidate and the candidates before it do not meet the condition above
  (`Tracker.Run`).
* **The approval gate trusts a marker string.** A stale revision is represented by the text `revision_changed`; a
  scope displayed at a revision of that very text is approved although it is stale, whatever its job's state. The gate
  is exact for a scope if and only if its displayed revision is not that text (`GateIsExactUnlessMarked`).
  The repository's drawing readers report digest texts (`sha256:`) as revisions, so this concerns an arbitrary
  service.
* **The greedy golden check is sound but not complete.** It rejects a concrete drawing that satisfies its expected
  records one to one (`RejectsAPairableDrawing`). Over a domain of records and entities it finds every existing pairing
  if and only if the satisfaction relation is difunctional there (`FirstFitExact`).
* **Refresh keeps a previous display when the stored plan has no hash.** After a normal return the display belongs to
  the requested job, or is empty, exactly unless that happens (`EngineerDesktopController.Refresh`,
  `ForeignDisplayExactly`, `ForeignDisplayStays`).
  The repository's own compiler stamps a hash on every plan, so this too concerns an arbitrary service.
* **Two checks never decide, and two branches never run.** The root-mean-square threshold follows from the maximum's
  (`ThresholdMeansEach`), and the three-distinct-vertices rule from the area rule (`DistinctnessIsImplied`). The
  comparator's "members differ" fallback is never reached (`CompareUnordered` proves the branch dead), and a failed
  launch never has a process without a Job, so its separate process termination is dead too (`EndProcess`).

## Model

| member | source | states |
|---|---|---|
| Matching.Matcher.Augment | src/cad_harness/golden_comparison.py:277-286 | a success matches the given expected index in addition to all those matched before, moving nothing in the already visited part; a failure leaves the map unchanged and leaves its visited set sealed, every member owned by an index with no neighbour outside; it terminates on the unvisited set, and never succeeds or interferes inside a set an earlier failure sealed |
| Matching.Matcher.MatchAll | src/cad_harness/golden_comparison.py:274-288 | the result is a matching; exactly the listed expected indices are unmatched, and a sealed set of actual indices holds all their neighbours |
| Matching.SettledIsMaximum | src/cad_harness/golden_comparison.py:274-288 | no matching along the edges is larger than the one found, so a failed index never needs retrying |
| Matching.SealedIsMaximum | src/cad_harness/golden_comparison.py:277-288 | the certificate: a sealed set that confines the unmatched indices bounds the size of every other matching |
| Matching.HallViolator | src/cad_harness/golden_comparison.py:288-290 | when searches failed, a set of expected indices has all its neighbours in a set smaller than itself by the number of failures |
| Matching.UnmatchedRulesOutPairing | src/cad_harness/golden_comparison.py:288-292 | if any expected index stays unmatched, no one-to-one pairing along the edges exists |
| Matching.KeepSealed | src/cad_harness/golden_comparison.py:277-288 | a later augmentation leaves what earlier failures visited closed and fully owned |
| GoldenPaths.LeafOfField | src/cad_harness/golden_comparison.py:212-229 | the leaf of a field's path depends on the field name alone |
| GoldenPaths.LeafOfItem | src/cad_harness/golden_comparison.py:254-305 | index, wildcard and semantic selectors all keep the leaf of the collection, so a pair compares alike under each of them |
| GoldenPaths.LeafOfSelected | src/cad_harness/golden_comparison.py:340-341 | below any path, with or without a selector, the leaf is the case-folded field name |
| GoldenComparison.Compare | src/cad_harness/golden_comparison.py:175-195 | no mismatch is reported exactly when the trees match; two finite numbers that may differ are accepted exactly when, as angles, some whole number of turns brings them within the angular tolerance, or, as areas and lengths, they are within the absolute tolerance or the relative one of either; every reported mismatch lies at or below the path, shows parts of its own trees in order, and differs for its stated reason; and none is lost: each differing leaf, size, field name or pair of items that the comparison goes through is reported in full |
| GoldenComparison.CompareMappings | src/cad_harness/golden_comparison.py:198-230 | nothing is reported exactly when the kept field names agree and each field matches or is an evidence reference list; every missing, unexpected and differing field is reported |
| GoldenComparison.CompareOrdered | src/cad_harness/golden_comparison.py:242-255 | nothing is reported exactly when the sizes agree and items match position by position; otherwise the size, or everything that differs at each position, is reported |
| GoldenComparison.CompareUnordered | src/cad_harness/golden_comparison.py:258-312 | nothing is reported exactly when a permutation pairs every expected item with an actual one it matches; otherwise at least one genuine mismatch is, the fallback is unreachable, and all differences of every two items left over and paired off after a best pairing are reported |
| GoldenComparison.FoundIsBest | src/cad_harness/golden_comparison.py:267-301 | the search ends with a pairing of matching items that no other exceeds, and leaves over equally many items on both sides, none of which match |
| GoldenComparison.CollectionDecides | src/cad_harness/golden_comparison.py:266-305 | the finished search decides whether a matching permutation exists; no unmatched expected item matches an unowned actual one |
| GoldenComparison.UnownedCount | src/cad_harness/golden_comparison.py:288-294 | unmatched expected and unowned actual items are equally many, so pairing them off drops none |
| GoldenComparison.CompareSemanticEntities | src/cad_harness/golden_comparison.py:97-115 | entity sequences are accepted exactly when they match as an order-insensitive collection, or the configuration ignores the field they are compared under |
| GoldenLeaves.WrappedExactly | src/cad_harness/geometry/tolerance.py:41-44 | the wrapped difference lies in [-180, 180) and is the difference up to a whole number of turns |
| GoldenLeaves.AnglesCloseExactly | src/cad_harness/geometry/tolerance.py:41-44 | two angles are close exactly when some whole number of turns brings them within the tolerance |
| GoldenLeaves.NumbersVerdict | src/cad_harness/golden_comparison.py:315-337 | the leaf decides whether finite numbers are compared as angles, areas or lengths, and each is accepted exactly within its own tolerance |
| GoldenLeaves.ExactVerdict | src/cad_harness/golden_comparison.py:187-195 | all other single values must be the same: integers, infinities and exactly compared fields by value, texts and nulls literally, a Boolean as 0 or 1 against a number, a NaN as nothing |
| GoldenLeaves.IgnoredExactly | src/cad_harness/golden_comparison.py:162-172 | a field is ignored exactly when its case-folded name is configured or ends in one of the six transient suffixes |
| GoldenLeaves.EvidenceExactly | src/cad_harness/golden_comparison.py:212-239 | a kept field directly under evidence agrees exactly when both values are lists of texts alone, or it would agree elsewhere |
| GoldenLaws.MatchSymmetric | src/cad_harness/golden_comparison.py:175-337 | exchanging expected and actual tree never changes the verdict |
| GoldenLaws.WrappedDifferenceSymmetric | src/cad_harness/geometry/tolerance.py:41-44 | the wrapped angle difference has the same magnitude in both directions |
| GoldenLaws.RearrangementInvisible | src/cad_harness/golden_comparison.py:162-312 | reordering order-insensitive collections, altering ignored fields and replacing evidence references, at any depth and in either tree, never changes the verdict |
| GoldenLaws.ErasureInvisible | src/cad_harness/golden_comparison.py:162-230 | erasing every ignored field from both trees never changes the verdict |
| GoldenLaws.RearrangementMatches | src/cad_harness/golden_comparison.py:175-337 | a tree matches a rearrangement of itself exactly when no compared value is a NaN |
| ProductionGolden.MatchesExpected | scripts/check_production_golden_acceptance.py:547-577 | the check passes exactly when the counts agree and first-fit pairs every expected record with an entity and leaves none |
| ProductionGolden.MatchesExpectedMeansPairing | scripts/check_production_golden_acceptance.py:547-577 | a pass is backed by a one-to-one pairing of records with entities satisfying them, and is forced by one when the relation is difunctional on the lists |
| ProductionGolden.RejectsAPairableDrawing | scripts/check_production_golden_acceptance.py:541-577 | a concrete drawing of two lines that has such a pairing is rejected |
| ProductionGolden.SatisfiesExactly | scripts/check_production_golden_acceptance.py:563-574 | an entity satisfies a record exactly when type and layer are the record's and it has every measurement asked for |
| ProductionGolden.CountsAgreeExactly | scripts/check_production_golden_acceptance.py:548-552 | the announced count and the number of records must both be the number of entities |
| ProductionGolden.MeasurementsAgreeExactly | scripts/check_production_golden_acceptance.py:541-544 | finite measurements agree exactly within the absolute tolerance or the relative one of either, other single values exactly when they are the same |
| GreedyPairing.FirstFitSound | scripts/check_production_golden_acceptance.py:553-577 | a greedy success implies a pairing |
| GreedyPairing.FirstFitExact | scripts/check_production_golden_acceptance.py:553-577 | first-fit finds every pairing among lists over given records and entities if and only if the relation is difunctional on them |
| GreedyPairing.AugmentingSucceedsToo | scripts/check_production_golden_acceptance.py:553-577 | where first-fit succeeds, augmenting-path matching over the same relation leaves nothing unmatched |
| OwnershipLinks.ExpandOwnership | scripts/live_mcp_r26_acceptance.py:363-390 | the expansion yields exactly the processes that a chain of time-ordered parent or child links connects to a tracked or root PID, within one round more than there are candidates |
| OwnershipLinks.ClosedHoldsOwned | scripts/live_mcp_r26_acceptance.py:363-390 | owned processes lie in every set that holds the seeds and is closed under links |
| OwnershipLinks.LinkedUnlessOlder | scripts/live_mcp_r26_acceptance.py:363-385 | a child is linked with its parent, in both directions, unless it was created strictly earlier |
| ProcessCleanup.Tracker.Track | scripts/live_mcp_r26_acceptance.py:342-403 | it adds exactly the accepted candidates before the first refused one, and no record changes; it completes exactly when none is refused; if every record linked back to a root through records before, this still holds exactly when the added ones link to a tracked or root PID among themselves, which a completed call guarantees; every process of its first listing outside the baseline was a candidate under the identity it was seen with, or was seen gone |
| ProcessCleanup.Tracker.Candidates | scripts/live_mcp_r26_acceptance.py:352-361 | no process that appeared after the baseline is overlooked: each is a candidate under the identity it was seen with, or was seen gone in a later listing |
| ProcessAdmission.AdmitExact | scripts/live_mcp_r26_acceptance.py:392-402 | recording candidates in PID order adds exactly those before the first that is not acceptable or reuses a tracked PID, and runs to its end exactly when there is none such |
| ProcessAdmission.BaseNameExactly | scripts/live_mcp_r26_acceptance.py:394-396 | the image name is what follows the last separator |
| ProcessAdmission.RootedExactlyWhenSupported | scripts/live_mcp_r26_acceptance.py:363-403 | a record that links back to the roots still does after additions if and only if each added process links to a tracked or root PID through added ones alone |
| ProcessAdmission.CompletedIsRooted | scripts/live_mcp_r26_acceptance.py:363-403 | a call that refuses nothing keeps every record linked to a root through records |
| ProcessAdmission.AdmittedIsRooted | scripts/live_mcp_r26_acceptance.py:363-403 | from a rooted record, and while no tracked PID is reused, every owned process links to a root on the evidence of the call, recorded or not |
| ProcessAdmission.ReuseAdmitsStranger | scripts/live_mcp_r26_acceptance.py:392-402 | with a reused PID a failing call can leave a process on record that neither the records nor the processes seen in the call link to a root |
| ProcessAdmission.RefusalLosesLink | scripts/live_mcp_r26_acceptance.py:392-402 | without any reuse of a tracked PID, refusing an unacceptable process can leave one on record that no record links to a root |
| ProcessCleanup.Os.TerminateExact | scripts/live_mcp_r26_acceptance.py:406-449 | a process is terminated only if its image and creation time are those expected at that moment |
| ProcessCleanup.Tracker.TerminateTracked | scripts/live_mcp_r26_acceptance.py:474-482 | each kill hits a process whose identity is on record for its PID, outside the baseline; when it completes, every listed tracked process was hit or was seen gone |
| ProcessCleanup.Tracker.SweepRound | scripts/live_mcp_r26_acceptance.py:466-483 | a completed round leaves no recorded process that its first listing shows outside the baseline untouched: each was hit or was seen gone since the round began; an OS error means that a parent or identity could not be read, or that a termination failed for a process still listed; an assertion error means a refused candidate or a refused identity |
| ProcessCleanup.Tracker.Cleanup | scripts/live_mcp_r26_acceptance.py:452-503 | in every run: records only grow, by acceptable processes outside the baseline; every kill is lawful, and hits a process linked to a root through records if the record it starts from links back to the roots; in every completed round each recorded process listed outside the baseline was hit or was seen gone; and it ends for exactly one stated reason: a round failed for its own cause, the last listing is the baseline (returned), it shows an unrecorded process, or the rounds ran out with recorded ones still listed |
| ProcessCleanup.Tracker.Run | scripts/live_mcp_r26_acceptance.py:1498-1604 | over any number of tracking calls, stopped by the first that raises, and the cleanup on their record: every kill is of an owned process, unless a call refused a candidate and those recorded before it do not link to the roots; the record handed over is rooted in exactly these cases; all calls are made unless one refuses a candidate or meets an OS error; the cleanup sweeps every process handed over in each completed round, and ends for a stated reason |
| ProcessCleanup.KillsOwnedExactlyWhenRooted | scripts/live_mcp_r26_acceptance.py:466-482 | the kills that the next cleanup round can make are all of owned processes if and only if the record it starts from links back to the roots |
| ProcessCleanup.StrangerIsKilled | scripts/live_mcp_r26_acceptance.py:1563-1604 | after a tracking call that met a reused PID, the cleanup can lawfully kill a process that no record links to a root |
| ApprovalGate.EvaluateExact | apps/engineer_desktop/controller.py:291-346 | approval is possible exactly when no reason is given, and exactly when presence, hash, report scope, findings and acknowledgements all support the scope and it is current with an open job, or stale at the marker revision |
| ApprovalGate.EarlyReasonsExactly | apps/engineer_desktop/controller.py:291-321 | which single reason ends the evaluation early, in the order of the checks, and when none does |
| ApprovalGate.LateReasonsExactly | apps/engineer_desktop/controller.py:322-346 | otherwise a current job in a closed state gives that one reason; else staleness, blocking findings, unacknowledged warnings and errors are each reported exactly when present, in this order |
| ApprovalGate.GateIsExactUnlessMarked | apps/engineer_desktop/controller.py:322-335 | for a displayed scope, approvals coincide with fully supported, current and open scopes on all evidence if and only if its revision is not the stale marker |
| ApprovalGate.MarkedScopeApprovedWhenStale | apps/engineer_desktop/controller.py:322-335 | a scope at the marker revision is approved while stale and committed |
| SessionTrace.CommitUsesItsIssuance | apps/engineer_desktop/controller.py:280-289 | a commit carries exactly the scope and token of one earlier issuance that nothing consumed, cleared or replaced in between |
| SessionTrace.CommitsNeverExceedIssuances | apps/engineer_desktop/controller.py:363-385 | per scope and token, commits plus the credential still held never exceed issuances; a token issued once is committed at most once |
| SessionTrace.CommitWasDisplayed | apps/engineer_desktop/controller.py:225-244 | what is committed was on display with a recomputed plan hash when its token was issued, even if another job has been displayed since |
| SessionTrace.RollbackReusedOnlyAfterRetry | apps/engineer_desktop/controller.py:418-446 | a rollback token is sent only with the scope it was issued for, and again only if every earlier use ended in the retryable recovery error |
| SessionTrace.CommitCallsNeverExceedGrants | apps/engineer_desktop/controller.py:363-381 | the service never sees a job, hash, revision and token committed more often than it granted them |
| SessionTrace.CommitCallsFollowGrants | apps/engineer_desktop/controller.py:280-381 | the commit law at the service follows from any legal trace |
| SessionTrace.RollbackCallsFollowGrants | apps/engineer_desktop/controller.py:404-446 | the rollback law at the service follows from any legal trace |
| DesktopController.EngineerDesktopController.Refresh | apps/engineer_desktop/controller.py:163-262 | credentials are untouched; a plan that its hash check does not confirm is withdrawn from display and refused, a confirmed one is displayed for this job at the revision that was read; a terminal or approved job is never previewed or validated again, an open one is exactly once; it raises only what a service call raised, a refused plan or an incomplete reading of this job |
| DesktopController.ForeignDisplayExactly | apps/engineer_desktop/controller.py:239-246 | a refresh that gets through leaves another job on display exactly when one was and the stored plan carries no hash |
| DesktopController.ForeignDisplayStays | apps/engineer_desktop/controller.py:186-246 | a concrete stored state on which one job stays on display after a refresh of another |
| DesktopController.EngineerDesktopController.Present | apps/engineer_desktop/controller.py:225-262 | once the hash is settled, the display follows the stored state, exactly the open jobs are previewed and validated again, and the only failures are the service's |
| DesktopController.EngineerDesktopController.RecomputeHash | apps/engineer_desktop/controller.py:188-224 | the stored plan of a sealed or terminal job is verified under the job's own hash, any other specification is compiled again at the job's revision, and the outcome is the plan's hash exactly when that check confirms it |
| DesktopController.EngineerDesktopController.Eligibility | apps/engineer_desktop/controller.py:291-346 | the decision is the gate's on evidence read in this very call, each item for the displayed job, and the revision of that job's document last and only when it still matters |
| DesktopController.EngineerDesktopController.Approve | apps/engineer_desktop/controller.py:264-289 | a return is approved exactly when the gate allows the displayed scope on evidence read in this very call, and carries the gate's reasons; then the service was asked once, with that scope, and its token is kept with exactly that scope; otherwise nothing changes; it raises only what a service call raised |
| DesktopController.EngineerDesktopController.CommitApproved | apps/engineer_desktop/controller.py:363-381 | the held token is sent once with its own scope, the service's answer is passed on, and token and scope are dropped whatever it is; without a token nothing is sent |
| DesktopController.EngineerDesktopController.PrepareRollback | apps/engineer_desktop/controller.py:387-393 | the service is asked once for this job's scope; any earlier rollback credential is gone; the reviewed scope is the one returned, or none |
| DesktopController.EngineerDesktopController.ApproveRollback | apps/engineer_desktop/controller.py:404-416 | the service is asked once, with the scope under review, and a granted token is kept; without such a scope it is not asked; a failure is passed on and changes nothing |
| DesktopController.EngineerDesktopController.RollbackApprovedScope | apps/engineer_desktop/controller.py:418-446 | token and scope are sent together and the answer is passed on; only the retryable recovery error keeps them, every other outcome clears both |
| DesktopController.RunSession | apps/engineer_desktop/controller.py:61-450 | for every sequence of requests and every service behaviour, each request has its effect: approval is asked for exactly when the gate allows, and what is held is sent; every commit that the service sees follows its own grant of exactly that approval, with no other grant and no other commit in between, so that none is seen more often than it was granted; and every rollback it sees follows its own grant of exactly that rollback, with only retryable attempts of it in between |
| RasterAccuracy.ValidateAccuracy | scripts/check_production_raster_acceptance.py:611-685 | no error is reported exactly when the artifact repeats every claim and the source agrees, samples are well formed, distinct and cover the accepted candidates, the claimed aggregates are right, and every single error is within the tolerance |
| RasterAccuracy.MetricsExactly | scripts/check_production_raster_acceptance.py:662-684 | with m the root of the largest square and r that of the mean square, the metrics hold exactly when the count is right, the claimed maximum lies within the epsilon of m, the claimed root mean square within the epsilon of r, and m within a positive tolerance |
| RasterAccuracy.NearRootExactly | scripts/check_production_raster_acceptance.py:674-675 | the comparison by squares is the comparison of the claim with the root itself |
| RasterAccuracy.SumSplits | scripts/check_production_raster_acceptance.py:664-664 | the sum of the squares splits over any division of the samples |
| RasterAccuracy.ClaimsMatchExactly | scripts/check_production_raster_acceptance.py:205-210 | an artifact repeats the claims exactly when it is present and gives every claimed field the same value, integers read as numbers, and none of them a NaN |
| RasterAccuracy.AcceptedSample | scripts/check_production_raster_acceptance.py:523-608 | what an accepted sample promises: exactly ten fields, the source and the unit, an accepted candidate, a known geometry and kind, safe names and a named entity; its binding is made of these, and its error is the distance of its two values |
| RasterAccuracy.ThresholdMeansEach | scripts/check_production_raster_acceptance.py:665-684 | both thresholds hold exactly when each error is within tolerance |
| RasterAccuracy.RmseWithinMaximum | scripts/check_production_raster_acceptance.py:665-684 | the mean square never exceeds the maximum square |
| RasterReadback.Collect | scripts/check_production_raster_acceptance.py:881-938 | the collection is valid exactly when it is a non-empty list of well-formed items without a repeated binding, and then holds all their values |
| RasterReadback.AcceptedItem | scripts/check_production_raster_acceptance.py:881-938 | what an accepted item promises: exactly five fields, the unit, an accepted candidate, a known geometry kind and a named entity; it holds exactly its measurements, each a finite number or point under its own binding |
| RasterReadback.ValidateMeasurements | scripts/check_production_raster_acceptance.py:881-995 | no error is reported exactly when the measurements are valid, cover each accepted candidate once, have the bindings of the samples, and agree with the observed values within the tolerance |
| RasterReadback.AgreesExactly | scripts/check_production_raster_acceptance.py:958-993 | observed and live value agree exactly when two numbers differ by at most the tolerance, or two points lie at most that far apart |
| RasterReadback.EvidenceBound | scripts/check_production_raster_acceptance.py:523-995 | when both validators report nothing, samples and live measurements are in bijection and every live value lies within twice the tolerance of the expected one |
| RasterWitness.BoundIsAttained | scripts/check_production_raster_acceptance.py:523-995 | for every positive tolerance there is evidence that both validators accept and whose live values are exactly twice the tolerance from the expected ones, so that bound cannot be improved |
| RasterUnequal.UnequalErrorsAccepted | scripts/check_production_raster_acceptance.py:611-685 | four samples with errors 0, 0, 0 and 0.1 are accepted exactly when the claimed maximum is 0.1 and the claimed root mean square 0.05, up to the epsilon |
| Shoelace.RotationInvariant | scripts/check_production_raster_acceptance.py:462-467 | the cyclic sum does not depend on the starting vertex |
| Shoelace.TranslationInvariant | scripts/check_production_golden_acceptance.py:516-523 | it does not depend on the polygon's position |
| Shoelace.ReversalNegates | scripts/check_production_golden_acceptance.py:516-523 | walking backwards negates it |
| Shoelace.AreaIsGeometric | scripts/check_production_golden_acceptance.py:516-523 | the reported area survives translation, change of starting vertex and reversal together |
| Shoelace.DistinctnessIsImplied | scripts/check_production_raster_acceptance.py:462-468 | three distinct vertices follow from the area test |
| Shoelace.TriangleArea | scripts/check_production_golden_acceptance.py:516-523 | for three points the sum is the determinant of two of the sides |
| Shoelace.EarAdds | scripts/check_production_golden_acceptance.py:516-523 | adding a vertex adds the triangle it spans with the closing edge, so the sum is that of a triangulation |
| Shoelace.RectangleArea | scripts/check_production_golden_acceptance.py:516-523 | a rectangle has width times height as its area |
| PilotChronology.PilotVerifier.Verify | scripts/check_production_pilot_acceptance.py:948-1423 | a bundle passes exactly when consent, every case, the review and the metrics hold |
| PilotChronology.PilotVerifier.ValidateConsent | scripts/check_production_pilot_acceptance.py:582-653 | it adds no error exactly when the entries are complete, distinct, attested no earlier than given, and cover the participants; it returns each participant's consent time |
| PilotChronology.PilotVerifier.VerifyCase | scripts/check_production_pilot_acceptance.py:1091-1330 | it adds no error exactly when the case's participants, records, consents, order and durations hold |
| PilotChronology.PilotVerifier.ValidateReview | scripts/check_production_pilot_acceptance.py:801-884 | it adds no error exactly when the review is attested after the latest measurement and its attestation issued no earlier |
| PilotChronology.PassingTimeLine | scripts/check_production_pilot_acceptance.py:1275-1417 | in a passing bundle every case has consents before the measurements, the manual one before the harness one, both before review and attestation; its manual time is the measured one rounded to tenths, and its harness time equals harness minus fix-up plus idle minutes at tenth precision |
| PilotChronology.SomeBundlePasses | scripts/check_production_pilot_acceptance.py:757-777 | a concrete bundle passes, and in it no other harness time would |
| PilotChronology.DurationExact | scripts/check_production_pilot_acceptance.py:757-777 | for a record of tenth precision the duration check is exactly that equation together with a non-negative active time |
| PilotChronology.TenthsCombine | src/cad_harness/domain/models/metrics.py:136-138 | sums and differences of minutes rounded to tenths need no further rounding |
| PilotChronology.RoundMinutesExactly | src/cad_harness/domain/models/metrics.py:136-138 | minutes round to given tenths exactly when they lie within half a tenth of them, halves going away from zero |
| PilotChronology.LatestEndIsReached | scripts/check_production_pilot_acceptance.py:1296-1301 | the latest measurement end is the end of some case's measurement |
| EnvironmentBlock.Build | scripts/live_owned_bridge_process.py:390-407 | an error is raised exactly for an invalid entry; otherwise the block reads back to exactly the merged map, in strictly increasing case-folded order, and ends there |
| EnvironmentBlock.BlockRoundTrip | scripts/live_owned_bridge_process.py:403-407 | splitting at NUL and then at the first equals sign recovers the written entries, with no empty entry before the end |
| EnvironmentBlock.LastWriterWins | scripts/live_owned_bridge_process.py:393-402 | the merged map holds exactly the last write of each case-folded key |
| EnvironmentBlock.BlockLiterally | scripts/live_owned_bridge_process.py:403-407 | the characters of the block for no, one and two entries |
| Text.FoldedAlike | scripts/live_owned_bridge_process.py:390-402 | two ASCII texts fold to the same key exactly when they are equal up to the case of letters |
| TextOrder.TextLessExactly | scripts/live_owned_bridge_process.py:403-406 | one key precedes another exactly when it has the smaller character, or ends, where they first differ |
| OwnedLaunch.Launch | scripts/live_owned_bridge_process.py:180-285 | whichever step fails, every acquired resource has its release attempted exactly once and the Job, if any, is terminated; on success only the thread handle has been released; the steps run in order up to the first failure, what they acquired follows from how far they came, and the last error is raised; the process never runs unconfirmed in its Job |
| OwnedLaunch.OwnedBridgeProcess.Close | scripts/live_owned_bridge_process.py:140-171 | the first call attempts every remaining release once even when releases fail, and raises exactly when something failed; later calls do nothing |
| OwnedLaunch.LaunchAndClose | scripts/live_owned_bridge_process.py:140-285 | a launch followed by any number of closes settles every resource; what was acquired follows from how far the launch came, and the process resumes only when confirmed in its Job |
| CorpusTraversal.EnumerateDrawings | scripts/live_mcp_corpus_read_acceptance.py:124-147 | the list of exactly the drawings below the root, increasing in path order where names within a directory differ; it is refused exactly when the root is no directory, a link lies anywhere below, or there is no drawing |
| CorpusTraversal.WalkByStack | scripts/live_mcp_corpus_read_acceptance.py:130-143 | the stack loop terminates with the result of the recursive pre-order walk |
| CorpusTraversal.WalkIncreases | scripts/live_mcp_corpus_read_acceptance.py:130-147 | when names within a directory differ, of two listed paths the one that ends in a directory precedes the one that goes on below it; otherwise the first differing names decide |
| CorpusTraversal.WalkRefusesExactly | scripts/live_mcp_corpus_read_acceptance.py:133-138 | the walk is refused exactly when some directory below lists a link |
| CorpusTraversal.NameBeforeExactly | scripts/live_mcp_corpus_read_acceptance.py:135-135 | a name precedes another exactly when its folded form does, or the forms are equal and the name itself does |
| CorpusTraversal.SuffixExactly | scripts/live_mcp_corpus_read_acceptance.py:141-141 | the suffix is the last dot with what follows it, unless nothing precedes or follows it |
| CorpusTraversal.WalkFindsExactly | scripts/live_mcp_corpus_read_acceptance.py:130-147 | the walk lists a path exactly when the tree has a drawing there |
| CorpusTraversal.WalkFindsOnce | scripts/live_mcp_corpus_read_acceptance.py:130-147 | when names within a directory differ, no path is listed twice |
| CorpusTraversal.PushedChildren | scripts/live_mcp_corpus_read_acceptance.py:143-143 | pushing the children reversed makes the stack visit them in order |
| CorpusTraversal.SortedListing | scripts/live_mcp_corpus_read_acceptance.py:135-135 | a listing is the directory's entries in order of folded name, then name |
| CaseNaming.AssignCaseIds | scripts/live_mcp_corpus_read_acceptance.py:203-211 | each case is named by its digest and, if the digest repeats, its ordinal |
| CaseNaming.CaseIdExactly | scripts/live_mcp_corpus_read_acceptance.py:203-211 | a digest of its own names the case; a repeated one is followed by the number of cases so far that have it |
| CaseNaming.CaseIdsDistinct | scripts/live_mcp_corpus_read_acceptance.py:203-211 | for digests of one length the identifiers are pairwise distinct |
| CaseNaming.PaddedDenotes | scripts/live_mcp_corpus_read_acceptance.py:207-210 | the zero-padded ordinal has at least three digits, no zeros in front beyond that, and determines its number |

## Left out

- Floating-point rounding: finite floats are exact reals, with infinities and NaN kept apart; distances are compared by their squares, so no root is rounded; converting a huge integer to float, which can raise, is not modelled.
- Case folding and blank stripping beyond ASCII.
- Values outside JSON in the comparator (bytes, opaque objects), the conversion of models and dataclasses to plain data, and the type errors of the two public entry points.
- Negative tolerances, for which closeness tests raise an error; the self-agreement law assumes none.
- Entity measurements other than the polygon area: perimeters, circles and lines enter the golden check as given numbers.
- Raster values that cannot be hashed (a list where a name is expected), on which the source raises an error; and Python's equality of numbers and Booleans in the source-digest and name comparisons, which are structural here; values within a list are compared by Python's equality without its shortcut for identical objects.
- The digest, revision and job checks at the head of the readback validation, the accepted-reference parser, the non-polygon candidate geometries, the image checks, and cross-case uniqueness in the raster verifier: independent lookups.
- PilotChronology.PilotVerifier.ValidateConsent: the header of the consent evidence enters as part of the bundle's validity flag.
- PilotChronology.PilotVerifier.VerifyCase: record identity, hashes and attestations enter as the case's validity flag.
- PilotChronology.PilotVerifier.ValidateReview: the reviewer's independence, the scope digest and the set of reviewed cases enter as the review's validity flag.
- PilotChronology.PilotVerifier.Verify: identifiers, hashes, keys, flags, headers, artifacts and review scope enter as one validity flag per record, since they do not touch times; the metrics collector and the thresholds enter as its outcome.
- ProcessAdmission.BaseNameExactly: trailing separators, drive-relative paths and share roots; image paths are absolute file paths.
- ProcessCleanup.Tracker.Track: the parent PID is read after the identity, so a PID reused in between yields a mixed record, as in the source; links are claimed between records, not between the processes that once held those PIDs.
- ProcessCleanup.Tracker.Run: what happens between tracking calls enters only as their arbitrary number, and the root is known from the start.
- ProcessCleanup.Tracker.Cleanup: the deadline is an arbitrary number of polling rounds; sleeping is left out.
- OwnedLaunch.Launch: no claim is made that the process is dead after a failed launch, nor about the order of releases, nor that a launch directory is removed when creating its script fails; interrupts between statements are not modelled, and notes added to the first error are left out.
- The approval window's effort timing, current-scope poll, rollback-availability poll and view building, and the widgets.
- Byte limits, copying and hashing while preparing corpus cases; path resolution of the corpus root.
- MCP transport, COM, Win32 calls, named pipes, file access, hashing, signatures and attestation verification: they enter as arbitrary outcomes or opaque values.
