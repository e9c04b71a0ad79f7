# What the OSCAR correlation test harness promises

The harness sends test alerts at a live correlator and then decides, from records it does not control, whether the
correlator did the right thing. This project models the parts of it that make or keep such a claim, and proves what each
claim is worth.

- **The installed-Flood oracle** (`Oracle`, `OracleLaws`, `OracleExact`, `OracleVerdicts`, `Manifest`, `History`) compares
  three populations read at different times. It is proved equal to a first-fault definition, shown to say Eligible exactly for an exact
  three-way match, and shown to be monotone: more evidence never rescues an adverse observation. What separates Ambiguous
  from Violation is stated on the rows. The groups are arbitrary; the built-in 5/4/3/3 is one instance.
- **The polling latch and its offline verifier** (`InstalledRun`, `InstalledClaims`, `InstalledLaws`). Both sides fold the
  same findings; the verdict of an accepted report is exactly what its polls earned. The converse is false as written: the runner tests completion
  on a later clock reading than the one it records, so the verifier can reject a run the runner completed.
  `CompletedRunRejected` is such a run, and `CompletedRunAcceptedIff` is the exact condition.
- **The mixed-load planner and validator** (`Diffusion`, `Slots`, `MixedPlan`, `MixedLoad`, `MixedLaws`, `MixedFaults`): exact rate
  diffusion, a greedy allocator whose retry loop terminates, and a validator that accepts what the planner promised.
- **Record before send** (`InstalledSender`, `Ordinary`, `OrdinaryLaws`, `Runner`, `Discovery`, `RecoveryLaws`): what is on the wire was
  recorded first, over every run, crash and recorder error; and what a CLEAN cleanup answers for. The interrupted path
  recovers every attempt, and a send whose outcome is unknown only by its own start and labels. A run that completes its
  observation resolves exactly what it observed, which need not be what it sent (`CompletedCleanUnanswered`).
- **Observation and lowering** (`Assertions`, `Observation`, `EarlyPass`, `Readiness`, `Episode`, `Lowering`,
  `LoweringLaws`, `Pagination`). Two counts stand for a one-to-one correspondence of events and alerts, which holds
  exactly as long as no alert shows two events (`ReadyOneEachIff`, `SharedAlertMisleads`). An early PASS re-evaluates the
  assertions after its sleep but not the completeness of the evidence; `EarlyPassProvenIff` says for which assertion lists
  that makes a difference. The status recorded for a source that is not ready can depend on row order
  (`StatusOrderFreeIff`); readiness never does.
- **Small stateful pieces**: the dotenv store (`EnvText`, `EnvStore`, `EnvFile`), log rotation (`Rotation`) and run
  identifiers (`RunId`). The store writes some values bare; those with outer white space it does not quote come back
  trimmed (`BareValueLosesSpace`), and `FileAgreesExactly` says that this is the only way file and memory differ.

`Common` and `Injection` hold shared datatypes and counting lemmas. Inputs from outside the process (clocks, network
replies, transaction outcomes, randomness) are parameters, so every statement ranges over all of them. Instants and
durations are integers, and an instant of 0 is the zero time. The planner's times are exact reals.

`dafny verify dfyconfig.toml` checks everything.

## Model

| member | source | states |
|---|---|---|
| Manifest.Prepare | internal/oscar/installed_pack_manifest.go:67-96 | an index in range gets the site of the group whose index range holds it and its own source id; any other index is an error |
| Manifest.SiteIffInGroup | internal/oscar/installed_pack_manifest.go:71-78 | with distinct sites, an index has a group's site exactly when it lies in that group's range |
| Manifest.SourceIdInjective | internal/oscar/installed_pack_manifest.go:79 | different indices never share a source id |
| Manifest.ExpectedSize | internal/oscar/installed_pack_oracle.go:48-55 | the expected map has one entry for every input |
| Oracle.EvaluateInstalledFlood | internal/oscar/installed_pack_oracle.go:36-184 | the map-filling loops with their early returns compute the reference verdict: the first fault in reading order, then completeness, then the group counts |
| Oracle.DecodeHistory | internal/oscar/installed_pack_oracle.go:191-248 | the retained History is taken exactly when it is one complete page of well-formed rows with distinct ids that equal the typed rows |
| Oracle.ReadAuditRow | internal/oscar/installed_pack_oracle.go:131-168 | one audit row's fault, and otherwise windows, sites and counts that index exactly the rows read |
| OracleLaws.AdverseIffClash | internal/oscar/installed_pack_oracle.go:56-184 | the verdict is adverse exactly when the three multisets of rows clash, and Eligible exactly when they are full and do not |
| OracleLaws.AdverseUpwardClosed | internal/oscar/installed_pack_oracle.go:169-175 | adding rows to any population never turns an adverse verdict into Incomplete or Eligible |
| OracleLaws.PartOfEligible | internal/oscar/installed_pack_oracle.go:176-184 | every part of an Eligible observation is Incomplete or Eligible |
| OracleLaws.ReorderingKeepsClass | internal/oscar/installed_pack_oracle.go:56-184 | reordering rows never changes which of adverse, Incomplete and Eligible results |
| OracleVerdicts.AmbiguousIff | internal/oscar/installed_pack_oracle.go:45-140 | Ambiguous if and only if there are too many rows, History is undecodable, or the first faulty row in reading order is unreadable, unattributed, or one of ours that repeats an earlier row's id, source or fingerprint |
| OracleVerdicts.ViolationIff | internal/oscar/installed_pack_oracle.go:36-184 | every other contradiction of the populations, and every evaluation outside the fixed contract, is a Violation |
| OracleVerdicts.OverGroupViolates | internal/oscar/installed_pack_oracle.go:169-175 | a group over its expected decisions is a Violation unless the observation is unclear |
| OracleVerdicts.ReasonHolds | internal/oscar/installed_pack_oracle.go:56-184 | the fault that a verdict names is a fault of the first faulty row, of a population or of a group |
| OracleVerdicts.DecodedIff | internal/oscar/installed_pack_oracle.go:191-248 | a History decodes exactly when nothing was read or it is the one page that holds all its rows |
| OracleExact.EligibleIffExactMatch | internal/oscar/installed_pack_oracle.go:56-184 | Eligible if and only if Active, History and Audit match the manifest one to one, each site has one window of its own and each group its expected decisions |
| OracleExact.FinalCheckUnreachable | internal/oscar/installed_pack_oracle.go:171-183 | when every group's count is the sum of its expected decisions, the second group pass can never fail |
| OracleExact.DecisionsConserved | internal/oscar/installed_pack_oracle.go:160-167 | the decisions counted over distinct sites add up to the audit rows |
| OracleExact.FixedScenarioBalanced | test-packs/build_operational.py:189-190 | the built-in groups are distinct, balanced and hold fifteen inputs |
| InstalledRun.LatchStep | internal/runner/installed_pack.go:541-546 | the update keeps the latch at the last Violation if any, else the first Ambiguous finding |
| InstalledRun.LatchUnique | internal/evidence/installed_pack_claims.go:248-253 | the findings determine the latch, so two folds over them agree |
| InstalledRun.RunReport.ObserveRound | internal/runner/installed_pack.go:477-570 | one round appends exactly its poll and event, latches its finding, and completes or continues exactly under the code's conditions |
| InstalledRun.RunReport.Observe | internal/runner/installed_pack.go:468-572 | the loop succeeds exactly when some round completes it; polls, events, evaluation and latch are those of the rounds, also when it is cut short |
| InstalledClaims.ReplayPolls | internal/evidence/installed_pack_claims.go:219-265 | the replay accepts exactly polls that are in order, in time and equal to the retained evidence, and rebuilds the latch |
| InstalledClaims.ValidateInstalledClaims | internal/evidence/installed_pack_claims.go:203-329 | the verifier accepts exactly the reports the declarative definition accepts |
| InstalledLaws.AcceptedPass | internal/evidence/installed_pack_claims.go:308-327 | an accepted PASS had no adverse poll, ended Eligible, and both clocks cover window and lag after the last forward |
| InstalledLaws.AcceptedFail | internal/evidence/installed_pack_claims.go:316-327 | an accepted FAIL has a poll that was a Violation |
| InstalledLaws.AcceptedVerdict | internal/evidence/installed_pack_claims.go:308-327 | an accepted report that did not fail is FAIL if and only if some poll was a Violation, PASS if and only if no poll was adverse and the last was Eligible, and INCONCLUSIVE otherwise |
| InstalledLaws.AcceptedPollsOrdered | internal/evidence/installed_pack_claims.go:219-247 | the polls of an accepted report equal the retained evidence, never overlap or run backwards, and lie between the last forward and the end |
| InstalledLaws.CompletedRunWaits | internal/runner/installed_pack.go:554-566 | a completed run waited 90 s after its last forward on both clocks, in its last round and not before, and polled within 180 s |
| InstalledLaws.PassMeansExactMatch | internal/evidence/installed_pack_claims.go:240-247 | an accepted PASS over retained evidence is an exact three-way match at its last poll |
| InstalledLaws.Run | internal/runner/installed_pack.go:303-318 | the runner's report is one that FailedRunAccepted and CompletedRunAcceptedIff speak of; it fails exactly when observation or postflight fails; else it is FAIL exactly for a Violation in some round, PASS exactly when no round was adverse and the last was Eligible |
| InstalledLaws.CompletedRunAcceptedIff | internal/runner/installed_pack.go:554-566 | with monotone clocks a completed run is accepted if and only if its last poll's recorded end and elapsed time lie inside the bounds |
| InstalledLaws.CompletedRunRejected | internal/runner/installed_pack.go:564 | a concrete completed PASS, with monotone clocks, that the verifier rejects |
| InstalledLaws.FailedRunAccepted | internal/evidence/installed_pack_claims.go:266-307 | every run with monotone clocks that fails after reaching observation is accepted, with or without a judged tail or an unstored last event |
| Diffusion.Diffuse | test-packs/incremental_mixed.py:60-64 | after every second the number of events is the floor of the cumulative offered rate, spread evenly within the second |
| Diffusion.DiffusedIncreasing | test-packs/incremental_mixed.py:64 | send times are strictly increasing and lie in the plan's duration |
| Diffusion.SentBefore | test-packs/incremental_mixed.py:61-64 | an event is sent before second s exactly when its number is below the cumulative count at s |
| Diffusion.TotalEvents | test-packs/incremental_mixed.py:61-64 | the plan holds floor(rate * (hold + 1.2 * ramp)) events |
| Slots.ChooseSlots | test-packs/incremental_mixed.py:70-75 | each input gets the first free slot at least the spacing after the previous one, or the plan does not fit |
| Slots.FirstFitUnique | test-packs/incremental_mixed.py:70-75 | the greedy choice is determined by target and occupied slots |
| Slots.FirstFitSpaced | test-packs/incremental_mixed.py:75 | a greedy choice is fresh, in input order and spaced |
| Slots.NextMinutePasses | test-packs/incremental_mixed.py:77 | the retry target lies more than a second past the rejected first slot, for every start |
| Slots.Place | test-packs/incremental_mixed.py:69-77 | the retry loop terminates for every input; it ends in one minute or stuck, and every earlier attempt straddled minutes |
| Slots.SettledUnique | test-packs/incremental_mixed.py:69-77 | the slots the retry loop ends with are determined by start, send times, taken slots and target |
| Slots.RefusedExcludes | test-packs/incremental_mixed.py:74 | where the loop runs out of slots there are none it could have ended with |
| MixedPlan.PlaceCase | test-packs/incremental_mixed.py:67-85 | placing one case keeps every earlier case placed and adds its own inputs at the slots its retry loop ends with; no placement means that loop, from this case's target and the slots taken so far, ran out of free slots |
| MixedPlan.PlaceAll | test-packs/incremental_mixed.py:66-85 | every input of every cycle owns a slot, groups are spaced and within one minute, slots are the greedy ones, and the sums are those of whole cycles; no layout if and only if, placing the cases in order, one is refused |
| MixedPlan.BuiltUnique | test-packs/incremental_mixed.py:66-82 | start and send times determine the slots of every case |
| MixedPlan.NoRoomExact | test-packs/incremental_mixed.py:66-77 | once some case is refused no choice of greedy slots serves all of them |
| MixedPlan.TargetsSpread | test-packs/incremental_mixed.py:68 | the targets start at 0, grow by 0.18 s from case to case and by equal steps from cycle to cycle that together span all but the last 75 s |
| MixedLoad.MakePlan | test-packs/incremental_mixed.py:55-96 | a plan is the diffused times with the placed inputs and ordinary events elsewhere; there is none if and only if the arguments are refused or some case is |
| MixedPlan.ScenarioTotals | test-packs/build_showcase.py:120-145 | one packet is 14 cases, 31 inputs, 6 synthetic parents and 1 existing-parent link |
| MixedLoad.CountsConserved | test-packs/incremental_mixed.py:65-96 | correlation inputs are 31 per packet and at most 30% of the total; parents and links are conserved over the groups |
| MixedLoad.InputHasOwnSlot | test-packs/incremental_mixed.py:79-82 | every scenario input has a slot of its own and the event there is that input |
| MixedLoad.InputsSpread | test-packs/incremental_mixed.py:68 | no input of a case in cycle c is sent before c * (duration - 75) / packets + 0.18 * its number |
| MixedLoad.SourcesDistinct | test-packs/incremental_mixed.py:87-90 | no two events of a plan share a source |
| MixedLoad.ValidateInputs | test-packs/incremental_mixed.py:115-144 | the loops report exactly the errors of the row, inventory and group checks |
| MixedFaults.FirstFaultNamed | test-packs/incremental_mixed.py:119-135 | a row gets a fault exactly when that is the first, in the order looked for, that holds of it |
| MixedFaults.SpacedByThree | test-packs/incremental_mixed.py:141 | the spacing check passes exactly when inputs lie three seconds apart for every place between them |
| MixedFaults.SameMinuteIff | test-packs/incremental_mixed.py:142 | the minute check passes exactly when one wall-clock minute holds every input |
| MixedFaults.AcceptsIff | test-packs/incremental_mixed.py:56 | a run is planned at exactly four rates, and under a name that holds more than white space |
| MixedFaults.PacketsFill | test-packs/incremental_mixed.py:65 | as many whole packets as 30% of the plan holds, and no more |
| MixedFaults.ProfileTotals | test-packs/incremental_mixed.py:59-64 | a full plan has 1140 s and 1044 events for each event a second, a pilot 80 s and 72 |
| MixedLaws.InputsAcceptedIff | test-packs/incremental_mixed.py:115-144 | no error is reported if and only if every event has its one sound exchange and every group keeps spacing and minute |
| MixedLaws.SeenAll | test-packs/incremental_mixed.py:136 | that every sequence number was sent follows by counting |
| MixedLaws.MinutesHold | test-packs/incremental_mixed.py:76-77 | whatever the lags up to the lateness limit, a placed group stays in one minute |
| MixedLaws.PlannerAndValidatorAgree | test-packs/incremental_mixed.py:55-144 | a plan sent promptly with non-decreasing lags in each group is accepted without error, in whatever order its exchanges were recorded |
| MixedLaws.PromptSendingOnlySpacing | test-packs/incremental_mixed.py:137-143 | for arbitrary lags in range and records in any order the only possible error is spacing |
| InstalledSender.Journal.Record | internal/persistence/sqlite/installed_pack_repository.go:125-174 | an attempt is recorded only at the next index after forwarded attempts; an error may still have committed |
| InstalledSender.Journal.Complete | internal/persistence/sqlite/installed_pack_repository.go:176-210 | only an unresolved attempt gets an outcome |
| InstalledSender.InstalledPackInput.SendRecorded | internal/oscar/installed_pack_input.go:82-139 | recorded, posted and forwarded each hold exactly under the code's conditions; anything but an exact acknowledgement stops the sender |
| InstalledSender.SendInputs | internal/runner/installed_pack.go:222-260 | the loop ends well exactly when every input is confirmed by an exact acknowledgement and stored; then every input is forwarded and was posted once, in order. Otherwise it stops at the first that is not: the inputs before are forwarded, and journal and wire hold exactly what that one left, an uncertain outcome included |
| InstalledSender.EveryStateSafe | internal/runner/installed_pack.go:222-260 | in every state of every run, crashes included: attempts are a contiguous prefix, all but the last forwarded, and the POSTs are those attempts once each with at most the last missing |
| InstalledSender.UncertainIsFinal | internal/oscar/installed_pack_input.go:80-93 | nothing is recorded, sent or completed after a stored uncertain outcome |
| InstalledSender.HistoryGrows | internal/persistence/sqlite/installed_pack_repository.go:125-210 | journal and wire only grow and stored outcomes stay |
| InstalledSender.InstalledSnapshotCleanup | internal/runner/installed_pack.go:574-584 | NOT_REQUIRED exactly for no attempts, DIRTY exactly when all were forwarded, else UNKNOWN |
| InstalledSender.FinishCleanup | internal/runner/installed_pack.go:592-606 | the reported responsibility for a read, missing or unreadable journal |
| InstalledSender.CleanupTruthful | internal/runner/installed_pack.go:235-240 | an empty journal means nothing was ever sent; a DIRTY one was sent completely, each attempt once |
| Ordinary.OrdinaryInput.InjectOrdinary | internal/oscar/ordinary_webhook.go:88-163 | the ledger and the wire after a firing: posted exactly when admitted, well formed, recorded and not cancelled; forwarded exactly by 200, ok and the pinned profile |
| Ordinary.OrdinaryInput.ResolveHistoryRecorded | internal/oscar/ordinary_webhook.go:166-210 | the ledger and the wire after a clear; a clear is posted exactly for a row that shows the exact episode of a forwarded source not yet cleared, when it is well formed, recorded and not cancelled |
| Ordinary.OrdinaryInput.UnresolvedInputCleanup | internal/oscar/ordinary_webhook.go:212-224 | responsibility is open exactly when some recorded source has no forwarded clear |
| Ordinary.OrdinaryInput.Complete | internal/runner/runner.go:682-689 | open responsibility overrides any better cleanup status |
| OrdinaryLaws.EveryRunValid | internal/oscar/ordinary_webhook.go:88-210 | over every sequence of calls: one firing and one clear per source at most, and a clear only after the forwarded firing of its own episode |
| OrdinaryLaws.EveryRunKeeps | internal/oscar/ordinary_webhook.go:94-98 | sources are never replaced, lost responsibility stays lost and discharged responsibility stays discharged |
| OrdinaryLaws.OrdinaryKeySeparates | internal/oscar/ordinary_webhook.go:85-87 | the key separates run, alert name and event as long as none holds a NUL |
| OrdinaryLaws.FinalCleanupTruthful | internal/runner/runner.go:682-689 | CLEAN or NOT_REQUIRED leaves every recorded source fired and cleared on the wire; lost responsibility always ends DIRTY |
| Discovery.ExpectedSources | internal/runner/runner.go:557-576 | the expected sources are exactly the keys some attempt maps to, each with the last attempt of the last case that has one |
| Discovery.ExpectCase | internal/runner/runner.go:563-575 | one case replaces the entries of exactly the keys it has attempts of |
| Discovery.LastInCaseIsLatest | internal/runner/runner.go:555-575 | the entry of a case is an attempt of its key after which the case has no other; no entry means no attempt |
| Discovery.LastWantedOfCase | internal/runner/runner.go:555-575 | when cases share no keys, later cases never replace the last attempt of a case |
| Discovery.UniqueHistory | internal/runner/runner.go:489-513 | one row per fingerprint, sorted by fingerprint: the last record of its latest episode |
| Discovery.RecoverSource | internal/runner/runner.go:598-635 | an attempt is missing exactly when its evidence is absent or, for an uncertain send, ambiguous; all evidence of the others is recovered |
| Discovery.Discover | internal/runner/runner.go:550-664 | recovery succeeds exactly when every name was read and every key's last attempt has its evidence; recovered rows are sound, complete and one per fingerprint |
| Runner.SetupRules | internal/runner/runner.go:202-236 | setup succeeds exactly when every rule is created, owned and adopted; the ledger lists exactly the rules written to the store, and each issued create leaves the id of a rule that came back as ours or an unknown outcome |
| Runner.SendAlerts | internal/runner/runner.go:241-363 | sending ends well exactly when every call is accepted and no checkpoint stops it; otherwise it ended at the first call that is not, with exactly the attempts and posts up to it |
| Runner.SendingSound | internal/runner/runner.go:285-320 | wherever sending ends, recorded attempts are a prefix of the plan, all but the last accepted, and what was posted was recorded first; where a checkpoint stops the run all were accepted |
| Runner.CleanUp | internal/runner/runner.go:405-487 | CLEAN exactly when every rule is gone, recovery succeeded and every row was safely resolved; NOT_REQUIRED exactly when there is nothing; the facts are those of the rows, no more |
| Runner.FailAndCleanup | internal/runner/runner.go:524-548 | after a failure exactly the recoverable rows are recovered and resolved and exactly the returned ids deleted; CLEAN means that every key's last attempt has its evidence and that all of it has an accepted resolve, at its episode or a later one |
| Runner.Execute | internal/runner/runner.go:135-403 | a whole run: posts follow records and the path is exact. Whatever the status, exactly the returned ids are deleted and exactly the observed or recoverable rows resolved. Interrupted, CLEAN if and only if every rule is gone, every name was read, every last attempt has its evidence and every resolve was accepted; completed, if and only if every rule is gone and every observed row resolved |
| Runner.AttemptPlanned | internal/runner/runner.go:268-290 | an attempt names its case, its position and event id, and the start it is sent with |
| RecoveryLaws.SucceedsIff | internal/runner/runner.go:577-664 | recovery succeeds exactly when every name was read and the last attempt of every key has its evidence |
| RecoveryLaws.RecoveredExactly | internal/runner/runner.go:598-664 | exactly the rows that are evidence of a last attempt, or of the run under an emitted name, are recovered, the latest of each fingerprint |
| RecoveryLaws.UncertainEvidence | internal/runner/runner.go:601-635 | the evidence of an uncertain send is exactly one alert with its own start and every label it was planned with |
| Runner.CompletedCleanUnanswered | internal/runner/runner.go:396-402 | a concrete run that completes and ends CLEAN with an accepted POST and no resolve at all |
| Assertions.EvaluateAssertions | internal/runner/assertions.go:23-72 | each assertion gets the verdict of the evidence it counts; an unsupported kind is an error |
| Assertions.VerdictMeans | internal/runner/assertions.go:23-72 | only a parent count is skipped, and only in shadow mode; unproven evidence is inconclusive; anything else passes exactly when the evidence of its own kind has the expected count |
| Assertions.AssertionsPass | internal/runner/assertions.go:74-92 | true exactly when something was scored and everything scored passed |
| Assertions.RequiresFullWindow | internal/runner/assertions.go:94-101 | true exactly when some assertion expects zero |
| Observation.Poll | internal/runner/observation.go:49-140 | the loop terminates within the turns that fit before the deadline plus one; it ends in an error exactly when an assertion is unsupported, a read or re-read fails, or a sleep does; else its verdict is decided by the latches or the last evidence |
| Observation.Observe | internal/runner/observation.go:32-141 | polls are at most ceil(window / interval) + 1 when sleeping advances the clock, and every verdict and every error is justified |
| Observation.FullWindowPass | internal/runner/observation.go:98-140 | over a full window PASS comes at or after the deadline if and only if no poll violated or lacked a zero count and the last evidence passes; a checkpoint PASS skips nothing |
| Observation.DeadlineVerdict | internal/runner/observation.go:110-140 | at the deadline FAIL exactly for a violation, or when everything is known and an assertion fails or none is scored; PASS exactly when nothing was latched, everything is known and what is scored passes |
| Observation.WindowLaws | internal/runner/observation.go:33-45 | the option is the window of the final observation only; a checkpoint, a control or a zero count takes the full window |
| Observation.FailNamesEvidence | internal/runner/observation.go:114-117 | FAIL shows the first violating poll, or complete final evidence that differs |
| Observation.OpenWindowPass | internal/runner/observation.go:79-97 | an early PASS is two satisfying evaluations around a sleep |
| EarlyPass.EarlyPassProvenIff | internal/runner/observation.go:79-97 | every early PASS of an assertion list rests on a complete re-read if and only if the window is full, only source episodes are asserted, or the list cannot be satisfied |
| EarlyPass.SatisfiableIff | internal/runner/assertions.go:23-92 | some snapshot satisfies a supported list if and only if something is scored, every scored count is possible, and no two ask for different counts of the same evidence |
| EarlyPass.EarlyPassMayBeUnproven | internal/runner/observation.go:84-94 | a concrete early PASS whose re-read lacks complete audits |
| Readiness.ReadSources | internal/runner/observation.go:143-173 | the events found and the fingerprints kept are exactly those the replies show; ready compares their counts with the events expected |
| Readiness.ReadyMeansOneAlertEach | internal/runner/observation.go:169-173 | if no alert shows two events, ready holds exactly when every event is shown by exactly one alert |
| Readiness.ReadyOneEachIff | internal/runner/observation.go:169-173 | a ready case has exactly one alert for every event if and only if no alert shows two events |
| Readiness.SharedAlertMisleads | internal/runner/observation.go:169-173 | a concrete History that is ready although an event has two alerts |
| Episode.BindSource | internal/runner/source_episode.go:55-91 | a source is ready exactly when no row is late or unstarted and the rows at the expected start show the planned labels under one fingerprint and status |
| Episode.EpisodeLabelIff | internal/runner/source_episode.go:98-109 | only the severity of a resolved row may differ from its input label, and only when it was cleared and the original one is the planned |
| Episode.BindSourceEpisodes | internal/runner/source_episode.go:42-93 | each event is bound once to its latest alert; all are ready exactly when each is |
| Episode.ReadyIff | internal/runner/source_episode.go:57-90 | a source is ready if and only if it is named and planned at an instant, one fingerprint, firing or resolved, shows its episode with every planned label, and every other row of it is earlier |
| Episode.ReorderingKeepsReadiness | internal/runner/source_episode.go:63-88 | readiness, and the status of a ready source, do not depend on row order |
| Episode.StatusOrderFreeIff | internal/runner/source_episode.go:83-87 | every order of the rows records the same status if and only if the rows at the expected start carry one status |
| Episode.UnreadyStatusFollowsOrder | internal/runner/source_episode.go:83-87 | a concrete source whose two row orders record firing and resolved |
| Episode.EventsOnce | internal/runner/source_episode.go:43-52 | the events listed are exactly those of the alerts, once each |
| Lowering.LowerEvents | internal/compiler/compiler.go:179-235 | a case is lowered exactly when it is well bracketed, and then every alert is sound; otherwise the error names what is wrong with the first event that may not come next |
| Lowering.IdentityKeyInjective | internal/scenario/model.go:54 | the identity key separates role and source whatever the role holds |
| LoweringLaws.ResolutionsCloseTheirFiring | internal/compiler/compiler.go:186-195 | a resolved alert carries the labels and event id of the latest firing of its identity, with nothing of it in between |
| LoweringLaws.NamedSourceKeepsLabels | internal/compiler/compiler.go:196-197 | a named source keeps one event id and label set through every refire |
| LoweringLaws.AlertCarriesLabels | internal/compiler/compiler.go:198-217 | every alert carries the labels of the firing it belongs to: its own win over those of the case, these over the identity labels |
| LoweringLaws.OffsetsFollowFirings | internal/compiler/compiler.go:218-229 | a named alert's episode offset is the delay of its source's latest firing so far |
| LoweringLaws.FreshIdsDistinct | internal/compiler/compiler.go:198-211 | distinct fresh firings have distinct event ids |
| LoweringLaws.CasesShareNoIds | internal/compiler/compiler.go:210 | cases whose run-and-case prefixes differ share no event id, whatever dashes the prefixes hold |
| LoweringLaws.PlanKeysApart | internal/compiler/compiler.go:210 | so no two cases of a lowered plan share an alert key, as the recovery of uncertain sends needs |
| LoweringLaws.IdsSeparateIdentities | internal/compiler/compiler.go:210 | two alerts share an event id exactly when they share all labels, and then they are of one identity |
| LoweringLaws.EveryAlertIdentified | internal/compiler/compiler.go:210 | every alert carries an event id, which recovery after a failure relies on |
| LoweringLaws.CompileCases | internal/compiler/compiler.go:183-246 | the alert budget is the number of alerts of the plan |
| Pagination.BoundedHistory.Decode | internal/oscar/existing_feed_history_reader.go:94-139 | a page is taken exactly when it is the next page of the same list with new ids, and the state grows by it |
| Pagination.ReadBoundedHistory | internal/oscar/existing_feed_history_reader.go:47-81 | a read returns all rows of the name from one complete list exactly when the responses serve one; the page limit error never occurs. Otherwise no list can be read and the error names what was wrong with the next response |
| Pagination.ReplayPages | internal/oscar/installed_pack_evidence.go:148-172 | the offline decoder accepts exactly the complete bounded page lists and returns the same rows |
| Pagination.NoPrefixNoExtension | internal/oscar/installed_pack_evidence.go:167-169 | no complete list is a proper prefix of another |
| Pagination.FinishedIsComplete | internal/oscar/existing_feed_history_reader.go:135-138 | the state is finished exactly when the pages are a complete list |
| EnvText.RoundTripExactly | internal/envfile/store.go:186-227 | a written value reads back if and only if it is quoted or neither end is white space |
| EnvText.WrittenValueReadsBack | internal/envfile/store.go:186-227 | every value written under a valid key reads back under that key, trimmed when it was written bare |
| EnvText.EndingsIgnored | internal/envfile/store.go:79 | line endings never change what a line says |
| EnvText.KeySpelling | internal/envfile/store.go:22 | a key is spelt with capitals, underscores and, after its first character, digits |
| EnvText.QuotedReads | internal/envfile/store.go:203-215 | a single-quoted value is read as it stands, a double-quoted one unescaped |
| EnvText.CommentDropped | internal/envfile/store.go:216-219 | a bare value ends where a comment begins, or with the line |
| EnvText.ExportIgnored | internal/envfile/store.go:191-193 | a leading export says nothing |
| EnvStore.SplitLines | internal/envfile/store.go:229-250 | the lines are the text cut after each line break |
| EnvStore.LinesUnique | internal/envfile/store.go:229-250 | a text splits into lines in one way |
| EnvStore.RewrittenReads | internal/envfile/store.go:144-157 | re-reading a rewritten file gives the old assignments with this key replaced or removed |
| EnvFile.Store.Open | internal/envfile/store.go:58-88 | an opened store holds the lines and assignments of its file, and ends added lines as the file does; it is refused if and only if the file is too long or some line does not parse |
| EnvFile.Store.Rewrite | internal/envfile/store.go:141-174 | a change is taken only when it fits and is written; then file, lines, managed and live move together, otherwise nothing changes |
| EnvFile.FileAgreesExactly | internal/envfile/store.go:141-174 | after any run of changes the file re-reads as the managed map if and only if every value set reads back |
| EnvFile.BareValueLosesSpace | internal/envfile/store.go:222-227 | an accepted value with a leading no-break space after which file and memory differ |
| EnvFile.UnrelatedLinesSurvive | internal/envfile/store.go:144-157 | after any run of changes the lines about no changed key are all in the file, in order and verbatim, but for an ending added to the last one |
| EnvFile.ChangeVisible | internal/envfile/store.go:91-104 | a change that is taken is visible at once and hides no other key |
| EnvFile.UnchangedShows | internal/envfile/store.go:91-104 | a key not changed by this process shows the external value unless that is empty, then what the file assigns it |
| Rotation.RotatingWriter.Rotate | internal/applog/rotate.go:65-88 | a rotation moves every slot up by one over holes and keeps the state sound |
| Rotation.RotatingWriter.Write | internal/applog/rotate.go:49-63 | a record that fits is appended and moves nothing; any other starts a new file after every backup took the slot below it. The chain is always a suffix of all records, each file within the limit or one oversize record |
| Rotation.ShiftedChain | internal/applog/rotate.go:69-79 | shifting discards at most what the oldest slot held, and only when something moves into it |
| Rotation.ShiftedSlots | internal/applog/rotate.go:69-79 | every slot takes what the one below it held; the oldest keeps its own when nothing moves into it |
| Rotation.RotationSound | internal/applog/rotate.go:90-101 | no record is split or lost by moving files |
| RunId.NewRunID | internal/domain/id.go:15-33 | the 26 digits spell the 128-bit value although the accumulator overflows, and the first is at most 7 |
| RunId.DigitExtends | internal/domain/id.go:25-29 | the five bits taken from the 32-bit accumulator are those of the full number |
| RunId.Decodable | internal/domain/id.go:15-33 | different bytes give different identifiers |
| RunId.MatchesStore | internal/artifact/store.go:18 | every identifier matches the artifact store's pattern |
| RunId.ShortIsTop38Bits | internal/domain/id.go:39-45 | the short token is the eight symbols of the top 38 bits |

## Left out

- JSON, duplicate-key scanning, hashing and raw-byte comparison: a row or page carries a flag (`canonical`, `wellFormed`, `readable`, `parsed`, `strict`) saying whether the source's byte-level checks accept it.
- HTTP, TLS, SQL, file locks, fsync, temporary files and path resolution: their outcomes are parameters.
- Concurrency inside the process: the mutex-guarded methods are single steps.
- Floating point in the planner: times are exact reals, so the 1e-9 slack of the rate carry and the rounding of time stamps to microseconds are not modelled.
- The text of source ids, sites and alert names in the planner: they are datatype values, distinct where the source formats distinct texts.
- Document-identity checks of the verifier before line 180 of the claims file (schema, artifact inventory, read list): their result is the header of the archive.
- InstalledRun.RunReport.Observe: takes the oracle's verdict on each poll as a value; PassMeansExactMatch connects it to the evidence.
- Manifest.Prepare: leaves out the request body and its hash; it states index, site, source id, labels and start.
- Discovery.Discover: the time window of the History queries is not modelled; a reply is whatever the API returns for the name.
- Runner.CleanUp: the recovery's result is a parameter computed beforehand, so the order of deleting rules and reading History is not captured, nor are the stored error notes.
- Runner.SendAlerts: scheduling delays, sleeps and budget checks before a send are one flag; checkpoint observations are their verdict.
- Runner.Execute: preflight refusals other than an empty plan, and report building and publication, are not modelled.
- Observation.Observe: the reads behind a snapshot are parameters; Readiness and Episode model the source part, while the correlation-audit, notification and no-match reads are not modelled.
- EarlyPass.EarlyPassProvenIff: a snapshot is constrained by how its readiness flags are tied, not by the History and audit rows behind its counts.
- Lowering.LowerEvents: rule construction, match criteria, annotations, notifier lists and the sorted alert-name list are not modelled; physical names are a map from roles.
- EnvText.RoundTripExactly: quoting escapes quotes, backslashes and the seven control letters; the numeric escapes of the full quoting grammar and invalid UTF-8 are not modelled.
- EnvText.WrittenValueReadsBack: leaves out the same escapes.
- EnvStore.SplitLines: lines are assumed shorter than the scanner's token limit.
- Rotation.RotatingWriter.Write: every file operation succeeds; partial writes and failing renames are not modelled.
- RunId.NewRunID: a short read of the random source is a failure without bytes.
- Evidence predicates that are long case lists (compact evidence, showcase evaluation, mixed-load evaluation after the input checks), configuration precedence, the web interface and the command line: they would add only easy members.
