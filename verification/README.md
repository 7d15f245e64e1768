# Formal model of the WAF's decision engine, bundle lifecycle and pattern compiler

A Dafny model of the parts of the repository where a mistake is hardest to see, with proofs of what they
promise. `dafny verify dfyconfig.toml` checks all of it.

## What is modelled

- **Sentinel** (`Sentinel`, `SentinelDecay`, `ActionBudget`, `SentinelRuns`, `SentinelSafety`,
  `SentinelHysteresis`, `SentinelRecords`, `SentinelFloods`, `SentinelEngine`, `ScoreKeys`, `Thresholds`): records
  per site and address, lazy decay, the staged ladder with its multi-signal gate, hysteresis, cooldown, action
  budget and emergency bypass, eviction, and whole runs of ticks. `SentinelEngine.Engine` is the mutable state the source
  updates in place; its methods are proved to be steps of the relation the run theorems are about. That relation
  says which askers the budget granted and which records eviction kept, so the theorems hold for every order Go
  may walk a map in.
- **Suggestions and publication** (`Suggestions`, `SuggestionLifecycle`, `SuggestionEdges`, `Adaptive`, `Ranking`):
  promotion and rollback of rule suggestions, per-address aggregation, and the capped, ordered lists that are published.
- **Bundle lifecycle** (`Paths`, `Bundles`, `Disks`, `Staging`, `Lifecycle`, `Deployments`, `Aliases`): assembling,
  validating, staging, activating, reload and health check, rollback. `Staging.Store` holds a file system on
  which any read or write may fail, a failing write leaving anything in the file it was writing.
- **Include walk** (`IncludeWalk`, `Graphs`): the search through nginx includes.
- **Path patterns** (`Regex`, `Tokens`, `PathPatterns`, `GuardMeaning`, `Alternation`, `MethodGuards`,
  `AdminPaths`, `AdminTables`): a parser and matcher for the PCRE fragment the compiler emits, and proofs that
  the emitted text means what the operator's path means.
- **Audit chain** (`AuditChain`) and **export approvals** (`ExportApprovals`, `ApprovalHistory`).
- `Text`, `Basics` and `Ordering` model the Go string and sort operations these use.

Assumptions enter as parameters with stated laws: hex SHA-256 is an injective function whose values carry
neither blanks nor NUL bytes; JSON decoding undoes encoding and refuses the empty text; the decay factor is a
real number `r` raised to whole seconds; `unicode.ToLower` lowers once and for all and changes neither blanks
nor `*`; `unicode.ToUpper` makes a colon of nothing else; `sort.Slice` returns some sorted permutation; the
clock reads whole seconds; globbing yields paths of a finite file system.

## Where code and promise differ

The code was kept; each item has its exact condition or a concrete counterexample.

- An immediate drop can lower a rank inside the cooldown, in two ways: it demotes a temp_ban that the same tick
  does not restore, and, stamped with an older log second, it moves LastActionAt back, so that the judgement
  finds the cooldown over and may take any action away. These are all the ways (`SentinelSafety.EarlyFallExactly`);
  both occur (`SentinelFloods.FloodDemotesBan`, `SentinelFloods.OldFloodFreesDrop`).
- A change the budget refuses starts hysteresis over: the record asks again only after another full row of ticks
  (`SentinelHysteresis.CountersAreExact`, `SentinelHysteresis.HysteresisIsExact`).
- Weights that arrive out of order are not decayed to their time (`SentinelDecay.LateWeightBreaksClosedForm`).
- A score key gives its parts back exactly when the site has no `|` (`ScoreKeys.KeyRoundTrip`).
- A relative root is joined onto the stored candidate path a second time, so Stage may not recognise the
  active candidate (`Paths.GuardRecognizesActive`); and when active/current.json cannot be read Stage takes
  nothing for active. Either way it may replace the active tree (`Deployments.BlindGuardLosesPlace`).
- Distinct safe paths such as `a` and `./a` are one file on disk. With different contents a bundle that validates
  does not survive staging (`Aliases.DotSlashNeverHolds`); with equal ones Stage counts both, so that foreign
  files can stand in for the missing ones and stay (`Lifecycle.ForeignFilesSurvive`). These are the only ways a
  successful Stage leaves something else (`Lifecycle.AliasesDecide`).
- Validation accepts a file where another one needs a directory (`Aliases.NestedValidates`), and no Stage can
  write such a bundle (`Aliases.NestedNeverStages`, `Lifecycle.NewCandidateStages`).
- manifest.json is not written last and Activate looks for nothing else, so a partly staged candidate of every
  bundle that can be staged at all can be activated (`Lifecycle.PartialCandidateActivates`,
  `Deployments.RemainsAreServed`); once its Stage succeeded it is whole (`Deployments.PlaceHoldsSinceStaged`), and
  stays so while active (`Deployments.ActiveHoldsBundle`).
- Rollback trims the failed id but not the known-good one, so ids that differ only in surrounding blanks
  refuse to roll back (`Lifecycle.RollbackRestores`).
- The bundle checksum frames fields with NUL bytes but does not reject NUL bytes in them
  (`Bundles.NulSharesChecksum`).
- A shorter audit log with the same head is also accepted (`AuditChain.TruncationIsAccepted`).
- The compiler does not check rule methods: one whose first colon stands before a slash widens what its pattern
  matches (`MethodGuards.ColonInMethodLeaks`). The control plane's list of allowed methods keeps such a rule from
  being saved (`MethodGuards.SavedRulePreservesMeaning`).
- A rule for every method is compiled to one or more letters, so it misses a method such as M-SEARCH
  (`MethodGuards.WildcardMissesMethod`); it covers exactly the methods of letters only.
- The pattern of an empty list of admin paths would match `/` (`AdminPaths.PatternPreservesMeaning`); the code never
  compiles one.
- The threshold overlay repairs watch and temp_ban but not a drop below throttle
  (`Thresholds.ApplyRuntimeProfile`); settings normalisation closes the gap (`Thresholds.Deploy`).

## Model

| member | source | states |
|---|---|---|
| `SentinelSafety.PromotionNeedsEvidence` | `internal/sentinel/sentinel_tick.go:237-257` | in every run with at least two promotion signals required, a record newly enters drop or temp_ban only by an immediate drop, on a tick holding an emergency signal, or after the required number of consecutive processed ticks of its present life that each wanted that very action with enough strong signals |
| `SentinelSafety.CountersAreEarned` | `internal/sentinel/sentinel_actions.go:185-210` | the hysteresis counter of a record never exceeds the number of consecutive ticks of its present life that really supported its candidate action |
| `SentinelHysteresis.HysteresisIsExact` | `internal/sentinel/sentinel_actions.go:185-210` | on every processed tick of every run exactly those records ask the budget for a change whose call for it is due: made on the required number of processed ticks in a row, or in an emergency; a granted one is in the action it called for |
| `SentinelHysteresis.CountersAreExact` | `internal/sentinel/sentinel_actions.go:185-210` | for every action the hysteresis counter of a record is the number of processed ticks in a row, in its present life and since it last asked, that called for that action |
| `SentinelHysteresis.SteadyCallComesDue` | `internal/sentinel/sentinel_actions.go:198-209` | a record that calls for the same action on the required number of processed ticks in a row asks for it on one of them |
| `SentinelHysteresis.DueCallIsAnswered` | `internal/sentinel/sentinel_tick.go:237-257` | while the window has room for all that ask and no record is evicted, each of them is in the action it called for right after the tick |
| `SentinelHysteresis.CallIsDesire` | `internal/sentinel/sentinel_actions.go:97-183` | what a record calls for, stated from its score, signals, stage and cooldown alone, is the action the ladder, the multi-signal gate and the cooldown select |
| `SentinelHysteresis.BudgetCountsGrants` | `internal/sentinel/sentinel_actions.go:227-245` | in every run the budget counts exactly the changes granted in its open window |
| `SentinelRecords.SignalsInTick` | `internal/sentinel/sentinel_base_helpers.go:13-48` | over a processed tick each signal of a record grows by the weights the log brought it and fades with time, vanishing below a hundredth |
| `SentinelRecords.SeenAsLogged` | `internal/sentinel/sentinel_base_helpers.go:13-48` | a tracked record was first and last seen when the first and the last log event of its present life hit it |
| `SentinelRecords.SurvivorsAreRefreshed` | `internal/sentinel/sentinel_tick.go:259-273` | every record that survives a processed tick expires a hold after it, six for a ban, and carries the risk and trust of its score |
| `SentinelSafety.EarlyFallExactly` | `internal/sentinel/sentinel_tick.go:168-257` | in every run a record that stays tracked loses rank inside its cooldown if and only if an immediate drop hit it in that tick and either it was temp-banned and the judgement does not put it back, or the drop is stamped at least a cooldown ago and the decayed record wants a lower rank that is granted |
| `SentinelSafety.NoEarlyDeescalation` | `internal/sentinel/sentinel_actions.go:149-183` | without an immediate drop in the tick a record that stays tracked falls in rank only once its cooldown has passed since LastActionAt |
| `SentinelFloods.FloodDemotesBan` | `internal/sentinel/sentinel_actions.go:295-326` | a run in which an immediate drop takes a banned record down to drop one second into its cooldown, and the tick leaves it there |
| `SentinelFloods.OldFloodFreesDrop` | `internal/sentinel/sentinel_actions.go:295-326` | a run in which an immediate drop stamped before the last action frees a record that was never banned of every action one second into its cooldown |
| `Sentinel.EarlyFallOnlyByImmediateDrop` | `internal/sentinel/sentinel_actions.go:171-183` | of the single steps a record takes, exactly an immediate drop of a temp-banned one lowers its rank inside the cooldown; whole ticks are the subject of EarlyFallExactly |
| `SentinelSafety.RunsStayCoherent` | `internal/sentinel/sentinel_tick.go:242-257` | in every run from the empty state Stage equals LastAction after each tick and every ranked action has LastActionAt set |
| `Sentinel.CoherenceKept` | `internal/sentinel/sentinel_actions.go:295-326` | scoring, immediate drops and judgements each keep a record coherent |
| `Sentinel.JudgeRemovesOnly` | `internal/sentinel/sentinel_tick.go:230-273` | the record loop deletes exactly the records that are inactive or unranked under 0.2; its expiry test never fires |
| `Sentinel.RefusalKeepsStage` | `internal/sentinel/sentinel_tick.go:247-257` | a record whose action change the budget refuses keeps its stage |
| `Sentinel.JudgeOnlyDecays` | `internal/sentinel/sentinel_tick.go:212-229` | judging changes a score by decay alone, and LastUpdated never runs back |
| `SentinelSafety.ChangeNeedsGrant` | `internal/sentinel/sentinel_tick.go:247-257` | in every run a record changes stage in a tick only by an immediate drop or by an action the budget granted in that tick |
| `SentinelSafety.ActionsAreRationed` | `internal/sentinel/sentinel_actions.go:227-245` | in every run with the model enabled and a clock that never runs back, the budgeted action changes inside any span of T seconds number at most the limit times one more than T/60 rounded up |
| `ActionBudget.SpanGrants` | `internal/sentinel/sentinel_actions.go:227-245` | from any sound window, requests inside a span of T seconds are granted at most the limit for each of ceil(T/60) + 1 windows |
| `ActionBudget.ChargeGrants` | `internal/sentinel/sentinel_actions.go:227-245` | of requests made at one instant exactly the first that fit the window are granted |
| `SentinelSafety.RunScoresAreClosedForm` | `internal/sentinel/sentinel_tick.go:212-229` | in every run a record without immediate drops and with non-decreasing times has the closed-form score, which stays under the geometric ceiling |
| `SentinelDecay.ScoreIsClosedForm` | `internal/sentinel/sentinel_base_helpers.go:17-47` | lazy decay equals the sum of every weight times retention to the power of its age, however many idle ticks fall in between |
| `SentinelDecay.ScoreSinceDrop` | `internal/sentinel/sentinel_actions.go:295-325` | with immediate drops: from the last one on, the score is what it left (the undecayed score before it, but the drop threshold at least) decayed from its second, plus the decayed weights since |
| `SentinelDecay.ScoreIgnoresIdleTicksAndOrder` | `internal/sentinel/sentinel_base_helpers.go:17-47` | two histories with the same weights at the same seconds, in any order and with any idle ticks, give the same score |
| `SentinelDecay.ScoreCeiling` | `internal/sentinel/sentinel_base_helpers.go:17-47` | if no second brings more than W and r < 1 the score never exceeds W / (1 - r) |
| `SentinelDecay.LateWeightBreaksClosedForm` | `internal/sentinel/sentinel_base_helpers.go:17-47` | non-decreasing times are needed: a weight that arrives with an earlier time breaks the closed form |
| `SentinelRuns.RecordsAreLives` | `internal/sentinel/sentinel_tick.go:13-282` | every tracked record of every run is the outcome of exactly the events of its key since it was last created |
| `SentinelRuns.SuggestionsAreARun` | `internal/sentinel/sentinel_tick.go:275-279` | with the model enabled the suggestion lists of a sentinel run form a suggestion run, so the suggestion theorems hold of them |
| `SentinelEngine.Engine.ProcessTick` | `internal/sentinel/sentinel_tick.go:13-48` | one tick in place: a missing or unreadable log, a disabled model, or a processed batch |
| `SentinelEngine.Engine.ProcessBatch` | `internal/sentinel/sentinel_tick.go:88-282` | folding, judging, eviction and suggestions together are one step of the tick relation |
| `SentinelEngine.Engine.Fold` | `internal/sentinel/sentinel_base_helpers.go:13-48` | the in-place record updates of applyScore, applyImmediateDrop and the model tag, event by event |
| `SentinelEngine.Engine.JudgeRecord` | `internal/sentinel/sentinel_tick.go:212-273` | one turn of the record loop is the judgement of that record, and asks the budget exactly when an action change is pending |
| `SentinelEngine.Engine.JudgeRecords` | `internal/sentinel/sentinel_tick.go:212-273` | the record loop, in whatever order the map yields keys, judges every record and grants as many askers as the window still holds |
| `SentinelEngine.Engine.ConsumeActionBudget` | `internal/sentinel/sentinel_actions.go:227-245` | the in-place window update and its answer |
| `SentinelEngine.Engine.EvictOverflow` | `internal/sentinel/sentinel_actions.go:258-293` | eviction leaves exactly the cap, changes no kept record and never keeps a weaker record than one it cut |
| `ScoreKeys.KeyRoundTrip` | `internal/sentinel/sentinel_base_helpers.go:135-149` | parsing a made key gives back the site and the IP if and only if the site part holds no '|' |
| `ScoreKeys.GlobalKeys` | `internal/sentinel/sentinel_base_helpers.go:90-149` | exactly blank sites, '-' and '*' share the keys of the global site; every other site keeps its own name, trimmed and lower-cased |
| `Thresholds.NormalizeSettings` | `control-plane/internal/antiddos/types.go:149-154` | saved thresholds come out positive and ordered, and already ordered ones unchanged |
| `Thresholds.ApplyRuntimeProfile` | `internal/sentinel/sentinel_runtime_profile.go:205-235` | the overlaid thresholds form a strict ladder if and only if the base watch threshold is positive and a positive throttle is below the profile's or the base's drop threshold; thresholds that fit are kept and nothing else changes |
| `Thresholds.Deploy` | `internal/sentinel/sentinel_runtime_profile.go:205-235` | whatever an operator saves, an enabled model runs on 0 < watch < throttle < drop < temp_ban |
| `Thresholds.LadderIsMonotone` | `internal/sentinel/sentinel_actions.go:97-111` | on a ladder the selected stage's rank is monotone in the score and every stage is reached |
| `Thresholds.DecayNeverRaisesStage` | `internal/sentinel/sentinel_actions.go:156-169` | while a score only decays the rank of the stage it selects never rises |
| `SuggestionLifecycle.PermanentStory` | `internal/sentinel/sentinel_suggestions.go:48-125` | a permanent suggestion has, since its creation, been shadow and then temporary, and was promoted strictly more than the temporary hold after becoming temporary with enough shadow hits and at most half the false-positive rate |
| `SuggestionLifecycle.TemporaryStory` | `internal/sentinel/sentinel_suggestions.go:48-125` | a temporary suggestion was promoted from shadow at a known tick and its deadline is that tick plus the hold |
| `SuggestionLifecycle.StatusMovesAlongEdges` | `internal/sentinel/sentinel_suggestions.go:48-125` | between consecutive ticks of a run a status moves only along the coded edges |
| `SuggestionEdges.EdgesExactly` | `internal/sentinel/sentinel_suggestions.go:48-125` | from tick to tick of a run a scanned path that stays known changes status exactly as its counters, distinct addresses, deadline and the clock say, edge by edge; counters, sightings, deadline and reason follow; one not scanned does not change |
| `SuggestionEdges.FalsePositivesRollBack` | `internal/sentinel/sentinel_suggestions.go:94-124` | in every run a suggestion scanned again with more than twice the tolerated share of false positives falls back: shadow and temporary to suggested, permanent to shadow |
| `SuggestionEdges.ResolvedSettings` | `internal/sentinel/sentinel_suggestions.go:14-46` | positive settings are used as they are, the others replaced by the defaults |
| `SuggestionLifecycle.CountersStayPlausible` | `internal/sentinel/sentinel_tick.go:97-100` | in every suggestion of every run 0 <= ShadowFP <= ShadowHits |
| `SuggestionLifecycle.RunIsChain` | `internal/sentinel/sentinel_suggestions.go:14-179` | every run's lists are strictly ascending by path and each suggestion is its path's outcome of that tick |
| `SuggestionLifecycle.ForgottenWhen` | `internal/sentinel/sentinel_suggestions.go:153-165` | without a publication cap a path is missing exactly when it was scanned too little, or was not scanned and was unknown or expired |
| `SuggestionLifecycle.BuildRuleSuggestions` | `internal/sentinel/sentinel_suggestions.go:14-179` | the loops over the scanner statistics and the previous suggestions build the specified list, whatever order the maps are walked in |
| `Suggestions.CollectScans` | `internal/sentinel/sentinel_tick.go:91-110` | the counters of a path are the number of requests for it, of successful ones, their distinct addresses and the times of the first and last; successes never exceed hits |
| `Suggestions.PublishedSuggestions` | `internal/sentinel/sentinel_suggestions.go:166-178` | the published list is strictly ascending, capped, and every kept suggestion has more hits than every cut one, or as many and an earlier path |
| `Suggestions.IndexOrderIsIrrelevant` | `internal/sentinel/sentinel_suggestions.go:166-178` | the published list is the same for every order the map is walked in |
| `Adaptive.PublishedEntries` | `internal/sentinel/sentinel_adaptive.go:73-159` | published entries are strictly ascending by IP, capped, and contain each eligible IP with its aggregated action, expiry, score and times unless the cap cut it for its score |
| `Adaptive.Render` | `internal/sentinel/sentinel_adaptive.go:51-166` | the aggregation, filter, ranking, cut and final sort together publish that list for every map order |
| `Adaptive.AggregateAll` | `internal/sentinel/sentinel_adaptive.go:73-123` | the aggregation loop leaves for every IP the summary of its ranked records |
| `Adaptive.JoinSummarises` | `internal/sentinel/sentinel_adaptive.go:88-123` | a record joined to the summary of a group gives the summary of the group with it |
| `Adaptive.SummaryIsUnique` | `internal/sentinel/sentinel_adaptive.go:73-123` | a group has one summary, so no aggregated field depends on the order records arrive in |
| `Adaptive.PublishableMeansEligible` | `internal/sentinel/sentinel_adaptive.go:125-131` | an aggregate passes the filter exactly when its IP has a ranked record that is global or ranked records on two sites |
| `Adaptive.RankedMeans` | `internal/sentinel/sentinel_adaptive.go:73-86` | exactly records throttled or worse are aggregated |
| `Ranking.SelectTopIsTop` | `internal/sentinel/sentinel_adaptive.go:132-159` | sorting by score and cutting keeps entries none of which is outranked by a cut one, listed by key |
| `Ranking.SelectTopIgnoresOrder` | `internal/sentinel/sentinel_adaptive.go:132-159` | the cut and the listing do not depend on the order of the input |
| `Ranking.PublicationIgnoresMapOrder` | `internal/sentinel/sentinel_adaptive.go:132-159` | every walk of the same map publishes the same list |
| `Bundles.AssembleRevisionBundle` | `compiler/internal/compiler/bundle.go:55-128` | assembling succeeds exactly on acceptable input; the bundle has one file for each artifact and the manifest, which names the revision, lists each artifact ascending by path and carries the digest of the list |
| `Bundles.AssemblyIgnoresOrder` | `compiler/internal/compiler/bundle.go:66-76` | reordering or regrouping the artifacts yields the identical bundle or the same refusal |
| `Bundles.ValidateRevisionBundle` | `compiler/internal/compiler/validate.go:16-116` | validation accepts exactly the bundles whose files are safe and distinct, whose id is safe and whose manifest describes the files exactly |
| `Bundles.AssembledValidates` | `compiler/internal/compiler/validate.go:16-116` | an assembled bundle validates if and only if the revision id is safe, every path is safe and not the manifest's, and every checksum is true |
| `Bundles.ChecksumPinsFiles` | `compiler/internal/compiler/validate.go:73-113` | two valid bundles with NUL-free names and the same bundle checksum have the same files, manifests aside |
| `Bundles.ChecksumContents` | `compiler/internal/compiler/bundle.go:130-141` | the running hash is the digest of the framed entries |
| `Bundles.FrameInjective` | `compiler/internal/compiler/bundle.go:130-141` | different NUL-free manifests feed different bytes to the hash |
| `Bundles.NulMakesFramingAmbiguous` | `compiler/internal/compiler/bundle.go:130-141` | with a NUL inside a field one entry frames exactly as two do |
| `Bundles.NulSharesChecksum` | `compiler/internal/compiler/validate.go:73-113` | with NUL bytes in a kind, two bundles validate with one bundle checksum although only one has the second file |
| `Bundles.StandardIsLawful` | `compiler/internal/compiler/validate.go:118-140` | what the bundle proofs assume of the path tests holds of the code's own |
| `Paths.SafePathStaysInside` | `compiler/internal/compiler/validate.go:132-140` | a path the safety test accepts, trimming it, resolves strictly below any directory it is joined to untrimmed |
| `Paths.SafeIdentifierExactly` | `compiler/internal/compiler/validate.go:118-130` | an id is accepted exactly when, blanks around it aside, it consists of ASCII letters, digits, '.', '_' and '-' and is not empty, '.' or '..' |
| `Paths.PlainPathIsSafe` | `compiler/internal/compiler/validate.go:132-139` | every path of plain names without backslashes is accepted |
| `Paths.SafeIdentifierIsOneElement` | `compiler/internal/compiler/validate.go:118-130` | an accepted revision id names one directory, even with blanks around it |
| `Paths.GuardRecognizesActive` | `compiler/internal/compiler/staging.go:51-61` | Stage recognises the active candidate if and only if its root is absolute or climbs as often as it descends |
| `Paths.CleanIsCleaned` | `compiler/internal/compiler/staging.go:51-61` | every configured root has the cleaned form that condition speaks of |
| `Paths.TextRoundTrip` | `compiler/internal/compiler/activation.go:33` | the text of a cleaned path, cleaned again, is that path |
| `Disks.MatchesIsHolds` | `compiler/internal/compiler/staging.go:19-49` | if no two of the bundle's files share a place, counting the files and reading each bundle file decides whether the tree is exactly the bundle's; if some do, no tree is both counted right and the bundle's |
| `Disks.WrittenExactly` | `compiler/internal/compiler/staging.go:116-135` | writing leaves exactly the bundle's files if and only if no two that resolve to one place differ |
| `Staging.Store.Stage` | `compiler/internal/compiler/staging.go:78-138` | one Stage call, with any read or write failing: the specified refusals, no change, or a tree made anew; failing, it leaves remains of the old tree, or the first files in writing order with at most the next one cut short; nothing else is touched, and it succeeds when nothing stands in the way |
| `Staging.CandidateMatchesBundle` | `compiler/internal/compiler/staging.go:19-49` | the walk and the reads decide the match |
| `Staging.Store.WriteFiles` | `compiler/internal/compiler/staging.go:121-135` | the writing loop leaves exactly the files, or those before the one that failed with at most that one cut short, and touches nothing outside the candidate |
| `Staging.Store.Activate` | `compiler/internal/compiler/activation.go:25-72` | for any id the active reference moves exactly to a candidate that exists with a manifest.json, otherwise it stays; beside it only the temporary file and its directory may change |
| `Staging.Store.Rollback` | `compiler/internal/compiler/rollback.go:25-54` | rollback refuses a blank failed id, and a known-good reference that is missing, blank in id or path, or names the failed revision; otherwise it activates the known-good revision, and it reports what it did |
| `Staging.RunReloadHealth` | `compiler/internal/compiler/reload_health.go:35-79` | exactly one command is run, a reload of nginx with the candidate's nginx directory as prefix and working directory; health is checked only after it succeeded, and the result says which of the two failed; without executor, checker or a complete active reference nothing is run and the error says what is missing |
| `Deployments.CandidatePlace` | `compiler/internal/compiler/staging.go:92` | for every safe id the place Stage writes to, the place Activate looks at and the place the stored path names are one: candidates/<id> below the root, absolute or relative |
| `Deployments.ActiveDirectoryPlace` | `compiler/internal/compiler/activation.go:46` | the reference is kept in active/ below the root |
| `Deployments.ActiveIsSpared` | `compiler/internal/compiler/staging.go:78-138` | over any run of stagings, activations and rollbacks with any failing reads and writes but of active/current.json, what the stored path names exists with a manifest.json and no Stage changes it |
| `Lifecycle.StageSparesActive` | `compiler/internal/compiler/staging.go:96-106` | one Stage call that can read active/current.json keeps the active tree byte for byte |
| `Deployments.BlindGuardLosesPlace` | `compiler/internal/compiler/staging.go:104-106` | with a root the guard does not recognise, or when active/current.json cannot be read, staging other contents under the active id replaces what the stored path names |
| `Deployments.DeployedExactly` | `compiler/internal/compiler/staging.go:110-137` | a successful Stage leaves exactly the bundle's files, each where its own path says, at the place an Activate will name, and nothing else changed |
| `Lifecycle.RestageIsIdle` | `compiler/internal/compiler/staging.go:96-103` | staging the same bundle again changes nothing and succeeds unless a read fails |
| `Lifecycle.AliasesDecide` | `compiler/internal/compiler/staging.go:19-49` | after a successful Stage the candidate is exactly the bundle's if and only if Stage found it right and no two bundle files share a place, or Stage wrote it and those that share a place agree |
| `Lifecycle.ForeignFilesSurvive` | `compiler/internal/compiler/staging.go:19-49` | where agreeing bundle files share places and as many foreign files make up the number, Stage succeeds and leaves the foreign files there |
| `Lifecycle.NewCandidateStages` | `compiler/internal/compiler/staging.go:110-137` | without failing reads and writes a new candidate is staged if and only if no file lies above its directory and no bundle file is where another needs a directory |
| `Aliases.DotSlashValidates` | `compiler/internal/compiler/validate.go:132-140` | for every plain name a bundle with files name and ./name of different contents validates |
| `Aliases.DotSlashNeverHolds` | `compiler/internal/compiler/staging.go:116-135` | no disk holds such a bundle and none is found to match it, so no Stage of it, successful or not, leaves what it should |
| `Aliases.NestedValidates` | `compiler/internal/compiler/validate.go:132-140` | for every two plain names a bundle with files name and name/inner validates |
| `Aliases.NestedNeverStages` | `compiler/internal/compiler/staging.go:121-135` | no Stage writes such a bundle: one that succeeds found everything in place |
| `Deployments.PlaceHoldsSinceStaged` | `compiler/internal/compiler/staging.go:116-135` | from a successful Stage on, as long as its id is not staged again, the place an Activate would name holds exactly the bundle in every state of the run, if and only if it did so right after (the condition of AliasesDecide, met by files independent of one another) |
| `Deployments.ActivePlaceStays` | `compiler/internal/compiler/staging.go:104-106` | over any run, while one revision is active the place its reference names stays byte for byte the same, whatever is staged meanwhile |
| `Deployments.ActiveHoldsBundle` | `compiler/internal/compiler/staging.go:78-138` | staged successfully and left alone until it is activated, a revision is served whole: for as long as it is active the place its reference names holds exactly the bundle |
| `Lifecycle.PartialCandidateActivates` | `compiler/internal/compiler/activation.go:33-45` | every valid bundle whose files can be written has a run in which staging it anew fails half way through manifest.json and the remains, an empty manifest.json and none of the files that come after it, are activated |
| `Deployments.FailedStageLeavesBeginning` | `compiler/internal/compiler/staging.go:113-137` | a Stage that fails on an empty place leaves a beginning of the bundle in the order of paths: every file before some path whole, none after it |
| `Deployments.RemainsAreServed` | `compiler/internal/compiler/activation.go:33-45` | in that run the active reference names a place that does not hold the bundle |
| `Lifecycle.ValidIsInside` | `compiler/internal/compiler/staging.go:121-125` | every file of a valid bundle resolves below its candidate directory |
| `Lifecycle.CandidateIsAtBase` | `compiler/internal/compiler/staging.go:92-95` | the joined candidate path of a safe id is candidates/<id> under the root |
| `Lifecycle.RollbackRestores` | `compiler/internal/compiler/rollback.go:41-53` | after a failed update the old revision is active again and its tree is byte for byte as before; a failing rollback leaves the new one active and every candidate as it was; it succeeds if and only if the new id, trimmed, is not the old one |
| `Deployments.RollbackRestoresPlace` | `compiler/internal/compiler/rollback.go:41-53` | the same at the place the old reference names |
| `IncludeWalk.ValidateIncludedFiles` | `compiler/internal/compiler/syntax_runner.go:103-157` | the walk terminates on every finite file system, succeeds exactly when nginx.conf exists and every reachable file is readable with all its references resolving, and has then seen exactly the reachable files |
| `IncludeWalk.ScanFile` | `compiler/internal/compiler/syntax_runner.go:125-153` | scanning one file succeeds exactly when it is sound and yields exactly the files it includes |
| `IncludeWalk.FollowReference` | `compiler/internal/compiler/syntax_runner.go:135-152` | a reference resolves exactly when its matches exist, or when it is a glob with none |
| `IncludeWalk.ExtractReferencedFiles` | `compiler/internal/compiler/syntax_runner.go:159-178` | the references are exactly those of the include and modsecurity_rules_file lines |
| `IncludeWalk.LineMeans` | `compiler/internal/compiler/syntax_runner.go:159-202` | a line makes a reference if and only if it spells 'include value;' or 'modsecurity_rules_file value;', however indented and spaced and with or without the semicolon, and then into the bundle for /etc/waf/, to itself if absolute, and else from the directory of the file |
| `IncludeWalk.RelativeReference` | `compiler/internal/compiler/syntax_runner.go:190-202` | a relative reference in a file of a rooted tree leads from that file's directory by the elements of the reference, climbing included |
| `IncludeWalk.BelowAndBeside` | `compiler/internal/compiler/syntax_runner.go:190-202` | so names lead below that directory, and after ../ beside it |
| `IncludeWalk.LiveReferenceIsRead` | `compiler/internal/compiler/syntax_runner.go:190-202` | a reference into the live tree that does not climb out of it is read from the same place below the bundle root |
| `IncludeWalk.ConfFiles` | `compiler/internal/compiler/syntax_runner.go:149-151` | the extension test accepts exactly the paths ending in .conf |
| `Graphs.ClosedHoldsReachable` | `compiler/internal/compiler/syntax_runner.go:117-154` | a set with the start that is closed under includes holds everything reachable |
| `GuardMeaning.GuardPreservesMeaning` | `compiler/internal/compiler/easy_runtime_antibot_rules.go:131-150` | the emitted guard matches a newline-free URI exactly when it equals the path, starts with it, or has a prefix matching the glob, as the path's form says |
| `MethodGuards.ExclusionPreservesMeaning` | `compiler/internal/compiler/easy_runtime_antibot_rules.go:152-180` | the METHOD:uri form matches exactly when the rule lists no method, a star, or an entry that is the method trimmed and upper-cased, and the URI is designated; unless the first colon of some entry stands before a slash, and for a rule for every method on methods of letters only |
| `MethodGuards.SavedRulePreservesMeaning` | `control-plane/internal/easysiteprofiles/normalize_validate.go:351-369` | the form means that for every rule the control plane lets a profile be saved with |
| `MethodGuards.WildcardMissesMethod` | `compiler/internal/compiler/easy_runtime_antibot_rules.go:164-167` | a rule for every method never matches a request whose method is M-SEARCH |
| `MethodGuards.ColonInMethodLeaks` | `compiler/internal/compiler/easy_runtime_antibot_rules.go:164-180` | the condition on methods is exact: with any method whose first colon stands before a slash, and any path without wildcards, some request matches that the path does not designate |
| `MethodGuards.EmittedWhen` | `compiler/internal/compiler/easy_runtime_antibot_rules.go:116-129` | a rule is emitted exactly when its path is not blank and it lists no method, a star, or an entry that is not blank |
| `MethodGuards.WholeMatches` | `compiler/internal/compiler/easy_runtime_antibot_rules.go:152-180` | what the whole pattern matches, whatever the methods contain |
| `PathPatterns.WildcardTextIsGlob` | `compiler/internal/compiler/easy_rate_limits.go:332-337` | quoting and then substituting gives exactly the text of the glob |
| `GuardMeaning.EmittedMatches` | `compiler/internal/compiler/easy_runtime_antibot_rules.go:131-150` | an emitted pattern parses, and matches exactly what its tokens cover |
| `Tokens.ParseShown` | `compiler/internal/compiler/easy_rate_limits.go:332-337` | quoted text parses back to the characters it stands for, in any context |
| `Tokens.TokensToTree` | `compiler/internal/compiler/easy_rate_limits.go:332-337` | subjects the tokens fit are matched by the parsed pattern |
| `Tokens.TreeToTokens` | `compiler/internal/compiler/easy_rate_limits.go:332-337` | subjects the parsed pattern matches are fitted by the tokens |
| `Alternation.GroupParses` | `compiler/internal/compiler/easy_runtime_antibot_rules.go:164-180` | an emitted non-capturing group parses to the alternatives it joins |
| `AdminPaths.AdminPathPattern` | `compiler/internal/compiler/easy_admin_paths.go:260-275` | the loop builds the alternation of the listed paths |
| `AdminPaths.PatternParses` | `compiler/internal/compiler/easy_admin_paths.go:260-275` | the built pattern is well formed for every list of paths |
| `AdminPaths.PatternPreservesMeaning` | `compiler/internal/compiler/easy_admin_paths.go:260-275` | the pattern matches a newline-free URI if and only if some listed path equals it or covers it by segment or trailing-slash prefix; the pattern of an empty list matches / alone |
| `AdminTables.BypassCoversReserved` | `compiler/internal/compiler/easy_admin_paths.go:132-170` | the bypass pattern matches exactly what isReservedAdminAppPath accepts, the login pages and what lies under /auth/ |
| `AdminTables.AuthIsInspected` | `compiler/internal/compiler/easy_admin_paths.go:234-248` | no URI equal to /api/auth or under /api/auth/, in any case, is matched by the ModSecurity bypass pattern |
| `AdminTables.IsReservedAdminAppPath` | `compiler/internal/compiler/easy_admin_paths.go:132-153` | the three table scans decide the reserved paths |
| `AdminTables.FilterAdminPaths` | `compiler/internal/compiler/easy_admin_paths.go:250-258` | filtering keeps the paths not excluded, in order |
| `AdminTables.ModSecurityBypassPattern` | `compiler/internal/compiler/easy_admin_paths.go:234-248` | for a management site the compiled pattern matches exactly what some remaining path covers and nothing at or under /api/auth in any case; other sites get none |
| `AdminTables.AdminBypassPattern` | `compiler/internal/compiler/easy_admin_paths.go:155-232` | for a management site the compiled pattern matches exactly the reserved paths, the login pages and what lies under /auth/; for others only the empty URI |
| `AuditChain.Store.Append` | `control-plane/internal/audits/store.go:106-131` | one Append in place: the caller's event, trimmed, linked and hashed on top of the chain if all required fields are there; otherwise the first applying error and no change |
| `AuditChain.SummarizeChain` | `control-plane/internal/audits/store.go:379-412` | the scan accepts exactly the chains in which every event's hash is true and every event names the hash of the one before |
| `AuditChain.AppendKeepsChain` | `control-plane/internal/audits/store.go:106-131` | Append takes every accepted chain to an accepted chain |
| `AuditChain.HeadPinsHistory` | `control-plane/internal/audits/store.go:339-412` | under an injective digest, of two accepted chains with the same head hash one is a prefix of the other on every hashed field |
| `AuditChain.StandardIsLawful` | `control-plane/internal/audits/store.go:276-290` | what the chain proofs assume of trimming holds of the code's own |
| `AuditChain.TruncationIsAccepted` | `control-plane/internal/audits/store.go:379-412` | the head does not pin the length: the newest events of an accepted chain alone are accepted too |
| `AuditChain.RunsStayValid` | `control-plane/internal/audits/store.go:106-131` | in every run every stored chain is accepted and history is only ever extended |
| `ExportApprovals.Store.Request` | `control-plane/internal/certificateexportapprovals/store.go:42-62` | one Request call: refusals in order, a failing save, or the new approval stored |
| `ExportApprovals.Store.Approve` | `control-plane/internal/certificateexportapprovals/store.go:64-88` | one Approve call on a decoded copy, whose write before the approver check is lost with the copy |
| `ExportApprovals.Store.Consume` | `control-plane/internal/certificateexportapprovals/store.go:90-114` | one Consume call: refusals in order, a failing save, or the approval stored as consumed |
| `ExportApprovals.ConsumeNeedsDualControl` | `control-plane/internal/certificateexportapprovals/store.go:42-114` | every consumed export in every run was requested earlier by the same requester for exactly that certificate set and approved in between by a different, non-empty actor, all before expiry |
| `ApprovalHistory.RequestSucceedsWhen` | `control-plane/internal/certificateexportapprovals/store.go:42-62` | in every run a request succeeds exactly when id, requester and some certificate are there, no earlier request of the id succeeded and the write does not fail |
| `ApprovalHistory.ApproveSucceedsWhen` | `control-plane/internal/certificateexportapprovals/store.go:64-88` | an approval succeeds exactly when its request has, in time, none of it has yet, and the approver is someone other than the requester |
| `ApprovalHistory.ConsumeSucceedsWhen` | `control-plane/internal/certificateexportapprovals/store.go:90-114` | a consumption succeeds exactly when the requester comes back in time for exactly the certificates requested, an approval has succeeded and no consumption has |
| `ExportApprovals.ConsumedOnce` | `control-plane/internal/certificateexportapprovals/store.go:90-114` | an approval is consumed at most once in a run |
| `ExportApprovals.RequestedOnce` | `control-plane/internal/certificateexportapprovals/store.go:42-62` | an id is requested successfully at most once in a run |
| `ExportApprovals.IDsStayUnique` | `control-plane/internal/certificateexportapprovals/store.go:42-62` | ids stay unique in every run |
| `ExportApprovals.CallMoves` | `control-plane/internal/certificateexportapprovals/store.go:42-152` | a call moves only the approval it names, and only along the protocol |
| `ExportApprovals.NormalizeIDs` | `control-plane/internal/certificateexportapprovals/store.go:184-198` | the normalised list holds exactly the trimmed non-blank ids, once each, ascending |
| `ExportApprovals.AscendingIsUnique` | `control-plane/internal/certificateexportapprovals/store.go:199-209` | comparing two normalised lists compares the sets |

## Left out

- SentinelRuns.RecordsAreLives: log events reach the model as arbitrary scored, dropped and tagged effects per key; how status codes, per-second counts, scanner paths, JA3 lists and the ML model turn log lines into those weights is not modelled, so the run theorems hold for every such derivation.
- Adaptive.PublishedEntries: says nothing about model version, top-signal sums and trust score, which depend on map order in the source.
- Deployments.ActiveIsSpared: runs activate ids that name one directory, as revision ids of staged bundles do; with `/`, `.` or `..` elements an id may name a place inside or outside the candidates, which Stage does not guard.
- SentinelEngine.Engine.ProcessBatch: takes the weights, drops and tags as effects and not the log lines they come from, for the reason given at RecordsAreLives.
- Staging.Store.Stage: a blank root and a nil bundle, which the source refuses at once, are not inputs of the model; symbolic links and file permissions are not modelled.
- Staging.RunReloadHealth: nginx and the health checker are functions that answer whether they succeeded; error texts are left out everywhere. A candidate path is blank or modelled after cleaning.
- IncludeWalk.ValidateIncludedFiles: reading, stat and glob are functions of the path, so files changing during the walk are not modelled; neither is materialising the bundle nor running nginx.
- Bundles.AssembleRevisionBundle: does not say which error is returned, since sorting equal paths is unspecified in the source.
- GuardMeaning.GuardPreservesMeaning: stands on this project's own parser and matcher for the emitted fragment, not on PCRE itself; URIs with newlines are excluded.
- AuditChain.HeadPinsHistory: `Details` counts as its canonical JSON text, assumed stable when decoded and encoded again; the search and paging of the audit log are left out.
- ExportApprovals.Store.Request: random ids, the storage backend and its retries are left out; the id and the time are parameters.
- Display fields of records (risk, explanations, recommendations) beyond the clamped risk score.
- Rounding of IEEE floats, parts of a second, JSON formatting.
- Template rendering, the other normalisers and renderers of the compiler, TLS, HTTP handlers, storage backends, the command line tool and scripts.
- Auth exclusion patterns, geo time windows and custom rate-limit ordering, whose emitted text does not carry the meaning one would state.
