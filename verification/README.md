# Guard Proxy: verified models of its protocols and transformations

Guard Proxy is a control plane for HAProxy and a Coraza WAF: a backend renders
configuration from a database, switches the two daemons to it, ingests the
WAF's audit log and learns rule exclusions from it. This project models the
parts of it where a mistake is silent, in Dafny, and proves what they promise.

`dafny verify dfyconfig.toml` checks everything. The modules follow the source:

| modules | what they model |
|---|---|
| `Spop`, `CorazaProbe` | the SPOP varint and frame codec, and the probe that asks Coraza which applications it serves |
| `ApplyProtocol`, `ApplySafety`, `ApplyReports`, `ApplyRisk`, `ConfigApply` | config apply: a state machine whose steps interleave with Coraza reading releases and swapping them in, in any order, its invariants over all runs, and the imperative apply whose every step is a step of that machine |
| `AuditRecords`, `ShipperJournal`, `ShipperSchedule`, `ShipperState`, `ShipperVerdicts`, `LogShipper`, `LogIngest`, `Delivery` | the audit-log shipper with its durable offset and crashes, the schedules of rotations under which it loses nothing, the idempotent receiver under concurrent duplicates, and both together |
| `Segments`, `ScopePaths`, `LearnedScopes`, `SecLang`, `Exclusions` | the scope algebra of learned exclusions, the control rules rendered from a scope, SecLang quoting |
| `TuningRules`, `TuningEvidence`, `TuningService` | the analyzer: grouping events, what each kind of evidence counts, suggestions and their review |
| `Networks`, `GeoipMap` | the streaming GeoIP merge and the map HAProxy looks addresses up in |
| `Sorting`, `Decimals`, `ConfigRenderer`, `ConfigGenerator`, `GeneratorOrder`, `GeneratorLaws`, `GeneratedRoutes`, `ReleaseFiles` | the configuration generator, what it does not depend on, what each route and application says of its rows, and the drift checksum |
| `VHostRows`, `VHostStore`, `VHostInvariants`, `VHostWrites`, `VHostService`, `VHostRendering` | the write rules for vhosts and bindings, what they keep and store, and what that spares the generator |
| `Stats` | the dashboard's buckets and counters |

Where the source changes state step by step (apply, shipper, map writer,
analyzer, vhost service, codecs' loops), the model is a class or a method with
loops, proved against a specification; the properties are then proved of the
specification. Pure code is functions and lemmas.

## Where code and documentation part

- The docstring of `quoted_value_error` says that a trailing backslash and a
  backslash before a quote have no valid form. The encoding does recover
  those values when every such run of backslashes is even:
  `SecLang.RejectedBackslashes` has the exact condition.
- `wait_until_served` promises the names "still missing". A name acknowledged
  by an attempt that fails later on stays in the result:
  `CorazaProbe.AckLostWithItsConnection` is the witness, and
  `CorazaProbe.MissingIsNeverAcknowledged` says exactly which acknowledgements
  count.
- The probe takes a timeout for a message the agent dropped. One that strikes
  inside a frame leaves the next read in the middle of that frame, and a name
  can count as served that the agent never acknowledged:
  `CorazaProbe.TimeoutInAFrameServesTheWrongName`. Without such timeouts it
  cannot: `CorazaProbe.NamesLeaveOnlyAcknowledged`. A frame too short to take
  apart raises an exception that neither caller catches (`Crashed`).
- The comment on the order of the switch holds for drop-only and for
  add-and-drop releases only under assumptions on timing and outcomes.
  `ApplySafety.EveryNameIsLoaded` takes them as hypotheses;
  `ApplyRisk.SafeIffNothingAtRisk` takes none and says which releases are safe.
- New names are meant to be loaded before HAProxy sends them. The supervisor
  reports success before Coraza has rebuilt anything, and the probe may be
  answered by what is loaded still: an application dropped and added back at
  once can go missing when a load that read the release between ends last.
  `ApplyRisk.AddedBackTooSoon` is the witness, `ApplyRisk.SafeBetweenApplies`
  the exact condition.
- An apply without a previous release swallows a failed removal of `current`
  and then deletes what it names: `ApplySafety.LinkBreaksOnlyAfterFailedUnlink`,
  and `ApplySafety.FirstApplyCanDangle` is a run that ends so.
- A corrupt state file is said to be replayed from offset 0. One whose bytes
  are not UTF-8 raises instead, and ends the process at every start:
  `ShipperState.OnlyAHeldOffsetSkips`.
- The shipper drains a renamed file before it takes up the new one, but looks
  the path up again before it opens it. A second rotation by then loses a whole
  file, with no signal and no failed write:
  `ShipperSchedule.SecondRotationLosesAFile`. So does a signal after some
  progress in a drain for the rest of the file:
  `ShipperSchedule.SignalInADrainLosesTheRest`.
  `ShipperSchedule.LosslessIffNothingLeftUnread` says exactly which schedules
  lose nothing.
- The confidence is said to resist poisoning by a single client. A burst within
  an hour indeed creates nothing (`TuningEvidence.OneClientBurstCreatesNothing`),
  but a patient client can still get a suggestion:
  `TuningEvidence.OneClientCreatesIff`.
- `generate` is meant not to depend on row order. Two path-scoped exclusions of
  a policy that differ in their ids alone break that, and nothing else does:
  `GeneratorOrder.OrderMattersForTwins`, with a pair that shows it in
  `GeneratorOrder.TwinsShowTheirOrder`.
- Uniqueness of stick tables across routes is said to be checked when contexts
  are built, but each context holds one route. It holds by construction:
  `GeneratorLaws.StickTablesNeverCollide`.
- The comment in `bucket_index_expression` speaks of floor division; the
  databases truncate. `Stats.FlooringWouldDrop` is when that matters.
- A learned scope does not match a request whose URI carries a fragment right
  after the scope: `LearnedScopes.LearnedRulesFireOnEvidence` has both halves,
  `LearnedScopes.FragmentEscapesItsScope` a request.

## Model

| member | source | states |
|---|---|---|
| Spop.EncodeVarint | src/backend/app/services/coraza_probe.py:53-65 | the loop over shifted and or-ed bytes yields the reference encoding of every natural and refuses every negative number |
| Spop.DecodeVarint | src/backend/app/services/coraza_probe.py:68-81 | the loop reads the same value and end offset as the reference reading, at any offset, and fails exactly when it would read past the end |
| Spop.OrByteIsOffset | src/backend/app/services/coraza_probe.py:57-65 | or-ing a number truncated to a byte with 240 or 128 adds 240 to its low four, 128 to its low seven bits |
| Spop.EncodeDenotes | src/backend/app/services/coraza_probe.py:53-65 | every encoding is a well-formed byte string that denotes the number |
| Spop.EncodeOfValue | src/backend/app/services/coraza_probe.py:53-81 | re-encoding what a well-formed byte string denotes gives that string back, so the encoding is a bijection |
| Spop.DecodeIsPrefix | src/backend/app/services/coraza_probe.py:68-81 | decoding at an offset succeeds exactly on a well-formed string found there, with its value and its end |
| Spop.DecodeEncode | src/backend/app/services/coraza_probe.py:53-81 | whatever surrounds an encoding, decoding at its start returns the number and stops at its end |
| Spop.PrefixFree | src/backend/app/services/coraza_probe.py:68-81 | no two well-formed strings start at one offset, so an encoding is never a prefix of another |
| Spop.BigEndianRoundTrip | src/backend/app/services/coraza_probe.py:116-124 | a length below 2^32 survives the four length bytes |
| Spop.FrameLayout | src/backend/app/services/coraza_probe.py:116-124 | a frame is its length, its type, flags with FIN alone set, the stream id, the frame id and the payload, in that order |
| Spop.ReadBackOne | src/backend/app/services/coraza_probe.py:116-124 | reading a written frame gives its type and stream id and consumes exactly that frame, whatever follows |
| Spop.ReadBackAll | src/backend/app/services/coraza_probe.py:116-184 | reading any concatenation of written frames gives every type and stream id in order and leaves what follows |
| Spop.Connection.RecvExact | src/backend/app/services/coraza_probe.py:168-175 | however the stream is chopped into receives, exactly the wanted bytes are taken, or the stream ended or timed out first |
| Spop.Connection.ReadFrame | src/backend/app/services/coraza_probe.py:178-184 | on any chopping of the stream, what is read is what parsing the whole stream gives |
| CorazaProbe.ProbeOnce | src/backend/app/services/coraza_probe.py:168-217 | on the connection's bytes, however they are chopped and whatever times out: an attempt yields exactly the names whose own read returned the ACK of their own stream, or fails where a read broke, was garbled or brought a disconnect |
| CorazaProbe.WaitUntilServed | src/backend/app/services/coraza_probe.py:220-245 | the result is what is pending after all attempts the deadline leaves room for |
| CorazaProbe.MissingIsNeverAcknowledged | src/backend/app/services/coraza_probe.py:187-245 | over any attempts with late, missing or reordered replies and broken connections, a name is missing iff no completed attempt acknowledged it on the stream that attempt gave it |
| CorazaProbe.AnswersAreWhatWasSent | src/backend/app/services/coraza_probe.py:168-210 | if no timeout strikes inside a frame, the answers an attempt reads are the first frames the agent sent, in order, each once |
| CorazaProbe.NamesLeaveOnlyAcknowledged | src/backend/app/services/coraza_probe.py:187-245 | over any attempts without a timeout inside a frame, a name leaves the list only after the agent itself acknowledged the stream that name was asked for on, on that connection |
| CorazaProbe.TimeoutInAFrameServesTheWrongName | src/backend/app/services/coraza_probe.py:200-210 | with a timeout inside a frame a name counts as served although the agent acknowledged the other name alone |
| CorazaProbe.PendingOnlyShrinks | src/backend/app/services/coraza_probe.py:220-245 | pending names never come back and stay free of duplicates |
| CorazaProbe.AckLostWithItsConnection | src/backend/app/services/coraza_probe.py:196-245 | an acknowledged name stays missing when its attempt fails afterwards |
| CorazaProbe.HelloAndAckServe | src/backend/app/services/coraza_probe.py:187-217 | by their numbers on the wire: a hello and the ACK of its own stream serve a name, another stream's ACK does not, a disconnect or a missing hello fails the attempt |
| CorazaProbe.LateAcksServeNobody | src/backend/app/services/coraza_probe.py:200-210 | ACKs that arrive one or more reads late serve no name at all |
| SecLang.PairsUpIsEvenRuns | src/backend/app/coraza_syntax.py:16-34 | a value reads as escaped pairs iff every backslash run before a quote or the end is even |
| SecLang.QuotingRoundTrip | src/backend/app/services/config_renderer.py:617-619 | reading the quoted form stops at the closing quote and gives the value back, whatever follows, iff the value has no line break and its runs are even |
| SecLang.AcceptedIsRecovered | src/backend/app/coraza_syntax.py:16-34 | every accepted value is recovered from its quoted form before any following text |
| SecLang.RejectedBackslashes | src/backend/app/coraza_syntax.py:16-34 | a value rejected for its backslashes is recovered iff all the runs in question are even |
| SecLang.RejectedExamples | src/backend/app/coraza_syntax.py:16-34 | concrete rejected values that are not recovered |
| Segments.BelowIsSegmentPrefix | src/backend/app/services/tuning_service.py:110-139 | being below a path as a string is having its segments as a proper prefix of segments |
| ScopePaths.WithinIsTransitive | src/backend/app/services/tuning_service.py:131-139 | a path within a scope within a scope is within the outer one |
| ScopePaths.WithinIsAntisymmetric | src/backend/app/services/tuning_service.py:131-139 | two scopes within each other are one scope |
| ScopePaths.ProposedScopeIsUnique | src/backend/app/services/tuning_service.py:110-128 | a group's paths have at most one narrowest scope, so the result does not depend on set order |
| ScopePaths.OnePathHeadsAll | src/backend/app/services/tuning_service.py:110-128 | a path all others lie below is the narrowest scope of them |
| ScopePaths.PathsPart | src/backend/app/services/tuning_service.py:110-128 | where paths part, what is under their common segments is the narrowest scope, and is none of them |
| ScopePaths.CommonSegments | src/backend/app/services/tuning_service.py:118-128 | the loop over depths stops at segments whose join, or what is under it, is narrowest |
| ScopePaths.CommonScopePath | src/backend/app/services/tuning_service.py:110-128 | for every set of slash-led paths the result covers each of them, and every scope that covers them covers all the result covers; no scope if one path has none |
| LearnedScopes.CoveredIffWholeGroupIs | src/backend/app/services/tuning_service.py:142-152 | a suggestion is skipped iff one exclusion of its key covers every path of its group |
| LearnedScopes.RulesFireWithinScope | src/backend/app/services/config_renderer.py:380-400 | the rendered rules fire on a raw URI iff what precedes its query is within the scope |
| LearnedScopes.RulesFireWithinScopeOfPath | src/backend/app/services/config_renderer.py:380-400 | on URIs without a fragment the rules and the analyzer agree on what is within |
| LearnedScopes.ProposedScopeIsRenderable | src/backend/app/services/exclusion_suggestion.py:115-120 | a proposed scope can always be quoted, so no learned exclusion is skipped when rendering |
| LearnedScopes.LearnedRulesFireOnEvidence | src/backend/app/services/tuning_service.py:110-139 | the rules of a learned scope fire on each request it was learned from, except exactly those whose path is the scope followed by a fragment |
| LearnedScopes.FragmentEscapesItsScope | src/backend/app/services/config_renderer.py:380-400 | a request to /api#x proposes the scope /api, whose rules do not fire on it |
| TuningRules.ConfidenceIsAPercentage | src/backend/app/services/tuning_service.py:87-107 | the score of any group lies in 0..100 because isolated events are among the events |
| TuningEvidence.ClientsCount | src/backend/app/services/tuning_service.py:87-107 | distinct clients add 35 in all, at ten of them, 3.5 each up to there and nothing beyond |
| TuningEvidence.VolumeCounts | src/backend/app/services/tuning_service.py:87-107 | events add 20 in all, at twenty of them |
| TuningEvidence.HoursCount | src/backend/app/services/tuning_service.py:87-107 | different hours add 20 in all, at six of them |
| TuningEvidence.FiringAloneCounts | src/backend/app/services/tuning_service.py:87-107 | having fired alone adds 25 times its share; with nothing at all the score is 0 |
| TuningEvidence.MoreNeverLowers | src/backend/app/services/tuning_service.py:87-107 | more of any kind of evidence never lowers the confidence |
| TuningEvidence.RoundIsNearest | src/backend/app/services/tuning_service.py:107-107 | the sum is rounded to the nearest number, from halfway to the even one |
| TuningEvidence.ConfidenceIsTheEvidence | src/backend/app/services/tuning_service.py:87-107 | a group's confidence is the rounded sum over its events' clients, number, hours and share alone; it reaches the minimum iff that sum is at least 29.5 |
| TuningEvidence.AnalysisCreatesIff | src/backend/app/services/tuning_service.py:206-247 | after an analysis a key has a row iff it had one, or there are three events of it, no exclusion of the policy applies to all of them, and their evidence is at least 29.5; no other policy gets one |
| TuningEvidence.OneClientBurstCreatesNothing | src/backend/app/services/tuning_service.py:90-99 | one client within one hour whose rule never fired alone gets no suggestion, however many events it sends |
| TuningEvidence.OneClientCreatesIff | src/backend/app/services/tuning_service.py:90-99 | what any single client needs for a suggestion: 26 points of volume, hours and firing alone |
| TuningEvidence.AnalysedRowSaysItsEvents | src/backend/app/services/tuning_service.py:240-247 | after an analysis a considered pending row holds its events' number, clients, first and last time, newest samples, message, narrowest scope and rounded evidence |
| TuningEvidence.KeyNamesItsMatch | src/backend/app/services/exclusion_suggestion.py:102-112 | a match can be excluded iff its variable is a target type's stored name in capitals and, unless that type is a part of the request line, its member is made of letters, digits and _ . : / @ - |
| TuningEvidence.AloneIsOneRule | src/backend/app/services/tuning_service.py:172-186 | an event counts as fired alone iff all its matches on a variable are of one rule |
| TuningEvidence.HoursAreClockHours | src/backend/app/services/tuning_service.py:189-189 | two events count as one hour iff they fall in one hour of the clock |
| TuningEvidence.LearnedExclusionIsRendered | src/backend/app/services/config_generator.py:373-400 | an exclusion approved as it was suggested is never among those skipped when rendering |
| TuningRules.TallyIsOverEventsWith | src/backend/app/services/tuning_service.py:170-194 | a group's counts, sources, hours, paths, sample and times are those of exactly the events that have its key, each counted once |
| TuningRules.ResolvedIsTerminal | src/backend/app/services/tuning_service.py:155-324 | over any analyses, approvals and rejections there is one row per policy, rule and target, confidences stay percentages, and a resolved row is never rewritten |
| TuningRules.AllSettled | src/backend/app/services/tuning_service.py:206-247 | after a pass over the keys, considering any of them again would change nothing |
| TuningRules.AnalysisIsIdempotent | src/backend/app/services/tuning_service.py:155-249 | analysing the same events against the same exclusions again changes no row and creates none |
| TuningService.AddToGroup | src/backend/app/services/tuning_service.py:183-194 | field by field updates of a group add up to counting one event |
| TuningService.GroupEvent | src/backend/app/services/tuning_service.py:172-194 | one event is added to each of its groups once, however often it matched, and to no other |
| TuningService.GroupEvents | src/backend/app/services/tuning_service.py:170-194 | the dictionary holds exactly the groups of the events, in order of first match |
| TuningService.Tuning.AnalyzePolicy | src/backend/app/services/tuning_service.py:155-249 | the loop brings the tables to what considering each key once, against the tables as they then are, makes of them, and reports what it scanned, created and updated |
| TuningService.Tuning.PendingSuggestion | src/backend/app/services/tuning_service.py:287-297 | each refusal is given exactly in its case, and success returns the pending row |
| TuningService.Tuning.ApproveSuggestion | src/backend/app/services/tuning_service.py:300-313 | approval adds the reviewed exclusion and resolves the row together, or changes nothing |
| TuningService.Tuning.RejectSuggestion | src/backend/app/services/tuning_service.py:316-324 | rejection resolves the row and changes nothing else, or nothing at all |
| Networks.NothingBetweenSiblings | src/backend/app/services/geoip_service.py:263-270 | no network lies between two mergeable ones in address order, so they are always neighbours |
| Networks.CollapseAddresses | src/backend/app/services/geoip_service.py:240-247 | collapsing an ascending run keeps the addresses, the order and the disjointness and leaves no neighbours that could merge |
| GeoipMap.WriteRun | src/backend/app/services/geoip_service.py:228-253 | a run is written as the collapsed blocks of its networks, and counted; an empty run or one without a country writes nothing |
| GeoipMap.MergeRecords | src/backend/app/services/geoip_service.py:288-314 | merging run by run yields exactly the maximal blocks of every country's addresses over the whole database |
| GeoipMap.CountryMap.EnsureMapFileExists | src/backend/app/services/geoip_service.py:136-153 | a missing map becomes the stub, an existing one is left alone |
| GeoipMap.CountryMap.GenerateMapFile | src/backend/app/services/geoip_service.py:256-329 | the map is replaced as a whole by the global merge, or, if the database is missing or cannot be enumerated, not at all |
| GeoipMap.NoSiblingLines | src/backend/app/services/geoip_service.py:263-270 | no two lines anywhere in the map could have been merged |
| GeoipMap.CoveredBlockIsInOneLine | src/backend/app/services/geoip_service.py:263-270 | a block whose every address some line of its country covers lies within one line |
| GeoipMap.CompactIsGlobalMerge | src/backend/app/services/geoip_service.py:256-273 | lines that stand for the records and cannot be merged pairwise are all and only the maximal blocks |
| GeoipMap.MapIpIsAMatch | src/backend/app/services/geoip_service.py:1-7 | a lookup finds a line the address is in, if there is one |
| GeoipMap.CountryOfIsAssigned | src/backend/app/services/geoip_service.py:332-345 | an address has a country iff some record with that mappable country, aliased as in the source, holds it |
| GeoipMap.LookupIsTheDatabase | src/backend/app/services/geoip_service.py:256-345 | every address looks up in the written map to its country in the database, or misses as there |
| GeoipMap.LookupReadsTheRecord | src/backend/app/services/geoip_service.py:332-345 | an address looks up to its record's country.iso_code if that is a non-empty text, else to its registered_country.iso_code, with UK as GB and every other code as it is, if it can be mapped; otherwise it misses |
| GeoipMap.NoRecordMisses | src/backend/app/services/geoip_service.py:256-345 | an address in no network of the database misses |
| ApplyProtocol.FilesHold | src/backend/app/services/config_apply.py:90-404 | every step, of apply or of Coraza reading, swapping in or giving up a release, keeps the files each phase relies on, and what `current` names there |
| ApplySafety.LinkBreaksOnlyAfterFailedUnlink | src/backend/app/services/config_apply.py:300-311 | a step makes `current` dangle iff it deletes the candidate after the link to it could not be removed |
| ApplySafety.FirstApplyCanDangle | src/backend/app/services/config_apply.py:300-311 | from every state without a previous release there is a run that leaves `current` naming a missing release |
| ApplySafety.LinkNeverDangles | src/backend/app/services/config_apply.py:90-404 | over all runs in which no removal of the link fails, `current` never names a missing release |
| ApplySafety.ApplyEndsAsItsStatusSays | src/backend/app/services/config_apply.py:90-404 | for every combination of outcomes, each status fixes where `current` ends, what is left of the candidate and which config HAProxy is on |
| ApplySafety.FailureRestoresPrevious | src/backend/app/services/config_apply.py:334-404 | every status that promises the previous release leaves the link and HAProxy exactly as they were |
| ApplyReports.SuccessWasReported | src/backend/app/services/config_apply.py:198-277 | an apply that ends in success swapped a release in, the bridge if there is one; if that release's Coraza files differ from the previous release's, the status said ok for it afterwards: before apply did anything else, or, for a release that only drops applications, after HAProxy's reload |
| ApplyReports.UnreportedNeverSucceeds | src/backend/app/services/config_apply.py:758-793 | while the supervisor reports no ok for the release swapped in, its Coraza files being new, the apply never ends in success |
| ApplyReports.UnchangedFilesNeedNoReport | src/backend/app/services/config_apply.py:202-206 | when its Coraza files are the previous release's, no report is waited for, in any run |
| ApplyReports.UnchangedFilesSucceed | src/backend/app/services/config_apply.py:202-277 | then, without added applications, the swap and HAProxy's reload alone are a success, whatever the status file holds |
| ApplyReports.OnlyTheCandidateIsLeft | src/backend/app/services/config_apply.py:90-404 | an apply that has ended leaves the releases there were as they were, its candidate exactly after a success or a failed reload with something to roll back to, and never a bridge |
| ApplySafety.NamesHold | src/backend/app/services/config_apply.py:160-277 | under the stated assumptions every step keeps the invariant on sent, served and loaded names |
| ApplySafety.EveryNameIsLoaded | src/backend/app/services/config_apply.py:160-277 | over any applies and GeoIP reloads, with Coraza reading releases and swapping them in later, or not, at any moment, every name HAProxy sends is loaded; at rest `current` serves what HAProxy sends, and Coraza has it and keeps it through the load under way |
| ApplyRisk.CoveredThroughout | src/backend/app/services/config_apply.py:171-404 | with no name at risk and no stale load, no run of the apply, nor of Coraza after it, uncovers a name, whatever the outcomes and however long a load takes |
| ApplyRisk.DropOnlyIsRisky | src/backend/app/services/config_apply.py:198-274 | a drop-only release with a name at risk has a run that leaves HAProxy sending a name Coraza lacks |
| ApplyRisk.BridgedIsRisky | src/backend/app/services/config_apply.py:176-260 | so has an add-and-drop release, through the bridge |
| ApplyRisk.StaleLoadsAreRisky | docker/coraza-supervisor.sh:81-106 | whenever a load under way, or one still to start on the old release, can answer for the new applications and then go without a name, a run uncovers that name |
| ApplyRisk.SafeIffNothingAtRisk | src/backend/app/services/config_apply.py:160-404 | without any assumption a release is safe to apply iff it retires no name HAProxy sends, or would send again after a rollback, and no such stale load is possible |
| ApplyRisk.SafeBetweenApplies | src/backend/app/services/config_apply.py:160-404 | between applies the second half comes down to three checks: only a release that adds applications Coraza has loaded, or is loading, already can be at risk |
| ApplyRisk.SafeOnceCaughtUp | src/backend/app/services/config_apply.py:160-404 | once Coraza has loaded just what `current` serves, a release is safe iff it retires no such name |
| ApplyRisk.AddedBackTooSoon | docker/coraza-supervisor.sh:94-105 | a policy dropped and added back while Coraza still has it: nothing retired, and yet not safe |
| ConfigApply.HistoryIsRun | src/backend/app/services/config_apply.py:84-404 | the states the imperative apply passes through are a run of the protocol |
| ConfigApply.RecordedStatesAreCovered | src/backend/app/services/config_apply.py:84-404 | in every state it passes through under the assumptions, every sent name is loaded |
| ConfigApply.Runtime.SwapCurrentLink | src/backend/app/services/config_apply.py:940-944 | the link alone changes, to the target |
| ConfigApply.Runtime.ReloadForGeoip | src/backend/app/services/config_apply.py:507-517 | a reload for a new map puts HAProxy on what `current` names, or leaves it, and is a step between applies |
| ConfigApply.Runtime.WaitForCorazaReload | src/backend/app/services/config_apply.py:758-793 | a wait succeeds only on the supervisor's report for the awaited release |
| ConfigApply.Runtime.WaitForCorazaApps | src/backend/app/services/config_apply.py:882-902 | polling takes a name off the list only by an answer given while Coraza had it loaded, in an attempt that completes, with Coraza acting between any two answers |
| ConfigApply.Runtime.CorazaReloadFailed | src/backend/app/services/config_apply.py:810-848 | the link is back on the previous release, candidate and bridge are gone, HAProxy is as the status says |
| ConfigApply.Runtime.WriteBridge | src/backend/app/services/config_apply.py:920-937 | the bridge keeps the retired applications beside the candidate's, or nothing of either is left |
| ConfigApply.Runtime.ApplyLocked | src/backend/app/services/config_apply.py:90-404 | every path through apply is a run of the protocol and ends in the outcome its status promises; a success has a recorded state in which the status said ok for the release swapped in, unless its Coraza files were the previous ones; an invalid link changes nothing |
| AuditRecords.LineEndIsFirst | src/log-shipper/app/shipper.py:350-370 | a line ends at the first line feed and nowhere else |
| AuditRecords.FinishedStays | src/log-shipper/app/shipper.py:350-383 | a record finished in what is visible is the same record whatever is appended later |
| AuditRecords.FinishedGrows | src/log-shipper/app/shipper.py:350-383 | the finished records of an earlier look are a prefix of those of any later look |
| AuditRecords.RecordsMakeUpTheLog | src/log-shipper/app/shipper.py:350-383 | the records' bytes, in order, are the log's bytes, and at most one, the unfinished tail, is not finished |
| AuditRecords.BetweenIsFinished | src/log-shipper/app/shipper.py:350-383 | records read one by one up to where nothing further is finished, fragments aside, are the visible content split at once |
| ShipperJournal.PassedIsTheTrail | src/log-shipper/app/shipper.py:178-191 | over any crashes and failed writes, the records below the saved offsets are those of the stretches worked through, each once and in order |
| ShipperJournal.PassedWasHandled | src/log-shipper/app/shipper.py:386-414 | every record an offset has moved past was handed on, dead-lettered or blank right before it moved |
| ShipperVerdicts.LivesAreEarned | src/log-shipper/app/shipper.py:260-414 | if each process treated its records as their bytes and answers ask for, so did all of them together |
| ShipperJournal.HandledIsPassedOrNext | src/log-shipper/app/shipper.py:386-414 | a record handed on is below the offset, or it is the one next record a restart hands on again, or its log was left |
| ShipperJournal.NothingIsPassedTwice | src/log-shipper/app/shipper.py:178-191 | the records below the saved offset come in the order of logs and offsets, so none is there twice |
| ShipperJournal.JournalsCompose | src/log-shipper/app/shipper.py:154-191 | the journal of a process started from a saved offset goes on the one before it, and what both pass is what one process passes, then the other |
| ShipperJournal.LivesAreOneRun | src/log-shipper/app/shipper.py:154-191 | any number of processes, each ended anywhere, are one disciplined run, so all that is proved of one holds across crashes |
| ShipperJournal.RestartRepeatsOnlyTheNext | src/log-shipper/app/shipper.py:386-414 | across any restarts, a record handed on before one and again after it is the one record right behind the saved offset there |
| ShipperSchedule.LosslessIffNothingLeftUnread | src/log-shipper/app/shipper.py:463-551 | over any schedule of what stands under the path, reads, failed writes and opens, signals and restarts: every record of every log that stood there is passed, once and in order, trailing fragments included, iff no round took up a log while the one it left had unread bytes or a skipped one had any |
| ShipperSchedule.LossStays | src/log-shipper/app/shipper.py:463-551 | a round that loses leaves a record that no later round passes |
| ShipperSchedule.SwitchedLogIsAtRisk | src/log-shipper/app/shipper.py:431-447 | once a drain has switched to B, the next round loses nothing iff the path still names B, or B and all that came and went after it are complete and empty |
| ShipperSchedule.CutDrainLoses | src/log-shipper/app/shipper.py:494-513 | a drain that ends, by a signal or not, loses iff it left bytes unread or a log was skipped |
| ShipperSchedule.PromptRoundsLoseNothing | src/log-shipper/app/shipper.py:463-551 | rounds that drain to the very end and find the very next file lose nothing |
| ShipperSchedule.SecondRotationLosesAFile | src/log-shipper/app/shipper.py:485-525 | a schedule of one rotation per round, without signal or failed write, after which a whole file was never read |
| ShipperSchedule.SignalInADrainLosesTheRest | src/log-shipper/app/shipper.py:392-414 | a signal after some progress in a drain, after which the rest of the rotated file is left |
| ShipperSchedule.TailingIsSplitting | src/log-shipper/app/shipper.py:350-414 | incremental tailing of one log passes what splitting its visible content at once gives, however it was polled and chunked |
| ShipperSchedule.RestartGoesOn | src/log-shipper/app/shipper.py:463-551 | the schedules of two processes, one started from what the other saved, are one schedule with a restart in it |
| ShipperState.LoadWritten | src/log-shipper/app/shipper.py:84-191 | what replaces the state file is read back as the same offset and identity |
| ShipperState.OnlyAHeldOffsetSkips | src/log-shipper/app/shipper.py:78-176 | however damaged the state file, a start skips records iff the file holds that offset as a number; an identity is taken only as stored, and a damaged one costs no offset; only bytes that are no text end the process |
| LogShipper.AuditFile.ReadLine | src/log-shipper/app/shipper.py:355-356 | a bounded read returns the bytes at the position up to a line feed, the bound or what is visible, while the file may grow |
| LogShipper.AuditFile.ConsumeRecord | src/log-shipper/app/shipper.py:350-383 | for every chunking and every growth in between it returns exactly the next record and its kind, or nothing and the position unchanged if that record is unfinished; it ends |
| LogShipper.Shipper.ShipLine | src/log-shipper/app/shipper.py:260-341 | a line is shipped iff its last answer was 2xx; dropped without a trace iff empty, dead-lettered iff it maps to no event or its last answer was neither 2xx nor 401, 403, 429 or 5xx; every earlier answer asked to try again; only a stop signal ends it otherwise |
| LogShipper.Shipper.PersistState | src/log-shipper/app/shipper.py:178-191 | the state file is replaced as a whole or not at all |
| LogShipper.Shipper.ShipAvailable | src/log-shipper/app/shipper.py:386-414 | polling adds to what is below the offset exactly the visible content from there, split into finished records, never an unfinished line unless draining; each of them was dead-lettered iff over-long, cut off, not mappable or rejected by its last answer, and shipped iff that answer was 2xx; it ends short only at a signal or a failed write |
| LogShipper.Shipper.StateForOpenedFile | src/log-shipper/app/shipper.py:417-460 | a restart goes on where the saved log was left, or at the start of a rotated or truncated one, or at an old offset without identity, as a step of the schedule |
| LogShipper.Shipper.DrainAndSwitch | src/log-shipper/app/shipper.py:494-525 | a rotated file is worked on to its end, or up to a signal, before the new one is taken up from byte 0, as a step of the schedule; a failed write goes back to the durable state |
| LogShipper.Shipper.PollOnce | src/log-shipper/app/shipper.py:469-548 | whatever the path names, a round is one round of the schedule, keeps memory, state file and journal in step and treats every record it passes as its bytes and answers ask for; without a signal a renamed file is left only at its very end |
| LogShipper.Shipper.NothingLostIff | src/log-shipper/app/shipper.py:463-551 | after any number of rounds the shipper has lost nothing iff none of the rounds it recorded was a losing one |
| LogIngest.ConsistentHolds | src/backend/app/routers/logs.py:73-144 | every step of concurrent requests, lost races and faults included, keeps each stored event under its own id once |
| LogIngest.AtMostOneRow | src/backend/app/routers/logs.py:73-144 | however requests interleave, each producer event id has at most one row |
| LogIngest.DuplicatesGetOneAnswer | src/backend/app/routers/logs.py:111-144 | concurrent duplicates are all answered with one row, and at most one of them as created |
| LogIngest.LostRaceFindsTheWinner | src/backend/app/routers/logs.py:94-105 | a request that loses the race writes nothing and answers with the winner's row |
| LogIngest.OneRequestIsAnswered | src/backend/app/routers/logs.py:73-144 | a request nothing interferes with is answered with a row of its event, a new one iff the event had none, and changes no other row |
| LogIngest.RowsStay | src/backend/app/routers/logs.py:73-144 | no run without a purge changes or drops a row |
| LogIngest.RefusedStoresNothing | src/backend/app/routers/logs.py:73-144 | an event the database cannot take is answered 422 and stored nowhere |
| Delivery.EachRecordIsOneRow | src/backend/app/routers/logs.py:73-144 | over any crashes of the shipper and any interleaving at the receiver, each record below the saved offset is exactly one row, however often it was sent, unless it is no postable line or its last answer rejected it |
| Delivery.ResendingAddsNoRow | src/backend/app/routers/logs.py:111-144 | all answered requests with one producer event id were answered with one row |
| Sorting.SortIgnoresOrder | src/backend/app/services/config_renderer.py:554-590 | sorting by a key without ties gives one result for every order of the input |
| Sorting.SortIsStable | src/backend/app/services/config_renderer.py:563-574 | elements that tie keep the order they were given |
| Decimals.DecimalDenotes | src/backend/app/services/config_generator.py:217-222 | an id written out stands for itself, without leading zeros |
| Decimals.NumberedNamesDiffer | src/backend/app/services/config_generator.py:217-222 | names built from a kind, an id and a further part are equal only if id and part are |
| ConfigRenderer.EnsureUnique | src/backend/app/services/config_renderer.py:593-598 | the scan finds a duplicate iff there is one |
| ConfigRenderer.ExclusionLeIsTotal | src/backend/app/services/config_renderer.py:566-574 | the sort key compares any two exclusions and ties only on equal scope, rule, target type and value |
| ConfigRenderer.ExclusionsAreSplit | src/backend/app/services/config_renderer.py:563-581 | the global and the scoped list hold every exclusion between them, each as often as it was given, and both ascend |
| ConfigRenderer.RulesAreKept | src/backend/app/services/config_renderer.py:554-590 | exactly the disabled overrides and the active custom rules are rendered, none lost or doubled, by rule id |
| ConfigGenerator.RejectPathScopedPolicies | src/backend/app/services/config_generator.py:173-194 | a list of bindings is accepted iff none asks for another policy on part of an active vhost |
| ConfigGenerator.GroupByPolicyId | src/backend/app/services/config_generator.py:150-156 | each policy's group is its rows and no others, in their order |
| ConfigGenerator.ControlRuleIds | src/backend/app/services/config_generator.py:403-419 | each scoped row gets the first id of its own block, a global row none |
| ConfigGenerator.ToExclusionContexts | src/backend/app/services/config_generator.py:373-400 | the rows that can be rendered become contexts in order; one that cannot leaves the others as they are |
| ConfigGenerator.CorazaApps | src/backend/app/services/config_generator.py:114-132 | grouping and assembling give each policy in use the application of its own rows, after the default one |
| ConfigGenerator.GenerateConfig | src/backend/app/services/config_generator.py:78-147 | the generator with its loops computes the function the laws below are about, failures included |
| GeneratorOrder.ActiveVhostsIgnoreOrder | src/backend/app/services/config_generator.py:92-95 | the active vhosts come out in one order for every order of the rows |
| GeneratorOrder.ExclusionsIgnoreOrder | src/backend/app/services/config_renderer.py:563-581 | so do a policy's exclusions, if no two scoped ones are twins |
| GeneratorOrder.OrderDoesNotMatter | src/backend/app/services/config_generator.py:78-147 | for any permutation of all row lists the configuration is the same, and so is whether there is one |
| GeneratorOrder.OrderMattersForTwins | src/backend/app/services/config_renderer.py:563-581 | scoped exclusions are rendered alike in every order iff no two that can be rendered differ in their ids alone |
| GeneratorOrder.TwinsShowTheirOrder | src/backend/app/services/config_renderer.py:563-581 | two concrete exclusions that both can be rendered and come out in the order they were given |
| GeneratorLaws.AppNamesDiffer | src/backend/app/services/config_generator.py:73-75 | distinct policies, and no policy, have distinct application names |
| GeneratorLaws.ActiveHaveDistinctIds | src/backend/app/services/config_generator.py:92-95 | routes are made for exactly the active vhosts, each once, in domain order |
| GeneratorLaws.AppsAreThoseInUse | src/backend/app/services/config_generator.py:106-132 | the generated applications are the default one and those of the active vhosts' policies, and no others |
| GeneratorLaws.RoutesStayWithinApps | src/backend/app/services/config_generator.py:102-147 | every application a route names is generated, and the default one always is |
| GeneratorLaws.AppIsItsPolicys | src/backend/app/services/config_generator.py:197-211 | the application under a policy's name is what that policy and its rows make it |
| GeneratorLaws.AppDependsOnItsPolicyOnly | src/backend/app/services/config_generator.py:114-132 | two databases that agree on a policy and its rows give it the same application, whatever else differs |
| GeneratedRoutes.RoutesSayTheirRows | src/backend/app/services/config_generator.py:214-349 | the HAProxy file is rendered from one route for each active vhost, under the names of its id, with its domain and TLS provider, its policy's limits, mode and countries each iff they are in use, its active backends as servers in order with their own address and check, and the first checked path or / |
| GeneratedRoutes.AppSaysItsRows | src/backend/app/services/config_generator.py:197-211 | a policy's application carries its own CRS settings and, each in its place, the rules its overrides switch off, its exclusions without and with a scope, and its active custom rules |
| GeneratedRoutes.DefaultAppIsUntuned | src/backend/app/services/config_generator.py:114-122 | the application of unassigned vhosts only detects, at paranoia 1 with thresholds 5 and 4, and has nothing tuned |
| GeneratorLaws.ControlRuleIdsAreApart | src/backend/app/services/config_generator.py:403-419 | control rules share an id only if they are the same rule of the same exclusion, and never have a custom rule's id |
| GeneratorLaws.IdentifiersNeverCollide | src/backend/app/services/config_generator.py:214-222 | the renderer's checks for duplicate ACL, backend and server names never fail for distinct vhost ids |
| GeneratorLaws.StickTablesNeverCollide | src/backend/app/services/config_generator.py:239-253 | no two vhosts share a rate or a ban table, which no check across routes looks at |
| GeneratorLaws.FailsOnlyForWhatRowsSay | src/backend/app/services/config_generator.py:78-194 | generation fails iff an active vhost's policy is missing or inactive, a binding disagrees, a route or custom rule is refused by itself, or the log level is unknown |
| GeneratorLaws.TuningLeavesTheRestAlone | src/backend/app/services/config_generator.py:78-147 | rule overrides, exclusions, custom rules and bindings change neither the HAProxy file, nor which applications there are, nor the Coraza file that lists them, nor the certificates |
| GeneratorLaws.CertsAreTheVhosts | src/backend/app/services/config_generator.py:134-137 | a domain has a certificate iff its active vhost serves TLS with certificate and key, and it is that vhost's |
| ReleaseFiles.CalculateChecksum | src/backend/app/services/config_apply.py:994-1010 | the digest is fed the two files and then the applications in name order, each under its name |
| ReleaseFiles.WriteCandidate | src/backend/app/services/config_apply.py:520-537 | a release holds exactly the generated files; writing fails iff two applications share a directory |
| ReleaseFiles.ReadActiveChecksum | src/backend/app/services/config_apply.py:1013-1046 | the digest is fed what reading gives, listed in any order |
| ReleaseFiles.ReadBackChecksum | src/backend/app/services/config_apply.py:994-1046 | a release read back in any directory order has the checksum it was written with iff nothing rendered holds a carriage return |
| ReleaseFiles.SameRowsShowNoDrift | src/backend/app/services/config_apply.py:994-1046 | applying and querying the same rows in different orders shows no drift, iff nothing rendered holds a carriage return |
| ReleaseFiles.GeneratedIsWhatApplyTakes | src/backend/app/services/config_apply.py:160-172 | what the generator yields meets what the apply protocol assumes of a release |
| VHostService.NormalizeBackendPayloads | src/backend/app/services/vhost_service.py:411-461 | accepted payloads are non-empty, absolute, positive, share one checked path and, for an active vhost, hold an active backend; anything else is refused |
| VHostService.Service.SyncDefaultPolicyBinding | src/backend/app/services/vhost_service.py:513-549 | exactly the vhost's one default binding is made, changed or removed to match its policy |
| VHostService.Service.CreateVhost | src/backend/app/services/vhost_service.py:111-182 | each refusal comes in its order and changes nothing; success adds the vhost and its mirror binding and keeps the invariant |
| VHostService.Service.UpdateVhost | src/backend/app/services/vhost_service.py:226-284 | the same for any combination of sent, absent and null fields |
| VHostService.Service.DeleteVhost | src/backend/app/services/vhost_service.py:286-290 | a vhost goes with its bindings and nothing else |
| VHostService.Service.CreatePolicyBinding | src/backend/app/services/vhost_service.py:302-340 | a binding is added unless malformed, taken, or the default one |
| VHostService.Service.DeletePolicyBinding | src/backend/app/services/vhost_service.py:342-349 | a binding is removed unless it is another vhost's or the default one |
| VHostService.Service.DeletePolicy | src/backend/app/services/policy_service.py:221-243 | a policy in use by a vhost or a binding is not deleted |
| VHostInvariants.SyncedKeeps | src/backend/app/services/vhost_service.py:513-549 | after syncing, the default binding names the policy iff there is one, and no other vhost's default changed |
| VHostInvariants.UpdateVhostKeeps | src/backend/app/services/vhost_service.py:226-284 | any patch keeps the whole invariant, refused or not |
| VHostInvariants.RunsKeepStored | src/backend/app/services/vhost_service.py:111-349 | over any operations: a ('/', 0) binding exists iff the vhost has a policy and names it, backend_url is the first backend's, an active vhost has an active backend and one checked path, domains and binding places are unique, references resolve |
| VHostInvariants.RunsFromEmptyAreStored | src/backend/app/services/vhost_service.py:111-349 | so it holds of everything reached from empty tables |
| VHostInvariants.DeleteUndoesCreate | src/backend/app/services/vhost_service.py:111-290 | deleting a vhost just created, mirror binding and all, gives every table back as it was |
| VHostInvariants.DeleteUndoesCreateBinding | src/backend/app/services/vhost_service.py:302-349 | so does deleting a binding just created |
| VHostInvariants.UpdateTouchesOne | src/backend/app/services/vhost_service.py:226-284 | an update leaves every other vhost and every binding but this vhost's default one alone |
| VHostInvariants.UpdateTwiceIsOnce | src/backend/app/services/vhost_service.py:226-284 | a patch that succeeds succeeds again and changes nothing |
| VHostWrites.CreatedRowSaysTheRequest | src/backend/app/services/vhost_service.py:111-182 | a created vhost holds every field of the request, its backends trimmed, the certificate issued if one was asked for; no other vhost changes |
| VHostWrites.UpdatedRowSaysThePatch | src/backend/app/services/vhost_service.py:226-284 | an updated vhost holds every sent value, loses what was sent as null, keeps the rest; a certificate from Let's Encrypt replaces both sent and stored ones |
| VHostWrites.CreatedIff | src/backend/app/services/vhost_service.py:111-182 | a vhost is created iff its policy exists, its backends can be stored, its certificate was issued and its domain is free |
| VHostWrites.BindingAddedIff | src/backend/app/services/vhost_service.py:302-340 | a binding is added iff vhost and policy exist, the place is well-formed, not the vhost's own and not taken |
| VHostRendering.StoredVhostHasServers | src/backend/app/services/config_generator.py:306-336 | for a stored active vhost the generator's checks for no active backend and for several health check paths never fail |
| VHostRendering.StoredVhostHasRoute | src/backend/app/services/config_generator.py:214-349 | its route is refused iff its domain, an address or a checked path has a character HAProxy cannot take, or its policy uses limits out of range or countries that are not two capitals |
| VHostRendering.DefaultBindingsAgree | src/backend/app/services/config_generator.py:173-194 | the mirrored default binding is never the one that gets a configuration rejected |
| VHostRendering.StoredPolicyIsFound | src/backend/app/services/config_generator.py:159-170 | a stored vhost's policy is never missing, only perhaps inactive |
| VHostRendering.StoredTablesGenerate | src/backend/app/services/config_generator.py:78-194 | generation over stored tables succeeds iff each active vhost's policy is active, no binding of another path disagrees, each route's own characters, limits and countries can be written, each custom rule of a policy in use has a positive id, plain variables and quotable texts, and the log level is known |
| Stats.EveryEventHasASlot | src/backend/app/services/stats_service.py:118-136 | every event of the window, with fractional bounds and before 1970 too, has a bucket: none is discarded as negative |
| Stats.WindowsAreAsNamed | src/backend/app/services/stats_service.py:57-62 | 1h, 24h, 7d and 30d span what they say, in 12, 24, 28 and 30 bars |
| Stats.ClampedOnlyInTheLastSecond | src/backend/app/services/stats_service.py:280-286 | an event is clamped into the last bucket iff it falls in the window's final, partial second |
| Stats.SlotIsWhereItHappened | src/backend/app/services/stats_service.py:288-291 | the bucket an event is counted in begins and ends within a second of when it happened |
| Stats.FlooringWouldDrop | src/backend/app/services/stats_service.py:118-132 | dividing with floor instead would discard exactly the events of the first partial second of a window starting before 1970 |
| Stats.SumOfRowsCountsEvents | src/backend/app/services/stats_service.py:269-274 | adding up grouped rows, in any order, counts the events behind them |
| Stats.ChartLosesNothing | src/backend/app/services/stats_service.py:254-291 | buckets that hold their slots' events hold, together, each action's events of the window |
| Stats.Timeseries | src/backend/app/services/stats_service.py:254-291 | each bucket counts exactly the events of its slot by action, bucket times are evenly spaced, and per-action sums are the window's counts |
| Stats.Overview | src/backend/app/services/stats_service.py:156-194 | each counter is its count over the window and over the window before it |
| Stats.ChartAddsUpToOverview | src/backend/app/services/stats_service.py:148-291 | the chart's bars add up to the overview's counters for the same moment |

## Left out

- ApplySafety.EveryNameIsLoaded: assumes what the source's comment assumes: Coraza starts no load between the swap and a successful HAProxy reload of a drop-only release and does not refuse it afterwards, HAProxy's reload from a bridge succeeds if reached, and no name is acknowledged while a load of a release that lacks one is under way; ApplyRisk.SafeIffNothingAtRisk drops these assumptions.
- ApplyRisk.SafeIffNothingAtRisk: takes the digest of a release's Coraza files to differ whenever its applications differ, one load of Coraza to end before the next begins, and a restart of Coraza, which switching to or from the fallback configuration needs, to serve without a gap.
- ConfigApply.Runtime.ApplyLocked: errors of the symlink swap itself, partial directories after a failed write, certificates and the wait for the stick-table handover are not modelled; a reload that fails is taken to leave HAProxy on its old config.
- ConfigApply.Runtime.WaitForCorazaApps: the agent answers for an application only while it is loaded, and no timeout strikes inside a frame; timeouts may strike at any other moment.
- CorazaProbe.NamesLeaveOnlyAcknowledged: says nothing about attempts with a timeout inside a frame, for which it fails.
- Networks.CollapseAddresses: stands for the library function; it merges siblings bit prefix by bit prefix and is proved to give maximal blocks of the same addresses.
- LogShipper.Shipper.PollOnce: a renamed file is complete once it is drained; a file truncated and refilled past the saved offset, a reused inode, a path that goes back to an earlier file, and a rotation between the stat and the open of one round are excluded; a truncated file counts as a new log.
- LogShipper.Shipper.ShipLine: what makes a line unshippable (decoding, JSON, mapping) is a parameter; a dead letter is an attempt to append, which the source does not check.
- LogShipper.Shipper.LoadState: reading the state file back after a failed write is taken to succeed; in the source a file that cannot be read then counts as offset 0.
- TuningRules.ConfidenceIsAPercentage: exact arithmetic instead of floating-point rounding of the isolated share.
- ReleaseFiles.ReadBackChecksum: a checksum is the text that is hashed; collisions of SHA-256 and ambiguity of the concatenation are out of scope.
- GeneratorOrder.OrderDoesNotMatter: which error message a failing generation gives may depend on row order and is not modelled; rows without a persisted id are not either.
- VHostRendering.StoredVhostHasRoute: URL parsing is a parameter that yields an address or none.
- VHostService.Service.UpdateVhost: request coercions, Unicode white space, certificate parsing and the exception a duplicate domain surfaces as are left out; a certificate from Let's Encrypt is an input.
- Stats.Timeseries: epoch seconds are exact integers, not floats; the database's grouping is an input that is what GROUP BY returns.
- Sockets, subprocesses, fsync, TLS, certbot, downloads and the MMDB reader are outcomes or input sequences.
- Jinja templates, SQLAlchemy and Pydantic: rendering is a parameter, tables are maps and sequences with their unique constraints.
- Seeding the runtime directory at startup, which happens outside the apply lock.
- Rows written before the service's rules existed.
- Frontend, authentication, rate limiting, migrations, log redaction, severity classification, plain CRUD routers and the user commands.
