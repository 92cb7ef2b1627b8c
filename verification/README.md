# AWS resource reconcilers: a Dafny model

This project models the algorithms and call protocols inside a library of AWS resource
reconcilers, and proves what they are for. `dafny verify dfyconfig.toml` checks all of it.

Services are modelled as adversaries: a class whose methods may answer anything, or a stream of
observations that is arbitrary. A call that fails changes nothing at the service. Time is a
monotone clock in milliseconds on which a sleep takes at least as long as asked, time may pass
during any call, and a sleep may be cut short by its context; the clock records every sleep asked
of it. "Changed" means unequal as values. Where the Go code ranges over a map, the model chooses
the next key arbitrarily.

## The parts

- **Dashboard bodies** (`Decimals`, `JsonNumber`, `DashboardJson`, `Dashboard`). JSON numbers are
  given by the grammar of section 6 of RFC 8259 and denote rationals; the normal form of a number
  keeps its rational and is the only normal form of it. The comparison of decoded bodies decides
  equality of meaning. Bodies of equal meaning are not written, and over any run of applies the
  stored body still means the last desired one.
- **Trail selectors and insights** (`TrailSelectors`, `TrailCoverage`, `TrailStaging`,
  `TrailRuns`, `TrailCourses`, `TrailValidation`, `TrailSatisfiable`). What a trail admits is
  defined by the events its selectors let through, an event having one value for each field. The
  code reckons a coverage from the
  configuration. For standard selectors it is exactly the classes of event admitted; for advanced
  ones it covers them, and is exact for the selectors that do not contradict themselves. An update
  makes its calls in one of three orders. Wherever it is cut short, and however often it is made
  again, the trail's selectors support the insights it runs. Over whole runs that holds on an exact
  condition on the configurations. The staging theorems speak of the reckoned coverage, so they
  hold for every list, contradictory ones included; what they say of events follows from soundness
  in one direction only, and in both where no selector contradicts itself
  (`TrailRuns.EventsSupportInsightsOverEveryRun`).
- **Deleting a distribution** (`DistributionTrace`, `DistributionDelete`). The trace of calls and
  answers is safe whatever CloudFront answers, and every ending is explained by the trace.
- **Waits and retries** (`Clock`, `Waiting`, `UserPoolRetry`, `DomainWaits`). Loops over arbitrary
  observations: they stop at the first decisive one, and their number of calls, their sleeps and
  their start times are bounded.
- **User pools** (`UserPoolMatching`, `UserPoolSchema`, `TokenUnits`). Greedy matching decides
  equality of multisets; schemas only grow; the unit a token's lifetime is stored in is the
  declared one or the default, whatever the service does with an omitted unit.
- **Setting to desired** (`TagSync`, `StageModel`, `StageUpdate`, `StageReconcile`). Sequences
  of partial writes against a service of maps end in the desired state.
- **Canonical lists and names** (`StringOrder`, `StringSets`, `ServiceNames`). Lists that stand for
  sets, one of them compacted inside its own backing array, and service DNS names that round-trip.

## Where the code falls short of a property

- An advanced selector may put contradictory conditions on a field other than the category and
  the read-only flag. The code does not look at those fields and reckons with events that the
  selector never lets through (`TrailValidation.ContradictionIsNotSeen`).
  `TrailCoverage.AdvancedClassIsAdmitted` states when a selector does let an event through, and
  `TrailSatisfiable.TestIsExact` how to tell.
- An update that drops `advanced-event-selectors` and declares no selectors writes an empty
  advanced list, but the next update assumes the default standard selectors
  (`internal/service/cloudtrail/trail_rsrc.go:841-862`). The trail then lags until its selectors
  change. `TrailRuns.EveryCallOfEveryRunIsSafe` proves that the calls of a run are all safe exactly
  when each configuration covers its own insights and none declares an insight that needs events
  while the trail lags; `TrailRuns.DroppingAdvancedSelectorsBreaksTheNextUpdate`
  gives a run in which one does.
- An update that fails after its first calls is harmless when the same update is made again
  (`TrailRuns.RetriedUpdateIsSafe`, `StageReconcile.RetriedUpdateEndsTheSame`,
  `Dashboard.StoredMatchesLastDesired`). A different one from the same prior configuration takes
  for unchanged what the attempt may have replaced. For a trail that is its selectors or its
  insights: `TrailCourses.ChangingCourse` gives the exact condition for every call to be safe and
  for the end to be the desired one, and `TrailCourses.UnchangedSelectorsWereReplaced` and
  `TrailCourses.UnchangedInsightsWereReplaced` are inputs that fail it. For a stage
  `StageReconcile.UpdateFromAnyStage` and `StageReconcile.GoingBackLosesARoute`, for a dashboard
  `Dashboard.UpdateFromAnyStored`, `Dashboard.GoingBackKeepsTheTriedBody` and
  `Dashboard.GoingBackLosesATag` do the same.
- A stage's new route key under which some object is already stored outside the prior
  configuration keeps the stored members that the new entry does not send, when the service merges
  route objects (`StageReconcile.ForeignMemberLingers`), and an empty desired stage variable cannot
  be set, as the source documents (`StageReconcile.EmptyVariableIsNotSet`).
  `StageReconcile.UpdateSetsTheStage` proves that nothing else stands in the way.
- Printing a service name and parsing it gives the service back only for the names described by
  `ServiceNames.Printable`; `ServiceNames.PrintThenParse` proves that condition exact, and
  `ServiceNames.DottedServiceIdIsMisread` shows what becomes of a dotted service id.

## Model

| member | source | states |
|---|---|---|
| `JsonNumber.NormalizeDashboardJsonNumber` | internal/service/cloudwatch/dashboard_rsrc.go:474-510 | every JSON number is accepted, its normal form is canonical and denotes the same rational; of any text, it is accepted exactly when what follows the exponent marker reads as an integer |
| `JsonNumber.SplitNumber` | internal/service/cloudwatch/dashboard_rsrc.go:474-490 | sign, mantissa and exponent text of a JSON number are those of its parse, with a leading plus dropped |
| `JsonNumber.CanonicalFormIsUnique` | internal/service/cloudwatch/dashboard_rsrc.go:454-472 | two canonical forms are equal if and only if they denote the same rational, for unbounded exponents |
| `JsonNumber.NumberTextIsUnambiguous` | internal/service/cloudwatch/dashboard_rsrc.go:400-411 | a number text has one parse, so the rational it denotes is well defined |
| `JsonNumber.EquivalentDashboardJsonNumber` | internal/service/cloudwatch/dashboard_rsrc.go:460-472 | two number texts are equivalent if and only if they denote the same rational |
| `JsonNumber.PointDropped` | internal/service/cloudwatch/dashboard_rsrc.go:491-495 | removing the decimal point and lowering the exponent by the fraction's length keeps the value |
| `JsonNumber.TrimmedValue` | internal/service/cloudwatch/dashboard_rsrc.go:496-509 | trimming zeros on both sides and raising the exponent by the trailing ones keeps the value and gives a canonical form |
| `JsonNumber.ExponentReads` | internal/service/cloudwatch/dashboard_rsrc.go:481-490 | the exponent text, its leading plus dropped, is read as the exponent of the number, and zero stands for none |
| `JsonNumber.ParseIntegerAccepts` | internal/service/cloudwatch/dashboard_rsrc.go:488-490 | an exponent is digits, at least one, with at most one sign before them |
| `Decimals.DigitsAreNumerals` | internal/service/cloudwatch/dashboard_rsrc.go:488-510 | digits are read in base ten by their places in 0123456789, the last as the units |
| `DashboardJson.EquivalentDashboardJsonValue` | internal/service/cloudwatch/dashboard_rsrc.go:413-452 | two decoded values are equivalent if and only if they denote the same value: numbers as rationals, arrays in order, objects as maps |
| `DashboardJson.EquivalentMembers` | internal/service/cloudwatch/dashboard_rsrc.go:437-448 | equal sizes and inclusion of keys one way decide equality of objects as maps |
| `Dashboard.Library.EquivalentInput` | internal/service/cloudwatch/dashboard_rsrc.go:55-67 | true exactly for the body field when the texts are equal or decode to the same meaning |
| `Dashboard.Create` | internal/service/cloudwatch/dashboard_rsrc.go:195-222 | invalid inputs are refused before any call; success stores the desired body, adds the desired tags and outputs the arn and name; a service error is reported exactly when a call failed, and leaves the old or the new body and the old tags |
| `Dashboard.Update` | internal/service/cloudwatch/dashboard_rsrc.go:247-278 | invalid inputs are refused before any call; the body is written exactly when it does not mean what the prior one meant, changed tags are reconciled unless the arn is unknown, unchanged ones are not written and no tag is before a needed body is, no other dashboard changes; a service error is reported exactly when a call failed, and leaves the old body or a needed new one |
| `Dashboard.PriorOutputMeaning` | internal/service/cloudwatch/dashboard_rsrc.go:338-354 | the observed arn and name are used unless they are empty, then the recorded ones |
| `Dashboard.Library.ValidInputsAreValid` | internal/service/cloudwatch/dashboard_rsrc.go:69-100 | a body that is empty or valid JSON, and no tag key that begins with aws: |
| `Dashboard.StoredMatchesLastDesired` | internal/service/cloudwatch/dashboard_rsrc.go:195-278 | over any run of applies, each repeated after any failures until accepted, the stored body means the last desired body and the user tags are the last desired ones |
| `Dashboard.ChangingCourseAfterFailure` | internal/service/cloudwatch/dashboard_rsrc.go:247-278 | another body after a failed apply ends up stored if and only if the failed one wrote nothing or the new one does not mean what the prior one meant |
| `Dashboard.UpdateFromAnyStored` | internal/service/cloudwatch/dashboard_rsrc.go:247-278 | from whatever was left, an accepted apply ends with the desired body and tags if and only if what it takes for unchanged is so |
| `Dashboard.GoingBackKeepsTheTriedBody` | internal/service/cloudwatch/dashboard_rsrc.go:247-278 | three concrete bodies: going back after a failed apply leaves the body it tried |
| `Dashboard.GoingBackLosesATag` | internal/service/cloudwatch/dashboard_rsrc.go:263-270 | concrete tags: going back after a failed apply leaves a tag removed |
| `TrailSelectors.ExpandEventSelectors` | internal/service/cloudtrail/trail_rsrc.go:759-789 | each written selector carries the declared members and the documented default of each absent one |
| `TrailSelectors.WrittenSelectorAdmits` | internal/service/cloudtrail/trail_rsrc.go:759-789 | event by event, the written selector lets through what the declared members say: read-write type, management flag, excluded sources, each resource's type and values |
| `TrailSelectors.WrittenListAdmits` | internal/service/cloudtrail/trail_rsrc.go:578-598 | the same of the whole list; an empty declaration lets all management events through |
| `TrailCoverage.StandardSelectorCoverage` | internal/service/cloudtrail/trail_rsrc.go:864-882 | the accumulated flags are the join of every selector's coverage, and the default for an empty list |
| `TrailCoverage.StandardCoverageIsExact` | internal/service/cloudtrail/trail_rsrc.go:578-598 | the computed coverage of standard selectors is exactly the classes of event the written list admits, default included |
| `TrailCoverage.ManagementIsAdmitted` | internal/service/cloudtrail/trail_rsrc.go:864-893 | a selector's management flags are set if and only if it admits some management event, excluded sources notwithstanding |
| `TrailCoverage.DataIsAdmitted` | internal/service/cloudtrail/trail_rsrc.go:875-879 | a selector's data flag is set if and only if it admits some data event |
| `TrailCoverage.AdvancedSelectorCoverage` | internal/service/cloudtrail/trail_rsrc.go:895-909 | the accumulated flags are the join of every advanced selector's flags |
| `TrailCoverage.AdvancedClassIsAdmitted` | internal/service/cloudtrail/trail_rsrc.go:895-922 | an advanced selector admits some event of a category and read-only value if and only if both fields allow it and every other field it names has a value that all its selectors on that field allow |
| `TrailCoverage.OperatorsAgree` | internal/service/cloudtrail/trail_rsrc.go:924-952 | a field selector allows a value exactly when every operator present holds of it |
| `TrailCoverage.AdvancedCoverageIsSound` | internal/service/cloudtrail/trail_rsrc.go:895-948 | for every list a class of event that is admitted has its flag set, and no other flag is set when no selector contradicts itself |
| `TrailCoverage.AdvancedCoverageIsExact` | internal/service/cloudtrail/trail_rsrc.go:895-948 | a list admits exactly the classes of event the code computes for those of its selectors that do not contradict themselves |
| `TrailCoverage.ReckonedIsSound` | internal/service/cloudtrail/trail_rsrc.go:841-922 | the same for a stored list of either kind |
| `TrailSatisfiable.TestIsExact` | internal/service/cloudtrail/trail_rsrc.go:895-948 | with at most 500 operator values, as validation demands, a finite test over a selector's own values decides whether its conditions on other fields can be met |
| `TrailSatisfiable.AcceptedListIsTested` | internal/service/cloudtrail/trail_rsrc.go:895-1057 | so for an accepted list it can be tested that no selector contradicts itself |
| `TrailStaging.ConfiguredSelectorCoverage` | internal/service/cloudtrail/trail_rsrc.go:841-849 | the coverage of the list that a completed create of the configuration leaves |
| `TrailStaging.DesiredSelectorCoverage` | internal/service/cloudtrail/trail_rsrc.go:851-862 | the coverage of the list the update actually writes, for every pair of configurations |
| `TrailStaging.PredictionIsExact` | internal/service/cloudtrail/trail_rsrc.go:616-629 | for every pair of configurations the events that the written list admits are within the prediction, and are exactly it when no selector contradicts itself |
| `TrailStaging.PredictionStaysTrueUnlessDropped` | internal/service/cloudtrail/trail_rsrc.go:841-862 | what an update wrote is what the next one assumes, if and only if it did not drop advanced selectors |
| `TrailStaging.SupportIsByEvents` | internal/service/cloudtrail/trail_rsrc.go:954-980 | coverage supports insights if and only if the admitted events do: writes for API call rates, some management event for any other insight on management events, some data event for data, nothing for another category |
| `TrailStaging.UpdateSends` | internal/service/cloudtrail/trail_rsrc.go:655-695 | selectors are sent if and only if their declaration changed, insights if and only if theirs did |
| `TrailStaging.PutDesiredEventSelectors` | internal/service/cloudtrail/trail_rsrc.go:616-629 | exactly one call, with the standard list, the advanced list or the default |
| `TrailStaging.WriteStandardSelectors` | internal/service/cloudtrail/trail_rsrc.go:578-598 | exactly one call, with the expanded list or the default selector in place of an empty one |
| `TrailStaging.WriteAdvancedSelectors` | internal/service/cloudtrail/trail_rsrc.go:600-614 | exactly one call, with the declared advanced list |
| `TrailStaging.CreateSelectorsAndInsights` | internal/service/cloudtrail/trail_rsrc.go:367-381 | the accepted calls are the first ones of the create plan, all of them exactly when no call failed |
| `TrailStaging.UpdateSelectorsAndInsights` | internal/service/cloudtrail/trail_rsrc.go:655-695 | the accepted calls are the first ones of the update plan, all of them exactly when no call failed |
| `TrailStaging.StageBoth` | internal/service/cloudtrail/trail_rsrc.go:674-695 | when both change, the accepted calls follow the one of three orders that the coverages select |
| `TrailRuns.UpdateFromAnyState` | internal/service/cloudtrail/trail_rsrc.go:655-695 | from any stored selectors and insights, every call of an update is safe if and only if they fit together and each list put or left in place supports the insights beside it, order by order; what the update leaves |
| `TrailRuns.EveryCallKeepsInsightsSupported` | internal/service/cloudtrail/trail_rsrc.go:655-695 | wherever an update is cut short, the stored selectors support the stored insights |
| `TrailRuns.CompletedUpdateIsDesired` | internal/service/cloudtrail/trail_rsrc.go:655-695 | a completed update stores the desired insights and selectors, and keeps the coverage assumption if and only if it did not drop advanced selectors |
| `TrailRuns.CreateIsSafe` | internal/service/cloudtrail/trail_rsrc.go:367-381 | the same after every call of a create, which leaves the list that later updates assume |
| `TrailRuns.RetriedUpdateIsSafe` | internal/service/cloudtrail/trail_rsrc.go:655-695 | any number of attempts at one update that are cut short, then a completed one: every call is safe and the end is that of one undisturbed update |
| `TrailRuns.EveryCallOfEveryRunIsSafe` | internal/service/cloudtrail/trail_rsrc.go:341-473 | over every run of a create and updates with cut-short attempts, the selectors support the insights after every call if and only if each configuration covers its own insights and none declares an insight that needs events while the trail lags behind a drop of advanced selectors |
| `TrailRuns.EventsSupportInsightsOverEveryRun` | internal/service/cloudtrail/trail_rsrc.go:341-473 | the same of the events the trail admits, when no selector contradicts itself |
| `TrailRuns.DroppingAdvancedSelectorsBreaksTheNextUpdate` | internal/service/cloudtrail/trail_rsrc.go:841-862 | a run of three valid configurations, each covering its own insights, with a call after which an insight is not supported |
| `TrailCourses.ChangingCourse` | internal/service/cloudtrail/trail_rsrc.go:655-695 | attempts at one update, then another from the same prior: every call is safe if and only if the attempts were and each list that the other update puts, or leaves from the attempts, supports the insights beside it; the end is as without attempts if and only if they touched nothing that the other update does not send |
| `TrailCourses.UnchangedSelectorsWereReplaced` | internal/service/cloudtrail/trail_rsrc.go:655-695 | concrete configurations, each covering its own insights, where the other update relies on selectors that the attempt replaced |
| `TrailCourses.UnchangedInsightsWereReplaced` | internal/service/cloudtrail/trail_rsrc.go:655-695 | concrete configurations where it relies on insights that the attempt replaced, no selector having changed yet |
| `TrailValidation.ValidateAdvancedEventSelectors` | internal/service/cloudtrail/trail_rsrc.go:1026-1057 | accepted if and only if every selector is valid and the operators hold at most 500 values; then the events each selector lets through are of one category |
| `TrailValidation.ValidateAdvancedFieldValues` | internal/service/cloudtrail/trail_rsrc.go:1075-1101 | accepted if and only if an operator is present and each has one or more distinct values of valid length; the count is their number |
| `TrailValidation.OperatorsAreMembers` | internal/service/cloudtrail/trail_rsrc.go:1064-1073 | the six operators are the six members of a field selector, for validity and for the count |
| `TrailValidation.UsesOnlyMeaning` | internal/service/cloudtrail/trail_rsrc.go:1214-1221 | which members must be absent for a field to use only equals, or only equals and not-equals |
| `TrailValidation.AdvancedSelectorCategory` | internal/service/cloudtrail/trail_rsrc.go:1103-1129 | a category is found if and only if exactly one field fixes it by one equals value |
| `TrailValidation.ValidateAdvancedSelectorFields` | internal/service/cloudtrail/trail_rsrc.go:1131-1212 | accepted if and only if every field fits the category and the required fields are there |
| `TrailValidation.AllowedIsByField` | internal/service/cloudtrail/trail_rsrc.go:1161-1176 | for each field, the categories that allow it |
| `TrailValidation.ValidateAdvancedFieldOperators` | internal/service/cloudtrail/trail_rsrc.go:1178-1212 | for each field, the operators and values it may use |
| `TrailValidation.UniqueStrings` | internal/service/cloudtrail/trail_rsrc.go:1328-1337 | true if and only if no string repeats |
| `TrailValidation.ValidSelectorAdmitsOneCategory` | internal/service/cloudtrail/trail_rsrc.go:895-1129 | the events a valid selector lets through are all of one category, whose coverage alone it feeds; a selector for network activity feeds none |
| `TrailValidation.DataAndManagementComeApart` | internal/service/cloudtrail/trail_rsrc.go:895-1129 | in an accepted list data and management coverage come from different selectors |
| `TrailValidation.ContradictionIsNotSeen` | internal/service/cloudtrail/trail_rsrc.go:895-922 | a valid selector whose conditions on another field contradict each other has both management flags set and admits no event |
| `DistributionTrace.SafeMeaning` | internal/service/cloudfront/distribution_lifecycle.go:98-218 | a trace is safe if and only if each update and delete was allowed after the events before it |
| `DistributionTrace.AfterAnError` | internal/service/cloudfront/distribution_lifecycle.go:68-266 | in a safe trace a stale token or a missing log bucket is followed by a read of the distribution, an answer that it is not disabled by another disable step, one that it is missing by a last poll, and any other error by nothing |
| `DistributionDelete.Delete` | internal/service/cloudfront/distribution_lifecycle.go:68-88 | against any answers to its own client the trace is safe, success means the last answer was NoSuchDistribution after a delete was accepted or not needed, that answer is never an error, and every error is explained and has nothing left to try |
| `DistributionDelete.DisableDistribution` | internal/service/cloudfront/distribution_lifecycle.go:98-133 | success means a nil or disabled configuration was read, or an accepted disabling update was followed by a Deployed observation |
| `DistributionDelete.DisableEnabled` | internal/service/cloudfront/distribution_lifecycle.go:114-132 | the same for an enabled configuration |
| `DistributionDelete.SettleAndRead` | internal/service/cloudfront/distribution_lifecycle.go:114-126 | the update follows a Deployed observation and carries the token read right before it |
| `DistributionDelete.ApplyDisable` | internal/service/cloudfront/distribution_lifecycle.go:138-171 | sends the live configuration with only the enabled flag changed; success means it was accepted |
| `DistributionDelete.ApplyWithoutLogging` | internal/service/cloudfront/distribution_lifecycle.go:151-166 | after a refusal for a missing log bucket, logging alone is nulled and a fresh token is used |
| `DistributionDelete.AttemptDelete` | internal/service/cloudfront/distribution_lifecycle.go:200-218 | one read and one delete that carries its token; a missing distribution is success, any other error is the last answer |
| `DistributionDelete.DeleteOnce` | internal/service/cloudfront/distribution_lifecycle.go:200-218 | every delete carries the token read right before it and follows the disable step; only a stale token is tried again, every five seconds and at most 14 times, and returned only after a minute |
| `DistributionDelete.RetryDelete` | internal/service/cloudfront/distribution_lifecycle.go:178-194 | each delete follows a disable step of its own attempt; only a not-disabled answer is tried again, at most 38 attempts, and returned only after three minutes |
| `DistributionDelete.WaitDistributionDeployed` | internal/service/cloudfront/distribution_lifecycle.go:224-244 | only polls, every thirty seconds and at most 182 times; ends with the first poll that fails or sees Deployed |
| `DistributionDelete.WaitDistributionDeleted` | internal/service/cloudfront/distribution_lifecycle.go:249-266 | only polls, every fifteen seconds and at most 362 times; ends with the first poll that fails, in success if it found nothing |
| `DistributionDelete.DistributionETag` | internal/service/cloudfront/distribution_lifecycle.go:270-280 | one read, whose token is the one returned |
| `Waiting.Until` | internal/wait/wait.go:106-137 | success exactly at the first long enough run of ready probes, an error at the first probe error, otherwise a timeout past the deadline, within timeout/interval + 2 probes, with one interval asked of the clock between two probes |
| `Waiting.ReadyRunMeaning` | internal/wait/wait.go:113-127 | the run counter reaches k if and only if the last k observations were all ready |
| `Waiting.OnError` | internal/retry/retry.go:66-87 | returns the last attempt's result after only retryable failures; a retryable one only past the deadline; at most timeout/interval + 2 attempts, one interval apart |
| `UserPoolRetry.RetryUserPoolWhen` | internal/service/cognitoidp/user_pool_retry.go:40-66 | at most 16 calls and two minutes of sleep, the sleeps asked of the clock are the doubling delays with only the last one cut, later calls start before the deadline, the last call's own error is returned |
| `UserPoolRetry.FullDelaysThatFit` | internal/service/cognitoidp/user_pool_retry.go:46-64 | n full delays fit before the deadline if and only if n is at most 15 |
| `DomainWaits.WaitUserPoolDomain` | internal/service/cognitoidp/user_pool_domain_rsrc.go:332-376 | stops at the first decisive observation with what it decides; times out only at the deadline; the sleeps asked of the clock double up to ten seconds and none would pass the deadline; the full delays before the last read fit in the timeout, which allows one read for each ten seconds and eight more |
| `DomainWaits.Decide` | internal/service/cognitoidp/user_pool_domain_rsrc.go:343-365 | one turn of the loop decides by its counter what the last observations decide |
| `DomainWaits.AbsentRunMeaning` | internal/service/cognitoidp/user_pool_domain_rsrc.go:343-356 | the absence counter exceeds the limit if and only if the last 21 observations were all missing |
| `DomainWaits.WaitUserPoolDomainActive` | internal/service/cognitoidp/user_pool_domain_rsrc.go:294-305 | success exactly on ACTIVE, a status error exactly on one that is neither that nor CREATING nor UPDATING, a read error exactly on a failed describe, absence exactly after 21 responses without a domain |
| `DomainWaits.WaitUserPoolDomainUpdateActive` | internal/service/cognitoidp/user_pool_domain_rsrc.go:307-317 | the same with UPDATING alone pending |
| `DomainWaits.WaitUserPoolDomainAbsent` | internal/service/cognitoidp/user_pool_domain_rsrc.go:319-330 | success exactly on the first response without a domain, a status error exactly on one that is neither UPDATING nor DELETING |
| `DomainWaits.WaitDomainNameAvailable` | internal/service/apigatewayv2/domain_name_rsrc.go:463-513 | stops at the first decisive response; gives up on visibility only after 21 misses in a row; a timeout reports the last configuration seen; one interval between reads, of which there are at most timeout/interval + 2 |
| `DomainWaits.DecideName` | internal/service/apigatewayv2/domain_name_rsrc.go:474-503 | one turn of the loop decides by its counter what the last responses decide |
| `UserPoolMatching.UnorderedSliceEqual` | internal/service/cognitoidp/user_pool_rsrc.go:74-94 | true if and only if both are nil or both not, and they are equal as multisets |
| `UserPoolMatching.MarkFirst` | internal/service/cognitoidp/user_pool_rsrc.go:80-88 | marks one unmarked equal element, or there is none |
| `UserPoolMatching.OptionalUnorderedSliceEqual` | internal/service/cognitoidp/user_pool_rsrc.go:64-72 | the same with absence of the whole field |
| `UserPoolSchema.SchemaAdditions` | internal/service/cognitoidp/user_pool_rsrc.go:514-551 | for any two lists: accepted if and only if each prior name stands for the same attribute, the capacity is not negative and no standard attribute is added; the result is the new attributes in order and an error names a real problem; with distinct names the capacity is never negative |
| `UserPoolSchema.KeptAttributesFit` | internal/service/cognitoidp/user_pool_rsrc.go:538 | the capacity of the result is not negative when it is computed |
| `UserPoolSchema.KeepsByName` | internal/service/cognitoidp/user_pool_rsrc.go:518-537 | with distinct names the comparison by name keeps every attribute, and only then succeeds |
| `UserPoolSchema.RepeatedNamesOverrunCapacity` | internal/service/cognitoidp/user_pool_rsrc.go:538 | with repeated names, which validation refuses, the capacity can be negative |
| `UserPoolSchema.AcceptedIsPriorPlusAdditions` | internal/service/cognitoidp/user_pool_rsrc.go:514-551 | an accepted schema is exactly the prior one and the additions |
| `UserPoolSchema.AcceptedSchemaIsComplete` | internal/service/cognitoidp/user_pool_rsrc.go:514-551 | validated schemas are accepted if and only if every prior attribute is kept and no standard one is added |
| `UserPoolSchema.SchemasOnlyGrow` | internal/service/cognitoidp/user_pool_rsrc.go:505-551 | over any run of accepted updates the created schema and all additions sent are exactly the last schema, which holds every earlier one unchanged |
| `UserPoolSchema.ValidateUpdate` | internal/service/cognitoidp/user_pool_rsrc.go:505-512 | dropping the SMS configuration is refused; otherwise the schemas are compared, accepted and refused as above |
| `TokenUnits.UpdateClientValidityUnits` | internal/service/cognitoidp/user_pool_client_convert.go:117-150 | a unit no longer declared is sent as its default, a declared one as declared, others are omitted |
| `TokenUnits.UnitsMatchAfterEveryRun` | internal/service/cognitoidp/user_pool_client_convert.go:104-150 | after every create and updates the stored units are the declared ones or the defaults, whatever the service does with an omitted unit |
| `TokenUnits.NoOverflow` | internal/service/cognitoidp/user_pool_client_validation.go:143-172 | after the range checks the seconds fit in 64 bits |
| `TokenUnits.SecondsAreLifetime` | internal/service/cognitoidp/user_pool_client_validation.go:143-172 | the 64-bit seconds are the value times the seconds of its unit, with the defaults of one hour and thirty days |
| `TokenUnits.ValidateUserPoolClientTokens` | internal/service/cognitoidp/user_pool_client_validation.go:65-141 | valid exactly when no check fails; the error is the first check that does |
| `TokenUnits.LifetimesAfterEveryRun` | internal/service/cognitoidp/user_pool_client_validation.go:65-172 | after every run each lifetime is at the service what validation took it to be, and access and id tokens do not outlive refresh tokens: every lifetime where the service resets an omitted one, each declared one where it keeps it |
| `TagSync.Diff` | internal/tagsync/tagsync.go:24-44 | the upserts are the desired user tags that are absent or differ, the removals the sorted user keys not desired |
| `TagSync.Sync` | internal/tagsync/tagsync.go:52-75 | it succeeds exactly when no call failed and leaves exactly the reconciled tags, the count never exceeds the larger of first and last, a reconciled resource is not written to |
| `TagSync.ReservedKeys` | internal/tagsync/tagsync.go:16-24 | reserved are the keys that begin with aws: |
| `TagSync.Apply` | internal/tagsync/tagsync.go:64-74 | removals come before writes and each is skipped when empty |
| `TagSync.DiffReconciles` | internal/tagsync/tagsync.go:24-75 | removing and then writing is the reconciliation |
| `TagSync.DiffIsEmpty` | internal/tagsync/tagsync.go:24-44 | a reconciled resource has an empty diff |
| `TagSync.ReconciledMeaning` | internal/tagsync/tagsync.go:16-24 | reserved tags are untouched, user tags are exactly the desired ones, reconciling again changes nothing |
| `StageUpdate.StageRouteSettingsMap` | internal/service/apigatewayv2/stage_route_settings.go:104-115 | a map that holds each entry under its key, or a refusal if and only if a key repeats |
| `StageModel.ExpandHolds` | internal/service/apigatewayv2/stage_route_settings.go:85-99 | an object is what is sent for an entry if and only if it holds it member by member: both flags, false when absent, data trace and level on WebSocket APIs only, the burst limit as 32 bits, the rate |
| `StageUpdate.StageDeleteRouteSettings` | internal/service/apigatewayv2/stage_route_settings.go:123-148 | success removes exactly the keys of removed or changed entries |
| `StageUpdate.StageVariablesPatch` | internal/service/apigatewayv2/stage_rsrc.go:459-468 | the desired values and an empty one for each dropped key |
| `StageUpdate.UpdateStage` | internal/service/apigatewayv2/stage_rsrc.go:289-373 | an unread API or a duplicate key ends it before any change; success is the deletes followed by one request of the changed members, and nothing is sent when nothing changed; a service error means that one call failed and leaves some of the deletes, in order, and nothing else |
| `StageUpdate.ClearRemoved` | internal/service/apigatewayv2/stage_rsrc.go:304-317 | dropped access logging and changed route keys are deleted first |
| `StageUpdate.SendChanges` | internal/service/apigatewayv2/stage_rsrc.go:318-372 | one request with the changed members, none when nothing changed |
| `StageReconcile.UpdateSetsTheStage` | internal/service/apigatewayv2/stage_rsrc.go:289-373 | a stage that held the prior configuration holds the desired one, whether objects are merged or replaced, if and only if no object stored under a new key has a member the new entry leaves out and no changed variable is empty |
| `StageReconcile.MergeGivesEntry` | internal/service/apigatewayv2/stage_route_settings.go:85-99 | merging an entry over a stored object gives the entry if and only if, member by member, the object has nothing the entry leaves out |
| `StageReconcile.UpdateFromAnyStage` | internal/service/apigatewayv2/stage_rsrc.go:289-373 | whatever stage an update finds, it holds the desired configuration afterwards if and only if each member that is not sent was as desired, no object that is not deleted has a member its entry leaves out, and no changed variable is empty |
| `StageReconcile.RetriedUpdateEndsTheSame` | internal/service/apigatewayv2/stage_rsrc.go:289-373 | however often an update fails, among its deletes or after its request, made again it ends as if it had not failed |
| `StageReconcile.GoingBackLosesARoute` | internal/service/apigatewayv2/stage_rsrc.go:304-317 | a concrete change of a route that fails after the delete: going back to the prior configuration sends nothing and the route stays lost |
| `StageReconcile.ForeignMemberLingers` | internal/service/apigatewayv2/stage_rsrc.go:289-373 | a concrete stage and entry: a stored burst limit outlives the update |
| `StageReconcile.EmptyVariableIsNotSet` | internal/service/apigatewayv2/stage_rsrc.go:454-468 | a concrete desired variable that is empty and not there after the update |
| `StageReconcile.UpdateLeavesTheRest` | internal/service/apigatewayv2/stage_rsrc.go:289-373 | dropped keys are gone and keys in neither configuration are as before |
| `StringSets.StableOriginRequestPolicyItems` | internal/service/cloudfront/origin_request_policy_data_dsrc.go:344-357 | the strictly increasing list of the input's set |
| `StringSets.CompactInPlace` | internal/service/cloudfront/origin_request_policy_data_dsrc.go:349-355 | compaction inside the one backing array keeps each first occurrence; writes never overtake reads |
| `StringSets.AuthorizerStringSet` | internal/service/apigatewayv2/authorizer_rsrc.go:439-453 | the strictly increasing list of the non-empty strings |
| `StringSets.AuthorizerStringSetChanged` | internal/service/apigatewayv2/authorizer_rsrc.go:415-417 | changed if and only if the sets of non-empty strings differ |
| `StringSets.NormalizedEmitSystemFields` | internal/service/cloudwatchlogs/subscription_filter_rsrc.go:351-366 | the strictly increasing list of the input's set |
| `StringSets.SameStringSet` | internal/service/cloudwatchlogs/subscription_filter_rsrc.go:368-370 | same if and only if the sets are equal |
| `StringOrder.IncreasingListIsUnique` | internal/service/cloudwatchlogs/subscription_filter_rsrc.go:351-370 | a strictly increasing list is determined by its set |
| `StringOrder.LessMeaning` | internal/service/cloudwatchlogs/subscription_filter_rsrc.go:364-364 | the first difference decides the order, and a proper prefix comes first |
| `ServiceNames.ReverseInPlace` | internal/meta/service_dsrc.go:162-166 | the array holds its reversal |
| `ServiceNames.ParseServiceDnsName` | internal/meta/service_dsrc.go:140-144 | the forward name is parsed as the reversal of its lower-case labels |
| `ServiceNames.DnsName` | internal/meta/helpers.go:131-135 | the forward name is the lower-case label reversal |
| `ServiceNames.ReverseDnsPrefix` | internal/meta/helpers.go:121-125 | the labels of the prefix are the suffix's labels reversed |
| `ServiceNames.LowerIsAscii` | internal/meta/service_dsrc.go:140-148 | capitals become small letters and other characters stay |
| `ServiceNames.ParseThenPrint` | internal/meta/service_dsrc.go:127-160 | a name parses if and only if it has four labels or more, and printing gives its lower-case form, forward and reverse |
| `ServiceNames.PrintThenParse` | internal/meta/service_dsrc.go:127-160 | printing and parsing, in reverse and in forward form, give the service back if and only if its fields are lower case, region and service are dot-free and the prefix has two labels |
| `ServiceNames.DottedServiceIdIsMisread` | internal/meta/service_dsrc.go:127-160 | a service id with a dot is read back with its head as the region and the region in the prefix |
| `ServiceNames.DottedServiceIdExample` | internal/meta/service_dsrc.go:127-160 | a concrete service that is not printable, and what it is read back as |
| `ServiceNames.ResolvedService.Merge` | internal/meta/service_dsrc.go:111-125 | a parsed name is taken over unless it contradicts a name given before |

## Left out

- The AWS SDK, credentials, contexts and HTTP: calls are arbitrary answers, a context only cuts a sleep short.
- The JSON decoder is a parameter that yields well-formed values; encoding/json is not part of this model.
- Name, tag, ARN and other pattern checks: one predicate stands for those of a dashboard.
- Dashboard.StoredMatchesLastDesired: without outside writes, and with the prior of an apply being the last accepted one.
- TrailCoverage.AdvancedCoverageIsExact: an event has one text for each field, the empty one where it has none; fields with several values, such as the resources of one event, are not part of this model.
- TrailRuns.EveryCallOfEveryRunIsSafe: the prior of an update is the last completed one, and a create is one completed attempt.
- Trail logging, aggregation configurations, tags and direct inputs: each is one call that does not touch selectors or insights.
- DistributionDelete.Delete: a nil response body beside a nil error, and a distribution read whose version token changes between the read and the write, are just further answers; no claim is made about other writers.
- DistributionDelete.ApplyDisable: the settings that a delete leaves alone are one opaque member.
- Waiting.Until: requires a positive interval, as every caller passes; the shared loops are also written out inside the CloudFront waits, whose probes make calls.
- UserPoolRetry.RetryUserPoolWhen: the retryable errors are a parameter; the message checks that classify them are not part of this model.
- UserPoolMatching.UnorderedSliceEqual: element equality is value equality, so floating-point NaN and function values, which no element type here holds, are not covered.
- UserPoolSchema.SchemaAdditions: the standard attribute names are a parameter; the panic on a negative capacity is one more error.
- TokenUnits.LifetimesAfterEveryRun: of a service that keeps an omitted lifetime nothing is claimed about that lifetime; a lifetime never declared has the service's default whatever its unit.
- Tags and outputs of a stage: one call each. The service is taken to keep the default logging level until another is sent, as the source documents, and to reset the other default members.
- StageUpdate.UpdateStage: conflict retries around each call are one call with an arbitrary answer.
- ServiceNames.ParseThenPrint: lower case is ASCII lower case; region lookup and partition support come from endpoint tables that are not part of this model.
- Strings are sequences of characters, so orders and lengths are by character where Go compares bytes and counts runes.
- Error texts, random names and timestamps.
