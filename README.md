# fraud-shield, modelled in Dafny

fraud-shield is an Angular application for insurance claims. Administrators upload
spreadsheets of claims. Each new claim is then:

- scored for risk per policy holder, from fraud history and claim frequency;
- moved to Approved (LOW or MEDIUM risk) or Fraud Detected (HIGH risk) by that score;
- checked against two configurable fraud rules: an amount threshold and a list of blocked
  hospitals.

A claim that violates a rule is also marked "Fraud Detected". A HIGH score opens an
investigation case. Administrators assign cases to investigators. Investigators submit their
findings, and the findings settle the claim. Route guards keep each role on its own pages.

The Dafny project models that core as one module per source file:

| module | file | models |
|---|---|---|
| `Model` | model.dfy | the records (Claim, Case, FraudRule, RiskScore, RuleViolation, User) and the status, case-status, risk-level, role and route constants |
| `PatternAnalysis` | pattern_analysis.dfy | the risk scorer: fraud-history points, claim-frequency points, score and risk level per holder, and the scoring loop |
| `FraudRules` | fraud_rules.dfy | the two rule checks, the violations they record, and the in-place marking of violating claims |
| `Claims` | claims.dfy | row normalisation, row-to-claim mapping, duplicate removal, the score-to-status mapping, the status update and the counters |
| `ExcelDate` | excel_date.dfy | the Excel serial-date conversion, over a proleptic Gregorian calendar of ECMAScript time values |
| `Cases` | cases.dfy | case ids, opening cases for high-risk scores, assignment, investigation results and the case update |
| `Users` | users.dfy | user loading, credential lookup, the investigator list and deletion by email |
| `InvestigatorAssignments` | investigator_service.dfy | the cases assigned to the signed-in investigator |
| `Report` | report.dfy | the report counts, the monthly histogram, its axis maximum and the getMostFrequent helper over a list of strings |
| `Dashboard` | dashboard.dfy | the claim search and status filter |
| `InvestigatorView` | investigator_view.dfy | the investigator's case list, its counters, its filter and the submission form |
| `CasesView` | cases_view.dfy | the administrator's case-editing form |
| `Login` | login.dfy | the password pattern, the role-based redirect and the login submission |
| `AdminGuard`, `InvestigatorGuard` | admin_guard.dfy, investigator_guard.dfy | the two route guards |
| `Wrappers`, `Seqs`, `Text` | wrappers.dfy, seqs.dfy, text.dfy | Option, sequence filters and subsequences, and the ECMAScript string operations the code uses (trim, ASCII toLowerCase, includes, decimal rendering) |

Services and components whose fields the source updates are Dafny classes. Their methods
`modify` those fields and state the new state. Pure computations are functions, and lemmas
state what those functions mean. The loops in the source stay loops:

- the scoring loop of analyzePatterns;
- the row normalisation;
- duplicate removal;
- the opening of cases;
- the status update over the claims array;
- the counting loop of the getMostFrequent helper over a list of strings.

HTTP replies, the stored session and spreadsheet cells enter as parameters.

In one place the code and the described design disagree, and the model follows the code. The
fraud-history points are counted over the working set, not over all the holder's claims
(pattern-analysis.ts:31-33 and 44). The working set is the holder's stored claims plus the
new ones, without the Rejected claims. So only "Fraud Detected" claims can raise the points,
as `PatternAnalysis.HistoryCountsOnlyFraudDetected` states.

Each risk score's ClaimID is the scored claim's store id, `claim.id` (pattern-analysis.ts:54),
not its ClaimID. The model keeps this as written. So addClaims's status update
(claims-service.ts:69 and 83) finds a scored claim only when some claim's ClaimID equals that
store id. Otherwise updateClaimStatus reports the claim not found and its status stays
Pending. And createCasesForHighRisk opens cases whose claimID is the store id.

## Model

| member | source | states |
|---|---|---|
| PatternAnalysis.WorkingSetMembers | src/app/services/PatternAnalysis/pattern-analysis.ts:31-33 | a claim is in the working set exactly when it is a stored or a new claim whose status is not Rejected |
| PatternAnalysis.FraudHistoryPoints | src/app/services/PatternAnalysis/pattern-analysis.ts:80-87 | the points are 0, 30 or 60: 60 exactly when the holder has at least three Rejected or Fraud Detected claims, 0 exactly when there are none |
| PatternAnalysis.HistoryCountsOnlyFraudDetected | src/app/services/PatternAnalysis/pattern-analysis.ts:82 | over the working set, the Rejected-or-Fraud-Detected count equals the Fraud Detected count |
| PatternAnalysis.EarliestStamp | src/app/services/PatternAnalysis/pattern-analysis.ts:92-96 | the first time stamp after sorting: one that some claim has and that is not above any other |
| PatternAnalysis.LatestStamp | src/app/services/PatternAnalysis/pattern-analysis.ts:92-97 | the last time stamp after sorting: one that some claim has and that is not below any other |
| PatternAnalysis.RatePointsFor | src/app/services/PatternAnalysis/pattern-analysis.ts:99-109 | the frequency points are 0, 20 or 40, and at most three claims within half a year (or a single claim) score 0 |
| PatternAnalysis.ClaimFrequencyPoints | src/app/services/PatternAnalysis/pattern-analysis.ts:89-110 | the frequency points are 0, 20 or 40, and a holder with at most one claim scores 0 |
| PatternAnalysis.RatePointsMatchRealRule | src/app/services/PatternAnalysis/pattern-analysis.ts:99-109 | the integer cross-multiplied comparison gives the same points as the real-valued claims-per-year rule with MS_YEAR = 1000·60·60·24·365.25 |
| PatternAnalysis.FrequencyPointsMatchRealRule | src/app/services/PatternAnalysis/pattern-analysis.ts:89-110 | the frequency points of a holder's claims equal the real-valued per-year rule applied to their count and to the span between their earliest and latest stamps |
| PatternAnalysis.RiskLevelFor | src/app/services/PatternAnalysis/pattern-analysis.ts:112-116 | HIGH exactly at 71 and above, MEDIUM exactly from 31 to 70, LOW below 31 |
| PatternAnalysis.ScoreShape | src/app/services/PatternAnalysis/pattern-analysis.ts:44-45 | a holder's score is one of 0, 20, 30, 40, 50, 60, 70, 80, 100, and its level is HIGH exactly when the history points are 60 and the frequency points are positive |
| PatternAnalysis.AnalyzePatterns | src/app/services/PatternAnalysis/pattern-analysis.ts:24-78 | the loop returns the analysis result: one score per non-rejected new claim, the claims grouped by holder in first-appearance order |
| PatternAnalysis.ScoredClaimsArePermutation | src/app/services/PatternAnalysis/pattern-analysis.ts:36-51 | the claims scored are exactly the non-rejected new claims, a permutation of them |
| PatternAnalysis.ScoreFields | src/app/services/PatternAnalysis/pattern-analysis.ts:51-58 | the k-th score carries its score id, the k-th scored claim's store id, the holder's total over the working set, the level of that total and the analysis date; that claim is a non-rejected new claim |
| PatternAnalysis.SameHolderSameScore | src/app/services/PatternAnalysis/pattern-analysis.ts:44-57 | two scores of the same holder carry the same value and the same level |
| PatternAnalysis.NoNewClaimsNoScores | src/app/services/PatternAnalysis/pattern-analysis.ts:62-64 | no new claims give no scores |
| FraudRules.FindRule | src/app/services/FraudRule/fraud-rule-service.ts:54 | the first rule with exactly this name, or none when no rule has it |
| FraudRules.AmountRule | src/app/services/FraudRule/fraud-rule-service.ts:54-55 | the amount rule is in force exactly when it exists and its threshold is present and non-zero, and it then carries that rule's id and threshold |
| FraudRules.HospitalRule | src/app/services/FraudRule/fraud-rule-service.ts:66-67 | the hospital rule is in force exactly when it exists and has a blocked-hospital list, and it then carries that rule's id and list |
| FraudRules.RuleViolationsMembers | src/app/services/FraudRule/fraud-rule-service.ts:34-40 | a violation is recorded exactly when it carries the rule's id and the ClaimID of some claim that satisfies the check |
| FraudRules.AmountRuleInert | src/app/services/FraudRule/fraud-rule-service.ts:55 | a missing amount rule, or one without a threshold or with threshold 0, records nothing |
| FraudRules.AmountViolationIff | src/app/services/FraudRule/fraud-rule-service.ts:57-61 | a claim is reported exactly when its amount is strictly above the threshold |
| FraudRules.AmountAtThresholdNoViolation | src/app/services/FraudRule/fraud-rule-service.ts:58 | an amount equal to the threshold is not a violation |
| FraudRules.HospitalRuleInert | src/app/services/FraudRule/fraud-rule-service.ts:67 | a missing hospital rule, or one without a blocked list, records nothing |
| FraudRules.HospitalViolationIff | src/app/services/FraudRule/fraud-rule-service.ts:69-73 | a claim is reported exactly when its hospital is on the blocked list |
| FraudRules.AtMostOnePerClaim | src/app/services/FraudRule/fraud-rule-service.ts:57-73 | a rule records at most one violation per claim: no more of its violations name a ClaimID than there are claims carrying it |
| FraudRules.MarkViolatingEffect | src/app/services/FraudRule/fraud-rule-service.ts:77-84 | a claim whose ClaimID is among the violations becomes Fraud Detected; every other field and every other claim is unchanged |
| FraudRules.MarkViolatingIdempotent | src/app/services/FraudRule/fraud-rule-service.ts:77-84 | marking twice with the same violations is marking once |
| FraudRules.FraudRuleService.constructor | src/app/services/FraudRule/fraud-rule-service.ts:16 | the service starts with no recorded violations |
| FraudRules.FraudRuleService.RecordViolation | src/app/services/FraudRule/fraud-rule-service.ts:34-44 | appends exactly one violation with the given claim id and rule id |
| FraudRules.FraudRuleService.ApplyRules | src/app/services/FraudRule/fraud-rule-service.ts:47-50 | records the amount violations followed by the hospital violations |
| FraudRules.FraudRuleService.ApplyExcessiveClaimAmountRule | src/app/services/FraudRule/fraud-rule-service.ts:53-62 | records, in claim order, one violation per claim above the threshold of a usable amount rule |
| FraudRules.FraudRuleService.ApplyBlockedHospitalsRule | src/app/services/FraudRule/fraud-rule-service.ts:65-74 | records, in claim order, one violation per claim at a blocked hospital of a usable hospital rule |
| FraudRules.FraudRuleService.UpdateClaimStatusForViolations | src/app/services/FraudRule/fraud-rule-service.ts:77-84 | updates the claims array in place to the marked claims |
| Claims.NormalizeKey | src/app/services/Claims/claims-service.ts:148 | the normalised key is no longer than the key and holds no whitespace, no underscore and no upper-case letter |
| Claims.NormalizeKeyOfNormal | src/app/services/Claims/claims-service.ts:148 | a key already in normal form is unchanged |
| Claims.NormalizeKeyIdempotent | src/app/services/Claims/claims-service.ts:148 | normalising twice is normalising once |
| Claims.NormalizeRow | src/app/services/Claims/claims-service.ts:144-153 | the loop builds the normalised row of the row's entries |
| Claims.NormalizedRowKeys | src/app/services/Claims/claims-service.ts:147-150 | the normalised row's keys are exactly the normalised forms of the row's keys |
| Claims.NormalizedRowLastWins | src/app/services/Claims/claims-service.ts:147-150 | when two keys normalise alike, the later entry's value wins |
| Claims.TextOr | src/app/services/Claims/claims-service.ts:178-183 | a truthy cell gives its text, a missing or falsy one the default |
| Claims.MapRowToClaim | src/app/services/Claims/claims-service.ts:176-186 | the conversion fails exactly for a numeric claimdate out of the date range; otherwise the claim is Pending, without a store id, and each field takes its normalised column or its default ('' , '0', 0, the generated id) |
| Claims.MapRowToClaimDate | src/app/services/Claims/claims-service.ts:182 | the claim date is the converted claimdate cell |
| Claims.EmptyRowDefaults | src/app/services/Claims/claims-service.ts:176-186 | a row with no columns gives empty texts, amount 0, and a Pending status |
| Claims.RemoveDuplicates | src/app/services/Claims/claims-service.ts:156-166 | the loop keeps the first claim of each ClaimID: the ids are distinct, the same set of ids remains, the result is a subsequence, and every first occurrence is kept |
| Claims.RemoveDuplicatesIdempotent | src/app/services/Claims/claims-service.ts:156-166 | removing duplicates from a duplicate-free list changes nothing |
| Claims.ConvertRows | src/app/services/Claims/claims-service.ts:122-126 | one claim per row, each the mapping of its normalised row |
| Claims.ConvertRowsFailsIff | src/app/services/Claims/claims-service.ts:122-126 | the conversion fails exactly when some row's mapping fails, that is, when its date does |
| Claims.ParseRowsResult | src/app/services/Claims/claims-service.ts:122-131 | the parsed claims have distinct ClaimIDs, are no more than the rows, and are all Pending without a store id |
| Claims.StatusForRiskLevel | src/app/services/Claims/claims-service.ts:64-67 | LOW and MEDIUM give Approved; every other level gives Fraud Detected |
| Claims.StatusForScore | src/app/services/Claims/claims-service.ts:64-67 | with the scorer's levels: Approved exactly up to 70, Fraud Detected exactly from 71 |
| Claims.WithStatus | src/app/services/Claims/claims-service.ts:92-94 | the update keeps the number of claims |
| Claims.WithStatusEffect | src/app/services/Claims/claims-service.ts:92-94 | claims with the id get the new status and keep every other field; the others are unchanged |
| Claims.WithStatusProperties | src/app/services/Claims/claims-service.ts:92-94 | without a claim of that id the list is unchanged, and setting the same status twice is setting it once |
| Claims.CountersBounded | src/app/services/Claims/claims-service.ts:19-33 | the pending, approved and rejected counts together never exceed the total |
| Claims.ClaimsService.constructor | src/app/services/Claims/claims-service.ts:15 | the claim list starts empty |
| Claims.ClaimsService.LoadClaims | src/app/services/Claims/claims-service.ts:44-49 | a reply replaces the list (a null body gives the empty list); a failed request keeps it |
| Claims.ClaimsService.UpdateClaimStatus | src/app/services/Claims/claims-service.ts:82-99 | an unknown ClaimID, or a claim whose store id is missing or empty, sends nothing; otherwise the patch goes to the claim's store id, and only a successful patch sets the new status on the claims with that ClaimID |
| ExcelDate.DayFromYearIsFormula | src/app/services/Claims/claims-service.ts:169-173 | the day number of a year's first day, defined year by year, equals the ECMAScript closed form DayFromYear |
| ExcelDate.DayFromYearMonotone | src/app/services/Claims/claims-service.ts:169-173 | later years start on later days, at least 365 days later |
| ExcelDate.YearFromDay | src/app/services/Claims/claims-service.ts:171-172 | the year whose days contain the given day number |
| ExcelDate.YearFromDayUnique | src/app/services/Claims/claims-service.ts:171-172 | that year is the only year containing the day |
| ExcelDate.MonthFromUnique | src/app/services/Claims/claims-service.ts:172 | the month of a day within the year is the only one containing it |
| ExcelDate.CivilFromDays | src/app/services/Claims/claims-service.ts:172 | every day number gives a valid calendar date |
| ExcelDate.DaysFromCivilOfCivil | src/app/services/Claims/claims-service.ts:171-172 | between day numbers and dates, converting a day number to a date and back returns the same day |
| ExcelDate.CivilOfDaysFromCivil | src/app/services/Claims/claims-service.ts:171-172 | converting a valid date to its day number and back returns the same date |
| ExcelDate.DaysFromCivilInjective | src/app/services/Claims/claims-service.ts:171-172 | distinct valid dates have distinct day numbers |
| ExcelDate.TimeValueRange | src/app/services/Claims/claims-service.ts:171 | the Date is invalid (toISOString throws) exactly for serials more than 10^8 days from the Unix epoch |
| ExcelDate.ConvertExcelDate | src/app/services/Claims/claims-service.ts:169-173 | a text cell is returned as it is; a numeric cell fails exactly when its date is out of range |
| ExcelDate.SerialDate | src/app/services/Claims/claims-service.ts:171 | serial s is the valid date whose day number is s - 25569, counted from 1970-01-01 |
| ExcelDate.UnixEpochSerial | src/app/services/Claims/claims-service.ts:171-172 | serial 25569 converts to "1970-01-01" |
| ExcelDate.ValidSerialYear | src/app/services/Claims/claims-service.ts:171-172 | an in-range serial's year is written with 4 digits or a sign and 6 digits |
| ExcelDate.IsoDateShape | src/app/services/Claims/claims-service.ts:172 | for years 0 to 9999 the text is 10 characters: year, month, day as decimal digits of those values, separated by hyphens |
| ExcelDate.IsoDateInjective | src/app/services/Claims/claims-service.ts:172 | distinct valid dates in the ECMAScript year range give distinct texts |
| ExcelDate.ConvertExcelDateMeaning | src/app/services/Claims/claims-service.ts:169-173 | an in-range numeric cell converts to the text of a date exactly when that date's day number is serial - 25569 |
| Cases.MaxCaseId | src/app/services/Cases/cases-services.ts:26 | the largest caseID, starting from 1000: at least 1000, at least every caseID, and equal to 1000 or to some caseID |
| Cases.CasesFor | src/app/services/Cases/cases-services.ts:45-58 | one case per opening score |
| Cases.OpenedForClaim | src/app/services/Cases/cases-services.ts:42-58 | a case is opened for a claim exactly when some HIGH score names it and no stored case has it |
| Cases.NoCaseForExistingClaim | src/app/services/Cases/cases-services.ts:42-46 | a claim that already has a case gets no new one |
| Cases.BatchDuplicatesBothOpen | src/app/services/Cases/cases-services.ts:42-54 | two HIGH scores for the same new claim in one batch each open a case, as the existing-claim set is not updated inside the loop |
| Cases.FreshIdsAfterLoad | src/app/services/Cases/cases-services.ts:26-54 | after loading, the new case ids are above every stored caseID and above 1000, and strictly increasing |
| Cases.Defined | src/app/services/Cases/cases-services.ts:62-67 | the created cases that are defined, each one that was returned |
| Cases.InvestigationPatchFor | src/app/services/Cases/cases-services.ts:92-94 | the patch carries the fraud flag and the notes, and its status is 'Completed' for fraud and the value false otherwise (isFraud && 'Completed') |
| Cases.ClaimStatusAfterInvestigation | src/app/services/Cases/cases-services.ts:105-109 | missing or blank notes give Pending; otherwise fraud gives Rejected and no fraud Approved |
| Cases.ReplaceById | src/app/services/Cases/cases-services.ts:83 | the list keeps its length |
| Cases.ReplaceByIdEffect | src/app/services/Cases/cases-services.ts:98-100 | cases whose store id is the id become the reply; all others stay as they were |
| Cases.ReplaceByIdNoMatch | src/app/services/Cases/cases-services.ts:127 | an id that no case has changes nothing |
| Cases.ReplaceByIdIdempotent | src/app/services/Cases/cases-services.ts:127 | applying the same replacement twice is applying it once |
| Cases.CasesService.constructor | src/app/services/Cases/cases-services.ts:13-16 | no cases, and the next case id is 1000 |
| Cases.CasesService.LoadCases | src/app/services/Cases/cases-services.ts:22-31 | the reply replaces the cases (a null body gives none) and the next id becomes the largest caseID (at least 1000) plus one; a failed request keeps both |
| Cases.CasesService.CreateCasesForHighRisk | src/app/services/Cases/cases-services.ts:37-75 | no scores or a failed GET post nothing and change nothing; otherwise the posted cases are the opening scores' cases numbered from the next id, the counter advances by their number, and the stored list becomes the fetched cases plus the defined created ones when any were posted and created |
| Cases.CasesService.AssignInvestigator | src/app/services/Cases/cases-services.ts:78-89 | sends the investigator with status Pending; a reply replaces the case with that id, and the counter is unchanged |
| Cases.CasesService.UpdateCaseAfterInvestigation | src/app/services/Cases/cases-services.ts:91-121 | sends the investigation patch; a reply replaces the case and yields the claim status patch for the reply's claim; no reply changes nothing |
| Cases.CasesService.UpdateCase | src/app/services/Cases/cases-services.ts:124-132 | the body sent is the given patch; a reply replaces the case with that id, no reply changes nothing |
| Users.RemoveFirstByEmail | src/app/services/Users/users-service.ts:51-56 | one user fewer exactly when some user has the email; unchanged when nobody has it |
| Users.RemoveFirstByEmailEffect | src/app/services/Users/users-service.ts:51-56 | only the first user with the email goes: those before keep their place, those after move up by one, and the multiset loses only that user |
| Users.RemoveFirstByEmailIsSubsequence | src/app/services/Users/users-service.ts:54 | the remaining users keep their order |
| Users.UsersService.constructor | src/app/services/Users/users-service.ts:12 | the user list starts empty |
| Users.UsersService.LoadUsers | src/app/services/Users/users-service.ts:20-30 | a reply replaces the list; a failed request keeps it |
| Users.UsersService.ValidateUser | src/app/services/Users/users-service.ts:32-37 | a user is found exactly when one has this email and password, and it is the first such user |
| Users.UsersService.GetInvestigators | src/app/services/Users/users-service.ts:43-45 | exactly the users with role investigator, in their order, each as often as in the list |
| Users.UsersService.DeleteUser | src/app/services/Users/users-service.ts:51-58 | answers true exactly when a user had the email, and removes the first such user |
| InvestigatorAssignments.GetAssignedCases | src/app/services/Investigator/investigator-service.ts:27-35 | a missing or falsy user id gives no cases; otherwise exactly the cases assigned to that id, in order, each as often as in the list |
| InvestigatorAssignments.UnassignedNeverListed | src/app/services/Investigator/investigator-service.ts:32 | an unassigned case is on nobody's list |
| InvestigatorAssignments.AssignmentsDisjoint | src/app/services/Investigator/investigator-service.ts:32 | two different investigators never share a listed case |
| Report.MetricsIdentities | src/app/components/reports/report.ts:56-87 | as written, each condition tests a case's flag against itself: false positives and false negatives are always 0, true positives equal the fraud cases, and true positives and true negatives make up all cases |
| Report.MonthlyCounts | src/app/components/reports/report.ts:74-82 | a month is a key exactly when some Rejected claim falls in it, and its count is the number of Rejected claims in that month |
| Report.MonthlyData | src/app/components/reports/report.ts:114-122 | one row per chart month, Jul to Dec, in that order |
| Report.MonthlyDataCountsFlagged | src/app/components/reports/report.ts:74-122 | each chart month's value is the number of Rejected claims in it (0 when none) |
| Report.MaxOrOne | src/app/components/reports/report.ts:126 | at least 1 and every value, and equal to 1 or to some value |
| Report.MaxCases | src/app/components/reports/report.ts:124-127 | the chart height is at least 2 and above every month's count |
| Report.MaxCasesTight | src/app/components/reports/report.ts:124-127 | the height is 2 or exactly one above some month's count |
| Report.MostHasMaxCount | src/app/components/reports/report.ts:150-157 | no value occurs more often than the maximum count, and the chosen value occurs that often |
| Report.MostFirstReaches | src/app/components/reports/report.ts:153-156 | the value chosen is the one whose occurrence first reaches the maximum count |
| Report.GetMostFrequent | src/app/components/reports/report.ts:144-160 | no values give null; otherwise the loop returns a value of the list that occurs at least as often as any other, the first to reach that count |
| Dashboard.FilterClaims | src/app/components/dashboard/dashboard.ts:71-83 | a claim is shown exactly when it matches the search and the status, as often as it occurs in the list, and the shown claims keep their order |
| Dashboard.BlankQueryIsEmpty | src/app/components/dashboard/dashboard.ts:69 | a blank search normalises to the empty query |
| Dashboard.NoFilterShowsAll | src/app/components/dashboard/dashboard.ts:69-83 | a blank search and no selected status show all claims |
| Dashboard.SelectedStatusIsExact | src/app/components/dashboard/dashboard.ts:79-80 | a selected status shows only claims with exactly that status |
| Dashboard.DashboardComponent.constructor | src/app/components/dashboard/dashboard.ts:24-28 | no claims, an empty search and no selected status |
| Dashboard.DashboardComponent.OnClaims | src/app/components/dashboard/dashboard.ts:49-51 | the new claims become all claims and the shown claims; the search and status are kept |
| Dashboard.DashboardComponent.ApplyFilters | src/app/components/dashboard/dashboard.ts:68-84 | the shown claims are the filtered claims for the current search and status; nothing else changes |
| Dashboard.DashboardComponent.ResetFilters | src/app/components/dashboard/dashboard.ts:87-91 | clears the search and status and shows all claims |
| Dashboard.ResetThenApplyShowsAll | src/app/components/dashboard/dashboard.ts:87-91 | filtering with the reset search and status shows all claims |
| InvestigatorView.CasesWithStatus | src/app/components/investigator/investigator.ts:72 | exactly the cases with that status, in order |
| InvestigatorView.CasesWithStatusMultiset | src/app/components/investigator/investigator.ts:72 | each case with the status is kept as often as it occurs in the list, and no other case is kept |
| InvestigatorView.StatusCountsBounded | src/app/components/investigator/investigator.ts:62-67 | open, pending and completed counts together never exceed the total |
| InvestigatorView.InvestigatorComponent.constructor | src/app/components/investigator/investigator.ts:21-35 | no cases, zero counters, the "all" filter and an empty form |
| InvestigatorView.InvestigatorComponent.UpdateCounts | src/app/components/investigator/investigator.ts:62-67 | the counters become the total and the per-status counts of the assigned cases, whose sum stays within the total |
| InvestigatorView.InvestigatorComponent.ApplyFilter | src/app/components/investigator/investigator.ts:69-73 | "all" shows every assigned case; any other filter shows the cases with that status |
| InvestigatorView.InvestigatorComponent.OnAssignedCases | src/app/components/investigator/investigator.ts:48-54 | stores the assigned cases, recounts them and reapplies the current filter |
| InvestigatorView.InvestigatorComponent.EditCase | src/app/components/investigator/investigator.ts:79-86 | a case with that id fills the form with its id, notes and fraud flag; an unknown id leaves the form as it was |
| InvestigatorView.InvestigatorComponent.AcceptCase | src/app/components/investigator/investigator.ts:75-77 | sends the generic update with the body `{ status: 'Pending' }`: a reply replaces the case with that id, no reply changes nothing |
| InvestigatorView.InvestigatorComponent.SubmitCase | src/app/components/investigator/investigator.ts:88-98 | submits exactly when the form has a non-empty case id: then the patch sent carries the form's fraud flag and notes, a reply replaces that case and yields the claim patch with the status those give, and the form is cleared; otherwise nothing is sent and nothing changes |
| CasesView.InvestigatorName | src/app/components/cases/cases.ts:83-87 | no id gives 'Unassigned'; an id some investigator has gives the first such investigator's name; an unknown id gives 'ID ' and the number |
| CasesView.CasesComponent.constructor | src/app/components/cases/cases.ts:29-33 | no investigators, no case being edited, empty notes, status Open, no investigator, not fraud |
| CasesView.CasesComponent.OnInit | src/app/components/cases/cases.ts:40-43 | the available investigators are the users service's investigators |
| CasesView.CasesComponent.StartEdit | src/app/components/cases/cases.ts:45-51 | the inputs take the case's id, notes, status, investigator and fraud flag |
| CasesView.CasesComponent.ResetInputs | src/app/components/cases/cases.ts:58-63 | the inputs return to their initial values |
| CasesView.CasesComponent.CancelEdit | src/app/components/cases/cases.ts:53-56 | no case is being edited and the inputs are reset |
| CasesView.CasesComponent.SaveEdit | src/app/components/cases/cases.ts:65-81 | saves exactly when a non-empty case id is being edited: the assignment patch carries the chosen investigator and Pending, the update patch the chosen status, the assignment reply and then the update reply replace that case, and editing stops; otherwise nothing is sent and nothing changes |
| CasesView.CasesComponent.GetInvestigatorName | src/app/components/cases/cases.ts:83-87 | the displayed name of an investigator id among the available investigators |
| Login.Lookahead | src/app/components/login/login.ts:28 | a lookahead `(?=.*[class])` holds exactly when some character of the password is in the class |
| Login.ClassRun | src/app/components/login/login.ts:28 | the length of the password's longest prefix of allowed characters: every character in it is allowed, and it ends at the end or at a character that is not |
| Login.PatternIsStrongPassword | src/app/components/login/login.ts:27-28 | the pattern accepts exactly the passwords of 8 or more allowed characters with a lower-case letter, an upper-case letter, a digit and a symbol |
| Login.OtherCharacterRejected | src/app/components/login/login.ts:28 | any character outside the allowed set makes the password invalid |
| Login.SevenCharactersRejected | src/app/components/login/login.ts:28 | seven characters are never enough |
| Login.RouteForRole | src/app/components/login/login.ts:69-71 | admin goes to /admin exactly, every other role to /investigator |
| Login.InitialRedirect | src/app/components/login/login.ts:36-44 | no stored user means no redirect; a stored user goes to its role's route |
| Login.LoginComponent.constructor | src/app/components/login/login.ts:23-34 | an empty, untouched form, no status message, no stored user and no navigation |
| Login.LoginComponent.OnSubmit | src/app/components/login/login.ts:47-79 | an invalid form is marked touched with the form-errors message; unknown credentials give the invalid-credentials message and change nothing else; valid credentials store the user, report success with the role, clear the form and navigate to the role's route |
| AdminGuard.CanActivate | src/app/guards/admin/admin-guard.ts:6-25 | no user goes to /login, exactly an investigator goes to /investigator, and every other signed-in role passes |
| AdminGuard.AdminGuardTable | src/app/guards/admin/admin-guard.ts:14-24 | the guard never redirects to /admin, and an admin passes |
| InvestigatorGuard.CanActivate | src/app/guards/investigator/investigator-guard.ts:6-24 | no user goes to /login, exactly an admin goes to /investigator, and every other signed-in role passes |
| InvestigatorGuard.InvestigatorGuardTable | src/app/guards/investigator/investigator-guard.ts:14-23 | the guard never redirects to /admin, and an investigator passes |
| InvestigatorGuard.AdminRedirectLoops | src/app/guards/investigator/investigator-guard.ts:19-21 | as written, an admin is redirected to /investigator, the route this guard protects, where the guard gives the same redirect again |
| InvestigatorGuard.CanActivateIntended | src/app/guards/investigator/investigator-guard.ts:19-21 | the intended guard: no user goes to /login, exactly an admin goes to /admin, every other role passes |
| InvestigatorGuard.IntendedRedirectSettles | src/app/app.routes.ts:23-37 | with the intended guard, no redirect points back at /investigator, and each redirect goes to /login or to /admin, whose guard lets that user in |
| Text.TrimEmptyIffBlank | src/app/services/Cases/cases-services.ts:105 | String.prototype.trim gives the empty string exactly when the text is all whitespace |

## Left out

- HTTP, rxjs subjects and async plumbing: each request's reply (or its failure) is a parameter of the method that receives it. The interleaving of independent callbacks is not modelled.
- Cases.CasesService.CreateCasesForHighRisk: when one POST fails, Promise.all rejects and only logs. The model takes that as `created == None`, which leaves the list unchanged; the cases whose POST succeeded before that are not added.
- Reading the spreadsheet (FileReader, XLSX.read, sheet_to_json) is left out. The model starts from the rows as lists of column-value pairs, in the order Object.keys would give.
- addClaims is only modelled in part: its mapping from risk level to status (claims-service.ts:64-67). The orchestration around it is the composition of the modelled pieces (parse, score, check rules, open cases), and the HTTP posts are left out.
- Claims.TextAmount: only a text of decimal digits, with optional surrounding whitespace, converts to its value; any other text becomes 0. JavaScript's Number() gives -5 for "-5", 7 for "+7", 1000 for "1e3", 16 for "0x10", 1.5 for "1.5" and NaN for other text, so such an amount can be judged differently by the amount rule.
- FraudRules: amounts and the amount rule's thresholdValue are integers, so a fractional threshold or amount is not modelled.
- Claims.MapRowToClaim: the ClaimID generated from Date.now and Math.random is the `generatedId` parameter. A numeric cell used as text becomes its decimal rendering, and a missing claimdate becomes "".
- Text.Lower: toLowerCase is modelled for ASCII letters only.
- PatternAnalysis.AnalyzePatterns: the scores returned by the POSTs are taken to be the scores posted. A claim without a stored id gives "" as the score's ClaimID. The date-to-time-stamp parsing of ClaimDate is the `stamp` parameter, an integer, so an unparseable date (NaN in the source, as for the "" a row without a claimdate gets) is not modelled. With two or more claims whose earliest or latest sorted date is NaN, the source's span and perYear are NaN and it gives 0 frequency points, and its sort comparator returns NaN too. The model, given equal stamps, gives the points for the claim count instead: seven undated claims of one holder score 40, which with 60 history points makes the level HIGH rather than MEDIUM. The random score ids and the analysis date are the `scoreId` and `analysisDate` parameters.
- FraudRules.FraudRuleService.UpdateClaimStatusForViolations: the array is updated in place, but aliasing with other holders of the array is not modelled.
- FraudRules.FraudRuleService.RecordViolation: the generated violationID and violationDate are not modelled.
- ExcelDate.ConvertExcelDate: fractional serials (times of day) are not modelled. Serials are integers.
- ExcelDate.SerialDate: counts from 1899-12-30 like the source's `serial - 25569`, so Excel's 1900 leap-year quirk is not handled, as in the source.
- Report.MonthlyCounts: the locale month names of toLocaleString are the `monthOf` parameter.
- Report: the floating-point figures (FraudRate, DetectionAccuracy and their toFixed texts) and trendText are left out. Only the integer counts they are built from are modelled.
- Login.LoginComponent.OnSubmit: the email validator is the `emailValid` parameter.
- CasesView.CasesComponent.StartEdit and InvestigatorView.InvestigatorComponent.EditCase: the case's notes and fraud flag are never null in the model, so their `??` defaults never apply.
- CasesView.CasesComponent.SaveEdit: the two requests' replies are taken in call order.
- localStorage and JSON.parse, getLoggedInUser and getActiveUserId: the stored session is a parameter. Router navigation is returned as a route, not performed.
- The route table (app.routes.ts), app.ts, main.ts, the sidebar and the registration page are not part of this model. The route table is only used to state where the guards' redirects lead.

## Findings

| source | as written | input that shows it | evidently intended | confidence | as-written member | corrected member |
|---|---|---|---|---|---|---|
| src/app/guards/investigator/investigator-guard.ts:19-21 | an admin who opens an investigator page is redirected to /investigator, the route this guard protects (app.routes.ts:34-37), so the guard redirects again | a stored user with role 'admin' navigating to /investigator | redirect the admin to /admin, as the admin guard does for investigators | not executed | InvestigatorGuard.AdminRedirectLoops | InvestigatorGuard.CanActivateIntended |
