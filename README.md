# Pull-Up Club: leaderboard and membership rules

This project models the rules of the Pull-Up Club membership site in Dafny. In that site, members send a video of their best set of pull-ups, and an administrator reviews it. The reviewed count (`actualPullUpCount`, or the claimed `pullUpCount` when no review count exists) earns a badge and a place on the public leaderboard.

The model covers these parts of the site:

- **Badge ladder** (`MockData`). The effective count earns recruit (5-9), proven (10-14), hardened (15-19), operator (20-24) or elite (25+). The badge is a copy of the shared table entry. Female members get the female image on that copy, and nothing else about the badge changes.
- **Leaderboard** (`LeaderboardTable`, `LeaderboardPage`, `LeaderboardPreview`).
  - The leaderboard page shows only approved and featured records.
  - The table keeps each email's best record (on equal counts, the first one seen). It filters by club, gender, region, inclusive age bracket and badge. It sorts by count and then by date, both descending. It groups equal counts and numbers the rows 1..N.
  - The home-page preview shows the five highest claimed counts among approved records.
- **Resubmission cooldown** (`SubmissionDashboard`). The member may submit again when no record is approved or pending, when any record was rejected, or once 30 days have passed since the gate record. The countdown is rounded up to whole days.
- **Profile page** (`ProfilePage`): the member's own records, their best record and the elite badge, the social-handle check, and the personal-information form.
- **Admin review queue** (`AdminDashboard`): normalising rows from the store, the status tabs and the per-status counters.
- **Account pages** (`Credentials`, `LoginPage`, `CreateAccountPage`): the four password rules, the order of the validation errors, and how an error message is turned into the text the page shows.

How the model is built:

- **Pure code is pure Dafny.** The badge ladder, the filters, the comparators and the cooldown are datatypes, functions and lemmas.
- **Mutating code stays imperative.** Source code that mutates an accumulator becomes a method with a loop, proved equal to a specification function:
  - the dedupe reduce is `HighestSubmissions`, over an array;
  - the grouping reduce is `GroupByCount`, over a map.
- **Component state becomes classes.** Each page's state becomes a class whose handlers are methods with `modifies` clauses.
- **External calls become parameters.** A call to the hosted backend becomes a parameter carrying its outcome. `Option<Thrown>` holds what a sign-in, sign-up or save threw, if anything. `Result<seq<RawRow>, Thrown>` holds the rows or the failure of the admin fetch.
- **`Array.prototype.sort` is a stable insertion sort** (`Sorting.SortBy`). The language has required a stable sort since ES2019.

Details of the code that the model keeps:

- **The cooldown gate is the first approved or pending record in list order.** The code uses `find` (src/components/Profile/SubmissionDashboard.tsx:21-23), so the gate need not be the most recent record. `SubmissionDashboard.GateIsFirstNotLatest` gives an input where the two differ.
- **The "50+" age bracket is [50, 200].** This is the code's table (src/components/Leaderboard/LeaderboardTable.tsx:48), so an age above 200 fails it.
- **An age-group label outside the table is an error, not a pass.** The code destructures `undefined` there, which throws. The model makes this the error `UnknownAgeGroup`. The error is raised only when a record reaches the age check, that is, when it passed the club, gender and region criteria.

## Model

| member | source | states |
|---|---|---|
| Types.EffectiveCount | src/data/mockData.ts:230 | the reviewed count when one exists, otherwise the claimed count |
| Types.EffectiveCountIgnoresClaim | src/components/Leaderboard/LeaderboardTable.tsx:24-25 | once a reviewed count exists, changing the claimed count does not change the effective count |
| Wrappers.MessageOr | src/pages/LoginPage.tsx:42 | an `Error` yields its message; any other thrown value yields the fallback text |
| MockData.TierFor | src/data/mockData.ts:234-239 | each tier holds exactly on its band (25+, 20-24, 15-19, 10-14, 5-9); no tier below 5 |
| MockData.FindById | src/data/mockData.ts:242 | a found badge is in the table and has the id; no result means no badge has that id |
| MockData.TableHasTier | src/data/mockData.ts:33-84 | each tier's id is found in the badge table at the tier's position, with threshold 5 × (position + 1) |
| MockData.BaseBadge | src/data/mockData.ts:242 | the table entry for a tier, carrying that tier's id |
| MockData.GetBadgesForSubmission | src/data/mockData.ts:229-253 | at most one badge is returned |
| MockData.BadgeCount | src/data/mockData.ts:229-253 | no badge iff the effective count is below 5, exactly one otherwise, and its id is the tier's id |
| MockData.GenderOnlyChangesImage | src/data/mockData.ts:242-250 | id, name, description and criteria equal the base badge; a female member gets the female image, every other gender the base image |
| MockData.GenderNeverChangesTier | src/data/mockData.ts:245-250 | changing gender changes neither the number of badges nor anything but the image |
| MockData.TierMonotone | src/data/mockData.ts:234-238 | a larger count never earns a lower tier, and a count that earns a tier keeps one when it grows |
| MockData.ThresholdIsLargestBelow | src/data/mockData.ts:229-242 | the badge's threshold is in the table, does not exceed the count, and is the largest table threshold that does not |
| MockData.ReviewedCountDecides | src/data/mockData.ts:230 | with a reviewed count, the claimed count does not affect the badges |
| MockData.ReviewedTwentyIsOperator | src/data/mockData.ts:230-238 | claimed 18, reviewed 20 gives 'operator' |
| MockData.GetStatusInfo | src/data/mockData.ts:217-226 | Approved and Rejected get their own label and colour; Pending gets 'Pending Review' |
| MockData.GetAgeGroups | src/data/mockData.ts:207-214 | six distinct labels from 'Under 18' to '50+' (each has a bracket exactly when `LeaderboardTable.AgeRange` knows it) |
| Sorting.SortBySorted | src/components/Leaderboard/LeaderboardTable.tsx:63 | for a consistent comparator the sort is ordered by it and is a permutation of its input |
| LeaderboardTable.FirstWithEmail | src/components/Leaderboard/LeaderboardTable.tsx:20 | the index of the first accumulated record with the email, or the length when there is none |
| LeaderboardTable.HighestSubmissions | src/components/Leaderboard/LeaderboardTable.tsx:19-32 | the in-place accumulator loop computes the dedupe specification |
| LeaderboardTable.Absorb | src/components/Leaderboard/LeaderboardTable.tsx:20-30 | one step of the reduce: the accumulator becomes the specification's step applied to it |
| LeaderboardTable.DedupeEmails | src/components/Leaderboard/LeaderboardTable.tsx:19-32 | the output's emails are the input's distinct emails in first-occurrence order |
| LeaderboardTable.DedupeCovers | src/components/Leaderboard/LeaderboardTable.tsx:19-32 | every input email is kept, and every kept record is an input record |
| LeaderboardTable.DedupeBest | src/components/Leaderboard/LeaderboardTable.tsx:24-29 | each kept record has the highest effective count among the input records with its email |
| LeaderboardTable.DedupeEarliest | src/components/Leaderboard/LeaderboardTable.tsx:26-28 | on equal counts the earliest such input record is the one kept |
| LeaderboardTable.DedupeOfDistinct | src/components/Leaderboard/LeaderboardTable.tsx:19-32 | a list whose emails are already distinct is returned unchanged |
| LeaderboardTable.DedupeIdempotent | src/components/Leaderboard/LeaderboardTable.tsx:19-32 | deduping twice is deduping once |
| LeaderboardTable.AgeRange | src/components/Leaderboard/LeaderboardTable.tsx:42-51 | a bracket exists exactly for the six age-group labels |
| LeaderboardTable.PassesIsConjunction | src/components/Leaderboard/LeaderboardTable.tsx:34-61 | one record fails with an error iff the age label is unknown and the record reaches the age check; otherwise it passes iff every set criterion accepts it |
| LeaderboardTable.FilterSubmissionsSpec | src/components/Leaderboard/LeaderboardTable.tsx:34-61 | the filter fails iff the label is unknown and some record reaches the age check; otherwise it keeps exactly the accepted records |
| LeaderboardTable.KeepIsSubsequence | src/components/Leaderboard/LeaderboardTable.tsx:34 | the kept records are a subsequence of the input, and a record is kept iff it is accepted |
| LeaderboardTable.NoFiltersKeepAll | src/components/Leaderboard/LeaderboardTable.tsx:35-60 | with no criterion set, the filter returns its input |
| LeaderboardTable.FilterComposes | src/components/Leaderboard/LeaderboardTable.tsx:35-58 | criteria set in two disjoint filter records can be applied one after the other |
| LeaderboardTable.AgeBracketsInclusive | src/components/Leaderboard/LeaderboardTable.tsx:41-53 | both ends of every bracket pass |
| LeaderboardTable.FiftyPlusBoundary | src/components/Leaderboard/LeaderboardTable.tsx:48-52 | '50+' passes exactly the ages 50 to 200 |
| LeaderboardTable.FilterIgnoresClaim | src/components/Leaderboard/LeaderboardTable.tsx:55-58 | with a reviewed count, the claimed count does not affect the filter outcome |
| LeaderboardTable.RankCompareMeaning | src/components/Leaderboard/LeaderboardTable.tsx:63-71 | the comparator puts a first iff a's count is higher, or the counts are equal and a is no older |
| LeaderboardTable.RankCompareConsistent | src/components/Leaderboard/LeaderboardTable.tsx:63-71 | the comparator is total and transitive, so the sort is well defined |
| LeaderboardTable.SortedSubmissionsSpec | src/components/Leaderboard/LeaderboardTable.tsx:63-71 | the sorted copy is a permutation of the filtered list, ordered by count and then date, both descending |
| LeaderboardTable.GroupByCount | src/components/Leaderboard/LeaderboardTable.tsx:73-80 | the accumulator loop over the sorted list computes the grouping specification |
| LeaderboardTable.GroupMapIsPartition | src/components/Leaderboard/LeaderboardTable.tsx:73-80 | a count is a key iff some record has it, and its group is exactly those records in order |
| LeaderboardTable.GroupsArrayEntries | src/components/Leaderboard/LeaderboardTable.tsx:82-87 | every array entry is a map entry, and counts are strictly descending |
| LeaderboardTable.GroupsArrayFlattens | src/components/Leaderboard/LeaderboardTable.tsx:82-87 | for a count-descending list, concatenating the groups gives the list back |
| LeaderboardTable.GroupsArrayWellGrouped | src/components/Leaderboard/LeaderboardTable.tsx:82-87 | the groups are non-empty, share one count each, and are strictly descending |
| LeaderboardTable.RanksAreContiguous | src/components/Leaderboard/LeaderboardTable.tsx:121-158 | the row ranks of all groups, in order, are exactly 1..N |
| LeaderboardTable.GroupRange | src/components/Leaderboard/LeaderboardTable.tsx:124-138 | a group starts at 1 + the size of earlier groups, and ends one before the next group starts; its first and last rows carry those ranks |
| LeaderboardTable.BuildLeaderboard | src/components/Leaderboard/LeaderboardTable.tsx:19-87 | the pipeline fails only when the filter does; otherwise the groups flatten to the sorted, filtered, deduped list, are well grouped, and ranked 1..N |
| LeaderboardPage.ApprovedSubmissions | src/pages/LeaderboardPage.tsx:12-14 | exactly the approved and featured records |
| LeaderboardPage.ApprovedKeepsOrder | src/pages/LeaderboardPage.tsx:12-14 | the approved records keep their order |
| LeaderboardPage.Page.constructor | src/pages/LeaderboardPage.tsx:9 | filters start empty |
| LeaderboardPage.Page.HandleFilterChange | src/pages/LeaderboardPage.tsx:16-18 | the whole filter record is replaced |
| LeaderboardPage.Page.Table | src/pages/LeaderboardPage.tsx:37-40 | the table is the leaderboard pipeline over the approved records and the current filters |
| LeaderboardPage.InitialTableUnfiltered | src/pages/LeaderboardPage.tsx:9 | under the initial filters the table keeps every deduped approved record |
| LeaderboardPreview.ClaimedCompareConsistent | src/components/Home/LeaderboardPreview.tsx:10 | the claimed-count comparator is total and transitive |
| LeaderboardPreview.TopSubmissions | src/components/Home/LeaderboardPreview.tsx:8-11 | at most five records, each an approved input record |
| LeaderboardPreview.PreviewOrderSpec | src/components/Home/LeaderboardPreview.tsx:8-11 | the sorted list is a permutation of the approved records, descending by claimed count, and the preview is its first five |
| LeaderboardPreview.TopOrdered | src/components/Home/LeaderboardPreview.tsx:10 | the preview is descending by claimed count |
| LeaderboardPreview.OmittedDoNotOutrank | src/components/Home/LeaderboardPreview.tsx:8-11 | when five are shown, no omitted approved record claims more than the fifth |
| LeaderboardPreview.ShortPreviewShowsAll | src/components/Home/LeaderboardPreview.tsx:8-11 | fewer than five shown means every approved record is shown |
| LeaderboardPreview.ReviewNotConsulted | src/components/Home/LeaderboardPreview.tsx:8-11 | erasing every reviewed count leaves the preview unchanged, apart from that field |
| LeaderboardPreview.PreviewRows | src/components/Home/LeaderboardPreview.tsx:39-62 | rows show the preview in order, with ranks 1..k and the claimed count |
| SubmissionDashboard.LastSubmission | src/components/Profile/SubmissionDashboard.tsx:17-19 | absent iff there are no records; otherwise the largest submission date |
| SubmissionDashboard.NextAvailableDate | src/components/Profile/SubmissionDashboard.tsx:63 | absent iff there are no records; otherwise `lastSubmission` plus 30 days: some record's date plus 30 days, and no earlier than any record's date plus 30 days |
| SubmissionDashboard.GateSubmission | src/components/Profile/SubmissionDashboard.tsx:21-23 | absent iff no record is approved or pending; otherwise the first such record in list order |
| SubmissionDashboard.CeilDiv | src/components/Profile/SubmissionDashboard.tsx:28 | the least integer q with x <= q·d |
| SubmissionDashboard.DaysUntilNextSubmission | src/components/Profile/SubmissionDashboard.tsx:27-29 | 0 without a gate; otherwise the ceiling, in days, of the time left in the gate's 30-day window |
| SubmissionDashboard.NoGateMeansOpen | src/components/Profile/SubmissionDashboard.tsx:21-31 | with no approved or pending record, submission is open and no days remain |
| SubmissionDashboard.RejectionReopens | src/components/Profile/SubmissionDashboard.tsx:25-31 | any rejected record opens submission |
| SubmissionDashboard.DaysFromAge | src/components/Profile/SubmissionDashboard.tsx:27-29 | a gate exactly k days old leaves 30 - k days |
| SubmissionDashboard.TenDaysOldLeavesTwenty | src/components/Profile/SubmissionDashboard.tsx:27-29 | 10 days old leaves 20; just submitted leaves 30 |
| SubmissionDashboard.CooldownExpires | src/components/Profile/SubmissionDashboard.tsx:27-31 | with a gate and no rejection, submission is open iff no days remain, iff the 30 days are over |
| SubmissionDashboard.DaysNonIncreasing | src/components/Profile/SubmissionDashboard.tsx:27-29 | the countdown never increases as time passes |
| SubmissionDashboard.ClosedHasNextDate | src/components/Profile/SubmissionDashboard.tsx:60-63 | when closed, the announced date exists and is no earlier than the gate's window end |
| SubmissionDashboard.HeadingFor | src/components/Profile/SubmissionDashboard.tsx:42-47 | resubmit iff a rejection exists; otherwise ready iff open; otherwise a countdown of the remaining days, which is positive |
| SubmissionDashboard.HeadingText | src/components/Profile/SubmissionDashboard.tsx:42-47 | the three heading texts; the countdown text holds the day count as canonical decimal digits denoting it |
| SubmissionDashboard.IntToString | src/components/Profile/SubmissionDashboard.tsx:46 | the template literal's number text: canonical decimal digits whose value is the number, after '-' when negative |
| SubmissionDashboard.GateIsFirstNotLatest | src/components/Profile/SubmissionDashboard.tsx:17-31 | an older pending record listed before a newer approved one is the gate, so submission is open after 31 days although it would not be with the newer one alone |
| ProfilePage.UserSubmissions | src/pages/ProfilePage.tsx:59 | exactly the records with the user's email; none without a signed-in email |
| ProfilePage.UserSubmissionsInOrder | src/pages/ProfilePage.tsx:59 | the user's records keep their order |
| ProfilePage.HighestSubmission | src/pages/ProfilePage.tsx:77-81 | absent iff every count is 0; otherwise a record with the maximum count, and the earliest such one |
| ProfilePage.UserBadges | src/pages/ProfilePage.tsx:83 | at most one badge |
| ProfilePage.EliteOfSubmission | src/pages/ProfilePage.tsx:84 | a record's badges include 'elite' iff its count is at least 25 |
| ProfilePage.EliteBadgeIff | src/pages/ProfilePage.tsx:83-84 | the elite badge is held iff the best record counts at least 25 |
| ProfilePage.EliteBadgeFromAnyRecord | src/pages/ProfilePage.tsx:83-84 | the elite badge is held iff some record counts at least 25 |
| ProfilePage.TrimStartSpec | src/pages/ProfilePage.tsx:95 | removes exactly the leading whitespace |
| ProfilePage.TrimEndSpec | src/pages/ProfilePage.tsx:95 | removes exactly the trailing whitespace |
| ProfilePage.TrimSpec | src/pages/ProfilePage.tsx:95 | a slice with only whitespace around it, which neither starts nor ends with whitespace |
| ProfilePage.TrimEmptyIff | src/pages/ProfilePage.tsx:95 | trimming leaves nothing iff the text is all whitespace |
| ProfilePage.ValidateSocialMedia | src/pages/ProfilePage.tsx:94-96 | valid iff the value holds a character that is not whitespace |
| ProfilePage.WithField | src/pages/ProfilePage.tsx:86-92 | the named field takes the value and every other field is unchanged |
| ProfilePage.WithFieldSameValue | src/pages/ProfilePage.tsx:86-92 | writing a field's own value back changes nothing |
| ProfilePage.OrEmpty | src/pages/ProfilePage.tsx:48 | a present value is kept; null becomes '' |
| ProfilePage.FormFromProfile | src/pages/ProfilePage.tsx:45-57 | every form field is the profile's field, with null as '' |
| ProfilePage.Page.constructor | src/pages/ProfilePage.tsx:23-43 | an empty form, no error, not saving; the personal tab on first login, otherwise the submissions tab |
| ProfilePage.Page.LoadProfile | src/pages/ProfilePage.tsx:45-57 | a loaded profile replaces the form; no profile leaves it |
| ProfilePage.Page.HandleInputChange | src/pages/ProfilePage.tsx:86-92 | only the named form field changes |
| ProfilePage.Page.HandleSavePersonalInfo | src/pages/ProfilePage.tsx:98-135 | an empty handle sets the required error and sends nothing; otherwise the form is sent, a failure shows its message, and a first-login success moves to the submissions tab |
| AdminDashboard.Capitalize | src/pages/AdminDashboardPage.tsx:58 | the first character upper-cased, the rest unchanged |
| AdminDashboard.Lower | src/pages/AdminDashboardPage.tsx:116 | every character lower-cased |
| AdminDashboard.LowerOfCapitalize | src/pages/AdminDashboardPage.tsx:58 | capitalising never changes the lower-cased text |
| AdminDashboard.BeforeAt | src/pages/AdminDashboardPage.tsx:48 | the longest prefix without '@', followed by '@' when shorter than the text |
| AdminDashboard.DisplayName | src/pages/AdminDashboardPage.tsx:48 | the part of the email before '@', or 'Unknown' when the email is missing or that part is empty |
| AdminDashboard.OrDefault | src/pages/AdminDashboardPage.tsx:53 | a non-empty value is kept; null or '' becomes the fallback |
| AdminDashboard.Normalise | src/pages/AdminDashboardPage.tsx:46-60 | status capitalised; featured iff the stored status is exactly 'approved'; name, email and club defaults; counts carried over |
| AdminDashboard.StoredStatusesNormalise | src/pages/AdminDashboardPage.tsx:58 | 'pending', 'approved' and 'rejected' become the capitalised names |
| AdminDashboard.FeaturedMeansApproved | src/pages/AdminDashboardPage.tsx:58-59 | featured implies the status shows 'Approved'; 'Approved' shown implies featured unless the stored text already was 'Approved' |
| AdminDashboard.NormaliseAll | src/pages/AdminDashboardPage.tsx:46-60 | each row normalised, in order |
| AdminDashboard.FilteredSubmissions | src/pages/AdminDashboardPage.tsx:114-117 | 'all' returns every row; otherwise exactly the rows whose lower-cased status is the tab's name |
| AdminDashboard.FilteredInOrder | src/pages/AdminDashboardPage.tsx:114-117 | the filtered rows keep their order |
| AdminDashboard.FilterSeesStoredStatus | src/pages/AdminDashboardPage.tsx:114-117 | a normalised row passes a tab iff its stored status does, ignoring case |
| AdminDashboard.CountStatus | src/pages/AdminDashboardPage.tsx:120-124 | the number of rows whose status is exactly the given name: its occurrences among the rows' statuses |
| AdminDashboard.CountsOf | src/pages/AdminDashboardPage.tsx:120-124 | the three counters are the occurrences of 'Pending', 'Approved' and 'Rejected' among the rows' statuses |
| AdminDashboard.CountsAddUp | src/pages/AdminDashboardPage.tsx:120-124 | when every status is one of the three names, the counters add up to the 'All' total |
| AdminDashboard.CountBelowTab | src/pages/AdminDashboardPage.tsx:114-124 | a counter never exceeds the length of its tab |
| AdminDashboard.Page.constructor | src/pages/AdminDashboardPage.tsx:19-22 | no rows, the pending tab, loading, no error |
| AdminDashboard.Page.Visible | src/pages/AdminDashboardPage.tsx:114-117 | under 'all' every loaded row; under a status tab exactly the loaded rows whose lower-cased status is the tab's name; in load order |
| AdminDashboard.Page.SetFilter | src/pages/AdminDashboardPage.tsx:144 | only the tab changes |
| AdminDashboard.Page.FetchSubmissions | src/pages/AdminDashboardPage.tsx:29-67 | success replaces the rows with their normalised form; failure keeps them and shows the message or the fallback; loading ends |
| Credentials.AppendKeepsValid | src/pages/LoginPage.tsx:18-22 | appending text keeps a valid password valid |
| Credentials.ValidHasThreeKinds | src/pages/LoginPage.tsx:18-22 | a valid password has three distinct positions holding an upper-case letter, a lower-case letter and a digit |
| Credentials.Checklist | src/pages/LoginPage.tsx:116-130 | four lines, all met iff the password is valid |
| Credentials.RequirementsMessageHasNoEmail | src/pages/LoginPage.tsx:33 | the requirements message does not contain 'email' |
| Credentials.RequirementsMessageHasNoCredentialsCode | src/pages/LoginPage.tsx:33 | the requirements message does not contain 'invalid_credentials' |
| LoginPage.ErrorText | src/pages/LoginPage.tsx:42-51 | 'invalid_credentials' first, then 'email_not_confirmed', then 'email', otherwise the message itself |
| LoginPage.NotConfirmedImpliesEmail | src/pages/LoginPage.tsx:45-47 | a message with 'email_not_confirmed' also contains 'email' |
| LoginPage.ReplacedOnlyForKnownCodes | src/pages/LoginPage.tsx:42-51 | a message is replaced only when it mentions 'email' or 'invalid_credentials' |
| LoginPage.RequirementsShownAsWritten | src/pages/LoginPage.tsx:31-51 | the requirements error is shown as written |
| LoginPage.DefaultShownAsWritten | src/pages/LoginPage.tsx:42-51 | the fallback text is shown as written |
| LoginPage.Page.constructor | src/pages/LoginPage.tsx:9-13 | empty fields, sign-in mode |
| LoginPage.Page.SetEmail | src/pages/LoginPage.tsx:91 | only the email changes |
| LoginPage.Page.SetPassword | src/pages/LoginPage.tsx:105 | only the password changes |
| LoginPage.Page.HandleSubmit | src/pages/LoginPage.tsx:24-55 | sign-up with an invalid password calls nothing and shows the requirements error; otherwise sign-up or sign-in is called; a failure's message is mapped, success navigates; loading ends |
| LoginPage.Page.ToggleMode | src/pages/LoginPage.tsx:154-158 | the mode flips, error and password clear, email stays |
| LoginPage.DisabledMatchesChecklist | src/pages/LoginPage.tsx:146 | the button is disabled iff sign-up mode shows an unmet checklist line |
| CreateAccountPage.Page.constructor | src/pages/CreateAccountPage.tsx:9-12 | empty fields, not loading |
| CreateAccountPage.Page.SetPassword | src/pages/CreateAccountPage.tsx:102 | only the password changes |
| CreateAccountPage.Page.HandleSubmit | src/pages/CreateAccountPage.tsx:39-65 | an empty email errors first, then an invalid password; otherwise sign-up is called; a failure's message is shown unmapped, success navigates; loading ends |
| CreateAccountPage.DisabledMatchesChecklist | src/pages/CreateAccountPage.tsx:151 | the button is disabled iff a checklist line is unmet |

## Left out

- The hosted backend, the billing provider, analytics, navigation and browser storage are not modelled. Their outcomes are parameters of the handlers that call them. The create-account page's effect that reads `checkoutEmail` from storage is left out with them.
- Date strings are not parsed. Dates are integer millisecond timestamps, and "now" is a parameter. `Math.ceil` over a float division is modelled as an exact integer ceiling. The two agree for timestamps below 2^53.
- Strings are sequences of characters, not UTF-16 code units.
- `toUpperCase` and `toLowerCase` are modelled for ASCII letters only.
- The collapse state of leaderboard groups (`expandedGroups`, `showSubmissions`) is not modelled. The ranks it displays are.
- The admin approve and reject handlers write to the backend and are left out.
- The fixture records in `mockSubmissions` are not modelled. Every property is stated for any list of records.
- `ProfilePage.Page.HandleInputChange`: the field is one of the seven form inputs. The source writes whatever `name` the input carries.
- `MockData.GetBadgesForSubmission`: its own contract states only "at most one badge". The band, count and image properties are stated by the lemmas beside it.
- `LeaderboardTable.BuildLeaderboard` and `LeaderboardPage.Page.Table` build the group array from the map in descending key order. They do not model the property enumeration of `Object.entries` followed by the sort, which yields the same array.
- The deactivate-account flow and the `showDeactivateConfirm` state on the profile page only call the backend, and are left out.
- `LoginPage.Page.HandleSubmit`, `CreateAccountPage.Page.HandleSubmit` and `ProfilePage.Page.HandleSavePersonalInfo` are modelled as finishing in one step. The interval while the backend call is pending, with `isLoading` true and the submit button disabled against a second submit, is not modelled. So `LoginPage.DisabledMatchesChecklist` and `CreateAccountPage.DisabledMatchesChecklist` describe the button between handler calls only.
