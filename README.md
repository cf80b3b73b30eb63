# ParlTrack engagement scoring, modelled in Dafny

ParlTrack is a React/Supabase app in which members of a youth parliament
report their activities, an administrator confirms or rejects the reports,
and every confirmation raises the member's efficiency score (КПД). Next to
this sits a task board: tasks go to one person or to a whole committee, and
a committee's chair may close them. This project models the decision logic
of the app and proves properties of it:

- `Types`: the records of `src/types.ts` (activity, member, session, task).
- `Text`: `toLowerCase`, `includes`, `filter(Boolean)` and the
  insertion-order `Set` dedup.
- `Lists`: `find`, `filter` and `filter(...).length`.
- `Rounding`: `Math.round` and the efficiency formulas in exact integer
  arithmetic. Each formula is proved equal to its real-number statement.
- `Roster`: the member-list transitions behind the handlers of `src/App.tsx`
  (login, member creation, report submission, verification) and the
  invariant they keep.
- `App`: the application shell as a class. It holds the member list, the
  session, the open tab and the login error, and its handler methods are
  proved against `Roster`.
- `Dashboard`, `Verification`, `Members`, `Ranking`: the pure derivations
  of the components with those names.
- `Tasks`: the close permission, visibility, creation, completion and
  button gating of the task board. The board's component state is a class.

The member list held by `App.ParliamentApp` stands for the store as last
fetched. A write the store accepts is followed by a re-fetch, which the model
shows as the written list. A refused write leaves everything as it was.
Each handler takes a `stored` flag that tells the two apart. Fresh ids and
the current time are parameters.

The model follows the code in three places where one might expect a
stricter rule:
- Completing a task checks neither the close permission nor the task's
  current status. Only the card's button gating stands in the way.
- Re-verifying an already decided report credits its points again.
- Two absent ids compare equal in the close permission and in the
  visibility filter.

## Model

| member | source | states |
|---|---|---|
| Rounding.RoundHalfUp | src/App.tsx:154 | `Math.round` rounds half up: the result is within half a unit of its argument |
| Rounding.VerifiedEfficiency | src/App.tsx:144-154 | the efficiency after a confirmation never exceeds 100 and never falls below a starting value in [0, 100] for non-negative points; with no points (an unknown report) it stays as it was |
| Rounding.VerifiedEfficiencyIsRounded | src/App.tsx:147-154 | the integer formula equals `Math.round(Math.min(100, e + points / 10))` computed on reals |
| Rounding.VerifiedEfficiencyExamples | src/mockData.ts:27 | 15 points (from the sample data) on 92 round half up to 94; 20 points on 99 are capped at 100 |
| Rounding.RoundedAverageIsRounded | src/components/Dashboard.tsx:9-11 | the integer average equals `Math.round(sum / n)` |
| Rounding.RoundedAverageBounds | src/components/Dashboard.tsx:9-11 | an average of values in [lo, hi] lies in [lo, hi] |
| Text.Lower | src/components/Members.tsx:22-23 | lower-casing keeps the length and maps every character by the case table |
| Text.Contains | src/components/Tasks.tsx:89 | `includes` holds exactly when some window of the string spells the term |
| Text.NonEmpty | src/components/Members.tsx:19 | `filter(Boolean)` keeps exactly the non-empty strings |
| Text.DedupIsFirstOccurrences | src/components/Tasks.tsx:149 | the `Set` dedup keeps the first occurrence of each string: same members, no repeats |
| Text.DedupNonEmptyCommute | src/components/Members.tsx:19 | dropping empty strings before or after the dedup gives the same list |
| Lists.FindIndex | src/App.tsx:65 | the index found is the first one whose element satisfies the test; none is found only when no element does |
| Lists.Find | src/App.tsx:65 | `find` returns the first element that satisfies the test, and returns one whenever any does |
| Lists.Filter | src/components/Tasks.tsx:180 | `filter` returns an order-preserving subsequence holding every satisfying occurrence and nothing else |
| Lists.CountIsFilterLength | src/App.tsx:197 | counting matches equals the length of the filtered list |
| Roster.Login | src/App.tsx:59-71 | the admin pair opens an admin session named Администратор; otherwise a session opens exactly when some member's login and password match, for the first such member |
| Roster.FindMember | src/App.tsx:105 | the lookup finds a member exactly when one has the id |
| Roster.UpdateById | src/App.tsx:121-124 | every row with the id is patched, every other row is unchanged, and the length is kept |
| Roster.NewMember | src/App.tsx:78-91 | a created member has efficiency 0, no activities and the MEMBER role; a missing id is replaced by a fresh one |
| Roster.PointsFor | src/App.tsx:115 | a project is worth 20 points, anything else 10 |
| Roster.NewActivity | src/App.tsx:108-117 | a submitted report is pending and belongs to the session's member |
| Roster.Submit | src/App.tsx:103-133 | the member's list gains the new report at the end with the earlier reports unchanged; without a member session, with an empty member id, or for an unknown member nothing changes |
| Roster.SetStatus | src/App.tsx:140-142 | only activities with the id change status; the list keeps its length and everything else |
| Roster.CreditedPoints | src/App.tsx:146-147 | the points credited are those of the first activity with the id, or 0 when there is none |
| Roster.VerifyPatch | src/App.tsx:140-156 | the written efficiency is raised by the verification formula on `verified` and left alone on `rejected` or for an unknown report id |
| Roster.Verify | src/App.tsx:136-158 | an unknown member id changes nothing; otherwise every row with the id receives the patch built from the first such row, and every other row is unchanged |
| Roster.SubmitPreservesWellFormed | src/App.tsx:103-133 | submission keeps efficiencies in [0, 100], activities owned by their row and points non-negative |
| Roster.VerifyPreservesWellFormed | src/App.tsx:136-158 | verification keeps the invariant and changes no row without the id; on a rejection, rows with the id take the first such row's efficiency |
| Roster.VerifyNeverLowers | src/App.tsx:144-156 | with unique member ids, verification never lowers an efficiency and a rejection leaves every efficiency unchanged |
| Roster.DuplicateIdsShareFirstRow | src/App.tsx:150-156 | with two rows sharing an id, a rejection copies the first row's efficiency into the second |
| Roster.AddMemberPreservesWellFormed | src/App.tsx:75-91 | creating a member keeps the invariant |
| Roster.CreditedPointsAfterSetStatus | src/App.tsx:140-147 | re-statusing activities does not change the points a later verification credits |
| Roster.ReverifyCreditsTwice | src/App.tsx:140-147 | a second confirmation of the same report credits its points again |
| Roster.ReverifyExample | src/App.tsx:140-147 | a 20-point project confirmed twice lifts 50 to 54 instead of 52 |
| Roster.CommitteeColumn | src/components/Members.tsx:19 | the committee column has one entry per member, in order |
| App.ParliamentApp.constructor | src/App.tsx:15-21 | no session, the dashboard tab and no login error |
| App.ParliamentApp.HandleLogin | src/App.tsx:55-72 | a successful login sets the session and opens the dashboard (admin) or the profile (member); a failed one keeps the session and sets the error text |
| App.ParliamentApp.Logout | src/App.tsx:205 | the session is cleared and nothing else changes |
| App.ParliamentApp.HandleAddMember | src/App.tsx:75-100 | a stored creation appends the new member and opens the members tab; the invariant is kept |
| App.ParliamentApp.HandleAddActivity | src/App.tsx:103-133 | a stored submission yields the submitted list and opens the profile tab for a member session with a non-empty id; the invariant is kept |
| App.ParliamentApp.SubmitActivityForm | src/components/AddActivityForm.tsx:20-21 | a report with an empty title never reaches the handler; a non-empty one is submitted, and a stored submission for a member session opens the profile tab |
| App.ParliamentApp.HandleVerifyActivity | src/App.tsx:136-159 | a stored decision yields the verified list; session and tab are untouched; the invariant is kept |
| App.ParliamentApp.PendingBadge | src/App.tsx:196-198 | the badge counts the same reports as the dashboard's pending figure |
| Dashboard.EfficiencySum | src/components/Dashboard.tsx:10 | with non-negative efficiencies the sum is non-negative and at least each member's efficiency |
| Dashboard.AvgEfficiency | src/components/Dashboard.tsx:9-11 | with no members there is no number; otherwise the average is `Math.round(sum / n)` |
| Dashboard.EfficiencySumBounds | src/components/Dashboard.tsx:10 | a sum of values in [lo, hi] lies in [n·lo, n·hi] |
| Dashboard.AvgEfficiencyBounds | src/components/Dashboard.tsx:9-11 | efficiencies in [lo, hi] give an average in [lo, hi], in particular in [0, 100] |
| Dashboard.AvgEfficiencyBetweenExtremes | src/components/Dashboard.tsx:9-11 | the average lies between the smallest and the largest efficiency |
| Dashboard.TotalActivities | src/components/Dashboard.tsx:13-16 | the total is at least each member's number of reports, and zero exactly when nobody has a report |
| Dashboard.PendingFlat | src/components/Dashboard.tsx:17-18 | every flattened report is pending; a report is in the list exactly when some member has it pending; there are at most as many as reports in total |
| Dashboard.PendingActivities | src/components/Dashboard.tsx:17-19 | the dashboard's pending figure never exceeds the total, and is zero exactly when no report is pending |
| Dashboard.PendingCount | src/App.tsx:196-198 | the navigation counter never exceeds the total number of reports |
| Dashboard.PendingFiguresAgree | src/components/Dashboard.tsx:13-19 | the dashboard's pending figure equals the navigation counter and never exceeds the total |
| Dashboard.PendingCountZero | src/App.tsx:196-198 | the counter is zero exactly when no report is pending |
| Verification.Tag | src/components/AdminVerification.tsx:12 | every entry copies its report unchanged and carries the member's name |
| Verification.QueueAppend | src/components/AdminVerification.tsx:11-13 | the queue follows member-list order: the queue of two lists joined is their queues joined |
| Verification.TagPendingContents | src/components/AdminVerification.tsx:12 | one member's part of the queue is exactly its pending reports tagged with its name |
| Verification.QueueContents | src/components/AdminVerification.tsx:11-12 | an entry is in the queue exactly when it is a pending report of some member, tagged with that member's name |
| Verification.Queue | src/components/AdminVerification.tsx:11-13 | the queue holds the dashboard's flattened pending reports, one entry each, in the same order |
| Verification.QueueLength | src/components/AdminVerification.tsx:11-21 | the queue's length is the sum of the members' pending counts |
| Verification.EmptyStateIffNothingPending | src/components/AdminVerification.tsx:25-28 | the empty state shows exactly when no report is pending |
| Verification.RejectCall | src/components/AdminVerification.tsx:49 | reject passes the report's member id, its id and `rejected` |
| Verification.ConfirmCall | src/components/AdminVerification.tsx:55 | confirm passes the report's member id, its id and `verified` |
| Verification.ConfirmReachesOwner | src/components/AdminVerification.tsx:55 | in a well-formed list with unique ids, confirming an entry marks that report verified, credits its owner and changes no other member |
| Tasks.CurrentUser | src/components/Tasks.tsx:42 | without a user id there is no current user; otherwise it is the member lookup |
| Tasks.CanCloseTask | src/components/Tasks.tsx:85-92 | admins may close any task and so may the assignee, absent ids included; otherwise closing is allowed exactly for a chair of the task's committee |
| Tasks.VisibleTasks | src/components/Tasks.tsx:180 | the list shows, in order, exactly the tasks an admin, the assignee or a member of the task's committee may see |
| Tasks.AdminSeesAll | src/components/Tasks.tsx:180 | an admin's list is the whole list |
| Tasks.CloseableIsVisible | src/components/Tasks.tsx:180 | whoever may close a task also sees it |
| Tasks.CreatedTask | src/components/Tasks.tsx:58 | a created task is pending, has no result text, and carries both target fields as the form holds them |
| Tasks.CommitteelessMemberSeesIndividualTasks | src/components/Tasks.tsx:58 | a member without a committee sees every task created for an individual |
| Tasks.CommitteeOptions | src/components/Tasks.tsx:149 | the options are the distinct non-empty committees in first-occurrence order |
| Tasks.CompleteById | src/components/Tasks.tsx:72-75 | every task with the id becomes completed with the result text; the others are unchanged |
| Tasks.CompletionNoticeFor | src/components/Tasks.tsx:71-78 | a completion is reported exactly when the task is in the list, with the first matching task's title and the user's name, or Пользователь when it is missing or empty |
| Tasks.AwardCalls | src/components/Tasks.tsx:234-246 | award buttons appear exactly for admins on completed tasks, passing the task id, 5, 10 or 20, and the task |
| Text.FirstCharAbsent | src/components/Tasks.tsx:89 | a term whose first character starts no window does not occur |
| Tasks.PlainPositionIsNotLead | src/components/Tasks.tsx:89 | "Член парламента" does not name a chair |
| Tasks.ChairPositionIsLead | src/components/Tasks.tsx:89 | any position that lower-cases to "руководитель комитета", whatever its case, names a lead |
| Tasks.ChairPositionLowered | src/components/Tasks.tsx:89 | "Руководитель комитета" lower-cases to "руководитель комитета" |
| Tasks.CloseOffered | src/components/Tasks.tsx:258-260 | "Complete" is offered only on pending tasks the user sees, never beside the award buttons, and to an admin on every pending task |
| Tasks.LeadScenario | src/components/Tasks.tsx:85-92 | in a committee task, an ordinary member may not close it and the committee's chair may |
| Tasks.TaskBoard.constructor | src/components/Tasks.tsx:26-40 | the board starts closed, with no completion in progress and an empty draft |
| Tasks.TaskBoard.ToggleForm | src/components/Tasks.tsx:105-107 | the toggle flips the form open or closed and nothing else |
| Tasks.TaskBoard.EditDraft | src/components/Tasks.tsx:123-134 | typing changes only the draft's text fields |
| Tasks.TaskBoard.ChooseAssignee | src/components/Tasks.tsx:139 | choosing a person clears the committee, so at most one target is set |
| Tasks.TaskBoard.ChooseCommittee | src/components/Tasks.tsx:146 | choosing a committee clears the person, so at most one target is set |
| Tasks.TaskBoard.CreateTask | src/components/Tasks.tsx:56-65 | a stored creation adds the pending task and resets and closes the form; a refused one changes nothing |
| Tasks.TaskBoard.StartCompleting | src/components/Tasks.tsx:258-265 | the close button selects the task for completion |
| Tasks.TaskBoard.CancelCompleting | src/components/Tasks.tsx:169 | cancelling clears the selection and nothing else |
| Tasks.TaskBoard.EditResult | src/components/Tasks.tsx:166 | typing changes only the result text |
| Tasks.TaskBoard.CompleteTask | src/components/Tasks.tsx:67-83 | with no selection, or an empty one, nothing happens; a stored completion completes the selected task with the text, clears the dialog and reports title and user name |
| Members.Committees | src/components/Members.tsx:19 | "All" first, then the distinct non-empty committees with no repeats |
| Members.CommitteesAgreeWithTaskBoard | src/components/Members.tsx:19 | the directory's committee choices after "All" are the task board's options |
| Members.FilteredMembers | src/components/Members.tsx:21-26 | an order-preserving subsequence holding exactly the members that match the search and the committee |
| Members.NoFilterShowsAll | src/components/Members.tsx:21-26 | an empty search with "All" lists every member in order |
| Members.SelectingCommitteeNarrows | src/components/Members.tsx:24 | choosing a committee only removes members, keeping those of that committee |
| Members.EfficiencyTier | src/components/Members.tsx:72-75 | emerald from 80, blue from 50 below 80, amber below 50 |
| Members.TierMonotone | src/components/Members.tsx:72-75 | a higher efficiency never gets a lower tier |
| Members.CorrectionActions | src/components/Members.tsx:113-149 | admins get awards and penalties of 5 and 10 for the card's member; others get none |
| Ranking.Insert | src/components/Ranking.tsx:10 | insertion adds exactly one member |
| Ranking.SortByEfficiency | src/components/Ranking.tsx:10 | the ranking is a permutation of the members |
| Ranking.SortedIsNonIncreasing | src/components/Ranking.tsx:10 | the ranking is ordered by efficiency, highest first |
| Ranking.SortIsStable | src/components/Ranking.tsx:10 | members of equal efficiency keep their list order |
| Ranking.Rows | src/components/Ranking.tsx:27-36 | row k shows place k + 1 and the k-th ranked member |
| Ranking.PlacesAreRanks | src/components/Ranking.tsx:27-36 | the places are exactly 1..n, and a better place never has a lower efficiency |
| Ranking.ProjectCount | src/components/Ranking.tsx:52 | counts the member's projects: zero exactly when there are none |
| Ranking.ProgressColour | src/components/Ranking.tsx:60-64 | green above 90, blue above 70 up to 90, amber otherwise |

## Left out

- Supabase I/O is not modelled: queries, inserts, updates and error messages. A write either succeeds and is re-fetched, or fails and changes nothing (the `stored` parameters).
- The re-fetch orders members by efficiency (src/App.tsx:29) and tasks by due date (src/components/Tasks.tsx:51). The model keeps the list order of the last write instead.
- Tasks.TaskBoard.CreateTask: appends the new task where the re-fetch would sort it by due date, for the reason above. The task id stands for the id the store assigns.
- The real-time subscription (src/App.tsx:44-51) is not modelled, because it only re-fetches. Races between writers are out of scope.
- Random ids and `new Date()` timestamps are parameters (`freshId`, `now`).
- Tab switching other than by the handlers, the selected member, the loading flag, and alerts and other messages are left out.
- The bodies of `onAward`, `onPenalty`, `onAwardPoints`, `onTaskCreated` and `onTaskCompleted` are not part of this model. Only the arguments the UI passes are modelled.
- Notifications (`AppNotification`) are declared but never created, so they are not modelled.
- AI analytics and the Gemini service are not part of this model.
- Text.Lower: folds only ASCII and Russian Cyrillic letters, not the full Unicode case table of `toLowerCase`.
- Roster.Submit: a non-array `activities` field falls back to the empty list in the source; here `activities` is always a list.
- `null` and `undefined` are both modelled as an absent optional value. Where the code tests an id for truth (`!user?.memberId`, `!completingTaskId`), the empty string counts as absent too.
- Roster.VerifyNeverLowers: holds only when member ids are unique. The store is not shown to enforce that, and Roster.DuplicateIdsShareFirstRow shows what happens otherwise.
- Dashboard.AvgEfficiency: the NaN that `Math.round(0 / 0)` yields for an empty list is modelled as no value.
- Completing a task checks neither permission nor status, and re-verifying a decided report credits it again. Both follow the code.
- Numbers are unbounded integers. The efficiency arithmetic is exact in the source for the values that occur (tenths of integers), so no floating-point rounding is modelled.
