# Volunteer scheduling: feed, retention sweep and instrument editing

A model of three parts of a church-band scheduling application built on a
Supabase (PostgreSQL) back end. Database tables are modelled as sequences of
row datatypes (`Tables`), and queries as filters over them.

- **The notification feed** (`Feed`, `FeedSources`, `FeedOrder`, `FeedLoad`).
  The bell menu shows one signed-in member a feed built from four sources:
  - unread administrator broadcasts addressed to them (`admin-<id>`);
  - pending substitution requests naming them as the substitute (`sub-<id>`);
  - for schedules of their teams in the next seven days, a pending
    confirmation when they have not confirmed (`confirm-<id>`);
  - a reminder when they have confirmed and the schedule is at most three
    days away (`upcoming-<id>`).

  The feed is sorted with administrator messages first and later dates first
  within each group. Closing an administrator pop-up stamps the recipient row
  with `read_at` and drops the entry from the in-memory feed.
  `FeedLoad.LoadNotifications` builds the feed with the loops of `loadNotifications`.
  It is proved to yield a sorted permutation of `Feed.Collect`, the
  value-level definition of the four sources. `FeedSources` states what each
  source contains in terms of the tables.
- **The retention sweep** (`Cleanup`). A scheduled job deletes schedules dated
  more than thirty days ago, after first deleting the rows of
  `schedule_members`, `member_availability` and `substitution_requests` that
  reference them. `Cleanup.ScheduleStore` holds the four tables and updates
  them in place. Its method `CleanupOldSchedules` is proved equal to the
  value-level `Cleanup.Sweep`. Each of the five database calls may report a
  failure, given as an input.
- **The member edit dialog** (`EditMember`, `Text`). The dialog edits a list of
  instrument chips: add a trimmed, new value, or remove a chip by position.
  It loads the member's `member_instruments` rows when opened. On save it
  updates the `members` row (empty text becomes null) and replaces the
  member's instrument rows with the edited list. `Text.Trim` is ECMAScript's
  `String.prototype.trim`.

Dates are day numbers (`schedule_date`). Timestamps are integers
(`created_at`, `read_at`). "Now" and "today" are parameters.

## Model

The table lists the members whose contracts state a property. Definitions without a contract of their own, such as `Cleanup.Sweep`, `Feed.Collect`, `Feed.ScheduleItemOf`, `Feed.Confirmed`, `Text.Trim`, `EditMember.LoadInstruments`, `EditMember.ReplaceInstruments` and `EditMember.UpdateError`, carry no row; the lemmas and methods about them state what they compute.

| member | source | states |
|---|---|---|
| Tables.ParseRole | src/integrations/supabase/types.ts:498-507 | A string parses to a role exactly when it is one of the nine `member_role` labels, and the role parsed is the one with that label |
| Tables.RoleRoundTrip | src/integrations/supabase/types.ts:498-507 | Parsing a role's label gives back that role |
| Tables.FindSchedule | src/components/NotificationsDropdown.tsx:84 | The join `schedule:schedules(...)`: a found schedule is in the table with that id; none is found only when no row has that id |
| Tables.FindMember | src/components/NotificationsDropdown.tsx:85 | The join on the requesting member: a found member is in the table with that id; none only when no row has it |
| Tables.FindNotification | src/components/NotificationsDropdown.tsx:61 | The join on `admin_notifications`: a found broadcast is in the table with that id; none only when no row has it |
| Feed.NatToString | src/components/NotificationsDropdown.tsx:147 | The decimal text of the day count is non-empty and all digits, with no leading zero: it starts with 0 exactly for 0 |
| Feed.NatToStringRoundTrip | src/components/NotificationsDropdown.tsx:147 | Reading the decimal text back gives the number |
| Feed.UpcomingTitle | src/components/NotificationsDropdown.tsx:147 | The title is "Escala Hoje!" exactly on the day; otherwise "Escala em " + digits + " dia" or " dias" (plural for more than one), with the digits reading back as the day count and no leading zero |
| FeedSources.AdminSourceItems | src/components/NotificationsDropdown.tsx:55-77 | Each administrator entry comes from an unread recipient row of the member whose broadcast exists, with `admin-` + broadcast id, its `created_at` and the recipient row id; every such row yields its entry; one entry per such row |
| FeedSources.SubstitutionSourceItems | src/components/NotificationsDropdown.tsx:79-99 | Each substitution entry comes from a pending request naming the member as substitute, with `sub-` + request id and the joined schedule's date and id (absent without a schedule); every such request yields exactly one entry |
| FeedSources.TeamIdsAreTeams | src/components/NotificationsDropdown.tsx:101-109 | The team ids are exactly the teams the member belongs to; the list is empty exactly when the member is in no team |
| FeedSources.ScheduleItemCases | src/components/NotificationsDropdown.tsx:132-152 | For one schedule: its pending confirmation when not confirmed; when confirmed, its reminder at 0 to 3 days away and nothing otherwise |
| FeedSources.ScheduleSourceSound | src/components/NotificationsDropdown.tsx:101-153 | No team gives no schedule entries. Every schedule entry belongs to a schedule of the member's teams dated from today to today + 7. It is that schedule's `confirm-` entry exactly when unconfirmed, or its `upcoming-` entry with the day-count title exactly when confirmed and at most three days away. There are exactly as many entries as window schedules that call for one |
| FeedSources.ScheduleSourceComplete | src/components/NotificationsDropdown.tsx:109-153 | Every unconfirmed schedule of the window has its pending entry, and every confirmed one at most three days away has its reminder |
| FeedSources.EmptyFeed | src/components/NotificationsDropdown.tsx:53-154 | With nothing unread, no pending request and no schedule in the window, the feed is empty |
| FeedOrder.PrecedesIsStrictWeakOrder | src/components/NotificationsDropdown.tsx:156-163 | The feed order (administrator first, later dates first, undated last) is irreflexive and transitive, and so is its incomparability, so a sorted arrangement exists |
| FeedOrder.SortedFeedOrder | src/components/NotificationsDropdown.tsx:156-163 | In a sorted feed, administrator messages come first; within a group, dated entries come before undated ones and dates do not increase |
| FeedOrder.SourceCompareInconsistent | src/components/NotificationsDropdown.tsx:160-161 | The comparator as written answers "the other first" for both orders of two undated entries of one group, and (taking the same entry twice) answers 1 for an undated entry compared with itself |
| FeedOrder.Compare | src/components/NotificationsDropdown.tsx:157-163 | The corrected comparator is negative exactly when the first entry precedes the second, and positive exactly when the second precedes the first |
| FeedOrder.CompareIsConsistent | src/components/NotificationsDropdown.tsx:157-163 | The corrected comparator is antisymmetric in sign, reflexive at zero, and transitive for "not after" and for "equal" |
| FeedOrder.CompareMatchesSource | src/components/NotificationsDropdown.tsx:157-163 | The corrected comparator agrees with the written one except on pairs of undated entries of one group |
| FeedOrder.Insert | src/components/NotificationsDropdown.tsx:157 | Inserting adds exactly the one entry: the result is the feed plus that entry as a multiset |
| FeedOrder.InsertSorted | src/components/NotificationsDropdown.tsx:157-163 | Inserting into a sorted feed keeps it sorted |
| FeedOrder.InsertStable | src/components/NotificationsDropdown.tsx:157-163 | Inserting into a sorted feed keeps the order of each rank's entries, with the new entry last among those of its rank |
| FeedOrder.SortFeed | src/components/NotificationsDropdown.tsx:156-163 | The sort returns a permutation of its input in the feed order, and entries of equal rank keep their input order (a stable sort) |
| FeedOrder.SortedUnique | src/components/NotificationsDropdown.tsx:156-163 | Two sorted, stable arrangements of the same entries are the same sequence, so the sort's contract fixes the order on screen |
| FeedLoad.PushAdminMessages | src/components/NotificationsDropdown.tsx:66-77 | The loop appends exactly the administrator source to the list |
| FeedLoad.PushSubstitutionRequests | src/components/NotificationsDropdown.tsx:90-99 | The loop appends exactly the substitution source to the list |
| FeedLoad.PushScheduleRows | src/components/NotificationsDropdown.tsx:124-153 | The loop over the window's schedules appends, for each in order, its pending or reminder entry |
| FeedLoad.PushScheduleItems | src/components/NotificationsDropdown.tsx:101-154 | The team lookup and window query append exactly the schedule source (nothing without a team) |
| FeedLoad.LoadNotifications | src/components/NotificationsDropdown.tsx:41-165 | A feed is produced exactly when the user has a linked member; it is a permutation of the four sources gathered from the tables, sorted, with entries of equal rank in the order they were gathered |
| FeedLoad.RemoveRead | src/components/NotificationsDropdown.tsx:215 | An entry stays exactly when it was in the feed and is not an administrator entry of that recipient row |
| FeedLoad.RemoveReadConcat | src/components/NotificationsDropdown.tsx:215 | Removal works entry by entry: removing from a concatenation is concatenating the removals |
| FeedLoad.RemoveReadSingleton | src/components/NotificationsDropdown.tsx:215 | A single entry is dropped exactly when it is the administrator entry of that recipient row |
| FeedLoad.RemoveReadIdempotent | src/components/NotificationsDropdown.tsx:215 | Closing the same pop-up twice is closing it once |
| FeedLoad.RemoveReadSorted | src/components/NotificationsDropdown.tsx:215 | Removing entries keeps a sorted feed sorted |
| FeedLoad.MarkRecipientRead | src/components/NotificationsDropdown.tsx:211-214 | The update keeps the row count; the row with that id gets `read_at = now`, and every other row is unchanged |
| FeedLoad.AdminItemsConcat | src/components/NotificationsDropdown.tsx:66-77 | The administrator entries of concatenated recipient rows are the concatenation of each part's entries |
| FeedLoad.MarkRecipientReadConcat | src/components/NotificationsDropdown.tsx:211-214 | The update works row by row over a concatenation |
| FeedLoad.AdminItemsMarkOne | src/components/NotificationsDropdown.tsx:211-215 | For one recipient row, marking it read removes exactly its entry |
| FeedLoad.AdminSourceAfterMark | src/components/NotificationsDropdown.tsx:209-217 | The administrator entries reloaded after the update are the old ones with that recipient row's entry removed |
| FeedLoad.RemoveReadKeepsOthers | src/components/NotificationsDropdown.tsx:215 | Entries not tied to a recipient row all survive a pop-up close |
| FeedLoad.OtherSourcesKept | src/components/NotificationsDropdown.tsx:215 | Closing a pop-up keeps every substitution and schedule entry |
| FeedLoad.ReloadAfterMarkRead | src/components/NotificationsDropdown.tsx:209-217 | The update and the in-memory filter agree on the gathered feed (before sorting): gathering from the updated table gives exactly the filtered gathered feed |
| FeedLoad.ShownFeedAfterMarkRead | src/components/NotificationsDropdown.tsx:209-217 | The same for the sorted feed on screen: filtering the displayed feed gives, entry for entry and in order, the feed a reload from the updated table would display |
| FeedLoad.MarkReadTwice | src/components/NotificationsDropdown.tsx:209-217 | Marking the same message read a second time changes no reloaded feed |
| Cleanup.OldIds | supabase/functions/cleanup-old-schedules/index.ts:46 | One id per selected schedule |
| Cleanup.OldIdsMembers | supabase/functions/cleanup-old-schedules/index.ts:27-31 | The selected ids are exactly the ids of schedules dated strictly before the cutoff |
| Cleanup.CutoffBoundary | supabase/functions/cleanup-old-schedules/index.ts:20-31 | A schedule is selected exactly when it is dated 31 or more days before today |
| Cleanup.ScheduleStore.constructor | supabase/functions/cleanup-old-schedules/index.ts:18 | The store starts with the given tables |
| Cleanup.ScheduleStore.CleanupOldSchedules | supabase/functions/cleanup-old-schedules/index.ts:20-106 | The handler leaves the tables, and returns the answer, that the value-level sweep prescribes |
| Cleanup.SelectFailureChangesNothing | supabase/functions/cleanup-old-schedules/index.ts:33-36 | A failed select answers 500 with its message and changes no table |
| Cleanup.NothingOldChangesNothing | supabase/functions/cleanup-old-schedules/index.ts:38-44 | With nothing before the cutoff the answer is "No old schedules to delete" with 0, and no table changes |
| Cleanup.SweepResponse | supabase/functions/cleanup-old-schedules/index.ts:33-106 | The answer is 200 exactly when neither the select nor the schedule delete fails (or nothing is old); a 200 reports the number of schedules before the cutoff, and a 500 carries an error body |
| Cleanup.SuccessRemovesOldSchedules | supabase/functions/cleanup-old-schedules/index.ts:80-99 | After a run whose schedule delete succeeds, the schedules left are exactly the earlier ones dated on or after the cutoff |
| Cleanup.DependentsCleared | supabase/functions/cleanup-old-schedules/index.ts:49-78 | A dependent delete that succeeds leaves exactly that table's earlier rows referencing unselected schedules |
| Cleanup.DependentFailureIsolated | supabase/functions/cleanup-old-schedules/index.ts:49-78 | A failed dependent delete only leaves its own table as it was; the rest of the run is that of the run without that failure |
| Cleanup.ScheduleDeleteFailure | supabase/functions/cleanup-old-schedules/index.ts:80-89 | A failed schedule delete answers 500 with its message; the schedules are unchanged but the dependent deletes have happened |
| Cleanup.SweepOnlyRemoves | supabase/functions/cleanup-old-schedules/index.ts:49-84 | Every table after a run holds only rows it held before |
| Cleanup.RecentRowsKept | supabase/functions/cleanup-old-schedules/index.ts:49-84 | A schedule dated on or after the cutoff survives, and so does every dependent row referencing it |
| Cleanup.SweepKeepsNoDangling | supabase/functions/cleanup-old-schedules/index.ts:49-89 | When the dependent deletes succeed, a run never leaves a dependent row without its schedule |
| Cleanup.DependentFailureCanOrphan | supabase/functions/cleanup-old-schedules/index.ts:56-99 | A failed `schedule_members` delete followed by a schedule delete that is not refused answers 200 and leaves a row referencing a deleted schedule |
| Cleanup.RerunAfterSuccess | supabase/functions/cleanup-old-schedules/index.ts:38-44 | After a successful run, a second run with the same date reports zero and changes nothing |
| Cleanup.CleanRunAfterRun | supabase/functions/cleanup-old-schedules/index.ts:27-89 | After a run that failed at the schedule delete, or whose dependent deletes succeeded, a clean rerun on the same date leaves the tables one clean run would |
| Text.LeadingCount | src/components/EditMemberDialog.tsx:193 | The count of leading characters removed by trim: all of them are white space or line terminators, and the next character is not |
| Text.TrailingCount | src/components/EditMemberDialog.tsx:193 | The count of trailing characters removed by trim: all of them are white space or line terminators, and the one before is not |
| Text.TrimSlice | src/components/EditMemberDialog.tsx:193 | The trimmed value is a contiguous slice of the input with only trimmable characters cut off, and its ends are not trimmable |
| Text.TrimEmpty | src/components/EditMemberDialog.tsx:194 | The trimmed value is empty exactly when every character of the input is trimmable |
| Text.TrimIdempotent | src/components/EditMemberDialog.tsx:193 | Trimming twice is trimming once |
| EditMember.AddInstrument | src/components/EditMemberDialog.tsx:190-205 | The field is cleared. The list only grows at the end, by exactly one element exactly when the trimmed input is non-empty and not yet listed, and that element is the trimmed input. A non-empty trimmed input is listed afterwards, and a list without duplicates stays so |
| EditMember.AddInstrumentTwice | src/components/EditMemberDialog.tsx:190-205 | Adding the same text again changes nothing |
| EditMember.RemoveAt | src/components/EditMemberDialog.tsx:178 | Removing chip `idx` deletes exactly position `idx`; an index out of range removes nothing |
| EditMember.RemoveAtIndex | src/components/EditMemberDialog.tsx:178 | After removal the list is one shorter; earlier chips keep their places and later chips move one to the left |
| EditMember.RemoveAtNoDuplicates | src/components/EditMemberDialog.tsx:178 | Removal keeps a list free of duplicates |
| EditMember.RemoveAtKeepsOthers | src/components/EditMemberDialog.tsx:178 | Every value other than the removed chip's stays listed |
| EditMember.RemoveAtFrom | src/components/EditMemberDialog.tsx:178 | Every value left was at another position before |
| EditMember.RemoveAtMembers | src/components/EditMemberDialog.tsx:178 | In a list without duplicates, removal drops exactly the removed chip's value |
| EditMember.LoadInstrumentsMembers | src/components/EditMemberDialog.tsx:113-119 | A successful load lists exactly the instruments stored for the member, one per row |
| EditMember.InstrumentRows | src/components/EditMemberDialog.tsx:100-103 | One row is inserted per listed instrument, in list order, for that member |
| EditMember.ReplaceKeepsOtherMembers | src/components/EditMemberDialog.tsx:97-108 | Whatever fails, another member's instrument rows are the same, in the same order |
| EditMember.ReplaceThenLoad | src/components/EditMemberDialog.tsx:97-104 | When the delete and the insert succeed, reopening the dialog loads exactly the saved list |
| EditMember.ReplaceAfterFailedDelete | src/components/EditMemberDialog.tsx:97-108 | When the delete fails but the insert succeeds, the member keeps the old instruments followed by the saved list |
| EditMember.NullIfEmptyRoundTrip | src/components/EditMemberDialog.tsx:55-61 | A column that is null or holds non-empty text is stored back unchanged after passing through the form |
| EditMember.UpdateMember | src/components/EditMemberDialog.tsx:71-80 | The update keeps the number of member rows |
| EditMember.UpdateMemberRows | src/components/EditMemberDialog.tsx:71-80 | An invalid role or a failed call changes nothing. Other members' rows are unchanged. The member's row gets the form's name and role, and its phone, email and photo as typed, with empty text stored as null. Its id and active flag are kept |
| EditMember.UpdateStoresNoEmptyText | src/components/EditMemberDialog.tsx:76-78 | After an update no optional column of the member holds the empty string |
| EditMember.SaveUnchangedForm | src/components/EditMemberDialog.tsx:55-80 | Saving the form as first filled leaves a row without empty-text columns unchanged |
| EditMember.MemberStore.constructor | src/components/EditMemberDialog.tsx:67 | The store starts with the given tables |
| EditMember.MemberStore.HandleSubmit | src/components/EditMemberDialog.tsx:67-111 | Saving returns the update's error (always one for a role outside the enumeration, which then changes no member) and updates the member row. It then replaces the instrument rows whatever the update answered: a failed delete keeps the old rows, the insert still runs, and a failed insert adds nothing |

## Left out

- Authentication and the profile lookup: the signed-in member is an `Option` parameter (absent when there is no user or the profile has no member).
- A failed query in the feed is treated like an empty result, as the code's `?.forEach` and `|| []` do. The model expresses this as empty tables; there is no separate error input.
- The `.order("schedule_date")` of the window query: the feed is re-sorted at the end anyway. Rows are processed in table order.
- FeedOrder.SortFeed: sorts with the corrected comparator, under which ECMA-262's stable sort gives the one order the model proves. The comparator as written already breaks ECMA-262's requirement that every entry compare equal to itself, since it answers 1 for an undated entry against itself; engines never compare an entry with itself, so with at most one undated entry per group the order shown is the modelled one. Once two undated entries share a group, the comparator as written is inconsistent and the order the application then shows is implementation-defined; that order is not modelled.
- Time of day and time zones: `differenceInDays`, `toISOString` and the mixing of local and UTC dates are modelled as whole day numbers, and `created_at` as an integer.
- The titles, descriptions and other display text of feed entries, except the reminder title; toasts, dialogs, loading flags and all rendering.
- FeedLoad.RemoveRead: the in-memory filter runs whether or not the `read_at` update succeeded. The model relates it only to a successful update.
- FeedLoad.MarkRecipientRead: a second mark overwrites `read_at` with the new time. The feed does not depend on that value, only on whether it is set.
- `.maybeSingle()`: several availability rows for one member and schedule make it return an error. The model then treats the schedule as unconfirmed, as the code does; no error value is carried.
- Cleanup: every failure is an input, and the answer carries that failure's message. The real handler answers "Unknown error" when the thrown value is not an `Error` instance, and the model does not distinguish this.
- Cleanup: exceptions other than the reported database errors (network, environment), logging, CORS headers and the OPTIONS preflight.
- Cleanup: foreign keys and cascades of the database. The failure of the schedule delete is an independent input, so a dependent failure does not force it.
- Cleanup: the PostgREST row limit on the select. All old schedules are selected in one run.
- Generated `id` and `created_at` values of inserted `member_instruments` rows. Rows are (member, instrument) pairs.
- The required-name check of the form, which the browser enforces before submit.
- Creating member accounts, the substitution-request workflow and the other screens of the application are not part of this model.

## Findings

| source | as written | input that shows it | evidently intended | confidence | as-written member | corrected member |
|---|---|---|---|---|---|---|
| src/components/NotificationsDropdown.tsx:160-161 | The comparator returns 1 whenever `a` has no date, so two undated entries of the same group each ask to be placed after the other, and an undated entry even asks to be placed after itself. The comparator is inconsistent, and ECMAScript then leaves the sort order implementation-defined | Two substitution requests whose schedule join finds nothing (no date), compared in both orders | Two undated entries compare equal (0), so undated entries sit at the end of their group in a well-defined order | not executed | FeedOrder.SourceCompareInconsistent | FeedOrder.CompareIsConsistent |
