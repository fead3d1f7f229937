# Insaka conference app: a verified model of its record-keeping core

The Insaka conference app is a Streamlit web application for a mining
conference. It has delegate, speaker and exhibitor pages, an admin area, and a
progressive-web-app service worker. Most of it is user interface. A handful of
self-contained pieces keep records in small JSON and CSV stores, and this
project models those pieces and proves what they promise:

- **Notification store** (`notifications.dfy`): adding notifications,
  per-user views ordered by priority and age, marking read, clearing, cleanup
  of old records, badge text, and the interaction and connection notices.
- **Delegate registry** (`staff.dfy`): the duplicate key, the next-ID rule,
  registration, bulk and per-day check-in, the check-in status, bulk import,
  and the schema pass with phone formatting.
- **Post engagement ledger** (`engagement.dfy`, with the relative-time labels
  in `reltime.dfy`): likes, shares, comments and views, counter updates,
  the comment and trending orders, and the header badge.
- **Matchmaking log** (`matchmaking.dfy`): connection status, the request
  life cycle, marking chat messages read, de-duplicating the conversations
  list, and the recommendation score over the registry as load_delegates
  reloads it, where a blank cell is NaN.
- **QR login codes** (`qr.dfy`): the payload, the ordered scan checks, the
  24-hour expiry, authentication against the registry, the speaker match,
  and badge text truncation.
- **Offline cache agent** (`sw.js`, modelled in `sw.dfy`): install, activation
  clean-up, fetch routing, push notices and notification clicks. The agent
  is the class `CacheAgent` over its cache names and cache storage.
- **Translation look-up** (`translations.dfy`) and **upload file naming**
  (`uploads.dfy`).
- **Admin content lists**: announcements (`announcements.dfy`), news
  (`news.dfy`) and PR posts (`prposts.dfy`). PR posts have a `Board` class
  holding the list that the admin page appends to, sorts in place and pops.

Shared pieces:

- `wrappers.dfy`: `Option`.
- `text.dfy`: Python's `strip`, `lower`, `split`, integer texts.
- `seqs.dfy`: filtering, counting, first match, de-duplication, and one
  stable descending sort, which stands for every `sort(reverse=True)` of the
  source.
- `priority.dfy`: the priority ranks.

How the model represents the source:

- Every store is a `seq` of datatypes, passed in and returned. Reading and
  writing the file is left implicit.
- The clock is a parameter `now`, in whole seconds.
- A stored ISO timestamp is an optional instant. A record without one sorts
  below every dated record, as `""` does.
- Where the source loops over a list, the model has a `method` with a
  `while` loop. The loop is proved against a function, and the lemmas are
  stated about that function.
- The delegate registry is reloaded from its CSV file before each operation,
  and pandas reads an empty saved text back as NaN. The registry functions
  therefore take a `Reading`: how an imported cell reads, how a stored row's
  key is computed, how a day cell reads, and `number`, what `float()` makes
  of a phone text when the save formats the Phone column. `AsWrittenWith(load,
  number)` is the code's own reading for a reload `load` (`AsWritten(number)`
  for pandas' defaults); `AsIntended(number)` treats an empty cell as the
  blank text or unset day it stands for. A saved row's phone is the
  `FormatPhone` of the text it was given. Lemmas that hold for every reading take it as a parameter; the
  Findings name the ones that hold only as intended. The matchmaking
  recommendations read the same reload: a registry cell is a `Cell`, with
  `None` for NaN.

## Model

| member | source | states |
|---|---|---|
| Priority.Rank | lib/notifications.py:68-70 | Urgent ranks 4, High 3, Low 1, and Normal or any other text 2 |
| Notifications.Add | lib/notifications.py:33-57 | appends exactly one record and leaves the earlier ones unchanged; the new record has id previous length + 1, is unread with no read time, is created now, and its data defaults to the empty map |
| Notifications.AddKeepsIdsArePositions | lib/notifications.py:45 | a store built only by adding keeps every id equal to its position + 1 |
| Notifications.IdsArePositionsUnique | lib/notifications.py:45 | in such a store no two records share an id |
| Notifications.UserNotifications | lib/notifications.py:59-74 | the view is a permutation of the user's records (only the unread ones with `unreadOnly`), descending by priority rank and then by creation time |
| Notifications.UserNotificationsMembers | lib/notifications.py:61-65 | a record is in the view exactly when it belongs to the user and, with `unreadOnly`, is unread |
| Notifications.UserNotificationsStable | lib/notifications.py:69-72 | records with equal rank and timestamp keep their stored order |
| Notifications.NotificationCount | lib/notifications.py:99-102 | the count is the number of records the view selects |
| Notifications.CountAfterAdd | lib/notifications.py:99-102 | adding a record for `u` raises each count of `u` by one and no other user's count |
| Notifications.MarkRead | lib/notifications.py:76-86 | returns true exactly when some record has the id; then only the first such record is marked read, with a read time; otherwise the store is unchanged |
| Notifications.MarkAllRead | lib/notifications.py:92-95 | the saved store has one record for each stored record, in place; what it does to each user's records is stated by MarkAllReadOwn, MarkAllReadOthers and MarkAllReadEffect |
| Notifications.MarkAll | lib/notifications.py:88-97 | the loop saves every unread record of the user as read and leaves everything else as it was |
| Notifications.MarkAllReadOwn | lib/notifications.py:92-95 | afterwards no record of the user is unread |
| Notifications.MarkAllReadOthers | lib/notifications.py:93 | another user's records are unchanged and in the same order |
| Notifications.MarkAllReadEffect | lib/notifications.py:88-97 | the user's unread count becomes 0 and every other user's view is unchanged |
| Notifications.KeepAfterClear | lib/notifications.py:128 | after clearing `u`, `u` has no record left, and every other user has the same records in the same order |
| Notifications.ClearAllEffect | lib/notifications.py:125-129 | after clearing, the user's view is empty and every other user's view is unchanged |
| Notifications.ClearAll | lib/notifications.py:125-129 | a record survives clearing `u` exactly when it is stored and not `u`'s |
| Notifications.ClearAllLength | lib/notifications.py:128 | clearing `u` removes exactly `u`'s records |
| Notifications.ClearThenAddReusesId | lib/notifications.py:45 | in any store numbered by position where `u` owns `c` records and the record at position \|store\| − c + 1 is not `u`'s (for one record of `u`: any record but the last), clearing `u` and adding gives the new record the id of a surviving record, so ids are not unique |
| Notifications.Cleanup | lib/notifications.py:141-157 | the loop keeps exactly the records that the cleanup rule keeps, in order |
| Notifications.CleanupKept | lib/notifications.py:145-155 | a record is kept exactly when it is undated or created after the cutoff; a second cleanup with the same cutoff removes nothing |
| Notifications.Badge | lib/notifications.py:104-111 | the badge is empty exactly when the count is at most 0; otherwise it is the span around the label |
| Notifications.BadgeLabel | lib/notifications.py:107-110 | the label text: the count, or `max_show` followed by "+" above it; BadgeLabelReadsBack states what it reads back as |
| Notifications.BadgeLabelReadsBack | lib/notifications.py:107-110 | the label reads back as the count, or as `max_show` followed by "+" once the count exceeds it |
| Notifications.PriorityColor | lib/notifications.py:131-139 | the colour of a priority; PriorityColorFollowsRank states that it follows the rank |
| Notifications.PriorityColorFollowsRank | lib/notifications.py:131-139 | two priorities get the same colour exactly when they have the same rank, with an unknown priority coloured as Normal |
| Notifications.InteractionMessage | lib/notifications.py:212-215 | the message is "Someone <type>d your content", followed by ": ", the first 100 characters and "..." when there is content |
| Notifications.InteractionExcerpt | lib/notifications.py:214-215 | the excerpt in the message is the first min(length, 100) characters of the content, all of it when it is short |
| Notifications.InteractionNotification | lib/notifications.py:197-224 | appends one Normal "interaction" notice to the recipient, with the type's title and the sender and type as data |
| Notifications.ConnectionNotification | lib/notifications.py:226-250 | appends one Normal "connection" notice to the recipient, with the action's title, the fixed message and the sender and action as data |
| Notifications.TitlesDistinguishKinds | lib/notifications.py:204-234 | an unknown interaction type gets "New Interaction" and an unknown action "Connection Update"; the four known types have distinct titles |
| Staff.DedupeKeyNormalised | staff_service.py:69-70 | the key ignores surrounding white space and letter case of name and organization |
| Staff.DedupeKeyParts | staff_service.py:69-70 | when neither normalised part contains "\|", the key splits back into the two parts |
| Staff.DedupeKeyCollides | staff_service.py:69-70 | a "\|" inside a name or organization lets two different people share one key |
| Staff.MaxNumericIdIsMax | staff_service.py:80-84 | the largest numeric ID bounds every numeric ID and is one of them, unless it is 0 |
| Staff.NextId | staff_service.py:72-86 | `_next_id`; NextIdCases and NextIdFresh state it |
| Staff.NextIdCases | staff_service.py:72-86 | the next ID is "1" when no ID is numeric, and otherwise exceeds every numeric ID |
| Staff.NextIdFresh | staff_service.py:72-86 | the next ID differs from every existing ID |
| Staff.MaxNumericIdAppend | staff_service.py:230-245 | appending a numeric ID at least the old maximum makes it the new maximum |
| Staff.Loaded | staff_service.py:53-58 | a saved text reloads as NaN exactly when it is one of pandas' default NA texts, "" among them, and otherwise as itself |
| Staff.NanText | staff_service.py:66-67 | `_norm_str` of a NaN cell is "nan" |
| Staff.BlankReloadsAsNan | staff_service.py:53-58 | under any reload that reads "" as NaN, a blank cell's part of the key is "nan", so the blank text does not survive the reload |
| Staff.BlankKeyDiffers | staff_service.py:69-70 | a key with a blank organization never equals a key whose organization part is "nan" |
| Staff.Register | staff_service.py:88-132 | under either reading, rejects in this order a blank name, a blank category and a name\|organization key that some stored row's key (as written computed on the reloaded cells, staff_service.py:104-110) equals, each time with the table unchanged; otherwise appends the trimmed row under the next ID, not checked in, with the phone as save_staff_df formats the trimmed text (staff_service.py:49, 60-61), and says "Saved: <id>" |
| Staff.RegisterThenDuplicate | staff_service.py:106-114 | for any reading under which the new row's stored key is its registration key, the same person in any case or spacing is refused afterwards, and the new ID is unique |
| Staff.RegisteredPhoneLosesZero | staff_service.py:43-45 | when "0977123456" reads as the float 977123456.0, the registered row is saved with the phone "977123456": the leading zero is lost |
| Staff.RegisteredPhoneOfNumber | staff_service.py:43-45 | a registered phone whose trimmed text is no blank, "nan" or "+" text and reads as the number k is saved as the text of k |
| Staff.RegisteredPhoneStable | staff_service.py:34-49 | for a float reading that reads integer texts as themselves, a registered row's phone is unchanged by the next save |
| Staff.NineDigitPhone | staff_service.py:45 | `str()` of 977123456 is "977123456" |
| Staff.PhoneDigitAppended | staff_service.py:45 | the text of 10n + d is the text of n followed by the digit d |
| Staff.RegisteredKeyKept | staff_service.py:108-126 | read as intended the registered row's stored key is always its registration key; as written it is when the trimmed name and organization survive the reload |
| Staff.BlankOrganizationRegisteredTwice | staff_service.py:104-132 | as written, with any reload that reads "" as NaN, a person registered with a blank organization is registered again with the very same details, and the table grows by two rows |
| Staff.SetCheckedIn | staff_service.py:135-149 | updated + not found is the number of IDs given; updated counts the IDs present; every row of a given ID gets the flag; the table is unchanged when nothing was updated |
| Staff.SetDailyCheckin | staff_service.py:151-166 | rejects a day outside 1..5, then an unknown ID; succeeds exactly otherwise and then sets only that day's cell of the matching rows |
| Staff.DayAsWritten | staff_service.py:178-182 | as written, `bool(cell)` of a day cell is true unless the day was set to false: a never-set (NaN) cell reads true |
| Staff.DayAsIntended | staff_service.py:178-182 | read as intended, a day cell is true exactly when the day was set to true |
| Staff.DailyStatus | staff_service.py:168-183 | "not found" exactly for an unknown ID; otherwise five flags, day d being the d-th day cell of the first row with the ID read the given way (DayAsWritten as written, DayAsIntended as intended) |
| Staff.FreshRegistrationReadsCheckedIn | staff_service.py:176-182 | as written, a delegate who has just registered is reported checked in on all five days |
| Staff.DailyStatusReadsBack | staff_service.py:151-183 | setting a day for a present ID is read back by the status of that ID's first row |
| Staff.DailyStatusAfterSet | staff_service.py:163-182 | read as intended, a new delegate is checked in on no day, and setting one day is reported for that day only |
| Staff.AddMissing | staff_service.py:21-26 | every listed column the frame lacks is added, filled with False for CheckedIn and "" otherwise; present columns are untouched |
| Staff.FillMissingColumns | staff_service.py:21-26 | the column loop computes exactly that frame |
| Staff.FormatPhone | staff_service.py:34-48 | blank, NaN and "nan" become ""; a value starting with "+" is kept, trimmed |
| Staff.FormatPhoneStable | staff_service.py:34-49 | formatting an already formatted phone number changes nothing |
| Staff.FormatPhoneKeepsPlus | staff_service.py:40-41 | a trimmed "+" number is kept as it is |
| Staff.FormatPhoneOfInteger | staff_service.py:43-45 | the text of an integer is kept as it is |
| Staff.FormatPhoneOfText | staff_service.py:47-48 | trimmed text that is no number is kept as it is |
| Staff.Schema | staff_service.py:51 | the pass keeps exactly the listed columns |
| Staff.EnsureSchema | staff_service.py:19-51 | `_ensure_schema` over the registry's columns; EnsureSchemaTypes and EnsureSchemaIdempotent state it |
| Staff.SchemaTypes | staff_service.py:27-51 | for every row the schema pass gives a boolean CheckedIn and text ID and Phone cells, all of the table's height |
| Staff.EnsureSchemaTypes | staff_service.py:19-51 | the same for the registry's own column list |
| Staff.CoerceIdempotent | staff_service.py:28-49 | each column coercion is idempotent |
| Staff.SchemaIdempotent | staff_service.py:19-51 | applying the schema pass to its own output changes nothing |
| Staff.EnsureSchemaIdempotent | staff_service.py:53-58 | a table loaded and saved again is unchanged by the schema pass |
| Staff.ImportTextIsStrip | staff_service.py:233-241 | the as-written cell reading is `str(cell).strip()`; the intended one differs from it only by reading an empty cell as "" |
| Staff.MissingNameImportedAsNan | staff_service.py:205-206 | as written, a row with an empty Name cell survives the blank-name filter as its own candidate and is imported under the name "nan" |
| Staff.SingleCandidate | staff_service.py:205-212 | a single row whose name reads non-blank is the whole candidate list |
| Staff.ImportKeepsOnlyNamed | staff_service.py:205-206 | read as intended, a row survives exactly when its name is present and not blank |
| Staff.CandidatesFromSheet | staff_service.py:205-212 | every candidate is a row of the sheet |
| Staff.ImportedBlankPhone | staff_service.py:237 | an empty Phone cell is saved as "": as written it is imported as "nan", which format_phone makes "", and as intended it is "" already |
| Staff.ImportStaff | staff_service.py:185-249 | under either reading, added is the number of de-duplicated named rows whose key is not taken in the reloaded table; skipped is the de-duplicated count minus added; the table grows by exactly those rows, numbered from the next ID on, each phone as save_staff_df formats the cell's text (staff_service.py:49, 60-61) |
| Staff.AppendRows | staff_service.py:227-245 | the loop, taking the next ID of the growing table each time, numbers the rows one by one from the next ID |
| Staff.NewRowsAt | staff_service.py:229-244 | added row k is incoming row k, read cell by cell, under ID base + k |
| Staff.AppendStep | staff_service.py:230-245 | one turn of the loop appends the next row of the numbering and raises the largest numeric ID by one |
| Staff.ImportStep | staff_service.py:230-245 | appending a row with the next ID raises the largest numeric ID by one |
| Staff.ToAddSpec | staff_service.py:204-220 | every row to add is a named row of the sheet whose key is not taken in the reloaded table, and no two rows to add share a key |
| Staff.RowKeyKeptAsIntended | staff_service.py:209-241 | read as intended, every imported row's stored key is its incoming key |
| Staff.RowKeyKeptAsWritten | staff_service.py:209-241 | as written, an imported row's stored key is its incoming key when its read name and organization survive the reload |
| Staff.ImportAddsNoDuplicate | staff_service.py:209-220 | for any reading under which imported rows keep their keys (read as intended every sheet; as written a sheet whose names and organizations survive the reload), no added row's stored key is taken in the table or shared with another added row |
| Staff.ReimportAddsNothing | staff_service.py:209-249 | for any reading under which imported rows keep their keys, importing the same sheet a second time adds nothing |
| Staff.CandidateKeyTaken | staff_service.py:214-247 | once the rows to add are appended, a candidate's key is taken: by the old table or by its own new row |
| Staff.ReimportAsIntended | staff_service.py:185-249 | read as intended, importing the same sheet a second time adds nothing |
| Staff.BlankOrganizationReimported | staff_service.py:200-220 | as written, with any reload that reads "" as NaN, a named sheet row with a blank organization (as a sheet without that column gives, staff_service.py:201-202) whose key is new is added by the first import and added again by a second import of the same sheet |
| Staff.ImportedAgain | staff_service.py:214-249 | a named row with a new key whose stored row has another key is added by each of two imports |
| Staff.SingleImport | staff_service.py:204-249 | a single named row with a new key is added alone, as one row under the next ID |
| Staff.KeyNotTakenAfter | staff_service.py:214-220 | appending a row with another key leaves a key that was free still free |
| Engagement.EngagementBadge | pages/10_Interactive_PR.py:36-43 | "" exactly for a count at most 0, " (max_show+)" above the cap, and " (count)" otherwise |
| Engagement.EngagementNotifications | pages/10_Interactive_PR.py:46-59 | the loop sums likes + shares + views over the posts, a missing counter reading 0 |
| Engagement.TotalPositive | pages/10_Interactive_PR.py:61-66 | with no negative counter the total is non-negative and is positive exactly when some post has a like, share or view |
| Engagement.UserInteractions | pages/10_Interactive_PR.py:143-162 | liked and shared are true exactly when the user has a like or share on the post; the comments are the user's comment records on it, in stored order |
| Engagement.UpdatePostEngagement | pages/10_Interactive_PR.py:164-182 | the search loop stops at the first post with the id and gives the update's outcome |
| Engagement.BumpedCounts | pages/10_Interactive_PR.py:169-177 | a bump moves the named counter by the action's delta and nothing else |
| Engagement.Engaged | pages/10_Interactive_PR.py:164-182 | the counter update of a post; EngagedFails, EngagedEffect and EngagedUndone state its outcome |
| Engagement.EngagedFails | pages/10_Interactive_PR.py:167-182 | nothing is saved exactly when no post has the id; the update raises exactly when the first such post has no counters and the action is tracked |
| Engagement.EngagedEffect | pages/10_Interactive_PR.py:167-182 | only the first post with the id changes, and only in its named counter: a view by +1 even when `increment` is false, a like or share by ±1 with no floor |
| Engagement.AddInteraction | pages/10_Interactive_PR.py:184-222 | recording an interaction; AddInteractionEffect states its effect |
| Engagement.AddInteractionEffect | pages/10_Interactive_PR.py:184-222 | appends one record with id previous length + 1 and mentions defaulting to []; a like or share moves that post's counter by +1 and nothing else does; one notice goes to "all" |
| Engagement.RemoveInteraction | pages/10_Interactive_PR.py:224-236 | taking an interaction back; RemoveInteractionEffect states its effect |
| Engagement.RemoveInteractionEffect | pages/10_Interactive_PR.py:224-236 | every (post, user, type) match goes and every other record stays; a like or share counter moves once by −1 however many records matched |
| Engagement.EngagedUndone | pages/10_Interactive_PR.py:169-174 | taking a like or share back after giving it restores every counter of every post |
| Engagement.LikeThenUnlike | pages/10_Interactive_PR.py:184-236 | liking and then unliking restores the log, when the user had not liked the post before, and every counter |
| Engagement.PostComments | pages/10_Interactive_PR.py:238-243 | a permutation of the post's comment records, ascending by creation time |
| Engagement.PostCommentsMembers | pages/10_Interactive_PR.py:241-242 | exactly the post's comments, with equal timestamps in stored order |
| Engagement.Trending | pages/10_Interactive_PR.py:285-289 | a permutation ordered by likes + 2 × shares descending, then newest first; the same order as pages/9_External_Content.py:224-228 |
| Engagement.TrendingStable | pages/10_Interactive_PR.py:285-289 | posts with equal score and timestamp keep their stored order, and a list already in order is left as it is |
| Engagement.ViewAll | pages/9_External_Content.py:347-360 | saves exactly when every post has counters, and then every post's views go up by one; otherwise nothing is written |
| Engagement.ViewedAll | pages/9_External_Content.py:353-355 | one post for each stored post, each viewed once more; ViewedAllEffect states what changes |
| Engagement.TotalViewedAll | pages/9_External_Content.py:353-355 | the view loop raises the engagement total by the number of posts |
| Engagement.ViewedAllEffect | pages/9_External_Content.py:353-355 | every post gains exactly one view and no like or share, and nothing else changes |
| RelativeTime.Ladder | pages/10_Interactive_PR.py:103-141 | the label of the post pages; LadderIsAgo, LadderOfFuture and FutureReadsAsHours state what it reads |
| RelativeTime.LadderIsAgo | pages/10_Interactive_PR.py:103-141 | for a past timestamp the label names the largest unit among month, week, day, hour and minute that fits, in whole units, with "just now" below two minutes; pages/9_External_Content.py:110-148 is the same code |
| RelativeTime.LadderOfFuture | pages/10_Interactive_PR.py:108-133 | a timestamp up to a day in the future reads as if it were a day older |
| RelativeTime.FutureReadsAsHours | pages/10_Interactive_PR.py:128-133 | a timestamp up to 23 hours ahead of the clock, e seconds in the past with −82800 ≤ e < 0, reads as (86400 + e) / 3600 hours, between 1 and 23; one minute ahead reads "23 hours ago" |
| RelativeTime.Seconds | pages/10_Interactive_PR.py:128 | the seconds part of an elapsed time lies in 0 up to a day |
| RelativeTime.CountLabelIsLabel | pages/11_Matchmaking.py:191-198 | for a count of at least 1 the matchmaking wording equals the post pages' wording |
| RelativeTime.Compact | pages/11_Matchmaking.py:183-200 | the label of the matchmaking page; CompactIsDaysHoursMinutes and CountLabelIsLabel state what it reads |
| RelativeTime.CompactIsDaysHoursMinutes | pages/11_Matchmaking.py:183-200 | the matchmaking label is the largest of day, hour and minute that fits, in whole units, "just now" below one minute |
| RelativeTime.WithinWeekIff | pages/Admin_Announcements.py:171-172 | `.days <= 7` holds exactly for an age below eight days, future ages included |
| Matchmaking.MatchmakingCountAppend | pages/11_Matchmaking.py:90-100 | the badge counts pending requests and 'sent' chat messages to the user; appending a record changes it by that record alone |
| Matchmaking.UserInteractions | pages/11_Matchmaking.py:202-205 | exactly the records sent by or to the user |
| Matchmaking.ConnectionStatus | pages/11_Matchmaking.py:207-217 | the status between two users; ConnectionStatusFirst and ConnectionStatusSymmetric state it |
| Matchmaking.ConnectionStatusFirst | pages/11_Matchmaking.py:207-217 | the status is that of the first record between the two in either direction, 'pending' when it has none, and 'none' only when there is no such record |
| Matchmaking.ConnectionStatusSymmetric | pages/11_Matchmaking.py:212-215 | the status is the same with the users swapped |
| Matchmaking.SendRequest | pages/11_Matchmaking.py:307-325 | appends one pending connection_request with id length + 1 and notifies the recipient |
| Matchmaking.SendRequestEffect | pages/11_Matchmaking.py:302-325 | for two users with no record, afterwards both see 'pending', the recipient's badge count rises by one, and ids stay positions |
| Matchmaking.SetStatus | pages/11_Matchmaking.py:384-389 | the accept and decline loop gives the log with the first record of the id set to the new status |
| Matchmaking.Accept | pages/11_Matchmaking.py:382-396 | the request's first record becomes 'accepted' and the sender gets a connection notice; RespondEffect, RespondToFirst and ConnectionNotification state the parts |
| Matchmaking.Decline | pages/11_Matchmaking.py:403-410 | the request's first record becomes 'declined' and nobody is notified; RespondEffect and RespondToFirst state it |
| Matchmaking.RespondEffect | pages/11_Matchmaking.py:405-410 | only the first record with the id changes, and only in its status |
| Matchmaking.RespondToFirst | pages/11_Matchmaking.py:384-389 | accepting (declining) the request that opened the exchange makes both users see 'accepted' ('declined') |
| Matchmaking.OpenChat | pages/11_Matchmaking.py:524-533 | the mark-read loop over the shown messages computes the message-by-message marking |
| Matchmaking.OpenChatEffect | pages/11_Matchmaking.py:524-533 | with ids as positions, opening the chat marks exactly the partner's messages to the user still 'sent' as 'read' |
| Matchmaking.OpenChatReadsAll | pages/11_Matchmaking.py:518-533 | afterwards the user has no unread message from the partner and every other record is as it was |
| Matchmaking.BuildConnections | pages/11_Matchmaking.py:444-460 | the loop lists the partner of every accepted record of the user, in order |
| Matchmaking.DedupeConnections | pages/11_Matchmaking.py:464-469 | the seen-set loop keeps the first entry per partner |
| Matchmaking.DedupeConnectionsSpec | pages/11_Matchmaking.py:464-469 | every entry comes from the list, each partner appears once, and none is lost |
| Matchmaking.LoadedCell | staff_service.py:53-58 | a saved text reloads as NaN exactly when it is one of pandas' NA texts, and otherwise as itself |
| Matchmaking.LoadDelegate | pages/11_Matchmaking.py:161-166 | a registry row as load_delegates reads it: the ID and name kept, the organization, category and role title reloaded, a blank role title as NaN |
| Matchmaking.RoleTestAgrees | pages/11_Matchmaking.py:1019-1021 | the role test as written raises exactly when both cells are truthy and `.lower()` reaches a NaN cell (mine, or theirs once mine has a word); otherwise it equals the intended test, where a blank title overlaps nothing |
| Matchmaking.ScoreAsWrittenAgrees | pages/11_Matchmaking.py:1008-1022 | scoring one delegate as written raises exactly when its role test does, and otherwise gives the intended score |
| Matchmaking.ScoreRanks | pages/11_Matchmaking.py:1008-1022 | the score is between 0 and 18 and positive exactly when a criterion holds; the same organization outranks anything without it, and the same category outranks a role overlap; a shared organization needs two equal non-NaN cells, so a blank organization scores at most 8 |
| Matchmaking.BlankRoleNoBonus | pages/11_Matchmaking.py:1019-1021 | as intended, a blank or NaN role title on either side adds nothing: the score is the organization and category part |
| Matchmaking.BlankCellsAsWritten | pages/11_Matchmaking.py:1011-1021 | two delegates registered with a blank organization, one also with a blank role title: no organization bonus, and scoring raises in both directions once the other's title has a word |
| Matchmaking.ScoredMembers | pages/11_Matchmaking.py:1008-1025 | the intended kept matches are exactly the delegates with a positive score, each with its score |
| Matchmaking.ScoredAsWrittenAgrees | pages/11_Matchmaking.py:1008-1025 | the loop as written raises exactly when some delegate's role test raises, and otherwise builds the intended list |
| Matchmaking.ScoreOne | pages/11_Matchmaking.py:1009-1022 | the loop body, criterion by criterion, computes the as-written score of one delegate |
| Matchmaking.Recommend | pages/11_Matchmaking.py:998-1033 | the tab's loop, sort and cut: an AttributeError exactly when TabRaises, and otherwise the intended recommendations |
| Matchmaking.Recommendations | pages/11_Matchmaking.py:998-1033 | the intended recommendation list; RecommendationsSpec and RecommendationsStable state it |
| Matchmaking.RecommendationsAsWritten | pages/11_Matchmaking.py:998-1033 | the tab as written; RecommendationsAsWrittenAgrees and BlankRoleEndsTab state it |
| Matchmaking.RecommendationsAsWrittenAgrees | pages/11_Matchmaking.py:998-1033 | the tab as written raises exactly when the user is registered and some other delegate's role test raises, and otherwise shows the intended recommendations |
| Matchmaking.BlankRoleEndsTab | pages/11_Matchmaking.py:1019-1021 | a registered user whose role title has a word cannot open the tab once another delegate's role title is NaN |
| Matchmaking.RecommendationsSpec | pages/11_Matchmaking.py:1024-1033 | at most five are shown, each another delegate with its positive score, highest first; a scoring delegate left out is outscored by all five shown; unless it raises, the tab as written shows exactly these |
| Matchmaking.RecommendationsStable | pages/11_Matchmaking.py:1028 | delegates with the same score keep their registry order, in the intended list and in the list the loop as written builds |
| QrSystem.Generate | lib/qr_system.py:22-32 | the payload has exactly the six fields, the login type, the ID as text, the name, the organization, the stamp and the conference name |
| QrSystem.ScanCode | lib/qr_system.py:457-489 | the ordered scan checks; ScanReportsFirstMissing, ScanAccepts, ScanRejectsType and ScanExpiry state their outcome |
| QrSystem.ScanReportsFirstMissing | lib/qr_system.py:463-466 | the missing field reported is the first absent one in the order type, delegate_id, delegate_name, organization, timestamp |
| QrSystem.MissingLabels | lib/qr_system.py:466 | the five missing-field messages are distinct |
| QrSystem.ScanAccepts | lib/qr_system.py:457-489 | a scan succeeds exactly on an object passing every check, and then returns the payload unchanged |
| QrSystem.ScanRejectsType | lib/qr_system.py:469-470 | with every field present, any type other than "delegate_login" is refused |
| QrSystem.ScanExpiry | lib/qr_system.py:473-482 | a well-formed code is refused as expired exactly when it is more than 86400 seconds old; exactly 86400 is accepted |
| QrSystem.GenerateThenScan | lib/qr_system.py:457-484 | a generated payload scanned within a day of its timestamp is accepted with its own fields |
| QrSystem.Authenticate | lib/qr_system.py:491-517 | a scan error, or the registry look-up of the scanned payload; AuthenticateScansFirst and IdentifyOrder state the order of the checks |
| QrSystem.Identify | lib/qr_system.py:499-517 | the registry look-up; IdentifyOrder, IdentifyUnknown and RegisteredDelegateNotFound state its outcome |
| QrSystem.AuthenticateScansFirst | lib/qr_system.py:493-496 | a scan error is reported as it is, before the table is consulted |
| QrSystem.IdentifyOrder | lib/qr_system.py:499-517 | success needs, in order, an integer ID in the table, the first such row's trimmed name and then organization equal to the code's |
| QrSystem.RegistryIdsAreText | staff_service.py:30 | no row of the loaded registry has an integer ID cell |
| QrSystem.RegistryNeverAuthenticates | lib/qr_system.py:502 | as written, no code ever authenticates against the loaded registry |
| QrSystem.RegisteredDelegateNotFound | lib/qr_system.py:502-505 | as written, a fresh code of a registered delegate is refused with "Delegate with ID <id> not found" |
| QrSystem.IdentifyUnknown | lib/qr_system.py:502-505 | an ID text is reported as not found in the loaded registry |
| QrSystem.RegistryRoundTrip | lib/qr_system.py:491-517 | read as intended, a fresh code of a registered delegate authenticates the first row with that ID |
| QrSystem.IdentifyRegisteredSound | lib/qr_system.py:507-517 | the intended checks only return a row whose ID, trimmed name and trimmed organization match the code |
| QrSystem.AuthenticateRegistryScans | lib/qr_system.py:493-496 | only a code that passes the scan authenticates anyone |
| QrSystem.DualRoleFirst | lib/qr_system.py:804-815 | the delegate is a speaker exactly when some usable speaker name matches, and the first match is returned |
| QrSystem.DualRoleIgnoresCase | lib/qr_system.py:804-811 | the match ignores the case and surrounding white space of the delegate's name |
| QrSystem.Truncated | lib/qr_system.py:428 | a text within the limit is kept; a longer one becomes its first `limit` characters and "..." |
| QrSystem.TruncatedIdempotent | lib/qr_system.py:436 | a badge line is at most the limit plus three long, cutting again changes nothing, and a line is kept exactly when it fits or already ends in the dots at the limit |
| ServiceWorker.Installed | sw.js:21-37 | the storage after an install; InstalledShell states what the current cache then holds |
| ServiceWorker.InstalledShell | sw.js:21-37 | after an install whose fetches all succeed the current cache holds every shell URL with its fetched response |
| ServiceWorker.Activated | sw.js:40-57 | the storage after activation; ActivatedKeepsCurrent states what survives |
| ServiceWorker.ActivatedKeepsCurrent | sw.js:40-57 | activation leaves the current cache untouched and no other |
| ServiceWorker.Route | sw.js:60-107 | the fetch routing decision and storage; RoutePassesThrough, RouteHit, RouteMiss and RouteOffline state each case |
| ServiceWorker.RoutePassesThrough | sw.js:62-71 | a request is passed through exactly when it is not a GET or is an internal Streamlit URL, and nothing changes |
| ServiceWorker.RouteHit | sw.js:74-80 | a cached URL is answered from the cache, without the network and without a change |
| ServiceWorker.RouteMiss | sw.js:83-97 | on a miss the network's response is returned as it came, and stored under the URL in the current cache exactly when it is a 200 "basic" response |
| ServiceWorker.RouteOffline | sw.js:98-104 | offline, a document request gets the cached landing page, if any, and any other request nothing |
| ServiceWorker.StoredThenHit | sw.js:90-97 | a response stored on a miss answers the next request for the URL from the cache |
| ServiceWorker.InstallActivateServesShell | sw.js:21-57 | after a successful install and activation every shell URL is served from the cache as fetched |
| ServiceWorker.CacheAgent.constructor | sw.js:2 | the agent starts with its cache name and the storage it finds |
| ServiceWorker.CacheAgent.Install | sw.js:21-37 | the install event updates the storage exactly as the install rule says |
| ServiceWorker.CacheAgent.Activate | sw.js:40-57 | the deletion loop leaves the storage the activation rule gives |
| ServiceWorker.CacheAgent.Fetch | sw.js:60-107 | the fetch event returns the routing decision and leaves the storage it gives |
| ServiceWorker.Pushed | sw.js:122-152 | a push shows "Insaka Conference" with the pushed text, or "New conference update available!" when the push has no data, and the explore and close actions |
| ServiceWorker.Clicked | sw.js:155-174 | a click always closes the notification; "explore" opens the dashboard, "close" opens nothing, and any other action opens "/" |
| Translations.Resolved | lib/translations.py:477-482 | the code used is the given one or "en", and always one the table has |
| Translations.Translate | lib/translations.py:475-488 | the look-up with its fallbacks; TranslateIn, TranslateFallsBack, TranslateAsEnglish and TranslateTotal state it |
| Translations.TranslateIn | lib/translations.py:488 | a key the chosen language has is given in that language |
| Translations.TranslateFallsBack | lib/translations.py:484-486 | a key the language lacks gives the English text, or the key itself when English lacks it too |
| Translations.TranslateAsEnglish | lib/translations.py:478-482 | an "en-" code, or one the table lacks, reads exactly as English |
| Translations.TranslateTotal | lib/translations.py:475-488 | the result is always a text of the table for that key, or the key |
| Translations.AvailableResolve | lib/translations.py:490-500 | every offered code resolves to a language of the table without falling back |
| Translations.Direction | lib/translations.py:502-509 | "rtl" exactly for ar, he, fa and ur, "ltr" otherwise |
| Translations.OnlyArabicOfferedRtl | lib/translations.py:490-505 | of the offered languages only Arabic is right to left |
| Uploads.Dashed | utils_assets.py:10 | replacing each run of other characters by one '-' leaves only a–z, 0–9 and '-', and no "--" |
| Uploads.Slug | utils_assets.py:9-11 | `_slug`; SlugClean, SlugOfNoAlnum, SlugOfClean and SlugIdempotent state its shape |
| Uploads.SlugClean | utils_assets.py:9-11 | every slug is non-empty, uses only a–z, 0–9 and '-', and has no leading, trailing or double '-' |
| Uploads.SlugOfNoAlnum | utils_assets.py:11 | an input with no ASCII letter or digit gives "file" |
| Uploads.SlugOfClean | utils_assets.py:9-11 | a string that already looks like a slug is its own slug |
| Uploads.SlugIdempotent | utils_assets.py:9-11 | the slug of a slug is itself |
| Uploads.SlugHasNoSeparators | utils_assets.py:10 | a slug contains no "." and no "_" |
| Uploads.StemAndExtension | utils_assets.py:20-23 | the name splits at its last "." into stem and lower-cased extension; without a "." the extension is empty and the stem is the name |
| Uploads.FileName | utils_assets.py:20-25 | the stored name; FileNameExtension and FileNameSlug state its parts |
| Uploads.FileNameExtension | utils_assets.py:20-25 | the stored name keeps the upload's extension |
| Uploads.FileNameSlug | utils_assets.py:23-25 | the stored name starts with the slug of the hint, or of the stem when the hint is empty, followed by "_" |
| Uploads.UploadPath | utils_assets.py:19-28 | the stored path; UploadPathShape states its shape |
| Uploads.UploadPathShape | utils_assets.py:19-28 | the file goes under assets/uploads, in the kind's directory, under its stored name |
| Announcements.Add | pages/Admin_Announcements.py:38-52 | appends one record with id previous length + 1, the given priority, the time and "Admin", and leaves the rest unchanged |
| Announcements.Delete | pages/Admin_Announcements.py:54-58 | the list shrinks by exactly the number of records with the id |
| Announcements.DeleteSpec | pages/Admin_Announcements.py:57 | exactly the records with the id go, the rest keep their order, and a list without the id is unchanged |
| Announcements.AddThenDelete | pages/Admin_Announcements.py:38-58 | deleting the id just added gives back the list when no older record has that id |
| Announcements.IdReuse | pages/Admin_Announcements.py:43-57 | after deleting any record but the last, the next add reuses the last id, and deleting it then removes two records |
| Announcements.DisplayOrder | pages/Admin_Announcements.py:114-116 | a permutation, descending by priority rank, newest first within a rank |
| Announcements.DisplayOrderSpec | pages/9_External_Content.py:158-160 | Urgent records come before all others, a record without priority ranks as Normal, equal keys keep their order; the admin page sorts the same way |
| Announcements.Submit | pages/Admin_Announcements.py:96-104 | the posting form; SubmitSpec states when it saves and what |
| Announcements.SubmitSpec | pages/Admin_Announcements.py:96-104 | saved exactly when title and content each have a non-space character, with stripped non-blank texts; otherwise the fixed message |
| Announcements.CountersSpec | pages/Admin_Announcements.py:163-168 | the Urgent and High counters count exactly the records ranked 4 and 3, together at most all records |
| Announcements.RecentCountSpec | pages/Admin_Announcements.py:171-172 | a record counts for this week exactly when created less than eight days ago, undated records as of 1970 |
| News.Add | pages/Admin_News.py:39-54 | appends one item with id previous length + 1, the category, the time and "Admin" |
| News.Delete | pages/Admin_News.py:56-60 | the list shrinks by exactly the number of items with the id; DeleteSpec and AddThenDelete state what it removes |
| News.DeleteSpec | pages/Admin_News.py:56-60 | exactly the items with the id go, the rest keep their order |
| News.AddThenDelete | pages/Admin_News.py:39-60 | deleting the id just added gives back the list when no older item has that id |
| News.Newest | pages/Admin_News.py:134-136 | a permutation, newest first |
| News.Latest | pages/9_External_Content.py:186-189 | the five newest items; LatestSpec states it |
| News.LatestSpec | pages/9_External_Content.py:186-189 | at most five items, newest first, from the list; any item left out is no newer than every one shown |
| News.Submit | pages/Admin_News.py:107-125 | the posting form; SubmitSpec states when it saves and what |
| News.SubmitSpec | pages/Admin_News.py:107-125 | saved exactly when title and content are non-blank, with stripped texts and the image path given |
| News.WithImagesAdd | pages/Admin_News.py:192 | adding an item raises the with-images count exactly when it has a non-empty image path |
| News.RecentCountSpec | pages/Admin_News.py:196-197 | an item counts for this week exactly when created less than eight days ago |
| News.TallyIsCount | pages/Admin_News.py:201-204 | the running tally of a category is the number of items in it |
| News.FirstMax | pages/Admin_News.py:205 | `max` picks a category with the largest count, the first seen on a tie |
| News.CountCategories | pages/Admin_News.py:199-204 | the counting loop leaves the dict's keys in first-seen order and its counts equal to counting the items one by one |
| News.TalliedOf | pages/Admin_News.py:199-204 | the counted dict has exactly the categories seen, each with its number of items (positive), and the counts sum to the number of items |
| News.TopSpec | pages/Admin_News.py:205-206 | the top category has a maximal count and every earlier one has less; "None" for no news |
| News.CategoryStatistics | pages/Admin_News.py:199-206 | the loop gives the categories in first-seen order, each with its positive count, counts summing to the number of items; the top category has a maximal count and every earlier one has less; "None" for no news |
| PrPosts.TagsOf | pages/Admin_PR.py:109 | every tag is non-empty and stripped, and comma-free pieces give comma-free tags |
| PrPosts.Hashtags | pages/Admin_PR.py:109 | every hashtag is non-empty, stripped and has no comma |
| PrPosts.HashtagsRoundTrip | pages/Admin_PR.py:109 | typing tags back into the field as "a,b,c" gives the same tags |
| PrPosts.Submit | pages/Admin_PR.py:134-171 | the posting form; SubmitChecks states its checks and NewPostSpec the new post |
| PrPosts.SubmitChecks | pages/Admin_PR.py:134-171 | a blank title is reported first, then a blank content; a post is saved exactly when neither is blank, and then it is appended after the old ones |
| PrPosts.NewPost | pages/Admin_PR.py:152-167 | the post the form builds; NewPostSpec states its fields |
| PrPosts.NewPostSpec | pages/Admin_PR.py:152-167 | the new post has id length + 1, non-blank stripped texts, the tags given, "PR Team", and counters that read back as entered |
| PrPosts.NewestFirst | pages/Admin_PR.py:43 | a permutation, newest first |
| PrPosts.RemoveAt | pages/Admin_PR.py:86 | `pop(i)`; RemoveAtSpec states what it removes |
| PrPosts.RemoveAtSpec | pages/Admin_PR.py:86 | popping the i-th post removes that one post and keeps the others in order |
| PrPosts.IdReuse | pages/Admin_PR.py:152-153 | after a post is popped, the next post's id `len(pr_posts) + 1` equals the id of any surviving post that carried the old length |
| PrPosts.DeleteFromListing | pages/Admin_PR.py:85-88 | deleting from the sorted listing saves every other post, still newest first |
| PrPosts.Board.constructor | pages/Admin_PR.py:21-27 | the page's list starts as the stored posts |
| PrPosts.Board.Publish | pages/Admin_PR.py:134-171 | the form appends the new post and shows no error, or leaves the list and shows the form's message |
| PrPosts.Board.Display | pages/Admin_PR.py:43 | the list is re-ordered in place, newest first |
| PrPosts.Board.Delete | pages/Admin_PR.py:85-87 | the i-th post is popped from the list |

## Left out

- File I/O: every JSON, CSV and Excel read and write, save failures, and Excel decoding. Stores are passed in and returned, and a save is the returned value.
- Streamlit rendering, session state, forms, buttons, reruns and page switching. A form is a function of the values typed into it.
- Clock reads. `now` and the time stamps are parameters. Sub-second precision and time zones are not modelled. Parsing ISO text is a function parameter `instant` in the QR module.
- The in-place `sort` calls of the notification view and of the announcement, news, comment, trending and recommendation listings are modelled on `seq` values. Only the PR admin list (`Board`) is updated in place.
- Floating point: `format_phone` float parsing is a parameter `asNumber`. Numeric IDs are unsigned decimal texts, without pandas' float and sign readings or Python's `_` digit separators.
- Unicode: `strip`, `lower` and the slug work on ASCII; other case mappings are not modelled.
- Duck typing: JSON documents other than objects, JSON floats, non-text speaker names, and records whose fields have unexpected types.
- `_normalize_qr_payload`, QR images and badges, the camera scanner script and `show_role_selection` are not part of this model.
- `sw.js`: the asynchronous interleaving of `cache.put` with the response, the atomicity of `cache.addAll` (an install is all-or-nothing), `skipWaiting`/`clients.claim`, and the background-sync stub. Each event is one sequential step.
- `CACHE_NAME`'s time stamp is the agent's constant `current`.
- The sound and vibration script of the notification module, `create_test_notifications` and `create_system_notification` (a plain call of add).
- Images from `save_upload` are the parameter `image`. The file write in `save_upload` is left out.
- Staff.ImportStaff: the early return when nothing is to be added is not a separate branch; the loop then adds nothing, so the result is the same, and only re-saving the file differs.
- Staff.FormatPhone: the float-to-integer branch is stated only through the `asNumber` parameter (FormatPhoneOfInteger, FormatPhoneOfText). `int(float(...))` of "inf", "-inf" or "1e400" raises OverflowError, which the handler at staff_service.py:47 does not catch, so save_staff_df fails on such a phone; `NumberReading` has no case for it.
- Staff.Register / Staff.ImportStaff: the save also re-formats the rows already stored. They came through load_staff_df, which formats the Phone column the same way, so under a `FloatLike` reading that changes nothing (FormatPhoneStable, EnsureSchemaIdempotent), and the model keeps them as they are.
- `read_csv` type inference on reload: a saved text that looks like a number or a boolean reloads as one in pandas. The reload is the parameter `load` of the as-written reading, `AsWrittenWith(load)`; the as-written lemmas need only that "" reloads as NaN, and `Loaded` (pandas' default NA texts, every other text as itself) is the instance `AsWritten`.
- Staff.RegisterThenDuplicate: stated for a reading that gives the new row its registration key; as written that holds only for a name and organization that survive the reload (RegisteredKeyKept), and a blank organization breaks it (Findings).
- Staff.ImportAddsNoDuplicate: stated for a reading under which imported rows keep their keys; as written only for sheets whose names and organizations survive the reload (RowKeyKeptAsWritten).
- Staff.ReimportAddsNothing: stated for a reading under which imported rows keep their keys; read as intended that is every sheet (ReimportAsIntended), as written a blank organization breaks it (Findings).
- Uploads.UploadPath: joins the texts; pathlib's `/` would let an absolute kind replace the root and would drop a trailing "/" or a "." segment. Every caller passes one of the fixed kinds, which have none of these.
- Default arguments (`priority="Normal"`, `category="General"`, `max_show=99`, `days_old=30`) are constants beside the functions, not optional parameters.

## Findings

| source | as written | input that shows it | evidently intended | confidence | as-written member | corrected member |
|---|---|---|---|---|---|---|
| staff_service.py:176-182 | each day is read as `bool(delegate.get("DayN_CheckIn", False))`; register_staff and the import never write the day cells, so they hold NaN, and `bool(NaN)` is true | register "Ann", category "Delegate", organization "Org" in an empty registry, then ask for the status of ID "1" | a day that was never set reads as not checked in | not executed | Staff.FreshRegistrationReadsCheckedIn | Staff.DailyStatusAfterSet |
| staff_service.py:205-206 | `incoming["Name"].astype(str)` turns an empty Name cell into "nan", which passes the blank-name filter | a spreadsheet row whose Name cell is empty | the row is dropped as blank | not executed | Staff.MissingNameImportedAsNan | Staff.ImportKeepsOnlyNamed |
| lib/qr_system.py:502 | the registry's text ID cells (staff_service.py:30) are compared with the integer `int(delegate_id)`, so no row ever matches; the name is also read from a "Full Name" column the registry does not have | a code generated for registered delegate "1", scanned within a day, against the loaded registry | the delegate whose ID reads as that number is found and checked against the Name column | not executed | QrSystem.RegisteredDelegateNotFound | QrSystem.RegistryRoundTrip |
| staff_service.py:106-111 | the stored rows' keys are computed on the reloaded table, where a saved empty Organization is NaN and `_norm_str` gives "nan", while the new key uses "" | register "Ann", category "Delegate", organization "" twice | the second registration is refused as a duplicate | not executed | Staff.BlankOrganizationRegisteredTwice | Staff.RegisterThenDuplicate |
| staff_service.py:209-220 | as for registration, a row imported with an empty organization (a sheet without that column gets "", staff_service.py:201-202) reloads with the key "name\|nan" and never matches the sheet's key "name\|" | import a sheet with a Name column only, holding "Ann", twice | the second import adds nothing | not executed | Staff.BlankOrganizationReimported | Staff.ReimportAsIntended |
| pages/11_Matchmaking.py:1019-1021 | load_delegates reads the registry through load_staff_df, so a blank RoleTitle is NaN; `bool(NaN)` is true, so the test goes on to call `.lower()` on the float and raises AttributeError, which nothing on the tab catches | register a delegate with the default role title "", then open the recommendations as another registered delegate whose role title is "Engineer" | a blank role title gives no role bonus | not executed | Matchmaking.BlankRoleEndsTab | Matchmaking.BlankRoleNoBonus |
