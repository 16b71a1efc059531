# GoalBuddy goal, friend and account rules in Dafny

This project models the rules of GoalBuddy, a goal tracker with a Node/Express
backend over MongoDB and a React Native client.

**Backend without routers.** `backend/server.js`, with the schema of
`backend/models/Goal.js`, is the `GoalServer.Server` class. It holds a goal
collection and a push-token table and covers these handlers:
- create, list, get, update and delete a goal;
- the all-or-nothing reorder;
- the sub-item update and the push-token registration;
- the periodic `checkAndResetGoal`;
- `calculateCompletion`;
- the message composition of the daily reminder job (a loop over token
  documents grouped by user, and the top three incomplete goals of each user).

**The routers.** The routers under `backend/routes` (friends, goals, auth) work
on users with friend lists, friend requests, and goals with `subgoals`,
`status`, `progress` and `sharedWith`. The goal router and the account deletion
load the same `backend/models/Goal.js` as the server (`backend/routes/goals.js:4`,
`backend/routes/auth.js:146`), a schema that declares none of those four goal
fields and requires `type`; the model gives the router goals the fields the
router code reads and writes, as if they were declared. The routers share one
`RoutesDb.Db` object:
- `FriendRoutes` is the friend-request state machine.
- `GoalRoutes` is the alternate goal router, with its subgoal toggle, rounded
  percentage and friend notifications.
- `AuthRoutes` covers registration, login, the push-token overwrite and the
  five-step account deletion.

**Middleware.** `AuthMiddleware` is the bearer-header parser of
`backend/middleware/auth.js`.

**Client.** The client modules model the pure transforms and the in-place sorts of:
- `GoalCard.js` and `SubItemCard.js`;
- `EditGoalScreen.js` and `HomeScreen.js`, whose goal list is the class
  `HomeScreen.Home`;
- `RegisterScreen.js`.

**Shared modules.**
- `JsText` holds the JavaScript string operations these rely on: the `\s`
  class, `trim`, ASCII `toLowerCase`, `indexOf`, `substring`, `parseInt` and
  `String(n)`.
- `Sorting` is the stable sort behind `Array.prototype.sort` with a
  comparator. MongoDB `sort` is modelled by the same sort, which settles ties
  in insertion order (see "## Left out").

**Modelling choices.**
- Collections are sequences in natural (insertion) order with unique ids. The
  order becomes visible through sorts with ties, such as the top three goals of
  the reminder.
- Foreign calls become parameters: `jwt.verify`, the password hash and
  comparison, `Expo.isExpoPushToken`, `uuid.v4`, the clock, and the
  local-time month and year.
- A push notification is a message appended to an outbox.
- A handler is one atomic step. An exception that Express turns into a 500
  answer is an `Err` result.

## Model

| member | source | states |
|---|---|---|
| Completion.Every | backend/server.js:87-94 | true exactly when every sub-item satisfies its type's test |
| Completion.CalculateCompletion | backend/server.js:84-95 | true iff the list is non-empty and every checkbox is checked and every progress item has reached its target; an item of an unknown type is never satisfied |
| Completion.ResetRule | backend/server.js:43-64 | a goal is due for reset iff it is continuous with a last reset date and, for daily, at least 86,400,000 ms or, for weekly, at least 604,800,000 ms have passed, or, for monthly, the calendar month or year differs; no or an unknown frequency never resets |
| Completion.ShouldReset | backend/server.js:42-63 | the guard and the `switch` of `checkAndResetGoal`; `ResetRule` states when it holds |
| Completion.ResetItem | backend/server.js:67-73 | a reset unchecks a checkbox, zeroes a progress value, keeps id, title, type, target and order, and leaves an unknown-type item as it is |
| Completion.ResetSubItems | backend/server.js:67-73 | the `forEach` loop leaves every sub-item reset, in place and in order |
| Completion.ResetAll | backend/server.js:66-72 | `ResetItem` applied to every sub-item, in order; `ResetSubItems` is the loop proved equal to it |
| Completion.Reconcile | backend/server.js:41-80 | a due goal gets its sub-items reset, `lastResetDate` now, `isCompleted` false and the pre-save time stamp; any other goal is kept; `ReconcileEffect` and `ReconcileValid` state what it does |
| Completion.CheckAndResetGoal | backend/server.js:42-81 | the returned flag is exactly whether the goal was due, and the goal is the reconciled one |
| Completion.ReconcileEffect | backend/server.js:66-80 | a due goal has each item reset as `ResetItem` says (checkboxes unchecked, progress values zero, other types untouched, the other field kept), `lastResetDate` now, not completed, saved now, with titles, targets, types, orders, owner, title, priority and order untouched; a goal not due is unchanged |
| Completion.ResetClearsCompletion | backend/server.js:66-78 | after a reset, a goal with a checkbox or a progress item with positive target is no longer complete |
| Completion.ReconcileValid | backend/server.js:66-78 | a reset keeps a goal acceptable to the schema |
| GoalModel.CastSubItem | backend/models/Goal.js:3-35 | a sub-item body casts iff id, title, type and order are present and type is checkbox or progress; absent fields default to unchecked, 0 and 100 |
| GoalModel.CastSubItems | backend/models/Goal.js:62 | an array casts iff each element casts, element for element |
| GoalModel.ValidSubItem | backend/models/Goal.js:3-35 | what SubItemSchema demands of a stored sub-item: an id, a non-empty title and a known type; `CastSubItem` yields only such items |
| GoalModel.ValidGoal | backend/models/Goal.js:37-87 | what GoalSchema demands of a stored goal; `GoalError` is None exactly when it holds |
| GoalModel.GoalError | backend/models/Goal.js:37-87 | a goal is refused at save iff it breaks the schema: empty title, unknown type or frequency, or an invalid sub-item |
| GoalModel.NewGoal | backend/models/Goal.js:37-87 | construction succeeds iff title and type are present and known, the frequency is null or known and the sub-items cast; the result is valid, with the given owner, order and reset date, the cast sub-items, the given priority and colour or the defaults 0 and #E8B4B8, not completed unless asked, created and updated now |
| GoalModel.PreSave | backend/models/Goal.js:89-92 | saving sets `updatedAt` to the save time and changes nothing else |
| GoalStore.OwnedBy | backend/server.js:268 | exactly the goals of the user |
| GoalStore.FindOwned | backend/server.js:322-325 | the position of a goal with that id and owner, or -1 exactly when there is none |
| GoalStore.FindById | backend/server.js:377 | the position of a goal with that id, or -1 exactly when there is none |
| GoalStore.FindOwnedById | backend/server.js:377 | with unique ids, lookup by id agrees with owner-scoped lookup on an owned id |
| GoalStore.RemoveAtRemovesId | backend/server.js:346-349 | removing the matched goal keeps ids unique and removes exactly the goals with that id |
| GoalStore.ReorderAccepted | backend/server.js:367-374 | the count check passes iff the ids are pairwise distinct and each names a goal of the caller |
| GoalStore.MatchCountIsCardinality | backend/server.js:367-372 | the number of matched goals is the number of distinct owned ids listed |
| GoalStore.ElementsOfDistinct | backend/server.js:372 | a list has as many distinct elements as entries iff it has no repeats |
| GoalStore.PositionOfDistinct | backend/server.js:376-378 | in a list without repeats every entry's position is found |
| GoalStore.RemoveForeign | backend/server.js:438 | removes exactly the documents with that token owned by other users, keeping tokens unique |
| GoalServer.ValidationFailure | backend/server.js:314-316 | a validation failure answers 400 |
| GoalServer.AssignGoal | backend/server.js:331 | `Object.assign` succeeds iff a replacement sub-item array casts, otherwise fails with its cast error; on success the goal is `AssignScalars` of the body, with the cast sub-items when the body carries some |
| GoalServer.AssignScalars | backend/server.js:331 | id, creation and update time and sub-items kept; each other field takes the body's value when present and keeps the goal's when absent |
| GoalServer.AssignSubItem | backend/server.js:404 | an empty body changes nothing; each of id, title, type, `isChecked`, `currentValue`, target and order takes the body's value when present and keeps its own when absent |
| GoalServer.FindItem | backend/server.js:399 | the first sub-item with that id, or -1 exactly when there is none |
| GoalServer.ReconcileWhere | backend/server.js:271-273 | the length is kept |
| GoalServer.CreationResetDate | backend/server.js:309 | now for a continuous body, null otherwise; `CreateGoal` states it of the stored goal |
| GoalServer.OrderRank | backend/server.js:268 | the sort key `{ order: 1 }` that `GetGoals` orders by |
| GoalServer.Reordered | backend/server.js:376-378 | a listed goal takes its position among the ids, others are kept; `WriteOrders` is the loop proved equal to it |
| GoalServer.Server.constructor | backend/server.js:266 | an empty, valid store |
| GoalServer.Server.CreateGoal | backend/server.js:301-317 | order is the caller's goal count before the insert, `lastResetDate` is now exactly for a continuous goal; a refused body answers 400 and inserts nothing |
| GoalServer.Server.ResetGoals | backend/server.js:271-273 | the selected goals are reconciled one by one and the store stays valid |
| GoalServer.Server.GetGoals | backend/server.js:266-279 | the caller's goals are reconciled and the answer is exactly the caller's goals, ordered by `order` |
| GoalServer.Server.GetGoal | backend/server.js:282-298 | a goal the caller does not own answers 404; otherwise the reconciled goal |
| GoalServer.Server.UpdateGoal | backend/server.js:320-341 | 404 for a goal not owned, 400 for a refused body, neither changes anything; otherwise the patched goal with `isCompleted == calculateCompletion` |
| GoalServer.Server.UpdateSubItem | backend/server.js:388-414 | 404 for an unknown goal or sub-item with no change; otherwise the patched first matching sub-item and recomputed `isCompleted` |
| GoalServer.Server.DeleteGoal | backend/server.js:344-359 | removes exactly the caller's goal with that id; 404 and no change when there is none |
| GoalServer.Server.ReorderGoals | backend/server.js:362-385 | all or nothing: 400 and no write unless the ids are distinct and all owned; otherwise goal `orderedIds[i]` gets order `i`, no other goal changes, and the answer is the caller's goals by order |
| GoalServer.Server.WriteOrders | backend/server.js:376-378 | the loop gives every listed goal its position and changes no other goal |
| GoalServer.ReorderStep | backend/server.js:377 | one loop step with distinct ids writes exactly one goal's order |
| GoalServer.Server.RegisterPushToken | backend/server.js:419-450 | an invalid token answers 400; a token the caller holds is left as it is; otherwise it is taken from every other user and bound to the caller alone; other tokens are untouched |
| GoalServer.Server.SendDailyNotification | backend/server.js:98-176 | the job as intended, with the token `populate` resolving: the outbox gains exactly the composed daily messages, and the listed users' incomplete goals are reconciled |
| GoalServer.Server.SendDailyNotificationAsWritten | backend/server.js:98-176 | with any token document, nothing changes; the outbox gains exactly the as-written messages, tokens kept |
| DailyReminder.UserOrder | backend/server.js:106-115 | the existing owners of token documents, each once, in first-seen order |
| DailyReminder.TokensOf | backend/server.js:106-115 | only tokens of that user, at most one per document, none for a user without documents |
| DailyReminder.TokensOfComplete | backend/server.js:113 | every token document of the user contributes its token |
| DailyReminder.TokensOfSingle | backend/server.js:113 | one document gives its token to its own user and nothing to another |
| DailyReminder.TokensOfConcat | backend/server.js:106-115 | the tokens of two runs of documents are the first run's followed by the second's, so the documents' order is kept |
| DailyReminder.Pending | backend/server.js:121-124 | exactly the user's incomplete goals |
| DailyReminder.ReminderRank | backend/server.js:124 | the sort key `{ priority: -1, order: 1 }`; `TopGoalsOrdered` states the resulting order |
| DailyReminder.TopGoals | backend/server.js:121-131 | the first three pending goals in that order; `TopGoalsSelection`, `TopGoalsOrdered` and `TopGoalsBest` state what they are |
| DailyReminder.Bullets | backend/server.js:137 | one `• title` line per listed goal |
| DailyReminder.ReminderBody | backend/server.js:137-149 | the fixed heading, the bullet lines joined by newlines, and the fixed footer |
| DailyReminder.Reminder | backend/server.js:145-151 | one push message with the default sound, the fixed title and the `daily_reminder` type |
| DailyReminder.TokenMessages | backend/server.js:139-152 | one reminder per token that passes the format check |
| DailyReminder.UserMessages | backend/server.js:117-152 | nothing for a user without pending goals, otherwise one reminder per valid token; `NoPendingNoMessages` and `MessagesAreReminders` state it |
| DailyReminder.MessagesFor | backend/server.js:117-153 | the users' message lists concatenated in the given order |
| DailyReminder.DailyMessages | backend/server.js:106-153 | the messages of every existing token owner in first-seen order; `SendDailyNotification` appends exactly these |
| DailyReminder.GroupTokens | backend/server.js:106-115 | the loop builds the user order and each user's token list |
| DailyReminder.TokenReminders | backend/server.js:139-152 | the inner loop builds the token messages |
| DailyReminder.ComposeDailyMessages | backend/server.js:117-153 | the nested loops build exactly the specified message list |
| DailyReminder.TopGoalsSelection | backend/server.js:121-131 | a user's list has three goals, or all when fewer, and only the user's own incomplete goals |
| DailyReminder.TopGoalsOrdered | backend/server.js:124 | listed goals go by priority descending, then order ascending |
| DailyReminder.TopGoalsBest | backend/server.js:124-131 | no incomplete goal left out ranks ahead of a listed one |
| DailyReminder.MessagesAreReminders | backend/server.js:139-152 | every message goes to a valid token of a user with a non-empty top list, with the fixed title, sound and type and that user's body |
| DailyReminder.OrphanTokenIgnored | backend/server.js:108 | a token document whose user is gone changes nothing |
| DailyReminder.NoPendingNoMessages | backend/server.js:133-135 | a user without incomplete goals receives nothing |
| DailyReminder.MessagesForKeepsUser | backend/server.js:117-153 | the outer loop keeps every message of every listed user |
| DailyReminder.DailyReminderDelivered | backend/server.js:106-152 | an existing user with an incomplete goal has a non-empty top list and gets the reminder at each valid token |
| DailyReminder.GroupAsWritten | backend/server.js:103-115 | as written, grouping fails exactly when a token document exists; otherwise it gives the user order |
| DailyReminder.DailyMessagesAsWritten | backend/server.js:98-176 | the messages as written: none when the grouping throws |
| DailyReminder.AsWrittenSendsNoReminder | backend/server.js:103-109 | where the intended job sends a reminder, the job as written sends nothing |
| RoutesDb.NoteTo | backend/routes/friends.js:51-57 | one note exactly when the user has a valid push token |
| RoutesDb.HasToken | backend/routes/friends.js:51 | the truthiness test on `pushToken`: present and non-empty |
| RoutesDb.AddToSet | backend/routes/friends.js:122-128 | `$addToSet`: the element is present afterwards, nothing else is added, repeats are not created, an existing element changes nothing |
| RoutesDb.Pull | backend/routes/friends.js:186-192 | `$pull`: removes exactly that element, keeps the rest, changes nothing when absent |
| RoutesDb.DistinctOccursOnce | backend/routes/friends.js:122-128 | in a repeat-free list a member occurs once |
| RoutesDb.UserByEmail | backend/routes/friends.js:15 | the first user with that email, or none exactly when no user has it |
| RoutesDb.FindRequest | backend/routes/friends.js:102 | the request with that id, or -1 exactly when there is none |
| RoutesDb.FindOwnedGoal | backend/routes/goals.js:67-70 | the goal with that id and owner, or -1 exactly when there is none |
| RoutesDb.CountOwned | backend/routes/goals.js:34 | `countDocuments({ userId })`: the number of the user's goals, at most the total; `Owned` has exactly that length |
| RoutesDb.Db.constructor | backend/routes/friends.js:1-6 | an empty database with no dangling references |
| FriendRoutes.SendCheck | backend/routes/friends.js:15-40 | the guards in order: no email 500, unknown email 404, self 400, missing sender 500, and success iff not friends and no pending request either way |
| FriendRoutes.PendingBetween | backend/routes/friends.js:31-36 | a pending request from the first user to the second exists; `SendCheck` tests it both ways |
| FriendRoutes.SendRefusalOrder | backend/routes/friends.js:15-40 | unknown email, self, already friends and already pending are reported in that order |
| FriendRoutes.SendRequest | backend/routes/friends.js:9-67 | only when every guard passes is a pending request stored, then the recipient notified; no reference dangles afterwards if none did before |
| FriendRoutes.SendTwiceRefused | backend/routes/friends.js:31-40 | a second send between the same users is refused as pending |
| FriendRoutes.Received | backend/routes/friends.js:72-75 | exactly the pending requests received by the user |
| FriendRoutes.Sent | backend/routes/friends.js:87-90 | exactly the pending requests sent by the user |
| FriendRoutes.PendingListedTwice | backend/routes/friends.js:72-90 | a pending request is listed for its recipient and its sender only |
| FriendRoutes.Befriend | backend/routes/friends.js:122-128 | the first user's list becomes `AddToSet` of it with the second, the second's (when it has a record and differs) `AddToSet` with the first; other users, names, e-mails and tokens are untouched |
| FriendRoutes.StatusValid | backend/routes/friends.js:118-119 | saving a new status changes no request id |
| FriendRoutes.BefriendValid | backend/routes/friends.js:122-128 | `$addToSet` both ways adds no repeat to a friend list and changes no e-mail |
| FriendRoutes.Accept | backend/routes/friends.js:100-145 | 404, 403, 400 in that order with no change; otherwise the status is saved as accepted first, both lists gain the other, and the sender is notified; a recipient without a record sends nothing and answers 500 when the sender has a push token; a missing sender answers 500 with only the status write |
| FriendRoutes.BefriendOnce | backend/routes/friends.js:122-128 | after accept each user lists the other exactly once |
| FriendRoutes.BefriendIdempotent | backend/routes/friends.js:122-128 | accepting again changes no list |
| FriendRoutes.BefriendNoDangling | backend/routes/friends.js:122-128 | friend lists keep pointing at existing users |
| FriendRoutes.AcceptKeepsNoDangling | backend/routes/friends.js:118-128 | an accept leaves every friend and request endpoint existing when none dangled before |
| FriendRoutes.Reject | backend/routes/friends.js:148-168 | 404 then 403; otherwise rejected whatever the status, no friend list changes |
| FriendRoutes.Existing | backend/routes/friends.js:173-174 | the listed friends that still exist |
| FriendRoutes.ListFriends | backend/routes/friends.js:171-181 | the caller's existing friends; 500 exactly when the caller has no record |
| FriendRoutes.Unfriend | backend/routes/friends.js:186-188 | one user loses exactly that friend, nobody else changes |
| FriendRoutes.UnfriendNoDangling | backend/routes/friends.js:186-192 | a `$pull` leaves no friend and no request endpoint dangling |
| FriendRoutes.RemoveFriend | backend/routes/friends.js:184-199 | both users lose each other and the answer is always 'Friend removed' |
| FriendRoutes.UnfriendAbsent | backend/routes/friends.js:186-192 | removing an absent friend changes nothing |
| FriendRoutes.UnfriendBothWays | backend/routes/friends.js:186-192 | afterwards neither lists the other, and removing again changes nothing |
| GoalRoutes.AchievementTitle | backend/routes/goals.js:12-18 | `{name} achieved a subgoal!` or `{name} achieved a goal!` |
| GoalRoutes.FriendNotes | backend/routes/goals.js:14-22 | one note per listed friend with a record and a valid push token |
| GoalRoutes.Audience | backend/routes/goals.js:9-26 | nothing for a missing user; otherwise exactly the friends with push tokens, with the achievement title and the goal title as body |
| GoalRoutes.NotifyFriendsAboutGoal | backend/routes/goals.js:9-26 | the loop appends exactly the audience and changes nothing else |
| GoalRoutes.Owned | backend/routes/goals.js:34 | exactly the caller's goals, as many as `countDocuments` |
| GoalRoutes.NewestFirst | backend/routes/goals.js:55 | the sort key `{ createdAt: -1 }` that `ListGoals` orders by |
| GoalRoutes.CreateGoal | backend/routes/goals.js:29-49 | the goal belongs to the caller with order the caller's previous count; a missing or empty title answers 500 |
| GoalRoutes.ListGoals | backend/routes/goals.js:52-62 | exactly the caller's goals, newest first |
| GoalRoutes.GetGoal | backend/routes/goals.js:65-81 | found iff the caller owns a goal with that id; otherwise 404 |
| GoalRoutes.PositionOfIsLast | backend/routes/goals.js:95-101 | the position found is the id's last one |
| GoalRoutes.ReorderedStep | backend/routes/goals.js:95-101 | one loop step writes the latest index for its id |
| GoalRoutes.ReorderedBy | backend/routes/goals.js:95-101 | a goal of the caller listed among the ids takes its last position, others are kept; `ReorderGoals` is the loop proved equal to it |
| GoalRoutes.ReorderWrite | backend/routes/goals.js:95-100 | one write keeps goal ids unique and moves the reordering on by one id |
| GoalRoutes.ReorderGoals | backend/routes/goals.js:90-109 | ids not owned are skipped, a repeated id keeps its last index, everything else is untouched, always the success message |
| GoalRoutes.Patched | backend/routes/goals.js:115-119 | every present field, `userId` included, is written over the goal; absent fields, the id and the creation time are kept |
| GoalRoutes.HandedOverGoal | backend/routes/goals.js:115-119 | a body naming another `userId` hands the goal over: the caller no longer finds it and the named user does |
| GoalRoutes.UpdateGoal | backend/routes/goals.js:113-135 | an empty title answers 500 before lookup, a goal not owned 404; otherwise the patched goal is stored and friends are notified when the body sets status completed |
| GoalRoutes.ExciseValid | backend/routes/goals.js:141-144 | removing one goal keeps the other ids unique and leaves none with the removed id |
| GoalRoutes.DeleteGoal | backend/routes/goals.js:138-154 | removes the caller's goal with that id or answers 404 removing nothing |
| GoalRoutes.FindSubgoal | backend/routes/goals.js:168 | the first subgoal with that id, or -1 exactly when there is none |
| GoalRoutes.CompletedCount | backend/routes/goals.js:178 | the number of completed subgoals, at most the total; `CompletedCountExtremes` states the extremes |
| GoalRoutes.CompletedCountExtremes | backend/routes/goals.js:178 | the count is the total iff all are completed, zero iff none is |
| GoalRoutes.RoundPercent | backend/routes/goals.js:179 | the integer nearest to `100 * completed / total`, half rounded up |
| GoalRoutes.RoundPercentRange | backend/routes/goals.js:179 | between 0 and 100; nothing done gives 0, all done gives 100 |
| GoalRoutes.Toggled | backend/routes/goals.js:173-179 | only that subgoal flips, `completedAt` is now iff it becomes completed else null, and progress is recomputed |
| GoalRoutes.ToggleSubgoal | backend/routes/goals.js:157-193 | 404 for an unknown goal or subgoal with no change; otherwise the toggled goal is saved and friends are told only on a false-to-true flip |
| GoalRoutes.ToggleTwice | backend/routes/goals.js:173-175 | toggling twice restores the completion and clears the time stamp when it was open |
| AuthRoutes.Register | backend/routes/auth.js:8-54 | no email 500, a taken lower-case email 400; otherwise a friendless user without push token stored under the lower-cased email |
| AuthRoutes.Login | backend/routes/auth.js:57-102 | found iff a user has the lower-cased email and the password matches; unknown email and wrong password give the same 401 |
| AuthRoutes.LoginHidesWhichCheckFailed | backend/routes/auth.js:65-75 | an unknown email and a wrong password answer identically |
| AuthRoutes.LoginAfterRegister | backend/routes/auth.js:15-26 | after registering, logging in with the email in any letter case finds the new user |
| AuthRoutes.UpdatePushToken | backend/routes/auth.js:105-118 | overwrites the caller's single push token; a caller without a record changes nothing |
| AuthRoutes.NotOwnedBy | backend/routes/auth.js:150 | exactly the goals not owned by the user survive, as many as were not counted |
| AuthRoutes.SharedCount | backend/routes/auth.js:154-158 | the number of goals shared with the user, the `modifiedCount` of step 2, at most the total |
| AuthRoutes.FriendConnections | backend/routes/auth.js:161-165 | the number of users listing the user as friend, the `modifiedCount` of step 3 |
| AuthRoutes.Unshare | backend/routes/auth.js:154-157 | every goal loses the user from `sharedWith` |
| AuthRoutes.UnfriendEverywhere | backend/routes/auth.js:161-164 | every user loses the deleted user as friend only |
| AuthRoutes.Without | backend/routes/auth.js:168-170 | exactly the requests the filter does not select survive |
| AuthRoutes.InvolvesAsWritten | backend/routes/auth.js:168-170 | the step-4 filter as written: `from` or `to` is the user |
| AuthRoutes.Involves | backend/routes/auth.js:168-170 | the corrected filter: `sender` or `recipient` is the user |
| AuthRoutes.DeleteOwnedGoals | backend/routes/auth.js:150 | step 1 and its count |
| AuthRoutes.UnshareGoals | backend/routes/auth.js:154-157 | step 2 and its count |
| AuthRoutes.UnfriendUser | backend/routes/auth.js:161-164 | step 3 and its count |
| AuthRoutes.DeleteRequests | backend/routes/auth.js:168-170 | step 4 and its count |
| AuthRoutes.RemoveUserRecord | backend/routes/auth.js:173-177 | step 5 removes exactly the user's record, the other collections untouched |
| AuthRoutes.DeleteSteps | backend/routes/auth.js:140-194 | the five steps in order with the four counts; a missing user answers 404 with steps 1 to 4 kept |
| AuthRoutes.DeleteAccountAsWritten | backend/routes/auth.js:140-194 | the deletion with step 4 filtering on `from` and `to`: the answer carries the four counts steps 1 to 4 report, a missing user answers 404 after steps 1 to 4, and no push message is sent |
| AuthRoutes.AsWrittenKeepsCreatedRequests | backend/routes/auth.js:168-170 | the filter as written deletes no request created by the friend router |
| AuthRoutes.AsWrittenLeavesDanglingRequest | backend/routes/auth.js:168-170 | after deleting a sender as written, the request survives naming a missing user |
| AuthRoutes.DeletionLeavesNoDangling | backend/routes/auth.js:161-174 | filtering on sender and recipient leaves no reference to a missing user |
| AuthRoutes.DeletionLeavesNoGoals | backend/routes/auth.js:150-157 | no surviving goal belongs to or is shared with the deleted user |
| AuthRoutes.DeleteAccount | backend/routes/auth.js:140-194 | the corrected deletion: the answer carries the four counts, no goal, friend list or request names the deleted user, references keep existing, a missing user answers 404 after steps 1 to 4, and no push message is sent |
| AuthMiddleware.VerifyFailure | backend/middleware/auth.js:43-52 | expired, malformed and other errors map to their messages, all 401 |
| AuthMiddleware.Authenticate | backend/middleware/auth.js:3-53 | a missing header, a header without `Bearer `, and a blank token are refused in that order; otherwise the token after the prefix is verified and its payload recorded |
| AuthMiddleware.BlankTokenNotVerified | backend/middleware/auth.js:11-26 | a refused header is refused whatever the verifier says |
| AuthMiddleware.AuthenticatedIff | backend/middleware/auth.js:16-42 | authenticated iff the header is `Bearer ` and a non-blank token the verifier accepts |
| JsText.TrimEmptyIffAllSpace | frontend/screens/EditGoalScreen.js:36 | `!s.trim()` holds iff every character is white space |
| JsText.IsJsSpace | frontend/screens/EditGoalScreen.js:36 | the white-space and line-terminator characters `trim` removes |
| JsText.TrimStart | backend/middleware/auth.js:23 | drops exactly the leading white space: the result is a suffix, all removed characters are white space, and it does not start with white space |
| JsText.TrimEnd | backend/middleware/auth.js:23 | drops exactly the trailing white space: the result is a prefix, the removed tail is all white space, and it does not end with white space |
| JsText.Trim | frontend/screens/EditGoalScreen.js:36-66 | `trim` as both ends; `TrimEmptyIffAllSpace` and `TrimIdempotent` state its properties |
| JsText.TrimIdempotent | frontend/screens/EditGoalScreen.js:66 | trimming twice is trimming once |
| JsText.ToLower | backend/routes/auth.js:24 | `toLowerCase` character by character |
| JsText.ToLowerChar | backend/routes/auth.js:24 | an ASCII capital goes to its small letter, every other character is kept |
| JsText.ToLowerIdempotent | backend/routes/auth.js:15 | lower-casing twice is lower-casing once |
| JsText.IndexOf | frontend/screens/HomeScreen.js:190 | the first position of the character, or -1 iff absent |
| JsText.Substring | frontend/screens/HomeScreen.js:190 | the bounds are clamped and swapped as `substring` does |
| JsText.StartsWith | backend/middleware/auth.js:16 | `startsWith`: the string begins with the prefix |
| JsText.Join | backend/server.js:137 | `join`: the parts with the separator between neighbours |
| JsText.ParseIntOr | frontend/components/SubItemCard.js:24 | the parsed value unless it is NaN or 0, in which case the fallback |
| JsText.ParseInt | frontend/components/SubItemCard.js:24 | `parseInt` in base 10: leading white space skipped, an optional sign, a `0x` prefix read as hexadecimal, the longest digit run, None where the source gives NaN; `ParseIntOfIntToString` inverts `IntToString` |
| JsText.IntToString | frontend/components/SubItemCard.js:11 | `toString` of an integer, never empty; `ParseIntOfIntToString` states the round trip |
| JsText.ParseIntOfIntToString | frontend/components/SubItemCard.js:11 | `parseInt(String(n)) == n` |
| Sorting.SortPermutesAndOrders | backend/server.js:268 | the stable sort gives an ordered permutation of its input |
| Sorting.Insert | backend/server.js:268 | places one element after every element ranked no later; `InsertPermutes` and `InsertKeepsSorted` state it |
| Sorting.Sort | backend/server.js:268 | the stable sort by insertion that every sort call is modelled with; `SortPermutesAndOrders` states it |
| Sorting.SortOfSorted | frontend/components/GoalCard.js:132 | an ordered sequence is left as it is |
| Sorting.SortInPlace | frontend/components/GoalCard.js:132 | the array ends equal to the stable sort of its old contents |
| GoalCard.CompletedCount | frontend/components/GoalCard.js:12-15 | at most the total; equal iff all counted, zero iff none counted |
| GoalCard.Counted | frontend/components/GoalCard.js:12-15 | the filter test: a checkbox counts when checked, any other item at or past its target |
| GoalCard.CountAgreesWithCompletion | frontend/components/GoalCard.js:12-15 | on known types, a full count iff the server marks the goal completed |
| GoalCard.UnknownTypeCountedByCardOnly | frontend/components/GoalCard.js:12-15 | an unknown-type item at its target counts on the card but not on the server |
| GoalCard.ProgressPercent | frontend/components/GoalCard.js:17-18 | between 0 and 100, 0 without items, 100 iff all counted, 0 iff none |
| GoalCard.Reindexed | frontend/components/GoalCard.js:20-26 | item `i` gets order `i`, all other fields and the length kept |
| GoalCard.ReindexedListsAsDragged | frontend/components/GoalCard.js:20-26 | the re-indexed items list in exactly the dragged order |
| GoalCard.SharedBadge | frontend/components/GoalCard.js:83-88 | shown iff `sharedWith` is non-empty, showing its length plus one |
| GoalCard.DisplaySubItems | frontend/components/GoalCard.js:132 | the sub-item array is sorted in place by order, stably, as a permutation |
| GoalCard.ItemOrder | frontend/components/GoalCard.js:132 | the comparator `a.order - b.order` as a sort key |
| SubItemCard.InitialEditText | frontend/components/SubItemCard.js:11 | never empty, `'0'` without a value |
| SubItemCard.InitialTextRoundTrip | frontend/components/SubItemCard.js:11-24 | saving the editor untouched writes back the value it opened with |
| SubItemCard.Toggle | frontend/components/SubItemCard.js:13-21 | only `isChecked` is negated; confetti iff it becomes checked |
| SubItemCard.ToggleTwice | frontend/components/SubItemCard.js:13-21 | toggling twice restores the item and shows confetti exactly once |
| SubItemCard.ProgressUpdate | frontend/components/SubItemCard.js:23-35 | only `currentValue` changes, to the parsed value or 0; confetti iff the target is crossed from below |
| SubItemCard.Reached | frontend/components/SubItemCard.js:25-26 | a value at or past the target |
| SubItemCard.ProgressConfettiOnce | frontend/components/SubItemCard.js:25-32 | re-saving a value shows no confetti again |
| SubItemCard.UnchangedSaveIsQuiet | frontend/components/SubItemCard.js:11-32 | saving unchanged keeps the item and shows no confetti |
| EditGoalScreen.InitialFrequency | frontend/screens/EditGoalScreen.js:23 | a missing or empty frequency starts at daily |
| EditGoalScreen.PriorityChoices | frontend/screens/EditGoalScreen.js:317 | exactly 0 to 3 in order |
| EditGoalScreen.NewTarget | frontend/screens/EditGoalScreen.js:44 | the parsed target for progress items unless NaN or 0, otherwise 100 |
| EditGoalScreen.NextOrder | frontend/screens/EditGoalScreen.js:45 | above every order in use and at least the length |
| EditGoalScreen.MaxOrder | frontend/screens/EditGoalScreen.js:45 | the largest order in a non-empty list: no item exceeds it and some item has it |
| EditGoalScreen.AddSubItemAsWritten | frontend/screens/EditGoalScreen.js:35-52 | a blank title adds nothing; otherwise an unchecked item with the untrimmed title and order the length is appended |
| EditGoalScreen.AddSubItem | frontend/screens/EditGoalScreen.js:35-52 | as above with the order past every order in use |
| EditGoalScreen.AddAgreesOnIndexedLists | frontend/screens/EditGoalScreen.js:45 | when orders are positions, both add the same item |
| EditGoalScreen.AddedItemListedLast | frontend/screens/EditGoalScreen.js:45-48 | the corrected addition is listed after every existing item |
| EditGoalScreen.AsWrittenAddListedInMiddle | frontend/screens/EditGoalScreen.js:45-55 | after two removals, the item added as written lists in the middle |
| EditGoalScreen.RemoveSubItem | frontend/screens/EditGoalScreen.js:54-56 | never more items than before; an absent id changes nothing |
| EditGoalScreen.RemoveSubItemMembers | frontend/screens/EditGoalScreen.js:55 | exactly the items with another id survive |
| EditGoalScreen.RemoveKeepsListing | frontend/screens/EditGoalScreen.js:55 | survivors keep their orders, so an ordered list stays ordered |
| EditGoalScreen.RemoveUndoesAdd | frontend/screens/EditGoalScreen.js:48-55 | removing a freshly added id gives back the list |
| EditGoalScreen.SavePayload | frontend/screens/EditGoalScreen.js:58-72 | no request iff the title is blank; trimmed title; a reset frequency iff the goal is continuous |
| EditGoalScreen.SavedTitleIsStable | frontend/screens/EditGoalScreen.js:59-66 | a saved title is non-blank and already trimmed |
| HomeScreen.ReorderGoals | frontend/screens/HomeScreen.js:107-117 | goal `i` gets order `i` and the ids follow the same sequence |
| HomeScreen.ReorderAgreesWithServer | frontend/screens/HomeScreen.js:107-117 | with distinct ids, the server's reorder by the sent ids gives each goal the order shown |
| HomeScreen.ReorderedGoalsListAsDragged | frontend/screens/HomeScreen.js:108-111 | re-indexed goals list in the dragged order |
| HomeScreen.ReplaceSubItem | frontend/screens/HomeScreen.js:130-132 | only sub-items with the matching id are replaced; length kept |
| HomeScreen.ReplaceUndone | frontend/screens/HomeScreen.js:130-132 | with unique ids, putting the old item back undoes the replacement |
| HomeScreen.WithGoal | frontend/screens/HomeScreen.js:137 | goals with the id are replaced, others kept |
| HomeScreen.WithSubItems | frontend/screens/HomeScreen.js:83-87 | no change without a match; matching goals become the first match with the new sub-items |
| HomeScreen.WithSubItemsChangesOneGoal | frontend/screens/HomeScreen.js:83-87 | with unique ids only that goal changes, only in its sub-items |
| HomeScreen.AfterRequest | frontend/screens/HomeScreen.js:35-46 | success keeps the optimistic list; failure takes the reload when it answered |
| HomeScreen.FirstName | frontend/screens/HomeScreen.js:190 | the prefix before the first space, empty when there is no space |
| HomeScreen.FirstNameOf | frontend/screens/HomeScreen.js:190 | `first + " " + rest` greets by `first` |
| HomeScreen.Home.constructor | frontend/screens/HomeScreen.js:35-38 | the state holds the loaded goals |
| HomeScreen.Home.Reload | frontend/screens/HomeScreen.js:35-46 | the state becomes the server's list when it answered |
| HomeScreen.Home.HandleReorderGoals | frontend/screens/HomeScreen.js:107-122 | re-indexed goals shown at once, ids sent, reload on failure |
| HomeScreen.Home.HandleReorderSubItems | frontend/screens/HomeScreen.js:82-95 | an unknown goal does nothing; otherwise the sub-items are replaced before sending, reload on failure |
| HomeScreen.Home.HandleUpdateSubItem | frontend/screens/HomeScreen.js:125-141 | an unknown goal does nothing; the replaced items are sent and shown only after success |
| HomeScreen.Home.SortForDisplay | frontend/screens/HomeScreen.js:165 | the state array is sorted in place by order, stably, as a permutation |
| RegisterScreen.ValidateEmail | frontend/screens/RegisterScreen.js:29-32 | a match needs an `@` |
| RegisterScreen.ValidateEmailIffShape | frontend/screens/RegisterScreen.js:30 | the test agrees with the pattern: a non-empty local part, one `@`, a domain with an inner `.`, no white space |
| RegisterScreen.LowerKeepsShape | frontend/screens/RegisterScreen.js:57 | lower-casing keeps a valid email valid |
| RegisterScreen.HandleRegister | frontend/screens/RegisterScreen.js:34-63 | name, email, password length and confirmation checked in order with the first failure reported; `register` gets the trimmed name, trimmed lower-cased email and raw password only when all pass |
| RegisterScreen.SubmittedEmailIsNormal | frontend/screens/RegisterScreen.js:57 | the submitted email is valid, trimmed, lower-cased and non-empty |
| RegisterScreen.ValidHasNoSpace | frontend/screens/RegisterScreen.js:30 | a matching string has no white space |
| RegisterScreen.BlankEmailNeverMatches | frontend/screens/RegisterScreen.js:41 | a blank email fails the pattern, so the blank test is subsumed |

## Left out

- GoalRoutes.ReorderGoals: the sequential `findOneAndUpdate` writes are applied to a copy of the goals and stored together, so the partly reordered states in between (visible to concurrent requests) are not modelled.
- Persistence: MongoDB and Mongoose become in-memory sequences and maps.
- Express routing, `cors`, the server start and the `cron.schedule` wiring are left out.
- The push transport: `expo.chunkPushNotifications`, `sendPushNotificationsAsync`, the tickets and `backend/services/pushNotifications.js`. A send is an outbox append, and that service's exceptions are not modelled.
- `jwt.sign` is not part of this model. The register and login variant in `backend/server.js:184-248` and `/me` (251-261) are left out; `backend/routes/auth.js` is the modelled variant.
- `models/User.js` and `models/FriendRequest.js` are not part of this model. Their fields come from their use in the routers.
- Email uniqueness is kept as an invariant of the user table.
- `populate` is modelled as "the referenced user still exists". A reference to a deleted user yields null. For the push tokens of `backend/server.js:103-109` this is an assumption: `backend/models/PushToken.js:4-8` declares `userId` a plain String with no `ref`, so the populate there may not resolve at all. GoalServer.Server.SendDailyNotification models the job as if it resolved. As written, `populate` either refuses the path or leaves the stored String. A String is truthy, its `_id` is undefined, and `.toString()` then throws at the first token document. Either way the catch at `backend/server.js:173-175` ends the job: whenever any token document exists, no goal is reset and no reminder is sent. `GoalServer.Server.SendDailyNotificationAsWritten` models that (third row of "## Findings").
- Mongoose's strict mode is not modelled: the router goals' `subgoals`, `status`, `progress` and `sharedWith`, which `backend/models/Goal.js` does not declare, would be stripped from writes and queries, and the required `type` would refuse router-created goals; the model keeps and uses those fields as the router code intends.
- JavaScript numbers: `currentValue`, `targetValue`, `priority`, `order` and `progress` are unbounded integers. Fractions, `NaN`, infinities and values past 2^53 are not modelled.
- A reorder body without `orderedIds` is not modelled: both routes then fail on `orderedIds` being undefined (`backend/routes/goals.js:95`, `backend/server.js:365-372`), while the model always receives a sequence of ids.
- Tie order of MongoDB `sort`: MongoDB leaves the order of equal keys unspecified, while the model settles ties in insertion order. So the exact list and outbox equalities of `GoalServer.Server.GetGoals` (ties on `order`), `GoalRoutes.ListGoals` (ties on `createdAt`), `DailyReminder.TopGoals` and `DailyReminder.DailyMessages` (ties on priority and order) fix one admissible order. `DailyReminder.TopGoalsOrdered` and `DailyReminder.TopGoalsBest` hold for any tie order.
- The goal table is a sequence with unique ids, not a map, so that the natural order seen by sorts with ties is defined.
- The reset loop in the daily job runs after composing the messages. Resetting changes no title or ordering key, so the composed messages are the same.
- Validation messages are modelled only by the path that failed, not by Mongoose's exact text.
- A malformed ObjectId (Mongoose `CastError`, answered 400 or 500) is not modelled: ids are numbers.
- A body that overrides `createdAt` is not modelled.
- Floating point: `GoalCard.ProgressPercent` uses exact rationals, and `GoalRoutes.RoundPercent` rounds the exact quotient half up. `Math.round` on doubles can differ: for 29 of 200 subgoals the double `0.145 * 100` is 14.499999999999998, so the source stores 14 where the model gives 15.
- AuthRoutes.UpdatePushToken: an absent `pushToken` (undefined, which Mongoose ignores) is treated like null.
- `toLowerCase` covers ASCII letters only.
- Password length counts code points, not UTF-16 units.
- Haptics, modals, alerts, navigation, loading flags and rendering are left out; `uuid.v4()` is a parameter.
- HomeScreen: the interleaving of asynchronous handlers and stale closures is not modelled. `loadGoals` after a failure is treated as completing before anything else.
- HomeScreen.FirstName: the case of no logged-in user (`user?.name` undefined) is not modelled.
- FriendRoutes.Accept: that no reference dangles afterwards is stated in the lemma `FriendRoutes.AcceptKeepsNoDangling` over the new state, not as an ensures of the method.
- GoalServer.ReconcileWhere: its own contract states only the length; what it does to each goal is stated through `Completion.ReconcileEffect` and the methods that use it.
- RegisterScreen.ValidateEmail: its own contract states only that a match has an `@`; its full meaning is `RegisterScreen.ValidateEmailIffShape`.
- GoalRoutes.CreateGoal: of the record's validation, only the required title is modelled.
- GoalRoutes.UpdateGoal: update validators are modelled as "an empty title is refused before the lookup".

## Findings

| source | as written | input that shows it | evidently intended | confidence | as-written member | corrected member |
|---|---|---|---|---|---|---|
| backend/routes/auth.js:168-170 | step 4 of the account deletion deletes friend requests whose `from` or `to` is the user, but `backend/routes/friends.js:43-46` creates requests with `sender` and `recipient` only. This assumes that `models/FriendRequest.js`, which is not part of this model, declares no `from` or `to`, and that Mongoose keeps unknown filter paths (`strictQuery` off); with `strictQuery` on, both clauses are stripped and `$or: [{}, {}]` deletes every request instead | user 0 sends user 1 a request, then deletes the account: the request survives and names a sender that no longer exists | delete the requests the user sent or received | not executed | AuthRoutes.DeleteAccountAsWritten, AuthRoutes.AsWrittenLeavesDanglingRequest | AuthRoutes.DeleteAccount, AuthRoutes.DeletionLeavesNoDangling |
| frontend/screens/EditGoalScreen.js:45 | a new sub-item gets `order: subItems.length`, while removal at line 55 does not renumber | four items with orders 0 to 3 and distinct ids; remove the first two; add any non-blank title: it gets order 2 and lists between the survivors with orders 2 and 3 | the new item is listed last | not executed | EditGoalScreen.AddSubItemAsWritten, EditGoalScreen.AsWrittenAddListedInMiddle | EditGoalScreen.AddSubItem, EditGoalScreen.AddedItemListedLast |
| backend/server.js:103-109 | the daily job populates `userId` of the token documents, but `backend/models/PushToken.js:4-8` declares it a String with no `ref`; the String stays (or the populate is refused), passes the truthiness test, and `tokenDoc.userId._id.toString()` throws, so the catch at lines 173-175 ends the job before any goal is reset or any message composed | an existing user with one incomplete goal and one valid token document: the job sends nothing and resets nothing | each existing user with an incomplete goal gets a reminder at every valid token | not executed; depends on Mongoose leaving an un-referenced path as stored or refusing it | DailyReminder.DailyMessagesAsWritten, DailyReminder.AsWrittenSendsNoReminder, GoalServer.Server.SendDailyNotificationAsWritten | GoalServer.Server.SendDailyNotification, DailyReminder.DailyReminderDelivered |
