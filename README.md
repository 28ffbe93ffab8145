# Habit tracker backend, modelled in Dafny

This project models the server core of a social habit tracker. The core is the set of Convex
queries and mutations in `packages/backend/convex/`:

- `lib/helpers.ts`: the UTC date helpers, the streak walk `calculateStreak`, `areFriends`,
  `isValidUsername` and `countNudgesToday`;
- `habits.ts`: create, update, archive and unarchive a habit, toggle a day's completion, and
  the queries for today's habits, a date range, a streak and the current week;
- `friends.ts`: send, accept, reject and remove friend requests, and the friend and pending lists;
- `notifications.ts`: list notifications, count and mark them read, nudges with a daily cap,
  celebrations, streak milestones and deletion;
- `feed.ts`: the friends' activity of the last week, one friend's progress, and the friends'
  streak leaderboard.

The database is the class `Store.Database`. Its fields are the four tables (habits, habit logs,
friendships, notifications), each a sequence of documents in creation order. Ids come from one
shared counter. `Database.Valid()` is the store invariant:

- ids are distinct and below the counter;
- notifications are in id order;
- every stored schedule holds weekdays only;
- there is at most one log per habit and day;
- there is at most one friendship record per ordered pair;
- no one has nudged the same friend more than three times on any UTC day.

Every mutation is a method on the database. Its `ensures` ties the new state and the result to
a pure function of the old tables: `Friends.Send`, `Friends.Accept`,
`Notifications.NudgeFriend`, and so on. The lemmas about those functions state what the handler
promises. Queries are functions, or methods where the source loops.

The signed-in user (`caller`) and the clock (`now`, milliseconds since the epoch) are
parameters. The server is taken to run in UTC:

- `getDateString` is the date part of `toISOString`;
- `getDayOfWeek` is `(day + 4) % 7`, so 1970-01-04 was a Sunday, weekday 0;
- a `YYYY-MM-DD` string parses to that day's midnight.

Date strings are compared as JavaScript compares strings (`Text.LexLe`). `Dates.DateOrder`
proves that this is calendar order for well-formed dates.

The streak is specified by `Helpers.Streak`:

- the n-th scheduled day back from today is `Helpers.NthScheduled`; today counts only when it
  is scheduled;
- the streak is the length of the unbroken completed prefix of those days;
- it is capped at 366 scheduled days, because the walk stops once the count passes 365.

`Helpers.CountBack` is the imperative walk, proved equal to that specification.

In three places the code does something its own comments or guards suggest it was not meant
to. The model follows the code in one, and gives both the as-written and the corrected
behaviour in two:

- `removeFriend` deletes only the first record it finds. The comment at
  `friends.ts:149`, "Find the friendship in either direction", suggests that removal should
  cover both directions. The model keeps the code's behaviour in `Friends.Remove`, and
  `Friends.RemoveBoth` is the removal of both records (see Findings).
- The streak cap counts up to 366, not 365, because the `streak > 365` check runs after the
  increment.
- A schedule with no weekday makes the walk as written never stop: a non-scheduled day is
  skipped with `continue`, before the `// Safety limit` break at `lib/helpers.ts:91-92` is
  reached. That break shows the walk is meant to end. The model logs this under Findings,
  and `Helpers.CalculateStreak` returns 0 for such a schedule, since no scheduled day can be
  completed.

## Model

| member | source | states |
|---|---|---|
| Dates.GetDayOfWeek | packages/backend/convex/lib/helpers.ts:34-37 | the weekday of an instant is in 0..6 and is the weekday of its UTC day |
| Dates.WeekdayNumbering | packages/backend/convex/lib/helpers.ts:34-37 | the weekday advances by one each day, modulo 7, and Sunday is 0 |
| Dates.GetDateStringIsIsoDatePart | packages/backend/convex/lib/helpers.ts:29-32 | `getDateString` is the part of the ISO timestamp before the first `T` |
| Dates.GetDateStringIsIsoPrefix | packages/backend/convex/lib/helpers.ts:29-32 | the date string is the 10-character `YYYY-MM-DD` prefix of the ISO timestamp and is well formed |
| Dates.ParseDateString | packages/backend/convex/lib/helpers.ts:39-42 | parsing a date string gives UTC midnight of the day it names |
| Dates.DateStringRoundTrip | packages/backend/convex/lib/helpers.ts:29-42 | writing a day as a string and parsing it back gives the same day |
| Dates.ParseDayRoundTrip | packages/backend/convex/lib/helpers.ts:29-42 | parsing a well-formed date string and writing it back gives the same string |
| Dates.AddDays | packages/backend/convex/lib/helpers.ts:44-48 | `addDays(s, k)` is a well-formed date string k days after s |
| Dates.AddDaysZero | packages/backend/convex/lib/helpers.ts:44-48 | adding zero days returns the same string |
| Helpers.AddDaysRoundTrip | packages/backend/convex/lib/helpers.ts:44-48 | adding k days and then -k days returns the original string |
| Dates.DateOrder | packages/backend/convex/habits.ts:270-275 | comparing well-formed date strings as strings is the same as comparing the days they name |
| Helpers.AreFriends | packages/backend/convex/lib/helpers.ts:99-122 | two users are friends iff an accepted record links them in either direction |
| Helpers.AreFriendsSymmetric | packages/backend/convex/lib/helpers.ts:99-122 | friendship is symmetric |
| Helpers.FindPair | packages/backend/convex/lib/helpers.ts:105-110 | the lookup finds the record for that ordered pair, or reports that there is none |
| Helpers.FindLog | packages/backend/convex/lib/helpers.ts:78-83 | the lookup finds the log of that habit and date, or reports that there is none |
| Helpers.ValidUsernameMeaning | packages/backend/convex/lib/helpers.ts:124-127 | a username is valid iff it has 3 to 20 characters, each a letter, digit or underscore |
| Helpers.CountNudgesToday | packages/backend/convex/lib/helpers.ts:129-152 | the count is the number of nudges from sender to recipient created on the UTC day of `now` |
| Helpers.StreakMeaning | packages/backend/convex/lib/helpers.ts:57-94 | the streak n is at most 366, the first n scheduled days back from today are completed, and the next one is not when n is at most 365 |
| Helpers.StreakUnique | packages/backend/convex/lib/helpers.ts:57-94 | any n with those properties is the streak |
| Helpers.StreakZeroWhenTodayMissed | packages/backend/convex/lib/helpers.ts:61-87 | a scheduled today with no completed log gives streak 0 |
| Helpers.WalkPass | packages/backend/convex/lib/helpers.ts:68-94 | one pass of the loop skips to the latest scheduled day not after the current one, then counts it or stops |
| Helpers.CountBack | packages/backend/convex/lib/helpers.ts:67-94 | the walk's count equals the specified streak |
| Helpers.CalculateStreak | packages/backend/convex/lib/helpers.ts:50-97 | `calculateStreak` returns the specified streak: 0 for a missing habit and for a schedule with no weekday |
| Helpers.AsWrittenWalkNeverStops | packages/backend/convex/lib/helpers.ts:68-75 | with no weekday in the schedule, the walk as written has not stopped after any number of steps |
| Store.Database.constructor | packages/backend/convex/schema.ts:4-68 | an empty database satisfies the store invariant |
| Store.Database.InsertLog | packages/backend/convex/habits.ts:196-206 | a log is appended with a fresh id only when its habit and date have none, keeping the invariant |
| Store.Database.InsertNotification | packages/backend/convex/notifications.ts:128-135 | a notification is appended with a fresh id; a nudge is inserted only under the daily cap |
| Store.Database.MarkNotificationRead | packages/backend/convex/notifications.ts:74 | one notification's `read` flag is set and the invariant kept |
| Habits.List | packages/backend/convex/habits.ts:11-30 | lists exactly the caller's habits, and archived ones only when asked for |
| Habits.GetHabit | packages/backend/convex/habits.ts:32-44 | gives the habit with that id iff the caller owns it |
| Habits.ValidateScheduleDays | packages/backend/convex/habits.ts:59-64 | the loop accepts a schedule of integers iff every entry lies in 0..6 |
| Habits.Create | packages/backend/convex/habits.ts:46-80 | fails with "Invalid schedule day" iff a day is out of range; otherwise appends the caller's habit built from the arguments, with a fresh id, and nothing else changes |
| Habits.ApplyUpdateMeaning | packages/backend/convex/habits.ts:101-127 | each field given is replaced, every other field is kept, and the owner and archived flag never change |
| Habits.Update | packages/backend/convex/habits.ts:82-130 | errors for a missing or foreign habit and a bad schedule, leaving the store unchanged; otherwise patches only that habit |
| Habits.Archive | packages/backend/convex/habits.ts:132-145 | archives only the caller's habit; a missing or foreign one fails with no change |
| Habits.Unarchive | packages/backend/convex/habits.ts:147-160 | unarchives only the caller's habit; a missing or foreign one fails with no change |
| Habits.ToggleFlips | packages/backend/convex/habits.ts:178-206 | toggling flips the completion of that habit and date, keeps one log per day, and changes no other day |
| Habits.ToggleTwiceRestores | packages/backend/convex/habits.ts:162-208 | toggling twice restores the completion |
| Habits.ToggleCompletion | packages/backend/convex/habits.ts:162-208 | a foreign habit fails with no change; otherwise an existing log is patched or a new completed log is inserted for the date, defaulting to today |
| Habits.GetTodaysHabits | packages/backend/convex/habits.ts:210-251 | lists exactly the caller's active habits scheduled today, each with today's completion |
| Habits.GetStreak | packages/backend/convex/habits.ts:288-300 | a foreign habit fails; otherwise the result is the habit's streak |
| Habits.GetCompletionsForRange | packages/backend/convex/habits.ts:253-286 | the map's keys are exactly the logged dates in the string range, and each value is that log's `completed` |
| Habits.WeekStartMeaning | packages/backend/convex/habits.ts:308-311 | the week starts on the Monday on or before today, with Sunday offset by -6 |
| Habits.WeekDates | packages/backend/convex/habits.ts:305-316 | gives seven well-formed dates, Monday to Sunday of the current week |
| Habits.WeekWindow | packages/backend/convex/habits.ts:324-333 | a date is between the first and the last week date as a string iff its day is in the week |
| Habits.FindByDateInWindow | packages/backend/convex/habits.ts:324-339 | looking a date up among the week's logs gives that date's completion |
| Habits.WeekCompletions | packages/backend/convex/habits.ts:335-339 | the single-habit map has exactly the seven week dates, each with its completion |
| Habits.GroupingMeaning | packages/backend/convex/habits.ts:356-362 | the grouping has a habit and date iff some log has them, and each value is the `completed` of such a log |
| Habits.GroupByHabit | packages/backend/convex/habits.ts:356-362 | the loop builds exactly that grouping |
| Habits.CompletionsByHabit | packages/backend/convex/habits.ts:344-364 | has a habit and date iff the caller logged it in the window, with its completion |
| Habits.GetWeekCompletions | packages/backend/convex/habits.ts:302-366 | a foreign habit fails; otherwise gives the week's dates and the single-habit or per-habit completions |
| Friends.Send | packages/backend/convex/friends.ts:5-87 | a request that fails leaves the tables unchanged |
| Friends.SendErrors | packages/backend/convex/friends.ts:10-67 | each error is raised exactly on its condition: self; an outgoing pending request; an accepted outgoing record, or no outgoing record and an accepted incoming one |
| Friends.SendEffects | packages/backend/convex/friends.ts:29-85 | a success appends one unread notification to the addressee; a new record is pending and is added only when the caller had no outgoing record; pairs stay unique |
| Friends.SendReopensRejected | packages/backend/convex/friends.ts:29-40 | a request over the caller's own rejected record resets that record to pending, leaves every other record alone, returns its id and sends one `friend_request` notification |
| Friends.SendInsertsRequest | packages/backend/convex/friends.ts:43-85 | with no outgoing record, and no incoming one or only a rejected one, a new pending record with the next id is appended, its id returned, and one `friend_request` notification sent |
| Friends.SendAcceptsIncoming | packages/backend/convex/friends.ts:50-64 | a pending request from the addressee is accepted instead, making the two friends without a new record |
| Friends.SendNotifies | packages/backend/convex/friends.ts:32-83 | the notification is a friend acceptance iff an incoming pending request was accepted; otherwise a friend request |
| Friends.SendRequest | packages/backend/convex/friends.ts:5-87 | the store changes as the `Send` specification says |
| Friends.SendRequestByClerkId | packages/backend/convex/friends.ts:234-306 | behaves exactly as `sendRequest` to that id |
| Friends.CheckAnswer | packages/backend/convex/friends.ts:93-105 | "Request not found" iff no record has the id; otherwise only the addressee may answer a pending request |
| Friends.Accept | packages/backend/convex/friends.ts:89-119 | an error changes nothing; a success keeps the number of records |
| Friends.AcceptMakesFriends | packages/backend/convex/friends.ts:107-115 | accepting sets that record to accepted and changes no other record, makes the two users friends both ways, and notifies the requester |
| Friends.Reject | packages/backend/convex/friends.ts:121-142 | an error changes nothing; a success sends no notification |
| Friends.RejectMeaning | packages/backend/convex/friends.ts:139 | rejecting marks that record rejected and changes no other record |
| Friends.AcceptRequest | packages/backend/convex/friends.ts:89-119 | the store changes as the `Accept` specification says |
| Friends.RejectRequest | packages/backend/convex/friends.ts:121-142 | the store changes as the `Reject` specification says |
| Friends.Remove | packages/backend/convex/friends.ts:144-176 | fails iff there is no record either way; touches neither notifications nor the counter |
| Friends.RemoveMeaning | packages/backend/convex/friends.ts:149-174 | a success deletes exactly one record: the outgoing one if it exists, else the incoming one |
| Friends.RemoveLeavesNoRecord | packages/backend/convex/friends.ts:144-176 | afterwards the caller has no outgoing record to the friend, and when there was none, no incoming one either |
| Friends.RemoveCanKeepFriends | packages/backend/convex/friends.ts:144-176 | as written, a removal can leave the two users friends |
| Friends.RemoveBoth | packages/backend/convex/friends.ts:144-176 | the corrected removal fails iff no record exists either way, and keeps pairs unique |
| Friends.RemoveBothEndsFriendship | packages/backend/convex/friends.ts:144-176 | after the corrected removal the two users have no record either way and are not friends |
| Friends.RemoveFriend | packages/backend/convex/friends.ts:144-176 | the store changes as the `Remove` specification says, which is the code as written |
| Friends.ListCanRepeatFriend | packages/backend/convex/friends.ts:22-40 | a rejected outgoing record is re-opened although an accepted incoming record makes the two friends; once accepted, the friend list names that friend twice |
| Friends.ListFriendsMeaning | packages/backend/convex/friends.ts:178-206 | a user is in the friend list iff they are the caller's friend |
| Friends.ListPendingRequests | packages/backend/convex/friends.ts:208-230 | lists exactly the pending requests addressed to the caller, with requester and time |
| Notifications.HabitSummaryOf | packages/backend/convex/notifications.ts:23-34 | there is a habit summary iff the notification names a habit that exists, and it carries that habit's fields |
| Notifications.ListAt | packages/backend/convex/notifications.ts:8-46 | the i-th item is the caller's i-th newest notification, and the list has min(limit, count) items |
| Notifications.ListMeaning | packages/backend/convex/notifications.ts:8-46 | only the caller's notifications are listed, each with its habit summary |
| Notifications.ListNewestFirst | packages/backend/convex/notifications.ts:14-18 | the list is newest first, and every notification it leaves out is older than all it lists |
| Notifications.FindOwn | packages/backend/convex/notifications.ts:68-72 | "Notification not found" iff no notification with that id belongs to the caller |
| Notifications.ReadOne | packages/backend/convex/notifications.ts:64-77 | an error changes nothing; a success returns the id |
| Notifications.ReadOneMeaning | packages/backend/convex/notifications.ts:64-77 | marks only that notification read; the owner's unread count drops by one iff it was unread |
| Notifications.ReadOneIdempotent | packages/backend/convex/notifications.ts:74 | marking the same notification read twice is the same as once |
| Notifications.MarkRead | packages/backend/convex/notifications.ts:64-77 | the store changes as the `ReadOne` specification says |
| Notifications.ReadAllCounts | packages/backend/convex/notifications.ts:48-62 | after marking all read the caller's unread count is 0, and other users' counts are unchanged |
| Notifications.ReadAllKeeps | packages/backend/convex/notifications.ts:79-97 | marking all read is idempotent and changes only the caller's `read` flags |
| Notifications.MarkAllRead | packages/backend/convex/notifications.ts:79-97 | the loop marks every unread notification of the caller read and returns how many there were |
| Notifications.HabitCheck | packages/backend/convex/notifications.ts:120-126 | a named habit passes iff it exists, belongs to the recipient and is public |
| Notifications.NudgeFriend | packages/backend/convex/notifications.ts:99-139 | a refused nudge leaves the tables unchanged |
| Notifications.NudgeErrors | packages/backend/convex/notifications.ts:108-126 | each error is raised exactly on its condition: not friends, three nudges already sent today, or a bad habit |
| Notifications.NudgeCounts | packages/backend/convex/notifications.ts:114-135 | a nudge adds one to today's count for that pair, at most 3, and no other count moves |
| Notifications.NudgeKeepsCap | packages/backend/convex/notifications.ts:6 | nudging keeps every sender, recipient and day at three nudges or fewer |
| Notifications.SendNudge | packages/backend/convex/notifications.ts:99-139 | the store changes as the `NudgeFriend` specification says |
| Notifications.Celebrate | packages/backend/convex/notifications.ts:141-175 | a refused celebration leaves the tables unchanged |
| Notifications.CelebrateMeaning | packages/backend/convex/notifications.ts:141-175 | refused iff not friends or a bad habit; a success adds one unread notification for the friend and moves no nudge count |
| Notifications.SendCelebration | packages/backend/convex/notifications.ts:141-175 | the store changes as the `Celebrate` specification says |
| Notifications.MilestoneMeaning | packages/backend/convex/notifications.ts:177-197 | the milestone is an unread, senderless notification whose message holds the streak in decimal |
| Notifications.CreateStreakMilestone | packages/backend/convex/notifications.ts:177-197 | the store changes as the `Milestone` specification says |
| Notifications.Dismiss | packages/backend/convex/notifications.ts:199-212 | an error changes nothing; a success returns the id |
| Notifications.DismissMeaning | packages/backend/convex/notifications.ts:199-212 | deletes only the caller's notification with that id; unread counts drop by one iff it was unread |
| Notifications.DeleteNotification | packages/backend/convex/notifications.ts:199-212 | the store changes as the `Dismiss` specification says |
| Feed.FriendActivitiesMeaning | packages/backend/convex/feed.ts:58-89 | one friend's items are exactly their completed logs in the window, on public unarchived habits |
| Feed.FriendsActivitiesMeaning | packages/backend/convex/feed.ts:56-91 | the collected items are exactly those completions, over all friends |
| Feed.WeekAgoWindow | packages/backend/convex/feed.ts:41-44 | a date is in the string window iff its day is between seven days ago and today |
| Feed.CollectActivities | packages/backend/convex/feed.ts:56-91 | the nested loops collect exactly the specified items, in order |
| Feed.PushFriend | packages/backend/convex/feed.ts:58-90 | one friend's pass appends that friend's items |
| Feed.PushCompletions | packages/backend/convex/feed.ts:79-89 | one habit's pass appends its completed logs as items |
| Feed.GetFriendActivity | packages/backend/convex/feed.ts:11-98 | gives min(limit, total) of the collected items, newest first, each one collected, none newer than those kept dropped; no friends gives [] |
| Feed.FriendProgressMeaning | packages/backend/convex/feed.ts:100-158 | refused exactly to non-friends; lists the friend's shown habits with today's schedule, completion and streak, and today's habits are the scheduled ones |
| Feed.MaxOfMeaning | packages/backend/convex/feed.ts:197-204 | the running maximum bounds every streak, is one of them, and is 0 for none |
| Feed.MaxAtMostSum | packages/backend/convex/feed.ts:197-204 | the maximum streak is at most the total |
| Feed.StreakOfMeaning | packages/backend/convex/feed.ts:186-211 | a friend's entry has the maximum and total streaks of their shown habits and the habit count |
| Feed.FriendStreakEntry | packages/backend/convex/feed.ts:196-211 | the loop computes that entry |
| Feed.StreakTableMeaning | packages/backend/convex/feed.ts:185-213 | every entry is the entry of one of the friends |
| Feed.StreakEntries | packages/backend/convex/feed.ts:185-213 | the per-friend loop builds one entry per friend, in order |
| Feed.GetFriendStreaks | packages/backend/convex/feed.ts:160-218 | one entry per listed friend id, a permutation of the per-friend entries, sorted by maximum streak descending |
| Sorting.SortDesc | packages/backend/convex/feed.ts:94 | the array ends sorted by key, descending, and is a permutation of what it held |
| Sorting.SortedCopy | packages/backend/convex/feed.ts:94 | the copy is sorted descending and a permutation of the input |
| Sorting.PrefixKeepsGreatest | packages/backend/convex/feed.ts:96 | a prefix of a sorted list is sorted, and no element left out has a greater key |

## Left out

- Authentication: `requireCurrentUser` and its "Not authenticated" error are not modelled. The signed-in user is the `caller` parameter.
- The clock is the `now` parameter. The server is taken to run in UTC. Local-time `Date` parsing and `getDay` agree with the model only in UTC.
- Dates.ParseDateString: defined only for well-formed `YYYY-MM-DD` strings of years 100..9999. The source does not reject other strings. `split("-").map(Number)` and `new Date(y, m - 1, d)` roll out-of-range fields over: "2024-02-30" is 2024-03-01 and "2024-13-01" is 2025-01-01. Unpadded fields such as "2024-2-5" parse normally. A year below 100 is read as 1900 plus that year. Only a missing or non-numeric field gives "Invalid Date". The RangeError comes later, from `toISOString` in `getDateString`. None of these inputs is modelled. Every date string the handlers store or compute is well formed, except a client-supplied date or range bound.
- Dates.AddDays: requires a well-formed date string of years 100..9999, for the same reason.
- Habits.GetWeekCompletions: requires the clock to lie in years 100..9999 and the store's one-log-per-day invariant.
- Habits.WeekDates: requires the clock to lie in years 100..9999.
- Helpers.CountNudgesToday: requires the day of `now` to lie in years 100..9999.
- Notifications.NudgeFriend: requires the day of `now` to lie in years 100..9999 and the store's one-record-per-pair invariant.
- Notifications.SendNudge: requires the day of `now` to lie in years 100..9999.
- Habits.ValidateScheduleDays: schedule days are integers (`seq<int>`). In the source they are JavaScript numbers (`v.array(v.number())`), and the check `day < 0 || day > 6` also accepts fractions such as 2.5 and NaN, which are stored as given. The model cannot express these values. The store invariant "every stored schedule holds weekdays only" therefore holds only for integer schedules. Such a day never matches `includes(dow)`, so the habit is never scheduled on it. A schedule made only of such values makes the streak walk as written loop forever, as `[]` does (see Findings). The model's 0 covers `[]` and any integer schedule without a weekday.
- Friends.ListFriendsMeaning: states membership only. The friend list can name a friend twice, because `sendRequest` looks at the caller's outgoing record first and re-opens a rejected one even when an accepted incoming record already makes the two friends. `Friends.ListCanRepeatFriend` exhibits this. Two accepted records can also come from both users re-opening or answering crossing requests. `getFriendStreaks` then gives that friend two entries, and `getFriendActivity` lists each of their completions twice. The model follows the code and does not state a bound on repetitions.
- Text.LexLe: compares Dafny characters by scalar value, where JavaScript compares UTF-16 code units. The two differ only between a character above U+FFFF and one in U+E000..U+FFFF. Well-formed date strings contain neither, so only a client-supplied range bound in `getCompletionsForRange` could tell them apart.
- Limits are natural numbers. Negative or fractional `limit` values given to `take` or `slice` are not modelled.
- Ids are opaque naturals from one counter. An arbitrary string cast to an id and the falsy empty-string id are not modelled.
- Notifications.MilestoneMeaning: the streak is a natural number. A fractional JavaScript number given to `createStreakMilestone` is not modelled.
- Feed.GetFriendActivity: the order among items with equal timestamps is not stated. JavaScript's sort is stable; the proof states sorted and a permutation only.
- Feed.GetFriendStreaks: the order among friends with equal maximum streaks is not stated, for the same reason.
- Concurrency: `Promise.all` runs in sequence, each handler runs as one transaction, and reactive caching is not modelled. Two nudges racing past the cap are not modelled.
- Indexes are modelled by the filters they answer, not by their data structures.
- `packages/backend/convex/users.ts`, `lib/clerk.ts` and `clerkUsers.ts` are not part of this model. Neither are the generated API files or the user interface. `sendRequestByClerkId` takes the Clerk user id as the addressee directly.
- `getUnreadCount` is the function `Notifications.UnreadCount`. Its meaning is stated by `ReadAllCounts`, `ReadOneMeaning` and `DismissMeaning`.

## Findings

| source | as written | input that shows it | evidently intended | confidence | as-written member | corrected member |
|---|---|---|---|---|---|---|
| packages/backend/convex/lib/helpers.ts:68-75 | a non-scheduled day is skipped with `continue` before the 365-iteration safety check is reached | a habit whose `scheduleDays` is `[]`, or `[2.5]`, both of which `create` and `update` accept: no day is ever scheduled, so the loop never ends | the streak of a habit with no scheduled weekday is 0, and the walk always ends | high, not executed | Helpers.AsWrittenWalkNeverStops | Helpers.CalculateStreak |
| packages/backend/convex/friends.ts:144-176 | `removeFriend` deletes only the first record it finds, the outgoing one before the incoming one | a asks b; b rejects; b asks a, which inserts a second record; a accepts; a removes b. a's rejected record is deleted, the accepted record stays, and the two remain friends | removing a friend ends the friendship, deleting the records in both directions | high, not executed | Friends.RemoveCanKeepFriends | Friends.RemoveBothEndsFriendship |
