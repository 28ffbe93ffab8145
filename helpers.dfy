/** The shared helpers of packages/backend/convex/lib/helpers.ts that read the tables:
    the streak walk, the friendship lookup, the username pattern and the nudge count.
    The date helpers are in module Dates. */
module Helpers {
  import opened Wrappers
  import opened Text
  import opened Dates
  import opened Schema

  // ---------------------------------------------------------------------------------------
  // Date arithmetic
  // ---------------------------------------------------------------------------------------

  /** Moving a date string forward and back again, by any number of days, restores it. */
  lemma AddDaysRoundTrip(s: string, k: int)
    requires IsDateString(s) && InDomain(ParseDay(s) + k)
    ensures InDomain(ParseDay(s))
    ensures AddDays(AddDays(s, k), -k) == s
  {
    ParseDayRoundTrip(s);
    AddDaysTo(AddDays(s, k), -k, s);
  }

  /** Moving a date string to the day of another date string gives that string. */
  lemma AddDaysTo(t: string, k: int, s: string)
    requires IsDateString(t) && IsDateString(s) && ParseDay(t) + k == ParseDay(s) && InDomain(ParseDay(s))
    ensures InDomain(ParseDay(t) + k) && AddDays(t, k) == s
  {
    DateStringsEqual(AddDays(t, k), s);
  }

  // ---------------------------------------------------------------------------------------
  // Lookups that `.unique()` answers
  // ---------------------------------------------------------------------------------------

  /** At most one log per (habit, date): the `by_habit_date` lookups never see two. */
  predicate LogsUnique(logs: seq<Doc<HabitLog>>)
  {
    forall i, j :: 0 <= i < j < |logs| ==>
      !(logs[i].data.habitId == logs[j].data.habitId && logs[i].data.date == logs[j].data.date)
  }

  /** At most one record per ordered (requester, addressee) pair: the `by_pair` lookups never
      see two. */
  predicate PairsUnique(fs: seq<Doc<Friendship>>)
  {
    forall i, j :: 0 <= i < j < |fs| ==>
      !(fs[i].data.requesterId == fs[j].data.requesterId && fs[i].data.addresseeId == fs[j].data.addresseeId)
  }

  predicate IsLogOf(l: Doc<HabitLog>, habitId: Id, date: string)
  {
    l.data.habitId == habitId && l.data.date == date
  }

  /** The `by_habit_date` lookup: the position of the log of this habit on this date. */
  function FindLog(logs: seq<Doc<HabitLog>>, habitId: Id, date: string): (r: Option<nat>)
    ensures r.Some? ==> r.value < |logs| && IsLogOf(logs[r.value], habitId, date)
    ensures r.None? ==> forall k :: 0 <= k < |logs| ==> !IsLogOf(logs[k], habitId, date)
    ensures LogsUnique(logs) ==> forall k :: 0 <= k < |logs| && IsLogOf(logs[k], habitId, date) ==> r == Some(k)
  {
    if logs == [] then None
    else if IsLogOf(logs[0], habitId, date) then Some(0)
    else match FindLog(logs[1..], habitId, date)
      case None => None
      case Some(k) => Some(k + 1)
  }

  predicate IsPair(f: Doc<Friendship>, requester: UserId, addressee: UserId)
  {
    f.data.requesterId == requester && f.data.addresseeId == addressee
  }

  /** The `by_pair` lookup: the position of the record from `requester` to `addressee`. */
  function FindPair(fs: seq<Doc<Friendship>>, requester: UserId, addressee: UserId): (r: Option<nat>)
    ensures r.Some? ==> r.value < |fs| && IsPair(fs[r.value], requester, addressee)
    ensures r.None? ==> forall k :: 0 <= k < |fs| ==> !IsPair(fs[k], requester, addressee)
    ensures PairsUnique(fs) ==> forall k :: 0 <= k < |fs| && IsPair(fs[k], requester, addressee) ==> r == Some(k)
  {
    if fs == [] then None
    else if IsPair(fs[0], requester, addressee) then Some(0)
    else match FindPair(fs[1..], requester, addressee)
      case None => None
      case Some(k) => Some(k + 1)
  }

  /** `log?.completed ?? false` for the log of this habit on this date. */
  function LogCompleted(logs: seq<Doc<HabitLog>>, habitId: Id, date: string): bool
  {
    match FindLog(logs, habitId, date)
    case None => false
    case Some(k) => logs[k].data.completed
  }

  // ---------------------------------------------------------------------------------------
  // areFriends
  // ---------------------------------------------------------------------------------------

  predicate AcceptedBetween(f: Doc<Friendship>, a: UserId, b: UserId)
  {
    f.data.status == Accepted && (IsPair(f, a, b) || IsPair(f, b, a))
  }

  /** `areFriends(a, b)`: the (a, b) record is accepted, or else the (b, a) record is. */
  function AreFriends(fs: seq<Doc<Friendship>>, a: UserId, b: UserId): (r: bool)
    requires PairsUnique(fs)
    ensures r <==> exists k :: 0 <= k < |fs| && AcceptedBetween(fs[k], a, b)
  {
    var first := FindPair(fs, a, b);
    if first.Some? && fs[first.value].data.status == Accepted then true
    else
      var second := FindPair(fs, b, a);
      second.Some? && fs[second.value].data.status == Accepted
  }

  /** Friendship is symmetric, whichever of the two sent the request. */
  lemma AreFriendsSymmetric(fs: seq<Doc<Friendship>>, a: UserId, b: UserId)
    requires PairsUnique(fs)
    ensures AreFriends(fs, a, b) == AreFriends(fs, b, a)
  {
    if AreFriends(fs, a, b) {
      var k :| 0 <= k < |fs| && AcceptedBetween(fs[k], a, b);
      assert AcceptedBetween(fs[k], b, a);
    }
    if AreFriends(fs, b, a) {
      var k :| 0 <= k < |fs| && AcceptedBetween(fs[k], b, a);
      assert AcceptedBetween(fs[k], a, b);
    }
  }

  // ---------------------------------------------------------------------------------------
  // isValidUsername
  // ---------------------------------------------------------------------------------------

  /** The character class `[a-zA-Z0-9_]`. */
  predicate WordChar(c: char)
  {
    ('a' <= c <= 'z') || ('A' <= c <= 'Z') || ('0' <= c <= '9') || c == '_'
  }

  /** Whether `[a-zA-Z0-9_]{min,max}$` matches all of s: at least `min` and at most `max`
      class characters, then the end of the string. */
  function MatchRepeat(s: string, min: nat, max: nat): bool
  {
    if s == [] then min == 0
    else if max == 0 then false
    else WordChar(s[0]) && MatchRepeat(s[1..], if min == 0 then 0 else min - 1, max - 1)
  }

  /** `isValidUsername(s)`: `/^[a-zA-Z0-9_]{3,20}$/.test(s)`. */
  function IsValidUsername(s: string): bool
  {
    MatchRepeat(s, 3, 20)
  }

  lemma {:induction false} MatchRepeatMeaning(s: string, min: nat, max: nat)
    ensures MatchRepeat(s, min, max) <==> min <= |s| <= max && forall i :: 0 <= i < |s| ==> WordChar(s[i])
  {
    if s != [] && max != 0 {
      MatchRepeatMeaning(s[1..], if min == 0 then 0 else min - 1, max - 1);
      assert forall i :: 1 <= i < |s| ==> s[i] == s[1..][i - 1];
    }
  }

  /** A username is valid iff it has 3 to 20 characters, each a letter, digit or `_`. */
  lemma ValidUsernameMeaning(s: string)
    ensures IsValidUsername(s) <==> 3 <= |s| <= 20 && forall i :: 0 <= i < |s| ==> WordChar(s[i])
  {
    MatchRepeatMeaning(s, 3, 20);
  }

  // ---------------------------------------------------------------------------------------
  // countNudgesToday
  // ---------------------------------------------------------------------------------------

  /** `MAX_NUDGES_PER_DAY` of packages/backend/convex/notifications.ts. */
  const MaxNudgesPerDay: nat := 3

  /** A nudge from `from` to `to` created in [start, end). */
  predicate IsNudgeIn(n: Doc<Notification>, from: UserId, to: UserId, start: int, end: int)
  {
    && n.data.userId == to
    && n.data.kind == Nudge
    && n.data.fromUserId == Some(from)
    && start <= n.creationTime < end
  }

  function CountNudgesIn(ns: seq<Doc<Notification>>, from: UserId, to: UserId, start: int, end: int): nat
  {
    Count(ns, n => IsNudgeIn(n, from, to, start, end))
  }

  /** The nudges from `from` to `to` created on day number `day`. */
  function NudgesOnDay(ns: seq<Doc<Notification>>, from: UserId, to: UserId, day: int): nat
  {
    CountNudgesIn(ns, from, to, day * MsPerDay, day * MsPerDay + MsPerDay)
  }

  /** `countNudgesToday(from, to)`: the recipient's notifications (the `by_user` index) that
      are nudges from the sender created in [startOfDay, endOfDay), where the day is the UTC
      day of `now`. */
  function CountNudgesToday(ns: seq<Doc<Notification>>, from: UserId, to: UserId, now: int): (c: nat)
    requires InDomain(DayOf(now))
    ensures c == NudgesOnDay(ns, from, to, DayOf(now))
  {
    var startOfDay := MidnightOf(now);
    var endOfDay := startOfDay + 24 * 60 * 60 * 1000;
    CountNudgesIn(ns, from, to, startOfDay, endOfDay)
  }

  /** The nudge cap: no sender has nudged a recipient more than three times on any day. */
  ghost predicate NudgeCap(ns: seq<Doc<Notification>>)
  {
    forall from, to, day :: NudgesOnDay(ns, from, to, day) <= MaxNudgesPerDay
  }

  /** A new notification adds one to the count of the day it is a nudge in, and nothing
      to any other. */
  lemma NudgesAfterInsert(ns: seq<Doc<Notification>>, d: Doc<Notification>, from: UserId, to: UserId, day: int)
    ensures NudgesOnDay(ns + [d], from, to, day)
         == NudgesOnDay(ns, from, to, day) + (if IsNudgeIn(d, from, to, day * MsPerDay, day * MsPerDay + MsPerDay) then 1 else 0)
  {
    FilterAppend(ns, d, n => IsNudgeIn(n, from, to, day * MsPerDay, day * MsPerDay + MsPerDay));
  }

  /** A notification created at `now` is a nudge in no day but the one `now` falls in. */
  lemma NudgeDay(d: Doc<Notification>, from: UserId, to: UserId, day: int)
    requires IsNudgeIn(d, from, to, day * MsPerDay, day * MsPerDay + MsPerDay)
    ensures day == DayOf(d.creationTime)
  {
  }

  /** Changing a notification in a way that keeps whether it is a nudge, its sender, its
      recipient and its creation time keeps every count. */
  lemma NudgesAfterPatch(ns: seq<Doc<Notification>>, k: nat, data: Notification, from: UserId, to: UserId, day: int)
    requires k < |ns|
    requires data.userId == ns[k].data.userId && data.kind == ns[k].data.kind
    requires data.fromUserId == ns[k].data.fromUserId
    ensures NudgesOnDay(Patch(ns, k, data), from, to, day) == NudgesOnDay(ns, from, to, day)
  {
    CountPatch(ns, k, data, n => IsNudgeIn(n, from, to, day * MsPerDay, day * MsPerDay + MsPerDay));
  }

  /** Deleting a notification never raises a count. */
  lemma NudgesAfterDelete(ns: seq<Doc<Notification>>, k: nat, from: UserId, to: UserId, day: int)
    requires k < |ns|
    ensures NudgesOnDay(Delete(ns, k), from, to, day) <= NudgesOnDay(ns, from, to, day)
  {
    CountDelete(ns, k, n => IsNudgeIn(n, from, to, day * MsPerDay, day * MsPerDay + MsPerDay));
  }

  lemma {:induction false} CountPatch<T>(t: seq<Doc<T>>, k: nat, data: T, p: Doc<T> -> bool)
    requires k < |t| && p(Doc(t[k].id, t[k].creationTime, data)) == p(t[k])
    ensures Count(Patch(t, k, data), p) == Count(t, p)
  {
    var init, last := t[..|t| - 1], t[|t| - 1];
    assert t == init + [last];
    var r := Patch(t, k, data);
    if k == |t| - 1 {
      assert r == init + [r[k]];
      FilterAppend(init, r[k], p);
      FilterAppend(init, last, p);
    } else {
      CountPatch(init, k, data, p);
      assert r == Patch(init, k, data) + [last];
      FilterAppend(Patch(init, k, data), last, p);
      FilterAppend(init, last, p);
    }
  }

  lemma CountDelete<T>(t: seq<T>, k: nat, p: T -> bool)
    requires k < |t|
    ensures Count(t[..k] + t[k + 1..], p) == Count(t, p) - (if p(t[k]) then 1 else 0)
  {
    assert t == t[..k] + [t[k]] + t[k + 1..];
    FilterConcat(t[..k] + [t[k]], t[k + 1..], p);
    FilterConcat(t[..k], t[k + 1..], p);
    FilterAppend(t[..k], t[k], p);
  }

  // ---------------------------------------------------------------------------------------
  // calculateStreak: the specification
  // ---------------------------------------------------------------------------------------

  /** `habit.scheduleDays.includes(dayOfWeek)` for the weekday of day d. */
  predicate Scheduled(days: seq<int>, d: int)
  {
    DayOfWeek(d) in days
  }

  /** The schedule names at least one weekday: otherwise no day is ever scheduled. */
  predicate HasWeekday(days: seq<int>)
  {
    exists i :: 0 <= i < |days| && 0 <= days[i] <= 6
  }

  /** Every week holds a scheduled day of a schedule that names a weekday. */
  lemma ScheduledWithinWeek(days: seq<int>, d: int)
    requires HasWeekday(days)
    ensures exists q :: d - 6 <= q <= d && Scheduled(days, q)
  {
    var i :| 0 <= i < |days| && 0 <= days[i] <= 6;
    var w, r := days[i], DayOfWeek(d);
    var j := if r >= w then r - w else r - w + 7;
    assert (d + 4) % 7 == r;
    assert (d - j + 4) % 7 == w by {
      assert d + 4 == 7 * ((d + 4) / 7) + r;
      if r >= w {
        assert d - j + 4 == 7 * ((d + 4) / 7) + w;
      } else {
        assert d - j + 4 == 7 * ((d + 4) / 7 - 1) + w;
      }
    }
    assert Scheduled(days, d - j);
  }

  /** The latest scheduled day in lo..d, searching back from d. */
  function LatestScheduled(days: seq<int>, lo: int, d: int): (p: int)
    requires exists q :: lo <= q <= d && Scheduled(days, q)
    ensures lo <= p <= d && Scheduled(days, p)
    decreases d - lo
  {
    if Scheduled(days, d) then d else LatestScheduled(days, lo, d - 1)
  }

  /** Nothing after it in lo..d is scheduled. */
  lemma {:induction false} LatestScheduledIsLatest(days: seq<int>, lo: int, d: int)
    requires exists q :: lo <= q <= d && Scheduled(days, q)
    ensures forall q :: LatestScheduled(days, lo, d) < q <= d ==> !Scheduled(days, q)
    decreases d - lo
  {
    if !Scheduled(days, d) {
      LatestScheduledIsLatest(days, lo, d - 1);
    }
  }

  /** The latest scheduled day on or before d: where the skip branch of the walk stops. */
  function PrevScheduled(days: seq<int>, d: int): (p: int)
    requires HasWeekday(days)
    ensures d - 6 <= p <= d && Scheduled(days, p)
  {
    ScheduledWithinWeek(days, d);
    LatestScheduled(days, d - 6, d)
  }

  /** No day after it up to d is scheduled, so it is the latest scheduled day of all. */
  lemma PrevScheduledIsLatest(days: seq<int>, d: int)
    requires HasWeekday(days)
    ensures forall q :: PrevScheduled(days, d) < q <= d ==> !Scheduled(days, q)
  {
    ScheduledWithinWeek(days, d);
    LatestScheduledIsLatest(days, d - 6, d);
  }

  /** A scheduled day is its own latest scheduled day; an unscheduled one has the same as
      the day before it. */
  lemma PrevScheduledStep(days: seq<int>, d: int)
    requires HasWeekday(days)
    ensures Scheduled(days, d) ==> PrevScheduled(days, d) == d
    ensures !Scheduled(days, d) ==> PrevScheduled(days, d) == PrevScheduled(days, d - 1)
  {
    PrevScheduledIsLatest(days, d);
    if !Scheduled(days, d) {
      PrevScheduledIsLatest(days, d - 1);
    }
  }

  /** The k-th scheduled day counting back from `today` (the 0-th is the latest one on or
      before today): the scheduled days, newest first, with nothing scheduled skipped. */
  function NthScheduled(days: seq<int>, today: int, k: nat): (d: int)
    requires HasWeekday(days)
    ensures d <= today && Scheduled(days, d)
  {
    if k == 0 then PrevScheduled(days, today)
    else PrevScheduled(days, NthScheduled(days, today, k - 1) - 1)
  }

  /** The scheduled days counted back from today are all the scheduled days on or before
      today, newest first: none is left out between two of them or after the 0-th. */
  lemma NthScheduledMeaning(days: seq<int>, today: int, k: nat)
    requires HasWeekday(days)
    ensures k == 0 ==> forall q :: NthScheduled(days, today, 0) < q <= today ==> !Scheduled(days, q)
    ensures k > 0 ==> NthScheduled(days, today, k) < NthScheduled(days, today, k - 1)
    ensures k > 0 ==> forall q :: NthScheduled(days, today, k) < q < NthScheduled(days, today, k - 1)
                        ==> !Scheduled(days, q)
  {
    if k == 0 {
      PrevScheduledIsLatest(days, today);
    } else {
      PrevScheduledIsLatest(days, NthScheduled(days, today, k - 1) - 1);
    }
  }

  /** A day counts when its log exists and is completed. */
  predicate CompletedOn(logs: seq<Doc<HabitLog>>, habitId: Id, d: int)
  {
    LogCompleted(logs, habitId, DateString(d))
  }

  /** The days on which the habit's log is completed. */
  function CompletedDays(logs: seq<Doc<HabitLog>>, habitId: Id): int -> bool
  {
    d => CompletedOn(logs, habitId, d)
  }

  lemma CompletedDaysAt(logs: seq<Doc<HabitLog>>, habitId: Id, d: int)
    ensures CompletedDays(logs, habitId)(d) == LogCompleted(logs, habitId, DateString(d))
  {
  }

  /** The walk's safety limit: it stops once the streak exceeds 365, so at 366. */
  const StreakLimit: nat := 365

  /** The count of consecutive scheduled days from the k-th on that are `done`, up to the
      first one that is not or to the limit. */
  function Run(days: seq<int>, done: int -> bool, today: int, k: nat): nat
    requires HasWeekday(days) && k <= StreakLimit + 1
    decreases StreakLimit + 1 - k
  {
    if k == StreakLimit + 1 || !done(NthScheduled(days, today, k)) then k
    else Run(days, done, today, k + 1)
  }

  /** The streak on day `today` of a habit with schedule `days` that is completed on the days
      `done` holds of: no day of a schedule without a weekday is ever scheduled, so its streak
      is 0. */
  function Streak(days: seq<int>, done: int -> bool, today: int): nat
  {
    if !HasWeekday(days) then 0 else Run(days, done, today, 0)
  }

  /** `calculateStreak(habitId)` at instant `now`; a missing habit has streak 0. */
  function HabitStreak(habits: seq<Doc<Habit>>, logs: seq<Doc<HabitLog>>, habitId: Id, now: int): nat
  {
    match Get(habits, habitId)
    case None => 0
    case Some(h) => Streak(h.scheduleDays, CompletedDays(logs, habitId), DayOf(now))
  }

  lemma {:induction false} RunMeaning(days: seq<int>, done: int -> bool, today: int, k: nat)
    requires HasWeekday(days) && k <= StreakLimit + 1
    ensures var n := Run(days, done, today, k);
      && k <= n <= StreakLimit + 1
      && (forall j :: k <= j < n ==> done(NthScheduled(days, today, j)))
      && (n <= StreakLimit ==> !done(NthScheduled(days, today, n)))
    decreases StreakLimit + 1 - k
  {
    if k < StreakLimit + 1 && done(NthScheduled(days, today, k)) {
      assert Run(days, done, today, k) == Run(days, done, today, k + 1);
      RunMeaning(days, done, today, k + 1);
    } else {
      assert Run(days, done, today, k) == k;
    }
  }

  /** A streak of n means the n latest scheduled days, today's or earlier, all have completed
      logs, and (below the limit 366) the next one back does not. */
  lemma StreakMeaning(days: seq<int>, done: int -> bool, today: int)
    requires HasWeekday(days)
    ensures var n := Streak(days, done, today);
      && n <= StreakLimit + 1
      && (forall j :: 0 <= j < n ==> done(NthScheduled(days, today, j)))
      && (n <= StreakLimit ==> !done(NthScheduled(days, today, n)))
  {
    RunMeaning(days, done, today, 0);
  }

  /** Those conditions fix the streak: no other count meets them. */
  lemma StreakUnique(days: seq<int>, done: int -> bool, today: int, n: nat)
    requires HasWeekday(days) && n <= StreakLimit + 1
    requires forall j :: 0 <= j < n ==> done(NthScheduled(days, today, j))
    requires n <= StreakLimit ==> !done(NthScheduled(days, today, n))
    ensures Streak(days, done, today) == n
  {
    StreakMeaning(days, done, today);
  }

  /** A scheduled today without a completed log breaks the streak at once. */
  lemma StreakZeroWhenTodayMissed(days: seq<int>, done: int -> bool, today: int)
    requires Scheduled(days, today) && !done(today)
    ensures Streak(days, done, today) == 0
  {
    var i :| 0 <= i < |days| && days[i] == DayOfWeek(today);
    assert HasWeekday(days);
    assert NthScheduled(days, today, 0) == today;
  }

  // ---------------------------------------------------------------------------------------
  // calculateStreak: the walk
  // ---------------------------------------------------------------------------------------

  /** One pass of the walk at day `current`, while the k-th scheduled day is the latest
      scheduled day on or before it: an unscheduled day is skipped without changing that; a
      scheduled one is the k-th, and it either ends the count at k or moves it to k + 1. */
  lemma WalkPass(days: seq<int>, done: int -> bool, today: int, k: nat, current: int)
    requires HasWeekday(days) && k <= StreakLimit
    requires PrevScheduled(days, current) == NthScheduled(days, today, k)
    ensures !Scheduled(days, current) ==> PrevScheduled(days, current - 1) == NthScheduled(days, today, k)
    ensures Scheduled(days, current) ==> NthScheduled(days, today, k) == current
    ensures Scheduled(days, current) && !done(current) ==> Run(days, done, today, k) == k
    ensures Scheduled(days, current) && done(current) ==>
      && NthScheduled(days, today, k + 1) == PrevScheduled(days, current - 1)
      && Run(days, done, today, k) == Run(days, done, today, k + 1)
  {
    PrevScheduledStep(days, current);
  }

  /** The count stops at the limit. */
  lemma RunAtLimit(days: seq<int>, done: int -> bool, today: int)
    requires HasWeekday(days)
    ensures Run(days, done, today, StreakLimit + 1) == StreakLimit + 1
  {
  }

  /** The `while (true)` loop of `calculateStreak`, for a schedule that names a weekday, from
      the day it starts on: skip unscheduled days, count scheduled days that are `done`,
      stop at the first scheduled day that is not, or once the count passes the limit.
      The walk keeps the current day as a day number; `addDays(s, -1)` on a day's string is
      the string of the day before (lemma AddDaysIsDateString). `done(d)` is the lookup of
      the day's log (lemma CompletedDaysAt). */
  method CountBack(days: seq<int>, done: int -> bool, today: int, start: int) returns (streak: nat)
    requires HasWeekday(days) && PrevScheduled(days, start) == NthScheduled(days, today, 0)
    ensures streak == Run(days, done, today, 0)
  {
    var current := start;
    streak := 0;
    while true
      invariant streak <= StreakLimit
      invariant PrevScheduled(days, current) == NthScheduled(days, today, streak)
      invariant Run(days, done, today, 0) == Run(days, done, today, streak)
      // each pass either counts a day or moves one day closer to the latest scheduled one
      decreases 7 * (StreakLimit + 1 - streak) + (current - PrevScheduled(days, current))
    {
      WalkPass(days, done, today, streak, current);
      if !Scheduled(days, current) {
        current := current - 1;
      } else if !done(current) {
        break;
      } else {
        streak := streak + 1;
        current := current - 1;
        if streak > StreakLimit {
          RunAtLimit(days, done, today);
          break;
        }
      }
    }
  }

  /** `calculateStreak(habitId)` at instant `now`. A schedule without a weekday gives 0 at
      once, where the walk as written never stops (see AsWrittenWalkNeverStops). */
  method CalculateStreak(habits: seq<Doc<Habit>>, logs: seq<Doc<HabitLog>>, habitId: Id, now: int)
    returns (streak: nat)
    ensures streak == HabitStreak(habits, logs, habitId, now)
    ensures Get(habits, habitId).None? ==> streak == 0
    ensures Get(habits, habitId).Some? && !HasWeekday(Get(habits, habitId).value.scheduleDays) ==> streak == 0
  {
    var habit := Get(habits, habitId);
    if habit.None? {
      return 0;
    }
    var days := habit.value.scheduleDays;
    if !HasWeekday(days) {
      return 0;
    }
    var today := DayOf(now);
    var current := today;
    var todayDow := GetDayOfWeek(now);
    PrevScheduledStep(days, today);
    if todayDow !in days {
      current := current - 1;
    }
    streak := CountBack(days, CompletedDays(logs, habitId), today, current);
  }

  // ---------------------------------------------------------------------------------------
  // calculateStreak as written
  // ---------------------------------------------------------------------------------------

  /** The state of the walk as written: the current day, the count, and whether a `break`
      has ended the loop. */
  datatype Walk = Walk(current: int, streak: nat, stopped: bool)

  /** The state before the first iteration: today, or yesterday if today is unscheduled. */
  function WalkStart(days: seq<int>, today: int): Walk
  {
    Walk(if Scheduled(days, today) then today else today - 1, 0, false)
  }

  /** One iteration of `while (true)` as written, with no guard on the skip branch. */
  function WalkStep(days: seq<int>, done: int -> bool, w: Walk): Walk
  {
    if w.stopped then w
    else if !Scheduled(days, w.current) then Walk(w.current - 1, w.streak, false)
    else if !done(w.current) then Walk(w.current, w.streak, true)
    else Walk(w.current - 1, w.streak + 1, w.streak + 1 > StreakLimit)
  }

  function WalkAfter(days: seq<int>, done: int -> bool, today: int, k: nat): Walk
  {
    if k == 0 then WalkStart(days, today) else WalkStep(days, done, WalkAfter(days, done, today, k - 1))
  }

  /** As written, the walk over a schedule without a weekday (such as the empty schedule,
      which create and update accept) takes the skip branch forever: after any number of
      iterations it is still running, one more day back and with count 0. */
  lemma {:induction false} AsWrittenWalkNeverStops(days: seq<int>, done: int -> bool, today: int, k: nat)
    requires !HasWeekday(days)
    ensures var w := WalkAfter(days, done, today, k);
      !w.stopped && w.streak == 0 && w.current == today - 1 - k
  {
    if k > 0 {
      AsWrittenWalkNeverStops(days, done, today, k - 1);
    }
  }
}
