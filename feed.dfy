/** The feed queries of packages/backend/convex/feed.ts: the friends' completions of the last
    week, newest first; one friend's habits for today; and the friends' streak leaderboard.
    The queries read the tables and change nothing. */
module Feed {
  import opened Wrappers
  import opened Dates
  import opened Schema
  import opened Helpers
  import opened Store
  import opened Habits
  import opened Friends
  import opened Sorting

  /** A habit a friend shows: the friend's, not archived (the `by_user_active` index) and
      public (the `isPublic` filter). */
  predicate Shown(h: Doc<Habit>, friendId: UserId)
  {
    h.data.userId == friendId && !h.data.isArchived && h.data.isPublic
  }

  function ShownHabits(habits: seq<Doc<Habit>>, friendId: UserId): seq<Doc<Habit>>
  {
    Filter(habits, (h: Doc<Habit>) => Shown(h, friendId))
  }

  // ---------------------------------------------------------------------------------------
  // getFriendActivity
  // ---------------------------------------------------------------------------------------

  /** `args.limit ?? 50`. */
  const DefaultLimit: nat := 50

  /** An activity item; its `type` is always `"completion"`. */
  datatype Activity = Activity(
    userId: UserId,
    habitName: string,
    habitColor: Option<string>,
    habitIcon: Option<string>,
    date: string,
    timestamp: int)

  function TimestampKey(a: Activity): int
  {
    a.timestamp
  }

  /** The date seven days before `now`: `setDate(getDate() - 7)` on a UTC server. */
  function WeekAgoString(now: int): string
  {
    GetDateString(now - 7 * MsPerDay)
  }

  /** A log the feed shows for the habit: dated within [lo, hi] as strings, and completed. */
  predicate Counted(l: Doc<HabitLog>, habitId: Id, lo: string, hi: string)
  {
    l.data.habitId == habitId && InRange(lo, l.data.date, hi) && l.data.completed
  }

  function CountedLogs(logs: seq<Doc<HabitLog>>, habitId: Id, lo: string, hi: string): seq<Doc<HabitLog>>
  {
    Filter(logs, (l: Doc<HabitLog>) => Counted(l, habitId, lo, hi))
  }

  /** The item for one log: its timestamp is `completedAt`, else the log's creation time. */
  function ActivityOf(friendId: UserId, h: Doc<Habit>, l: Doc<HabitLog>): Activity
  {
    Activity(friendId, h.data.name, h.data.color, h.data.icon, l.data.date, l.data.completedAt.GetOr(l.creationTime))
  }

  function HabitActivities(logs: seq<Doc<HabitLog>>, friendId: UserId, h: Doc<Habit>, lo: string, hi: string): seq<Activity>
  {
    Map(CountedLogs(logs, h.id, lo, hi), (l: Doc<HabitLog>) => ActivityOf(friendId, h, l))
  }

  /** The items the inner loops push for one friend, habit by habit. */
  function HabitsActivities(logs: seq<Doc<HabitLog>>, friendId: UserId, hs: seq<Doc<Habit>>, lo: string, hi: string): seq<Activity>
    decreases |hs|
  {
    if hs == [] then []
    else HabitsActivities(logs, friendId, hs[..|hs| - 1], lo, hi) + HabitActivities(logs, friendId, hs[|hs| - 1], lo, hi)
  }

  /** The items the loops push, friend by friend. */
  function FriendsActivities(t: Tables, friendIds: seq<UserId>, lo: string, hi: string): seq<Activity>
    decreases |friendIds|
  {
    if friendIds == [] then []
    else
      var f := friendIds[|friendIds| - 1];
      FriendsActivities(t, friendIds[..|friendIds| - 1], lo, hi) + HabitsActivities(t.logs, f, ShownHabits(t.habits, f), lo, hi)
  }

  /** a is the item for a counted log of one of hs. */
  predicate FromHabits(logs: seq<Doc<HabitLog>>, friendId: UserId, hs: seq<Doc<Habit>>, lo: string, hi: string, a: Activity)
  {
    exists j, k :: 0 <= j < |hs| && 0 <= k < |logs| && Counted(logs[k], hs[j].id, lo, hi) && a == ActivityOf(friendId, hs[j], logs[k])
  }

  /** a is the item for a counted log of a habit the friend shows. */
  predicate CompletionOf(t: Tables, friendId: UserId, lo: string, hi: string, a: Activity)
  {
    exists j, k :: 0 <= j < |t.habits| && 0 <= k < |t.logs| && Shown(t.habits[j], friendId)
      && Counted(t.logs[k], t.habits[j].id, lo, hi) && a == ActivityOf(friendId, t.habits[j], t.logs[k])
  }

  /** a is the item for a counted log of a habit one of the friends shows. */
  predicate CompletionOfAny(t: Tables, friendIds: seq<UserId>, lo: string, hi: string, a: Activity)
  {
    exists i :: 0 <= i < |friendIds| && CompletionOf(t, friendIds[i], lo, hi, a)
  }

  lemma HabitActivitiesMeaning(logs: seq<Doc<HabitLog>>, friendId: UserId, h: Doc<Habit>, lo: string, hi: string, a: Activity)
    ensures a in HabitActivities(logs, friendId, h, lo, hi) <==>
      exists k :: 0 <= k < |logs| && Counted(logs[k], h.id, lo, hi) && a == ActivityOf(friendId, h, logs[k])
  {
    var cs := CountedLogs(logs, h.id, lo, hi);
    var r := HabitActivities(logs, friendId, h, lo, hi);
    if a in r {
      var i :| 0 <= i < |r| && r[i] == a;
      assert cs[i] in logs;
      var k :| 0 <= k < |logs| && logs[k] == cs[i];
      assert Counted(logs[k], h.id, lo, hi) && a == ActivityOf(friendId, h, logs[k]);
    }
    if exists k :: 0 <= k < |logs| && Counted(logs[k], h.id, lo, hi) && a == ActivityOf(friendId, h, logs[k]) {
      var k :| 0 <= k < |logs| && Counted(logs[k], h.id, lo, hi) && a == ActivityOf(friendId, h, logs[k]);
      assert logs[k] in cs;
      var i :| 0 <= i < |cs| && cs[i] == logs[k];
      assert r[i] == a;
    }
  }

  lemma {:induction false} HabitsActivitiesMeaning(logs: seq<Doc<HabitLog>>, friendId: UserId, hs: seq<Doc<Habit>>, lo: string, hi: string, a: Activity)
    ensures a in HabitsActivities(logs, friendId, hs, lo, hi) <==> FromHabits(logs, friendId, hs, lo, hi, a)
    decreases |hs|
  {
    if hs != [] {
      var init, h := hs[..|hs| - 1], hs[|hs| - 1];
      HabitsActivitiesMeaning(logs, friendId, init, lo, hi, a);
      HabitActivitiesMeaning(logs, friendId, h, lo, hi, a);
      if FromHabits(logs, friendId, hs, lo, hi, a) {
        var j, k :| 0 <= j < |hs| && 0 <= k < |logs| && Counted(logs[k], hs[j].id, lo, hi) && a == ActivityOf(friendId, hs[j], logs[k]);
        if j < |hs| - 1 {
          assert init[j] == hs[j];
        }
      }
      if FromHabits(logs, friendId, init, lo, hi, a) {
        var j, k :| 0 <= j < |init| && 0 <= k < |logs| && Counted(logs[k], init[j].id, lo, hi) && a == ActivityOf(friendId, init[j], logs[k]);
        assert hs[j] == init[j];
      }
      if exists k :: 0 <= k < |logs| && Counted(logs[k], h.id, lo, hi) && a == ActivityOf(friendId, h, logs[k]) {
        var k :| 0 <= k < |logs| && Counted(logs[k], h.id, lo, hi) && a == ActivityOf(friendId, h, logs[k]);
        assert hs[|hs| - 1] == h;
      }
    }
  }

  lemma FromShownIsCompletion(t: Tables, friendId: UserId, lo: string, hi: string, a: Activity)
    requires FromHabits(t.logs, friendId, ShownHabits(t.habits, friendId), lo, hi, a)
    ensures CompletionOf(t, friendId, lo, hi, a)
  {
    var hs := ShownHabits(t.habits, friendId);
    var j, k :| 0 <= j < |hs| && 0 <= k < |t.logs| && Counted(t.logs[k], hs[j].id, lo, hi) && a == ActivityOf(friendId, hs[j], t.logs[k]);
    var h := hs[j];
    assert h in t.habits && Shown(h, friendId);
    var j' :| 0 <= j' < |t.habits| && t.habits[j'] == h;
    assert Counted(t.logs[k], t.habits[j'].id, lo, hi) && a == ActivityOf(friendId, t.habits[j'], t.logs[k]);
  }

  lemma CompletionIsFromShown(t: Tables, friendId: UserId, lo: string, hi: string, a: Activity)
    requires CompletionOf(t, friendId, lo, hi, a)
    ensures FromHabits(t.logs, friendId, ShownHabits(t.habits, friendId), lo, hi, a)
  {
    var hs := ShownHabits(t.habits, friendId);
    var j, k :| 0 <= j < |t.habits| && 0 <= k < |t.logs| && Shown(t.habits[j], friendId)
      && Counted(t.logs[k], t.habits[j].id, lo, hi) && a == ActivityOf(friendId, t.habits[j], t.logs[k]);
    var h := t.habits[j];
    assert h in hs;
    var j' :| 0 <= j' < |hs| && hs[j'] == h;
    assert Counted(t.logs[k], hs[j'].id, lo, hi) && a == ActivityOf(friendId, hs[j'], t.logs[k]);
  }

  /** The items for one friend are those for the counted logs of the habits the friend shows. */
  lemma FriendActivitiesMeaning(t: Tables, friendId: UserId, lo: string, hi: string, a: Activity)
    ensures a in HabitsActivities(t.logs, friendId, ShownHabits(t.habits, friendId), lo, hi) <==> CompletionOf(t, friendId, lo, hi, a)
  {
    HabitsActivitiesMeaning(t.logs, friendId, ShownHabits(t.habits, friendId), lo, hi, a);
    if FromHabits(t.logs, friendId, ShownHabits(t.habits, friendId), lo, hi, a) {
      FromShownIsCompletion(t, friendId, lo, hi, a);
    }
    if CompletionOf(t, friendId, lo, hi, a) {
      CompletionIsFromShown(t, friendId, lo, hi, a);
    }
  }

  /** The items the loops collect are exactly those for the counted logs of the habits the
      given friends show. */
  lemma {:induction false} FriendsActivitiesMeaning(t: Tables, friendIds: seq<UserId>, lo: string, hi: string, a: Activity)
    ensures a in FriendsActivities(t, friendIds, lo, hi) <==> CompletionOfAny(t, friendIds, lo, hi, a)
    decreases |friendIds|
  {
    if friendIds != [] {
      var init, f := friendIds[..|friendIds| - 1], friendIds[|friendIds| - 1];
      FriendsActivitiesMeaning(t, init, lo, hi, a);
      FriendActivitiesMeaning(t, f, lo, hi, a);
      if CompletionOfAny(t, friendIds, lo, hi, a) {
        var i :| 0 <= i < |friendIds| && CompletionOf(t, friendIds[i], lo, hi, a);
        if i < |friendIds| - 1 {
          assert init[i] == friendIds[i];
        }
      }
      if CompletionOfAny(t, init, lo, hi, a) {
        var i :| 0 <= i < |init| && CompletionOf(t, init[i], lo, hi, a);
        assert friendIds[i] == init[i];
      }
      if CompletionOf(t, f, lo, hi, a) {
        assert friendIds[|friendIds| - 1] == f;
      }
    }
  }

  /** For a well-formed date, the string window [weekAgoStr, today] is the eight days from
      seven days before `now` to the day of `now`. */
  lemma WeekAgoWindow(now: int, d: string)
    requires ClockInRange(now) && IsDateString(d)
    ensures InRange(WeekAgoString(now), d, GetDateString(now)) <==> DayOf(now) - 7 <= ParseDay(d) <= DayOf(now)
  {
    var n := DayOf(now);
    assert DayOf(now - 7 * MsPerDay) == n - 7;
    ClockDay(now, -7);
    ClockDay(now, 0);
    DateStringRoundTrip(n - 7);
    DateStringRoundTrip(n);
    DateOrder(WeekAgoString(now), d);
    DateOrder(d, GetDateString(now));
  }

  /** The loops of `getFriendActivity`: for each friend, each habit the friend shows, each of
      its counted logs, push the item. */
  method CollectActivities(t: Tables, friendIds: seq<UserId>, lo: string, hi: string) returns (activities: seq<Activity>)
    ensures activities == FriendsActivities(t, friendIds, lo, hi)
  {
    activities := [];
    for i := 0 to |friendIds|
      invariant activities == FriendsActivities(t, friendIds[..i], lo, hi)
    {
      activities := PushFriend(t, activities, friendIds[i], lo, hi);
      FriendsActivitiesSnoc(t, friendIds, lo, hi, i);
    }
    assert friendIds[..|friendIds|] == friendIds;
  }

  lemma FriendsActivitiesSnoc(t: Tables, friendIds: seq<UserId>, lo: string, hi: string, i: nat)
    requires i < |friendIds|
    ensures FriendsActivities(t, friendIds[..i + 1], lo, hi)
      == FriendsActivities(t, friendIds[..i], lo, hi) + HabitsActivities(t.logs, friendIds[i], ShownHabits(t.habits, friendIds[i]), lo, hi)
  {
    assert friendIds[..i + 1][..i] == friendIds[..i];
  }

  /** The middle loop: the habits one friend shows. */
  method PushFriend(t: Tables, activities: seq<Activity>, friendId: UserId, lo: string, hi: string) returns (r: seq<Activity>)
    ensures r == activities + HabitsActivities(t.logs, friendId, ShownHabits(t.habits, friendId), lo, hi)
  {
    var habits := ShownHabits(t.habits, friendId);
    r := activities;
    for j := 0 to |habits|
      invariant r == activities + HabitsActivities(t.logs, friendId, habits[..j], lo, hi)
    {
      HabitsActivitiesSnoc(activities, r, t.logs, friendId, habits, lo, hi, j);
      r := PushCompletions(r, t.logs, friendId, habits[j], lo, hi);
    }
    assert habits[..|habits|] == habits;
  }

  /** One step of the middle loop: pushing the next habit's items extends the prefix. */
  lemma HabitsActivitiesSnoc(before: seq<Activity>, r: seq<Activity>, logs: seq<Doc<HabitLog>>, friendId: UserId,
                             hs: seq<Doc<Habit>>, lo: string, hi: string, j: nat)
    requires j < |hs| && r == before + HabitsActivities(logs, friendId, hs[..j], lo, hi)
    ensures r + HabitActivities(logs, friendId, hs[j], lo, hi) == before + HabitsActivities(logs, friendId, hs[..j + 1], lo, hi)
  {
    assert hs[..j + 1][..j] == hs[..j];
    var done := HabitsActivities(logs, friendId, hs[..j], lo, hi);
    var next := HabitActivities(logs, friendId, hs[j], lo, hi);
    assert HabitsActivities(logs, friendId, hs[..j + 1], lo, hi) == done + next;
    assert (before + done) + next == before + (done + next);
  }

  /** The innermost loop: one item per counted log of the habit. */
  method PushCompletions(activities: seq<Activity>, logs: seq<Doc<HabitLog>>, friendId: UserId, habit: Doc<Habit>, lo: string, hi: string)
    returns (r: seq<Activity>)
    ensures r == activities + HabitActivities(logs, friendId, habit, lo, hi)
  {
    var counted := CountedLogs(logs, habit.id, lo, hi);
    r := activities;
    for k := 0 to |counted|
      invariant |r| == |activities| + k && r[..|activities|] == activities
      invariant forall m :: 0 <= m < k ==> r[|activities| + m] == ActivityOf(friendId, habit, counted[m])
    {
      r := r + [ActivityOf(friendId, habit, counted[k])];
    }
    assert r == activities + Map(counted, (l: Doc<HabitLog>) => ActivityOf(friendId, habit, l));
  }

  /** `getFriendActivity({ limit })`: the items for the friends' completed logs dated from a
      week ago to today, sorted newest first, cut to the limit. The limit keeps the newest:
      every item it drops is no newer than every item it keeps. */
  method GetFriendActivity(t: Tables, caller: UserId, limit: Option<nat>, now: int) returns (r: seq<Activity>)
    ensures var acts := FriendsActivities(t, ListFriends(t.friendships, caller), WeekAgoString(now), GetDateString(now));
      var l := limit.GetOr(DefaultLimit);
      && |r| == (if l < |acts| then l else |acts|)
      && SortedDesc(r, TimestampKey)
      && multiset(r) <= multiset(acts)
      && forall x :: x in multiset(acts) - multiset(r) ==> forall i :: 0 <= i < |r| ==> TimestampKey(x) <= TimestampKey(r[i])
    ensures ListFriends(t.friendships, caller) == [] ==> r == []
  {
    var friendIds := ListFriends(t.friendships, caller);
    if |friendIds| == 0 {
      return [];
    }
    var today := GetDateString(now);
    var weekAgoStr := WeekAgoString(now);
    var activities := CollectActivities(t, friendIds, weekAgoStr, today);
    var sorted := SortedCopy(activities, TimestampKey);
    r := Take(sorted, limit.GetOr(DefaultLimit));
    PrefixKeepsGreatest(sorted, TimestampKey, |r|);
  }

  // ---------------------------------------------------------------------------------------
  // getFriendProgress
  // ---------------------------------------------------------------------------------------

  /** One habit of `getFriendProgress`. */
  datatype FriendHabit = FriendHabit(
    id: Id,
    name: string,
    icon: Option<string>,
    color: Option<string>,
    isScheduledToday: bool,
    completedToday: bool,
    streak: nat)

  datatype Progress = Progress(friendId: UserId, todaysHabits: seq<FriendHabit>, allPublicHabits: seq<FriendHabit>)

  function StatusOf(t: Tables, h: Doc<Habit>, now: int): FriendHabit
  {
    FriendHabit(h.id, h.data.name, h.data.icon, h.data.color,
      GetDayOfWeek(now) in h.data.scheduleDays,
      LogCompleted(t.logs, h.id, GetDateString(now)),
      HabitStreak(t.habits, t.logs, h.id, now))
  }

  predicate IsScheduledToday(s: FriendHabit)
  {
    s.isScheduledToday
  }

  /** `getFriendProgress({ friendId })`. */
  function FriendProgress(t: Tables, caller: UserId, friendId: UserId, now: int): Result<Progress, Error>
    requires PairsUnique(t.friendships)
  {
    if !AreFriends(t.friendships, caller, friendId) then Err(NotFriends)
    else
      var all := Map(ShownHabits(t.habits, friendId), (h: Doc<Habit>) => StatusOf(t, h, now));
      Ok(Progress(friendId, Filter(all, IsScheduledToday), all))
  }

  /** A friend's progress is refused exactly to a non-friend. It lists the habits the friend
      shows, in order, each with whether today's weekday is in its schedule, today's log's
      `completed` flag and its streak; today's habits are exactly the scheduled ones. */
  lemma FriendProgressMeaning(t: Tables, caller: UserId, friendId: UserId, now: int)
    requires PairsUnique(t.friendships)
    ensures var r := FriendProgress(t, caller, friendId, now);
      && (r.Err? <==> !AreFriends(t.friendships, caller, friendId))
      && (r.Err? ==> r.error == NotFriends)
      && (r.Ok? ==> (
        var shown, all, todays := ShownHabits(t.habits, friendId), r.value.allPublicHabits, r.value.todaysHabits;
        && r.value.friendId == friendId
        && |all| == |shown|
        && (forall i :: 0 <= i < |all| ==>
              && shown[i] in t.habits && Shown(shown[i], friendId)
              && all[i].id == shown[i].id && all[i].name == shown[i].data.name
              && (all[i].isScheduledToday <==> DayOfWeek(DayOf(now)) in shown[i].data.scheduleDays)
              && all[i].completedToday == LogCompleted(t.logs, shown[i].id, GetDateString(now))
              && all[i].streak == HabitStreak(t.habits, t.logs, shown[i].id, now))
        && (forall s :: s in todays <==> s in all && s.isScheduledToday)
        && (forall j :: 0 <= j < |t.habits| && Shown(t.habits[j], friendId) ==> t.habits[j] in shown)))
  {
    if AreFriends(t.friendships, caller, friendId) {
      var all := FriendProgress(t, caller, friendId, now).value.allPublicHabits;
      var todays := Filter(all, IsScheduledToday);
      forall s | s in all && s.isScheduledToday
        ensures s in todays
      {
        var i :| 0 <= i < |all| && all[i] == s;
      }
    }
  }

  // ---------------------------------------------------------------------------------------
  // getFriendStreaks
  // ---------------------------------------------------------------------------------------

  /** One entry of `getFriendStreaks`. */
  datatype FriendStreak = FriendStreak(friendId: UserId, maxStreak: nat, totalStreak: nat, habitCount: nat)

  function MaxStreakKey(e: FriendStreak): int
  {
    e.maxStreak
  }

  /** The values of `f` on the elements of `xs`, in order. */
  function Pointwise<A, B>(xs: seq<A>, f: A -> B): (r: seq<B>)
    ensures |r| == |xs|
    decreases |xs|
  {
    if xs == [] then [] else Pointwise(xs[..|xs| - 1], f) + [f(xs[|xs| - 1])]
  }

  lemma {:induction false} PointwiseAt<A, B>(xs: seq<A>, f: A -> B, i: nat)
    requires i < |xs|
    ensures Pointwise(xs, f)[i] == f(xs[i])
    decreases |xs|
  {
    var init := xs[..|xs| - 1];
    if i < |init| {
      PointwiseAt(init, f, i);
      assert init[i] == xs[i];
    }
  }

  lemma PointwiseSnoc<A, B>(xs: seq<A>, f: A -> B, j: nat)
    requires j < |xs|
    ensures Pointwise(xs[..j + 1], f) == Pointwise(xs[..j], f) + [f(xs[j])]
  {
    assert xs[..j + 1][..j] == xs[..j];
  }

  /** `calculateStreak` of each habit, at instant `now`. */
  function StreakFn(t: Tables, now: int): Doc<Habit> -> nat
  {
    (h: Doc<Habit>) => HabitStreak(t.habits, t.logs, h.id, now)
  }

  /** The streaks of the habits, in order. */
  function Streaks(t: Tables, hs: seq<Doc<Habit>>, now: int): (r: seq<nat>)
    ensures |r| == |hs|
  {
    Pointwise(hs, StreakFn(t, now))
  }

  /** `maxStreak = Math.max(maxStreak, streak)` from 0. */
  function MaxOf(s: seq<nat>): nat
    decreases |s|
  {
    if s == [] then 0
    else
      var m := MaxOf(s[..|s| - 1]);
      if s[|s| - 1] > m then s[|s| - 1] else m
  }

  /** `totalStreak += streak` from 0. */
  function SumOf(s: seq<nat>): nat
    decreases |s|
  {
    if s == [] then 0 else SumOf(s[..|s| - 1]) + s[|s| - 1]
  }

  /** The fold from 0 is the maximum: no element is above it, and it is an element unless
      there are none. */
  lemma {:induction false} MaxOfMeaning(s: seq<nat>)
    ensures forall i :: 0 <= i < |s| ==> s[i] <= MaxOf(s)
    ensures s == [] ==> MaxOf(s) == 0
    ensures s != [] ==> MaxOf(s) in s
    decreases |s|
  {
    if s != [] {
      var init := s[..|s| - 1];
      MaxOfMeaning(init);
      assert forall i :: 0 <= i < |init| ==> s[i] == init[i];
      if init != [] && MaxOf(s) == MaxOf(init) {
        var k :| 0 <= k < |init| && init[k] == MaxOf(init);
        assert s[k] == MaxOf(s);
      }
    }
  }

  /** No streak is above the total, so the maximum is not either. */
  lemma {:induction false} MaxAtMostSum(s: seq<nat>)
    ensures MaxOf(s) <= SumOf(s)
    decreases |s|
  {
    if s != [] {
      MaxAtMostSum(s[..|s| - 1]);
    }
  }

  lemma StreaksAt(t: Tables, hs: seq<Doc<Habit>>, now: int, i: nat)
    requires i < |hs|
    ensures Streaks(t, hs, now)[i] == HabitStreak(t.habits, t.logs, hs[i].id, now)
  {
    PointwiseAt(hs, StreakFn(t, now), i);
  }

  lemma StreaksSnoc(t: Tables, hs: seq<Doc<Habit>>, now: int, j: nat)
    requires j < |hs|
    ensures Streaks(t, hs[..j + 1], now) == Streaks(t, hs[..j], now) + [HabitStreak(t.habits, t.logs, hs[j].id, now)]
  {
    PointwiseSnoc(hs, StreakFn(t, now), j);
  }

  lemma MaxSumSnoc(s: seq<nat>, x: nat)
    ensures MaxOf(s + [x]) == (if x > MaxOf(s) then x else MaxOf(s))
    ensures SumOf(s + [x]) == SumOf(s) + x
  {
    assert (s + [x])[..|s|] == s;
  }

  /** The maximum of the values of `f` on the habits bounds each of them, is one of them
      unless there are none, and is at most their sum. */
  lemma PointwiseMax(hs: seq<Doc<Habit>>, f: Doc<Habit> -> nat)
    ensures var s := Pointwise(hs, f);
      && (forall i :: 0 <= i < |hs| ==> f(hs[i]) <= MaxOf(s))
      && (hs == [] ==> MaxOf(s) == 0 && SumOf(s) == 0)
      && (hs != [] ==> exists i :: 0 <= i < |hs| && f(hs[i]) == MaxOf(s))
      && MaxOf(s) <= SumOf(s)
  {
    var s := Pointwise(hs, f);
    MaxOfMeaning(s);
    MaxAtMostSum(s);
    forall i | 0 <= i < |hs|
      ensures s[i] == f(hs[i])
    {
      PointwiseAt(hs, f, i);
    }
    if hs != [] {
      var i :| 0 <= i < |s| && s[i] == MaxOf(s);
      assert f(hs[i]) == MaxOf(s);
    }
  }

  /** A friend's entry: the maximum and the sum of the streaks of the habits the friend shows,
      and how many there are. */
  function StreakOf(t: Tables, friendId: UserId, now: int): (e: FriendStreak)
    ensures e.friendId == friendId
  {
    var s := Streaks(t, ShownHabits(t.habits, friendId), now);
    FriendStreak(friendId, MaxOf(s), SumOf(s), |s|)
  }

  lemma StreakFnAt(t: Tables, now: int, h: Doc<Habit>)
    ensures StreakFn(t, now)(h) == HabitStreak(t.habits, t.logs, h.id, now)
  {
  }

  /** The entry's maximum is the streak of one of the friend's shown habits, or 0 when the
      friend shows none; no shown habit has a longer streak; and it is at most the total. */
  lemma StreakOfMeaning(t: Tables, friendId: UserId, now: int)
    ensures var e, hs := StreakOf(t, friendId, now), ShownHabits(t.habits, friendId);
      && e.friendId == friendId && e.habitCount == |hs|
      && (forall i :: 0 <= i < |hs| ==> HabitStreak(t.habits, t.logs, hs[i].id, now) <= e.maxStreak)
      && (hs == [] ==> e.maxStreak == 0 && e.totalStreak == 0)
      && (hs != [] ==> exists i :: 0 <= i < |hs| && HabitStreak(t.habits, t.logs, hs[i].id, now) == e.maxStreak)
      && e.maxStreak <= e.totalStreak
  {
    var hs, f := ShownHabits(t.habits, friendId), StreakFn(t, now);
    var s := Pointwise(hs, f);
    var e := StreakOf(t, friendId, now);
    assert e == FriendStreak(friendId, MaxOf(s), SumOf(s), |hs|);
    PointwiseMax(hs, f);
    forall i | 0 <= i < |hs|
      ensures HabitStreak(t.habits, t.logs, hs[i].id, now) <= e.maxStreak
    {
      StreakFnAt(t, now, hs[i]);
    }
    if hs != [] {
      var i :| 0 <= i < |hs| && f(hs[i]) == MaxOf(s);
      StreakFnAt(t, now, hs[i]);
    }
  }

  /** The inner loop of `getFriendStreaks` for one friend. */
  method FriendStreakEntry(t: Tables, friendId: UserId, now: int) returns (e: FriendStreak)
    ensures e == StreakOf(t, friendId, now)
  {
    var habits := ShownHabits(t.habits, friendId);
    var maxStreak, totalStreak := 0, 0;
    ghost var streaks: seq<nat> := [];
    for j := 0 to |habits|
      invariant streaks == Streaks(t, habits[..j], now)
      invariant maxStreak == MaxOf(streaks) && totalStreak == SumOf(streaks)
    {
      var streak := CalculateStreak(t.habits, t.logs, habits[j].id, now);
      StreaksSnoc(t, habits, now, j);
      MaxSumSnoc(streaks, streak);
      streaks := streaks + [streak];
      maxStreak := if streak > maxStreak then streak else maxStreak;
      totalStreak := totalStreak + streak;
    }
    assert habits[..|habits|] == habits;
    e := FriendStreak(friendId, maxStreak, totalStreak, |habits|);
  }

  /** `StreakOf` each friend, at instant `now`. */
  function EntryFn(t: Tables, now: int): UserId -> FriendStreak
  {
    (x: UserId) => StreakOf(t, x, now)
  }

  /** The entries of the given friends, in their order. */
  function StreakTable(t: Tables, friendIds: seq<UserId>, now: int): (r: seq<FriendStreak>)
    ensures |r| == |friendIds|
  {
    Pointwise(friendIds, EntryFn(t, now))
  }

  lemma StreakTableAt(t: Tables, friendIds: seq<UserId>, now: int, i: nat)
    requires i < |friendIds|
    ensures StreakTable(t, friendIds, now)[i] == StreakOf(t, friendIds[i], now)
  {
    PointwiseAt(friendIds, EntryFn(t, now), i);
  }

  /** Each entry of the table is the entry of one of the friends. */
  lemma StreakTableMeaning(t: Tables, friendIds: seq<UserId>, now: int, e: FriendStreak)
    requires e in StreakTable(t, friendIds, now)
    ensures e.friendId in friendIds && e == StreakOf(t, e.friendId, now)
  {
    var i :| 0 <= i < |friendIds| && StreakTable(t, friendIds, now)[i] == e;
    StreakTableAt(t, friendIds, now, i);
  }

  lemma StreakTableSnoc(t: Tables, friendIds: seq<UserId>, now: int, i: nat)
    requires i < |friendIds|
    ensures StreakTable(t, friendIds[..i + 1], now) == StreakTable(t, friendIds[..i], now) + [StreakOf(t, friendIds[i], now)]
  {
    PointwiseSnoc(friendIds, EntryFn(t, now), i);
  }

  /** The loop of `getFriendStreaks` over the friend ids. */
  method StreakEntries(t: Tables, friendIds: seq<UserId>, now: int) returns (friendStreaks: seq<FriendStreak>)
    ensures friendStreaks == StreakTable(t, friendIds, now)
  {
    friendStreaks := [];
    for i := 0 to |friendIds|
      invariant friendStreaks == StreakTable(t, friendIds[..i], now)
    {
      var e := FriendStreakEntry(t, friendIds[i], now);
      StreakTableSnoc(t, friendIds, now, i);
      friendStreaks := friendStreaks + [e];
    }
    assert friendIds[..|friendIds|] == friendIds;
  }

  /** `getFriendStreaks()`: one entry per friend id, sorted by maximum streak, highest first. */
  method GetFriendStreaks(t: Tables, caller: UserId, now: int) returns (r: seq<FriendStreak>)
    ensures |r| == |ListFriends(t.friendships, caller)|
    ensures multiset(r) == multiset(StreakTable(t, ListFriends(t.friendships, caller), now))
    ensures SortedDesc(r, MaxStreakKey)
    ensures forall e :: e in r ==> e.friendId in ListFriends(t.friendships, caller) && e == StreakOf(t, e.friendId, now)
  {
    var friendIds := ListFriends(t.friendships, caller);
    var friendStreaks := StreakEntries(t, friendIds, now);
    r := SortedCopy(friendStreaks, MaxStreakKey);
    forall e | e in r
      ensures e.friendId in friendIds && e == StreakOf(t, e.friendId, now)
    {
      assert e in multiset(r);
      StreakTableMeaning(t, friendIds, now, e);
    }
  }
}
