/** The document store the handlers run against: the four tables of
    packages/backend/convex/schema.ts, each in insertion order, and the id counter. The
    `ctx.db.insert`, `ctx.db.patch` and `ctx.db.delete` calls of the handlers are the methods
    of `Database`; each keeps the invariant `Valid` under the condition the handler checks
    before it writes. */
module Store {
  import opened Wrappers
  import opened Dates
  import opened Schema
  import opened Helpers

  /** The schedule days create and update accept: weekdays 0 (Sunday) to 6. */
  predicate ScheduleDaysValid(days: seq<int>)
  {
    forall i :: 0 <= i < |days| ==> 0 <= days[i] <= 6
  }

  /** The whole content of the store at one moment. */
  datatype Tables = Tables(
    habits: seq<Doc<Habit>>,
    logs: seq<Doc<HabitLog>>,
    friendships: seq<Doc<Friendship>>,
    notifications: seq<Doc<Notification>>,
    nextId: nat)

  /** The tables after a handler and what it returned or threw. */
  datatype Step<T> = Step(tables: Tables, result: Result<T, Error>)

  class Database {
    var habits: seq<Doc<Habit>>
    var logs: seq<Doc<HabitLog>>
    var friendships: seq<Doc<Friendship>>
    var notifications: seq<Doc<Notification>>
    var nextId: nat

    /** What the handlers rely on and keep: fresh distinct ids, every table in the order
        of its ids (the order of creation), valid schedules, one log per (habit, date), one
        friendship record per ordered pair, and the nudge cap. */
    ghost predicate Valid()
      reads this
    {
      && IdsBelow(habits, nextId) && IdsDistinct(habits)
      && IdsBelow(logs, nextId) && IdsDistinct(logs)
      && IdsBelow(friendships, nextId) && IdsDistinct(friendships)
      && IdsBelow(notifications, nextId) && IdsDistinct(notifications)
      && IdsIncreasing(notifications)
      && (forall i :: 0 <= i < |habits| ==> ScheduleDaysValid(habits[i].data.scheduleDays))
      && LogsUnique(logs)
      && PairsUnique(friendships)
      && NudgeCap(notifications)
    }

    function State(): Tables
      reads this
    {
      Tables(habits, logs, friendships, notifications, nextId)
    }

    constructor()
      ensures State() == Tables([], [], [], [], 0)
      ensures Valid()
    {
      habits, logs, friendships, notifications, nextId := [], [], [], [], 0;
    }

    method InsertHabit(h: Habit, now: int) returns (id: Id)
      requires Valid() && ScheduleDaysValid(h.scheduleDays)
      modifies this
      ensures Valid()
      ensures id == old(nextId)
      ensures State() == old(State()).(habits := old(habits) + [Doc(id, now, h)], nextId := id + 1)
    {
      id := nextId;
      AppendFresh(habits, nextId, Doc(id, now, h));
      habits := habits + [Doc(id, now, h)];
      nextId := nextId + 1;
    }

    method InsertLog(l: HabitLog, now: int) returns (id: Id)
      requires Valid() && FindLog(logs, l.habitId, l.date).None?
      modifies this
      ensures Valid()
      ensures id == old(nextId)
      ensures State() == old(State()).(logs := old(logs) + [Doc(id, now, l)], nextId := id + 1)
    {
      id := nextId;
      AppendFresh(logs, nextId, Doc(id, now, l));
      logs := logs + [Doc(id, now, l)];
      nextId := nextId + 1;
    }

    method InsertFriendship(f: Friendship, now: int) returns (id: Id)
      requires Valid() && FindPair(friendships, f.requesterId, f.addresseeId).None?
      modifies this
      ensures Valid()
      ensures id == old(nextId)
      ensures State() == old(State()).(friendships := old(friendships) + [Doc(id, now, f)], nextId := id + 1)
    {
      id := nextId;
      AppendFresh(friendships, nextId, Doc(id, now, f));
      friendships := friendships + [Doc(id, now, f)];
      nextId := nextId + 1;
    }

    /** A nudge may be inserted only while its sender has nudged its recipient fewer than
        three times on the day of `now`. */
    method InsertNotification(n: Notification, now: int) returns (id: Id)
      requires Valid()
      requires n.kind == Nudge && n.fromUserId.Some? ==>
        NudgesOnDay(notifications, n.fromUserId.value, n.userId, DayOf(now)) < MaxNudgesPerDay
      modifies this
      ensures Valid()
      ensures id == old(nextId)
      ensures State() == old(State()).(notifications := old(notifications) + [Doc(id, now, n)], nextId := id + 1)
    {
      id := nextId;
      var d := Doc(id, now, n);
      AppendFresh(notifications, nextId, d);
      forall from, to, day
        ensures NudgesOnDay(notifications + [d], from, to, day) <= MaxNudgesPerDay
      {
        NudgesAfterInsert(notifications, d, from, to, day);
        if IsNudgeIn(d, from, to, day * MsPerDay, day * MsPerDay + MsPerDay) {
          NudgeDay(d, from, to, day);
        }
      }
      notifications := notifications + [d];
      nextId := nextId + 1;
    }

    method PatchHabit(k: nat, h: Habit)
      requires Valid() && k < |habits| && ScheduleDaysValid(h.scheduleDays)
      modifies this
      ensures Valid()
      ensures State() == old(State()).(habits := Patch(old(habits), k, h))
    {
      PatchKeepsIds(habits, k, h, nextId);
      habits := Patch(habits, k, h);
    }

    /** A log patch keeps the habit and the date it is the log of. */
    method PatchLog(k: nat, l: HabitLog)
      requires Valid() && k < |logs|
      requires l.habitId == logs[k].data.habitId && l.date == logs[k].data.date
      modifies this
      ensures Valid()
      ensures State() == old(State()).(logs := Patch(old(logs), k, l))
    {
      PatchKeepsIds(logs, k, l, nextId);
      logs := Patch(logs, k, l);
    }

    /** A friendship patch changes the status only. */
    method PatchFriendship(k: nat, status: FriendshipStatus)
      requires Valid() && k < |friendships|
      modifies this
      ensures Valid()
      ensures State() == old(State()).(friendships := Patch(old(friendships), k, old(friendships[k].data).(status := status)))
    {
      var f := friendships[k].data.(status := status);
      PatchKeepsIds(friendships, k, f, nextId);
      friendships := Patch(friendships, k, f);
    }

    /** A notification patch marks it read. */
    method MarkNotificationRead(k: nat)
      requires Valid() && k < |notifications|
      modifies this
      ensures Valid()
      ensures State() == old(State()).(notifications := Patch(old(notifications), k, old(notifications[k].data).(read := true)))
    {
      var n := notifications[k].data.(read := true);
      PatchKeepsIds(notifications, k, n, nextId);
      forall from, to, day
        ensures NudgesOnDay(Patch(notifications, k, n), from, to, day) <= MaxNudgesPerDay
      {
        NudgesAfterPatch(notifications, k, n, from, to, day);
      }
      notifications := Patch(notifications, k, n);
    }

    method DeleteFriendship(k: nat)
      requires Valid() && k < |friendships|
      modifies this
      ensures Valid()
      ensures State() == old(State()).(friendships := Delete(old(friendships), k))
    {
      friendships := Delete(friendships, k);
    }

    method DeleteNotification(k: nat)
      requires Valid() && k < |notifications|
      modifies this
      ensures Valid()
      ensures State() == old(State()).(notifications := Delete(old(notifications), k))
    {
      forall from, to, day
        ensures NudgesOnDay(Delete(notifications, k), from, to, day) <= MaxNudgesPerDay
      {
        NudgesAfterDelete(notifications, k, from, to, day);
      }
      notifications := Delete(notifications, k);
    }
  }
}
