/** The habit handlers of packages/backend/convex/habits.ts. Every handler acts for `caller`,
    the signed-in user; the clock reading `now` stands for `Date.now()` and `new Date()`. */
module Habits {
  import opened Wrappers
  import opened Text
  import opened Dates
  import opened Schema
  import opened Helpers
  import opened Store

  // ---------------------------------------------------------------------------------------
  // list, get
  // ---------------------------------------------------------------------------------------

  /** `list({ includeArchived })`: the caller's habits (the `by_user` index), or only the
      ones not archived (the `by_user_active` index), in creation order. */
  function List(habits: seq<Doc<Habit>>, caller: UserId, includeArchived: Option<bool>): (r: seq<Doc<Habit>>)
    ensures forall i :: 0 <= i < |r| ==> r[i] in habits && r[i].data.userId == caller
    ensures includeArchived != Some(true) ==> forall i :: 0 <= i < |r| ==> !r[i].data.isArchived
    ensures forall k ::
      (0 <= k < |habits| && habits[k].data.userId == caller &&
       (includeArchived == Some(true) || !habits[k].data.isArchived)) ==> habits[k] in r
  {
    if includeArchived == Some(true) then Filter(habits, (h: Doc<Habit>) => h.data.userId == caller)
    else Filter(habits, (h: Doc<Habit>) => h.data.userId == caller && !h.data.isArchived)
  }

  /** The owner check every habit handler starts with: the position of habit `id` if it
      exists and belongs to the caller. */
  function OwnedIndex(habits: seq<Doc<Habit>>, caller: UserId, id: Id): (r: Option<nat>)
    ensures r.Some? ==> r.value < |habits| && habits[r.value].id == id && habits[r.value].data.userId == caller
    ensures IdsDistinct(habits) ==>
      (r.None? <==> forall k :: 0 <= k < |habits| && habits[k].id == id ==> habits[k].data.userId != caller)
  {
    match IndexOf(habits, id)
    case None => None
    case Some(k) => if habits[k].data.userId == caller then Some(k) else None
  }

  /** `get({ id })`: the habit, or null when it is missing or someone else's. */
  function GetHabit(habits: seq<Doc<Habit>>, caller: UserId, id: Id): (r: Option<Doc<Habit>>)
    ensures r.Some? ==> r.value in habits && r.value.id == id && r.value.data.userId == caller
    ensures IdsDistinct(habits) ==>
      (r.None? <==> forall k :: 0 <= k < |habits| && habits[k].id == id ==> habits[k].data.userId != caller)
  {
    match OwnedIndex(habits, caller, id)
    case None => None
    case Some(k) => Some(habits[k])
  }

  // ---------------------------------------------------------------------------------------
  // create, update, archive, unarchive
  // ---------------------------------------------------------------------------------------

  /** The `for (const day of scheduleDays)` check: false at the first day outside 0..6. */
  method ValidateScheduleDays(days: seq<int>) returns (ok: bool)
    ensures ok == ScheduleDaysValid(days)
  {
    for i := 0 to |days|
      invariant ScheduleDaysValid(days[..i])
    {
      if days[i] < 0 || days[i] > 6 {
        assert !(0 <= days[i] <= 6);
        return false;
      }
    }
    assert days[..|days|] == days;
    return true;
  }

  /** The habit `create` inserts: the caller's, not archived, public unless told otherwise. */
  function NewHabit(caller: UserId, name: string, description: Option<string>, icon: Option<string>,
                    color: Option<string>, scheduleDays: seq<int>, reminderTime: Option<string>,
                    isPublic: Option<bool>): Habit
  {
    Habit(caller, name, description, icon, color, scheduleDays, reminderTime, false, isPublic.GetOr(true))
  }

  /** `create(...)`: throws "Invalid schedule day" and writes nothing if a day is outside 0..6;
      otherwise inserts the new habit and returns its id. */
  method Create(db: Database, caller: UserId, name: string, description: Option<string>, icon: Option<string>,
                color: Option<string>, scheduleDays: seq<int>, reminderTime: Option<string>,
                isPublic: Option<bool>, now: int)
    returns (r: Result<Id, Error>)
    requires db.Valid()
    modifies db
    ensures db.Valid()
    ensures r.Err? <==> !ScheduleDaysValid(scheduleDays)
    ensures r.Err? ==> r.error == InvalidScheduleDay && db.State() == old(db.State())
    ensures r.Ok? ==> (
      && r.value == old(db.nextId)
      && db.State() == old(db.State()).(
           habits := old(db.habits) + [Doc(r.value, now, NewHabit(caller, name, description, icon, color,
                                                                   scheduleDays, reminderTime, isPublic))],
           nextId := r.value + 1))
  {
    var ok := ValidateScheduleDays(scheduleDays);
    if !ok {
      return Err(InvalidScheduleDay);
    }
    var id := db.InsertHabit(NewHabit(caller, name, description, icon, color, scheduleDays, reminderTime, isPublic), now);
    return Ok(id);
  }

  /** The optional arguments of `update`: `None` leaves the field as it is. */
  datatype HabitUpdate = HabitUpdate(
    name: Option<string>,
    description: Option<string>,
    icon: Option<string>,
    color: Option<string>,
    scheduleDays: Option<seq<int>>,
    reminderTime: Option<string>,
    isPublic: Option<bool>)

  /** The habit after `ctx.db.patch(id, updates)` with the supplied fields. */
  function ApplyUpdate(h: Habit, u: HabitUpdate): Habit
  {
    h.(name := u.name.GetOr(h.name),
       description := if u.description.Some? then u.description else h.description,
       icon := if u.icon.Some? then u.icon else h.icon,
       color := if u.color.Some? then u.color else h.color,
       scheduleDays := u.scheduleDays.GetOr(h.scheduleDays),
       reminderTime := if u.reminderTime.Some? then u.reminderTime else h.reminderTime,
       isPublic := u.isPublic.GetOr(h.isPublic))
  }

  /** An update keeps the owner and the archived flag, changes a field only when it is
      supplied, sets every supplied field, and applying it twice is applying it once. */
  lemma ApplyUpdateMeaning(h: Habit, u: HabitUpdate)
    ensures var r := ApplyUpdate(h, u);
      && r.userId == h.userId && r.isArchived == h.isArchived
      && (u.name.None? ==> r.name == h.name) && (u.name.Some? ==> r.name == u.name.value)
      && (u.description.None? ==> r.description == h.description)
      && (u.description.Some? ==> r.description == u.description)
      && (u.icon.None? ==> r.icon == h.icon) && (u.icon.Some? ==> r.icon == u.icon)
      && (u.color.None? ==> r.color == h.color) && (u.color.Some? ==> r.color == u.color)
      && (u.scheduleDays.None? ==> r.scheduleDays == h.scheduleDays)
      && (u.scheduleDays.Some? ==> r.scheduleDays == u.scheduleDays.value)
      && (u.reminderTime.None? ==> r.reminderTime == h.reminderTime)
      && (u.reminderTime.Some? ==> r.reminderTime == u.reminderTime)
      && (u.isPublic.None? ==> r.isPublic == h.isPublic) && (u.isPublic.Some? ==> r.isPublic == u.isPublic.value)
      && ApplyUpdate(r, u) == r
  {
  }

  /** `update({ id, ... })`: "Habit not found" for a missing or foreign habit, then "Invalid
      schedule day" for a bad supplied schedule, each writing nothing; otherwise patches the
      supplied fields. */
  method Update(db: Database, caller: UserId, id: Id, u: HabitUpdate) returns (r: Result<Id, Error>)
    requires db.Valid()
    modifies db
    ensures db.Valid()
    ensures var k := OwnedIndex(old(db.habits), caller, id);
      && (k.None? ==> r == Err(HabitNotFound) && db.State() == old(db.State()))
      && (k.Some? && u.scheduleDays.Some? && !ScheduleDaysValid(u.scheduleDays.value) ==>
            r == Err(InvalidScheduleDay) && db.State() == old(db.State()))
      && (k.Some? && (u.scheduleDays.Some? ==> ScheduleDaysValid(u.scheduleDays.value)) ==>
            r == Ok(id)
            && db.State() == old(db.State()).(habits := Patch(old(db.habits), k.value,
                                                              ApplyUpdate(old(db.habits)[k.value].data, u))))
  {
    var k := OwnedIndex(db.habits, caller, id);
    if k.None? {
      return Err(HabitNotFound);
    }
    if u.scheduleDays.Some? {
      var ok := ValidateScheduleDays(u.scheduleDays.value);
      if !ok {
        return Err(InvalidScheduleDay);
      }
    }
    var h := db.habits[k.value].data;
    assert ScheduleDaysValid(h.scheduleDays);
    db.PatchHabit(k.value, ApplyUpdate(h, u));
    return Ok(id);
  }

  /** `archive({ id })`: sets `isArchived` on the caller's habit and changes nothing else. */
  method Archive(db: Database, caller: UserId, id: Id) returns (r: Result<Id, Error>)
    requires db.Valid()
    modifies db
    ensures db.Valid()
    ensures var k := OwnedIndex(old(db.habits), caller, id);
      && (k.None? ==> r == Err(HabitNotFound) && db.State() == old(db.State()))
      && (k.Some? ==> (
            && r == Ok(id)
            && db.State() == old(db.State()).(habits := Patch(old(db.habits), k.value,
                                                              old(db.habits)[k.value].data.(isArchived := true)))))
  {
    var k := OwnedIndex(db.habits, caller, id);
    if k.None? {
      return Err(HabitNotFound);
    }
    assert ScheduleDaysValid(db.habits[k.value].data.scheduleDays);
    db.PatchHabit(k.value, db.habits[k.value].data.(isArchived := true));
    return Ok(id);
  }

  /** `unarchive({ id })`: clears `isArchived` on the caller's habit and changes nothing else. */
  method Unarchive(db: Database, caller: UserId, id: Id) returns (r: Result<Id, Error>)
    requires db.Valid()
    modifies db
    ensures db.Valid()
    ensures var k := OwnedIndex(old(db.habits), caller, id);
      && (k.None? ==> r == Err(HabitNotFound) && db.State() == old(db.State()))
      && (k.Some? ==> (
            && r == Ok(id)
            && db.State() == old(db.State()).(habits := Patch(old(db.habits), k.value,
                                                              old(db.habits)[k.value].data.(isArchived := false)))))
  {
    var k := OwnedIndex(db.habits, caller, id);
    if k.None? {
      return Err(HabitNotFound);
    }
    assert ScheduleDaysValid(db.habits[k.value].data.scheduleDays);
    db.PatchHabit(k.value, db.habits[k.value].data.(isArchived := false));
    return Ok(id);
  }

  // ---------------------------------------------------------------------------------------
  // toggleCompletion
  // ---------------------------------------------------------------------------------------

  /** The patch on an existing log: flip `completed`, stamp `completedAt` exactly when it
      becomes true, and keep the note unless a new one is given. */
  function Toggled(l: HabitLog, note: Option<string>, now: int): HabitLog
  {
    l.(completed := !l.completed,
       completedAt := if !l.completed then Some(now) else None,
       note := if note.Some? then note else l.note)
  }

  /** The log table after `toggleCompletion` on (habitId, date): the existing log patched,
      or a new completed log with id `newId`. */
  function ToggleLogs(logs: seq<Doc<HabitLog>>, caller: UserId, habitId: Id, date: string,
                      note: Option<string>, now: int, newId: Id): seq<Doc<HabitLog>>
  {
    match FindLog(logs, habitId, date)
    case Some(k) => Patch(logs, k, Toggled(logs[k].data, note, now))
    case None => logs + [Doc(newId, now, HabitLog(habitId, caller, date, true, Some(now), note))]
  }

  /** A log patch that keeps the habit and the date leaves every lookup where it was. */
  lemma FindLogAfterPatch(logs: seq<Doc<HabitLog>>, k: nat, l: HabitLog, h: Id, d: string)
    requires LogsUnique(logs) && k < |logs|
    requires l.habitId == logs[k].data.habitId && l.date == logs[k].data.date
    ensures LogsUnique(Patch(logs, k, l))
    ensures FindLog(Patch(logs, k, l), h, d) == FindLog(logs, h, d)
  {
    var p := Patch(logs, k, l);
    assert forall i :: 0 <= i < |logs| ==> (IsLogOf(p[i], h, d) <==> IsLogOf(logs[i], h, d));
  }

  /** Appending a log of a (habit, date) that has none makes it the one found for that pair
      and leaves every other lookup where it was. */
  lemma FindLogAfterAppend(logs: seq<Doc<HabitLog>>, x: Doc<HabitLog>, h: Id, d: string)
    requires LogsUnique(logs) && FindLog(logs, x.data.habitId, x.data.date).None?
    ensures LogsUnique(logs + [x])
    ensures FindLog(logs + [x], h, d) == if IsLogOf(x, h, d) then Some(|logs|) else FindLog(logs, h, d)
  {
    var a := logs + [x];
    assert forall i :: 0 <= i < |logs| ==> a[i] == logs[i];
    if !IsLogOf(x, h, d) {
      match FindLog(logs, h, d)
      case Some(k) => assert IsLogOf(a[k], h, d);
      case None =>
    }
  }

  /** `toggleCompletion` flips whether (habitId, date) counts as completed (a missing log
      counts as not completed), keeps one log per (habit, date), and leaves every other
      (habit, date) as it was. */
  lemma ToggleFlips(logs: seq<Doc<HabitLog>>, caller: UserId, habitId: Id, date: string,
                    note: Option<string>, now: int, newId: Id)
    requires LogsUnique(logs)
    ensures var t := ToggleLogs(logs, caller, habitId, date, note, now, newId);
      && LogsUnique(t)
      && LogCompleted(t, habitId, date) == !LogCompleted(logs, habitId, date)
      && forall h, d :: (h != habitId || d != date) ==> LogCompleted(t, h, d) == LogCompleted(logs, h, d)
  {
    var t := ToggleLogs(logs, caller, habitId, date, note, now, newId);
    match FindLog(logs, habitId, date)
    case Some(k) =>
      var l := Toggled(logs[k].data, note, now);
      FindLogAfterPatch(logs, k, l, habitId, date);
      forall h, d | h != habitId || d != date
        ensures LogCompleted(t, h, d) == LogCompleted(logs, h, d)
      {
        FindLogAfterPatch(logs, k, l, h, d);
        match FindLog(logs, h, d)
        case Some(j) => assert j != k;
        case None =>
      }
    case None =>
      var x := Doc(newId, now, HabitLog(habitId, caller, date, true, Some(now), note));
      FindLogAfterAppend(logs, x, habitId, date);
      forall h, d | h != habitId || d != date
        ensures LogCompleted(t, h, d) == LogCompleted(logs, h, d)
      {
        FindLogAfterAppend(logs, x, h, d);
        match FindLog(logs, h, d)
        case Some(j) => assert t[j] == logs[j];
        case None =>
      }
  }

  /** Two toggles of one (habit, date) restore whether it counts as completed. */
  lemma ToggleTwiceRestores(logs: seq<Doc<HabitLog>>, caller: UserId, habitId: Id, date: string,
                            note1: Option<string>, now1: int, id1: Id,
                            note2: Option<string>, now2: int, id2: Id)
    requires LogsUnique(logs)
    ensures LogCompleted(ToggleLogs(ToggleLogs(logs, caller, habitId, date, note1, now1, id1),
                                    caller, habitId, date, note2, now2, id2), habitId, date)
         == LogCompleted(logs, habitId, date)
  {
    ToggleFlips(logs, caller, habitId, date, note1, now1, id1);
    ToggleFlips(ToggleLogs(logs, caller, habitId, date, note1, now1, id1), caller, habitId, date, note2, now2, id2);
  }

  /** `toggleCompletion({ habitId, date, note })`, with `date` defaulting to today's string. */
  method ToggleCompletion(db: Database, caller: UserId, habitId: Id, date: Option<string>,
                          note: Option<string>, now: int)
    returns (r: Result<Id, Error>)
    requires db.Valid()
    modifies db
    ensures db.Valid()
    ensures OwnedIndex(old(db.habits), caller, habitId).None? ==>
      r == Err(HabitNotFound) && db.State() == old(db.State())
    ensures OwnedIndex(old(db.habits), caller, habitId).Some? ==>
      var d := date.GetOr(GetDateString(now));
      var existing := FindLog(old(db.logs), habitId, d);
      && r == Ok(if existing.Some? then old(db.logs)[existing.value].id else old(db.nextId))
      && db.State() == old(db.State()).(
           logs := ToggleLogs(old(db.logs), caller, habitId, d, note, now, old(db.nextId)),
           nextId := if existing.Some? then old(db.nextId) else old(db.nextId) + 1)
  {
    var k := OwnedIndex(db.habits, caller, habitId);
    if k.None? {
      return Err(HabitNotFound);
    }
    var d := date.GetOr(GetDateString(now));
    var existing := FindLog(db.logs, habitId, d);
    if existing.Some? {
      var log := db.logs[existing.value];
      db.PatchLog(existing.value, Toggled(log.data, note, now));
      return Ok(log.id);
    }
    var logId := db.InsertLog(HabitLog(habitId, caller, d, true, Some(now), note), now);
    return Ok(logId);
  }

  // ---------------------------------------------------------------------------------------
  // getTodaysHabits, getStreak, getCompletionsForRange
  // ---------------------------------------------------------------------------------------

  /** A habit with its status for today. */
  datatype HabitStatus = HabitStatus(habit: Doc<Habit>, completedToday: bool, streak: nat)

  predicate ActiveOf(h: Doc<Habit>, user: UserId)
  {
    h.data.userId == user && !h.data.isArchived
  }

  /** `getTodaysHabits()`: the caller's active habits scheduled on today's weekday, each
      with today's completion and its streak. */
  function GetTodaysHabits(habits: seq<Doc<Habit>>, logs: seq<Doc<HabitLog>>, caller: UserId, now: int)
    : (r: seq<HabitStatus>)
    ensures forall i :: 0 <= i < |r| ==>
      && r[i].habit in habits && ActiveOf(r[i].habit, caller)
      && GetDayOfWeek(now) in r[i].habit.data.scheduleDays
      && r[i].completedToday == LogCompleted(logs, r[i].habit.id, GetDateString(now))
      && r[i].streak == HabitStreak(habits, logs, r[i].habit.id, now)
    ensures forall k ::
      (0 <= k < |habits| && ActiveOf(habits[k], caller) && GetDayOfWeek(now) in habits[k].data.scheduleDays) ==>
              exists i :: 0 <= i < |r| && r[i].habit == habits[k]
  {
    var today := GetDateString(now);
    var todayDow := GetDayOfWeek(now);
    var active := Filter(habits, (h: Doc<Habit>) => ActiveOf(h, caller));
    var todays := Filter(active, (h: Doc<Habit>) => todayDow in h.data.scheduleDays);
    var r := Map(todays, (h: Doc<Habit>) =>
      HabitStatus(h, LogCompleted(logs, h.id, today), HabitStreak(habits, logs, h.id, now)));
    assert forall k :: 0 <= k < |habits| && ActiveOf(habits[k], caller) && todayDow in habits[k].data.scheduleDays
             ==> habits[k] in todays;
    r
  }

  /** `getStreak({ habitId })`: the streak of the caller's habit at `now`. */
  method GetStreak(habits: seq<Doc<Habit>>, logs: seq<Doc<HabitLog>>, caller: UserId, habitId: Id, now: int)
    returns (r: Result<nat, Error>)
    ensures OwnedIndex(habits, caller, habitId).None? ==> r == Err(HabitNotFound)
    ensures OwnedIndex(habits, caller, habitId).Some? ==> r == Ok(HabitStreak(habits, logs, habitId, now))
  {
    if OwnedIndex(habits, caller, habitId).None? {
      return Err(HabitNotFound);
    }
    var streak := CalculateStreak(habits, logs, habitId, now);
    return Ok(streak);
  }

  /** JavaScript's `lo <= d && d <= hi` on strings, as the `gte`/`lte` filters compare them. */
  predicate InRange(lo: string, d: string, hi: string)
  {
    LexLe(lo, d) && LexLe(d, hi)
  }

  predicate LogInRange(l: Doc<HabitLog>, habitId: Id, lo: string, hi: string)
  {
    l.data.habitId == habitId && InRange(lo, l.data.date, hi)
  }

  /** `getCompletionsForRange({ habitId, startDate, endDate })`: the dates of the habit's
      logs between the two strings, each mapped to whether its log is completed. */
  method GetCompletionsForRange(habits: seq<Doc<Habit>>, logs: seq<Doc<HabitLog>>, caller: UserId,
                                habitId: Id, startDate: string, endDate: string)
    returns (r: Result<map<string, bool>, Error>)
    requires LogsUnique(logs)
    ensures OwnedIndex(habits, caller, habitId).None? ==> r == Err(HabitNotFound)
    ensures OwnedIndex(habits, caller, habitId).Some? ==> r.Ok?
    ensures r.Ok? ==> forall d :: d in r.value <==> InRange(startDate, d, endDate) && FindLog(logs, habitId, d).Some?
    ensures r.Ok? ==> forall d :: d in r.value ==> r.value[d] == LogCompleted(logs, habitId, d)
  {
    if OwnedIndex(habits, caller, habitId).None? {
      return Err(HabitNotFound);
    }
    var ls := Filter(logs, (l: Doc<HabitLog>) => LogInRange(l, habitId, startDate, endDate));
    var completions: map<string, bool> := map[];
    for i := 0 to |ls|
      invariant forall d :: d in completions ==> exists j :: 0 <= j < i && ls[j].data.date == d
      invariant forall j :: 0 <= j < i ==> ls[j].data.date in completions
      invariant forall d :: d in completions ==> exists j :: 0 <= j < i && ls[j].data.date == d && completions[d] == ls[j].data.completed
    {
      completions := completions[ls[i].data.date := ls[i].data.completed];
    }
    forall d | d in completions
      ensures InRange(startDate, d, endDate) && FindLog(logs, habitId, d).Some?
      ensures completions[d] == LogCompleted(logs, habitId, d)
    {
      var j :| 0 <= j < |ls| && ls[j].data.date == d && completions[d] == ls[j].data.completed;
      assert ls[j] in logs;
      var k :| 0 <= k < |logs| && logs[k] == ls[j];
      assert IsLogOf(logs[k], habitId, d);
    }
    forall d | InRange(startDate, d, endDate) && FindLog(logs, habitId, d).Some?
      ensures d in completions
    {
      var k := FindLog(logs, habitId, d).value;
      assert LogInRange(logs[k], habitId, startDate, endDate);
      assert logs[k] in ls;
    }
    return Ok(completions);
  }

  // ---------------------------------------------------------------------------------------
  // getWeekCompletions
  // ---------------------------------------------------------------------------------------

  /** `mondayOffset`: the day the week (Monday to Sunday) starts, relative to today. */
  function MondayOffset(dow: int): int
  {
    if dow == 0 then -6 else 1 - dow
  }

  /** The day number of the Monday of the week `now` falls in. */
  function WeekStart(now: int): int
  {
    DayOf(now) + MondayOffset(GetDayOfWeek(now))
  }

  /** The week starts on a Monday and holds today. */
  lemma WeekStartMeaning(now: int)
    ensures DayOfWeek(WeekStart(now)) == 1
    ensures WeekStart(now) <= DayOf(now) <= WeekStart(now) + 6
  {
    var d, w := DayOf(now), GetDayOfWeek(now);
    assert (d + 4) % 7 == w;
    if w == 0 {
      assert (d - 6 + 4) % 7 == 1;
    } else {
      assert (d + 1 - w + 4) % 7 == 1;
    }
  }

  /** The loop `dates.push(addDays(today, mondayOffset + i))`: the seven dates of the week,
      the j-th being the date string of day WeekStart(now) + j (a date string is fixed by its
      day, lemma ParseDayRoundTrip). */
  method WeekDates(now: int) returns (dates: seq<string>)
    requires ClockInRange(now)
    ensures |dates| == 7
    ensures forall j :: 0 <= j < 7 ==> IsDateString(dates[j]) && ParseDay(dates[j]) == WeekStart(now) + j
  {
    var today := GetDateString(now);
    var dayOfWeek := GetDayOfWeek(now);
    var mondayOffset := if dayOfWeek == 0 then -6 else 1 - dayOfWeek;
    ghost var ws := WeekStart(now);
    assert ws == DayOf(now) + mondayOffset;
    ClockDay(now, 0);
    DateStringRoundTrip(DayOf(now));
    assert IsDateString(today) && ParseDay(today) == DayOf(now);
    dates := [];
    for i := 0 to 7
      invariant |dates| == i
      invariant forall j :: 0 <= j < i ==> IsDateString(dates[j]) && ParseDay(dates[j]) == ws + j
    {
      ClockDay(now, mondayOffset + i);
      dates := dates + [AddDays(today, mondayOffset + i)];
    }
  }

  /** A date string lies between the first and the last date of the week exactly when its
      day is one of the week's seven days. */
  lemma WeekWindow(dates: seq<string>, ws: int, s: string)
    requires |dates| == 7 && IsDateString(s)
    requires forall j :: 0 <= j < 7 ==> IsDateString(dates[j]) && ParseDay(dates[j]) == ws + j
    ensures InRange(dates[0], s, dates[6]) <==> ws <= ParseDay(s) <= ws + 6
  {
    DateOrder(dates[0], s);
    DateOrder(s, dates[6]);
  }

  /** `logs.find((l) => l.date === date)`. */
  function FindByDate(ls: seq<Doc<HabitLog>>, date: string): (r: Option<Doc<HabitLog>>)
    ensures r.Some? ==> r.value in ls && r.value.data.date == date
    ensures r.None? ==> forall j :: 0 <= j < |ls| ==> ls[j].data.date != date
  {
    if ls == [] then None
    else if ls[0].data.date == date then Some(ls[0])
    else FindByDate(ls[1..], date)
  }

  /** Looking a date up among the habit's logs of a window finds what the `by_habit_date`
      lookup finds, for a date inside the window. */
  lemma FindByDateInWindow(logs: seq<Doc<HabitLog>>, ls: seq<Doc<HabitLog>>, habitId: Id,
                           lo: string, hi: string, d: string)
    requires LogsUnique(logs) && InRange(lo, d, hi)
    requires forall i :: 0 <= i < |ls| ==> ls[i] in logs && LogInRange(ls[i], habitId, lo, hi)
    requires forall k :: 0 <= k < |logs| && LogInRange(logs[k], habitId, lo, hi) ==> logs[k] in ls
    ensures (match FindByDate(ls, d) case Some(l) => l.data.completed case None => false)
          == LogCompleted(logs, habitId, d)
  {
    match FindByDate(ls, d)
    case Some(l) =>
      var k :| 0 <= k < |logs| && logs[k] == l;
      assert IsLogOf(logs[k], habitId, d);
    case None =>
      if FindLog(logs, habitId, d).Some? {
        var k := FindLog(logs, habitId, d).value;
        assert LogInRange(logs[k], habitId, lo, hi);
        assert false;
      }
  }

  /** A log of the caller between two dates (the `by_user_date` query with its filter). */
  predicate UserLogIn(l: Doc<HabitLog>, caller: UserId, lo: string, hi: string)
  {
    l.data.userId == caller && InRange(lo, l.data.date, hi)
  }

  /** What `getWeekCompletions` returns: the week's dates with one habit's completions, or
      with the completions of all the caller's habits. */
  datatype WeekView =
    | SingleHabit(dates: seq<string>, completions: map<string, bool>)
    | AllHabits(dates: seq<string>, completionsByHabit: map<Id, map<string, bool>>)

  /** The caller has a log of habit h on date d between lo and hi. */
  predicate UserLogged(logs: seq<Doc<HabitLog>>, caller: UserId, lo: string, hi: string, h: Id, d: string)
  {
    exists k :: 0 <= k < |logs| && UserLogIn(logs[k], caller, lo, hi) && IsLogOf(logs[k], h, d)
  }

  /** The caller has a log of habit h between lo and hi. */
  predicate UserLoggedHabit(logs: seq<Doc<HabitLog>>, caller: UserId, lo: string, hi: string, h: Id)
  {
    exists k :: 0 <= k < |logs| && UserLogIn(logs[k], caller, lo, hi) && logs[k].data.habitId == h
  }

  /** One pass of the loop: `if (!byHabit[h]) byHabit[h] = {}; byHabit[h][d] = completed`. */
  function Enter(m: map<Id, map<string, bool>>, l: HabitLog): map<Id, map<string, bool>>
  {
    var m1 := if l.habitId !in m then m[l.habitId := map[]] else m;
    m1[l.habitId := m1[l.habitId][l.date := l.completed]]
  }

  /** The logs entered one after the other. */
  function Grouping(ls: seq<Doc<HabitLog>>): map<Id, map<string, bool>>
  {
    if ls == [] then map[] else Enter(Grouping(ls[..|ls| - 1]), ls[|ls| - 1].data)
  }

  /** A habit and date get an entry exactly when some log is of them, the entry is the
      completion of such a log, and a habit gets entries only with a log of it. */
  lemma {:induction false} GroupingMeaning(ls: seq<Doc<HabitLog>>, h: Id, d: string)
    ensures var g := Grouping(ls);
      && (h in g && d in g[h] <==> exists j :: 0 <= j < |ls| && IsLogOf(ls[j], h, d))
      && (h in g ==> exists j :: 0 <= j < |ls| && ls[j].data.habitId == h)
      && (h in g && d in g[h] ==> exists j :: 0 <= j < |ls| && IsLogOf(ls[j], h, d) && g[h][d] == ls[j].data.completed)
  {
    if ls != [] {
      var init, l := ls[..|ls| - 1], ls[|ls| - 1];
      GroupingMeaning(init, h, d);
      var g0, g := Grouping(init), Grouping(ls);
      assert g == Enter(g0, l.data);
      if h in g && d in g[h] {
        if IsLogOf(l, h, d) {
          assert g[h][d] == l.data.completed;
        } else {
          assert h in g0 && d in g0[h] && g[h][d] == g0[h][d];
          var j :| 0 <= j < |init| && IsLogOf(init[j], h, d) && g0[h][d] == init[j].data.completed;
          assert ls[j] == init[j];
        }
      }
      if exists j :: 0 <= j < |ls| && IsLogOf(ls[j], h, d) {
        var j :| 0 <= j < |ls| && IsLogOf(ls[j], h, d);
        if j < |init| {
          assert IsLogOf(init[j], h, d);
        }
      }
      if h in g && h != l.data.habitId {
        var j :| 0 <= j < |init| && init[j].data.habitId == h;
        assert ls[j] == init[j];
      }
    }
  }

  /** The loop `for (const log of logs)` that fills `completionsByHabit`. */
  method GroupByHabit(ls: seq<Doc<HabitLog>>) returns (m: map<Id, map<string, bool>>)
    ensures m == Grouping(ls)
  {
    m := map[];
    for i := 0 to |ls|
      invariant m == Grouping(ls[..i])
    {
      assert ls[..i + 1][..i] == ls[..i];
      var l := ls[i].data;
      if l.habitId !in m {
        m := m[l.habitId := map[]];
      }
      m := m[l.habitId := m[l.habitId][l.date := l.completed]];
    }
    assert ls[..|ls|] == ls;
  }

  /** The grouping of the caller's logs `ls` of the window has a habit only with a log of
      it in the whole table. */
  lemma ByHabitKey(logs: seq<Doc<HabitLog>>, ls: seq<Doc<HabitLog>>, caller: UserId, lo: string, hi: string, h: Id)
    requires forall i :: 0 <= i < |ls| ==> ls[i] in logs && UserLogIn(ls[i], caller, lo, hi)
    ensures h in Grouping(ls) ==> UserLoggedHabit(logs, caller, lo, hi, h)
  {
    GroupingMeaning(ls, h, "");
    if h in Grouping(ls) {
      var j :| 0 <= j < |ls| && ls[j].data.habitId == h;
      var k :| 0 <= k < |logs| && logs[k] == ls[j];
      assert UserLogIn(logs[k], caller, lo, hi) && logs[k].data.habitId == h;
    }
  }

  /** The grouping of the caller's logs `ls` of the window, for one habit and date, stated
      over the whole table. */
  lemma ByHabitAt(logs: seq<Doc<HabitLog>>, ls: seq<Doc<HabitLog>>, caller: UserId, lo: string, hi: string,
                  h: Id, d: string)
    requires LogsUnique(logs)
    requires forall i :: 0 <= i < |ls| ==> ls[i] in logs && UserLogIn(ls[i], caller, lo, hi)
    requires forall k :: 0 <= k < |logs| && UserLogIn(logs[k], caller, lo, hi) ==> logs[k] in ls
    ensures var m := Grouping(ls);
      && ((h in m && d in m[h]) <==> UserLogged(logs, caller, lo, hi, h, d))
      && (h in m && d in m[h] ==> m[h][d] == LogCompleted(logs, h, d))
  {
    var m := Grouping(ls);
    GroupingMeaning(ls, h, d);
    if h in m && d in m[h] {
      var j :| 0 <= j < |ls| && IsLogOf(ls[j], h, d) && m[h][d] == ls[j].data.completed;
      var k :| 0 <= k < |logs| && logs[k] == ls[j];
      assert UserLogIn(logs[k], caller, lo, hi) && IsLogOf(logs[k], h, d);
    }
    if UserLogged(logs, caller, lo, hi, h, d) {
      var k :| 0 <= k < |logs| && UserLogIn(logs[k], caller, lo, hi) && IsLogOf(logs[k], h, d);
      assert logs[k] in ls;
      var j :| 0 <= j < |ls| && ls[j] == logs[k];
      assert IsLogOf(ls[j], h, d);
    }
  }

  /** The caller's logs of the week grouped by habit: a habit appears only with such a log,
      a habit and date appear exactly when there is such a log of them, with its completion. */
  method CompletionsByHabit(logs: seq<Doc<HabitLog>>, caller: UserId, lo: string, hi: string)
    returns (m: map<Id, map<string, bool>>)
    requires LogsUnique(logs)
    ensures forall h :: h in m ==> UserLoggedHabit(logs, caller, lo, hi, h)
    ensures forall h, d :: (h in m && d in m[h]) <==> UserLogged(logs, caller, lo, hi, h, d)
    ensures forall h, d :: h in m && d in m[h] ==> m[h][d] == LogCompleted(logs, h, d)
  {
    var ls := Filter(logs, (l: Doc<HabitLog>) => UserLogIn(l, caller, lo, hi));
    m := GroupByHabit(ls);
    forall h
      ensures h in m ==> UserLoggedHabit(logs, caller, lo, hi, h)
    {
      ByHabitKey(logs, ls, caller, lo, hi, h);
    }
    forall h, d
      ensures (h in m && d in m[h]) <==> UserLogged(logs, caller, lo, hi, h, d)
      ensures h in m && d in m[h] ==> m[h][d] == LogCompleted(logs, h, d)
    {
      ByHabitAt(logs, ls, caller, lo, hi, h, d);
    }
  }

  /** The loop over the week's dates that fills `completions` for one habit: every date has
      an entry, which is whether the habit's log of that date is completed. */
  method WeekCompletions(logs: seq<Doc<HabitLog>>, habitId: Id, dates: seq<string>)
    returns (completions: map<string, bool>)
    requires LogsUnique(logs) && |dates| == 7
    requires forall j :: 0 <= j < 7 ==> InRange(dates[0], dates[j], dates[6])
    ensures forall d :: d in completions <==> d in dates
    ensures forall d :: d in completions ==> completions[d] == LogCompleted(logs, habitId, d)
  {
    var ls := Filter(logs, (l: Doc<HabitLog>) => LogInRange(l, habitId, dates[0], dates[6]));
    completions := map[];
    for i := 0 to 7
      invariant forall d :: d in completions <==> d in dates[..i]
      invariant forall d :: d in completions ==> completions[d] == LogCompleted(logs, habitId, d)
    {
      var log := FindByDate(ls, dates[i]);
      FindByDateInWindow(logs, ls, habitId, dates[0], dates[6], dates[i]);
      completions := completions[dates[i] := match log case Some(l) => l.data.completed case None => false];
      assert dates[..i + 1] == dates[..i] + [dates[i]];
    }
    assert dates[..7] == dates;
  }

  /** `getWeekCompletions({ habitId })`: the dates Monday to Sunday of the current week and,
      for one of the caller's habits, whether each is completed, or else, for every habit with
      a log of the caller in the week, the completion of each of its logged dates. */
  method GetWeekCompletions(habits: seq<Doc<Habit>>, logs: seq<Doc<HabitLog>>, caller: UserId,
                            habitId: Option<Id>, now: int)
    returns (r: Result<WeekView, Error>)
    requires ClockInRange(now) && LogsUnique(logs)
    ensures habitId.Some? && OwnedIndex(habits, caller, habitId.value).None? ==> r == Err(HabitNotFound)
    ensures habitId.Some? && OwnedIndex(habits, caller, habitId.value).Some? ==> r.Ok? && r.value.SingleHabit?
    ensures habitId.None? ==> r.Ok? && r.value.AllHabits?
    ensures r.Ok? ==> |r.value.dates| == 7 && forall j :: 0 <= j < 7 ==>
      IsDateString(r.value.dates[j]) && ParseDay(r.value.dates[j]) == WeekStart(now) + j
    ensures r.Ok? && r.value.SingleHabit? ==> (
      && habitId.Some?
      && (forall d :: d in r.value.completions <==> d in r.value.dates)
      && forall d :: d in r.value.completions ==> r.value.completions[d] == LogCompleted(logs, habitId.value, d))
    ensures r.Ok? && r.value.AllHabits? ==> (
      && var m, lo, hi := r.value.completionsByHabit, r.value.dates[0], r.value.dates[6];
      && (forall h :: h in m ==> UserLoggedHabit(logs, caller, lo, hi, h))
      && (forall h, d :: (h in m && d in m[h]) <==> UserLogged(logs, caller, lo, hi, h, d))
      && forall h, d :: h in m && d in m[h] ==> m[h][d] == LogCompleted(logs, h, d))
  {
    var dates := WeekDates(now);
    if habitId.Some? {
      var id := habitId.value;
      if OwnedIndex(habits, caller, id).None? {
        return Err(HabitNotFound);
      }
      forall j | 0 <= j < 7
        ensures InRange(dates[0], dates[j], dates[6])
      {
        WeekWindow(dates, WeekStart(now), dates[j]);
      }
      var completions := WeekCompletions(logs, id, dates);
      return Ok(SingleHabit(dates, completions));
    }
    var byHabit := CompletionsByHabit(logs, caller, dates[0], dates[6]);
    return Ok(AllHabits(dates, byHabit));
  }
}
