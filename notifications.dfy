/** The notification handlers of packages/backend/convex/notifications.ts: listing, the unread
    count, marking read, nudges (at most three a day from one friend to another),
    celebrations, streak milestones and deletion. As in the friendship handlers, each
    mutation is specified by a function from the tables before to the tables after and the
    result, and the method against the store is proved to do exactly that. */
module Notifications {
  import opened Wrappers
  import opened Text
  import opened Dates
  import opened Schema
  import opened Helpers
  import opened Store

  predicate IsFor(n: Doc<Notification>, user: UserId)
  {
    n.data.userId == user
  }

  predicate IsUnreadFor(n: Doc<Notification>, user: UserId)
  {
    n.data.userId == user && !n.data.read
  }

  /** The `by_user` index: the user's notifications in the order they were created. */
  function ForUser(ns: seq<Doc<Notification>>, user: UserId): seq<Doc<Notification>>
  {
    Filter(ns, (n: Doc<Notification>) => IsFor(n, user))
  }

  /** A notification with its `read` flag set. */
  function ReadDoc(n: Doc<Notification>): Doc<Notification>
  {
    n.(data := n.data.(read := true))
  }

  /** `ctx.db.insert("notifications", n)` on the tables. */
  function Post(t: Tables, n: Notification, now: int): Tables
  {
    t.(notifications := t.notifications + [Doc(t.nextId, now, n)], nextId := t.nextId + 1)
  }

  // ---------------------------------------------------------------------------------------
  // list
  // ---------------------------------------------------------------------------------------

  /** `args.limit ?? 50`. */
  const DefaultLimit: nat := 50

  /** The habit fields `list` attaches to a notification that names an existing habit. */
  datatype HabitSummary = HabitSummary(id: Id, name: string, icon: Option<string>, color: Option<string>)

  datatype Listed = Listed(notification: Doc<Notification>, habit: Option<HabitSummary>)

  function HabitSummaryOf(habits: seq<Doc<Habit>>, habitId: Option<Id>): (r: Option<HabitSummary>)
    ensures r.Some? <==> habitId.Some? && Get(habits, habitId.value).Some?
    ensures r.Some? ==> r.value.id == habitId.value && r.value.name == Get(habits, habitId.value).value.name
  {
    match habitId
    case None => None
    case Some(id) =>
      match Get(habits, id)
      case None => None
      case Some(h) => Some(HabitSummary(id, h.name, h.icon, h.color))
  }

  /** `list({ limit })`: the caller's notifications newest first, at most `limit` of them,
      each with the summary of the habit it names. */
  function List(t: Tables, caller: UserId, limit: Option<nat>): seq<Listed>
  {
    var newest := Take(Reverse(ForUser(t.notifications, caller)), limit.GetOr(DefaultLimit));
    Map(newest, (n: Doc<Notification>) => Listed(n, HabitSummaryOf(t.habits, n.data.habitId)))
  }

  function ListedDocs(r: seq<Listed>): seq<Doc<Notification>>
  {
    Map(r, (l: Listed) => l.notification)
  }

  /** Keeping some documents of a table in id order keeps them in id order. */
  lemma {:induction false} FilterIncreasing<T>(s: seq<Doc<T>>, p: Doc<T> -> bool)
    requires IdsIncreasing(s)
    ensures IdsIncreasing(Filter(s, p))
    decreases |s|
  {
    if s != [] {
      var init, last := s[..|s| - 1], s[|s| - 1];
      assert s == init + [last];
      FilterIncreasing(init, p);
      FilterAppend(init, last, p);
      if p(last) {
        BelowLast(s);
        FilterBelow(init, p, last.id);
        IncreasingSnoc(Filter(init, p), last);
      }
    }
  }

  lemma BelowLast<T>(s: seq<Doc<T>>)
    requires s != [] && IdsIncreasing(s)
    ensures forall d :: d in s[..|s| - 1] ==> d.id < s[|s| - 1].id
  {
    forall d | d in s[..|s| - 1]
      ensures d.id < s[|s| - 1].id
    {
      var k :| 0 <= k < |s| - 1 && s[..|s| - 1][k] == d;
    }
  }

  lemma FilterBelow<T>(s: seq<Doc<T>>, p: Doc<T> -> bool, bound: Id)
    requires forall d :: d in s ==> d.id < bound
    ensures forall i :: 0 <= i < |Filter(s, p)| ==> Filter(s, p)[i].id < bound
  {
  }

  lemma IncreasingSnoc<T>(s: seq<Doc<T>>, d: Doc<T>)
    requires IdsIncreasing(s) && forall i :: 0 <= i < |s| ==> s[i].id < d.id
    ensures IdsIncreasing(s + [d])
  {
  }

  /** Position i of the list is the i-th newest of the caller's notifications. */
  lemma ListAt(t: Tables, caller: UserId, limit: Option<nat>)
    ensures var r, l, mine := List(t, caller, limit), limit.GetOr(DefaultLimit), ForUser(t.notifications, caller);
      && |r| == (if l < |mine| then l else |mine|)
      && forall i :: 0 <= i < |r| ==>
        r[i].notification == mine[|mine| - 1 - i] && r[i].habit == HabitSummaryOf(t.habits, r[i].notification.data.habitId)
  {
  }

  /** `list` gives the caller's notifications only, as many as the limit allows or as there
      are, each with the summary of the habit it names when that habit exists. */
  lemma ListMeaning(t: Tables, caller: UserId, limit: Option<nat>)
    ensures var r, l := List(t, caller, limit), limit.GetOr(DefaultLimit);
      && |r| == (if l < Count(t.notifications, (n: Doc<Notification>) => IsFor(n, caller)) then l
                 else Count(t.notifications, (n: Doc<Notification>) => IsFor(n, caller)))
      && (forall i :: 0 <= i < |r| ==> r[i].notification in t.notifications && r[i].notification.data.userId == caller)
      && (forall i :: 0 <= i < |r| ==> (r[i].habit.Some? <==> (
            var h := r[i].notification.data.habitId; h.Some? && Get(t.habits, h.value).Some?)))
  {
    ListAt(t, caller, limit);
  }

  /** The newest of the caller's notifications are the ones listed. */
  lemma ListTail(t: Tables, caller: UserId, limit: Option<nat>)
    ensures var r, mine := List(t, caller, limit), ForUser(t.notifications, caller);
      |r| <= |mine| && forall q :: |mine| - |r| <= q < |mine| ==> mine[q] in ListedDocs(r)
  {
    var r, mine := List(t, caller, limit), ForUser(t.notifications, caller);
    ListAt(t, caller, limit);
    var docs := ListedDocs(r);
    forall q | |mine| - |r| <= q < |mine|
      ensures mine[q] in docs
    {
      assert docs[|mine| - 1 - q] == mine[q];
    }
  }

  /** `list` is newest first, and any of the caller's notifications it leaves out is older
      than every one it gives. */
  lemma ListNewestFirst(t: Tables, caller: UserId, limit: Option<nat>)
    requires IdsIncreasing(t.notifications)
    ensures var r := List(t, caller, limit);
      && (forall i, j :: 0 <= i < j < |r| ==> r[i].notification.id > r[j].notification.id)
      && (forall n :: n in t.notifications && IsFor(n, caller) && n !in ListedDocs(r) ==>
            forall i :: 0 <= i < |r| ==> n.id < r[i].notification.id)
  {
    ListDescending(t, caller, limit);
    ListKeepsNewest(t, caller, limit);
  }

  lemma ListDescending(t: Tables, caller: UserId, limit: Option<nat>)
    requires IdsIncreasing(t.notifications)
    ensures var r := List(t, caller, limit);
      forall i, j :: 0 <= i < j < |r| ==> r[i].notification.id > r[j].notification.id
  {
    ListAt(t, caller, limit);
    FilterIncreasing(t.notifications, (n: Doc<Notification>) => IsFor(n, caller));
  }

  lemma ListKeepsNewest(t: Tables, caller: UserId, limit: Option<nat>)
    requires IdsIncreasing(t.notifications)
    ensures var r := List(t, caller, limit);
      forall n :: n in t.notifications && IsFor(n, caller) && n !in ListedDocs(r) ==>
        forall i :: 0 <= i < |r| ==> n.id < r[i].notification.id
  {
    var r := List(t, caller, limit);
    var mine := ForUser(t.notifications, caller);
    ListAt(t, caller, limit);
    FilterIncreasing(t.notifications, (n: Doc<Notification>) => IsFor(n, caller));
    NewestKept(mine, ListedDocs(r));
    forall n | n in t.notifications && IsFor(n, caller)
      ensures n in mine
    {
    }
  }

  /** When docs are the last of a sequence in id order, newest first, whatever they leave out
      is older than each of them. */
  lemma NewestKept<T>(s: seq<Doc<T>>, docs: seq<Doc<T>>)
    requires IdsIncreasing(s) && |docs| <= |s|
    requires forall i :: 0 <= i < |docs| ==> docs[i] == s[|s| - 1 - i]
    ensures forall d :: d in s && d !in docs ==> forall i :: 0 <= i < |docs| ==> d.id < docs[i].id
  {
    forall q | |s| - |docs| <= q < |s|
      ensures s[q] in docs
    {
      assert docs[|s| - 1 - q] == s[q];
    }
    forall d | d in s && d !in docs
      ensures forall i :: 0 <= i < |docs| ==> d.id < docs[i].id
    {
      var q :| 0 <= q < |s| && s[q] == d;
      assert q < |s| - |docs|;
    }
  }

  // ---------------------------------------------------------------------------------------
  // getUnreadCount
  // ---------------------------------------------------------------------------------------

  /** `getUnreadCount()`: the caller's unread notifications (the `by_user_unread` index). */
  function UnreadCount(ns: seq<Doc<Notification>>, user: UserId): nat
  {
    Count(ns, (n: Doc<Notification>) => IsUnreadFor(n, user))
  }

  /** Changing one document changes a count by what the change does to that document. */
  lemma {:induction false} CountPatchChange<T>(t: seq<Doc<T>>, k: nat, data: T, p: Doc<T> -> bool)
    requires k < |t|
    ensures Count(Patch(t, k, data), p)
         == Count(t, p) - (if p(t[k]) then 1 else 0) + (if p(Doc(t[k].id, t[k].creationTime, data)) then 1 else 0)
  {
    var init, last := t[..|t| - 1], t[|t| - 1];
    assert t == init + [last];
    var r := Patch(t, k, data);
    if k == |t| - 1 {
      assert r == init + [r[k]];
      FilterAppend(init, r[k], p);
      FilterAppend(init, last, p);
    } else {
      CountPatchChange(init, k, data, p);
      assert r == Patch(init, k, data) + [last];
      FilterAppend(Patch(init, k, data), last, p);
      FilterAppend(init, last, p);
    }
  }

  // ---------------------------------------------------------------------------------------
  // markRead
  // ---------------------------------------------------------------------------------------

  /** The check `markRead` and `deleteNotification` share: the notification exists and is
      addressed to the caller. */
  function FindOwn(ns: seq<Doc<Notification>>, caller: UserId, id: Id): (r: Result<nat, Error>)
    ensures r.Ok? ==> r.value < |ns| && ns[r.value].id == id && ns[r.value].data.userId == caller
    ensures r.Err? ==> r.error == NotificationNotFound
    ensures IdsDistinct(ns) ==> (r.Err? <==> forall k :: 0 <= k < |ns| && ns[k].id == id ==> ns[k].data.userId != caller)
  {
    match IndexOf(ns, id)
    case None => Err(NotificationNotFound)
    case Some(k) => if ns[k].data.userId != caller then Err(NotificationNotFound) else Ok(k)
  }

  /** `markRead({ notificationId })`. */
  function ReadOne(t: Tables, caller: UserId, id: Id): (r: Step<Id>)
    ensures r.result.Err? ==> r.tables == t
    ensures r.result.Ok? ==> r.result.value == id
  {
    match FindOwn(t.notifications, caller, id)
    case Err(e) => Step(t, Err(e))
    case Ok(k) => Step(t.(notifications := Patch(t.notifications, k, t.notifications[k].data.(read := true))), Ok(id))
  }

  /** Marking read sets the flag of the notification with that id and changes nothing else;
      the caller's unread count drops by one if it was unread, and nobody else's moves. */
  lemma ReadOneMeaning(t: Tables, caller: UserId, id: Id, user: UserId)
    requires IdsDistinct(t.notifications) && ReadOne(t, caller, id).result.Ok?
    ensures var ns, ns' := t.notifications, ReadOne(t, caller, id).tables.notifications;
      && |ns'| == |ns|
      && (forall j :: 0 <= j < |ns| ==> ns'[j] == if ns[j].id == id then ReadDoc(ns[j]) else ns[j])
      && ReadOne(t, caller, id).tables == t.(notifications := ns')
      && var k := IndexOf(ns, id).value;
         UnreadCount(ns', user) == UnreadCount(ns, user) - (if IsUnreadFor(ns[k], user) then 1 else 0)
  {
    var ns := t.notifications;
    var k := IndexOf(ns, id).value;
    CountPatchChange(ns, k, ns[k].data.(read := true), (n: Doc<Notification>) => IsUnreadFor(n, user));
  }

  /** Marking the same notification read twice is the same as once. */
  lemma ReadOneIdempotent(t: Tables, caller: UserId, id: Id)
    requires ReadOne(t, caller, id).result.Ok?
    ensures ReadOne(ReadOne(t, caller, id).tables, caller, id) == ReadOne(t, caller, id)
  {
    var ns := t.notifications;
    var k := FindOwn(ns, caller, id).value;
    var ns' := ReadOne(t, caller, id).tables.notifications;
    assert IndexOf(ns', id) == IndexOf(ns, id) by {
      IndexOfKeptIds(ns, ns', id);
    }
    assert Patch(ns', k, ns'[k].data.(read := true)) == ns';
  }

  /** Two tables with the same ids position by position find an id at the same place. */
  lemma {:induction false} IndexOfKeptIds<T>(s: seq<Doc<T>>, s': seq<Doc<T>>, id: Id)
    requires |s| == |s'| && forall i :: 0 <= i < |s| ==> s'[i].id == s[i].id
    ensures IndexOf(s', id) == IndexOf(s, id)
    decreases |s|
  {
    if s != [] && s[0].id != id {
      IndexOfKeptIds(s[1..], s'[1..], id);
    }
  }

  /** `markRead` against the store. */
  method MarkRead(db: Database, caller: UserId, notificationId: Id) returns (r: Result<Id, Error>)
    requires db.Valid()
    modifies db
    ensures db.Valid()
    ensures Step(db.State(), r) == ReadOne(old(db.State()), caller, notificationId)
  {
    var k := IndexOf(db.notifications, notificationId);
    if k.None? || db.notifications[k.value].data.userId != caller {
      return Err(NotificationNotFound);
    }
    db.MarkNotificationRead(k.value);
    return Ok(notificationId);
  }

  // ---------------------------------------------------------------------------------------
  // markAllRead
  // ---------------------------------------------------------------------------------------

  /** Every notification of `user` read, every other one as it was. */
  function ReadAll(ns: seq<Doc<Notification>>, user: UserId): seq<Doc<Notification>>
  {
    Map(ns, (n: Doc<Notification>) => if IsFor(n, user) then ReadDoc(n) else n)
  }

  /** The documents of ns that are among `marked`, read. */
  function ReadMarked(ns: seq<Doc<Notification>>, marked: seq<Doc<Notification>>): seq<Doc<Notification>>
  {
    Map(ns, (n: Doc<Notification>) => if n in marked then ReadDoc(n) else n)
  }

  /** After marking all read, the user has no unread notification and every other user's
      count is as it was; only `read` flags change, so no nudge count moves. */
  lemma {:induction false} ReadAllCounts(ns: seq<Doc<Notification>>, user: UserId, other: UserId)
    ensures UnreadCount(ReadAll(ns, user), user) == 0
    ensures other != user ==> UnreadCount(ReadAll(ns, user), other) == UnreadCount(ns, other)
    decreases |ns|
  {
    if ns != [] {
      var init, last := ns[..|ns| - 1], ns[|ns| - 1];
      assert ns == init + [last];
      ReadAllCounts(init, user, other);
      var r := ReadAll(ns, user);
      assert r == ReadAll(init, user) + [r[|ns| - 1]];
      FilterAppend(ReadAll(init, user), r[|ns| - 1], (n: Doc<Notification>) => IsUnreadFor(n, user));
      FilterAppend(ReadAll(init, user), r[|ns| - 1], (n: Doc<Notification>) => IsUnreadFor(n, other));
      FilterAppend(init, last, (n: Doc<Notification>) => IsUnreadFor(n, other));
    }
  }

  /** Marking all read twice is the same as once, and it keeps each notification's id,
      creation time and every field but `read`. */
  lemma ReadAllKeeps(ns: seq<Doc<Notification>>, user: UserId)
    ensures ReadAll(ReadAll(ns, user), user) == ReadAll(ns, user)
    ensures var r := ReadAll(ns, user);
      && |r| == |ns|
      && forall j :: 0 <= j < |ns| ==>
        && r[j].id == ns[j].id && r[j].creationTime == ns[j].creationTime
        && r[j].data.(read := ns[j].data.read) == ns[j].data
        && (r[j].data.read <==> ns[j].data.read || IsFor(ns[j], user))
  {
  }

  /** One round of the `markAllRead` loop: patching the document with the id of the next
      unread one makes it one of the marked. */
  lemma MarkStep(ns: seq<Doc<Notification>>, unread: seq<Doc<Notification>>, i: nat, k: nat)
    requires IdsDistinct(ns) && i < |unread| && unread[i] in ns && k < |ns| && ns[k].id == unread[i].id
    ensures var cur := ReadMarked(ns, unread[..i]);
      Patch(cur, k, cur[k].data.(read := true)) == ReadMarked(ns, unread[..i + 1])
  {
    var x := unread[i];
    assert unread[..i + 1] == unread[..i] + [x];
    var cur := ReadMarked(ns, unread[..i]);
    var p :| 0 <= p < |ns| && ns[p] == x;
    assert p == k;
    var a, b := Patch(cur, k, cur[k].data.(read := true)), ReadMarked(ns, unread[..i + 1]);
    forall j | 0 <= j < |ns|
      ensures a[j] == b[j]
    {
      if j != k {
        assert ns[j] != x;
        assert ns[j] in unread[..i + 1] <==> ns[j] in unread[..i];
      }
    }
  }

  /** When every unread notification of the user is marked, marking them is marking all of
      the user's notifications read. */
  lemma MarkedAll(ns: seq<Doc<Notification>>, user: UserId)
    ensures ReadMarked(ns, Filter(ns, (n: Doc<Notification>) => IsUnreadFor(n, user))) == ReadAll(ns, user)
  {
    var unread := Filter(ns, (n: Doc<Notification>) => IsUnreadFor(n, user));
    var a, b := ReadMarked(ns, unread), ReadAll(ns, user);
    forall j | 0 <= j < |ns|
      ensures a[j] == b[j]
    {
      if IsUnreadFor(ns[j], user) {
        assert ns[j] in unread;
      }
    }
  }

  /** `markAllRead()`: collect the caller's unread notifications, mark each read, return how
      many there were. */
  method MarkAllRead(db: Database, caller: UserId) returns (count: nat)
    requires db.Valid()
    modifies db
    ensures db.Valid()
    ensures count == UnreadCount(old(db.notifications), caller)
    ensures db.State() == old(db.State()).(notifications := ReadAll(old(db.notifications), caller))
  {
    ghost var ns := db.notifications;
    var unread := Filter(db.notifications, (n: Doc<Notification>) => IsUnreadFor(n, caller));
    assert ReadMarked(ns, unread[..0]) == ns;
    var i := 0;
    while i < |unread|
      invariant 0 <= i <= |unread|
      invariant db.Valid() && |db.notifications| == |ns|
      invariant db.notifications == ReadMarked(ns, unread[..i])
      invariant db.State() == old(db.State()).(notifications := db.notifications)
    {
      var k := IndexOf(db.notifications, unread[i].id);
      IndexOfKeptIds(ns, db.notifications, unread[i].id);
      assert unread[i] in ns;
      MarkStep(ns, unread, i, k.value);
      db.MarkNotificationRead(k.value);
      i := i + 1;
    }
    assert unread[..i] == unread;
    MarkedAll(ns, caller);
    count := |unread|;
  }

  // ---------------------------------------------------------------------------------------
  // sendNudge, sendCelebration
  // ---------------------------------------------------------------------------------------

  /** The habit check of `sendNudge` and `sendCelebration`: a named habit must exist, belong
      to the recipient and be public. */
  function HabitCheck(habits: seq<Doc<Habit>>, to: UserId, habitId: Option<Id>): (r: Result<(), Error>)
    ensures r.Err? ==> r.error == HabitNotFound
    ensures r.Ok? <==> (habitId.None? || (
      var h := Get(habits, habitId.value); h.Some? && h.value.userId == to && h.value.isPublic))
  {
    match habitId
    case None => Ok(())
    case Some(id) =>
      match Get(habits, id)
      case None => Err(HabitNotFound)
      case Some(h) => if h.userId != to || !h.isPublic then Err(HabitNotFound) else Ok(())
  }

  /** `sendNudge({ toUserId, habitId, message })`: only to a friend, at most three a day to
      the same friend, and only about one of the friend's public habits. */
  function NudgeFriend(t: Tables, caller: UserId, to: UserId, habitId: Option<Id>, message: Option<string>, now: int): (r: Step<Id>)
    requires PairsUnique(t.friendships) && InDomain(DayOf(now))
    ensures r.result.Err? ==> r.tables == t
  {
    if !AreFriends(t.friendships, caller, to) then Step(t, Err(NotFriends))
    else if CountNudgesToday(t.notifications, caller, to, now) >= MaxNudgesPerDay then Step(t, Err(NudgeLimitReached))
    else match HabitCheck(t.habits, to, habitId)
      case Err(e) => Step(t, Err(e))
      case Ok(_) => Step(Post(t, Notification(to, Some(caller), Nudge, habitId, message, false), now), Ok(t.nextId))
  }

  /** The errors of `sendNudge`, each with the condition it is thrown on; the limit is the
      number of nudges already sent to that friend on the UTC day of `now`. */
  lemma NudgeErrors(t: Tables, caller: UserId, to: UserId, habitId: Option<Id>, message: Option<string>, now: int)
    requires PairsUnique(t.friendships) && InDomain(DayOf(now))
    ensures var r := NudgeFriend(t, caller, to, habitId, message, now).result;
      var friends, sent := AreFriends(t.friendships, caller, to), NudgesOnDay(t.notifications, caller, to, DayOf(now));
      && (r == Err(NotFriends) <==> !friends)
      && (r == Err(NudgeLimitReached) <==> friends && sent >= MaxNudgesPerDay)
      && (r == Err(HabitNotFound) <==> friends && sent < MaxNudgesPerDay && HabitCheck(t.habits, to, habitId).Err?)
      && (r.Ok? <==> friends && sent < MaxNudgesPerDay && HabitCheck(t.habits, to, habitId).Ok?)
  {
  }

  /** A nudge that goes through is one more nudge from the caller to the friend on the day
      of `now` and still at most three; it moves no other count; so it keeps the cap. */
  lemma NudgeCounts(t: Tables, caller: UserId, to: UserId, habitId: Option<Id>, message: Option<string>, now: int,
                    from: UserId, other: UserId, day: int)
    requires PairsUnique(t.friendships) && InDomain(DayOf(now))
    requires NudgeFriend(t, caller, to, habitId, message, now).result.Ok?
    ensures var ns, ns' := t.notifications, NudgeFriend(t, caller, to, habitId, message, now).tables.notifications;
      && NudgesOnDay(ns', caller, to, DayOf(now)) == NudgesOnDay(ns, caller, to, DayOf(now)) + 1
      && NudgesOnDay(ns', caller, to, DayOf(now)) <= MaxNudgesPerDay
      && ((from, other, day) != (caller, to, DayOf(now)) ==> NudgesOnDay(ns', from, other, day) == NudgesOnDay(ns, from, other, day))
  {
    var d := Doc(t.nextId, now, Notification(to, Some(caller), Nudge, habitId, message, false));
    NudgesAfterInsert(t.notifications, d, caller, to, DayOf(now));
    NudgesAfterInsert(t.notifications, d, from, other, day);
    if IsNudgeIn(d, from, other, day * MsPerDay, day * MsPerDay + MsPerDay) {
      NudgeDay(d, from, other, day);
    }
  }

  /** A nudge that goes through keeps the cap on every sender, recipient and day. */
  lemma NudgeKeepsCap(t: Tables, caller: UserId, to: UserId, habitId: Option<Id>, message: Option<string>, now: int)
    requires PairsUnique(t.friendships) && InDomain(DayOf(now)) && NudgeCap(t.notifications)
    ensures NudgeCap(NudgeFriend(t, caller, to, habitId, message, now).tables.notifications)
  {
    if NudgeFriend(t, caller, to, habitId, message, now).result.Ok? {
      forall from, other, day
        ensures NudgesOnDay(NudgeFriend(t, caller, to, habitId, message, now).tables.notifications, from, other, day) <= MaxNudgesPerDay
      {
        NudgeCounts(t, caller, to, habitId, message, now, from, other, day);
      }
    }
  }

  /** `sendNudge` against the store. */
  method SendNudge(db: Database, caller: UserId, toUserId: UserId, habitId: Option<Id>, message: Option<string>, now: int)
    returns (r: Result<Id, Error>)
    requires db.Valid() && InDomain(DayOf(now))
    modifies db
    ensures db.Valid()
    ensures Step(db.State(), r) == NudgeFriend(old(db.State()), caller, toUserId, habitId, message, now)
  {
    var isFriend := AreFriends(db.friendships, caller, toUserId);
    if !isFriend {
      return Err(NotFriends);
    }
    var nudgeCount := CountNudgesToday(db.notifications, caller, toUserId, now);
    if nudgeCount >= MaxNudgesPerDay {
      return Err(NudgeLimitReached);
    }
    if habitId.Some? {
      var habit := Get(db.habits, habitId.value);
      if habit.None? || habit.value.userId != toUserId || !habit.value.isPublic {
        return Err(HabitNotFound);
      }
    }
    var notificationId := db.InsertNotification(Notification(toUserId, Some(caller), Nudge, habitId, message, false), now);
    return Ok(notificationId);
  }

  /** `sendCelebration({ toUserId, habitId, message })`: as `sendNudge` without the limit. */
  function Celebrate(t: Tables, caller: UserId, to: UserId, habitId: Option<Id>, message: Option<string>, now: int): (r: Step<Id>)
    requires PairsUnique(t.friendships)
    ensures r.result.Err? ==> r.tables == t
  {
    if !AreFriends(t.friendships, caller, to) then Step(t, Err(NotFriends))
    else match HabitCheck(t.habits, to, habitId)
      case Err(e) => Step(t, Err(e))
      case Ok(_) => Step(Post(t, Notification(to, Some(caller), Celebration, habitId, message, false), now), Ok(t.nextId))
  }

  /** A celebration is refused only for a non-friend or a habit the friend does not show;
      one that goes through adds one notification for the friend and moves no nudge count. */
  lemma CelebrateMeaning(t: Tables, caller: UserId, to: UserId, habitId: Option<Id>, message: Option<string>, now: int,
                         from: UserId, other: UserId, day: int)
    requires PairsUnique(t.friendships)
    ensures var r := Celebrate(t, caller, to, habitId, message, now);
      && (r.result == Err(NotFriends) <==> !AreFriends(t.friendships, caller, to))
      && (r.result.Ok? <==> AreFriends(t.friendships, caller, to) && HabitCheck(t.habits, to, habitId).Ok?)
      && (r.result.Err? ==> r.result.error in {NotFriends, HabitNotFound})
      && NudgesOnDay(r.tables.notifications, from, other, day) == NudgesOnDay(t.notifications, from, other, day)
      && (r.result.Ok? ==> UnreadCount(r.tables.notifications, to) == UnreadCount(t.notifications, to) + 1)
  {
    var d := Doc(t.nextId, now, Notification(to, Some(caller), Celebration, habitId, message, false));
    if Celebrate(t, caller, to, habitId, message, now).result.Ok? {
      NudgesAfterInsert(t.notifications, d, from, other, day);
      FilterAppend(t.notifications, d, (n: Doc<Notification>) => IsUnreadFor(n, to));
    }
  }

  /** `sendCelebration` against the store. */
  method SendCelebration(db: Database, caller: UserId, toUserId: UserId, habitId: Option<Id>, message: Option<string>, now: int)
    returns (r: Result<Id, Error>)
    requires db.Valid()
    modifies db
    ensures db.Valid()
    ensures Step(db.State(), r) == Celebrate(old(db.State()), caller, toUserId, habitId, message, now)
  {
    var isFriend := AreFriends(db.friendships, caller, toUserId);
    if !isFriend {
      return Err(NotFriends);
    }
    if habitId.Some? {
      var habit := Get(db.habits, habitId.value);
      if habit.None? || habit.value.userId != toUserId || !habit.value.isPublic {
        return Err(HabitNotFound);
      }
    }
    var notificationId := db.InsertNotification(Notification(toUserId, Some(caller), Celebration, habitId, message, false), now);
    return Ok(notificationId);
  }

  // ---------------------------------------------------------------------------------------
  // createStreakMilestone
  // ---------------------------------------------------------------------------------------

  /** The message of a streak milestone notification. */
  function MilestoneMessage(streak: int): string
  {
    "You've reached a " + DecimalString(streak) + " day streak!"
  }

  /** `createStreakMilestone({ userId, habitId, streak })`: no caller check, no habit lookup. */
  function Milestone(t: Tables, userId: UserId, habitId: Id, streak: int, now: int): Step<Id>
  {
    Step(Post(t, Notification(userId, None, StreakMilestone, Some(habitId), Some(MilestoneMessage(streak)), false), now), Ok(t.nextId))
  }

  /** `String(n)` of a natural number is its decimal digits. */
  lemma {:induction false} NaturalStringValue(n: nat)
    ensures AllDigits(NaturalString(n)) && |NaturalString(n)| >= 1
    ensures DigitsValue(NaturalString(n)) == n
  {
    if n >= 10 {
      NaturalStringValue(n / 10);
      var s := NaturalString(n / 10);
      assert (s + [DigitChar(n % 10)])[..|s|] == s;
    }
  }

  /** The streak can be read back from the milestone message, and the notification is an
      unread milestone for the user with no sender, so it is never counted as a nudge. */
  lemma MilestoneMeaning(t: Tables, userId: UserId, habitId: Id, streak: nat, now: int)
    ensures var r := Milestone(t, userId, habitId, streak, now);
      var n := r.tables.notifications[|t.notifications|].data;
      && r.result == Ok(t.nextId)
      && n.userId == userId && n.fromUserId.None? && n.kind == StreakMilestone && !n.read
      && n.message.Some?
      && var m := n.message.value;
         var prefix, suffix := "You've reached a ", " day streak!";
         && |m| > |prefix| + |suffix|
         && m[..|prefix|] == prefix && m[|m| - |suffix|..] == suffix
         && AllDigits(m[|prefix|..|m| - |suffix|])
         && DigitsValue(m[|prefix|..|m| - |suffix|]) == streak
  {
    var prefix, digits, suffix := "You've reached a ", NaturalString(streak), " day streak!";
    NaturalStringValue(streak);
    var m := prefix + digits + suffix;
    assert m[..|prefix|] == prefix;
    assert m[|m| - |suffix|..] == suffix;
    assert m[|prefix|..|m| - |suffix|] == digits;
  }

  /** `createStreakMilestone` against the store. */
  method CreateStreakMilestone(db: Database, userId: UserId, habitId: Id, streak: int, now: int) returns (r: Result<Id, Error>)
    requires db.Valid()
    modifies db
    ensures db.Valid()
    ensures Step(db.State(), r) == Milestone(old(db.State()), userId, habitId, streak, now)
  {
    var notificationId := db.InsertNotification(
      Notification(userId, None, StreakMilestone, Some(habitId), Some(MilestoneMessage(streak)), false), now);
    return Ok(notificationId);
  }

  // ---------------------------------------------------------------------------------------
  // deleteNotification
  // ---------------------------------------------------------------------------------------

  /** `deleteNotification({ notificationId })`. */
  function Dismiss(t: Tables, caller: UserId, id: Id): (r: Step<Id>)
    ensures r.result.Err? ==> r.tables == t
    ensures r.result.Ok? ==> r.result.value == id
  {
    match FindOwn(t.notifications, caller, id)
    case Err(e) => Step(t, Err(e))
    case Ok(k) => Step(t.(notifications := Delete(t.notifications, k)), Ok(id))
  }

  /** A deletion that goes through removes the caller's notification with that id and keeps
      every other notification, in order; a caller's unread count drops by one if it was
      unread. */
  lemma DismissMeaning(t: Tables, caller: UserId, id: Id, user: UserId)
    requires IdsDistinct(t.notifications) && Dismiss(t, caller, id).result.Ok?
    ensures var ns, ns' := t.notifications, Dismiss(t, caller, id).tables.notifications;
      var k := IndexOf(ns, id).value;
      && IsFor(ns[k], caller)
      && |ns'| == |ns| - 1
      && (forall j :: 0 <= j < |ns'| ==> ns'[j].id != id)
      && (forall n :: n in ns && n.id != id ==> n in ns')
      && UnreadCount(ns', user) == UnreadCount(ns, user) - (if IsUnreadFor(ns[k], user) then 1 else 0)
  {
    var ns := t.notifications;
    var k := IndexOf(ns, id).value;
    CountDelete(ns, k, (n: Doc<Notification>) => IsUnreadFor(n, user));
    DeleteRemovesOnly(ns, k);
  }

  /** `deleteNotification` against the store. */
  method DeleteNotification(db: Database, caller: UserId, notificationId: Id) returns (r: Result<Id, Error>)
    requires db.Valid()
    modifies db
    ensures db.Valid()
    ensures Step(db.State(), r) == Dismiss(old(db.State()), caller, notificationId)
  {
    var k := IndexOf(db.notifications, notificationId);
    if k.None? || db.notifications[k.value].data.userId != caller {
      return Err(NotificationNotFound);
    }
    db.DeleteNotification(k.value);
    return Ok(notificationId);
  }
}
