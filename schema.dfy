/** The four tables of packages/backend/convex/schema.ts, the errors the handlers throw,
    and the generic table operations the handlers are written with. */
module Schema {
  import opened Wrappers

  /** An identity provider's user id, the only user reference the tables hold. */
  type UserId = string

  /** A document id. One counter hands out the ids of every table. */
  type Id = nat

  /** A stored document: its `_id`, its `_creationTime` in milliseconds, and its fields. */
  datatype Doc<T> = Doc(id: Id, creationTime: int, data: T)

  datatype Habit = Habit(
    userId: UserId,
    name: string,
    description: Option<string>,
    icon: Option<string>,
    color: Option<string>,
    scheduleDays: seq<int>,
    reminderTime: Option<string>,
    isArchived: bool,
    isPublic: bool)

  datatype HabitLog = HabitLog(
    habitId: Id,
    userId: UserId,
    date: string,
    completed: bool,
    completedAt: Option<int>,
    note: Option<string>)

  datatype FriendshipStatus = Pending | Accepted | Rejected

  datatype Friendship = Friendship(requesterId: UserId, addresseeId: UserId, status: FriendshipStatus)

  datatype NotificationType = FriendRequest | FriendAccepted | Nudge | Celebration | StreakMilestone

  datatype Notification = Notification(
    userId: UserId,
    fromUserId: Option<UserId>,
    kind: NotificationType,
    habitId: Option<Id>,
    message: Option<string>,
    read: bool)

  /** The errors the handlers throw. */
  datatype Error =
    | HabitNotFound
    | InvalidScheduleDay
    | CannotFriendSelf
    | RequestAlreadySent
    | AlreadyFriends
    | RequestNotFound
    | NotAuthorized
    | RequestAlreadyProcessed
    | FriendshipNotFound
    | NotificationNotFound
    | NotFriends
    | NudgeLimitReached

  /** The message each error is thrown with. */
  function ErrorMessage(e: Error): string
  {
    match e
    case HabitNotFound => "Habit not found"
    case InvalidScheduleDay => "Invalid schedule day"
    case CannotFriendSelf => "Cannot send friend request to yourself"
    case RequestAlreadySent => "Friend request already sent"
    case AlreadyFriends => "Already friends"
    case RequestNotFound => "Friend request not found"
    case NotAuthorized => "Not authorized"
    case RequestAlreadyProcessed => "Request already processed"
    case FriendshipNotFound => "Friendship not found"
    case NotificationNotFound => "Notification not found"
    case NotFriends => "Not friends"
    case NudgeLimitReached => "You can only send 3 nudges per day to each friend"
  }

  /** Every id in the table was handed out before `next`. */
  predicate IdsBelow<T>(t: seq<Doc<T>>, next: nat)
  {
    forall i :: 0 <= i < |t| ==> t[i].id < next
  }

  predicate IdsDistinct<T>(t: seq<Doc<T>>)
  {
    forall i, j :: 0 <= i < j < |t| ==> t[i].id != t[j].id
  }

  /** The documents in the order of their ids, which is the order they were created in. */
  predicate IdsIncreasing<T>(t: seq<Doc<T>>)
  {
    forall i, j :: 0 <= i < j < |t| ==> t[i].id < t[j].id
  }

  /** Appending a document with the next id keeps the ids fresh, distinct and in order. */
  lemma AppendFresh<T>(t: seq<Doc<T>>, next: nat, d: Doc<T>)
    requires IdsBelow(t, next) && IdsDistinct(t) && d.id == next
    ensures IdsBelow(t + [d], next + 1) && IdsDistinct(t + [d])
    ensures IdsIncreasing(t) ==> IdsIncreasing(t + [d])
  {
    var t' := t + [d];
    forall i, j | 0 <= i < j < |t'|
      ensures t'[i].id != t'[j].id
    {
      if j == |t| {
        assert t'[i].id == t[i].id < next;
      }
    }
  }

  /** `ctx.db.get(id)` on one table: the position of the document with that id. */
  function IndexOf<T>(t: seq<Doc<T>>, id: Id): (r: Option<nat>)
    ensures r.Some? ==> r.value < |t| && t[r.value].id == id
    ensures r.None? ==> forall k :: 0 <= k < |t| ==> t[k].id != id
  {
    if t == [] then None
    else if t[0].id == id then Some(0)
    else match IndexOf(t[1..], id)
      case None => None
      case Some(k) => Some(k + 1)
  }

  /** `ctx.db.get(id)`: the fields of the document with that id, if there is one. */
  function Get<T>(t: seq<Doc<T>>, id: Id): (r: Option<T>)
    ensures r.Some? <==> exists k :: 0 <= k < |t| && t[k].id == id
    ensures IdsDistinct(t) ==> forall k :: 0 <= k < |t| && t[k].id == id ==> r == Some(t[k].data)
  {
    match IndexOf(t, id)
    case None => None
    case Some(k) => Some(t[k].data)
  }

  /** `ctx.db.patch(id, ...)` at a known position: the id and creation time stay. */
  function Patch<T>(t: seq<Doc<T>>, k: nat, data: T): (r: seq<Doc<T>>)
    requires k < |t|
    ensures |r| == |t| && r[k].data == data
    ensures forall i :: 0 <= i < |t| ==> r[i].id == t[i].id && r[i].creationTime == t[i].creationTime
    ensures forall i :: 0 <= i < |t| && i != k ==> r[i] == t[i]
  {
    t[k := Doc(t[k].id, t[k].creationTime, data)]
  }

  /** `ctx.db.delete(id)` at a known position. */
  function Delete<T>(t: seq<Doc<T>>, k: nat): (r: seq<Doc<T>>)
    requires k < |t|
    ensures |r| == |t| - 1
    ensures forall i :: 0 <= i < k ==> r[i] == t[i]
    ensures forall i :: k <= i < |r| ==> r[i] == t[i + 1]
  {
    t[..k] + t[k + 1..]
  }

  /** With distinct ids, deleting one document removes its id and keeps every other document. */
  lemma DeleteRemovesOnly<T>(t: seq<Doc<T>>, k: nat)
    requires k < |t| && IdsDistinct(t)
    ensures forall j :: 0 <= j < |Delete(t, k)| ==> Delete(t, k)[j].id != t[k].id
    ensures forall d :: d in t && d.id != t[k].id ==> d in Delete(t, k)
  {
    var r := Delete(t, k);
    forall d | d in t && d.id != t[k].id
      ensures d in r
    {
      var p :| 0 <= p < |t| && t[p] == d;
      if p < k {
        assert r[p] == d;
      } else {
        assert r[p - 1] == d;
      }
    }
  }

  /** Patching keeps the ids, so it keeps them fresh, distinct and in order. */
  lemma PatchKeepsIds<T>(t: seq<Doc<T>>, k: nat, data: T, next: nat)
    requires k < |t| && IdsBelow(t, next) && IdsDistinct(t)
    ensures IdsBelow(Patch(t, k, data), next) && IdsDistinct(Patch(t, k, data))
    ensures IdsIncreasing(t) ==> IdsIncreasing(Patch(t, k, data))
  {
  }

  /** The elements of s that satisfy p, in their order (a `.filter(...)` on a query). */
  function Filter<T>(s: seq<T>, p: T -> bool): (r: seq<T>)
    ensures |r| <= |s|
    ensures forall i :: 0 <= i < |r| ==> r[i] in s && p(r[i])
    ensures forall i :: 0 <= i < |s| && p(s[i]) ==> s[i] in r
  {
    if s == [] then []
    else
      var init, last := s[..|s| - 1], s[|s| - 1];
      assert s == init + [last];
      Filter(init, p) + (if p(last) then [last] else [])
  }

  lemma FilterAppend<T>(s: seq<T>, x: T, p: T -> bool)
    ensures Filter(s + [x], p) == Filter(s, p) + (if p(x) then [x] else [])
  {
    assert (s + [x])[..|s|] == s;
  }

  lemma FilterTwo<T>(x: T, y: T, p: T -> bool)
    ensures Filter([x, y], p) == (if p(x) then [x] else []) + (if p(y) then [y] else [])
  {
    FilterAppend([x], y, p);
    FilterAppend([], x, p);
    assert [x] + [y] == [x, y] && [] + [x] == [x];
  }

  lemma {:induction false} FilterConcat<T>(s: seq<T>, t: seq<T>, p: T -> bool)
    ensures Filter(s + t, p) == Filter(s, p) + Filter(t, p)
    decreases |t|
  {
    if t == [] {
      assert s + t == s;
    } else {
      var init, last := t[..|t| - 1], t[|t| - 1];
      assert t == init + [last];
      assert s + t == (s + init) + [last];
      FilterAppend(s + init, last, p);
      FilterAppend(init, last, p);
      FilterConcat(s, init, p);
    }
  }

  /** `.map(f)`. */
  function Map<T, U>(s: seq<T>, f: T -> U): (r: seq<U>)
    ensures |r| == |s| && forall i :: 0 <= i < |s| ==> r[i] == f(s[i])
  {
    seq(|s|, i requires 0 <= i < |s| => f(s[i]))
  }

  /** What a mapped filter holds: the images of the elements that pass. */
  lemma MapFilterMember<T, U>(s: seq<T>, p: T -> bool, g: T -> U, x: U)
    ensures x in Map(Filter(s, p), g) <==> exists k :: 0 <= k < |s| && p(s[k]) && g(s[k]) == x
  {
    var f := Filter(s, p);
    var m := Map(f, g);
    if x in m {
      var i :| 0 <= i < |m| && m[i] == x;
      var k :| 0 <= k < |s| && s[k] == f[i];
    }
    if exists k :: 0 <= k < |s| && p(s[k]) && g(s[k]) == x {
      var k :| 0 <= k < |s| && p(s[k]) && g(s[k]) == x;
      var i :| 0 <= i < |f| && f[i] == s[k];
      assert m[i] == x;
    }
  }

  /** The elements of s last to first (a query in `order("desc")`). */
  function Reverse<T>(s: seq<T>): (r: seq<T>)
    ensures |r| == |s| && forall i :: 0 <= i < |s| ==> r[i] == s[|s| - 1 - i]
  {
    seq(|s|, i requires 0 <= i < |s| => s[|s| - 1 - i])
  }

  /** The first n elements of s, or all of them when there are fewer (`.take(n)`,
      `.slice(0, n)`). */
  function Take<T>(s: seq<T>, n: nat): (r: seq<T>)
    ensures |r| == (if n < |s| then n else |s|) && r == s[..|r|]
  {
    if n < |s| then s[..n] else s
  }

  /** How many elements of s satisfy p (`.collect()` followed by `.length`). */
  function Count<T>(s: seq<T>, p: T -> bool): nat
  {
    |Filter(s, p)|
  }
}
